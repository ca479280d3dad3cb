/** Which file a directive names, from the text it is written with to the text
    that replaces it. */
module InputNames {
  import opened Text
  import opened Inputs
  import opened InputTokens
  import opened InputWalk
  import opened InputFixpoints

  // ---- Names as they are written ----

  /** A name with the whitespace around it. */
  datatype Written = Written(before: string, name: string, after: string)

  function Spelt(a: Written): string {
    a.before + (a.name + a.after)
  }

  predicate IsWritten(a: Written) {
    IsBlank(a.before) && IsBlank(a.after) && HasInkAtEnds(a.name) && Braceless(a.name)
  }

  lemma BlankIsBraceless(s: string)
    requires IsBlank(s)
    ensures Braceless(s) && NoComma(s)
  {
    assert forall i :: 0 <= i < |s| ==> IsListed(s[i]);
  }

  lemma SpeltIsValid(a: Written, k: Kind)
    requires IsWritten(a) && Spelt(a) != ""
    ensures ValidArg(k, Spelt(a)) && Trim(Spelt(a)) == a.name
  {
    hide Trim, IsBlank, HasInkAtEnds;
    BlankIsBraceless(a.before);
    BlankIsBraceless(a.after);
    TrimOfPadded(a.before, a.name, a.after);
  }

  // ---- Inputs ----

  predicate IsInputWord(word: string) {
    word == "\\input{" || word == "\\include{"
  }

  function InputOf(word: string, a: Written): string {
    word + (Spelt(a) + "}")
  }

  /** Where a name is looked for, in this order: in the directory of the file it
      stands in and at the root, each as it is and with `.tex` behind it. */
  function Place(p: Project, dir: string, name: string, i: nat): (string, string)
    requires i < 4
  {
    if i == 0 then (dir, name)
    else if i == 1 then (dir, name + ".tex")
    else if i == 2 then (p.root, name)
    else (p.root, name + ".tex")
  }

  /** `key` is the file at the first of these places that the project holds. */
  ghost predicate Finds(p: Project, dir: string, name: string, key: string) {
    exists i :: 0 <= i < 4 && Place(p, dir, name, i) in p.found && p.found[Place(p, dir, name, i)] == key
                && forall j :: 0 <= j < i ==> Place(p, dir, name, j) !in p.found
  }

  predicate IsNowhere(p: Project, dir: string, name: string) {
    forall j :: 0 <= j < 4 ==> Place(p, dir, name, j) !in p.found
  }

  /** The file at a key and its directory. */
  function FileAt(p: Project, key: string, depth: nat, seen: seq<string>): Out
    requires depth <= MAX_DEPTH
  {
    Expand(p, Content(p, key), Parent(key), depth + 1, seen + [key])
  }

  function KindOfWord(word: string): (k: Kind)
    requires IsInputWord(word)
    ensures (k == Input || k == Include) && Head(k) == word
  {
    if word == "\\input{" then Input else Include
  }

  lemma InputIsDir(word: string, a: Written)
    requires IsInputWord(word)
    ensures InputOf(word, a) == PrintDir(KindOfWord(word), Spelt(a))
  {
  }

  lemma FirstPlaceResolves(p: Project, dir: string, a: Written, key: string)
    requires IsWritten(a) && Spelt(a) != "" && Finds(p, dir, a.name, key)
    ensures Resolve(p, dir, Spelt(a)) == Some(key)
  {
    hide Trim, IsWritten, Spelt;
    SpeltIsValid(a, Input);
    var i :| 0 <= i < 4 && Place(p, dir, a.name, i) in p.found && p.found[Place(p, dir, a.name, i)] == key
             && forall j :: 0 <= j < i ==> Place(p, dir, a.name, j) !in p.found;
    assert i > 0 ==> Place(p, dir, a.name, 0) !in p.found;
    assert i > 1 ==> Place(p, dir, a.name, 1) !in p.found;
    assert i > 2 ==> Place(p, dir, a.name, 2) !in p.found;
  }

  lemma NowhereResolvesNot(p: Project, dir: string, a: Written)
    requires IsWritten(a) && Spelt(a) != "" && IsNowhere(p, dir, a.name)
    ensures Resolve(p, dir, Spelt(a)) == None
  {
    hide Trim, IsWritten, Spelt;
    SpeltIsValid(a, Input);
    assert Place(p, dir, a.name, 0) !in p.found && Place(p, dir, a.name, 1) !in p.found;
    assert Place(p, dir, a.name, 2) !in p.found && Place(p, dir, a.name, 3) !in p.found;
  }

  /** In every project: the expanded content of the first file found replaces the
      input, before anything behind it is expanded; one that has been entered
      already leaves nothing. */
  lemma InputIsReplaced(p: Project, x: string, word: string, a: Written, y: string, dir: string, depth: nat,
                        seen: seq<string>, key: string)
    requires NoBackslash(x) && IsInputWord(word) && IsWritten(a) && Spelt(a) != "" && depth <= 10
    requires Finds(p, dir, a.name, key)
    ensures ExpandInputs(p, x + (InputOf(word, a) + y), dir, depth, seen) ==
            if key in seen then Copied(x, ExpandInputs(p, y, dir, depth, seen))
            else
              var inner := FileAt(p, key, depth, seen);
              Copied(x, Then(Called("", inner), ExpandInputs(p, y, dir, depth, inner.seen)))
  {
    hide ExpandInputs, Expand, Resolve, PrintDir, ValidArg, Quiet, IsWritten, Spelt, Finds, InputOf, Content;
    var k := KindOfWord(word);
    InputIsDir(word, a);
    SpeltIsValid(a, k);
    FirstPlaceResolves(p, dir, a, key);
    PlainIsQuiet(x);
    InputsPassQuiet(p, x, InputOf(word, a) + y, dir, depth, seen);
    InputDirStep(p, k, Spelt(a), y, dir, depth, seen);
  }

  /** An input that is found nowhere stays. */
  lemma InputIsKept(p: Project, x: string, word: string, a: Written, y: string, dir: string, depth: nat, seen: seq<string>)
    requires NoBackslash(x) && IsInputWord(word) && IsWritten(a) && Spelt(a) != "" && depth <= 10
    requires IsNowhere(p, dir, a.name)
    ensures ExpandInputs(p, x + (InputOf(word, a) + y), dir, depth, seen)
         == Copied(x, Copied(InputOf(word, a), ExpandInputs(p, y, dir, depth, seen)))
  {
    hide ExpandInputs, Expand, Resolve, PrintDir, ValidArg, Quiet, IsWritten, Spelt, IsNowhere, InputOf, Content;
    var k := KindOfWord(word);
    InputIsDir(word, a);
    SpeltIsValid(a, k);
    NowhereResolvesNot(p, dir, a);
    PlainIsQuiet(x);
    InputsPassQuiet(p, x, InputOf(word, a) + y, dir, depth, seen);
    InputDirStep(p, k, Spelt(a), y, dir, depth, seen);
  }

  // ---- The whole expansion ----

  lemma PlainInputs(p: Project, y: string, dir: string, depth: nat, seen: seq<string>)
    requires NoBackslash(y) && depth <= MAX_DEPTH
    ensures ExpandInputs(p, y, dir, depth, seen) == Out(y, seen, 0, false)
  {
    hide ExpandInputs, Quiet;
    PlainIsQuiet(y);
    InputsPassQuiet(p, y, "", dir, depth, seen);
    NoInputs(p, dir, depth, seen);
    assert y + "" == y;
  }

  lemma PlainStyles(y: string)
    requires NoBackslash(y)
    ensures DropStyles(y) == y
  {
    hide DropStyles, Quiet;
    PlainIsQuiet(y);
    StylesPassQuiet(y, "");
    NoStyles();
    assert y + "" == y;
  }

  lemma PlainBibs(p: Project, y: string, depth: nat, seen: seq<string>)
    requires NoBackslash(y) && depth <= MAX_DEPTH
    ensures ExpandBibs(p, y, depth, seen) == Out(y, seen, 0, false)
  {
    hide ExpandBibs, Quiet;
    PlainIsQuiet(y);
    BibsPassQuiet(p, y, "", depth, seen);
    NoInputs(p, "", depth, seen);
    assert y + "" == y;
  }

  /** Plain pieces make a plain text, which the later passes leave alone. */
  lemma PlainPieces(p: Project, x: string, c: string, y: string, depth: nat, seen: seq<string>)
    requires NoBackslash(x) && NoBackslash(c) && NoBackslash(y) && depth <= MAX_DEPTH
    ensures var t := x + (c + y);
            NoBackslash(t) && DropStyles(t) == t && ExpandBibs(p, t, depth, seen) == Out(t, seen, 0, false)
  {
    hide ExpandBibs, DropStyles;
    PlainStyles(x + (c + y));
    PlainBibs(p, x + (c + y), depth, seen);
  }

  /** A text without a backslash is left as it is; below depth ten that is all
      that can be said of any text. */
  lemma PlainExpands(p: Project, y: string, dir: string, depth: nat, seen: seq<string>)
    requires NoBackslash(y) && depth <= 11
    ensures Expand(p, y, dir, depth, seen) == Out(y, seen, 0, depth == 11)
  {
    hide ExpandInputs, ExpandBibs, DropStyles;
    if depth <= 10 {
      PlainInputs(p, y, dir, depth, seen);
      PlainStyles(y);
      PlainBibs(p, y, depth, seen);
    }
  }

  lemma DepthElevenIsLeft(p: Project, t: string, dir: string, seen: seq<string>)
    ensures Expand(p, t, dir, 11, seen) == Out(t, seen, 0, true)
  {
  }

  /** The first file found is the first one entered, whatever it holds and
      whatever follows. */
  lemma InputEntersFirst(p: Project, x: string, word: string, a: Written, y: string, key: string)
    requires NoBackslash(x) && IsInputWord(word) && IsWritten(a) && Spelt(a) != ""
    requires Finds(p, p.root, a.name, key)
    ensures var o := Expand(p, x + (InputOf(word, a) + y), p.root, 0, []);
            o.seen != [] && o.seen[0] == key
  {
    hide ExpandInputs, ExpandBibs, DropStyles, IsWritten, Spelt, Finds, InputOf, Content, Keys, Weight, Place;
    var t := x + (InputOf(word, a) + y);
    InputIsReplaced(p, x, word, a, y, p.root, 0, [], key);
    var inner := FileAt(p, key, 0, []);
    ExpandGrows(p, Content(p, key), Parent(key), 1, [] + [key]);
    InputsGrow(p, y, p.root, 0, inner.seen);
    var b := ExpandInputs(p, t, p.root, 0, []);
    BibsGrow(p, DropStyles(b.text), 0, b.seen);
    assert ([] + [key])[0] == key;
  }

  /** The expanded content of the first file found replaces the input, where the
      result holds no style and no bibliography that anything is found for. */
  lemma FileIsInlined(p: Project, x: string, word: string, a: Written, y: string, dir: string, depth: nat, key: string)
    requires NoBackslash(x) && NoBackslash(y) && IsInputWord(word) && IsWritten(a) && Spelt(a) != "" && depth <= 10
    requires Finds(p, dir, a.name, key)
    requires var toks := Read(x + (FileAt(p, key, depth, []).text + y), "");
             !HasStyle(toks) && !Findable(p, toks)
    ensures var o := Expand(p, x + (InputOf(word, a) + y), dir, depth, []);
            var inner := FileAt(p, key, depth, []);
            o.text == x + (inner.text + y) && o.seen == inner.seen
  {
    hide ExpandInputs, ExpandBibs, DropStyles, IsWritten, Spelt, Finds, InputOf, FileAt, Read, HasStyle, Findable;
    InputIsReplaced(p, x, word, a, y, dir, depth, [], key);
    var inner := FileAt(p, key, depth, []);
    PlainInputs(p, y, dir, depth, inner.seen);
    assert "" + inner.text == inner.text;
    LaterPassesCopy(p, x + (inner.text + y), depth, inner.seen);
  }

  /** The text of the first file found replaces the input. */
  lemma PlainFileIsInlined(p: Project, x: string, word: string, a: Written, y: string, dir: string, depth: nat, key: string)
    requires NoBackslash(x) && NoBackslash(y) && IsInputWord(word) && IsWritten(a) && Spelt(a) != "" && depth <= 10
    requires Finds(p, dir, a.name, key)
    requires key in p.files && NoBackslash(p.files[key])
    ensures Expand(p, x + (InputOf(word, a) + y), dir, depth, [])
         == Out(x + (p.files[key] + y), [key], 1, depth == 10)
  {
    hide ExpandInputs, ExpandBibs, DropStyles, IsWritten, Spelt, Finds, InputOf, Place, NoBackslash, Parent;
    var c := p.files[key];
    InputIsReplaced(p, x, word, a, y, dir, depth, [], key);
    PlainExpands(p, c, Parent(key), depth + 1, [] + [key]);
    assert [] + [key] == [key] && "" + c == c;
    PlainInputs(p, y, dir, depth, [key]);
    PlainPieces(p, x, c, y, depth, [key]);
  }

  /** An input that is found nowhere leaves the text as it is. */
  lemma MissingFileIsLeft(p: Project, x: string, word: string, a: Written, y: string, dir: string, depth: nat)
    requires NoBackslash(x) && NoBackslash(y) && IsInputWord(word) && IsWritten(a) && Spelt(a) != "" && depth <= 10
    requires IsNowhere(p, dir, a.name)
    ensures var t := x + (InputOf(word, a) + y);
            Expand(p, t, dir, depth, []) == Out(t, [], 0, false)
  {
    hide ExpandInputs, ExpandBibs, DropStyles, IsWritten, Spelt, IsNowhere, InputOf, PrintDir, Quiet, ValidArg;
    var k := KindOfWord(word);
    var d := InputOf(word, a);
    InputIsKept(p, x, word, a, y, dir, depth, []);
    PlainInputs(p, y, dir, depth, []);
    InputIsDir(word, a);
    SpeltIsValid(a, k);
    PlainIsQuiet(x);
    StylesPassQuiet(x, d + y);
    StylesPassDir(k, Spelt(a), y);
    PlainStyles(y);
    BibsPassQuiet(p, x, d + y, depth, []);
    BibsPassDir(p, k, Spelt(a), y, depth, []);
    PlainBibs(p, y, depth, []);
  }

  // ---- Directories ----

  predicate NoSlash(s: string) {
    forall i :: 0 <= i < |s| ==> s[i] != '/'
  }

  /** The directory of a path is what stands before its last slash. */
  lemma {:induction false} ParentOfPath(d: string, n: string)
    requires NoSlash(n)
    ensures Parent(d + ("/" + n)) == d
    decreases |n|
  {
    var path := d + ("/" + n);
    if n == "" {
      assert path[..|path| - 1] == d;
    } else {
      assert path[|path| - 1] == n[|n| - 1];
      assert path[..|path| - 1] == d + ("/" + n[..|n| - 1]);
      ParentOfPath(d, n[..|n| - 1]);
    }
  }

  /** An input in a file of a directory `d` is looked for there first: its text
      replaces it in the file, and the file's text the input of the file. */
  lemma NestedInputIsInlined(p: Project, x: string, word: string, a: Written, y: string, d: string, n: string,
                             x2: string, word2: string, a2: Written, y2: string, key2: string)
    requires NoBackslash(x) && NoBackslash(y) && IsInputWord(word) && IsWritten(a) && Spelt(a) != ""
    requires NoBackslash(x2) && NoBackslash(y2) && IsInputWord(word2) && IsWritten(a2) && Spelt(a2) != ""
    requires Finds(p, p.root, a.name, d + ("/" + n)) && NoSlash(n)
    requires d + ("/" + n) in p.files && p.files[d + ("/" + n)] == x2 + (InputOf(word2, a2) + y2)
    requires Finds(p, d, a2.name, key2)
    requires key2 != d + ("/" + n) && key2 in p.files && NoBackslash(p.files[key2])
    ensures Expand(p, x + (InputOf(word, a) + y), p.root, 0, [])
         == Out(x + ((x2 + (p.files[key2] + y2)) + y), [d + ("/" + n), key2], 2, false)
  {
    hide ExpandInputs, ExpandBibs, DropStyles, IsWritten, Spelt, Finds, InputOf, Place, NoBackslash, Parent, NoSlash;
    var key := d + ("/" + n);
    var c := p.files[key2];
    ParentOfPath(d, n);
    InputIsReplaced(p, x, word, a, y, p.root, 0, [], key);
    assert [] + [key] == [key] && [key] + [key2] == [key, key2];
    InputIsReplaced(p, x2, word2, a2, y2, d, 1, [key], key2);
    PlainExpands(p, c, Parent(key2), 2, [key, key2]);
    assert "" + c == c;
    PlainInputs(p, y2, d, 1, [key, key2]);
    var e := x2 + (c + y2);
    PlainPieces(p, x2, c, y2, 1, [key, key2]);
    assert "" + e == e;
    PlainInputs(p, y, p.root, 0, [key, key2]);
    PlainPieces(p, x, e, y, 0, [key, key2]);
  }

  // ---- Bibliographies ----

  predicate NoComma(s: string) {
    forall i :: 0 <= i < |s| ==> s[i] != ','
  }

  predicate AreWritten(names: seq<Written>) {
    forall i :: 0 <= i < |names| ==> IsWritten(names[i]) && NoComma(names[i].name)
  }

  function Listed(names: seq<Written>): string {
    if names == [] then ""
    else if |names| == 1 then Spelt(names[0])
    else Spelt(names[0]) + ("," + Listed(names[1..]))
  }

  function BibliographyOf(names: seq<Written>): string {
    "\\bibliography{" + (Listed(names) + "}")
  }

  predicate HasBbl(p: Project, a: Written) {
    a.name != "" && a.name in p.bbls
  }

  /** The file that a list of names stands for: that of the first name with a
      `.bbl`, else any `.bbl`. */
  ghost predicate StandFor(p: Project, names: seq<Written>, key: Option<string>) {
    || (exists i :: 0 <= i < |names| && HasBbl(p, names[i]) && key == Some(p.bbls[names[i].name])
                    && forall j :: 0 <= j < i ==> !HasBbl(p, names[j]))
    || ((forall i :: 0 <= i < |names| ==> !HasBbl(p, names[i])) && key == p.anyBbl)
  }

  function SpeltAll(names: seq<Written>): seq<string> {
    if names == [] then [] else [Spelt(names[0])] + SpeltAll(names[1..])
  }

  lemma {:induction false} SplitAtComma(s: string, rest: string)
    requires NoComma(s)
    ensures Split(s, ',') == [s] && Split(s + ("," + rest), ',') == [s] + Split(rest, ',')
    decreases |s|
  {
    var t := s + ("," + rest);
    if s == "" {
      assert t[0] == ',' && t[1..] == rest;
    } else {
      SplitAtComma(s[1..], rest);
      assert t[0] == s[0] && t[1..] == s[1..] + ("," + rest);
      assert [s[0]] + s[1..] == s;
    }
  }

  lemma SpeltHasNoComma(a: Written)
    requires IsWritten(a) && NoComma(a.name)
    ensures NoComma(Spelt(a)) && Braceless(Spelt(a))
  {
    BlankIsBraceless(a.before);
    BlankIsBraceless(a.after);
  }

  lemma {:induction false} ListIsSplit(names: seq<Written>)
    requires names != [] && AreWritten(names)
    ensures Split(Listed(names), ',') == SpeltAll(names) && Braceless(Listed(names))
    decreases |names|
  {
    hide Split, IsWritten, Spelt;
    SpeltHasNoComma(names[0]);
    if |names| == 1 {
      SplitAtComma(Spelt(names[0]), "");
      assert SpeltAll(names[1..]) == [];
    } else {
      ListIsSplit(names[1..]);
      SplitAtComma(Spelt(names[0]), Listed(names[1..]));
    }
  }

  lemma TrimOfSpelt(a: Written)
    requires IsWritten(a)
    ensures Trim(Spelt(a)) == a.name
  {
    hide Trim;
    TrimOfPadded(a.before, a.name, a.after);
  }

  lemma {:induction false} FirstNamedIsFirst(p: Project, names: seq<Written>)
    requires AreWritten(names)
    ensures FirstNamed(p, SpeltAll(names)) == None ==> forall i :: 0 <= i < |names| ==> !HasBbl(p, names[i])
    ensures FirstNamed(p, SpeltAll(names)).Some? ==>
              exists i :: 0 <= i < |names| && HasBbl(p, names[i])
                          && FirstNamed(p, SpeltAll(names)) == Some(p.bbls[names[i].name])
                          && forall j :: 0 <= j < i ==> !HasBbl(p, names[j])
    decreases |names|
  {
    hide Trim, IsWritten, Spelt;
    if names != [] {
      TrimOfSpelt(names[0]);
      assert SpeltAll(names)[1..] == SpeltAll(names[1..]) && SpeltAll(names)[0] == Spelt(names[0]);
      if HasBbl(p, names[0]) {
        assert FirstNamed(p, SpeltAll(names)) == Some(p.bbls[names[0].name]);
      } else {
        FirstNamedIsFirst(p, names[1..]);
        assert forall i :: 0 < i < |names| ==> names[1..][i - 1] == names[i];
        if FirstNamed(p, SpeltAll(names)).Some? {
          var i :| 0 <= i < |names[1..]| && HasBbl(p, names[1..][i])
                   && FirstNamed(p, SpeltAll(names[1..])) == Some(p.bbls[names[1..][i].name])
                   && forall j :: 0 <= j < i ==> !HasBbl(p, names[1..][j]);
          assert forall j :: 0 <= j < i + 1 ==> !HasBbl(p, names[j]);
          assert names[i + 1] == names[1..][i];
        }
      }
    }
  }

  lemma ListIsTarget(p: Project, names: seq<Written>, key: Option<string>)
    requires names != [] && AreWritten(names) && StandFor(p, names, key)
    ensures BibTarget(p, Listed(names)) == key && Braceless(Listed(names))
  {
    hide FirstNamed, Split, Listed, SpeltAll, IsWritten;
    ListIsSplit(names);
    FirstNamedIsFirst(p, names);
    if n :| 0 <= n < |names| && HasBbl(p, names[n]) && key == Some(p.bbls[names[n].name])
            && forall j :: 0 <= j < n ==> !HasBbl(p, names[j]) {
      var i :| 0 <= i < |names| && HasBbl(p, names[i])
               && FirstNamed(p, SpeltAll(names)) == Some(p.bbls[names[i].name])
               && forall j :: 0 <= j < i ==> !HasBbl(p, names[j]);
      assert i == n;
    }
  }

  lemma BibliographyIsDir(names: seq<Written>)
    requires Braceless(Listed(names)) && Listed(names) != ""
    ensures BibliographyOf(names) == PrintDir(Bib, Listed(names)) && ValidArg(Bib, Listed(names))
  {
  }

  /** In every project: the expanded content of that file replaces the bibliography,
      behind a heading; one that has been entered already leaves nothing, and
      without a file the bibliography stays. */
  lemma BibliographyIsReplaced(p: Project, x: string, names: seq<Written>, y: string, depth: nat, seen: seq<string>,
                               key: Option<string>)
    requires NoBackslash(x) && names != [] && AreWritten(names) && Listed(names) != "" && depth <= 10
    requires StandFor(p, names, key)
    ensures ExpandBibs(p, x + (BibliographyOf(names) + y), depth, seen) ==
            if key == None then Copied(x, Copied(BibliographyOf(names), ExpandBibs(p, y, depth, seen)))
            else if key.value in seen then Copied(x, ExpandBibs(p, y, depth, seen))
            else
              var inner := FileAt(p, key.value, depth, seen);
              Copied(x, Then(Called("\\section*{References}\n", inner), ExpandBibs(p, y, depth, inner.seen)))
  {
    hide ExpandBibs, Expand, BibTarget, PrintDir, ValidArg, Quiet, Listed, BibliographyOf, StandFor, AreWritten, Content;
    ListIsTarget(p, names, key);
    BibliographyIsDir(names);
    PlainIsQuiet(x);
    BibsPassQuiet(p, x, BibliographyOf(names) + y, depth, seen);
    if key == None {
      BibsPassDir(p, Bib, Listed(names), y, depth, seen);
    } else {
      BibDirStep(p, Listed(names), y, depth, seen);
    }
  }

  lemma BibliographyPasses(p: Project, x: string, names: seq<Written>, y: string, dir: string, depth: nat)
    requires NoBackslash(x) && NoBackslash(y) && names != [] && AreWritten(names) && Listed(names) != "" && depth <= 10
    ensures var t := x + (BibliographyOf(names) + y);
            ExpandInputs(p, t, dir, depth, []) == Out(t, [], 0, false) && DropStyles(t) == t
  {
    hide ExpandInputs, DropStyles, PrintDir, ValidArg, Quiet, Listed, BibliographyOf, AreWritten, Split;
    var d := BibliographyOf(names);
    ListIsSplit(names);
    BibliographyIsDir(names);
    PlainIsQuiet(x);
    InputsPassQuiet(p, x, d + y, dir, depth, []);
    InputsPassDir(p, Bib, Listed(names), y, dir, depth, []);
    PlainInputs(p, y, dir, depth, []);
    StylesPassQuiet(x, d + y);
    StylesPassDir(Bib, Listed(names), y);
    PlainStyles(y);
  }

  /** The text of that file, behind a heading, replaces the bibliography; without
      one the text is left as it is. */
  lemma PlainBibliographyIsInlined(p: Project, x: string, names: seq<Written>, y: string, dir: string, depth: nat,
                                   key: Option<string>)
    requires NoBackslash(x) && NoBackslash(y) && names != [] && AreWritten(names) && Listed(names) != "" && depth <= 10
    requires StandFor(p, names, key)
    requires key.Some? ==> key.value in p.files && NoBackslash(p.files[key.value])
    ensures var t := x + (BibliographyOf(names) + y);
            Expand(p, t, dir, depth, []) ==
            if key == None then Out(t, [], 0, false)
            else Out(x + (("\\section*{References}\n" + p.files[key.value]) + y), [key.value], 1, depth == 10)
  {
    hide ExpandInputs, ExpandBibs, DropStyles, Listed, BibliographyOf, StandFor, AreWritten;
    BibliographyPasses(p, x, names, y, dir, depth);
    BibliographyIsReplaced(p, x, names, y, depth, [], key);
    if key == None {
      PlainBibs(p, y, depth, []);
    } else {
      PlainExpands(p, p.files[key.value], Parent(key.value), depth + 1, [] + [key.value]);
      assert [] + [key.value] == [key.value];
      PlainBibs(p, y, depth, [key.value]);
    }
  }

  /** A style is dropped, whatever it names. */
  lemma StyleIsDropped(p: Project, x: string, arg: string, y: string, dir: string, depth: nat)
    requires NoBackslash(x) && NoBackslash(y) && Braceless(arg) && depth <= 10
    ensures Expand(p, x + (("\\bibliographystyle{" + (arg + "}")) + y), dir, depth, []) == Out(x + y, [], 0, false)
  {
    hide ExpandInputs, ExpandBibs, DropStyles, Quiet, PrintDir;
    StyleIsDir(arg);
    var d := PrintDir(Style, arg);
    PlainIsQuiet(x);
    InputsPassQuiet(p, x, d + y, dir, depth, []);
    InputsPassDir(p, Style, arg, y, dir, depth, []);
    PlainInputs(p, y, dir, depth, []);
    StylesPassQuiet(x, d + y);
    StylesPassDir(Style, arg, y);
    PlainStyles(y);
    assert "" + y == y;
    PlainBibs(p, x + y, depth, []);
  }

  lemma StyleIsDir(arg: string)
    ensures "\\bibliographystyle{" + (arg + "}") == PrintDir(Style, arg)
  {
  }
}
