/** Directives that arise from joined pieces: what they do to the expansion, and
    texts in which they make it enter a file, leave an input behind, or do
    nothing. */
module JoinedPieces {
  import opened Text
  import opened Inputs
  import opened InputTokens
  import opened InputWalk
  import opened InputsLeft

  // ---- A bibliography that arises ----

  /** Of the characters of `toks` at which a bibliography arises in front of `u`,
      the first leads to the file `path`. */
  predicate LeadsTo(p: Project, toks: Tokens, u: string, path: string) {
    match toks
    case Nil => false
    case Chr(c, rest) =>
      var t := [c] + (Print(rest) + u);
      if MatchEnd(t, Bib).Some? then BibTarget(p, Argument(t, Bib)) == Some(path) else LeadsTo(p, rest, u, path)
    case Dir(_, _, _, rest) => LeadsTo(p, rest, u, path)
  }

  /** The first directive that arises in the walk of a file is a bibliography that
      leads to a file not entered by then, with the key `path`. */
  predicate Arises(p: Project, t: string, dir: string, depth: nat, seen: seq<string>, path: string)
    requires depth <= MAX_DEPTH + 1
    decreases MAX_DEPTH + 1 - depth, 1
  {
    && depth <= MAX_DEPTH
    && var v := Visit(p, Read(t, dir), dir, depth, seen);
       || ArisesInVisit(p, Read(t, dir), dir, depth, seen, path)
       || (!v.halted && !v.joined && Unjoined(v.items, true, Style) && ArisesInFinish(p, v.items, depth, v.seen, path))
  }

  predicate ArisesInVisit(p: Project, toks: Tokens, dir: string, depth: nat, seen: seq<string>, path: string)
    requires depth <= MAX_DEPTH
    decreases MAX_DEPTH + 1 - depth, 0, toks
  {
    match toks
    case Nil => false
    case Chr(_, rest) => ArisesInVisit(p, rest, dir, depth, seen, path)
    case Dir(k, arg, _, rest) =>
      var inner := if k == Input || k == Include then Resolve(p, dir, arg) else None;
      if inner == None || inner.value in seen then ArisesInVisit(p, rest, dir, depth, seen, path)
      else
        var w := Walk(p, Content(p, inner.value), Parent(inner.value), depth + 1, seen + [inner.value]);
        || Arises(p, Content(p, inner.value), Parent(inner.value), depth + 1, seen + [inner.value], path)
        || (!w.halted && !w.joined && ArisesInVisit(p, rest, dir, depth, w.seen, path))
  }

  predicate ArisesInFinish(p: Project, items: Items, depth: nat, seen: seq<string>, path: string)
    requires depth <= MAX_DEPTH
    decreases MAX_DEPTH + 1 - depth, 0, items
  {
    match items
    case NoItems => false
    case Kept(c, rest) =>
      var t := [c] + PrintItems(rest, false);
      if MatchEnd(t, Bib).Some? then BibTarget(p, Argument(t, Bib)) == Some(path) && path !in seen
      else ArisesInFinish(p, rest, depth, seen, path)
    case Sub(inner, rest) =>
      if Silent(inner, PrintItems(rest, false), Bib) then ArisesInFinish(p, rest, depth, seen, path)
      else LeadsTo(p, inner, PrintItems(rest, false), path) && path !in seen
    case Mark(k, arg, _, rest) =>
      var inner := if k == Bib then BibTarget(p, arg) else None;
      if inner == None || inner.value in seen then ArisesInFinish(p, rest, depth, seen, path)
      else
        var i := Walk(p, Content(p, inner.value), Parent(inner.value), depth + 1, seen + [inner.value]);
        || Arises(p, Content(p, inner.value), Parent(inner.value), depth + 1, seen + [inner.value], path)
        || (!i.halted && !i.joined && ArisesInFinish(p, rest, depth, i.seen, path))
  }

  lemma {:induction false} ArisenIsEntered(p: Project, toks: Tokens, u: string, depth: nat, seen: seq<string>, path: string)
    requires depth <= MAX_DEPTH && Clean(p, toks) && LeadsTo(p, toks, u, path) && path !in seen
    ensures path in ExpandBibs(p, Print(toks) + u, depth, seen).seen
  {
    hide ExpandBibs, MatchEnd, PrintDir, BibTarget, ValidArg;
    match toks
    case Chr(c, rest) =>
      Associate([c], Print(rest), u);
      if MatchEnd([c] + (Print(rest) + u), Bib).Some? {
        FoundIsEntered(p, [c] + (Print(rest) + u), depth, seen, path);
      } else {
        BibsPassChar(p, c, Print(rest) + u, depth, seen);
        ArisenIsEntered(p, rest, u, depth, seen, path);
      }
    case Dir(k, arg, _, rest) =>
      Associate(PrintDir(k, arg), Print(rest), u);
      BibsPassDir(p, k, arg, Print(rest) + u, depth, seen);
      ArisenIsEntered(p, rest, u, depth, seen, path);
  }

  lemma {:induction false} ArisingIsEntered(p: Project, t: string, dir: string, depth: nat, seen: seq<string>, path: string)
    requires depth <= MAX_DEPTH + 1 && Arises(p, t, dir, depth, seen, path)
    ensures path in Expand(p, t, dir, depth, seen).seen
    decreases MAX_DEPTH + 1 - depth, 1
  {
    hide Read, Visit, ExpandInputs, ExpandBibs, DropStyles, Print, PrintItems, Unjoined, Proper, ItemsOk, Keys, Weight;
    hide ArisesInVisit, ArisesInFinish;
    var toks := Read(t, dir);
    var v := Visit(p, toks, dir, depth, seen);
    ReadIsExact(t, dir);
    if ArisesInVisit(p, toks, dir, depth, seen, path) {
      InputsEnterArising(p, toks, dir, depth, seen, path);
      var a := ExpandInputs(p, t, dir, depth, seen);
      BibsGrow(p, DropStyles(a.text), depth, a.seen);
    } else {
      InputsMatchVisit(p, toks, dir, depth, seen);
      StylesPassItems(p, v.items);
      BibsEnterArising(p, v.items, depth, v.seen, path);
    }
  }

  lemma {:induction false} InputsEnterArising(p: Project, toks: Tokens, dir: string, depth: nat, seen: seq<string>, path: string)
    requires depth <= MAX_DEPTH && Proper(toks) && ArisesInVisit(p, toks, dir, depth, seen, path)
    ensures path in ExpandInputs(p, Print(toks), dir, depth, seen).seen
    decreases MAX_DEPTH + 1 - depth, 0, toks
  {
    hide Walk, Expand, ExpandInputs, Arises, MatchEnd, Resolve, ValidArg, PrintDir, Clean, Content, Parent, Keys, Weight;
    match toks
    case Chr(c, rest) =>
      InputsPassChar(p, c, Print(rest), dir, depth, seen);
      InputsEnterArising(p, rest, dir, depth, seen, path);
    case Dir(k, arg, _, rest) =>
      if k == Bib || k == Style {
        InputsPassDir(p, k, arg, Print(rest), dir, depth, seen);
        InputsEnterArising(p, rest, dir, depth, seen, path);
      } else {
        InputDirStep(p, k, arg, Print(rest), dir, depth, seen);
        var inner := Resolve(p, dir, arg);
        if inner == None || inner.value in seen {
          InputsEnterArising(p, rest, dir, depth, seen, path);
        } else {
          var t, d, s := Content(p, inner.value), Parent(inner.value), seen + [inner.value];
          if Arises(p, t, d, depth + 1, s, path) {
            ArisingIsEntered(p, t, d, depth + 1, s, path);
            InputsGrow(p, Print(rest), dir, depth, Expand(p, t, d, depth + 1, s).seen);
          } else {
            ExpandMatchesWalk(p, t, d, depth + 1, s);
            InputsEnterArising(p, rest, dir, depth, Walk(p, t, d, depth + 1, s).seen, path);
          }
        }
      }
  }

  lemma {:induction false} BibsEnterArising(p: Project, items: Items, depth: nat, seen: seq<string>, path: string)
    requires depth <= MAX_DEPTH && ItemsOk(p, items) && ArisesInFinish(p, items, depth, seen, path)
    ensures path in ExpandBibs(p, PrintItems(items, false), depth, seen).seen
    decreases MAX_DEPTH + 1 - depth, 0, items, 1
  {
    hide Walk, Expand, ExpandBibs, Arises, MatchEnd, BibTarget, ValidArg, PrintDir, Content, Parent, Silent, LeadsTo;
    match items
    case Kept(c, rest) =>
      var t := [c] + PrintItems(rest, false);
      if MatchEnd(t, Bib).Some? {
        FoundIsEntered(p, t, depth, seen, path);
      } else {
        BibsPassChar(p, c, PrintItems(rest, false), depth, seen);
        BibsEnterArising(p, rest, depth, seen, path);
      }
    case Sub(inner, rest) =>
      if Silent(inner, PrintItems(rest, false), Bib) {
        BibsPassClean(p, inner, PrintItems(rest, false), depth, seen);
        BibsEnterArising(p, rest, depth, seen, path);
      } else {
        ArisenIsEntered(p, inner, PrintItems(rest, false), depth, seen, path);
      }
    case Mark(k, arg, _, rest) =>
      if k == Style {
        assert "" + PrintItems(rest, false) == PrintItems(rest, false);
        BibsEnterArising(p, rest, depth, seen, path);
      } else if k != Bib || BibTarget(p, arg) == None {
        BibsPassDir(p, k, arg, PrintItems(rest, false), depth, seen);
        BibsEnterArising(p, rest, depth, seen, path);
      } else {
        BibDirStep(p, arg, PrintItems(rest, false), depth, seen);
        if BibTarget(p, arg).value in seen {
          BibsEnterArising(p, rest, depth, seen, path);
        } else {
          BibEntersArising(p, BibTarget(p, arg).value, rest, depth, seen, path);
        }
      }
  }

  lemma {:induction false} BibEntersArising(p: Project, inner: string, rest: Items, depth: nat, seen: seq<string>, path: string)
    requires depth <= MAX_DEPTH && ItemsOk(p, rest)
    requires var i := Walk(p, Content(p, inner), Parent(inner), depth + 1, seen + [inner]);
             || Arises(p, Content(p, inner), Parent(inner), depth + 1, seen + [inner], path)
             || (!i.halted && !i.joined && ArisesInFinish(p, rest, depth, i.seen, path))
    ensures var o := Expand(p, Content(p, inner), Parent(inner), depth + 1, seen + [inner]);
            path in ExpandBibs(p, PrintItems(rest, false), depth, o.seen).seen
    decreases MAX_DEPTH + 1 - depth, 0, rest, 2
  {
    hide Walk, Expand, ExpandBibs, Arises, ArisesInFinish, Content, Parent, PrintItems, ItemsOk, Clean, Keys, Weight;
    var t, d, s := Content(p, inner), Parent(inner), seen + [inner];
    if Arises(p, t, d, depth + 1, s, path) {
      ArisingIsEntered(p, t, d, depth + 1, s, path);
      BibsGrow(p, PrintItems(rest, false), depth, Expand(p, t, d, depth + 1, s).seen);
    } else {
      ExpandMatchesWalk(p, t, d, depth + 1, s);
      BibsEnterArising(p, rest, depth, Walk(p, t, d, depth + 1, s).seen, path);
    }
  }

  /** Where the first directive that arises is a bibliography whose file has not
      been entered by then, the expansion enters that file; so it differs from the
      walk unless the walk comes to the file in another way. */
  lemma ArisingBibliographyIsEntered(p: Project, t: string, path: string)
    requires Arises(p, t, p.root, 0, [], path)
    ensures var o := Expand(p, t, p.root, 0, []);
            var w := Walk(p, t, p.root, 0, []);
            path in o.seen && (path !in w.seen ==> o.seen != w.seen)
  {
    hide Arises, Expand, Walk;
    ArisingIsEntered(p, t, p.root, 0, [], path);
  }

  // ---- Texts broken by a style ----

  /** A word in two pieces with a style between them. */
  function Broken(x: string, y: string): string {
    "\\" + (x + (PrintDir(Style, "") + y))
  }

  function Whole(x: string, y: string): string {
    "\\" + (x + y)
  }

  /** The style is the only directive of the broken text. */
  predicate IsBroken(x: string, y: string) {
    NoBackslash(x) && NoBackslash(y) && AnyKind(Broken(x, y)) == None
  }

  /** Characters other than backslashes, and styles. */
  predicate Plain(toks: Tokens) {
    match toks
    case Nil => true
    case Chr(c, rest) => c != '\\' && Plain(rest)
    case Dir(k, _, _, rest) => k == Style && Plain(rest)
  }

  predicate PlainItems(items: Items) {
    match items
    case NoItems => true
    case Kept(c, rest) => c != '\\' && PlainItems(rest)
    case Mark(k, arg, _, rest) => k == Style && ValidArg(k, arg) && PlainItems(rest)
    case Sub(_, _) => false
  }

  function Letters(toks: Tokens): string {
    match toks
    case Nil => ""
    case Chr(c, rest) => [c] + Letters(rest)
    case Dir(_, _, _, rest) => Letters(rest)
  }

  lemma NoBackslashNoMatch(t: string)
    requires t != "" && t[0] != '\\'
    ensures AnyKind(t) == None
  {
    forall k ensures MatchEnd(t, k) == None {
      NoBackslashIsDead(t, k);
      DeadStays(t, k, "");
      assert t + "" == t;
    }
  }

  lemma ReadUnfolds(t: string, dir: string)
    ensures t == "" ==> Read(t, dir) == Nil
    ensures t != "" && AnyKind(t) == None ==> Read(t, dir) == Chr(t[0], Read(t[1..], dir))
  {
  }

  lemma {:induction false} PlainIsRead(x: string, u: string, dir: string)
    requires NoBackslash(x)
    ensures Read(x + u, dir) == Chars(x, Read(u, dir))
    decreases |x|
  {
    hide Read, AnyKind;
    if x == "" {
      assert x + u == u;
    } else {
      ReadUnfolds(x + u, dir);
      PlainIsRead(x[1..], u, dir);
      assert (x + u)[1..] == x[1..] + u && (x + u)[0] == x[0];
      NoBackslashNoMatch(x + u);
    }
  }

  lemma DirIsRead(k: Kind, arg: string, u: string, dir: string)
    requires ValidArg(k, arg)
    ensures Read(PrintDir(k, arg) + u, dir) == Dir(k, arg, dir, Read(u, dir))
  {
    hide MatchEnd;
    DirMatches(k, arg, u);
    forall other | other != k ensures MatchEnd(PrintDir(k, arg) + u, other) == None {
      DirMatchesOnly(k, arg, u, other);
    }
  }

  function BrokenTokens(x: string, y: string): Tokens {
    Chars(x, Dir(Style, "", "", Chars(y, Nil)))
  }

  lemma BrokenIsRead(x: string, y: string)
    requires IsBroken(x, y)
    ensures Read(Broken(x, y), "") == Chr('\\', BrokenTokens(x, y))
  {
    hide PrintDir, Chars, Read, AnyKind;
    var t, u := Broken(x, y), PrintDir(Style, "") + y;
    ReadUnfolds(t, "");
    assert t[0] == '\\' && t[1..] == x + u;
    PlainIsRead(x, u, "");
    DirIsRead(Style, "", y, "");
    PlainIsRead(y, "", "");
    assert y + "" == y;
    ReadUnfolds("", "");
  }

  lemma {:induction false} PlainChars(s: string, toks: Tokens)
    requires NoBackslash(s) && Plain(toks)
    ensures Plain(Chars(s, toks)) && Letters(Chars(s, toks)) == s + Letters(toks)
    decreases |s|
  {
    if s != "" {
      PlainChars(s[1..], toks);
      Associate([s[0]], s[1..], Letters(toks));
      assert [s[0]] + s[1..] == s;
    }
  }

  lemma BrokenIsPlain(x: string, y: string)
    requires NoBackslash(x) && NoBackslash(y)
    ensures Plain(BrokenTokens(x, y)) && Letters(BrokenTokens(x, y)) == x + y
  {
    hide Chars;
    PlainChars(y, Nil);
    PlainChars(x, Dir(Style, "", "", Chars(y, Nil)));
    assert y + "" == y;
  }

  // ---- Their expansion ----

  lemma BrokenHoldsNoInput(p: Project, x: string, y: string)
    requires IsBroken(x, y)
    ensures ExpandInputs(p, Broken(x, y), p.root, 0, []) == Out(Broken(x, y), [], 0, false)
  {
    hide ExpandInputs, MatchEnd, Quiet, PrintDir;
    var t, u := Broken(x, y), PrintDir(Style, "") + y;
    assert t[0] == '\\' && t[1..] == x + u;
    InputsUnfold(p, t, p.root, 0, []);
    PlainIsQuiet(x);
    PlainIsQuiet(y);
    InputsPassQuiet(p, x, u, p.root, 0, []);
    InputsPassDir(p, Style, "", y, p.root, 0, []);
    assert y + "" == y;
    InputsPassQuiet(p, y, "", p.root, 0, []);
    NoInputs(p, p.root, 0, []);
  }

  /** Dropping the style joins the pieces. */
  lemma BrokenIsJoined(x: string, y: string)
    requires IsBroken(x, y)
    ensures DropStyles(Broken(x, y)) == Whole(x, y)
  {
    hide DropStyles, MatchEnd, Quiet, PrintDir;
    var t, u := Broken(x, y), PrintDir(Style, "") + y;
    assert t[0] == '\\' && t[1..] == x + u;
    StylesUnfold(t);
    PlainIsQuiet(x);
    PlainIsQuiet(y);
    StylesPassQuiet(x, u);
    StylesPassDir(Style, "", y);
    assert y + "" == y;
    StylesPassQuiet(y, "");
    NoStyles();
  }

  lemma BrokenExpands(p: Project, x: string, y: string)
    requires IsBroken(x, y)
    ensures var b := ExpandBibs(p, Whole(x, y), 0, []);
            Expand(p, Broken(x, y), p.root, 0, []) == Out(b.text, b.seen, b.calls, b.halted)
  {
    hide ExpandInputs, ExpandBibs, DropStyles, IsBroken;
    BrokenHoldsNoInput(p, x, y);
    BrokenIsJoined(x, y);
  }

  // ---- Their walk ----

  lemma {:induction false} PlainVisit(p: Project, toks: Tokens, dir: string, depth: nat, seen: seq<string>)
    requires depth <= MAX_DEPTH && Plain(toks) && Proper(toks)
    ensures var v := Visit(p, toks, dir, depth, seen);
            && v.seen == seen && !v.halted && !v.joined && PlainItems(v.items)
            && PrintItems(v.items, true) == Print(toks) && PrintItems(v.items, false) == Letters(toks)
    decreases toks
  {
    hide Walk, Resolve, PrintDir, AnyKind, ValidArg;
    match toks
    case Nil =>
    case Chr(_, rest) => PlainVisit(p, rest, dir, depth, seen);
    case Dir(_, _, _, rest) =>
      PlainVisit(p, rest, dir, depth, seen);
      assert "" + Letters(rest) == Letters(rest);
  }

  lemma {:induction false} PlainFinish(p: Project, items: Items, depth: nat, seen: seq<string>)
    requires depth <= MAX_DEPTH && PlainItems(items)
    ensures var w := Finish(p, items, depth, seen);
            w.seen == seen && !w.halted && !w.joined && Print(w.toks) == PrintItems(items, false)
    decreases items
  {
    hide Walk, BibTarget, PrintDir, ValidArg;
    match items
    case NoItems =>
    case Kept(_, rest) => PlainFinish(p, rest, depth, seen);
    case Mark(_, _, _, rest) =>
      PlainFinish(p, rest, depth, seen);
      assert "" + PrintItems(rest, false) == PrintItems(rest, false);
  }

  lemma {:induction false} PlainIsUnjoined(items: Items, styles: bool, k: Kind)
    requires PlainItems(items)
    ensures Unjoined(items, styles, k)
  {
    hide MatchEnd, ValidArg, PrintDir;
    match items
    case NoItems =>
    case Kept(c, rest) =>
      PlainIsUnjoined(rest, styles, k);
      var t := [c] + PrintItems(rest, styles);
      NoBackslashIsDead(t, k);
      DeadStays(t, k, "");
      assert t + "" == t;
    case Mark(_, _, _, rest) => PlainIsUnjoined(rest, styles, k);
  }

  /** The walk of a broken text enters nothing and drops the style; a directive
      arises in it if and only if the joined word is a bibliography. */
  lemma BrokenWalks(p: Project, x: string, y: string)
    requires IsBroken(x, y) && p.root == ""
    ensures var w := Walk(p, Broken(x, y), "", 0, []);
            && w.seen == [] && !w.halted && Print(w.toks) == Whole(x, y)
            && (w.joined <==> MatchEnd(Whole(x, y), Bib).Some?)
            && (forall path :: MatchEnd(Whole(x, y), Bib).Some? && BibTarget(p, Argument(Whole(x, y), Bib)) == Some(path)
                               ==> Arises(p, Broken(x, y), "", 0, [], path))
  {
    hide Read, MatchEnd, AnyKind, BrokenTokens, Plain, Proper, Print, Letters, BibTarget, PlainItems;
    var t, toks := Broken(x, y), BrokenTokens(x, y);
    BrokenIsRead(x, y);
    BrokenIsPlain(x, y);
    ReadIsExact(t, "");
    ReadUnfolds(t, "");
    ChrUnfolds('\\', toks);
    PlainVisit(p, toks, "", 0, []);
    var v := Visit(p, toks, "", 0, []);
    assert PrintItems(v.items, true) == t[1..] && PrintItems(v.items, false) == x + y;
    PlainFinish(p, v.items, 0, []);
    ChrUnfolds('\\', Finish(p, v.items, 0, []).toks);
    PlainIsUnjoined(v.items, true, Style);
    PlainIsUnjoined(v.items, false, Bib);
    assert ['\\'] + t[1..] == t;
  }

  lemma ChrUnfolds(c: char, rest: Tokens)
    ensures Proper(Chr(c, rest)) ==> Proper(rest)
    ensures Print(Chr(c, rest)) == [c] + Print(rest) && Print(Chr(c, rest))[1..] == Print(rest)
  {
    hide AnyKind;
  }

  // ---- Three of them ----

  const ONE_BBL: Project := Project("", map[], map[], map[], Some("x.bbl"))

  const ONE_TEX: Project := Project("", map[], map[("", "a") := "a.tex"], map[], None)

  const NO_FILES: Project := Project("", map[], map[], map[], None)

  /** A text whose start contradicts every head holds no directive there. */
  lemma DeadIsNoKind(t: string)
    requires forall k :: DeadHead(t, k)
    ensures AnyKind(t) == None
  {
    hide DeadHead;
    forall k ensures MatchEnd(t, k) == None {
      DeadStays(t, k, "");
      assert t + "" == t;
    }
  }

  /** `\bibliogra\bibliographystyle{}phy{x}`. */
  lemma BibliographyIsBroken()
    ensures IsBroken("bibliogra", "phy{x}") && Whole("bibliogra", "phy{x}") == PrintDir(Bib, "x")
  {
    hide AnyKind, DeadHead;
    var t := Broken("bibliogra", "phy{x}");
    BibliographyIsDead();
    DeadIsNoKind(t);
    assert Whole("bibliogra", "phy{x}") == "\\bibliography{x}" == PrintDir(Bib, "x");
  }

  lemma BibliographyIsDead()
    ensures forall k :: DeadHead(Broken("bibliogra", "phy{x}"), k)
  {
    hide PrintDir, NextBrace;
    var t := Broken("bibliogra", "phy{x}");
    StyleStarts();
    assert t[1] == 'b' && t[10] == '\\';
    forall k ensures DeadHead(t, k) {
      assert Head(k)[1] != 'b' || Head(k)[10] == 'p';
    }
  }

  lemma StyleStarts()
    ensures PrintDir(Style, "") != "" && PrintDir(Style, "")[0] == '\\'
  {
  }

  /** `\in\bibliographystyle{}put{a}`. */
  lemma InputIsBroken()
    ensures IsBroken("in", "put{a}") && Whole("in", "put{a}") == PrintDir(Input, "a")
  {
    hide AnyKind, DeadHead;
    var t := Broken("in", "put{a}");
    InputIsDead();
    DeadIsNoKind(t);
    assert Whole("in", "put{a}") == "\\input{a}" == PrintDir(Input, "a");
  }

  lemma InputIsDead()
    ensures forall k :: DeadHead(Broken("in", "put{a}"), k)
  {
    hide PrintDir, NextBrace;
    var t := Broken("in", "put{a}");
    StyleStarts();
    assert t[1] == 'i' && t[3] == '\\';
    forall k ensures DeadHead(t, k) {
      assert Head(k)[1] != 'i' || Head(k)[3] != '\\';
    }
  }

  lemma BibliographyOfX()
    ensures var t := PrintDir(Bib, "x");
            && MatchEnd(t, Bib) == Some(|t|) && Argument(t, Bib) == "x"
            && BibTarget(ONE_BBL, "x") == Some("x.bbl") && BibTarget(NO_FILES, "x") == None
  {
    hide FirstNamed, MatchEnd, PrintDir;
    DirMatches(Bib, "x", "");
    assert PrintDir(Bib, "x") + "" == PrintDir(Bib, "x");
    NothingNamed(ONE_BBL, Split("x", ','));
    NothingNamed(NO_FILES, Split("x", ','));
  }

  lemma {:induction false} NothingNamed(p: Project, names: seq<string>)
    requires p.bbls == map[]
    ensures FirstNamed(p, names) == None
    decreases |names|
  {
    hide Trim;
    if names != [] {
      NothingNamed(p, names[1..]);
    }
  }

  /** A style that vanishes from the middle of a word: the expansion inlines a
      file that no directive of the text names, and the walk does not. */
  lemma JoinedExpansionDiffers()
    ensures var t := Broken("bibliogra", "phy{x}");
            var o := Expand(ONE_BBL, t, "", 0, []);
            var w := Walk(ONE_BBL, t, "", 0, []);
            && !w.halted && w.joined
            && w.seen == [] && "x.bbl" in o.seen && o.text != Print(w.toks)
  {
    hide Walk, Expand, ExpandBibs, MatchEnd, Broken, Whole, IsBroken, Arises, BibTarget, PrintDir;
    var p, x, y := ONE_BBL, "bibliogra", "phy{x}";
    BibliographyIsBroken();
    BibliographyOfX();
    BrokenWalks(p, x, y);
    ArisingBibliographyIsEntered(p, Broken(x, y), "x.bbl");
    BrokenExpands(p, x, y);
    BibDirStep(p, "x", "", 0, []);
    assert PrintDir(Bib, "x") + "" == PrintDir(Bib, "x");
    var inner := Expand(p, Content(p, "x.bbl"), Parent("x.bbl"), 1, [] + ["x.bbl"]);
    assert (REFERENCES + inner.text)[1] == REFERENCES[1] == 's';
    BibliographyStart();
  }

  lemma BibliographyStart()
    ensures PrintDir(Bib, "x")[1] == 'b'
  {
  }

  /** A bibliography that arises changes nothing when no file is found for it. */
  lemma JoinMayChangeNothing()
    ensures var t := Broken("bibliogra", "phy{x}");
            var o := Expand(NO_FILES, t, "", 0, []);
            var w := Walk(NO_FILES, t, "", 0, []);
            && !w.halted && w.joined
            && o.text == Print(w.toks) && o.seen == w.seen
  {
    hide Walk, Expand, ExpandBibs, MatchEnd, Broken, Whole, IsBroken, Arises, BibTarget, PrintDir;
    var p, x, y := NO_FILES, "bibliogra", "phy{x}";
    BibliographyIsBroken();
    BibliographyOfX();
    BrokenWalks(p, x, y);
    BrokenExpands(p, x, y);
    BibsPassDir(p, Bib, "x", "", 0, []);
    NoInputs(p, "", 0, []);
    assert PrintDir(Bib, "x") + "" == PrintDir(Bib, "x");
  }

  /** The same with an input: nothing arises while the walk looks for styles and
      bibliographies, but an input is left that the root resolves, and a second
      expansion enters its file. */
  lemma JoinedInputIsLeft()
    ensures var t := Broken("in", "put{a}");
            var o := Expand(ONE_TEX, t, "", 0, []);
            var w := Walk(ONE_TEX, t, "", 0, []);
            && !w.halted && !w.joined
            && o.text == PrintDir(Input, "a") && o.seen == [] && Resolve(ONE_TEX, "", "a") == Some("a.tex")
            && !AllUnresolved(ONE_TEX, o.text, w.toks, o.seen)
            && "a.tex" in Expand(ONE_TEX, o.text, "", 0, []).seen
  {
    hide Walk, Expand, ExpandBibs, MatchEnd, Broken, Whole, IsBroken, Arises, PrintDir, DirAt, Resolve;
    var p, x, y := ONE_TEX, "in", "put{a}";
    var t := PrintDir(Input, "a");
    InputIsBroken();
    DirMatchesOnly(Input, "a", "", Bib);
    assert t + "" == t;
    BrokenWalks(p, x, y);
    BrokenExpands(p, x, y);
    BibsPassDir(p, Input, "a", "", 0, []);
    NoInputs(p, "", 0, []);
    RootResolvesA("");
    InputIsFound(Walk(p, Broken(x, y), "", 0, []).toks);
    SecondPassEnters();
  }

  /** Every directory finds the file, as the root does. */
  lemma RootResolvesA(from: string)
    ensures Resolve(ONE_TEX, from, "a") == Some("a.tex")
  {
    assert Trim("a") == "a";
  }

  lemma InputIsFound(toks: Tokens)
    ensures !AllUnresolved(ONE_TEX, PrintDir(Input, "a"), toks, [])
  {
    hide MatchEnd, PrintDir, DirAt, Resolve;
    var t := PrintDir(Input, "a");
    DirMatches(Input, "a", "");
    assert t + "" == t && t[0..] == t;
    assert InputAt(t, 0, Input);
    if DirAt(toks, 0).Some? && DirAt(toks, 0).value.Dir? {
      RootResolvesA(DirAt(toks, 0).value.from);
    }
    assert !IsUnresolved(ONE_TEX, t, 0, Input, toks, []);
  }

  lemma SecondPassEnters()
    ensures "a.tex" in Expand(ONE_TEX, PrintDir(Input, "a"), "", 0, []).seen
  {
    hide ExpandInputs, ExpandBibs, DropStyles, PrintDir, Resolve, Keys, Weight;
    var p, t := ONE_TEX, PrintDir(Input, "a");
    assert t + "" == t;
    RootResolvesA("");
    InputDirStep(p, Input, "a", "", "", 0, []);
    var s := [] + ["a.tex"];
    var inner := Expand(p, Content(p, "a.tex"), Parent("a.tex"), 1, s);
    ExpandGrows(p, Content(p, "a.tex"), Parent("a.tex"), 1, s);
    assert s[0] == "a.tex";
    NoInputs(p, "", 0, inner.seen);
    var a := ExpandInputs(p, t, "", 0, []);
    BibsGrow(p, DropStyles(a.text), 0, a.seen);
  }
}
