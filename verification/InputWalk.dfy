/** Input expansion is a depth-first first-visit walk over the files: where no
    style and no bibliography arises from joined pieces, the three passes over the
    text do what one walk over the files' directives does. */
module InputWalk {
  import opened Text
  import opened Inputs
  import opened InputTokens

  // ---- The walk ----

  /** A file half done: its characters and remaining directives, and the files
      that were visited from it. */
  datatype Items = NoItems | Kept(c: char, rest: Items) | Mark(kind: Kind, arg: string, from: string, rest: Items)
                 | Sub(inner: Tokens, rest: Items)

  /** The text of a half-done file, with or without its styles. */
  function PrintItems(items: Items, styles: bool): string {
    match items
    case NoItems => ""
    case Kept(c, rest) => [c] + PrintItems(rest, styles)
    case Mark(k, arg, _, rest) => (if k == Style && !styles then "" else PrintDir(k, arg)) + PrintItems(rest, styles)
    case Sub(inner, rest) => Print(inner) + PrintItems(rest, styles)
  }

  /** No directive of the kind starts at a character of the list, which stands in
      front of `u`. */
  predicate Silent(toks: Tokens, u: string, k: Kind) {
    match toks
    case Nil => true
    case Chr(c, rest) => MatchEnd([c] + (Print(rest) + u), k) == None && Silent(rest, u, k)
    case Dir(_, _, _, rest) => Silent(rest, u, k)
  }

  predicate Unjoined(items: Items, styles: bool, k: Kind) {
    match items
    case NoItems => true
    case Kept(c, rest) => MatchEnd([c] + PrintItems(rest, styles), k) == None && Unjoined(rest, styles, k)
    case Mark(_, _, _, rest) => Unjoined(rest, styles, k)
    case Sub(inner, rest) => Silent(inner, PrintItems(rest, styles), k) && Unjoined(rest, styles, k)
  }

  /** A directive that the code is about to look for arises from pieces that come to
      stand next to each other: a style before the styles are dropped, or a
      bibliography behind that. */
  predicate Joins(items: Items) {
    !Unjoined(items, true, Style) || !Unjoined(items, false, Bib)
  }

  /** `halted`: the depth limit stopped the walk somewhere; `joined`: a style
      or a bibliography arose from joined pieces somewhere. */
  datatype Visited = Visited(items: Items, seen: seq<string>, halted: bool, joined: bool)

  datatype Walked = Walked(toks: Tokens, seen: seq<string>, halted: bool, joined: bool)

  /** A file is walked once, when it is first met: its inputs in order, then its
      bibliographies in order. */
  function Walk(p: Project, t: string, dir: string, depth: nat, seen: seq<string>): Walked
    requires depth <= MAX_DEPTH + 1
    decreases MAX_DEPTH + 1 - depth, 1
  {
    if depth > MAX_DEPTH then Walked(Read(t, dir), seen, true, false)
    else
      var v := Visit(p, Read(t, dir), dir, depth, seen);
      var w := Finish(p, v.items, depth, v.seen);
      w.(halted := v.halted || w.halted, joined := v.joined || w.joined || Joins(v.items))
  }

  function Visit(p: Project, toks: Tokens, dir: string, depth: nat, seen: seq<string>): Visited
    requires depth <= MAX_DEPTH
    decreases MAX_DEPTH + 1 - depth, 0, toks
  {
    match toks
    case Nil => Visited(NoItems, seen, false, false)
    case Chr(c, rest) =>
      var v := Visit(p, rest, dir, depth, seen);
      v.(items := Kept(c, v.items))
    case Dir(k, arg, from, rest) =>
      var path := if k == Input || k == Include then Resolve(p, dir, arg) else None;
      if path == None then
        var v := Visit(p, rest, dir, depth, seen);
        v.(items := Mark(k, arg, from, v.items))
      else if path.value in seen then Visit(p, rest, dir, depth, seen)
      else
        var w := Walk(p, Content(p, path.value), Parent(path.value), depth + 1, seen + [path.value]);
        var v := Visit(p, rest, dir, depth, w.seen);
        Visited(Sub(w.toks, v.items), v.seen, w.halted || v.halted, w.joined || v.joined)
  }

  function Finish(p: Project, items: Items, depth: nat, seen: seq<string>): Walked
    requires depth <= MAX_DEPTH
    decreases MAX_DEPTH + 1 - depth, 0, items
  {
    match items
    case NoItems => Walked(Nil, seen, false, false)
    case Kept(c, rest) =>
      var w := Finish(p, rest, depth, seen);
      w.(toks := Chr(c, w.toks))
    case Sub(inner, rest) =>
      var w := Finish(p, rest, depth, seen);
      w.(toks := Append(inner, w.toks))
    case Mark(k, arg, from, rest) =>
      if k == Style then Finish(p, rest, depth, seen)
      else
        var path := if k == Bib then BibTarget(p, arg) else None;
        if path == None then
          var w := Finish(p, rest, depth, seen);
          w.(toks := Dir(k, arg, from, w.toks))
        else if path.value in seen then Finish(p, rest, depth, seen)
        else
          var i := Walk(p, Content(p, path.value), Parent(path.value), depth + 1, seen + [path.value]);
          var w := Finish(p, rest, depth, i.seen);
          Walked(Chars(REFERENCES, Append(i.toks, w.toks)), w.seen, i.halted || w.halted, i.joined || w.joined)
  }

  // ---- Finished lists ----

  /** A list that later passes leave alone: no styles, and no bibliography that
      anything is found for. */
  predicate Clean(p: Project, toks: Tokens) {
    match toks
    case Nil => true
    case Chr(_, rest) => Clean(p, rest)
    case Dir(k, arg, _, rest) =>
      ValidArg(k, arg) && k != Style && (k == Bib ==> BibTarget(p, arg) == None) && Clean(p, rest)
  }

  predicate ItemsOk(p: Project, items: Items) {
    match items
    case NoItems => true
    case Kept(_, rest) => ItemsOk(p, rest)
    case Mark(k, arg, _, rest) => ValidArg(k, arg) && ItemsOk(p, rest)
    case Sub(inner, rest) => Clean(p, inner) && ItemsOk(p, rest)
  }

  lemma {:induction false} PrintAppend(a: Tokens, b: Tokens)
    ensures Print(Append(a, b)) == Print(a) + Print(b)
  {
    hide PrintDir;
    match a
    case Nil =>
    case Chr(c, rest) =>
      PrintAppend(rest, b);
      Associate([c], Print(rest), Print(b));
    case Dir(k, arg, _, rest) =>
      PrintAppend(rest, b);
      Associate(PrintDir(k, arg), Print(rest), Print(b));
  }

  lemma {:induction false} PrintChars(s: string, toks: Tokens)
    ensures Print(Chars(s, toks)) == s + Print(toks)
    decreases |s|
  {
    if s != "" {
      PrintChars(s[1..], toks);
      Associate([s[0]], s[1..], Print(toks));
      assert [s[0]] + s[1..] == s;
    }
  }

  lemma {:induction false} CleanAppend(p: Project, a: Tokens, b: Tokens)
    requires Clean(p, a) && Clean(p, b)
    ensures Clean(p, Append(a, b))
  {
    hide BibTarget;
    match a
    case Nil =>
    case Chr(_, rest) => CleanAppend(p, rest, b);
    case Dir(_, _, _, rest) => CleanAppend(p, rest, b);
  }

  lemma {:induction false} CleanChars(p: Project, s: string, toks: Tokens)
    requires Clean(p, toks)
    ensures Clean(p, Chars(s, toks))
    decreases |s|
  {
    if s != "" {
      CleanChars(p, s[1..], toks);
    }
  }

  lemma {:induction false} StylesPassClean(p: Project, toks: Tokens, u: string)
    requires Clean(p, toks) && Silent(toks, u, Style)
    ensures DropStyles(Print(toks) + u) == Print(toks) + DropStyles(u)
  {
    hide DropStyles, MatchEnd, PrintDir, BibTarget;
    match toks
    case Nil =>
      assert "" + u == u;
    case Chr(c, rest) =>
      Associate([c], Print(rest), u);
      StylesPassChar(c, Print(rest) + u);
      StylesPassClean(p, rest, u);
      Associate([c], Print(rest), DropStyles(u));
    case Dir(k, arg, _, rest) =>
      Associate(PrintDir(k, arg), Print(rest), u);
      StylesPassDir(k, arg, Print(rest) + u);
      StylesPassClean(p, rest, u);
      Associate(PrintDir(k, arg), Print(rest), DropStyles(u));
  }

  lemma {:induction false} BibsPassClean(p: Project, toks: Tokens, u: string, depth: nat, seen: seq<string>)
    requires Clean(p, toks) && Silent(toks, u, Bib) && depth <= MAX_DEPTH
    ensures ExpandBibs(p, Print(toks) + u, depth, seen) == Copied(Print(toks), ExpandBibs(p, u, depth, seen))
  {
    hide ExpandBibs, MatchEnd, PrintDir, BibTarget;
    var o := ExpandBibs(p, u, depth, seen);
    match toks
    case Nil =>
      assert "" + u == u && "" + o.text == o.text;
    case Chr(c, rest) =>
      Associate([c], Print(rest), u);
      BibsPassChar(p, c, Print(rest) + u, depth, seen);
      BibsPassClean(p, rest, u, depth, seen);
      ConsCopied([c], Print(rest), Print(toks), o);
    case Dir(k, arg, _, rest) =>
      Associate(PrintDir(k, arg), Print(rest), u);
      BibsPassDir(p, k, arg, Print(rest) + u, depth, seen);
      BibsPassClean(p, rest, u, depth, seen);
      ConsCopied(PrintDir(k, arg), Print(rest), Print(toks), o);
  }

  lemma {:induction false} StylesPassItems(p: Project, items: Items)
    requires ItemsOk(p, items) && Unjoined(items, true, Style)
    ensures DropStyles(PrintItems(items, true)) == PrintItems(items, false)
  {
    hide DropStyles, MatchEnd, PrintDir, Clean, Print, Silent;
    match items
    case NoItems => NoStyles();
    case Kept(c, rest) =>
      StylesPassChar(c, PrintItems(rest, true));
      StylesPassItems(p, rest);
    case Mark(k, arg, _, rest) =>
      StylesPassDir(k, arg, PrintItems(rest, true));
      StylesPassItems(p, rest);
    case Sub(inner, rest) =>
      StylesPassClean(p, inner, PrintItems(rest, true));
      StylesPassItems(p, rest);
  }

  lemma NoStyles()
    ensures DropStyles("") == ""
  {
  }

  // ---- The expansion is the walk ----

  /** What the expansion and the walk of one file agree on. */
  predicate Matches(p: Project, o: Out, w: Walked) {
    !w.halted && !w.joined ==> o.text == Print(w.toks) && o.seen == w.seen && !o.halted && Clean(p, w.toks)
  }

  lemma {:induction false} ExpandMatchesWalk(p: Project, t: string, dir: string, depth: nat, seen: seq<string>)
    requires depth <= MAX_DEPTH + 1
    ensures Matches(p, Expand(p, t, dir, depth, seen), Walk(p, t, dir, depth, seen))
    decreases MAX_DEPTH + 1 - depth, 1
  {
    hide Read, Visit, Finish, ExpandInputs, ExpandBibs, DropStyles, Print, PrintItems, Clean, Unjoined, Proper;
    if depth <= MAX_DEPTH {
      var v := Visit(p, Read(t, dir), dir, depth, seen);
      ReadIsExact(t, dir);
      InputsMatchVisit(p, Read(t, dir), dir, depth, seen);
      if !v.halted && !v.joined && !Joins(v.items) {
        StylesPassItems(p, v.items);
        BibsMatchFinish(p, v.items, depth, v.seen);
      }
    }
  }

  lemma {:induction false} InputsMatchVisit(p: Project, toks: Tokens, dir: string, depth: nat, seen: seq<string>)
    requires depth <= MAX_DEPTH && Proper(toks)
    ensures var o := ExpandInputs(p, Print(toks), dir, depth, seen);
            var v := Visit(p, toks, dir, depth, seen);
            !v.halted && !v.joined ==>
              o.text == PrintItems(v.items, true) && o.seen == v.seen && !o.halted && ItemsOk(p, v.items)
    decreases MAX_DEPTH + 1 - depth, 0, toks
  {
    hide Walk, Expand, ExpandInputs, MatchEnd, Resolve, ValidArg, PrintDir, Clean, Content, Parent;
    match toks
    case Nil => NoInputs(p, dir, depth, seen);
    case Chr(c, rest) =>
      InputsPassChar(p, c, Print(rest), dir, depth, seen);
      InputsMatchVisit(p, rest, dir, depth, seen);
    case Dir(k, arg, _, rest) =>
      if k == Bib || k == Style {
        InputsPassDir(p, k, arg, Print(rest), dir, depth, seen);
        InputsMatchVisit(p, rest, dir, depth, seen);
      } else {
        InputDirStep(p, k, arg, Print(rest), dir, depth, seen);
        var path := Resolve(p, dir, arg);
        if path == None || path.value in seen {
          InputsMatchVisit(p, rest, dir, depth, seen);
        } else {
          ExpandMatchesWalk(p, Content(p, path.value), Parent(path.value), depth + 1, seen + [path.value]);
          var w := Walk(p, Content(p, path.value), Parent(path.value), depth + 1, seen + [path.value]);
          InputsMatchVisit(p, rest, dir, depth, w.seen);
        }
      }
  }

  /** What the pass for inputs does at an input. */
  lemma InputDirStep(p: Project, k: Kind, arg: string, u: string, dir: string, depth: nat, seen: seq<string>)
    requires ValidArg(k, arg) && (k == Input || k == Include) && depth <= MAX_DEPTH
    ensures ExpandInputs(p, PrintDir(k, arg) + u, dir, depth, seen) ==
            var path := Resolve(p, dir, arg);
            if path == None then Copied(PrintDir(k, arg), ExpandInputs(p, u, dir, depth, seen))
            else if path.value in seen then ExpandInputs(p, u, dir, depth, seen)
            else
              var inner := Expand(p, Content(p, path.value), Parent(path.value), depth + 1, seen + [path.value]);
              Then(Called("", inner), ExpandInputs(p, u, dir, depth, inner.seen))
  {
    hide ExpandInputs, Expand, MatchEnd, Resolve, PrintDir, ValidArg;
    DirMatches(k, arg, u);
    DirMatchesOnly(k, arg, u, if k == Input then Include else Input);
    InputsUnfold(p, PrintDir(k, arg) + u, dir, depth, seen);
  }

  lemma BibDirStep(p: Project, arg: string, u: string, depth: nat, seen: seq<string>)
    requires ValidArg(Bib, arg) && depth <= MAX_DEPTH && BibTarget(p, arg).Some?
    ensures ExpandBibs(p, PrintDir(Bib, arg) + u, depth, seen) ==
            var path := BibTarget(p, arg).value;
            if path in seen then ExpandBibs(p, u, depth, seen)
            else
              var inner := Expand(p, Content(p, path), Parent(path), depth + 1, seen + [path]);
              Then(Called(REFERENCES, inner), ExpandBibs(p, u, depth, inner.seen))
  {
    hide ExpandBibs, Expand, MatchEnd, BibTarget, PrintDir, ValidArg;
    DirMatches(Bib, arg, u);
    BibsUnfold(p, PrintDir(Bib, arg) + u, depth, seen);
  }

  /** The pass for bibliographies enters what it finds at the start of its text. */
  lemma FoundIsEntered(p: Project, t: string, depth: nat, seen: seq<string>, path: string)
    requires depth <= MAX_DEPTH && path !in seen
    requires MatchEnd(t, Bib).Some? && BibTarget(p, Argument(t, Bib)) == Some(path)
    ensures path in ExpandBibs(p, t, depth, seen).seen
  {
    hide ExpandBibs, Expand, MatchEnd, BibTarget, Keys, Weight;
    var inner := Expand(p, Content(p, path), Parent(path), depth + 1, seen + [path]);
    BibsUnfold(p, t, depth, seen);
    ExpandGrows(p, Content(p, path), Parent(path), depth + 1, seen + [path]);
    var e := MatchEnd(t, Bib).value;
    BibsGrow(p, t[e..], depth, inner.seen);
    assert (seen + [path])[|seen|] == path;
  }

  lemma {:induction false} BibsMatchFinish(p: Project, items: Items, depth: nat, seen: seq<string>)
    requires depth <= MAX_DEPTH && ItemsOk(p, items) && Unjoined(items, false, Bib)
    ensures Matches(p, ExpandBibs(p, PrintItems(items, false), depth, seen), Finish(p, items, depth, seen))
    decreases MAX_DEPTH + 1 - depth, 0, items, 0
  {
    hide Walk, Expand, ExpandBibs, MatchEnd, BibTarget, ValidArg, PrintDir, Content, Append, Silent;
    match items
    case NoItems => NoInputs(p, "", depth, seen);
    case Kept(c, rest) =>
      BibsPassChar(p, c, PrintItems(rest, false), depth, seen);
      BibsMatchFinish(p, rest, depth, seen);
    case Sub(inner, rest) =>
      BibsPassClean(p, inner, PrintItems(rest, false), depth, seen);
      BibsMatchFinish(p, rest, depth, seen);
      var w := Finish(p, rest, depth, seen);
      PrintAppend(inner, w.toks);
      if !w.halted && !w.joined {
        CleanAppend(p, inner, w.toks);
      }
    case Mark(k, arg, from, rest) =>
      if k == Style {
        assert "" + PrintItems(rest, false) == PrintItems(rest, false);
        BibsMatchFinish(p, rest, depth, seen);
      } else if k != Bib || BibTarget(p, arg) == None {
        BibsPassDir(p, k, arg, PrintItems(rest, false), depth, seen);
        BibsMatchFinish(p, rest, depth, seen);
      } else {
        BibDirStep(p, arg, PrintItems(rest, false), depth, seen);
        BibVisit(p, arg, from, rest, depth, seen);
      }
  }

  lemma {:induction false} BibVisit(p: Project, arg: string, from: string, rest: Items, depth: nat, seen: seq<string>)
    requires depth <= MAX_DEPTH && ItemsOk(p, rest) && Unjoined(rest, false, Bib) && BibTarget(p, arg).Some?
    ensures var path := BibTarget(p, arg).value;
            var u := PrintItems(rest, false);
            var o := if path in seen then ExpandBibs(p, u, depth, seen)
                     else
                       var inner := Expand(p, Content(p, path), Parent(path), depth + 1, seen + [path]);
                       Then(Called(REFERENCES, inner), ExpandBibs(p, u, depth, inner.seen));
            Matches(p, o, Finish(p, Mark(Bib, arg, from, rest), depth, seen))
    decreases MAX_DEPTH + 1 - depth, 0, rest, 1
  {
    hide Walk, Expand, ExpandBibs, BibTarget, PrintDir, Content, Append, Chars, PrintItems, ItemsOk, Unjoined;
    var path := BibTarget(p, arg).value;
    if path in seen {
      BibsMatchFinish(p, rest, depth, seen);
    } else {
      ExpandMatchesWalk(p, Content(p, path), Parent(path), depth + 1, seen + [path]);
      var i := Walk(p, Content(p, path), Parent(path), depth + 1, seen + [path]);
      BibsMatchFinish(p, rest, depth, i.seen);
      var w := Finish(p, rest, depth, i.seen);
      PrintAppend(i.toks, w.toks);
      PrintChars(REFERENCES, Append(i.toks, w.toks));
      Associate(REFERENCES, Print(i.toks), Print(w.toks));
      if !i.halted && !w.halted && !i.joined && !w.joined {
        CleanAppend(p, i.toks, w.toks);
        CleanChars(p, REFERENCES, Append(i.toks, w.toks));
      }
    }
  }

  /** In every project: where no more than ten files are nested and no style and no
      bibliography arises from joined pieces, the expanded text is that of the
      walk, the keys are entered in the order of the walk, and no style and no
      bibliography that could be found is left. */
  lemma ExpandIsWalk(p: Project, t: string)
    requires var w := Walk(p, t, p.root, 0, []);
             !w.halted && !w.joined
    ensures var o := Expand(p, t, p.root, 0, []);
            var w := Walk(p, t, p.root, 0, []);
            o.text == Print(w.toks) && o.seen == w.seen && !o.halted && Clean(p, w.toks)
  {
    hide Walk, Expand;
    ExpandMatchesWalk(p, t, p.root, 0, []);
  }

  // ---- The keys of the walk ----

  /** Keys entered once each, at least as many as files are nested. */
  predicate Fits(p: Project, seen: seq<string>, depth: nat) {
    Distinct(seen) && (forall k :: 0 <= k < |seen| ==> seen[k] in Keys(p)) && depth <= |seen|
  }

  /** What a stretch of the walk does to the keys; with few keys it never halts. */
  predicate Enters(p: Project, seen: seq<string>, after: seq<string>, depth: nat, halted: bool) {
    seen <= after && Fits(p, after, depth) && (|Keys(p)| <= MAX_DEPTH ==> !halted)
  }

  lemma FitsOneMore(p: Project, seen: seq<string>, path: string, depth: nat)
    requires Fits(p, seen, depth) && path in Keys(p) && path !in seen
    ensures Fits(p, seen + [path], depth + 1)
  {
    hide Keys;
  }

  lemma FewKeysFitNoLimit(p: Project, seen: seq<string>, depth: nat)
    requires Fits(p, seen, depth)
    ensures depth <= |Keys(p)|
  {
    hide Keys;
    DistinctFit(seen, Keys(p));
  }

  lemma EntersThen(p: Project, seen: seq<string>, path: string, mid: seq<string>, end: seq<string>, depth: nat, h1: bool, h2: bool)
    requires Enters(p, seen + [path], mid, depth + 1, h1) && Enters(p, mid, end, depth, h2)
    ensures Enters(p, seen, end, depth, h1 || h2)
  {
    hide Keys;
  }

  lemma {:induction false} WalkEnters(p: Project, t: string, dir: string, depth: nat, seen: seq<string>)
    requires depth <= MAX_DEPTH + 1 && Fits(p, seen, depth)
    ensures var w := Walk(p, t, dir, depth, seen);
            Enters(p, seen, w.seen, depth, w.halted)
    decreases MAX_DEPTH + 1 - depth, 1
  {
    hide Visit, Finish, Keys, Read, Joins;
    if depth > MAX_DEPTH {
      FewKeysFitNoLimit(p, seen, depth);
    } else {
      VisitEnters(p, Read(t, dir), dir, depth, seen);
      var v := Visit(p, Read(t, dir), dir, depth, seen);
      FinishEnters(p, v.items, depth, v.seen);
    }
  }

  lemma {:induction false} VisitEnters(p: Project, toks: Tokens, dir: string, depth: nat, seen: seq<string>)
    requires depth <= MAX_DEPTH && Fits(p, seen, depth)
    ensures var v := Visit(p, toks, dir, depth, seen);
            Enters(p, seen, v.seen, depth, v.halted)
    decreases MAX_DEPTH + 1 - depth, 0, toks
  {
    hide Walk, Resolve, Keys, Fits, Distinct;
    match toks
    case Nil =>
    case Chr(_, rest) => VisitEnters(p, rest, dir, depth, seen);
    case Dir(k, arg, _, rest) =>
      var path := if k == Input || k == Include then Resolve(p, dir, arg) else None;
      if path == None || path.value in seen {
        VisitEnters(p, rest, dir, depth, seen);
      } else {
        ResolvedIsKey(p, dir, arg);
        FitsOneMore(p, seen, path.value, depth);
        WalkEnters(p, Content(p, path.value), Parent(path.value), depth + 1, seen + [path.value]);
        var w := Walk(p, Content(p, path.value), Parent(path.value), depth + 1, seen + [path.value]);
        FitsLess(p, w.seen, depth);
        VisitEnters(p, rest, dir, depth, w.seen);
        var v := Visit(p, rest, dir, depth, w.seen);
        EntersThen(p, seen, path.value, w.seen, v.seen, depth, w.halted, v.halted);
      }
  }

  lemma FitsLess(p: Project, seen: seq<string>, depth: nat)
    requires Fits(p, seen, depth + 1)
    ensures Fits(p, seen, depth)
  {
  }

  lemma {:induction false} FinishEnters(p: Project, items: Items, depth: nat, seen: seq<string>)
    requires depth <= MAX_DEPTH && Fits(p, seen, depth)
    ensures var w := Finish(p, items, depth, seen);
            Enters(p, seen, w.seen, depth, w.halted)
    decreases MAX_DEPTH + 1 - depth, 0, items
  {
    hide Walk, BibTarget, Keys, Fits, Distinct;
    match items
    case NoItems =>
    case Kept(_, rest) => FinishEnters(p, rest, depth, seen);
    case Sub(_, rest) => FinishEnters(p, rest, depth, seen);
    case Mark(k, arg, _, rest) =>
      var path := if k == Bib then BibTarget(p, arg) else None;
      if path == None || path.value in seen {
        FinishEnters(p, rest, depth, seen);
      } else {
        BibIsKey(p, arg);
        FitsOneMore(p, seen, path.value, depth);
        WalkEnters(p, Content(p, path.value), Parent(path.value), depth + 1, seen + [path.value]);
        var i := Walk(p, Content(p, path.value), Parent(path.value), depth + 1, seen + [path.value]);
        FitsLess(p, i.seen, depth);
        FinishEnters(p, rest, depth, i.seen);
        var w := Finish(p, rest, depth, i.seen);
        EntersThen(p, seen, path.value, i.seen, w.seen, depth, i.halted, w.halted);
      }
  }

  /** A project with at most ten path keys never meets the depth limit. */
  lemma FewKeysNeverHalt(p: Project, t: string)
    requires |Keys(p)| <= MAX_DEPTH
    ensures !Walk(p, t, p.root, 0, []).halted
  {
    hide Walk, Keys;
    WalkEnters(p, t, p.root, 0, []);
  }

  // ---- The walk leaves nothing out ----

  /** The key a directive of a file in `dir` leads to. */
  function Target(p: Project, dir: string, k: Kind, arg: string): Option<string> {
    match k
    case Input => Resolve(p, dir, arg)
    case Include => Resolve(p, dir, arg)
    case Bib => BibTarget(p, arg)
    case Style => None
  }

  /** Every directive of the file that leads somewhere leads to a key in `seen`;
      `bibs` says whether bibliographies count. */
  predicate Covered(p: Project, toks: Tokens, dir: string, seen: seq<string>, bibs: bool) {
    match toks
    case Nil => true
    case Chr(_, rest) => Covered(p, rest, dir, seen, bibs)
    case Dir(k, arg, _, rest) =>
      && (Target(p, dir, k, arg).Some? && (k == Bib ==> bibs) ==> Target(p, dir, k, arg).value in seen)
      && Covered(p, rest, dir, seen, bibs)
  }

  predicate TextCovered(p: Project, t: string, dir: string, seen: seq<string>) {
    Covered(p, Read(t, dir), dir, seen, true)
  }

  /** The bibliographies among the items lead to keys in `seen`. */
  predicate MarksCovered(p: Project, items: Items, seen: seq<string>) {
    match items
    case NoItems => true
    case Kept(_, rest) => MarksCovered(p, rest, seen)
    case Sub(_, rest) => MarksCovered(p, rest, seen)
    case Mark(k, arg, _, rest) =>
      && (k == Bib && BibTarget(p, arg).Some? ==> BibTarget(p, arg).value in seen)
      && MarksCovered(p, rest, seen)
  }

  /** The files entered from position `n` on are covered. */
  predicate FilesCovered(p: Project, n: nat, seen: seq<string>, all: seq<string>) {
    forall k :: n <= k < |seen| ==> TextCovered(p, Content(p, seen[k]), Parent(seen[k]), all)
  }

  lemma {:induction false} CoveredGrows(p: Project, toks: Tokens, dir: string, seen: seq<string>, more: seq<string>, bibs: bool)
    requires Covered(p, toks, dir, seen, bibs) && seen <= more
    ensures Covered(p, toks, dir, more, bibs)
  {
    hide Target;
    match toks
    case Nil =>
    case Chr(_, rest) => CoveredGrows(p, rest, dir, seen, more, bibs);
    case Dir(_, _, _, rest) => CoveredGrows(p, rest, dir, seen, more, bibs);
  }

  lemma FilesCoveredGrow(p: Project, n: nat, seen: seq<string>, all: seq<string>, more: seq<string>)
    requires FilesCovered(p, n, seen, all) && all <= more
    ensures FilesCovered(p, n, seen, more)
  {
    hide Covered;
    forall k | n <= k < |seen| ensures TextCovered(p, Content(p, seen[k]), Parent(seen[k]), more) {
      CoveredGrows(p, Read(Content(p, seen[k]), Parent(seen[k])), Parent(seen[k]), all, more, true);
    }
  }

  /** Files entered in two stretches, and the file entered in between. */
  lemma FilesCoveredJoin(p: Project, seen: seq<string>, path: string, mid: seq<string>, end: seq<string>)
    requires seen + [path] <= mid <= end
    requires TextCovered(p, Content(p, path), Parent(path), mid) && FilesCovered(p, |seen| + 1, mid, mid)
    requires FilesCovered(p, |mid|, end, end)
    ensures FilesCovered(p, |seen|, end, end) && path in end && seen <= end
  {
    hide Covered;
    CoveredGrows(p, Read(Content(p, path), Parent(path)), Parent(path), mid, end, true);
    FilesCoveredGrow(p, |seen| + 1, mid, mid, end);
    assert end[|seen|] == (seen + [path])[|seen|] == path;
    forall k | |seen| <= k < |end| ensures TextCovered(p, Content(p, end[k]), Parent(end[k]), end) {
      if |seen| < k < |mid| {
        assert end[k] == mid[k];
      }
    }
  }

  lemma {:induction false} BibsOfVisit(p: Project, toks: Tokens, dir: string, depth: nat, seen: seq<string>, all: seq<string>)
    requires depth <= MAX_DEPTH
    requires MarksCovered(p, Visit(p, toks, dir, depth, seen).items, all) && Covered(p, toks, dir, all, false)
    ensures Covered(p, toks, dir, all, true)
    decreases toks
  {
    hide Walk, Resolve, BibTarget;
    match toks
    case Nil =>
    case Chr(_, rest) => BibsOfVisit(p, rest, dir, depth, seen, all);
    case Dir(k, arg, _, rest) =>
      var path := if k == Input || k == Include then Resolve(p, dir, arg) else None;
      if path == None || path.value in seen {
        BibsOfVisit(p, rest, dir, depth, seen, all);
      } else {
        var w := Walk(p, Content(p, path.value), Parent(path.value), depth + 1, seen + [path.value]);
        BibsOfVisit(p, rest, dir, depth, w.seen, all);
      }
  }

  lemma {:induction false} WalkCovers(p: Project, t: string, dir: string, depth: nat, seen: seq<string>)
    requires depth <= MAX_DEPTH + 1 && !Walk(p, t, dir, depth, seen).halted
    ensures var w := Walk(p, t, dir, depth, seen);
            seen <= w.seen && TextCovered(p, t, dir, w.seen) && FilesCovered(p, |seen|, w.seen, w.seen)
    decreases MAX_DEPTH + 1 - depth, 1
  {
    hide Visit, Finish, Covered, Read, Joins;
    var toks := Read(t, dir);
    var v := Visit(p, toks, dir, depth, seen);
    var w := Finish(p, v.items, depth, v.seen);
    VisitCovers(p, toks, dir, depth, seen);
    FinishCovers(p, v.items, depth, v.seen);
    CoveredGrows(p, toks, dir, v.seen, w.seen, false);
    BibsOfVisit(p, toks, dir, depth, seen, w.seen);
    FilesCoveredGrow(p, |seen|, v.seen, v.seen, w.seen);
    assert forall k :: |seen| <= k < |v.seen| ==> w.seen[k] == v.seen[k];
  }

  lemma {:induction false} VisitCovers(p: Project, toks: Tokens, dir: string, depth: nat, seen: seq<string>)
    requires depth <= MAX_DEPTH && !Visit(p, toks, dir, depth, seen).halted
    ensures var v := Visit(p, toks, dir, depth, seen);
            seen <= v.seen && Covered(p, toks, dir, v.seen, false) && FilesCovered(p, |seen|, v.seen, v.seen)
    decreases MAX_DEPTH + 1 - depth, 0, toks
  {
    hide Walk, Resolve, BibTarget, FilesCovered, TextCovered;
    match toks
    case Nil => NoFiles(p, seen);
    case Chr(_, rest) => VisitCovers(p, rest, dir, depth, seen);
    case Dir(k, arg, _, rest) =>
      var path := if k == Input || k == Include then Resolve(p, dir, arg) else None;
      if path == None || path.value in seen {
        VisitCovers(p, rest, dir, depth, seen);
      } else {
        var w := Walk(p, Content(p, path.value), Parent(path.value), depth + 1, seen + [path.value]);
        WalkCovers(p, Content(p, path.value), Parent(path.value), depth + 1, seen + [path.value]);
        VisitCovers(p, rest, dir, depth, w.seen);
        FilesCoveredJoin(p, seen, path.value, w.seen, Visit(p, rest, dir, depth, w.seen).seen);
      }
  }

  lemma NoFiles(p: Project, seen: seq<string>)
    ensures FilesCovered(p, |seen|, seen, seen)
  {
  }

  lemma {:induction false} FinishCovers(p: Project, items: Items, depth: nat, seen: seq<string>)
    requires depth <= MAX_DEPTH && !Finish(p, items, depth, seen).halted
    ensures var w := Finish(p, items, depth, seen);
            seen <= w.seen && MarksCovered(p, items, w.seen) && FilesCovered(p, |seen|, w.seen, w.seen)
    decreases MAX_DEPTH + 1 - depth, 0, items
  {
    hide Walk, BibTarget, FilesCovered, TextCovered, Append, Chars, Content, Parent;
    match items
    case NoItems => NoFiles(p, seen);
    case Kept(_, rest) => FinishCovers(p, rest, depth, seen);
    case Sub(_, rest) => FinishCovers(p, rest, depth, seen);
    case Mark(k, arg, _, rest) =>
      var path := if k == Bib then BibTarget(p, arg) else None;
      if path == None || path.value in seen {
        FinishCovers(p, rest, depth, seen);
      } else {
        var i := Walk(p, Content(p, path.value), Parent(path.value), depth + 1, seen + [path.value]);
        WalkCovers(p, Content(p, path.value), Parent(path.value), depth + 1, seen + [path.value]);
        FinishCovers(p, rest, depth, i.seen);
        FilesCoveredJoin(p, seen, path.value, i.seen, Finish(p, rest, depth, i.seen).seen);
      }
  }

  /** Where no more than ten files are nested, every directive of the main file
      and of every file entered that leads to a file leads to one that is
      entered: nothing that can be reached is left out. */
  lemma WalkIsClosed(p: Project, t: string)
    requires !Walk(p, t, p.root, 0, []).halted
    ensures var seen := Walk(p, t, p.root, 0, []).seen;
            && TextCovered(p, t, p.root, seen)
            && forall k :: 0 <= k < |seen| ==> TextCovered(p, Content(p, seen[k]), Parent(seen[k]), seen)
  {
    hide Walk, TextCovered;
    WalkCovers(p, t, p.root, 0, []);
  }
}
