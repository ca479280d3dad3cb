/** Where every file is sealed, which a look at each file by itself can tell, no
    directive arises from joined pieces. */
module InputJoins {
  import opened Text
  import opened Inputs
  import opened InputTokens
  import opened InputWalk
  import opened InputsLeft
  import opened InputFixpoints

  // ---- Sealed files ----

  /** The characters up to the next directive. */
  function Run(toks: Tokens): string {
    if toks.Chr? then [toks.c] + Run(toks.rest) else ""
  }

  /** No directive of any kind starts at the start of `s`, whatever follows `s`. */
  predicate Dead(s: string) {
    DeadHead(s, Input) && DeadHead(s, Include) && DeadHead(s, Bib) && DeadHead(s, Style)
  }

  /** Between its directives the text neither holds one nor ends in the beginning
      of one. */
  predicate Sealed(toks: Tokens) {
    match toks
    case Nil => true
    case Chr(c, rest) => Dead([c] + Run(rest)) && Sealed(rest)
    case Dir(_, _, _, rest) => Sealed(rest)
  }

  predicate SealedFile(t: string, dir: string) {
    Sealed(Read(t, dir))
  }

  function ItemsRun(items: Items): string {
    if items.Kept? then [items.c] + ItemsRun(items.rest) else ""
  }

  /** Whatever follows the list, no directive arises in it. */
  ghost predicate AlwaysSilent(toks: Tokens) {
    forall u, k :: Silent(toks, u, k)
  }

  ghost predicate SealedItems(items: Items) {
    match items
    case NoItems => true
    case Kept(c, rest) => Dead([c] + ItemsRun(rest)) && SealedItems(rest)
    case Mark(_, _, _, rest) => SealedItems(rest)
    case Sub(inner, rest) => AlwaysSilent(inner) && SealedItems(rest)
  }

  lemma DeadGrows(s: string, k: Kind, tail: string)
    requires DeadHead(s, k)
    ensures DeadHead(s + tail, k)
  {
    hide NextBrace, Head;
    if j :| 0 <= j < |s| && j < |Head(k)| && s[j] != Head(k)[j] {
      assert (s + tail)[j] == s[j];
    } else {
      NextBraceAppend(s, tail, |Head(k)|);
    }
  }

  lemma DeadPrefix(c: char, run: string, longer: string)
    requires Dead([c] + run) && run <= longer
    ensures Dead([c] + longer)
  {
    hide DeadHead;
    var tail := longer[|run|..];
    assert [c] + longer == ([c] + run) + tail;
    DeadGrows([c] + run, Input, tail);
    DeadGrows([c] + run, Include, tail);
    DeadGrows([c] + run, Bib, tail);
    DeadGrows([c] + run, Style, tail);
  }

  lemma DeadIsSilent(c: char, run: string, text: string, k: Kind)
    requires Dead([c] + run) && run <= text
    ensures MatchEnd([c] + text, k) == None
  {
    hide DeadHead, MatchEnd;
    var tail := text[|run|..];
    assert [c] + text == ([c] + run) + tail;
    DeadStays([c] + run, k, tail);
  }

  // ---- Sealed files stay silent ----

  lemma {:induction false} RunIsPrinted(items: Items, styles: bool)
    ensures ItemsRun(items) <= PrintItems(items, styles)
  {
    if items.Kept? {
      RunIsPrinted(items.rest, styles);
    }
  }

  lemma {:induction false} SilentAppend(a: Tokens, b: Tokens, u: string, k: Kind)
    requires AlwaysSilent(a) && Silent(b, u, k)
    ensures Silent(Append(a, b), u, k)
  {
    hide MatchEnd;
    assert Silent(a, Print(b) + u, k);
    SilentBefore(a, b, u, k);
  }

  lemma {:induction false} SilentBefore(a: Tokens, b: Tokens, u: string, k: Kind)
    requires Silent(a, Print(b) + u, k) && Silent(b, u, k)
    ensures Silent(Append(a, b), u, k)
    decreases a
  {
    hide MatchEnd;
    match a
    case Nil =>
    case Chr(c, rest) =>
      SilentBefore(rest, b, u, k);
      PrintAppend(rest, b);
      Associate(Print(rest), Print(b), u);
    case Dir(_, _, _, rest) => SilentBefore(rest, b, u, k);
  }

  lemma QuietUnfolds(s: string, k: Kind)
    requires Quiet(s) && s != ""
    ensures DeadHead(s, k) && Quiet(s[1..])
  {
    hide DeadHead;
  }

  lemma {:induction false} SilentChars(s: string, toks: Tokens, u: string, k: Kind)
    requires Quiet(s) && Silent(toks, u, k)
    ensures Silent(Chars(s, toks), u, k)
    decreases |s|
  {
    hide MatchEnd, DeadHead, Quiet;
    if s != "" {
      QuietUnfolds(s, k);
      SilentChars(s[1..], toks, u, k);
      PrintChars(s[1..], toks);
      Associate(s[1..], Print(toks), u);
      FirstAndAfter(s, Print(toks) + u);
      DeadStays(s, k, Print(toks) + u);
    }
  }

  lemma FirstAndAfter(s: string, after: string)
    requires s != ""
    ensures [s[0]] + (s[1..] + after) == s + after
  {
  }

  lemma {:induction false} SealedItemsAreUnjoined(items: Items, styles: bool, k: Kind)
    requires SealedItems(items)
    ensures Unjoined(items, styles, k)
  {
    hide MatchEnd, Dead, Silent;
    match items
    case NoItems =>
    case Kept(c, rest) =>
      SealedItemsAreUnjoined(rest, styles, k);
      RunIsPrinted(rest, styles);
      DeadIsSilent(c, ItemsRun(rest), PrintItems(rest, styles), k);
    case Mark(_, _, _, rest) => SealedItemsAreUnjoined(rest, styles, k);
    case Sub(inner, rest) =>
      SealedItemsAreUnjoined(rest, styles, k);
      assert Silent(inner, PrintItems(rest, styles), k);
  }

  lemma {:induction false} VisitKeepsRun(p: Project, toks: Tokens, dir: string, depth: nat, seen: seq<string>)
    requires depth <= MAX_DEPTH
    ensures Run(toks) <= ItemsRun(Visit(p, toks, dir, depth, seen).items)
    decreases toks
  {
    hide Walk, Resolve;
    if toks.Chr? {
      VisitKeepsRun(p, toks.rest, dir, depth, seen);
    }
  }

  lemma {:induction false} FinishKeepsRun(p: Project, items: Items, depth: nat, seen: seq<string>)
    requires depth <= MAX_DEPTH
    ensures ItemsRun(items) <= Print(Finish(p, items, depth, seen).toks)
    decreases items
  {
    hide Walk, BibTarget;
    if items.Kept? {
      FinishKeepsRun(p, items.rest, depth, seen);
    }
  }

  /** Every file with a key in `seen` is sealed. */
  predicate AllSealed(p: Project, seen: seq<string>) {
    forall k :: 0 <= k < |seen| ==> SealedFile(Content(p, seen[k]), Parent(seen[k]))
  }

  lemma SealedBefore(p: Project, seen: seq<string>, more: seq<string>)
    requires AllSealed(p, more) && seen <= more
    ensures AllSealed(p, seen)
  {
    hide SealedFile, Content, Parent;
    assert forall k :: 0 <= k < |seen| ==> seen[k] == more[k];
  }

  lemma {:induction false} SealedWalkIsSilent(p: Project, t: string, dir: string, depth: nat, seen: seq<string>)
    requires depth <= MAX_DEPTH + 1 && Fits(p, seen, depth)
    requires SealedFile(t, dir) && AllSealed(p, Walk(p, t, dir, depth, seen).seen)
    ensures var w := Walk(p, t, dir, depth, seen);
            !w.halted ==> !w.joined && AlwaysSilent(w.toks)
    decreases MAX_DEPTH + 1 - depth, 1
  {
    hide Visit, Finish, Fits, Read, Sealed, AllSealed, AlwaysSilent, SealedItems, Unjoined;
    if depth <= MAX_DEPTH {
      var v := Visit(p, Read(t, dir), dir, depth, seen);
      var w := Finish(p, v.items, depth, v.seen);
      VisitEnters(p, Read(t, dir), dir, depth, seen);
      FinishEnters(p, v.items, depth, v.seen);
      SealedBefore(p, v.seen, w.seen);
      if !v.halted && !w.halted {
        SealedVisit(p, Read(t, dir), dir, depth, seen);
        SealedFinish(p, v.items, depth, v.seen);
        SealedItemsAreUnjoined(v.items, true, Style);
        SealedItemsAreUnjoined(v.items, false, Bib);
      }
    }
  }

  lemma {:induction false} SealedVisit(p: Project, toks: Tokens, dir: string, depth: nat, seen: seq<string>)
    requires depth <= MAX_DEPTH && Fits(p, seen, depth)
    requires Sealed(toks) && AllSealed(p, Visit(p, toks, dir, depth, seen).seen)
    ensures var v := Visit(p, toks, dir, depth, seen);
            !v.halted ==> !v.joined && SealedItems(v.items)
    decreases MAX_DEPTH + 1 - depth, 0, toks
  {
    hide Walk, Resolve, Fits, Dead, AlwaysSilent, AllSealed, Content, Parent;
    match toks
    case Nil =>
    case Chr(c, rest) =>
      SealedVisit(p, rest, dir, depth, seen);
      VisitKeepsRun(p, rest, dir, depth, seen);
      DeadPrefix(c, Run(rest), ItemsRun(Visit(p, rest, dir, depth, seen).items));
    case Dir(k, arg, _, rest) =>
      var path := if k == Input || k == Include then Resolve(p, dir, arg) else None;
      if path == None || path.value in seen {
        SealedVisit(p, rest, dir, depth, seen);
      } else {
        var w := Walk(p, Content(p, path.value), Parent(path.value), depth + 1, seen + [path.value]);
        EnterFits(p, path.value, depth, seen, dir, arg);
        VisitEnters(p, rest, dir, depth, w.seen);
        SealedEnter(p, path.value, depth, seen, dir, arg, Visit(p, rest, dir, depth, w.seen).seen);
        SealedVisit(p, rest, dir, depth, w.seen);
      }
  }

  lemma EnterFits(p: Project, path: string, depth: nat, seen: seq<string>, dir: string, arg: string)
    requires depth <= MAX_DEPTH && Fits(p, seen, depth) && path !in seen
    requires Resolve(p, dir, arg) == Some(path) || BibTarget(p, arg) == Some(path)
    ensures var w := Walk(p, Content(p, path), Parent(path), depth + 1, seen + [path]);
            Fits(p, w.seen, depth) && seen + [path] <= w.seen
  {
    hide Walk, Fits, Resolve, BibTarget, Content, Parent, Keys;
    ResolvedIsKey(p, dir, arg);
    BibIsKey(p, arg);
    FitsOneMore(p, seen, path, depth);
    WalkEnters(p, Content(p, path), Parent(path), depth + 1, seen + [path]);
    FitsLess(p, Walk(p, Content(p, path), Parent(path), depth + 1, seen + [path]).seen, depth);
  }

  /** A file that is entered, when `after` has been entered in the end. */
  lemma {:induction false} SealedEnter(p: Project, path: string, depth: nat, seen: seq<string>, dir: string, arg: string,
                                       after: seq<string>)
    requires depth <= MAX_DEPTH && Fits(p, seen, depth) && path !in seen
    requires Resolve(p, dir, arg) == Some(path) || BibTarget(p, arg) == Some(path)
    requires AllSealed(p, after) && Walk(p, Content(p, path), Parent(path), depth + 1, seen + [path]).seen <= after
    ensures var w := Walk(p, Content(p, path), Parent(path), depth + 1, seen + [path]);
            !w.halted ==> !w.joined && AlwaysSilent(w.toks)
    decreases MAX_DEPTH + 1 - (depth + 1), 2
  {
    hide Walk, Fits, Resolve, BibTarget, Content, Parent, Keys, AllSealed, SealedFile, AlwaysSilent;
    EnterFits(p, path, depth, seen, dir, arg);
    ResolvedIsKey(p, dir, arg);
    BibIsKey(p, arg);
    FitsOneMore(p, seen, path, depth);
    var w := Walk(p, Content(p, path), Parent(path), depth + 1, seen + [path]);
    SealedBefore(p, w.seen, after);
    SealedAt(p, w.seen, |seen|);
    assert w.seen[|seen|] == (seen + [path])[|seen|] == path;
    SealedWalkIsSilent(p, Content(p, path), Parent(path), depth + 1, seen + [path]);
  }

  lemma SealedAt(p: Project, seen: seq<string>, k: nat)
    requires AllSealed(p, seen) && k < |seen|
    ensures SealedFile(Content(p, seen[k]), Parent(seen[k]))
  {
  }

  lemma {:induction false} SealedFinish(p: Project, items: Items, depth: nat, seen: seq<string>)
    requires depth <= MAX_DEPTH && Fits(p, seen, depth)
    requires SealedItems(items) && AllSealed(p, Finish(p, items, depth, seen).seen)
    ensures var w := Finish(p, items, depth, seen);
            !w.halted ==> !w.joined && AlwaysSilent(w.toks)
    decreases MAX_DEPTH + 1 - depth, 0, items
  {
    hide Walk, BibTarget, Fits, Dead, AlwaysSilent, AllSealed, Content, Parent, Append, Chars;
    match items
    case NoItems => SilentNil();
    case Kept(c, rest) =>
      SealedFinish(p, rest, depth, seen);
      FinishKeepsRun(p, rest, depth, seen);
      if !Finish(p, rest, depth, seen).halted {
        SilentCons(c, ItemsRun(rest), Finish(p, rest, depth, seen).toks);
      }
    case Sub(inner, rest) =>
      SealedFinish(p, rest, depth, seen);
      if !Finish(p, rest, depth, seen).halted {
        AlwaysSilentAppend(inner, Finish(p, rest, depth, seen).toks);
      }
    case Mark(k, arg, from, rest) =>
      var path := if k == Bib then BibTarget(p, arg) else None;
      if path == None || path.value in seen {
        SealedFinish(p, rest, depth, seen);
        if !Finish(p, rest, depth, seen).halted {
          SilentDir(k, arg, from, Finish(p, rest, depth, seen).toks);
        }
      } else {
        var i := Walk(p, Content(p, path.value), Parent(path.value), depth + 1, seen + [path.value]);
        EnterFits(p, path.value, depth, seen, "", arg);
        FinishEnters(p, rest, depth, i.seen);
        var w := Finish(p, rest, depth, i.seen);
        SealedEnter(p, path.value, depth, seen, "", arg, w.seen);
        SealedFinish(p, rest, depth, i.seen);
        if !i.halted && !w.halted {
          AlwaysSilentAppend(i.toks, w.toks);
          SilentReferences(Append(i.toks, w.toks));
        }
      }
  }

  lemma SilentNil()
    ensures AlwaysSilent(Nil)
  {
  }

  lemma SilentCons(c: char, run: string, toks: Tokens)
    requires AlwaysSilent(toks) && Dead([c] + run) && run <= Print(toks)
    ensures AlwaysSilent(Chr(c, toks))
  {
    hide Dead, MatchEnd;
    forall u, k ensures Silent(Chr(c, toks), u, k) {
      assert Silent(toks, u, k);
      DeadIsSilent(c, run, Print(toks) + u, k);
    }
  }

  lemma SilentDir(kind: Kind, arg: string, from: string, toks: Tokens)
    requires AlwaysSilent(toks)
    ensures AlwaysSilent(Dir(kind, arg, from, toks))
  {
    hide MatchEnd;
    forall u, k ensures Silent(Dir(kind, arg, from, toks), u, k) {
      assert Silent(toks, u, k);
    }
  }

  lemma AlwaysSilentAppend(a: Tokens, b: Tokens)
    requires AlwaysSilent(a) && AlwaysSilent(b)
    ensures AlwaysSilent(Append(a, b))
  {
    hide Silent, Append;
    forall u, k ensures Silent(Append(a, b), u, k) {
      assert Silent(b, u, k);
      SilentAppend(a, b, u, k);
    }
  }

  lemma SilentReferences(toks: Tokens)
    requires AlwaysSilent(toks)
    ensures AlwaysSilent(Chars(REFERENCES, toks))
  {
    hide Silent, Chars, Quiet;
    ReferencesAreQuiet();
    forall u, k ensures Silent(Chars(REFERENCES, toks), u, k) {
      assert Silent(toks, u, k);
      SilentChars(REFERENCES, toks, u, k);
    }
  }

  lemma ReferencesAreQuiet()
    ensures Quiet(REFERENCES)
  {
    hide DeadHead;
    var r := REFERENCES;
    ReferencesAreDead(Input);
    ReferencesAreDead(Include);
    ReferencesAreDead(Bib);
    ReferencesAreDead(Style);
    QuietPlain(r[1..], "");
    assert r[1..] + "" == r[1..];
  }

  lemma ReferencesAreDead(k: Kind)
    ensures DeadHead(REFERENCES, k)
  {
    assert REFERENCES[1] == 's' && Head(k)[1] != 's';
  }

  /** Where the main file and every file entered is sealed and the project has at
      most ten path keys, the expansion is the walk. */
  lemma SealedExpansionIsWalk(p: Project, t: string)
    requires |Keys(p)| <= MAX_DEPTH && SealedFile(t, p.root)
    requires AllSealed(p, Walk(p, t, p.root, 0, []).seen)
    ensures var o := Expand(p, t, p.root, 0, []);
            var w := Walk(p, t, p.root, 0, []);
            !w.halted && !w.joined && o.text == Print(w.toks) && o.seen == w.seen
  {
    hide Walk, Expand, Keys, SealedFile, AllSealed, AlwaysSilent;
    FewKeysNeverHalt(p, t);
    SealedWalkIsSilent(p, t, p.root, 0, []);
    ExpandIsWalk(p, t);
  }

  /** And then it leaves no input that could be resolved, and a second expansion
      changes nothing. */
  lemma SealedExpansionIsFinal(p: Project, t: string)
    requires |Keys(p)| <= MAX_DEPTH && SealedFile(t, p.root)
    requires AllSealed(p, Walk(p, t, p.root, 0, []).seen)
    ensures var o := Expand(p, t, p.root, 0, []);
            && AllUnresolved(p, o.text, Walk(p, t, p.root, 0, []).toks, o.seen)
            && Expand(p, o.text, p.root, 0, []) == Out(o.text, [], 0, false)
  {
    hide Walk, Expand, Keys, SealedFile, AllSealed, Silent, AllUnresolved;
    FewKeysNeverHalt(p, t);
    SealedWalkIsSilent(p, t, p.root, 0, []);
    NoResolvableInputIsLeft(p, t);
    ExpandIsIdempotent(p, t);
  }
}
