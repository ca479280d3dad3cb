/** The texts that the expansion leaves as they are, and when expanding twice is
    expanding once. */
module InputFixpoints {
  import opened Text
  import opened Inputs
  import opened InputTokens
  import opened InputWalk
  import opened InputsLeft

  /** No style, no input that the root resolves, and no bibliography that anything
      is found for. */
  predicate Settled(p: Project, toks: Tokens) {
    match toks
    case Nil => true
    case Chr(_, rest) => Settled(p, rest)
    case Dir(k, arg, _, rest) => Target(p, p.root, k, arg) == None && k != Style && Settled(p, rest)
  }

  /** Some input of the list is resolved by the root. */
  predicate Resolvable(p: Project, toks: Tokens) {
    match toks
    case Nil => false
    case Chr(_, rest) => Resolvable(p, rest)
    case Dir(k, arg, _, rest) => ((k == Input || k == Include) && Resolve(p, p.root, arg).Some?) || Resolvable(p, rest)
  }

  predicate HasStyle(toks: Tokens) {
    match toks
    case Nil => false
    case Chr(_, rest) => HasStyle(rest)
    case Dir(k, _, _, rest) => k == Style || HasStyle(rest)
  }

  predicate Findable(p: Project, toks: Tokens) {
    match toks
    case Nil => false
    case Chr(_, rest) => Findable(p, rest)
    case Dir(k, arg, _, rest) => (k == Bib && BibTarget(p, arg).Some?) || Findable(p, rest)
  }

  lemma {:induction false} SettledHasNone(p: Project, toks: Tokens)
    ensures Settled(p, toks) <==> !Resolvable(p, toks) && !HasStyle(toks) && !Findable(p, toks)
  {
    hide Resolve, BibTarget;
    match toks
    case Nil =>
    case Chr(_, rest) => SettledHasNone(p, rest);
    case Dir(_, _, _, rest) => SettledHasNone(p, rest);
  }

  // ---- What each pass does to a text ----

  lemma AtAChar(c: char, rest: Tokens, k: Kind)
    requires Proper(Chr(c, rest))
    ensures MatchEnd([c] + Print(rest), k) == None && InputKind([c] + Print(rest)) == None
  {
    hide MatchEnd;
  }

  /** The pass for inputs copies the text, or enters a file. */
  lemma {:induction false} InputsCopyOrEnter(p: Project, toks: Tokens)
    requires Proper(toks)
    ensures Resolvable(p, toks) ==> ExpandInputs(p, Print(toks), p.root, 0, []).seen != []
    ensures !Resolvable(p, toks) ==> ExpandInputs(p, Print(toks), p.root, 0, []) == Out(Print(toks), [], 0, false)
  {
    hide ExpandInputs, Expand, MatchEnd, InputKind, AnyKind, PrintDir, ValidArg, Resolve, Content, Parent, Keys, Weight;
    match toks
    case Nil => NoInputs(p, p.root, 0, []);
    case Chr(c, rest) =>
      AtAChar(c, rest, Input);
      InputsPassChar(p, c, Print(rest), p.root, 0, []);
      InputsCopyOrEnter(p, rest);
    case Dir(k, arg, _, rest) =>
      InputsCopyOrEnter(p, rest);
      if k == Bib || k == Style {
        InputsPassDir(p, k, arg, Print(rest), p.root, 0, []);
      } else {
        InputDirStep(p, k, arg, Print(rest), p.root, 0, []);
        if Resolve(p, p.root, arg).Some? {
          var path := Resolve(p, p.root, arg).value;
          var inner := Expand(p, Content(p, path), Parent(path), 1, [] + [path]);
          ExpandGrows(p, Content(p, path), Parent(path), 1, [] + [path]);
          InputsGrow(p, Print(rest), p.root, 0, inner.seen);
        }
      }
  }

  /** Dropping the styles keeps the text, or shortens it. */
  lemma {:induction false} StylesShorten(toks: Tokens)
    requires Proper(toks)
    ensures HasStyle(toks) ==> |DropStyles(Print(toks))| < |Print(toks)|
    ensures !HasStyle(toks) ==> DropStyles(Print(toks)) == Print(toks)
  {
    hide DropStyles, MatchEnd, InputKind, AnyKind, PrintDir, ValidArg;
    match toks
    case Nil => NoStyles();
    case Chr(c, rest) =>
      AtAChar(c, rest, Style);
      StylesPassChar(c, Print(rest));
      StylesShorten(rest);
    case Dir(k, arg, _, rest) =>
      DirIsLong(k, arg);
      StylesPassDir(k, arg, Print(rest));
      StylesShorten(rest);
  }

  /** The pass for bibliographies copies its text or enters a file, whatever the
      text. */
  lemma {:induction false} BibsCopyOrEnter(p: Project, t: string)
    ensures var o := ExpandBibs(p, t, 0, []);
            o.seen == [] ==> o == Out(t, [], 0, false)
    decreases |t|
  {
    hide ExpandBibs, Expand, MatchEnd, BibTarget, Content, Parent, Keys, Weight;
    if t == "" {
      NoInputs(p, p.root, 0, []);
    } else {
      BibsUnfold(p, t, 0, []);
      var end := MatchEnd(t, Bib);
      if end == None {
        BibsCopyOrEnter(p, t[1..]);
        assert [t[0]] + t[1..] == t;
      } else if BibTarget(p, Argument(t, Bib)) == None {
        BibsCopyOrEnter(p, t[end.value..]);
        assert t[..end.value] + t[end.value..] == t;
      } else {
        FoundIsEntered(p, t, 0, [], BibTarget(p, Argument(t, Bib)).value);
      }
    }
  }

  lemma {:induction false} UnfindableAreCopied(p: Project, toks: Tokens, depth: nat, seen: seq<string>)
    requires Proper(toks) && !Findable(p, toks) && depth <= MAX_DEPTH
    ensures ExpandBibs(p, Print(toks), depth, seen) == Out(Print(toks), seen, 0, false)
  {
    hide ExpandBibs, Expand, MatchEnd, InputKind, AnyKind, PrintDir, ValidArg, BibTarget;
    match toks
    case Nil => NoInputs(p, "", depth, seen);
    case Chr(c, rest) =>
      AtAChar(c, rest, Bib);
      BibsPassChar(p, c, Print(rest), depth, seen);
      UnfindableAreCopied(p, rest, depth, seen);
    case Dir(k, arg, _, rest) =>
      BibsPassDir(p, k, arg, Print(rest), depth, seen);
      UnfindableAreCopied(p, rest, depth, seen);
  }

  /** The two later passes leave a text alone that holds nothing for them. */
  lemma LaterPassesCopy(p: Project, t: string, depth: nat, seen: seq<string>)
    requires !HasStyle(Read(t, "")) && !Findable(p, Read(t, "")) && depth <= MAX_DEPTH
    ensures DropStyles(t) == t && ExpandBibs(p, t, depth, seen) == Out(t, seen, 0, false)
  {
    hide ExpandBibs, DropStyles, Read, HasStyle, Findable, Proper, Print;
    ReadIsExact(t, "");
    StylesShorten(Read(t, ""));
    UnfindableAreCopied(p, Read(t, ""), depth, seen);
  }

  lemma {:induction false} FindableIsEntered(p: Project, toks: Tokens)
    requires Proper(toks) && Findable(p, toks)
    ensures ExpandBibs(p, Print(toks), 0, []).seen != []
  {
    hide ExpandBibs, Expand, MatchEnd, InputKind, AnyKind, PrintDir, ValidArg, BibTarget;
    match toks
    case Chr(c, rest) =>
      AtAChar(c, rest, Bib);
      BibsPassChar(p, c, Print(rest), 0, []);
      FindableIsEntered(p, rest);
    case Dir(k, arg, _, rest) =>
      if k == Bib && BibTarget(p, arg).Some? {
        DirMatches(Bib, arg, Print(rest));
        FoundIsEntered(p, PrintDir(Bib, arg) + Print(rest), 0, [], BibTarget(p, arg).value);
      } else {
        BibsPassDir(p, k, arg, Print(rest), 0, []);
        FindableIsEntered(p, rest);
      }
  }

  // ---- Fixed points ----

  lemma {:induction false} SettledExactly(p: Project, toks: Tokens)
    requires Proper(toks)
    ensures Expand(p, Print(toks), p.root, 0, []) == Out(Print(toks), [], 0, false) <==> Settled(p, toks)
  {
    hide ExpandInputs, ExpandBibs, DropStyles, Print, Proper, Settled, Resolvable, HasStyle, Findable, Keys, Weight;
    var t := Print(toks);
    SettledHasNone(p, toks);
    InputsCopyOrEnter(p, toks);
    StylesShorten(toks);
    if Findable(p, toks) {
      FindableIsEntered(p, toks);
    } else {
      UnfindableAreCopied(p, toks, 0, []);
    }
    var a := ExpandInputs(p, t, p.root, 0, []);
    BibsGrow(p, DropStyles(a.text), 0, a.seen);
    BibsCopyOrEnter(p, DropStyles(t));
  }

  /** In every project: the expansion leaves a text as it is and enters no file if
      and only if the text holds no style, no input that the root resolves and no
      bibliography that anything is found for. */
  lemma FixedExactly(p: Project, t: string)
    ensures Expand(p, t, p.root, 0, []) == Out(t, [], 0, false) <==> Settled(p, Read(t, p.root))
  {
    hide Expand, Read, Settled;
    ReadIsExact(t, p.root);
    SettledExactly(p, Read(t, p.root));
  }

  // ---- Expanding twice ----

  /** What a file's own directory cannot resolve the root cannot resolve. */
  lemma NotAtTheRoot(p: Project, from: string, arg: string)
    requires Resolve(p, from, arg) == None
    ensures Resolve(p, p.root, arg) == None
  {
  }

  lemma {:induction false} FinalIsSettled(p: Project, toks: Tokens, seen: seq<string>)
    requires Clean(p, toks) && LeftUnresolved(p, toks, seen) && forall k :: Silent(toks, "", k)
    ensures Proper(toks) && Settled(p, toks)
  {
    hide MatchEnd, ValidArg, Resolve, IsVisited, BibTarget, AnyKind;
    match toks
    case Nil =>
    case Chr(c, rest) =>
      SilentUnfolds(c, rest);
      FinalIsSettled(p, rest, seen);
    case Dir(k, arg, from, rest) =>
      assert forall other :: Silent(toks, "", other) ==> Silent(rest, "", other);
      FinalIsSettled(p, rest, seen);
      if k == Input || k == Include {
        NotAtTheRoot(p, from, arg);
      }
  }

  lemma SilentUnfolds(c: char, rest: Tokens)
    requires forall k :: Silent(Chr(c, rest), "", k)
    ensures AnyKind([c] + Print(rest)) == None && forall k :: Silent(rest, "", k)
  {
    hide MatchEnd;
    assert Print(rest) + "" == Print(rest);
    forall k ensures MatchEnd([c] + Print(rest), k) == None && Silent(rest, "", k) {
      assert Silent(Chr(c, rest), "", k);
    }
  }

  /** Where no directive of any kind arises from joined pieces, expansion is
      idempotent: a second one enters no file and changes nothing. */
  lemma ExpandIsIdempotent(p: Project, t: string)
    requires var w := Walk(p, t, p.root, 0, []);
             !w.halted && !w.joined && forall k :: Silent(w.toks, "", k)
    ensures var o := Expand(p, t, p.root, 0, []);
            Expand(p, o.text, p.root, 0, []) == Out(o.text, [], 0, false)
  {
    hide Walk, Expand, LeftUnresolved, Print, Silent, Clean, Proper, Settled, AllUnresolved;
    ExpandIsWalk(p, t);
    NoResolvableInputIsLeft(p, t);
    var toks := Walk(p, t, p.root, 0, []).toks;
    FinalIsSettled(p, toks, Expand(p, t, p.root, 0, []).seen);
    SettledExactly(p, toks);
  }
}
