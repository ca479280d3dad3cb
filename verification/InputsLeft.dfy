/** What the expansion leaves: every input that stands in the expanded text comes
    from a file whose directory cannot resolve it, exactly when no input arises
    from joined pieces. */
module InputsLeft {
  import opened Text
  import opened Inputs
  import opened InputTokens
  import opened InputWalk

  // ---- The inputs of the walk ----

  /** `from` is the directory of the main file or of a file entered. */
  predicate IsVisited(p: Project, from: string, seen: seq<string>) {
    from == p.root || exists k :: 0 <= k < |seen| && Parent(seen[k]) == from
  }

  /** Every input left stands in a visited file that cannot resolve it. */
  predicate LeftUnresolved(p: Project, toks: Tokens, seen: seq<string>) {
    match toks
    case Nil => true
    case Chr(_, rest) => LeftUnresolved(p, rest, seen)
    case Dir(k, arg, from, rest) =>
      && (k == Input || k == Include ==> Resolve(p, from, arg) == None && IsVisited(p, from, seen))
      && LeftUnresolved(p, rest, seen)
  }

  predicate ItemsLeft(p: Project, items: Items, seen: seq<string>) {
    match items
    case NoItems => true
    case Kept(_, rest) => ItemsLeft(p, rest, seen)
    case Sub(inner, rest) => LeftUnresolved(p, inner, seen) && ItemsLeft(p, rest, seen)
    case Mark(k, arg, from, rest) =>
      && (k == Input || k == Include ==> Resolve(p, from, arg) == None && IsVisited(p, from, seen))
      && ItemsLeft(p, rest, seen)
  }

  lemma VisitedGrows(p: Project, from: string, seen: seq<string>, more: seq<string>)
    requires IsVisited(p, from, seen) && seen <= more
    ensures IsVisited(p, from, more)
  {
    if from != p.root {
      var k :| 0 <= k < |seen| && Parent(seen[k]) == from;
      assert more[k] == seen[k];
    }
  }

  lemma LeftUnfolds(p: Project, toks: Tokens, seen: seq<string>)
    ensures LeftUnresolved(p, toks, seen) ==
            match toks
            case Nil => true
            case Chr(_, rest) => LeftUnresolved(p, rest, seen)
            case Dir(k, arg, from, rest) =>
              && (k == Input || k == Include ==> Resolve(p, from, arg) == None && IsVisited(p, from, seen))
              && LeftUnresolved(p, rest, seen)
  {
    hide Resolve, IsVisited;
  }

  lemma {:induction false} LeftGrows(p: Project, toks: Tokens, seen: seq<string>, more: seq<string>)
    requires LeftUnresolved(p, toks, seen) && seen <= more
    ensures LeftUnresolved(p, toks, more)
  {
    hide Resolve, IsVisited;
    match toks
    case Nil =>
    case Chr(_, rest) => LeftGrows(p, rest, seen, more);
    case Dir(k, _, from, rest) =>
      LeftGrows(p, rest, seen, more);
      if k == Input || k == Include {
        VisitedGrows(p, from, seen, more);
      }
  }

  lemma {:induction false} ItemsLeftGrow(p: Project, items: Items, seen: seq<string>, more: seq<string>)
    requires ItemsLeft(p, items, seen) && seen <= more
    ensures ItemsLeft(p, items, more)
  {
    hide Resolve, IsVisited, LeftUnresolved;
    match items
    case NoItems =>
    case Kept(_, rest) => ItemsLeftGrow(p, rest, seen, more);
    case Sub(inner, rest) =>
      LeftGrows(p, inner, seen, more);
      ItemsLeftGrow(p, rest, seen, more);
    case Mark(k, _, from, rest) =>
      ItemsLeftGrow(p, rest, seen, more);
      if k == Input || k == Include {
        VisitedGrows(p, from, seen, more);
      }
  }

  lemma {:induction false} LeftAppend(p: Project, a: Tokens, b: Tokens, seen: seq<string>)
    requires LeftUnresolved(p, a, seen) && LeftUnresolved(p, b, seen)
    ensures LeftUnresolved(p, Append(a, b), seen)
  {
    hide Resolve, IsVisited;
    match a
    case Nil =>
    case Chr(_, rest) => LeftAppend(p, rest, b, seen);
    case Dir(_, _, _, rest) => LeftAppend(p, rest, b, seen);
  }

  lemma {:induction false} LeftChars(p: Project, s: string, toks: Tokens, seen: seq<string>)
    requires LeftUnresolved(p, toks, seen)
    ensures LeftUnresolved(p, Chars(s, toks), seen)
    decreases |s|
  {
    if s != "" {
      LeftChars(p, s[1..], toks, seen);
    }
  }

  lemma {:induction false} WalkLeaves(p: Project, t: string, dir: string, depth: nat, seen: seq<string>)
    requires depth <= MAX_DEPTH + 1 && Fits(p, seen, depth) && IsVisited(p, dir, seen)
    ensures var w := Walk(p, t, dir, depth, seen);
            !w.halted ==> LeftUnresolved(p, w.toks, w.seen)
    decreases MAX_DEPTH + 1 - depth, 1
  {
    hide Visit, Finish, Fits, IsVisited, Read, Joins, LeftUnresolved, ItemsLeft;
    if depth <= MAX_DEPTH {
      ReadIsExact(t, dir);
      var v := Visit(p, Read(t, dir), dir, depth, seen);
      VisitEnters(p, Read(t, dir), dir, depth, seen);
      if !v.halted {
        VisitLeaves(p, Read(t, dir), dir, depth, seen);
        FinishLeaves(p, v.items, depth, v.seen);
      }
    }
  }

  lemma {:induction false} VisitLeaves(p: Project, toks: Tokens, dir: string, depth: nat, seen: seq<string>)
    requires depth <= MAX_DEPTH && Fits(p, seen, depth) && IsVisited(p, dir, seen) && Owned(toks, dir)
    ensures var v := Visit(p, toks, dir, depth, seen);
            !v.halted ==> ItemsLeft(p, v.items, v.seen)
    decreases MAX_DEPTH + 1 - depth, 0, toks
  {
    hide Walk, Resolve, Fits, IsVisited, LeftUnresolved, Content, Parent;
    match toks
    case Nil =>
    case Chr(_, rest) => VisitLeaves(p, rest, dir, depth, seen);
    case Dir(k, arg, from, rest) =>
      var path := if k == Input || k == Include then Resolve(p, dir, arg) else None;
      if path == None || path.value in seen {
        VisitLeaves(p, rest, dir, depth, seen);
        VisitEnters(p, rest, dir, depth, seen);
        VisitedGrows(p, dir, seen, Visit(p, rest, dir, depth, seen).seen);
      } else {
        EnterLeaves(p, path.value, depth, seen, k, dir, arg);
        var w := Walk(p, Content(p, path.value), Parent(path.value), depth + 1, seen + [path.value]);
        VisitedGrows(p, dir, seen, w.seen);
        VisitLeaves(p, rest, dir, depth, w.seen);
        VisitEnters(p, rest, dir, depth, w.seen);
        if !w.halted {
          LeftGrows(p, w.toks, w.seen, Visit(p, rest, dir, depth, w.seen).seen);
        }
      }
  }

  /** A file entered by an input or a bibliography. */
  lemma {:induction false} EnterLeaves(p: Project, path: string, depth: nat, seen: seq<string>, k: Kind, dir: string, arg: string)
    requires depth <= MAX_DEPTH && Fits(p, seen, depth) && path !in seen
    requires Resolve(p, dir, arg) == Some(path) || BibTarget(p, arg) == Some(path)
    ensures var w := Walk(p, Content(p, path), Parent(path), depth + 1, seen + [path]);
            && (!w.halted ==> LeftUnresolved(p, w.toks, w.seen))
            && Fits(p, w.seen, depth) && seen <= w.seen
    decreases MAX_DEPTH + 1 - (depth + 1), 2
  {
    hide Walk, Fits, LeftUnresolved, Resolve, BibTarget, Content, Parent, Keys;
    ResolvedIsKey(p, dir, arg);
    BibIsKey(p, arg);
    FitsOneMore(p, seen, path, depth);
    assert (seen + [path])[|seen|] == path;
    WalkLeaves(p, Content(p, path), Parent(path), depth + 1, seen + [path]);
    WalkEnters(p, Content(p, path), Parent(path), depth + 1, seen + [path]);
    FitsLess(p, Walk(p, Content(p, path), Parent(path), depth + 1, seen + [path]).seen, depth);
  }

  lemma {:induction false} FinishLeaves(p: Project, items: Items, depth: nat, seen: seq<string>)
    requires depth <= MAX_DEPTH && Fits(p, seen, depth) && ItemsLeft(p, items, seen)
    ensures var w := Finish(p, items, depth, seen);
            !w.halted ==> LeftUnresolved(p, w.toks, w.seen)
    decreases MAX_DEPTH + 1 - depth, 0, items, 0
  {
    hide Walk, Resolve, BibTarget, Fits, IsVisited, Content, Parent, Chars, Append, LeftUnresolved, Keys;
    LeftUnfolds(p, Finish(p, items, depth, seen).toks, Finish(p, items, depth, seen).seen);
    match items
    case NoItems =>
    case Kept(_, rest) => FinishLeaves(p, rest, depth, seen);
    case Sub(inner, rest) =>
      FinishLeaves(p, rest, depth, seen);
      FinishEnters(p, rest, depth, seen);
      var w := Finish(p, rest, depth, seen);
      if !w.halted {
        LeftGrows(p, inner, seen, w.seen);
        LeftAppend(p, inner, w.toks, w.seen);
      }
    case Mark(k, arg, from, rest) =>
      var path := if k == Bib then BibTarget(p, arg) else None;
      if path == None || path.value in seen {
        FinishLeaves(p, rest, depth, seen);
        FinishEnters(p, rest, depth, seen);
        if k == Input || k == Include {
          VisitedGrows(p, from, seen, Finish(p, rest, depth, seen).seen);
        }
      } else {
        BibLeaves(p, arg, from, rest, depth, seen);
      }
  }

  lemma FinishAtBib(p: Project, arg: string, from: string, rest: Items, depth: nat, seen: seq<string>)
    requires depth <= MAX_DEPTH && BibTarget(p, arg).Some? && BibTarget(p, arg).value !in seen
    ensures var path := BibTarget(p, arg).value;
            var i := Walk(p, Content(p, path), Parent(path), depth + 1, seen + [path]);
            var w := Finish(p, rest, depth, i.seen);
            Finish(p, Mark(Bib, arg, from, rest), depth, seen) ==
            Walked(Chars(REFERENCES, Append(i.toks, w.toks)), w.seen, i.halted || w.halted, i.joined || w.joined)
  {
    hide Walk, BibTarget, Content, Parent, Chars, Append;
  }

  /** A bibliography whose file is entered. */
  lemma {:induction false} BibLeaves(p: Project, arg: string, from: string, rest: Items, depth: nat, seen: seq<string>)
    requires depth <= MAX_DEPTH && Fits(p, seen, depth) && ItemsLeft(p, rest, seen)
    requires BibTarget(p, arg).Some? && BibTarget(p, arg).value !in seen
    ensures var w := Finish(p, Mark(Bib, arg, from, rest), depth, seen);
            !w.halted ==> LeftUnresolved(p, w.toks, w.seen)
    decreases MAX_DEPTH + 1 - depth, 0, rest, 1
  {
    hide Walk, Finish, BibTarget, Fits, LeftUnresolved, ItemsLeft, Content, Parent, Chars, Append;
    FinishAtBib(p, arg, from, rest, depth, seen);
    var path := BibTarget(p, arg).value;
    EnterLeaves(p, path, depth, seen, Bib, "", arg);
    var i := Walk(p, Content(p, path), Parent(path), depth + 1, seen + [path]);
    ItemsLeftGrow(p, rest, seen, i.seen);
    FinishLeaves(p, rest, depth, i.seen);
    FinishEnters(p, rest, depth, i.seen);
    var w := Finish(p, rest, depth, i.seen);
    if !i.halted && !w.halted {
      LeftGrows(p, i.toks, i.seen, w.seen);
      LeftAppend(p, i.toks, w.toks, w.seen);
      LeftChars(p, REFERENCES, Append(i.toks, w.toks), w.seen);
    }
  }

  // ---- The inputs of the expanded text ----

  /** The directive of the list that starts at position `j` of its text. */
  function DirAt(toks: Tokens, j: int): Option<Tokens> {
    match toks
    case Nil => None
    case Chr(_, rest) => DirAt(rest, j - 1)
    case Dir(k, arg, _, rest) => if j == 0 then Some(toks) else DirAt(rest, j - |PrintDir(k, arg)|)
  }

  /** An input stands in the text at position `j`. */
  predicate InputAt(t: string, j: nat, k: Kind) {
    (k == Input || k == Include) && j <= |t| && MatchEnd(t[j..], k).Some?
  }

  /** The input that stands in the text at `j` is a directive of the list, from a
      visited file that cannot resolve it. */
  predicate IsUnresolved(p: Project, t: string, j: nat, k: Kind, toks: Tokens, seen: seq<string>)
    requires InputAt(t, j, k)
  {
    match DirAt(toks, j)
    case Some(Dir(kind, arg, from, _)) =>
      && kind == k && arg == Argument(t[j..], k)
      && Resolve(p, from, arg) == None && IsVisited(p, from, seen)
    case _ => false
  }

  ghost predicate AllUnresolved(p: Project, t: string, toks: Tokens, seen: seq<string>) {
    forall j: nat, k :: InputAt(t, j, k) ==> IsUnresolved(p, t, j, k, toks, seen)
  }

  lemma {:induction false} QuietAt(s: string, i: nat, k: Kind)
    requires Quiet(s) && i < |s|
    ensures DeadHead(s[i..], k)
    decreases i
  {
    hide DeadHead;
    if i == 0 {
      assert s[0..] == s;
    } else {
      QuietAt(s[1..], i - 1, k);
      assert s[1..][i - 1..] == s[i..];
    }
  }

  /** No directive starts inside another. */
  lemma NothingStartsInside(kind: Kind, arg: string, u: string, j: nat, k: Kind)
    requires ValidArg(kind, arg) && 0 < j < |PrintDir(kind, arg)|
    ensures MatchEnd((PrintDir(kind, arg) + u)[j..], k) == None
  {
    hide PrintDir, Quiet, DeadHead, MatchEnd;
    var d := PrintDir(kind, arg);
    DirIsQuietBehind(kind, arg);
    QuietAt(d[1..], j - 1, k);
    assert d[1..][j - 1..] == d[j..] && (d + u)[j..] == d[j..] + u;
    DeadStays(d[j..], k, u);
  }

  /** An input at the start of a list that starts with a directive. */
  lemma InputAtDir(p: Project, kind: Kind, arg: string, from: string, rest: Tokens, seen: seq<string>, k: Kind)
    requires ValidArg(kind, arg) && LeftUnresolved(p, Dir(kind, arg, from, rest), seen)
    requires InputAt(PrintDir(kind, arg) + Print(rest), 0, k)
    ensures IsUnresolved(p, PrintDir(kind, arg) + Print(rest), 0, k, Dir(kind, arg, from, rest), seen)
  {
    hide MatchEnd, PrintDir, Print, ValidArg, Resolve, IsVisited;
    var t := PrintDir(kind, arg) + Print(rest);
    assert t[0..] == t;
    if kind != k {
      DirMatchesOnly(kind, arg, Print(rest), k);
    }
    DirMatches(kind, arg, Print(rest));
  }

  lemma {:induction false} InputIsUnresolved(p: Project, toks: Tokens, seen: seq<string>, j: nat, k: Kind)
    requires Clean(p, toks) && LeftUnresolved(p, toks, seen) && Silent(toks, "", k) && InputAt(Print(toks), j, k)
    ensures IsUnresolved(p, Print(toks), j, k, toks, seen)
    decreases toks, 0
  {
    hide MatchEnd, PrintDir, ValidArg, Resolve, IsVisited, BibTarget;
    match toks
    case Nil =>
      NothingMatches(k);
      assert false;
    case Chr(c, rest) =>
      assert Print(toks)[0..] == [c] + (Print(rest) + "");
      if j == 0 {
        assert false;
      } else {
        assert Print(toks)[j..] == Print(rest)[j - 1..];
        InputIsUnresolved(p, rest, seen, j - 1, k);
      }
    case Dir(kind, arg, from, rest) =>
      InputBehindDir(p, kind, arg, from, rest, seen, j, k);
  }

  lemma {:induction false} InputBehindDir(p: Project, kind: Kind, arg: string, from: string, rest: Tokens, seen: seq<string>,
                                          j: nat, k: Kind)
    requires ValidArg(kind, arg) && Clean(p, rest) && LeftUnresolved(p, Dir(kind, arg, from, rest), seen)
    requires Silent(rest, "", k) && InputAt(PrintDir(kind, arg) + Print(rest), j, k)
    ensures IsUnresolved(p, PrintDir(kind, arg) + Print(rest), j, k, Dir(kind, arg, from, rest), seen)
    decreases rest, 1
  {
    hide MatchEnd, PrintDir, Print, Silent, Clean, ValidArg, Resolve, IsVisited;
    var d, u := PrintDir(kind, arg), Print(rest);
    if j == 0 {
      InputAtDir(p, kind, arg, from, rest, seen, k);
    } else if j < |d| {
      NothingStartsInside(kind, arg, u, j, k);
      assert false;
    } else {
      assert (d + u)[j..] == u[j - |d|..];
      DirIsLong(kind, arg);
      InputIsUnresolved(p, rest, seen, j - |d|, k);
    }
  }

  lemma NothingMatches(k: Kind)
    ensures MatchEnd("", k) == None && MatchEnd(""[0..], k) == None
  {
  }

  lemma {:induction false} NoneBefore(toks: Tokens, j: int)
    requires j < 0
    ensures DirAt(toks, j) == None
  {
    hide PrintDir;
    match toks
    case Nil =>
    case Chr(_, rest) => NoneBefore(rest, j - 1);
    case Dir(k, arg, _, rest) => NoneBefore(rest, j - |PrintDir(k, arg)|);
  }

  /** A directive that arises from joined pieces is none of the walk's. */
  lemma {:induction false} ArisenIsNoDirective(toks: Tokens, k: Kind) returns (j: nat)
    requires !Silent(toks, "", k)
    ensures j <= |Print(toks)| && MatchEnd(Print(toks)[j..], k).Some? && DirAt(toks, j) == None
  {
    hide MatchEnd, PrintDir;
    match toks
    case Chr(c, rest) =>
      if Silent(rest, "", k) {
        j := 0;
        assert Print(toks)[0..] == [c] + (Print(rest) + "");
        NoneBefore(rest, -1);
      } else {
        var i := ArisenIsNoDirective(rest, k);
        j := i + 1;
        assert Print(toks)[j..] == Print(rest)[i..];
      }
    case Dir(kind, arg, _, rest) =>
      var d := PrintDir(kind, arg);
      var i := ArisenIsNoDirective(rest, k);
      j := i + |d|;
      DirIsLong(kind, arg);
      assert Print(toks)[j..] == Print(rest)[i..];
  }

  lemma DirIsLong(k: Kind, arg: string)
    ensures |PrintDir(k, arg)| > 0
  {
  }

  /** Every input that stands in the expanded text is a directive of the main file
      or of a file that was entered, and that file's directory cannot resolve it,
      if and only if no input arises from joined pieces. */
  lemma NoResolvableInputIsLeft(p: Project, t: string)
    requires var w := Walk(p, t, p.root, 0, []);
             !w.halted && !w.joined
    ensures var o := Expand(p, t, p.root, 0, []);
            var w := Walk(p, t, p.root, 0, []);
            && o.text == Print(w.toks) && LeftUnresolved(p, w.toks, o.seen)
            && (AllUnresolved(p, o.text, w.toks, o.seen) <==> Silent(w.toks, "", Input) && Silent(w.toks, "", Include))
  {
    hide Walk, Expand, LeftUnresolved, Print, Silent, InputAt, IsUnresolved, Clean;
    ExpandIsWalk(p, t);
    WalkLeaves(p, t, p.root, 0, []);
    UnresolvedExactly(p, Walk(p, t, p.root, 0, []).toks, Expand(p, t, p.root, 0, []).seen);
  }

  lemma UnresolvedExactly(p: Project, toks: Tokens, seen: seq<string>)
    requires Clean(p, toks) && LeftUnresolved(p, toks, seen)
    ensures AllUnresolved(p, Print(toks), toks, seen) <==> Silent(toks, "", Input) && Silent(toks, "", Include)
  {
    hide Print, Silent, DirAt, Clean, LeftUnresolved, MatchEnd, Resolve, IsVisited;
    var t := Print(toks);
    if Silent(toks, "", Input) && Silent(toks, "", Include) {
      forall j: nat, k | InputAt(t, j, k) ensures IsUnresolved(p, t, j, k, toks, seen) {
        InputIsUnresolved(p, toks, seen, j, k);
      }
    } else {
      var k := if Silent(toks, "", Input) then Include else Input;
      var j := ArisenIsNoDirective(toks, k);
      assert InputAt(t, j, k) && !IsUnresolved(p, t, j, k, toks, seen);
    }
  }
}
