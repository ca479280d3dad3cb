/** The unwrapper on the four commands as they are written. */
module UnwrapCommands {
  import opened Text
  import opened Braces
  import opened Unwrap

  /** The four commands, each with its opening brace. */
  predicate IsCommand(w: string) {
    w == "\\pandocbounded{" || w == "\\centering{" || w == "\\raggedright{" || w == "\\raggedleft{"
  }

  ghost predicate CommandAt(t: string, i: nat) {
    exists w :: IsCommand(w) && At(t, i, w)
  }

  /** None of the commands stands in the text before position `n`. */
  ghost predicate NoCommandBefore(t: string, n: nat) {
    forall p :: 0 <= p < n ==> !CommandAt(t, p)
  }

  /** No brace closes the one at `open`. */
  ghost predicate NeverCloses(t: string, open: nat) {
    forall close :: !Encloses(t, open, close)
  }

  function NumberOf(w: string): (k: nat)
    requires IsCommand(w)
    ensures k < 4 && Needle(k) == w
  {
    if w == "\\pandocbounded{" then 0 else if w == "\\centering{" then 1 else if w == "\\raggedright{" then 2 else 3
  }

  lemma NeedlesAreCommands(k: nat)
    requires k < 4
    ensures IsCommand(Needle(k))
  {
  }

  lemma CommandIsHit(t: string, i: nat, w: string)
    requires IsCommand(w) && At(t, i, w)
    ensures Hit(t, i, |t|) && ArgumentOf(t, i, |t|) == i + |w| && i + |w| <= |t|
  {
    hide IsCommand, Needle;
    OneNeedleAtATime(t, i, |t|, NumberOf(w));
  }

  lemma HitIsCommand(t: string, i: nat)
    requires Hit(t, i, |t|)
    ensures CommandAt(t, i)
  {
    hide IsCommand, Needle;
    NeedlesAreCommands(NeedleAt(t, i, |t|));
  }

  lemma NoCommandNoHit(t: string, n: nat, p: nat)
    requires NoCommandBefore(t, n) && p < n
    ensures !Hit(t, p, |t|)
  {
    hide Hit, CommandAt;
    if Hit(t, p, |t|) {
      HitIsCommand(t, p);
    }
  }

  /** What stands before the first command is copied. */
  lemma {:induction false} CopiedUpTo(t: string, i: nat, j: nat)
    requires i <= j <= |t| && NoCommandBefore(t, j)
    ensures UnwrapRange(t, i, |t|) == t[i..j] + UnwrapRange(t, j, |t|)
    decreases j - i
  {
    hide UnwrapRange, Hit, NoCommandBefore, CloseFrom, ArgumentOf;
    if i < j {
      NoCommandNoHit(t, j, i);
      UnwrapUnfolds(t, i, |t|);
      CopiedUpTo(t, i + 1, j);
      assert t[i..j] == [t[i]] + t[i + 1..j];
      Associate([t[i]], t[i + 1..j], UnwrapRange(t, j, |t|));
    } else {
      assert t[i..j] == "" && "" + UnwrapRange(t, j, |t|) == UnwrapRange(t, j, |t|);
    }
  }

  /** A text that holds none of the commands comes back as it is. */
  lemma NothingToUnwrap(t: string)
    requires NoCommandBefore(t, |t|)
    ensures Unwrapped(t) == t
  {
    hide UnwrapRange, NoCommandBefore;
    CopiedUpTo(t, 0, |t|);
    NothingLeft(t, |t|);
    assert t[0..|t|] + "" == t;
  }

  lemma SliceIsThere(t: string, a: nat, w: string)
    requires At(t, a, w)
    ensures IsSlice(w, t, a)
  {
    assert forall p :: 0 <= p < |w| ==> w[p] == t[a..a + |w|][p];
  }

  lemma CommandEnds(w: string)
    requires IsCommand(w)
    ensures |w| > 1 && w[|w| - 1] == '{'
  {
  }

  /** What the unwrapper does at a command whose brace is closed at `c`. */
  lemma UnwrapsAtCommand(t: string, h: nat, w: string, inner: string, rest: string)
    requires IsCommand(w) && At(t, h, w) && Balanced(inner)
    requires var a := h + |w|;
             && At(t, a, inner) && a + |inner| < |t| && t[a + |inner|] == '}'
             && At(t, a + |inner| + 1, rest) && a + |inner| + 1 + |rest| == |t|
    ensures UnwrapRange(t, h, |t|) == Unwrapped(inner) + Unwrapped(rest)
  {
    hide UnwrapRange, CloseFrom, Balanced, IsCommand, Hit, ArgumentOf, At, IsSlice;
    var a := h + |w|;
    var c := a + |inner|;
    CommandEnds(w);
    AtHas(t, h, w, |w| - 1);
    AtIs(t, a, inner);
    CommandIsHit(t, h, w);
    MatchIsTheEnclosingPartner(t, a - 1, c);
    UnwrapUnfolds(t, h, |t|);
    SliceIsThere(t, a, inner);
    SliceIsThere(t, c + 1, rest);
    SliceEnds(t, a, inner);
    SliceEnds(t, c + 1, rest);
    UnwrapInSlice(t, a, inner, 0, |inner|);
    UnwrapInSlice(t, c + 1, rest, 0, |rest|);
  }

  lemma SliceEnds(t: string, a: nat, w: string)
    requires At(t, a, w)
    ensures a + |w| <= |t|
  {
  }

  lemma Pieces(x: string, w: string, inner: string, rest: string)
    ensures var t := x + (w + (inner + ("}" + rest)));
            var a := |x| + |w|;
            var c := a + |inner|;
            && At(t, |x|, w) && At(t, a, inner) && t[c] == '}' && At(t, c + 1, rest) && t[0..|x|] == x
            && c + 1 + |rest| == |t|
  {
    hide At;
    var t := x + (w + (inner + ("}" + rest)));
    MiddlePiece(x, w, inner + ("}" + rest));
    MiddlePiece(x + w, inner, "}" + rest);
    MiddlePiece(x + w + inner, "}", rest);
    MiddlePiece(x + w + inner + "}", rest, "");
    assert t == (x + w) + (inner + ("}" + rest)) == (x + w + inner) + ("}" + rest) == (x + w + inner + "}") + (rest + "");
  }

  /** Each of the four commands around a balanced argument is taken away, and
      what is in the argument and behind it is unwrapped likewise. */
  lemma CommandIsUnwrapped(x: string, w: string, inner: string, rest: string)
    requires IsCommand(w) && Balanced(inner)
    requires NoCommandBefore(x + (w + (inner + ("}" + rest))), |x|)
    ensures Unwrapped(x + (w + (inner + ("}" + rest)))) == x + (Unwrapped(inner) + Unwrapped(rest))
  {
    hide UnwrapRange, NoCommandBefore, Balanced, IsCommand, At;
    var t := x + (w + (inner + ("}" + rest)));
    Pieces(x, w, inner, rest);
    CopiedUpTo(t, 0, |x|);
    UnwrapsAtCommand(t, |x|, w, inner, rest);
  }

  lemma StaysAtCommand(t: string, h: nat, w: string)
    requires IsCommand(w) && At(t, h, w) && NeverCloses(t, h + |w| - 1)
    ensures h <= |t| && UnwrapRange(t, h, |t|) == t[h..|t|]
  {
    hide UnwrapRange, CloseFrom, IsCommand, Hit, ArgumentOf, At, Encloses;
    CommandEnds(w);
    AtHas(t, h, w, |w| - 1);
    CommandIsHit(t, h, w);
    if MatchingClose(t, h + |w| - 1).Some? {
      MatchIsTheEnclosingPartner(t, h + |w| - 1, MatchingClose(t, h + |w| - 1).value);
    }
    UnwrapUnfolds(t, h, |t|);
  }

  /** A command whose argument is not closed stays, with all that follows. */
  lemma OpenCommandStays(x: string, w: string, rest: string)
    requires IsCommand(w)
    requires NoCommandBefore(x + (w + rest), |x|) && NeverCloses(x + (w + rest), |x| + |w| - 1)
    ensures Unwrapped(x + (w + rest)) == x + (w + rest)
  {
    hide UnwrapRange, NoCommandBefore, IsCommand, At, NeverCloses;
    var t := x + (w + rest);
    MiddlePiece(x, w, rest);
    CopiedUpTo(t, 0, |x|);
    StaysAtCommand(t, |x|, w);
    assert t[0..|x|] + t[|x|..|t|] == t;
  }
}
