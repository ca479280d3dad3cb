/** Unwrapping `\centering{...}` and its like: the recursive rewriter, what it
    conserves on every text, and exactly when it is a tree homomorphism. */
module Unwrap {
  import opened Text
  import opened Braces

  /** The commands whose braces are dropped, each with its opening brace. */
  function Needle(k: nat): (w: string)
    requires k < 4
    ensures |w| >= 2
  {
    match k
    case 0 => "\\pandocbounded{"
    case 1 => "\\centering{"
    case 2 => "\\raggedright{"
    case _ => "\\raggedleft{"
  }

  predicate Fits(t: string, i: nat, n: nat, k: nat)
    requires k < 4
  {
    i + |Needle(k)| <= n && At(t, i, Needle(k))
  }

  /** Which needle stands in `t[..n]` at `i`; 4 when none does. */
  function NeedleAt(t: string, i: nat, n: nat): (k: nat)
    ensures k <= 4 && (k < 4 ==> Fits(t, i, n, k))
  {
    if Fits(t, i, n, 0) then 0
    else if Fits(t, i, n, 1) then 1
    else if Fits(t, i, n, 2) then 2
    else if Fits(t, i, n, 3) then 3
    else 4
  }

  predicate Hit(t: string, i: nat, n: nat) {
    NeedleAt(t, i, n) < 4
  }

  /** Where the argument of the needle at `i` starts. */
  function ArgumentOf(t: string, i: nat, n: nat): (a: nat)
    requires Hit(t, i, n) && n <= |t|
    ensures i + 2 <= a <= n
  {
    i + |Needle(NeedleAt(t, i, n))|
  }

  /** The unwrapped form of `t[i..n]`, read from the left. */
  function UnwrapRange(t: string, i: nat, n: nat): string
    requires i <= n <= |t|
    decreases n - i
  {
    if i == n then ""
    else if !Hit(t, i, n) then [t[i]] + UnwrapRange(t, i + 1, n)
    else
      var a := ArgumentOf(t, i, n);
      match CloseFrom(t, a, n, 1)
      case None => t[i..n]
      case Some(c) => UnwrapRange(t, a, c) + UnwrapRange(t, c + 1, n)
  }

  function Unwrapped(t: string): string {
    UnwrapRange(t, 0, |t|)
  }

  lemma UnwrapUnfolds(t: string, i: nat, n: nat)
    requires i < n <= |t|
    ensures !Hit(t, i, n) ==> UnwrapRange(t, i, n) == [t[i]] + UnwrapRange(t, i + 1, n)
    ensures Hit(t, i, n) ==>
              var a := ArgumentOf(t, i, n);
              UnwrapRange(t, i, n) == match CloseFrom(t, a, n, 1)
                                      case None => t[i..n]
                                      case Some(c) => UnwrapRange(t, a, c) + UnwrapRange(t, c + 1, n)
  {
    hide Hit, ArgumentOf, CloseFrom;
  }

  lemma NothingLeft(t: string, n: nat)
    requires n <= |t|
    ensures UnwrapRange(t, n, n) == ""
  {
  }

  // ---- The loop ----

  /** `tex.find(needle, i)`. */
  function Find(t: string, needle: string, i: nat): (hit: Option<nat>)
    ensures hit.Some? ==> i <= hit.value && At(t, hit.value, needle)
    decreases |t| - i
  {
    if i >= |t| then None else if At(t, i, needle) then Some(i) else Find(t, needle, i + 1)
  }

  lemma {:induction false} FindIsLeftmost(t: string, needle: string, i: nat, p: nat)
    requires needle != "" && i <= p && At(t, p, needle)
    ensures Find(t, needle, i).Some? && Find(t, needle, i).value <= p
    decreases |t| - i
  {
    if !At(t, i, needle) {
      FindIsLeftmost(t, needle, i + 1, p);
    }
  }

  /** The search over all four needles for the leftmost hit. */
  method NextHit(tex: string, i: nat) returns (at: Option<nat>, k: nat)
    ensures at.Some? ==> i <= at.value < |tex| && k < 4 && k == NeedleAt(tex, at.value, |tex|)
    ensures at.Some? ==> forall p :: i <= p < at.value ==> !Hit(tex, p, |tex|)
    ensures at.None? ==> forall p :: i <= p ==> !Hit(tex, p, |tex|)
  {
    at, k := None, 4;
    for l := 0 to 4
      invariant at.Some? ==> i <= at.value && k < 4 && At(tex, at.value, Needle(k))
      invariant forall j, p :: 0 <= j < l && i <= p && At(tex, p, Needle(j)) ==> at.Some? && at.value <= p
    {
      var hit := Find(tex, Needle(l), i);
      if hit.Some? && (at.None? || hit.value < at.value) {
        at, k := hit, l;
      }
      forall p | i <= p && At(tex, p, Needle(l)) ensures at.Some? && at.value <= p {
        FindIsLeftmost(tex, Needle(l), i, p);
      }
    }
    if at.Some? {
      OneNeedleAtATime(tex, at.value, |tex|, k);
    }
  }

  /** No two needles fit at the same place. */
  lemma OneNeedleAtATime(t: string, i: nat, n: nat, k: nat)
    requires k < 4 && Fits(t, i, n, k)
    ensures NeedleAt(t, i, n) == k && i < |t|
  {
    var l := NeedleAt(t, i, n);
    assert t[i + 1] == t[i..i + |Needle(k)|][1] && t[i + 7] == t[i..i + |Needle(k)|][7];
    assert t[i + 1] == t[i..i + |Needle(l)|][1] && t[i + 7] == t[i..i + |Needle(l)|][7];
  }

  /** The inline depth loop: it stops with depth 0 exactly on the brace that the
      brace matcher returns, and with open groups exactly when that one fails. */
  method GroupEnd(tex: string, innerStart: nat) returns (j: nat, depth: nat)
    requires 0 < innerStart <= |tex| && tex[innerStart - 1] == '{'
    ensures innerStart <= j <= |tex|
    ensures MatchingClose(tex, innerStart - 1) == if depth == 0 then Some(j) else None
  {
    j, depth := innerStart, 1;
    while j < |tex| && depth > 0
      invariant innerStart <= j <= |tex|
      invariant depth > 0 && CloseFrom(tex, j, |tex|, depth) == MatchingClose(tex, innerStart - 1)
      decreases |tex| - j
    {
      var ch := tex[j];
      if ch == '\\' && j + 1 < |tex| {
        j := j + 2;
        continue;
      }
      if ch == '{' {
        depth := depth + 1;
      } else if ch == '}' {
        depth := depth - 1;
        if depth == 0 {
          break;
        }
      }
      j := j + 1;
    }
  }

  // Reading a slice `u` of the text sees what reading it in place sees.

  predicate IsSlice(u: string, t: string, k: nat) {
    k + |u| <= |t| && forall p :: 0 <= p < |u| ==> u[p] == t[k + p]
  }

  lemma {:induction false} CloseInSlice(t: string, k: nat, u: string, i: nat, n: nat, depth: nat)
    requires IsSlice(u, t, k) && i <= n <= |u| && depth >= 1
    ensures CloseFrom(t, k + i, k + n, depth) == match CloseFrom(u, i, n, depth)
                                                 case None => None
                                                 case Some(c) => Some(k + c)
    decreases n - i
  {
    hide CloseFrom;
    if i == n {
      NothingCloses(t, k + n, depth);
      NothingCloses(u, n, depth);
    } else {
      CloseUnfolds(t, k + i, k + n, depth);
      CloseUnfolds(u, i, n, depth);
      assert t[k + i] == u[i];
      if u[i] == '\\' && i + 1 < n {
        CloseInSlice(t, k, u, i + 2, n, depth);
      } else if u[i] == '{' {
        CloseInSlice(t, k, u, i + 1, n, depth + 1);
      } else if u[i] != '}' {
        CloseInSlice(t, k, u, i + 1, n, depth);
      } else if depth > 1 {
        CloseInSlice(t, k, u, i + 1, n, depth - 1);
      }
    }
  }

  lemma FitsInSlice(t: string, k: nat, u: string, i: nat, n: nat, l: nat)
    requires IsSlice(u, t, k) && i <= n <= |u| && l < 4
    ensures Fits(t, k + i, k + n, l) <==> Fits(u, i, n, l)
  {
    hide Needle;
    if i + |Needle(l)| <= n {
      assert t[k + i..k + i + |Needle(l)|] == u[i..i + |Needle(l)|];
    }
  }

  lemma NeedleInSlice(t: string, k: nat, u: string, i: nat, n: nat)
    requires IsSlice(u, t, k) && i <= n <= |u|
    ensures Hit(t, k + i, k + n) == Hit(u, i, n)
    ensures Hit(u, i, n) ==> ArgumentOf(t, k + i, k + n) == k + ArgumentOf(u, i, n)
  {
    hide Needle, Fits;
    FitsInSlice(t, k, u, i, n, 0);
    FitsInSlice(t, k, u, i, n, 1);
    FitsInSlice(t, k, u, i, n, 2);
    FitsInSlice(t, k, u, i, n, 3);
  }

  lemma {:induction false} UnwrapInSlice(t: string, k: nat, u: string, i: nat, n: nat)
    requires IsSlice(u, t, k) && i <= n <= |u|
    ensures UnwrapRange(t, k + i, k + n) == UnwrapRange(u, i, n)
    decreases n - i, 1
  {
    hide UnwrapRange, CloseFrom, Hit, ArgumentOf;
    if i == n {
      NothingLeft(t, k + n);
      NothingLeft(u, n);
    } else {
      NeedleInSlice(t, k, u, i, n);
      if Hit(u, i, n) {
        UnwrapInSliceAtHit(t, k, u, i, n);
      } else {
        UnwrapUnfolds(t, k + i, k + n);
        UnwrapUnfolds(u, i, n);
        assert t[k + i] == u[i];
        UnwrapInSlice(t, k, u, i + 1, n);
      }
    }
  }

  lemma {:induction false} UnwrapInSliceAtHit(t: string, k: nat, u: string, i: nat, n: nat)
    requires IsSlice(u, t, k) && i < n <= |u| && Hit(u, i, n)
    ensures UnwrapRange(t, k + i, k + n) == UnwrapRange(u, i, n)
    decreases n - i, 0
  {
    hide UnwrapRange, CloseFrom, Hit, ArgumentOf;
    NeedleInSlice(t, k, u, i, n);
    UnwrapUnfolds(t, k + i, k + n);
    UnwrapUnfolds(u, i, n);
    var a := ArgumentOf(u, i, n);
    CloseInSlice(t, k, u, a, n, 1);
    if CloseFrom(u, a, n, 1).None? {
      assert t[k + i..k + n] == u[i..n];
    } else {
      var c := CloseFrom(u, a, n, 1).value;
      UnwrapInSlice(t, k, u, a, c);
      UnwrapInSlice(t, k, u, c + 1, n);
    }
  }

  /** Text without a hit is copied. */
  lemma {:induction false} CopiesUpTo(t: string, i: nat, h: nat, n: nat, out: string)
    requires i <= h <= n <= |t| && forall p :: i <= p < h ==> !Hit(t, p, n)
    ensures out + UnwrapRange(t, i, n) == (out + t[i..h]) + UnwrapRange(t, h, n)
    decreases h - i
  {
    hide UnwrapRange, Hit;
    if i == h {
      assert out + t[i..h] == out;
    } else {
      UnwrapUnfolds(t, i, n);
      CopiesUpTo(t, i + 1, h, n, out + [t[i]]);
      Associate(out, [t[i]], UnwrapRange(t, i + 1, n));
      assert out + t[i..h] == (out + [t[i]]) + t[i + 1..h];
    }
  }

  lemma DropsTheHit(t: string, h: nat, n: nat, out: string)
    requires h < n <= |t| && Hit(t, h, n)
    ensures var a := ArgumentOf(t, h, n);
            out + UnwrapRange(t, h, n) == match CloseFrom(t, a, n, 1)
                                          case None => out + t[h..n]
                                          case Some(c) => (out + UnwrapRange(t, a, c)) + UnwrapRange(t, c + 1, n)
  {
    hide UnwrapRange, Hit, CloseFrom, ArgumentOf;
    UnwrapUnfolds(t, h, n);
    var a := ArgumentOf(t, h, n);
    if CloseFrom(t, a, n, 1).Some? {
      var c := CloseFrom(t, a, n, 1).value;
      Associate(out, UnwrapRange(t, a, c), UnwrapRange(t, c + 1, n));
    }
  }

  lemma NeedleEndsInBrace(t: string, i: nat, n: nat)
    requires Hit(t, i, n) && n <= |t|
    ensures i < n && t[i] == '\\' && t[ArgumentOf(t, i, n) - 1] == '{'
  {
    hide Needle;
    var w := Needle(NeedleAt(t, i, n));
    NeedleLetters(NeedleAt(t, i, n), 0);
    NeedleLetters(NeedleAt(t, i, n), |w| - 1);
    assert t[i] == t[i..i + |w|][0] && t[i + |w| - 1] == t[i..i + |w|][|w| - 1];
  }

  /** What the loop does at a hit: an open group ends the text; a closed one is
      replaced by its own unwrapped argument. */
  lemma StepsOverHit(t: string, h: nat, out: string)
    requires h < |t| && Hit(t, h, |t|)
    ensures var a := ArgumentOf(t, h, |t|);
            match MatchingClose(t, a - 1)
            case None => out + UnwrapRange(t, h, |t|) == out + t[h..]
            case Some(c) =>
              out + UnwrapRange(t, h, |t|) == (out + Unwrapped(t[a..c])) + UnwrapRange(t, c + 1, |t|)
  {
    hide UnwrapRange, CloseFrom, Hit, ArgumentOf;
    var a := ArgumentOf(t, h, |t|);
    NeedleEndsInBrace(t, h, |t|);
    DropsTheHit(t, h, |t|, out);
    assert t[h..|t|] == t[h..];
    if CloseFrom(t, a, |t|, 1).Some? {
      var c := CloseFrom(t, a, |t|, 1).value;
      UnwrapInSlice(t, a, t[a..c], 0, c - a);
    }
  }

  /** `_unwrap_brace_swallowers`. */
  method Unwrap(tex: string) returns (out: string)
    ensures out == Unwrapped(tex)
    decreases |tex|
  {
    hide UnwrapRange, CloseFrom, NeedleAt, Needle, MatchingClose;
    out := "";
    var i, n := 0, |tex|;
    var first, name := NextHit(tex, 0);
    if first.None? {
      CopiesUpTo(tex, 0, n, n, "");
      NothingLeft(tex, n);
      assert ("" + tex[0..n]) + "" == tex && "" + Unwrapped(tex) == Unwrapped(tex);
      return tex;
    }
    while i < n
      invariant i <= n && out + UnwrapRange(tex, i, n) == Unwrapped(tex)
    {
      var at, k := NextHit(tex, i);
      if at.None? {
        CopiesUpTo(tex, i, n, n, out);
        NothingLeft(tex, n);
        out := out + tex[i..];
        return;
      }
      var h := at.value;
      NeedleEndsInBrace(tex, h, n);
      CopiesUpTo(tex, i, h, n, out);
      out := out + tex[i..h];
      StepsOverHit(tex, h, out);
      var innerStart := h + |Needle(k)|;
      var j, depth := GroupEnd(tex, innerStart);
      if depth != 0 {
        out := out + tex[h..];
        return;
      }
      var inner := Unwrap(tex[innerStart..j]);
      out := out + inner;
      i := j + 1;
    }
    NothingLeft(tex, n);
  }

  // ---- What every rewrite conserves ----

  /** The result is the input with characters deleted, in order. */
  lemma {:induction false} UnwrappingOnlyDeletes(t: string, i: nat, n: nat)
    requires i <= n <= |t|
    ensures IsSubsequence(UnwrapRange(t, i, n), t[i..n])
    decreases n - i
  {
    hide UnwrapRange, CloseFrom, Hit, ArgumentOf, IsSubsequence;
    if i == n {
      NothingLeft(t, n);
      SubsequenceSelf("");
    } else {
      UnwrapUnfolds(t, i, n);
      if !Hit(t, i, n) {
        UnwrappingOnlyDeletes(t, i + 1, n);
        assert t[i..n] == [t[i]] + t[i + 1..n];
        SubsequenceSelf([t[i]]);
        SubsequenceAppend([t[i]], [t[i]], UnwrapRange(t, i + 1, n), t[i + 1..n]);
      } else {
        var a := ArgumentOf(t, i, n);
        match CloseFrom(t, a, n, 1) {
          case None => SubsequenceSelf(t[i..n]);
          case Some(c) =>
            UnwrappingOnlyDeletes(t, a, c);
            UnwrappingOnlyDeletes(t, c + 1, n);
            SubsequencePrepend(t[i..a], UnwrapRange(t, a, c), t[a..c]);
            SubsequencePrepend(t[c..c + 1], UnwrapRange(t, c + 1, n), t[c + 1..n]);
            SubsequenceAppend(UnwrapRange(t, a, c), t[i..a] + t[a..c],
                              UnwrapRange(t, c + 1, n), t[c..c + 1] + t[c + 1..n]);
            SplitAtHit(t, i, a, c, n);
        }
      }
    }
  }

  lemma SplitAtHit(t: string, i: nat, a: nat, c: nat, n: nat)
    requires i <= a <= c < n <= |t|
    ensures t[i..n] == (t[i..a] + t[a..c]) + (t[c..c + 1] + t[c + 1..n])
  {
  }

  /** How many characters `b` the rewrite deletes from `t[i..n]`. */
  function Deleted(b: char, t: string, i: nat, n: nat): int
    requires i <= n <= |t|
  {
    Count(b, t[i..n]) - Count(b, UnwrapRange(t, i, n))
  }

  lemma FirstAndRest(t: string, i: nat, n: nat)
    requires i < n <= |t|
    ensures t[i..n] == [t[i]] + t[i + 1..n]
  {
  }

  lemma DeletedByCopying(b: char, t: string, i: nat, n: nat)
    requires i < n <= |t| && !Hit(t, i, n)
    ensures Deleted(b, t, i, n) == Deleted(b, t, i + 1, n)
  {
    hide UnwrapRange, Hit, Count, CloseFrom, ArgumentOf;
    UnwrapUnfolds(t, i, n);
    FirstAndRest(t, i, n);
    CountAppend(b, [t[i]], t[i + 1..n]);
    CountAppend(b, [t[i]], UnwrapRange(t, i + 1, n));
  }

  lemma DeletedAtHit(b: char, t: string, i: nat, n: nat)
    requires i < n <= |t| && Hit(t, i, n) && (b == '{' || b == '}')
    ensures var a := ArgumentOf(t, i, n);
            Deleted(b, t, i, n) == match CloseFrom(t, a, n, 1)
                                   case None => 0
                                   case Some(c) => 1 + Deleted(b, t, a, c) + Deleted(b, t, c + 1, n)
  {
    hide UnwrapRange, Hit, ArgumentOf, CloseFrom, Count;
    UnwrapUnfolds(t, i, n);
    var a := ArgumentOf(t, i, n);
    if CloseFrom(t, a, n, 1).Some? {
      var c := CloseFrom(t, a, n, 1).value;
      CountsAtHit(b, t, i, a, c, n);
      CountAppend(b, UnwrapRange(t, a, c), UnwrapRange(t, c + 1, n));
      NeedlesHoldOneBrace(t, i, n);
    }
  }

  /** As many opening as closing braces are deleted, on every input. */
  lemma {:induction false} UnwrappingConservesBraces(t: string, i: nat, n: nat)
    requires i <= n <= |t|
    ensures Deleted('{', t, i, n) == Deleted('}', t, i, n) >= 0
    decreases n - i
  {
    hide Deleted, CloseFrom, Hit, ArgumentOf;
    if i == n {
      NothingDeleted(t, n);
    } else if !Hit(t, i, n) {
      DeletedByCopying('{', t, i, n);
      DeletedByCopying('}', t, i, n);
      UnwrappingConservesBraces(t, i + 1, n);
    } else {
      DeletedAtHit('{', t, i, n);
      DeletedAtHit('}', t, i, n);
      var a := ArgumentOf(t, i, n);
      if CloseFrom(t, a, n, 1).Some? {
        UnwrappingConservesBraces(t, a, CloseFrom(t, a, n, 1).value);
        UnwrappingConservesBraces(t, CloseFrom(t, a, n, 1).value + 1, n);
      }
    }
  }

  lemma NothingDeleted(t: string, n: nat)
    requires n <= |t|
    ensures Deleted('{', t, n, n) == Deleted('}', t, n, n) == 0
  {
    assert t[n..n] == "";
  }

  lemma CountsAtHit(b: char, t: string, i: nat, a: nat, c: nat, n: nat)
    requires i <= a <= c < n <= |t| && t[c] == '}'
    ensures Count(b, t[i..n]) == Count(b, t[i..a]) + Count(b, t[a..c]) + (if b == '}' then 1 else 0) + Count(b, t[c + 1..n])
  {
    SplitAtHit(t, i, a, c, n);
    CountAppend(b, t[i..a] + t[a..c], t[c..c + 1] + t[c + 1..n]);
    CountAppend(b, t[i..a], t[a..c]);
    CountAppend(b, t[c..c + 1], t[c + 1..n]);
    assert t[c..c + 1] == "}";
  }

  lemma NeedleLetters(k: nat, p: nat)
    requires k < 4 && p < |Needle(k)|
    ensures (p == 0 ==> Needle(k)[p] == '\\') && (p == |Needle(k)| - 1 ==> Needle(k)[p] == '{')
    ensures 0 < p < |Needle(k)| - 1 ==> IsPlain(Needle(k)[p])
  {
  }

  lemma NeedlesHoldOneBrace(t: string, i: nat, n: nat)
    requires Hit(t, i, n) && n <= |t|
    ensures Count('{', t[i..ArgumentOf(t, i, n)]) == 1 && Count('}', t[i..ArgumentOf(t, i, n)]) == 0
  {
    hide Needle;
    var k := NeedleAt(t, i, n);
    var w := t[i..ArgumentOf(t, i, n)];
    assert w == Needle(k);
    var name := w[..|w| - 1];
    forall p | 0 <= p < |w| ensures w[p] != '}' && (p < |w| - 1 ==> w[p] != '{') {
      NeedleLetters(k, p);
    }
    NeedleLetters(k, |w| - 1);
    assert w == name + "{";
    CountAppend('{', name, "{");
    NoneOf('{', name);
    NoneOf('}', w);
  }

  lemma {:induction false} NoneOf(c: char, s: string)
    requires forall i :: 0 <= i < |s| ==> s[i] != c
    ensures Count(c, s) == 0
  {
    if s != "" {
      NoneOf(c, s[1..]);
    }
  }
}
