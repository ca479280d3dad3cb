/** Small text helpers shared by the scanners: optional results, Python's
    whitespace, stripping, character counts and subsequences. */
module Text {
  datatype Option<+T> = None | Some(value: T)

  /** The characters for which Python's `str.isspace` holds; `\s` and
      `str.strip` use the same set. */
  predicate IsSpace(c: char) {
    var n := c as int;
    9 <= n <= 13 || 28 <= n <= 32 || n == 0x85 || n == 0xA0 || n == 0x1680 || 0x2000 <= n <= 0x200A
    || n == 0x2028 || n == 0x2029 || n == 0x202F || n == 0x205F || n == 0x3000
  }

  /** Those characters one by one, by their code points. */
  const WHITESPACE: set<int> := {
    9, 10, 11, 12, 13, 28, 29, 30, 31, 32, 0x85, 0xA0, 0x1680,
    0x2000, 0x2001, 0x2002, 0x2003, 0x2004, 0x2005, 0x2006, 0x2007, 0x2008, 0x2009, 0x200A,
    0x2028, 0x2029, 0x202F, 0x205F, 0x3000}

  predicate IsListed(c: char) {
    c as int in WHITESPACE
  }

  lemma SpacesAreListed(c: char)
    ensures IsSpace(c) <==> IsListed(c)
  {
  }

  /** Nothing but whitespace. */
  predicate IsBlank(s: string) {
    forall i :: 0 <= i < |s| ==> IsListed(s[i])
  }

  /** No whitespace at either end. */
  predicate HasInkAtEnds(s: string) {
    s == "" || (!IsListed(s[0]) && !IsListed(s[|s| - 1]))
  }

  function TrimLeft(s: string): string {
    if s != "" && IsSpace(s[0]) then TrimLeft(s[1..]) else s
  }

  function TrimRight(s: string): string {
    if s != "" && IsSpace(s[|s| - 1]) then TrimRight(s[..|s| - 1]) else s
  }

  /** `str.strip()`. */
  function Trim(s: string): string {
    TrimRight(TrimLeft(s))
  }

  lemma {:induction false} TrimLeftOfPadded(a: string, s: string)
    requires IsBlank(a) && (s == "" || !IsListed(s[0]))
    ensures TrimLeft(a + s) == s
  {
    hide IsListed, IsSpace;
    if a == "" {
      assert a + s == s;
      if s != "" {
        SpacesAreListed(s[0]);
      }
    } else {
      SpacesAreListed(a[0]);
      assert (a + s)[1..] == a[1..] + s;
      TrimLeftOfPadded(a[1..], s);
    }
  }

  lemma {:induction false} TrimRightOfPadded(s: string, b: string)
    requires IsBlank(b) && (s == "" || !IsListed(s[|s| - 1]))
    ensures TrimRight(s + b) == s
  {
    hide IsListed, IsSpace;
    if b == "" {
      assert s + b == s;
      if s != "" {
        SpacesAreListed(s[|s| - 1]);
      }
    } else {
      SpacesAreListed(b[|b| - 1]);
      assert (s + b)[..|s + b| - 1] == s + b[..|b| - 1];
      TrimRightOfPadded(s, b[..|b| - 1]);
    }
  }

  /** Stripping takes the whitespace around a text away, and nothing else. */
  lemma TrimOfPadded(a: string, s: string, b: string)
    requires IsBlank(a) && IsBlank(b) && HasInkAtEnds(s)
    ensures Trim(a + (s + b)) == s
  {
    hide TrimLeft, TrimRight, IsListed;
    if s == "" {
      assert a + (s + b) == (a + b) + s && IsBlank(a + b);
      TrimLeftOfPadded(a + b, s);
      TrimRightOfPadded(s, "");
      assert s + "" == s;
    } else {
      assert (s + b)[0] == s[0];
      TrimLeftOfPadded(a, s + b);
      TrimRightOfPadded(s, b);
    }
  }

  /** What stripping leaves is bare at both ends and stood between whitespace. */
  lemma {:induction false} TrimLeftSplits(s: string) returns (a: string)
    ensures IsBlank(a) && s == a + TrimLeft(s) && (TrimLeft(s) == "" || !IsListed(TrimLeft(s)[0]))
    decreases |s|
  {
    hide IsListed, IsSpace;
    a := "";
    if s != "" {
      SpacesAreListed(s[0]);
      if IsListed(s[0]) {
        var rest := TrimLeftSplits(s[1..]);
        a := [s[0]] + rest;
      }
    }
  }

  lemma {:induction false} TrimRightSplits(s: string) returns (b: string)
    ensures IsBlank(b) && s == TrimRight(s) + b && (TrimRight(s) == "" || !IsListed(TrimRight(s)[|TrimRight(s)| - 1]))
    decreases |s|
  {
    hide IsListed, IsSpace;
    b := "";
    if s != "" {
      SpacesAreListed(s[|s| - 1]);
      if IsListed(s[|s| - 1]) {
        var rest := TrimRightSplits(s[..|s| - 1]);
        b := rest + [s[|s| - 1]];
      }
    }
  }

  lemma TrimSplits(s: string) returns (a: string, b: string)
    ensures IsBlank(a) && IsBlank(b) && s == a + (Trim(s) + b) && HasInkAtEnds(Trim(s))
  {
    hide TrimLeft, TrimRight, IsListed;
    a := TrimLeftSplits(s);
    b := TrimRightSplits(TrimLeft(s));
    if Trim(s) != "" {
      assert Trim(s)[0] == TrimLeft(s)[0];
    }
  }

  /** Skipping whitespace stops behind all of it. */
  lemma {:induction false} SkipOverBlank(s: string, i: nat, j: nat)
    requires i <= j <= |s| && IsBlank(s[i..j]) && (j == |s| || !IsListed(s[j]))
    ensures SkipSpaces(s, i) == j
    decreases j - i
  {
    hide IsListed, IsSpace;
    if i < |s| {
      SpacesAreListed(s[i]);
    }
    if i < j {
      assert s[i..j][0] == s[i] && s[i..j][1..] == s[i + 1..j];
      SkipOverBlank(s, i + 1, j);
    }
  }

  lemma {:induction false} SkippedIsBlank(s: string, i: nat)
    requires i <= |s|
    ensures var j := SkipSpaces(s, i);
            IsBlank(s[i..j]) && (j == |s| || !IsListed(s[j]))
    decreases |s| - i
  {
    hide IsListed, IsSpace;
    var j := SkipSpaces(s, i);
    if i < |s| {
      SpacesAreListed(s[i]);
      if IsListed(s[i]) {
        SkippedIsBlank(s, i + 1);
        assert s[i..j] == [s[i]] + s[i + 1..j];
      }
    }
  }

  /** The first position at or after `i` that does not hold whitespace. */
  function SkipSpaces(s: string, i: nat): (j: nat)
    requires i <= |s|
    ensures i <= j <= |s|
    decreases |s| - i
  {
    if i < |s| && IsSpace(s[i]) then SkipSpaces(s, i + 1) else i
  }

  lemma {:induction false} SkippedAreSpaces(s: string, i: nat, k: nat)
    requires i <= k < |s| && k < SkipSpaces(s, i)
    ensures IsSpace(s[k])
    decreases k - i
  {
    if i < k {
      SkippedAreSpaces(s, i + 1, k);
    }
  }

  /** The first brace, opening or closing, at or after `i`, or the end. */
  function NextBrace(s: string, i: nat): (k: nat)
    requires i <= |s|
    ensures i <= k <= |s|
    decreases |s| - i
  {
    if i == |s| || s[i] == '{' || s[i] == '}' then i else NextBrace(s, i + 1)
  }

  predicate Braceless(s: string) {
    forall i :: 0 <= i < |s| ==> s[i] != '{' && s[i] != '}'
  }

  /** The first brace behind a braceless stretch is where the stretch ends. */
  lemma {:induction false} NextBraceIs(s: string, i: nat, k: nat)
    requires i <= k <= |s| && Braceless(s[i..k]) && (k == |s| || s[k] == '{' || s[k] == '}')
    ensures NextBrace(s, i) == k
    decreases k - i
  {
    if i < k {
      assert s[i..k][0] == s[i] && s[i..k][1..] == s[i + 1..k];
      NextBraceIs(s, i + 1, k);
    }
  }

  lemma {:induction false} NoBraceBefore(s: string, i: nat, k: nat)
    requires i <= |s| && i <= k < NextBrace(s, i)
    ensures s[k] != '{' && s[k] != '}'
    decreases k - i
  {
    if i < k {
      NoBraceBefore(s, i + 1, k);
    }
  }

  /** `s.split(sep)`. */
  function Split(s: string, sep: char): (parts: seq<string>)
    ensures parts != []
    decreases |s|
  {
    if s == "" then [""]
    else if s[0] == sep then [""] + Split(s[1..], sep)
    else
      var rest := Split(s[1..], sep);
      [[s[0]] + rest[0]] + rest[1..]
  }

  /** Does `w` stand in `s` at position `i`? */
  predicate At(s: string, i: int, w: string) {
    0 <= i && i + |w| <= |s| && s[i..i + |w|] == w
  }

  lemma AtAppend(s: string, i: int, a: string, b: string)
    ensures At(s, i, a + b) <==> At(s, i, a) && At(s, i + |a|, b)
  {
    if At(s, i, a + b) {
      assert s[i..i + |a|] == s[i..i + |a + b|][..|a|];
      assert s[i + |a|..i + |a| + |b|] == s[i..i + |a + b|][|a|..];
    }
    if At(s, i, a) && At(s, i + |a|, b) {
      assert s[i..i + |a + b|] == s[i..i + |a|] + s[i + |a|..i + |a| + |b|];
    }
  }

  /** What stands at `i` is the slice there, character by character. */
  lemma AtIs(s: string, i: nat, w: string)
    requires At(s, i, w)
    ensures i + |w| <= |s| && s[i..i + |w|] == w
  {
  }

  lemma AtHas(s: string, i: nat, w: string, j: nat)
    requires j < |w|
    ensures At(s, i, w) ==> i + j < |s| && s[i + j] == w[j]
  {
    if At(s, i, w) {
      assert s[i..i + |w|][j] == w[j];
    }
  }

  lemma SliceStands(s: string, i: nat, j: nat)
    requires i <= j <= |s|
    ensures At(s, i, s[i..j])
  {
  }

  /** The middle piece of three, in place. */
  lemma MiddlePiece(x: string, w: string, y: string)
    ensures var s := x + (w + y);
            var end := |x| + |w|;
            s[0..|x|] == x && s[|x|..end] == w && s[end..] == y && s[end..|s|] == y && At(s, |x|, w)
  {
    var s := x + (w + y);
    var end := |x| + |w|;
    assert s[|x|..end] == w;
    assert s[end..] == y;
  }

  lemma AtNothing(s: string, i: int)
    ensures At(s, i, "") <==> 0 <= i <= |s|
  {
  }

  lemma AtOne(s: string, i: int, c: char)
    ensures At(s, i, [c]) <==> 0 <= i < |s| && s[i] == c
  {
    if 0 <= i < |s| {
      assert s[i] == s[i..i + 1][0];
    }
  }

  lemma Associate(a: string, b: string, c: string)
    ensures (a + b) + c == a + (b + c)
  {
  }

  // ---- Picking characters by position ----

  /** The characters of `t[i..]` at the positions in `keep`. */
  function Pick(t: string, keep: set<nat>, i: nat): string
    requires i <= |t|
    decreases |t| - i
  {
    if i == |t| then "" else (if i in keep then [t[i]] else "") + Pick(t, keep, i + 1)
  }

  lemma PickNothing(t: string, keep: set<nat>)
    ensures Pick(t, keep, |t|) == ""
  {
  }

  /** A stretch that is kept, or dropped, as a whole. */
  lemma {:induction false} PickRun(t: string, keep: set<nat>, b: bool, i: nat, j: nat)
    requires i <= j <= |t| && forall p :: i <= p < j ==> (p in keep) == b
    ensures Pick(t, keep, i) == (if b then t[i..j] else "") + Pick(t, keep, j)
    decreases j - i
  {
    if i < j {
      PickRun(t, keep, b, i + 1, j);
      assert (i in keep) == b;
      if b {
        assert t[i..j] == [t[i]] + t[i + 1..j];
        Associate([t[i]], t[i + 1..j], Pick(t, keep, j));
        assert Pick(t, keep, i) == [t[i]] + Pick(t, keep, i + 1);
      } else {
        assert Pick(t, keep, i) == Pick(t, keep, i + 1);
      }
    }
  }

  lemma {:induction false} PickSame(t: string, a: set<nat>, b: set<nat>, i: nat)
    requires i <= |t| && forall p :: i <= p < |t| ==> (p in a) == (p in b)
    ensures Pick(t, a, i) == Pick(t, b, i)
    decreases |t| - i
  {
    if i < |t| {
      PickSame(t, a, b, i + 1);
    }
  }

  /** Picking less gives a shorter text, or the same positions. */
  lemma {:induction false} PickLess(t: string, more: set<nat>, less: set<nat>, i: nat)
    requires i <= |t| && less <= more
    ensures |Pick(t, less, i)| <= |Pick(t, more, i)|
    ensures (exists p :: i <= p < |t| && p in more && p !in less) ==> |Pick(t, less, i)| < |Pick(t, more, i)|
    decreases |t| - i
  {
    if i < |t| {
      PickLess(t, more, less, i + 1);
    }
  }

  function Count(c: char, s: string): nat {
    if s == "" then 0 else (if s[0] == c then 1 else 0) + Count(c, s[1..])
  }

  lemma {:induction false} CountAppend(c: char, a: string, b: string)
    ensures Count(c, a + b) == Count(c, a) + Count(c, b)
  {
    if a == "" {
      assert a + b == b;
    } else {
      assert (a + b)[1..] == a[1..] + b;
      CountAppend(c, a[1..], b);
    }
  }

  /** `a` is obtained from `b` by deleting characters. */
  predicate IsSubsequence(a: string, b: string)
    decreases |b|
  {
    a == "" || (b != "" && (if a[0] == b[0] then IsSubsequence(a[1..], b[1..]) else IsSubsequence(a, b[1..])))
  }

  /** Dropping characters in front of the longer text keeps a subsequence. */
  lemma {:induction false} SubsequenceWeaken(a: string, b: string)
    requires a != "" && IsSubsequence(a, b)
    ensures IsSubsequence(a[1..], b)
    decreases |b|
  {
    if a[0] == b[0] {
      if a[1..] != "" && a[1..][0] == b[0] {
        SubsequenceWeaken(a[1..], b[1..]);
      }
    } else {
      SubsequenceWeaken(a, b[1..]);
      if a[1..] != "" && a[1..][0] == b[0] {
        SubsequenceWeaken(a[1..], b[1..]);
      }
    }
  }

  lemma {:induction false} SubsequencePrepend(p: string, a: string, b: string)
    requires IsSubsequence(a, b)
    ensures IsSubsequence(a, p + b)
    decreases |p|
  {
    if p == "" {
      assert p + b == b;
    } else {
      SubsequencePrepend(p[1..], a, b);
      assert (p + b)[1..] == p[1..] + b;
      if a != "" && a[0] == p[0] {
        SubsequenceWeaken(a, p[1..] + b);
      }
    }
  }

  lemma {:induction false} SubsequenceAppend(a: string, b: string, x: string, y: string)
    requires IsSubsequence(a, b) && IsSubsequence(x, y)
    ensures IsSubsequence(a + x, b + y)
    decreases |b|
  {
    if a == "" {
      assert a + x == x;
      SubsequencePrepend(b, x, y);
    } else {
      assert (a + x)[0] == a[0] && (b + y)[0] == b[0];
      assert (b + y)[1..] == b[1..] + y && (a + x)[1..] == a[1..] + x;
      if a[0] == b[0] {
        SubsequenceAppend(a[1..], b[1..], x, y);
      } else {
        SubsequenceAppend(a, b[1..], x, y);
      }
    }
  }

  lemma {:induction false} SubsequenceSelf(a: string)
    ensures IsSubsequence(a, a)
  {
    if a != "" {
      SubsequenceSelf(a[1..]);
    }
  }
}
