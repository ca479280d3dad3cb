/** What isolating display math does: it keeps every character that is not
    whitespace, leaves no run of blank lines, and is idempotent exactly where no
    block's body opens with two more dollars. */
module MathIsolation {
  import opened Text
  import opened MathLayout

  // ---- Nothing but whitespace changes ----

  /** The characters of `s` that are not whitespace, in order. */
  function Ink(s: string): string {
    if s == "" then "" else (if IsSpace(s[0]) then "" else [s[0]]) + Ink(s[1..])
  }

  lemma {:induction false} InkAppend(a: string, b: string)
    ensures Ink(a + b) == Ink(a) + Ink(b)
    decreases |a|
  {
    if a == "" {
      assert a + b == b;
    } else {
      assert (a + b)[0] == a[0] && (a + b)[1..] == a[1..] + b;
      InkAppend(a[1..], b);
    }
  }

  lemma {:induction false} InkOfTrimLeft(s: string)
    ensures Ink(TrimLeft(s)) == Ink(s)
    decreases |s|
  {
    if s != "" && IsSpace(s[0]) {
      InkOfTrimLeft(s[1..]);
    }
  }

  lemma {:induction false} InkOfTrimRight(s: string)
    ensures Ink(TrimRight(s)) == Ink(s)
    decreases |s|
  {
    if s != "" && IsSpace(s[|s| - 1]) {
      var t := s[..|s| - 1];
      InkOfTrimRight(t);
      assert s == t + [s[|s| - 1]];
      InkAppend(t, [s[|s| - 1]]);
    }
  }

  lemma {:induction false} InkOfCap(n: nat, s: string)
    ensures Ink(CapFrom(n, s)) == Ink(s)
    decreases |s|
  {
    if s != "" {
      if s[0] != '\n' {
        InkOfCap(0, s[1..]);
        assert CapFrom(n, s)[1..] == CapFrom(0, s[1..]);
      } else if n < 2 {
        InkOfCap(n + 1, s[1..]);
        assert CapFrom(n, s)[1..] == CapFrom(n + 1, s[1..]);
      } else {
        InkOfCap(n, s[1..]);
      }
    }
  }

  lemma InkOfMarks()
    ensures Ink("\n\n$$\n") == "$$" && Ink("\n$$\n\n") == "$$" && Ink("$$") == "$$"
  {
    assert Ink("$") == "$";
    assert "$$"[1..] == "$";
    InkAppend("\n\n", "$$");
    InkAppend("\n\n" + "$$", "\n");
    InkAppend("\n", "$$");
    InkAppend("\n" + "$$", "\n\n");
    assert "\n\n"[1..] == "\n";
    assert Ink("\n") == "" && Ink("\n\n") == "";
    assert "\n\n$$\n" == "\n\n" + "$$" + "\n";
    assert "\n$$\n\n" == "\n" + "$$" + "\n\n";
  }

  lemma {:induction false} InkOfRender(d: Doc)
    ensures Ink(Render(d)) == Ink(Source(d))
  {
    hide Ink, Trim;
    if d.Block? {
      InkOfRender(d.rest);
      InkOfMarks();
      InkOfTrimLeft(d.body);
      InkOfTrimRight(TrimLeft(d.body));
      TrimIs(d.body);
      InkAppend(d.gap, "\n\n$$\n" + (Trim(d.body) + ("\n$$\n\n" + Render(d.rest))));
      InkAppend("\n\n$$\n", Trim(d.body) + ("\n$$\n\n" + Render(d.rest)));
      InkAppend(Trim(d.body), "\n$$\n\n" + Render(d.rest));
      InkAppend("\n$$\n\n", Render(d.rest));
      InkAppend(d.gap, "$$" + (d.body + ("$$" + Source(d.rest))));
      InkAppend("$$", d.body + ("$$" + Source(d.rest)));
      InkAppend(d.body, "$$" + Source(d.rest));
      InkAppend("$$", Source(d.rest));
    }
  }

  lemma TrimIs(s: string)
    ensures Trim(s) == TrimRight(TrimLeft(s))
  {
  }

  /** For every text, only whitespace is added or removed. */
  lemma IsolateKeepsInk(t: string)
    ensures Ink(Isolate(t)) == Ink(t)
  {
    hide Ink, Parse, Render, Source, Canonical;
    ParseIsReading(t);
    InkOfRender(Parse(t));
    InkOfCap(0, Render(Parse(t)));
  }

  // ---- No blank runs ----

  function Leading(s: string): nat {
    if s != "" && s[0] == '\n' then 1 + Leading(s[1..]) else 0
  }

  predicate NoBlankRun(s: string) {
    forall i :: 0 <= i && i + 2 < |s| ==> !(s[i] == '\n' && s[i + 1] == '\n' && s[i + 2] == '\n')
  }

  lemma NoBlankRunGrows(c: char, s: string)
    requires NoBlankRun(s) && (c == '\n' ==> Leading(s) <= 1)
    ensures NoBlankRun([c] + s)
  {
    var t := [c] + s;
    forall i | 0 <= i && i + 2 < |t| ensures !(t[i] == '\n' && t[i + 1] == '\n' && t[i + 2] == '\n') {
      if i == 0 {
        assert t[1] == s[0] && t[2] == s[1] && s[1..][0] == s[1];
      } else {
        assert t[i] == s[i - 1] && t[i + 1] == s[i] && t[i + 2] == s[i + 1];
      }
    }
  }

  lemma {:induction false} CapLeavesNoRun(n: nat, s: string)
    requires n <= 2
    ensures NoBlankRun(CapFrom(n, s)) && Leading(CapFrom(n, s)) <= 2 - n
    decreases |s|
  {
    if s != "" {
      if s[0] != '\n' {
        CapLeavesNoRun(0, s[1..]);
        NoBlankRunGrows(s[0], CapFrom(0, s[1..]));
      } else if n < 2 {
        CapLeavesNoRun(n + 1, s[1..]);
        NoBlankRunGrows('\n', CapFrom(n + 1, s[1..]));
        assert CapFrom(n, s)[1..] == CapFrom(n + 1, s[1..]);
      } else {
        CapLeavesNoRun(n, s[1..]);
      }
    }
  }

  /** For every text, the result has no run of three newlines. */
  lemma IsolateLeavesNoBlankRun(t: string)
    ensures NoBlankRun(Isolate(t))
  {
    CapLeavesNoRun(0, Render(Parse(t)));
  }

  // ---- Trimmed bodies ----

  predicate Trimmed(s: string) {
    s == "" || (!IsSpace(s[0]) && !IsSpace(s[|s| - 1]))
  }

  lemma {:induction false} TrimLeftTrims(s: string)
    ensures TrimLeft(s) == "" || !IsSpace(TrimLeft(s)[0])
    ensures NoDollars(s) ==> NoDollars(TrimLeft(s))
    decreases |s|
  {
    if s != "" && IsSpace(s[0]) {
      TrimLeftTrims(s[1..]);
    }
  }

  lemma {:induction false} TrimRightTrims(s: string)
    ensures TrimRight(s) == "" || (s != "" && TrimRight(s)[0] == s[0] && !IsSpace(TrimRight(s)[|TrimRight(s)| - 1]))
    ensures NoDollars(s) ==> NoDollars(TrimRight(s))
    decreases |s|
  {
    if s != "" && IsSpace(s[|s| - 1]) {
      var t := s[..|s| - 1];
      assert s == t + [s[|s| - 1]];
      if NoDollars(s) {
        NoDollarsPrefix(t, [s[|s| - 1]]);
      }
      TrimRightTrims(t);
    }
  }

  lemma TrimTrims(s: string)
    ensures Trimmed(Trim(s))
    ensures NoDollars(s) ==> NoDollars(Trim(s))
  {
    hide TrimLeft, TrimRight, IsSpace, NoDollars;
    TrimLeftTrims(s);
    TrimRightTrims(TrimLeft(s));
  }

  /** A body that opens with ink is trimmed at its end only. */
  lemma TrimKeepsOpening(s: string)
    requires |s| >= 2 && !IsSpace(s[0]) && !IsSpace(s[1])
    ensures |Trim(s)| >= 2 && Trim(s)[0] == s[0] && Trim(s)[1] == s[1]
  {
    TrimRightKeepsOpening(s);
  }

  lemma {:induction false} TrimRightKeepsOpening(s: string)
    requires |s| >= 2 && !IsSpace(s[1])
    ensures |TrimRight(s)| >= 2 && TrimRight(s)[..2] == s[..2]
    decreases |s|
  {
    if IsSpace(s[|s| - 1]) {
      TrimRightKeepsOpening(s[..|s| - 1]);
      assert s[..|s| - 1][..2] == s[..2];
    }
  }

  lemma TrimUnpads(c: string)
    requires Trimmed(c)
    ensures Trim("\n" + c + "\n") == c
  {
    var s := "\n" + c + "\n";
    assert s[0] == '\n' && s[1..] == c + "\n";
    if c == "" {
      assert TrimLeft("\n") == TrimLeft("");
    } else {
      assert (c + "\n")[0] == c[0];
      assert TrimLeft(s) == TrimLeft(c + "\n") == c + "\n";
      assert (c + "\n")[..|c + "\n"| - 1] == c;
      assert TrimRight(c + "\n") == TrimRight(c) == c;
    }
  }

  lemma CapOfTrimmed(c: string)
    requires Trimmed(c)
    ensures Trimmed(Cap(c)) && CapFrom(1, c) == Cap(c)
    ensures Tail(1, c) == (if c == "" then 1 else 0)
    ensures (c == "" <==> Cap(c) == "") && (|c| >= 2 && c[1] != '\n' ==> |Cap(c)| >= 2 && Cap(c)[..2] == c[..2])
  {
    if c != "" {
      CapKeepsEnd(0, c);
      CapKeepsEnd(1, c);
      CapKeepsHead(c);
      if |c| >= 2 {
        CapKeepsHead(c[1..]);
      }
    }
  }

  lemma {:induction false} CapKeepsEnd(n: nat, s: string)
    requires s != "" && s[|s| - 1] != '\n'
    ensures CapFrom(n, s) != "" && CapFrom(n, s)[|CapFrom(n, s)| - 1] == s[|s| - 1] && Tail(n, s) == 0
    decreases |s|
  {
    var m := if s[0] != '\n' then 0 else if n < 2 then n + 1 else n;
    if |s| > 1 {
      CapKeepsEnd(m, s[1..]);
    } else {
      assert s[1..] == "";
    }
  }

  // ---- The reading of the result ----

  function Room(n: nat, g: string): nat {
    if Tail(n, g) < 2 then 2 - Tail(n, g) else 0
  }

  /** A gap in front of a block, after `n` newlines. */
  function NormGap(n: nat, g: string): string {
    Newlines(n) + (CapFrom(n, g) + Newlines(Room(n, g)))
  }

  function NormBody(b: string): string {
    "\n" + Cap(Trim(b)) + "\n"
  }

  /** The blocks of the result: `n` newlines stand in front of it already. */
  function Norm(n: nat, d: Doc): Doc
    decreases d
  {
    match d
    case End(gap) => End(Newlines(n) + CapFrom(n, gap))
    case Block(gap, body, rest) => Block(NormGap(n, gap), NormBody(body), Norm(2, rest))
  }

  lemma TwoNewlines()
    ensures Newlines(0) == "" && Newlines(1) == "\n" && Newlines(2) == "\n\n"
  {
    assert Newlines(1) == "\n" + Newlines(0);
    assert Newlines(2) == "\n" + Newlines(1);
  }

  /** The opening of a block behind a gap that ends in `m` newlines. */
  lemma CapOpens(m: nat, x: string)
    requires m <= 2
    ensures CapFrom(m, "\n\n$$\n" + x) == Newlines(2 - m) + ("$$" + ("\n" + CapFrom(1, x)))
  {
    TwoNewlines();
    var y := "$$" + ("\n" + x);
    assert "\n\n$$\n" + x == Newlines(2) + y;
    CapCutsARun(m, 2, y);
    assert y[1..] == "$" + ("\n" + x) && y[1..][1..] == "\n" + x && ("\n" + x)[1..] == x;
    assert CapFrom(0, y) == "$" + CapFrom(0, y[1..]);
    assert CapFrom(0, y[1..]) == "$" + CapFrom(0, y[1..][1..]);
    assert CapFrom(0, "\n" + x) == "\n" + CapFrom(1, x);
    assert CapFrom(0, y) == "$$" + ("\n" + CapFrom(1, x));
  }

  lemma CapCloses(m: nat, x: string)
    requires m <= 1
    ensures CapFrom(m, "\n$$\n\n" + x) == "\n" + ("$$" + ("\n\n" + CapFrom(2, x)))
  {
    var y := "\n$$\n\n" + x;
    assert y[1..] == "$$\n\n" + x && y[1..][1..] == "$\n\n" + x && y[1..][1..][1..] == "\n\n" + x;
    assert ("\n\n" + x)[1..] == "\n" + x && ("\n" + x)[1..] == x;
    assert CapFrom(1, "\n" + x) == "\n" + CapFrom(2, x);
    assert CapFrom(0, "\n\n" + x) == "\n" + CapFrom(1, "\n" + x);
    assert CapFrom(0, "$\n\n" + x) == "$" + CapFrom(0, "\n\n" + x);
    assert CapFrom(m + 1, "$$\n\n" + x) == "$" + CapFrom(0, "$\n\n" + x);
    assert CapFrom(m, y) == "\n" + CapFrom(m + 1, "$$\n\n" + x);
  }

  lemma CapOfBlock(n: nat, gap: string, body: string, rest: string)
    requires n <= 2
    ensures Newlines(n) + CapFrom(n, gap + ("\n\n$$\n" + (Trim(body) + ("\n$$\n\n" + rest))))
         == NormGap(n, gap) + ("$$" + (NormBody(body) + ("$$" + ("\n\n" + CapFrom(2, rest)))))
  {
    hide CapFrom, Tail, Trim, Trimmed, Newlines;
    var c := Trim(body);
    var tail := "\n$$\n\n" + rest;
    var m := Tail(n, gap);
    var after := "\n\n" + CapFrom(2, rest);
    TrimTrims(body);
    CapOfTrimmed(c);
    TailIsSmall(n, gap);
    CapAppend(n, gap, "\n\n$$\n" + (c + tail));
    CapOpens(m, c + tail);
    CapAppend(1, c, tail);
    CapCloses(Tail(1, c), rest);
    Regroup(Newlines(n), CapFrom(n, gap), Newlines(2 - m), Cap(c), after);
  }

  lemma Regroup(a: string, b: string, r: string, c: string, z: string)
    ensures a + (b + (r + ("$$" + ("\n" + (c + ("\n" + ("$$" + z)))))))
         == (a + (b + r)) + ("$$" + (("\n" + c + "\n") + ("$$" + z)))
  {
    var w := "$$" + z;
    assert "\n" + (c + ("\n" + w)) == ("\n" + c + "\n") + w;
    var x := "$$" + (("\n" + c + "\n") + w);
    assert b + (r + x) == (b + r) + x;
    assert a + ((b + r) + x) == (a + (b + r)) + x;
  }

  lemma {:induction false} IsolatedSource(n: nat, d: Doc)
    requires n <= 2
    ensures Newlines(n) + CapFrom(n, Render(d)) == Source(Norm(n, d))
    decreases d
  {
    hide CapFrom, NormGap, NormBody, Trim, Newlines;
    if d.Block? {
      TwoNewlines();
      IsolatedSource(2, d.rest);
      CapOfBlock(n, d.gap, d.body, Render(d.rest));
    }
  }

  lemma IsolateIs(t: string)
    ensures Isolate(t) == Source(Norm(0, Parse(t)))
  {
    hide Parse, Source, Norm, Render, CapFrom;
    IsolatedSource(0, Parse(t));
    TwoNewlines();
  }

  // ---- Normal forms stay as they are ----

  lemma {:induction false} TailOfRun(m: nat, k: nat)
    requires m + k <= 2
    ensures Tail(m, Newlines(k)) == m + k && CapFrom(m, Newlines(k)) == Newlines(k)
    decreases k
  {
    if k > 0 {
      assert Newlines(k)[0] == '\n' && Newlines(k)[1..] == Newlines(k - 1);
      TailOfRun(m + 1, k - 1);
    }
  }

  lemma CapPastFull(y: string)
    ensures CapFrom(2, Newlines(2) + y) == CapFrom(2, y) && Tail(2, Newlines(2) + y) == Tail(2, y)
  {
    TwoNewlines();
    var s := "\n\n" + y;
    assert s[1..] == "\n" + y && ("\n" + y)[1..] == y;
  }

  lemma NormGapIsNormal(n: nat, g: string)
    requires n == 0 || n == 2
    ensures NormGap(n, NormGap(n, g)) == NormGap(n, g)
  {
    hide CapFrom, Tail, Newlines;
    var m := Tail(n, g);
    var y := CapFrom(n, g) + Newlines(Room(n, g));
    TailIsSmall(n, g);
    CapIsIdempotent(n, g);
    CapAppend(n, CapFrom(n, g), Newlines(2 - m));
    TailOfRun(m, 2 - m);
    TwoNewlines();
    assert CapFrom(n, y) == y && Tail(n, y) == 2;
    if n == 0 {
      assert Newlines(0) + y == y;
    } else {
      CapPastFull(y);
    }
    assert y + Newlines(0) == y;
  }

  lemma NormEndIsNormal(n: nat, g: string)
    requires n == 0 || n == 2
    ensures CapFrom(n, Newlines(n) + CapFrom(n, g)) == CapFrom(n, g)
  {
    hide CapFrom, Tail, Newlines;
    CapIsIdempotent(n, g);
    TwoNewlines();
    if n == 0 {
      assert Newlines(0) + CapFrom(0, g) == CapFrom(0, g);
    } else {
      CapPastFull(CapFrom(n, g));
    }
  }

  lemma NormBodyIsNormal(b: string)
    ensures NormBody(NormBody(b)) == NormBody(b)
  {
    hide CapFrom, Trim, Trimmed;
    TrimTrims(b);
    CapOfTrimmed(Trim(b));
    TrimUnpads(Cap(Trim(b)));
    CapIsIdempotent(0, Trim(b));
  }

  lemma {:induction false} NormIsNormal(n: nat, d: Doc)
    requires n == 0 || n == 2
    ensures Norm(n, Norm(n, d)) == Norm(n, d)
    decreases d
  {
    hide CapFrom, NormGap, NormBody;
    match d
    case End(gap) => NormEndIsNormal(n, gap);
    case Block(gap, body, rest) =>
      NormGapIsNormal(n, gap);
      NormBodyIsNormal(body);
      NormIsNormal(2, rest);
  }

  // ---- When the result is read as its blocks ----

  predicate OpensTwice(body: string) {
    |body| >= 2 && body[0] == '$' && body[1] == '$'
  }

  predicate SomeOpensTwice(d: Doc) {
    d.Block? && (OpensTwice(d.body) || SomeOpensTwice(d.rest))
  }

  lemma NewlinesHoldNoDollars(k: nat)
    ensures NoDollars(Newlines(k)) && forall i :: 0 <= i < |Newlines(k)| ==> Newlines(k)[i] == '\n'
  {
    if k > 0 {
      NewlinesHoldNoDollars(k - 1);
      assert Newlines(k)[1..] == Newlines(k - 1);
    }
  }

  lemma NormGapIsIntact(n: nat, g: string)
    requires IntactGap(g) && (n == 0 || n == 2)
    ensures IntactGap(NormGap(n, g))
  {
    hide CapFrom, Tail, Newlines, NoDollars;
    var k := Room(n, g);
    var c := CapFrom(n, g);
    NoDollarsPrefix(g, "$");
    CapKeepsNoDollars(n, g);
    NewlinesHoldNoDollars(n);
    NewlinesHoldNoDollars(k);
    NoDollarsAppend(c, Newlines(k));
    NoDollarsAppend(Newlines(n), c + Newlines(k));
    EndsInNewline(n, g);
    LoneDollar();
    NoDollarsAppend(NormGap(n, g), "$");
  }

  lemma LoneDollar()
    ensures NoDollars("$")
  {
  }

  /** A gap in front of a block ends in a newline. */
  lemma EndsInNewline(n: nat, g: string)
    requires n <= 2
    ensures NormGap(n, g) == "" || NormGap(n, g)[|NormGap(n, g)| - 1] == '\n'
  {
    hide NoDollars;
    var k := Room(n, g);
    TailIsSmall(n, g);
    NewlinesHoldNoDollars(k);
    if k == 0 {
      FullTailEnds(n, g);
      NewlinesHoldNoDollars(n);
      assert Newlines(0) == "";
    } else {
      assert Newlines(k) != "";
    }
  }

  lemma {:induction false} FullTailEnds(n: nat, s: string)
    requires n <= 2 && Tail(n, s) == 2
    ensures CapFrom(n, s) == "" || CapFrom(n, s)[|CapFrom(n, s)| - 1] == '\n'
    decreases |s|
  {
    if s != "" {
      var m := if s[0] != '\n' then 0 else if n < 2 then n + 1 else n;
      FullTailEnds(m, s[1..]);
      if CapFrom(m, s[1..]) == "" {
        CapOfNothing(m, s[1..]);
      }
    }
  }

  lemma {:induction false} CapOfNothing(n: nat, s: string)
    requires CapFrom(n, s) == ""
    ensures s == "" || n >= 2
    ensures Tail(n, s) == n
    decreases |s|
  {
    if s != "" {
      CapOfNothing(n, s[1..]);
    }
  }

  lemma NormBodyIsIntact(b: string)
    requires IntactBody(b) && !OpensTwice(b)
    ensures IntactBody(NormBody(b))
  {
    hide CapFrom, Trim, NoDollars;
    BodyHoldsNoDollars(b);
    TrimTrims(b);
    CapKeepsNoDollars(0, Trim(b));
    var c := Cap(Trim(b));
    ClosedNewline();
    NoDollarsAppend(c, "\n$");
    assert NormBody(b)[1..] + "$" == c + "\n$";
  }

  lemma BodyHoldsNoDollars(b: string)
    requires IntactBody(b) && !OpensTwice(b)
    ensures NoDollars(b)
  {
    NoDollarsPrefix(b[1..], "$");
  }

  lemma ClosedNewline()
    ensures NoDollars("\n$")
  {
  }

  /** A text without a block has at most one pair of dollars, or pairs too close
      together. */
  lemma NormEndHasNoBlock(n: nat, g: string)
    requires HasNoBlock(g) && (n == 0 || n == 2)
    ensures HasNoBlock(Newlines(n) + CapFrom(n, g))
  {
    hide CapFrom, Newlines, NoDollars, FindDollars;
    var u := Newlines(n) + CapFrom(n, g);
    var p := FindDollars(g, 0);
    FoundIsFirst(g, 0);
    assert g[0..] == g;
    if p == None {
      NewlinesHoldNoDollars(n);
      CapKeepsNoDollars(n, g);
      NoDollarsAppend(Newlines(n), CapFrom(n, g));
      FoundIsFirst(u, 0);
      assert u[0..] == u;
    } else {
      EndSearch(g, p.value);
      SplitEnd(n, g[..p.value], g[p.value + 2..]);
      OnePair(Newlines(n) + CapFrom(n, g[..p.value]), CapFrom(0, g[p.value + 2..]));
    }
  }

  lemma EndSearch(g: string, p: nat)
    requires FindDollars(g, 0) == Some(p) && FindDollars(g, p + 3) == None
    ensures |g| >= p + 2 && (g[p + 2..] == "" || NoDollars(g[p + 2..][1..]))
    ensures NoDollars(g[..p] + "$") && g == g[..p] + ("$$" + g[p + 2..])
  {
    hide NoDollars;
    FoundIsFirst(g, 0);
    assert g[0..p] == g[..p];
    assert g[p..] == "$$" + g[p + 2..];
    if |g| >= p + 3 {
      FoundIsFirst(g, p + 3);
      assert g[p + 2..][1..] == g[p + 3..];
    }
  }

  lemma CapPastDollars(m: nat, y: string)
    ensures CapFrom(m, "$$" + y) == "$$" + CapFrom(0, y)
  {
    assert ("$$" + y)[1..] == "$" + y && ("$" + y)[1..] == y;
    assert CapFrom(0, "$" + y) == "$" + CapFrom(0, y);
    assert CapFrom(m, "$$" + y) == "$" + CapFrom(0, "$" + y);
  }

  lemma CapOfDollar(m: nat)
    ensures CapFrom(m, "$") == "$"
  {
    assert "$"[1..] == "";
  }

  lemma CapKeepsSecond(y: string)
    requires y == "" || NoDollars(y[1..])
    ensures CapFrom(0, y) == "" || NoDollars(CapFrom(0, y)[1..])
  {
    hide NoDollars;
    if y != "" {
      var k := if y[0] == '\n' then 1 else 0;
      CapKeepsNoDollars(k, y[1..]);
      assert CapFrom(0, y)[1..] == CapFrom(k, y[1..]);
    }
  }

  lemma SplitEnd(n: nat, x: string, y: string)
    requires NoDollars(x + "$") && (y == "" || NoDollars(y[1..])) && (n == 0 || n == 2)
    ensures Newlines(n) + CapFrom(n, x + ("$$" + y)) == (Newlines(n) + CapFrom(n, x)) + ("$$" + CapFrom(0, y))
    ensures NoDollars((Newlines(n) + CapFrom(n, x)) + "$")
    ensures CapFrom(0, y) == "" || NoDollars(CapFrom(0, y)[1..])
  {
    hide NoDollars, Newlines, CapFrom, Tail;
    var c := CapFrom(n, x);
    CapAppend(n, x, "$$" + y);
    CapPastDollars(Tail(n, x), y);
    Associate(Newlines(n), c, "$$" + CapFrom(0, y));
    CapKeepsSecond(y);
    CapAppend(n, x, "$");
    CapOfDollar(Tail(n, x));
    CapKeepsNoDollars(n, x + "$");
    NewlinesHoldNoDollars(n);
    NoDollarsAppend(Newlines(n), c + "$");
    Associate(Newlines(n), c, "$");
  }

  lemma OnePair(x: string, y: string)
    requires NoDollars(x + "$") && (y == "" || NoDollars(y[1..]))
    ensures HasNoBlock(x + ("$$" + y))
  {
    hide NoDollars, FindDollars;
    var u := x + ("$$" + y);
    assert u == "" + x + "$$" + y;
    FindsPast("", x, y);
    if y != "" {
      FoundIsFirst(u, |x| + 3);
      assert u[|x| + 3..] == y[1..];
    } else {
      SearchBehindEnd(u, |x| + 3);
    }
  }

  lemma SearchBehindEnd(u: string, i: nat)
    requires |u| < i + 2
    ensures FindDollars(u, i) == None
  {
  }

  lemma {:induction false} NormIsCanonical(n: nat, d: Doc)
    requires Canonical(d) && !SomeOpensTwice(d) && (n == 0 || n == 2)
    ensures Canonical(Norm(n, d))
    decreases d
  {
    hide NormGap, NormBody, IntactGap, IntactBody, HasNoBlock, OpensTwice, CapFrom;
    match d
    case End(gap) => NormEndHasNoBlock(n, gap);
    case Block(gap, body, rest) =>
      NormGapIsIntact(n, gap);
      NormBodyIsIntact(body);
      NormIsCanonical(2, rest);
  }

  // ---- Idempotence, exactly ----

  /** Where no body opens with two dollars the result is read as the same blocks
      again, each with its body trimmed and its blank runs cut. */
  lemma IsolatedReading(t: string)
    requires !SomeOpensTwice(Parse(t))
    ensures Parse(Isolate(t)) == Norm(0, Parse(t))
  {
    hide Parse, Source, Norm, Canonical, SomeOpensTwice, Isolate;
    ParseIsReading(t);
    NormIsCanonical(0, Parse(t));
    IsolateIs(t);
    CanonicalIsParsed(Norm(0, Parse(t)));
  }

  /** A block whose body opens with two dollars is closed too early the second
      time, and its first line moves down. */
  lemma OpeningMoves(n: nat, gap: string, body: string, s: string)
    requires IntactGap(gap) && OpensTwice(body) && (n == 0 || n == 2)
    ensures var u := NormGap(n, gap) + ("$$" + (NormBody(body) + ("$$" + s)));
            Source(Norm(n, Parse(u))) != u
  {
    hide CapFrom, Trim, NoDollars, FindDollars, Parse, NormGap, IntactGap;
    var g, b := NormGap(n, gap), NormBody(body);
    var u := g + ("$$" + (b + ("$$" + s)));
    OpeningStays(body);
    NormGapIsIntact(n, gap);
    NormGapIsNormal(n, gap);
    var z := b[3..] + ("$$" + s);
    assert b == "\n" + ("$$" + b[3..]);
    assert u == g + ("$$" + ("\n" + ("$$" + z)));
    NewlineIsIntact();
    ParseBlock(g, "\n", z);
    BlankBody();
    var again := Norm(n, Block(g, "\n", Parse(z)));
    assert again == Block(g, "\n\n", Norm(2, Parse(z)));
    assert Source(again)[|g| + 3] == '\n' && u[|g| + 3] == '$';
  }

  lemma OpeningStays(body: string)
    requires OpensTwice(body)
    ensures |NormBody(body)| >= 3 && NormBody(body)[0] == '\n' && NormBody(body)[1] == '$' && NormBody(body)[2] == '$'
  {
    hide CapFrom, Trim, Trimmed;
    var c := Trim(body);
    TrimKeepsOpening(body);
    TrimTrims(body);
    CapOfTrimmed(c);
    assert Cap(c)[..2][0] == c[..2][0] && Cap(c)[..2][1] == c[..2][1];
  }

  lemma NewlineIsIntact()
    ensures IntactBody("\n")
  {
    assert "\n"[1..] + "$" == "$";
  }

  lemma BlankBody()
    ensures NormBody("\n") == "\n\n"
  {
    assert "\n" == "\n" + "" + "\n"[1..];
    assert TrimLeft("\n") == TrimLeft("");
    assert Trim("\n") == "";
  }

  lemma {:induction false} SomeOpeningMoves(n: nat, d: Doc)
    requires Canonical(d) && SomeOpensTwice(d) && (n == 0 || n == 2)
    ensures Source(Norm(n, Parse(Source(Norm(n, d))))) != Source(Norm(n, d))
    decreases d
  {
    hide Parse, NormGap, NormBody, IntactGap, IntactBody, OpensTwice;
    var g, b, s := NormGap(n, d.gap), NormBody(d.body), Source(Norm(2, d.rest));
    if OpensTwice(d.body) {
      OpeningMoves(n, d.gap, d.body, s);
    } else {
      SomeOpeningMoves(2, d.rest);
      NormGapIsIntact(n, d.gap);
      NormBodyIsIntact(d.body);
      ParseBlock(g, b, s);
      NormGapIsNormal(n, d.gap);
      NormBodyIsNormal(d.body);
      var again := Norm(2, Parse(s));
      assert Norm(n, Block(g, b, Parse(s))) == Block(g, b, again);
      SourcesDiffer(g, b, Source(again), s);
    }
  }

  lemma SourcesDiffer(g: string, b: string, x: string, y: string)
    requires x != y
    ensures g + ("$$" + (b + ("$$" + x))) != g + ("$$" + (b + ("$$" + y)))
  {
    var k := |g| + 2 + |b| + 2;
    assert (g + ("$$" + (b + ("$$" + x))))[k..] == x;
    assert (g + ("$$" + (b + ("$$" + y))))[k..] == y;
  }

  /** Isolating twice changes nothing more if and only if no block's body opens
      with two dollars. */
  lemma IsolateIsIdempotentExactly(t: string)
    ensures Isolate(Isolate(t)) == Isolate(t) <==> !SomeOpensTwice(Parse(t))
  {
    hide Parse, Source, Norm, Canonical, SomeOpensTwice, Isolate;
    var d := Parse(t);
    ParseIsReading(t);
    IsolateIs(t);
    IsolateIs(Isolate(t));
    if SomeOpensTwice(d) {
      SomeOpeningMoves(0, d);
    } else {
      IsolatedReading(t);
      NormIsNormal(0, d);
    }
  }

  // ---- Texts without three dollars in a row ----

  predicate NoTripleDollar(t: string) {
    forall i :: 0 <= i && i + 2 < |t| ==> !(t[i] == '$' && t[i + 1] == '$' && t[i + 2] == '$')
  }

  lemma {:induction false} TripleInSource(d: Doc)
    requires SomeOpensTwice(d)
    ensures !NoTripleDollar(Source(d))
  {
    var t := Source(d);
    if OpensTwice(d.body) {
      assert t[|d.gap|] == '$' && t[|d.gap| + 1] == '$' && t[|d.gap| + 2] == d.body[0];
    } else {
      TripleInSource(d.rest);
      var s := Source(d.rest);
      var i :| 0 <= i && i + 2 < |s| && s[i] == '$' && s[i + 1] == '$' && s[i + 2] == '$';
      var k := |d.gap| + 2 + |d.body| + 2 + i;
      assert t[k] == s[i] && t[k + 1] == s[i + 1] && t[k + 2] == s[i + 2];
    }
  }

  lemma IsolateIsIdempotentWithoutTripleDollars(t: string)
    requires NoTripleDollar(t)
    ensures Isolate(Isolate(t)) == Isolate(t)
  {
    hide Parse, Source, Canonical, Isolate;
    ParseIsReading(t);
    if SomeOpensTwice(Parse(t)) {
      TripleInSource(Parse(t));
    }
    IsolateIsIdempotentExactly(t);
  }

  /** A text on which the second pass goes on moving things. */
  lemma FourDollarsMoveTwice()
    ensures Isolate(Isolate("$$$$a$$")) != Isolate("$$$$a$$")
  {
    hide Parse, Isolate;
    var t := "" + ("$$" + ("$$a" + ("$$" + "")));
    assert t == "$$$$a$$";
    assert "$$a"[1..] + "$" == "$a$" && "$a$"[1..] == "a$" && "a$"[1..] == "$";
    assert "" + "$" == "$";
    ParseBlock("", "$$a", "");
    IsolateIsIdempotentExactly(t);
  }

  // ---- What becomes of a body ----

  lemma {:induction false} CappedStays(n: nat, s: string)
    requires n <= 2 && NoBlankRun(s) && Leading(s) <= 2 - n
    ensures CapFrom(n, s) == s
    decreases |s|
  {
    if s != "" {
      var r := s[1..];
      assert forall i :: 0 <= i < |r| ==> r[i] == s[i + 1];
      assert NoBlankRun(r);
      if s[0] != '\n' {
        LeadingIsShort(r);
        CappedStays(0, r);
      } else {
        CappedStays(n + 1, r);
      }
    }
  }

  lemma LeadingAreNewlines(s: string)
    ensures Leading(s) > 2 ==> |s| > 2 && s[0] == '\n' && s[1] == '\n' && s[2] == '\n'
  {
    if s != "" && s[1..] != "" {
      assert Leading(s[1..]) > 1 ==> Leading(s[1..][1..]) > 0;
    }
  }

  lemma LeadingIsShort(s: string)
    requires NoBlankRun(s)
    ensures Leading(s) <= 2
  {
    LeadingAreNewlines(s);
  }

  /** A body comes through unchanged, but for whitespace at its ends, if and only
      if it holds no run of blank lines. */
  lemma BodyIsKeptExactly(body: string)
    ensures NormBody(body) == "\n" + Trim(body) + "\n" <==> NoBlankRun(Trim(body))
  {
    var c := Trim(body);
    assert NormBody(body)[1..|NormBody(body)| - 1] == Cap(c);
    assert ("\n" + c + "\n")[1..|"\n" + c + "\n"| - 1] == c;
    CapLeavesNoRun(0, c);
    if NoBlankRun(c) {
      LeadingIsShort(c);
      CappedStays(0, c);
    }
  }

  /** `e` has the blocks of `d`, each with its body on lines of its own and
      otherwise unchanged. */
  predicate KeepsMath(d: Doc, e: Doc) {
    match d
    case End(_) => e.End?
    case Block(_, body, rest) => e.Block? && e.body == "\n" + Trim(body) + "\n" && KeepsMath(rest, e.rest)
  }

  predicate NoBlankRunsInMath(d: Doc) {
    d.Block? ==> NoBlankRun(Trim(d.body)) && NoBlankRunsInMath(d.rest)
  }

  lemma {:induction false} NormKeepsMathExactly(n: nat, d: Doc)
    ensures KeepsMath(d, Norm(n, d)) <==> NoBlankRunsInMath(d)
    decreases d
  {
    hide NormGap, NormBody, NoBlankRun, Trim, CapFrom;
    if d.Block? {
      BodyIsKeptExactly(d.body);
      NormKeepsMathExactly(2, d.rest);
    }
  }

  /** The result is the text of blocks in the same order, and they hold the same
      mathematics, but for whitespace at the ends, if and only if no block holds
      a run of blank lines; where no body opens with two dollars the result is
      also read as those blocks. */
  lemma IsolateKeepsMathExactly(t: string)
    ensures var d := Parse(t);
            && Isolate(t) == Source(Norm(0, d))
            && (KeepsMath(d, Norm(0, d)) <==> NoBlankRunsInMath(d))
            && (!SomeOpensTwice(d) ==> (KeepsMath(d, Parse(Isolate(t))) <==> NoBlankRunsInMath(d)))
  {
    hide Parse, Isolate, Norm, KeepsMath, NoBlankRunsInMath, SomeOpensTwice;
    IsolateIs(t);
    NormKeepsMathExactly(0, Parse(t));
    if !SomeOpensTwice(Parse(t)) {
      IsolatedReading(t);
    }
  }

  /** A block that is not kept: the blank line in it is lost. */
  lemma BlankLinesInABlockAreCut()
    ensures Isolate("$$a\n\n\nb$$") == "\n\n$$\na\n\nb\n$$\n\n"
  {
    hide Parse, Isolate, CapFrom, Tail, Newlines, Trim;
    var body := "a\n\n\nb";
    var t := "" + ("$$" + (body + ("$$" + "")));
    assert t == "$$a\n\n\nb$$";
    SmallBody();
    ParseBlock("", body, "");
    EmptyIsEnd();
    IsolateIs(t);
    SmallNorm();
    assert Norm(0, Block("", body, End(""))) == Block("\n\n", "\na\n\nb\n", End("\n\n"));
    assert Source(Block("\n\n", "\na\n\nb\n", End("\n\n"))) == "\n\n" + ("$$" + ("\na\n\nb\n" + ("$$" + "\n\n")));
  }

  lemma EmptyIsEnd()
    ensures Parse("") == End("")
  {
  }

  lemma SmallBody()
    ensures IntactGap("") && IntactBody("a\n\n\nb")
  {
    hide NoDollars;
    PlainHasNoDollars("a\n\n\nb"[1..] + "$");
    PlainHasNoDollars("" + "$");
  }

  lemma SmallNorm()
    ensures NormGap(0, "") == "\n\n" && NormBody("a\n\n\nb") == "\na\n\nb\n"
    ensures Newlines(2) + CapFrom(2, "") == "\n\n"
  {
    hide Newlines, Trim;
    TwoNewlines();
    SmallCap();
    assert CapFrom(0, "") == "" && CapFrom(2, "") == "" && Tail(0, "") == 0;
    assert NormGap(0, "") == Newlines(0) + ("" + Newlines(2));
    assert "\n" + "a\n\nb" + "\n" == "\na\n\nb\n";
  }

  lemma SmallCap()
    ensures Trim("a\n\n\nb") == "a\n\n\nb" && Cap("a\n\n\nb") == "a\n\nb"
  {
    hide CapFrom;
    var b := "a\n\n\nb";
    assert TrimLeft(b) == b && TrimRight(b) == b;
    TwoNewlines();
    assert Newlines(3) == "\n" + Newlines(2) == "\n\n\n";
    CapOfLetter('b', "", 0);
    CapOfNoText();
    CapCutsARun(0, 3, "b");
    CapOfLetter('a', "\n\n\nb", 0);
    assert Newlines(3) + "b" == "\n\n\nb" && "b" + "" == "b";
    assert "a" + "\n\n\nb" == b && "a" + ("\n\n" + "b") == "a\n\nb";
  }

  lemma CapOfLetter(c: char, s: string, n: nat)
    requires c != '\n'
    ensures CapFrom(n, [c] + s) == [c] + CapFrom(0, s)
  {
    assert ([c] + s)[1..] == s;
  }

  lemma CapOfNoText()
    ensures CapFrom(0, "") == ""
  {
  }
}
