/** Display math in Markdown: every `$$...$$` block is put on a paragraph of its
    own, and labels are taken out of the blocks. A text is read as gaps and
    blocks; both transformations are functions on that reading. */
module MathLayout {
  import opened Text

  // ---- Reading a text as gaps and blocks ----

  datatype Doc = End(gap: string) | Block(gap: string, body: string, rest: Doc)

  /** The first position at or after `i` where two dollars stand. */
  function FindDollars(t: string, i: nat): (p: Option<nat>)
    ensures p.Some? ==> i <= p.value && p.value + 2 <= |t| && t[p.value] == '$' && t[p.value + 1] == '$'
    decreases |t| - i
  {
    if |t| < i + 2 then None
    else if t[i] == '$' && t[i + 1] == '$' then Some(i)
    else FindDollars(t, i + 1)
  }

  /** `\$\$([\s\S]+?)\$\$`, matched from the left: a block opens at the first pair
      of dollars and closes at the next pair that leaves its body one character.
      When the first pair has no partner, no later pair has one. */
  function Parse(t: string): Doc
    decreases |t|
  {
    var p := FindDollars(t, 0);
    if p == None then End(t)
    else
      var q := FindDollars(t, p.value + 3);
      if q == None then End(t) else Block(t[..p.value], t[p.value + 2..q.value], Parse(t[q.value + 2..]))
  }

  function Source(d: Doc): string {
    match d
    case End(gap) => gap
    case Block(gap, body, rest) => gap + ("$$" + (body + ("$$" + Source(rest))))
  }

  // ---- Isolating the blocks ----

  function Render(d: Doc): string {
    match d
    case End(gap) => gap
    case Block(gap, body, rest) => gap + ("\n\n$$\n" + (Trim(body) + ("\n$$\n\n" + Render(rest))))
  }

  /** Runs of newlines are cut to two; `n` newlines have been kept just before. */
  function CapFrom(n: nat, s: string): string
    decreases |s|
  {
    if s == "" then ""
    else if s[0] == '\n' then (if n < 2 then "\n" + CapFrom(n + 1, s[1..]) else CapFrom(n, s[1..]))
    else [s[0]] + CapFrom(0, s[1..])
  }

  /** `_EXCESS_BLANK_LINES.sub("\n\n", s)`. */
  function Cap(s: string): string {
    CapFrom(0, s)
  }

  /** `isolate_display_math`. */
  function Isolate(t: string): string {
    Cap(Render(Parse(t)))
  }

  // ---- Facts about dollars ----

  /** No two dollars stand next to each other. */
  predicate NoDollars(s: string) {
    |s| < 2 || (!(s[0] == '$' && s[1] == '$') && NoDollars(s[1..]))
  }

  lemma {:induction false} NoDollarsAppend(a: string, b: string)
    requires NoDollars(a) && NoDollars(b) && (a == "" || a[|a| - 1] != '$' || b == "" || b[0] != '$')
    ensures NoDollars(a + b)
  {
    if a == "" {
      assert a + b == b;
    } else {
      assert (a + b)[1..] == a[1..] + b;
      NoDollarsAppend(a[1..], b);
    }
  }

  lemma {:induction false} NoDollarsPrefix(a: string, b: string)
    requires NoDollars(a + b)
    ensures NoDollars(a)
  {
    if |a| >= 2 {
      assert (a + b)[1..] == a[1..] + b;
      NoDollarsPrefix(a[1..], b);
    }
  }

  lemma {:induction false} NoDollarsSuffix(s: string, i: nat)
    requires NoDollars(s) && i <= |s|
    ensures NoDollars(s[i..])
    decreases i
  {
    if i == 0 {
      assert s[0..] == s;
    } else {
      if |s| >= 2 {
        NoDollarsSuffix(s[1..], i - 1);
        assert s[1..][i - 1..] == s[i..];
      }
    }
  }

  /** The only dollar, if there is one, is the last character. */
  lemma {:induction false} PlainHasNoDollars(s: string)
    requires forall i :: 0 <= i && i + 1 < |s| ==> s[i] != '$'
    ensures NoDollars(s)
    decreases |s|
  {
    if |s| >= 2 {
      PlainHasNoDollars(s[1..]);
    }
  }

  /** The search steps over text without dollars and finds the pair behind it. */
  lemma {:induction false} FindsPast(a: string, x: string, rest: string)
    requires NoDollars(x + "$")
    ensures FindDollars(a + x + "$$" + rest, |a|) == Some(|a| + |x|)
    decreases |x|
  {
    var t := a + x + "$$" + rest;
    if x == "" {
      assert t[|a|] == '$' && t[|a| + 1] == '$';
    } else {
      assert (x + "$")[1..] == x[1..] + "$";
      FindsPast(a + [x[0]], x[1..], rest);
      assert a + [x[0]] + x[1..] == a + x;
      assert t[|a|] == (x + "$")[0] && t[|a| + 1] == (x + "$")[1];
    }
  }

  /** What stands between a search's start and its hit holds no dollars. */
  lemma {:induction false} FoundIsFirst(t: string, i: nat)
    requires i <= |t|
    ensures FindDollars(t, i).Some? ==> NoDollars(t[i..FindDollars(t, i).value] + "$")
    ensures FindDollars(t, i).None? <==> NoDollars(t[i..])
    decreases |t| - i
  {
    if |t| >= i + 2 && !(t[i] == '$' && t[i + 1] == '$') {
      FoundIsFirst(t, i + 1);
      assert t[i..][1..] == t[i + 1..];
      var p := FindDollars(t, i);
      if p.Some? {
        assert t[i..p.value] == [t[i]] + t[i + 1..p.value];
        assert (t[i..p.value] + "$")[1..] == t[i + 1..p.value] + "$";
        assert (t[i..p.value] + "$")[0] == t[i];
        assert p.value == i + 1 ==> t[i] != '$';
        assert p.value > i + 1 ==> (t[i..p.value] + "$")[1] == t[i + 1];
      }
    }
  }

  // ---- What a reading looks like ----

  predicate IntactGap(g: string) {
    NoDollars(g + "$")
  }

  /** A body is not empty and holds no closing pair before its end. */
  predicate IntactBody(b: string) {
    b != "" && NoDollars(b[1..] + "$")
  }

  /** A text without any block. */
  predicate HasNoBlock(g: string) {
    var p := FindDollars(g, 0);
    p == None || FindDollars(g, p.value + 3) == None
  }

  predicate Canonical(d: Doc) {
    match d
    case End(gap) => HasNoBlock(gap)
    case Block(gap, body, rest) => IntactGap(gap) && IntactBody(body) && Canonical(rest)
  }

  lemma ParseUnfolds(t: string)
    ensures var p := FindDollars(t, 0);
            Parse(t) == if p == None then End(t)
                        else
                          var q := FindDollars(t, p.value + 3);
                          if q == None then End(t)
                          else Block(t[..p.value], t[p.value + 2..q.value], Parse(t[q.value + 2..]))
  {
  }

  lemma SplitAtBlock(t: string, p: nat, q: nat)
    requires p + 3 <= q && q + 2 <= |t|
    requires t[p] == '$' && t[p + 1] == '$' && t[q] == '$' && t[q + 1] == '$'
    ensures t == t[..p] + ("$$" + (t[p + 2..q] + ("$$" + t[q + 2..])))
  {
    assert t[..p] + "$$" == t[..p + 2];
    assert t[p + 2..] == t[p + 2..q] + ("$$" + t[q + 2..]);
  }

  lemma FoundBlockIsIntact(t: string, p: nat, q: nat)
    requires FindDollars(t, 0) == Some(p) && FindDollars(t, p + 3) == Some(q)
    ensures IntactGap(t[..p]) && IntactBody(t[p + 2..q])
  {
    hide FindDollars, NoDollars;
    FoundIsFirst(t, 0);
    FoundIsFirst(t, p + 3);
    assert t[0..p] == t[..p];
    assert t[p + 2..q][1..] == t[p + 3..q];
  }

  /** Reading is exact: it gives a canonical reading of just this text. */
  lemma {:induction false} ParseIsReading(t: string)
    ensures Canonical(Parse(t)) && Source(Parse(t)) == t
    decreases |t|
  {
    hide Parse, FindDollars, IntactGap, IntactBody, Canonical, Source;
    ParseUnfolds(t);
    var p := FindDollars(t, 0);
    if p == None || FindDollars(t, p.value + 3) == None {
      EndIsReading(t);
    } else {
      var q := FindDollars(t, p.value + 3);
      var gap, body, rest := t[..p.value], t[p.value + 2..q.value], t[q.value + 2..];
      ParseIsReading(rest);
      FoundBlockIsIntact(t, p.value, q.value);
      SplitAtBlock(t, p.value, q.value);
      ReadingGrows(gap, body, rest);
    }
  }

  lemma EndIsReading(t: string)
    requires HasNoBlock(t)
    ensures Canonical(End(t)) && Source(End(t)) == t
  {
  }

  lemma ReadingGrows(gap: string, body: string, rest: string)
    requires IntactGap(gap) && IntactBody(body) && Canonical(Parse(rest)) && Source(Parse(rest)) == rest
    ensures Canonical(Block(gap, body, Parse(rest)))
    ensures Source(Block(gap, body, Parse(rest))) == gap + ("$$" + (body + ("$$" + rest)))
  {
    hide Parse, IntactGap, IntactBody;
  }

  /** A gap, a block and what follows are read as such. */
  lemma ParseBlock(gap: string, body: string, rest: string)
    requires IntactGap(gap) && IntactBody(body)
    ensures Parse(gap + ("$$" + (body + ("$$" + rest)))) == Block(gap, body, Parse(rest))
  {
    hide Parse, FindDollars, NoDollars, IntactGap, IntactBody;
    var t := gap + ("$$" + (body + ("$$" + rest)));
    BlockIsFound(gap, body, rest);
    BlockSlices(gap, body, rest);
    ParseUnfolds(t);
  }

  lemma BlockIsFound(gap: string, body: string, rest: string)
    requires IntactGap(gap) && IntactBody(body)
    ensures var t := gap + ("$$" + (body + ("$$" + rest)));
            && body != "" && FindDollars(t, 0) == Some(|gap|)
            && FindDollars(t, |gap| + 3) == Some(|gap| + 3 + |body[1..]|)
  {
    hide FindDollars, NoDollars;
    BlockSlices(gap, body, rest);
    FindsPast("", gap, body + ("$$" + rest));
    FindsPast(gap + "$$" + [body[0]], body[1..], rest);
  }

  lemma BlockSlices(gap: string, body: string, rest: string)
    requires body != ""
    ensures var t := gap + ("$$" + (body + ("$$" + rest)));
            && t == "" + gap + "$$" + (body + ("$$" + rest))
            && t == gap + "$$" + [body[0]] + body[1..] + "$$" + rest
            && |gap + "$$" + [body[0]]| == |gap| + 3
            && |gap| + 3 + |body[1..]| + 2 <= |t|
            && t[..|gap|] == gap
            && t[|gap| + 2..|gap| + 3 + |body[1..]|] == body
            && t[|gap| + 3 + |body[1..]| + 2..] == rest
  {
    var t := gap + ("$$" + (body + ("$$" + rest)));
    assert [body[0]] + body[1..] == body;
    assert "" + gap == gap;
    Associate(gap, "$$", body + ("$$" + rest));
    Associate(gap + "$$", [body[0]], body[1..]);
    Associate(gap + "$$", body, "$$" + rest);
    Associate(gap + "$$" + body, "$$", rest);
  }

  /** A canonical reading is the reading of its own text. */
  lemma {:induction false} CanonicalIsParsed(d: Doc)
    requires Canonical(d)
    ensures Parse(Source(d)) == d
  {
    if d.Block? {
      CanonicalIsParsed(d.rest);
      ParseBlock(d.gap, d.body, Source(d.rest));
    }
  }

  // ---- Facts about newlines ----

  function Newlines(k: nat): string {
    if k == 0 then "" else "\n" + Newlines(k - 1)
  }

  /** The newlines kept at the end of `s`. */
  function Tail(n: nat, s: string): nat
    decreases |s|
  {
    if s == "" then n else Tail(if s[0] != '\n' then 0 else if n < 2 then n + 1 else n, s[1..])
  }

  lemma CapUnfolds(n: nat, s: string)
    ensures CapFrom(n, s) ==
            if s == "" then ""
            else if s[0] == '\n' then (if n < 2 then "\n" + CapFrom(n + 1, s[1..]) else CapFrom(n, s[1..]))
            else [s[0]] + CapFrom(0, s[1..])
  {
  }

  /** A run of newlines of any length becomes two at most; the rest is kept. */
  lemma {:induction false} CapCutsARun(n: nat, k: nat, x: string)
    requires n <= 2 && (x == "" || x[0] != '\n')
    ensures CapFrom(n, Newlines(k) + x) == Newlines(if n + k <= 2 then k else 2 - n) + CapFrom(0, x)
    decreases k
  {
    hide CapFrom;
    var s := Newlines(k) + x;
    CapUnfolds(n, s);
    CapUnfolds(0, s);
    if k == 0 {
      assert s == x;
      assert Newlines(0) + CapFrom(0, x) == CapFrom(0, x);
    } else {
      assert s[0] == '\n' && s[1..] == Newlines(k - 1) + x;
      if n < 2 {
        CapCutsARun(n + 1, k - 1, x);
      } else {
        CapCutsARun(n, k - 1, x);
      }
    }
  }

  lemma {:induction false} CapAppend(n: nat, a: string, b: string)
    ensures CapFrom(n, a + b) == CapFrom(n, a) + CapFrom(Tail(n, a), b)
    ensures Tail(n, a + b) == Tail(Tail(n, a), b)
    decreases |a|
  {
    if a == "" {
      assert a + b == b;
    } else {
      var m := if a[0] != '\n' then 0 else if n < 2 then n + 1 else n;
      assert (a + b)[0] == a[0] && (a + b)[1..] == a[1..] + b;
      CapAppend(m, a[1..], b);
    }
  }

  lemma {:induction false} TailIsSmall(n: nat, s: string)
    requires n <= 2
    ensures Tail(n, s) <= 2
    decreases |s|
  {
    if s != "" {
      TailIsSmall(if s[0] != '\n' then 0 else if n < 2 then n + 1 else n, s[1..]);
    }
  }

  lemma {:induction false} CapIsIdempotent(n: nat, s: string)
    requires n <= 2
    ensures CapFrom(n, CapFrom(n, s)) == CapFrom(n, s) && Tail(n, CapFrom(n, s)) == Tail(n, s)
    decreases |s|
  {
    if s != "" {
      if s[0] != '\n' {
        CapIsIdempotent(0, s[1..]);
        assert CapFrom(n, s)[1..] == CapFrom(0, s[1..]);
      } else if n < 2 {
        CapIsIdempotent(n + 1, s[1..]);
        assert CapFrom(n, s)[1..] == CapFrom(n + 1, s[1..]);
      } else {
        CapIsIdempotent(n, s[1..]);
      }
    }
  }

  lemma {:induction false} CapKeepsNoDollars(n: nat, s: string)
    requires NoDollars(s)
    ensures NoDollars(CapFrom(n, s))
    decreases |s|
  {
    if s != "" {
      var m := if s[0] != '\n' then 0 else if n < 2 then n + 1 else n;
      CapKeepsNoDollars(m, s[1..]);
      var c := CapFrom(m, s[1..]);
      if s[0] != '\n' {
        assert CapFrom(n, s)[1..] == c;
        if s[0] == '$' && c != "" && c[0] == '$' {
          CapKeepsHead(s[1..]);
        }
      } else if n < 2 {
        assert CapFrom(n, s)[1..] == c;
      }
    }
  }

  lemma CapKeepsHead(s: string)
    ensures s == "" <==> CapFrom(0, s) == ""
    ensures s != "" ==> CapFrom(0, s)[0] == s[0]
  {
  }
}
