/** Texts as lists of characters and directives: what is read from a text, and
    what the three passes of the expansion do to a text that is printed. */
module InputTokens {
  import opened Text
  import opened Inputs

  // ---- Reading a text ----

  /** A text with its directives made out. Each knows the directory of the file
      it was read from. */
  datatype Tokens = Nil | Chr(c: char, rest: Tokens) | Dir(kind: Kind, arg: string, from: string, rest: Tokens)

  function PrintDir(k: Kind, arg: string): string {
    Head(k) + (arg + "}")
  }

  function Print(toks: Tokens): string {
    match toks
    case Nil => ""
    case Chr(c, rest) => [c] + Print(rest)
    case Dir(k, arg, _, rest) => PrintDir(k, arg) + Print(rest)
  }

  function Append(a: Tokens, b: Tokens): Tokens {
    match a
    case Nil => b
    case Chr(c, rest) => Chr(c, Append(rest, b))
    case Dir(k, arg, from, rest) => Dir(k, arg, from, Append(rest, b))
  }

  /** Plain text in front of a list. */
  function Chars(s: string, toks: Tokens): Tokens {
    if s == "" then toks else Chr(s[0], Chars(s[1..], toks))
  }

  function AnyKind(t: string): (k: Option<Kind>)
    ensures k.Some? ==> MatchEnd(t, k.value).Some?
    ensures k.None? ==> forall other :: MatchEnd(t, other) == None
  {
    if MatchEnd(t, Input).Some? then Some(Input)
    else if MatchEnd(t, Include).Some? then Some(Include)
    else if MatchEnd(t, Bib).Some? then Some(Bib)
    else if MatchEnd(t, Style).Some? then Some(Style)
    else None
  }

  /** The directives of a text, from left to right. */
  function Read(t: string, dir: string): Tokens
    decreases |t|
  {
    if t == "" then Nil
    else
      var k := AnyKind(t);
      if k == None then Chr(t[0], Read(t[1..], dir))
      else Dir(k.value, Argument(t, k.value), dir, Read(t[MatchEnd(t, k.value).value..], dir))
  }

  predicate ValidArg(k: Kind, arg: string) {
    (forall i :: 0 <= i < |arg| ==> arg[i] != '{' && arg[i] != '}') && (arg != "" || k == Style)
  }

  /** No directive of the kind starts at the start of `s`, whatever follows `s`:
      its head is contradicted within `s`, or its argument is. */
  predicate DeadHead(s: string, k: Kind) {
    || (exists j :: 0 <= j < |s| && j < |Head(k)| && s[j] != Head(k)[j])
    || (|Head(k)| <= |s| &&
        var q := NextBrace(s, |Head(k)|);
        q < |s| && (s[q] == '{' || (q == |Head(k)| && k != Style)))
  }

  /** A text that holds no directive and does not end in the beginning of one. */
  predicate Quiet(s: string) {
    s == "" || (DeadHead(s, Input) && DeadHead(s, Include) && DeadHead(s, Bib) && DeadHead(s, Style) && Quiet(s[1..]))
  }

  /** No directive starts where the list has a character. */
  predicate Proper(toks: Tokens) {
    match toks
    case Nil => true
    case Chr(c, rest) => AnyKind([c] + Print(rest)) == None && Proper(rest)
    case Dir(k, arg, _, rest) => ValidArg(k, arg) && Proper(rest)
  }

  predicate Owned(toks: Tokens, dir: string) {
    match toks
    case Nil => true
    case Chr(_, rest) => Owned(rest, dir)
    case Dir(_, _, from, rest) => from == dir && Owned(rest, dir)
  }

  lemma ReadDir(t: string, k: Kind)
    requires MatchEnd(t, k).Some?
    ensures ValidArg(k, Argument(t, k)) && t == PrintDir(k, Argument(t, k)) + t[MatchEnd(t, k).value..]
  {
    hide NextBrace, Head;
    var n := |Head(k)|;
    var q := NextBrace(t, n);
    var arg := Argument(t, k);
    forall i | 0 <= i < |arg| ensures arg[i] != '{' && arg[i] != '}' {
      NoBraceBefore(t, n, n + i);
    }
    assert t[0..n] == Head(k) && t[q] == '}';
    assert t == t[0..n] + (arg + "}") + t[q + 1..];
  }

  /** Reading is exact: the list is printed as the text it was read from. */
  lemma {:induction false} ReadIsExact(t: string, dir: string)
    ensures Print(Read(t, dir)) == t && Proper(Read(t, dir)) && Owned(Read(t, dir), dir)
    decreases |t|
  {
    hide MatchEnd, PrintDir, ValidArg, AnyKind;
    if t != "" {
      var k := AnyKind(t);
      if k == None {
        ReadIsExact(t[1..], dir);
        assert [t[0]] + t[1..] == t;
      } else {
        ReadIsExact(t[MatchEnd(t, k.value).value..], dir);
        ReadDir(t, k.value);
      }
    }
  }

  // ---- Quiet texts ----

  lemma {:induction false} NextBraceAppend(s: string, tail: string, i: nat)
    requires i <= |s| && NextBrace(s, i) < |s|
    ensures NextBrace(s + tail, i) == NextBrace(s, i)
    decreases |s| - i
  {
    if i < |s| && s[i] != '{' && s[i] != '}' {
      NextBraceAppend(s, tail, i + 1);
    }
  }

  lemma DeadStays(s: string, k: Kind, tail: string)
    requires DeadHead(s, k)
    ensures MatchEnd(s + tail, k) == None
  {
    hide NextBrace, Head;
    var t := s + tail;
    if At(t, 0, Head(k)) {
      assert forall j :: 0 <= j < |s| && j < |Head(k)| ==> s[j] == t[0..|Head(k)|][j];
      NextBraceAppend(s, tail, |Head(k)|);
    }
  }

  lemma {:induction false} QuietPlain(x: string, y: string)
    requires Quiet(y) && forall i :: 0 <= i < |x| ==> x[i] != '\\'
    ensures Quiet(x + y)
    decreases |x|
  {
    hide DeadHead;
    if x == "" {
      assert x + y == y;
    } else {
      QuietPlain(x[1..], y);
      assert (x + y)[1..] == x[1..] + y;
      NoBackslashIsDead(x + y, Input);
      NoBackslashIsDead(x + y, Include);
      NoBackslashIsDead(x + y, Bib);
      NoBackslashIsDead(x + y, Style);
    }
  }

  predicate NoBackslash(s: string) {
    forall i :: 0 <= i < |s| ==> s[i] != '\\'
  }

  lemma PlainIsQuiet(s: string)
    requires NoBackslash(s)
    ensures Quiet(s)
  {
    hide DeadHead;
    QuietPlain(s, "");
    assert s + "" == s;
  }

  lemma NoBackslashIsDead(s: string, k: Kind)
    requires s != "" && s[0] != '\\'
    ensures DeadHead(s, k)
  {
    assert Head(k)[0] == '\\' && s[0] != Head(k)[0];
  }

  /** The argument of a directive hides no other directive: it holds no opening
      brace, and its end is no part of a head. */
  lemma ClosedIsDead(s: string, k: Kind)
    requires s != "" && s[|s| - 1] == '}' && forall i :: 0 <= i < |s| ==> s[i] != '{'
    ensures DeadHead(s, k)
  {
    var j := if |s| <= |Head(k)| then |s| - 1 else |Head(k)| - 1;
    HeadBraces(k, j);
    assert s[j] != Head(k)[j];
  }

  lemma HeadBraces(k: Kind, j: nat)
    requires j < |Head(k)|
    ensures Head(k)[j] != '}' && (Head(k)[j] == '{' <==> j == |Head(k)| - 1)
    ensures Head(k)[j] == '\\' <==> j == 0
  {
  }

  lemma {:induction false} QuietClosed(s: string)
    requires s != "" && s[|s| - 1] == '}' && forall i :: 0 <= i < |s| ==> s[i] != '{'
    ensures Quiet(s)
    decreases |s|
  {
    hide DeadHead;
    ClosedIsDead(s, Input);
    ClosedIsDead(s, Include);
    ClosedIsDead(s, Bib);
    ClosedIsDead(s, Style);
    if |s| > 1 {
      QuietClosed(s[1..]);
    }
  }

  /** Behind its first character a directive is quiet. */
  lemma DirIsQuietBehind(k: Kind, arg: string)
    requires ValidArg(k, arg)
    ensures Quiet(PrintDir(k, arg)[1..])
  {
    hide Quiet, Head;
    HeadIsLong(k);
    var x := Head(k)[1..];
    forall i | 0 <= i < |x| ensures x[i] != '\\' {
      HeadBraces(k, i + 1);
    }
    QuietClosed(arg + "}");
    QuietPlain(x, arg + "}");
    assert PrintDir(k, arg)[1..] == x + (arg + "}");
  }

  lemma HeadIsLong(k: Kind)
    ensures |Head(k)| > 1
  {
  }

  lemma {:induction false} ArgBrace(s: string, i: nat, n: nat)
    requires i <= n < |s| && s[n] == '}'
    requires forall j :: i <= j < n ==> s[j] != '{' && s[j] != '}'
    ensures NextBrace(s, i) == n
    decreases n - i
  {
    if i < n {
      ArgBrace(s, i + 1, n);
    }
  }

  /** A printed directive is matched as what it is. */
  lemma DirMatches(k: Kind, arg: string, u: string)
    requires ValidArg(k, arg)
    ensures var t := PrintDir(k, arg) + u;
            && MatchEnd(t, k) == Some(|PrintDir(k, arg)|)
            && Argument(t, k) == arg
            && t[..|PrintDir(k, arg)|] == PrintDir(k, arg) && t[|PrintDir(k, arg)|..] == u
  {
    hide NextBrace, Head;
    var t := PrintDir(k, arg) + u;
    var n := |Head(k)| + |arg|;
    assert t[0..|Head(k)|] == Head(k);
    assert t[|Head(k)|..n] == arg && t[n] == '}';
    forall j | |Head(k)| <= j < n ensures t[j] != '{' && t[j] != '}' {
      assert t[j] == arg[j - |Head(k)|];
    }
    ArgBrace(t, |Head(k)|, n);
  }

  /** And as nothing else. */
  lemma DirMatchesOnly(k: Kind, arg: string, u: string, other: Kind)
    requires other != k
    ensures MatchEnd(PrintDir(k, arg) + u, other) == None
  {
    hide NextBrace;
    var t := PrintDir(k, arg) + u;
    var j := HeadsDiffer(k, other);
    assert t[j] == Head(k)[j];
    AtHas(t, 0, Head(other), j);
  }

  lemma HeadsDiffer(k: Kind, other: Kind) returns (j: nat)
    requires k != other
    ensures j < |Head(k)| && j < |Head(other)| && Head(k)[j] != Head(other)[j]
  {
    j := if (k == Input || k == Include) && (other == Input || other == Include) then 3
         else if k == Input || k == Include || other == Input || other == Include then 1
         else 13;
  }

  // ---- The passes over printed text ----

  lemma {:induction false} InputsPassQuiet(p: Project, s: string, u: string, dir: string, depth: nat, seen: seq<string>)
    requires Quiet(s) && depth <= MAX_DEPTH
    ensures ExpandInputs(p, s + u, dir, depth, seen) == Copied(s, ExpandInputs(p, u, dir, depth, seen))
    decreases |s|
  {
    hide ExpandInputs, DeadHead, MatchEnd;
    if s == "" {
      assert s + u == u;
      assert "" + ExpandInputs(p, u, dir, depth, seen).text == ExpandInputs(p, u, dir, depth, seen).text;
    } else {
      DeadStays(s, Input, u);
      DeadStays(s, Include, u);
      InputsUnfold(p, s + u, dir, depth, seen);
      assert (s + u)[1..] == s[1..] + u;
      InputsPassQuiet(p, s[1..], u, dir, depth, seen);
      ConsCopied([s[0]], s[1..], s, ExpandInputs(p, u, dir, depth, seen));
    }
  }

  lemma ConsCopied(a: string, b: string, s: string, o: Out)
    requires a + b == s
    ensures Copied(a, Copied(b, o)) == Copied(s, o)
  {
    Associate(a, b, o.text);
  }

  /** The pass for inputs copies directives of the other kinds. */
  lemma InputsPassDir(p: Project, k: Kind, arg: string, u: string, dir: string, depth: nat, seen: seq<string>)
    requires ValidArg(k, arg) && (k == Bib || k == Style) && depth <= MAX_DEPTH
    ensures ExpandInputs(p, PrintDir(k, arg) + u, dir, depth, seen)
         == Copied(PrintDir(k, arg), ExpandInputs(p, u, dir, depth, seen))
  {
    hide ExpandInputs, MatchEnd, Quiet;
    var d := PrintDir(k, arg);
    DirMatchesOnly(k, arg, u, Input);
    DirMatchesOnly(k, arg, u, Include);
    InputsUnfold(p, d + u, dir, depth, seen);
    assert (d + u)[1..] == d[1..] + u;
    DirIsQuietBehind(k, arg);
    InputsPassQuiet(p, d[1..], u, dir, depth, seen);
    ConsCopied([d[0]], d[1..], d, ExpandInputs(p, u, dir, depth, seen));
  }

  lemma StylesUnfold(t: string)
    requires t != ""
    ensures DropStyles(t) ==
            var e := MatchEnd(t, Style);
            if e.Some? then DropStyles(t[e.value..]) else [t[0]] + DropStyles(t[1..])
  {
  }

  lemma {:induction false} StylesPassQuiet(s: string, u: string)
    requires Quiet(s)
    ensures DropStyles(s + u) == s + DropStyles(u)
    decreases |s|
  {
    hide DropStyles, DeadHead, MatchEnd;
    if s == "" {
      assert s + u == u;
    } else {
      DeadStays(s, Style, u);
      StylesUnfold(s + u);
      assert (s + u)[1..] == s[1..] + u;
      StylesPassQuiet(s[1..], u);
      Associate([s[0]], s[1..], DropStyles(u));
      assert [s[0]] + s[1..] == s;
    }
  }

  lemma StylesPassDir(k: Kind, arg: string, u: string)
    requires ValidArg(k, arg)
    ensures DropStyles(PrintDir(k, arg) + u) == (if k == Style then "" else PrintDir(k, arg)) + DropStyles(u)
  {
    hide DropStyles, MatchEnd, Quiet;
    var d := PrintDir(k, arg);
    StylesUnfold(d + u);
    if k == Style {
      DirMatches(k, arg, u);
    } else {
      DirMatchesOnly(k, arg, u, Style);
      assert (d + u)[1..] == d[1..] + u;
      DirIsQuietBehind(k, arg);
      StylesPassQuiet(d[1..], u);
      Associate([d[0]], d[1..], DropStyles(u));
      assert [d[0]] + d[1..] == d;
    }
  }

  lemma {:induction false} BibsPassQuiet(p: Project, s: string, u: string, depth: nat, seen: seq<string>)
    requires Quiet(s) && depth <= MAX_DEPTH
    ensures ExpandBibs(p, s + u, depth, seen) == Copied(s, ExpandBibs(p, u, depth, seen))
    decreases |s|
  {
    hide ExpandBibs, DeadHead, MatchEnd;
    if s == "" {
      assert s + u == u;
      assert "" + ExpandBibs(p, u, depth, seen).text == ExpandBibs(p, u, depth, seen).text;
    } else {
      DeadStays(s, Bib, u);
      BibsUnfold(p, s + u, depth, seen);
      assert (s + u)[1..] == s[1..] + u;
      BibsPassQuiet(p, s[1..], u, depth, seen);
      ConsCopied([s[0]], s[1..], s, ExpandBibs(p, u, depth, seen));
    }
  }

  /** The pass for bibliographies copies other directives, and bibliographies
      that nothing is found for. */
  lemma BibsPassDir(p: Project, k: Kind, arg: string, u: string, depth: nat, seen: seq<string>)
    requires ValidArg(k, arg) && (k == Bib ==> BibTarget(p, arg) == None) && depth <= MAX_DEPTH
    ensures ExpandBibs(p, PrintDir(k, arg) + u, depth, seen)
         == Copied(PrintDir(k, arg), ExpandBibs(p, u, depth, seen))
  {
    hide ExpandBibs, MatchEnd, Quiet, BibTarget;
    var d := PrintDir(k, arg);
    BibsUnfold(p, d + u, depth, seen);
    if k == Bib {
      DirMatches(k, arg, u);
    } else {
      DirMatchesOnly(k, arg, u, Bib);
      assert (d + u)[1..] == d[1..] + u;
      DirIsQuietBehind(k, arg);
      BibsPassQuiet(p, d[1..], u, depth, seen);
      ConsCopied([d[0]], d[1..], d, ExpandBibs(p, u, depth, seen));
    }
  }

  // ---- The passes at a character ----

  lemma InputsPassChar(p: Project, c: char, u: string, dir: string, depth: nat, seen: seq<string>)
    requires InputKind([c] + u) == None && depth <= MAX_DEPTH
    ensures ExpandInputs(p, [c] + u, dir, depth, seen) == Copied([c], ExpandInputs(p, u, dir, depth, seen))
  {
    hide ExpandInputs, MatchEnd, InputKind;
    InputsUnfold(p, [c] + u, dir, depth, seen);
    assert ([c] + u)[1..] == u;
  }

  lemma StylesPassChar(c: char, u: string)
    requires MatchEnd([c] + u, Style) == None
    ensures DropStyles([c] + u) == [c] + DropStyles(u)
  {
    hide DropStyles, MatchEnd;
    StylesUnfold([c] + u);
    assert ([c] + u)[1..] == u;
  }

  lemma BibsPassChar(p: Project, c: char, u: string, depth: nat, seen: seq<string>)
    requires MatchEnd([c] + u, Bib) == None && depth <= MAX_DEPTH
    ensures ExpandBibs(p, [c] + u, depth, seen) == Copied([c], ExpandBibs(p, u, depth, seen))
  {
    hide ExpandBibs, MatchEnd;
    BibsUnfold(p, [c] + u, depth, seen);
    assert ([c] + u)[1..] == u;
  }
}
