/** Removal of pandoc's `<div>` wrappers: recognised openers are dropped, and for
    each of them one later closer. */
module DivWrappers {
  import opened Text

  // ---- Lines ----

  /** `s.split("\n")`. */
  function Lines(s: string): (lines: seq<string>)
    ensures lines != []
  {
    Split(s, '\n')
  }

  /** `"\n".join(lines)`. */
  function Join(lines: seq<string>): string {
    if lines == [] then ""
    else if |lines| == 1 then lines[0]
    else lines[0] + ("\n" + Join(lines[1..]))
  }

  predicate IsLine(s: string) {
    forall k :: 0 <= k < |s| ==> s[k] != '\n'
  }

  predicate AreLines(lines: seq<string>) {
    forall k :: 0 <= k < |lines| ==> IsLine(lines[k])
  }

  lemma {:induction false} LinesJoinBack(s: string)
    ensures AreLines(Lines(s)) && Join(Lines(s)) == s
    decreases |s|
  {
    if s != "" {
      var rest := Lines(s[1..]);
      LinesJoinBack(s[1..]);
      if s[0] == '\n' {
        assert Lines(s)[1..] == rest;
        assert Join(Lines(s)) == "" + ("\n" + s[1..]);
      } else {
        var first := [s[0]] + rest[0];
        assert IsLine(rest[0]);
        assert Lines(s)[1..] == rest[1..];
        if |rest| > 1 {
          assert first + ("\n" + Join(rest[1..])) == [s[0]] + (rest[0] + ("\n" + Join(rest[1..])));
        }
      }
    }
  }

  lemma {:induction false} LinesOfLine(x: string, rest: string)
    requires IsLine(x)
    ensures Lines(x) == [x]
    ensures Lines(x + ("\n" + rest)) == [x] + Lines(rest)
    decreases |x|
  {
    if x == "" {
      assert x + ("\n" + rest) == "\n" + rest;
      assert ("\n" + rest)[1..] == rest;
    } else {
      assert IsLine(x[1..]);
      LinesOfLine(x[1..], rest);
      var t := x + ("\n" + rest);
      assert t[0] == x[0] && t[1..] == x[1..] + ("\n" + rest);
      assert [x[0]] + x[1..] == x;
    }
  }

  lemma {:induction false} JoinedLinesAreBack(lines: seq<string>)
    requires lines != [] && AreLines(lines)
    ensures Lines(Join(lines)) == lines
    decreases |lines|
  {
    LinesOfLine(lines[0], if |lines| == 1 then "" else Join(lines[1..]));
    if |lines| > 1 {
      JoinedLinesAreBack(lines[1..]);
      assert [lines[0]] + lines[1..] == lines;
    } else {
      assert [lines[0]] == lines;
    }
  }

  // ---- Kinds of lines ----

  /** The end of a recognised attribute at `i`: any id, or a class that pandoc
      gives to figures. */
  function AttributeEnd(s: string, i: nat): (e: Option<nat>)
    ensures e.Some? ==> i < e.value <= |s|
  {
    if At(s, i, "id=\"") then
      var q := NextQuote(s, i + 4);
      if q == |s| then None else Some(q + 1)
    else if At(s, i, "class=\"figure\"") then Some(i + 14)
    else if At(s, i, "class=\"figure*\"") then Some(i + 15)
    else if At(s, i, "class=\"center\"") then Some(i + 14)
    else None
  }

  function NextQuote(s: string, i: nat): (q: nat)
    requires i <= |s|
    ensures i <= q <= |s|
    decreases |s| - i
  {
    if i == |s| || s[i] == '"' then i else NextQuote(s, i + 1)
  }

  /** The end of the attributes from `i` on, each after whitespace. */
  function AttributesEnd(s: string, i: nat): (e: nat)
    requires i <= |s|
    ensures i <= e <= |s|
    decreases |s| - i
  {
    var j := SkipSpaces(s, i);
    if j == i then i
    else
      var e := AttributeEnd(s, j);
      if e == None then i else AttributesEnd(s, e.value)
  }

  /** `_DIV_WRAPPER_OPEN` on a stripped line. */
  predicate IsWrapperOpener(s: string) {
    && At(s, 0, "<div")
    && var e := AttributesEnd(s, 4);
       && e > 4
       && var k := SkipSpaces(s, e);
          k + 1 == |s| && s[k] == '>'
  }

  /** A line that is one opening `div` tag. */
  predicate IsOpener(s: string) {
    && At(s, 0, "<div") && |s| > 4 && (IsSpace(s[4]) || s[4] == '>')
    && s[|s| - 1] == '>' && forall k :: 0 < k < |s| ==> s[k] != '<'
  }

  datatype Kind = Wrapper | Other | Close | Plain

  /** `_DIV_CLOSE` on a stripped line matches just the closing tag. */
  function KindOf(line: string): Kind {
    var s := Trim(line);
    if IsWrapperOpener(s) then Wrapper
    else if s == "</div>" then Close
    else if IsOpener(s) then Other
    else Plain
  }

  // ---- The removal ----

  /** The lines that stay, with `pending` closers still to be dropped. */
  function Kept(lines: seq<string>, pending: nat): seq<string> {
    if lines == [] then []
    else
      match KindOf(lines[0])
      case Wrapper => Kept(lines[1..], pending + 1)
      case Close => if pending > 0 then Kept(lines[1..], pending - 1) else [lines[0]] + Kept(lines[1..], 0)
      case _ => [lines[0]] + Kept(lines[1..], pending)
  }

  function StrippedDivs(markdown: string): string {
    Join(Kept(Lines(markdown), 0))
  }

  /** `_strip_pandoc_div_wrappers`. */
  method StripDivWrappers(markdown: string) returns (result: string)
    ensures result == StrippedDivs(markdown)
  {
    hide KindOf, Kept;
    var lines := Lines(markdown);
    var out: seq<string> := [];
    var pendingCloses := 0;
    var i := 0;
    assert lines[0..] == lines;
    while i < |lines|
      invariant i <= |lines|
      invariant out + Kept(lines[i..], pendingCloses) == Kept(lines, 0)
    {
      var line := lines[i];
      var kind := KindOf(line);
      KeptUnfolds(line, lines[i + 1..], pendingCloses);
      assert lines[i..] == [line] + lines[i + 1..];
      i := i + 1;
      if kind == Wrapper {
        pendingCloses := pendingCloses + 1;
      } else if pendingCloses > 0 && kind == Close {
        pendingCloses := pendingCloses - 1;
      } else {
        AppendMoves(out, line, Kept(lines[i..], pendingCloses));
        out := out + [line];
      }
    }
    NothingTallied(pendingCloses);
    assert lines[i..] == [] && out + [] == out;
    result := Join(out);
  }

  lemma AppendMoves(out: seq<string>, line: string, rest: seq<string>)
    ensures out + ([line] + rest) == (out + [line]) + rest
  {
  }

  // ---- Nesting ----

  /** Every closer closes an open `div` and every `div` is closed; `depth` are
      open already. */
  predicate Nested(lines: seq<string>, depth: nat) {
    if lines == [] then depth == 0
    else
      match KindOf(lines[0])
      case Wrapper => Nested(lines[1..], depth + 1)
      case Other => Nested(lines[1..], depth + 1)
      case Close => depth > 0 && Nested(lines[1..], depth - 1)
      case Plain => Nested(lines[1..], depth)
  }

  function Tally(kind: Kind, lines: seq<string>): nat {
    if lines == [] then 0 else (if KindOf(lines[0]) == kind then 1 else 0) + Tally(kind, lines[1..])
  }

  lemma KeptUnfolds(l: string, rest: seq<string>, pending: nat)
    ensures Kept([l] + rest, pending) ==
            match KindOf(l)
            case Wrapper => Kept(rest, pending + 1)
            case Close => if pending > 0 then Kept(rest, pending - 1) else [l] + Kept(rest, 0)
            case _ => [l] + Kept(rest, pending)
  {
    assert ([l] + rest)[1..] == rest;
  }

  lemma NestedUnfolds(l: string, rest: seq<string>, depth: nat)
    ensures Nested([l] + rest, depth) ==
            match KindOf(l)
            case Wrapper => Nested(rest, depth + 1)
            case Other => Nested(rest, depth + 1)
            case Close => depth > 0 && Nested(rest, depth - 1)
            case Plain => Nested(rest, depth)
  {
    assert ([l] + rest)[1..] == rest;
  }

  lemma TallyUnfolds(kind: Kind, l: string, rest: seq<string>)
    ensures Tally(kind, [l] + rest) == (if KindOf(l) == kind then 1 else 0) + Tally(kind, rest)
  {
    assert ([l] + rest)[1..] == rest;
  }

  /** Nested lines stay nested: the divs that are open in the result are those
      open in the source, less the closers still to be dropped. */
  lemma {:induction false} RemovalKeepsNesting(lines: seq<string>, depth: nat, pending: nat)
    requires Nested(lines, depth) && pending <= depth
    ensures Nested(Kept(lines, pending), depth - pending)
    ensures Tally(Close, lines) - Tally(Close, Kept(lines, pending)) == Tally(Wrapper, lines) + pending
    decreases |lines|
  {
    hide KindOf, Kept, Nested, Tally;
    if lines == [] {
      NothingKept(depth, pending);
    } else {
      var l, rest := lines[0], lines[1..];
      assert lines == [l] + rest;
      KeptUnfolds(l, rest, pending);
      NestedUnfolds(l, rest, depth);
      TallyUnfolds(Close, l, rest);
      TallyUnfolds(Wrapper, l, rest);
      match KindOf(l)
      case Wrapper => RemovalKeepsNesting(rest, depth + 1, pending + 1);
      case Other =>
        RemovalKeepsNesting(rest, depth + 1, pending);
        NestedUnfolds(l, Kept(rest, pending), depth - pending);
        TallyUnfolds(Close, l, Kept(rest, pending));
      case Close =>
        if pending > 0 {
          RemovalKeepsNesting(rest, depth - 1, pending - 1);
        } else {
          RemovalKeepsNesting(rest, depth - 1, 0);
          NestedUnfolds(l, Kept(rest, 0), depth);
          TallyUnfolds(Close, l, Kept(rest, 0));
        }
      case Plain =>
        RemovalKeepsNesting(rest, depth, pending);
        NestedUnfolds(l, Kept(rest, pending), depth - pending);
        TallyUnfolds(Close, l, Kept(rest, pending));
    }
  }

  lemma NothingKept(depth: nat, pending: nat)
    requires Nested([], depth) && pending <= depth
    ensures Kept([], pending) == [] && depth == 0 && Nested([], 0) && Tally(Close, []) == 0 && Tally(Wrapper, []) == 0
  {
  }

  /** The lines that are neither wrapper openers nor closers. */
  function Content(lines: seq<string>): seq<string> {
    if lines == [] then []
    else (if KindOf(lines[0]) == Other || KindOf(lines[0]) == Plain then [lines[0]] else []) + Content(lines[1..])
  }

  lemma ContentUnfolds(l: string, rest: seq<string>)
    ensures Content([l] + rest) == (if KindOf(l) == Other || KindOf(l) == Plain then [l] else []) + Content(rest)
  {
    assert ([l] + rest)[1..] == rest;
  }

  /** On any lines: no wrapper opener stays, the lines that are neither wrapper
      openers nor closers stay as they are and in order, and at most as many
      closers go as openers. */
  lemma {:induction false} RemovalOfAnyLines(lines: seq<string>, pending: nat)
    ensures Tally(Wrapper, Kept(lines, pending)) == 0
    ensures Content(Kept(lines, pending)) == Content(lines)
    ensures Tally(Other, Kept(lines, pending)) == Tally(Other, lines)
    ensures Tally(Close, lines) <= Tally(Close, Kept(lines, pending)) + Tally(Wrapper, lines) + pending
    ensures Tally(Close, Kept(lines, pending)) <= Tally(Close, lines)
    decreases |lines|
  {
    hide KindOf, Kept, Tally, Content;
    if lines == [] {
      NothingTallied(pending);
    } else {
      var l, rest := lines[0], lines[1..];
      assert lines == [l] + rest;
      var kind := KindOf(l);
      var p := if kind == Wrapper then pending + 1 else if kind == Close && pending > 0 then pending - 1 else pending;
      RemovalOfAnyLines(rest, p);
      KeptUnfolds(l, rest, pending);
      TallyFour(l, rest);
      TallyFour(l, Kept(rest, p));
      ContentUnfolds(l, rest);
      ContentUnfolds(l, Kept(rest, p));
    }
  }

  lemma TallyFour(l: string, rest: seq<string>)
    ensures forall kind :: Tally(kind, [l] + rest) == (if KindOf(l) == kind then 1 else 0) + Tally(kind, rest)
  {
    forall kind ensures Tally(kind, [l] + rest) == (if KindOf(l) == kind then 1 else 0) + Tally(kind, rest) {
      TallyUnfolds(kind, l, rest);
    }
  }

  lemma NothingTallied(pending: nat)
    ensures Kept([], pending) == [] && forall kind :: Tally(kind, []) == 0
  {
  }

  // ---- Partners ----

  /** The divs that are open, the innermost on top. */
  datatype Stack = Empty | Push(wrapper: bool, below: Stack)

  function Depth(s: Stack): nat {
    if s.Empty? then 0 else 1 + Depth(s.below)
  }

  function Wrappers(s: Stack): nat {
    if s.Empty? then 0 else (if s.wrapper then 1 else 0) + Wrappers(s.below)
  }

  /** Positions of the closers that are dropped; `at` is the position of the
      first of `lines`. */
  function Dropped(lines: seq<string>, pending: nat, at: nat): (r: set<nat>)
    ensures forall k :: k in r ==> at <= k < at + |lines|
  {
    if lines == [] then {}
    else
      match KindOf(lines[0])
      case Wrapper => Dropped(lines[1..], pending + 1, at + 1)
      case Close =>
        if pending > 0 then {at} + Dropped(lines[1..], pending - 1, at + 1) else Dropped(lines[1..], 0, at + 1)
      case _ => Dropped(lines[1..], pending, at + 1)
  }

  /** Positions of the closers that close a wrapper. */
  function Partners(lines: seq<string>, open: Stack, at: nat): (r: set<nat>)
    ensures forall k :: k in r ==> at <= k < at + |lines|
  {
    if lines == [] then {}
    else
      match KindOf(lines[0])
      case Wrapper => Partners(lines[1..], Push(true, open), at + 1)
      case Other => Partners(lines[1..], Push(false, open), at + 1)
      case Close =>
        if open.Empty? then Partners(lines[1..], open, at + 1)
        else (if open.wrapper then {at} else {}) + Partners(lines[1..], open.below, at + 1)
      case Plain => Partners(lines[1..], open, at + 1)
  }

  /** The lines without the wrapper openers and without those at the positions in
      `gone`. */
  function Without(lines: seq<string>, gone: set<nat>, at: nat): seq<string> {
    if lines == [] then []
    else (if KindOf(lines[0]) == Wrapper || at in gone then [] else [lines[0]]) + Without(lines[1..], gone, at + 1)
  }

  lemma {:induction false} WithoutSame(lines: seq<string>, a: set<nat>, b: set<nat>, at: nat)
    requires forall k :: at <= k < at + |lines| ==> (k in a <==> k in b)
    ensures Without(lines, a, at) == Without(lines, b, at)
    decreases |lines|
  {
    hide KindOf;
    if lines != [] {
      WithoutSame(lines[1..], a, b, at + 1);
    }
  }

  /** What is kept is everything but the wrapper openers and the dropped closers. */
  lemma {:induction false} KeptIsWithoutDropped(lines: seq<string>, pending: nat, at: nat)
    ensures Kept(lines, pending) == Without(lines, Dropped(lines, pending, at), at)
    decreases |lines|
  {
    hide KindOf;
    if lines != [] {
      var kind := KindOf(lines[0]);
      var p := if kind == Wrapper then pending + 1 else if kind == Close && pending > 0 then pending - 1 else pending;
      KeptIsWithoutDropped(lines[1..], p, at + 1);
      WithoutSame(lines[1..], Dropped(lines[1..], p, at + 1), Dropped(lines, pending, at), at + 1);
    }
  }

  /** No other div is opened inside a wrapper. */
  predicate NoneInside(lines: seq<string>, open: Stack) {
    if lines == [] then true
    else
      match KindOf(lines[0])
      case Wrapper => NoneInside(lines[1..], Push(true, open))
      case Other => Wrappers(open) == 0 && NoneInside(lines[1..], Push(false, open))
      case Close => NoneInside(lines[1..], if open.Empty? then open else open.below)
      case Plain => NoneInside(lines[1..], open)
  }

  /** Some other div stands inside a wrapper already. */
  predicate Crossed(s: Stack) {
    s.Push? && ((!s.wrapper && Wrappers(s.below) > 0) || Crossed(s.below))
  }

  lemma DroppedUnfold(lines: seq<string>, pending: nat, at: nat)
    ensures Dropped(lines, pending, at) ==
            if lines == [] then {}
            else
              match KindOf(lines[0])
              case Wrapper => Dropped(lines[1..], pending + 1, at + 1)
              case Close =>
                if pending > 0 then {at} + Dropped(lines[1..], pending - 1, at + 1) else Dropped(lines[1..], 0, at + 1)
              case _ => Dropped(lines[1..], pending, at + 1)
  {
    hide KindOf;
  }

  lemma PartnersUnfold(lines: seq<string>, open: Stack, at: nat)
    ensures lines == [] ==> Partners(lines, open, at) == {} && NoneInside(lines, open)
    ensures lines != [] ==>
              match KindOf(lines[0])
              case Wrapper =>
                && Partners(lines, open, at) == Partners(lines[1..], Push(true, open), at + 1)
                && NoneInside(lines, open) == NoneInside(lines[1..], Push(true, open))
              case Other =>
                && Partners(lines, open, at) == Partners(lines[1..], Push(false, open), at + 1)
                && NoneInside(lines, open) == (Wrappers(open) == 0 && NoneInside(lines[1..], Push(false, open)))
              case Close =>
                open.Push? ==>
                  && Partners(lines, open, at)
                  == (if open.wrapper then {at} else {}) + Partners(lines[1..], open.below, at + 1)
                  && NoneInside(lines, open) == NoneInside(lines[1..], open.below)
              case Plain =>
                && Partners(lines, open, at) == Partners(lines[1..], open, at + 1)
                && NoneInside(lines, open) == NoneInside(lines[1..], open)
  {
    hide KindOf;
  }

  /** As long as only partners have been dropped, as many closers are pending as
      wrappers are open. From there on the dropped closers are the partners of
      the wrappers if and only if no other div is, or comes to be, inside one. */
  lemma {:induction false} DroppedArePartnersFrom(lines: seq<string>, open: Stack, pending: nat, at: nat)
    requires Nested(lines, Depth(open)) && pending == Wrappers(open)
    ensures Dropped(lines, pending, at) == Partners(lines, open, at) <==> !Crossed(open) && NoneInside(lines, open)
    decreases |lines|
  {
    hide KindOf, Dropped, Partners, NoneInside;
    DroppedUnfold(lines, pending, at);
    PartnersUnfold(lines, open, at);
    if lines != [] {
      match KindOf(lines[0])
      case Wrapper => DroppedArePartnersFrom(lines[1..], Push(true, open), pending + 1, at + 1);
      case Other => DroppedArePartnersFrom(lines[1..], Push(false, open), pending, at + 1);
      case Plain => DroppedArePartnersFrom(lines[1..], open, pending, at + 1);
      case Close =>
        if open.wrapper {
          DroppedArePartnersFrom(lines[1..], open.below, pending - 1, at + 1);
          OneMoreEach(Dropped(lines[1..], pending - 1, at + 1), Partners(lines[1..], open.below, at + 1), at);
        } else if pending > 0 {
          assert at in Dropped(lines, pending, at) && at !in Partners(lines, open, at);
          assert Crossed(open);
        } else {
          DroppedArePartnersFrom(lines[1..], open.below, pending, at + 1);
        }
    }
  }

  lemma OneMoreEach(a: set<nat>, b: set<nat>, x: nat)
    requires x !in a && x !in b
    ensures {x} + a == {x} + b <==> a == b
  {
    if {x} + a == {x} + b {
      assert a == ({x} + a) - {x};
      assert b == ({x} + b) - {x};
    }
  }

  // ---- The whole text ----

  lemma {:induction false} KeptAreLines(lines: seq<string>, pending: nat)
    requires AreLines(lines)
    ensures AreLines(Kept(lines, pending))
    decreases |lines|
  {
    hide KindOf;
    if lines != [] {
      var kind := KindOf(lines[0]);
      assert AreLines(lines[1..]);
      assert IsLine(lines[0]);
      KeptAreLines(lines[1..],
        if kind == Wrapper then pending + 1 else if kind == Close && pending > 0 then pending - 1 else pending);
    }
  }

  /** The lines of the result are the lines that were kept; when none was, the
      result is one empty line. */
  lemma ResultLines(markdown: string)
    ensures var kept := Kept(Lines(markdown), 0);
            Lines(StrippedDivs(markdown)) == if kept == [] then [""] else kept
  {
    LinesJoinBack(markdown);
    KeptAreLines(Lines(markdown), 0);
    if Kept(Lines(markdown), 0) != [] {
      JoinedLinesAreBack(Kept(Lines(markdown), 0));
    }
  }

  lemma EmptyLineIsPlain()
    ensures KindOf("") == Plain && Nested([""], 0) && forall kind :: Tally(kind, [""]) == if kind == Plain then 1 else 0
  {
    assert [""][1..] == [];
    assert Nested([], 0);
    assert forall kind :: Tally(kind, []) == 0;
  }

  /** On a well-nested text the result is well nested, holds no wrapper opener,
      and has lost as many closers as openers. */
  lemma StripKeepsNesting(markdown: string)
    requires Nested(Lines(markdown), 0)
    ensures var before, after := Lines(markdown), Lines(StrippedDivs(markdown));
            && Nested(after, 0)
            && Tally(Wrapper, after) == 0
            && Tally(Close, before) - Tally(Close, after) == Tally(Wrapper, before)
            && Tally(Other, after) == Tally(Other, before)
  {
    hide KindOf, Kept, Nested, Tally, StrippedDivs;
    RemovalKeepsNesting(Lines(markdown), 0, 0);
    RemovalOfAnyLines(Lines(markdown), 0);
    ResultLines(markdown);
    EmptyLineIsPlain();
    NothingTallied(0);
  }

  /** Between any two closers stands a line of another kind, wrapper openers not
      counted; `just` says that the last such line was a closer. */
  predicate Spaced(lines: seq<string>, just: bool) {
    if lines == [] then true
    else
      match KindOf(lines[0])
      case Close => !just && Spaced(lines[1..], true)
      case Wrapper => Spaced(lines[1..], just)
      case _ => Spaced(lines[1..], false)
  }

  /** Behind a closer of a spaced text the next line kept is no closer. */
  lemma {:induction false} NextKeptIsNoCloser(lines: seq<string>, pending: nat, depth: nat)
    requires Spaced(lines, true) && Nested(lines, depth) && depth > 0
    ensures Kept(lines, pending) != [] && KindOf(Kept(lines, pending)[0]) != Close
    decreases |lines|
  {
    hide KindOf;
    if KindOf(lines[0]) == Wrapper {
      NextKeptIsNoCloser(lines[1..], pending + 1, depth + 1);
    }
  }

  lemma DepthHoldsWrappers(s: Stack)
    ensures Wrappers(s) <= Depth(s)
  {
  }

  /** On spaced lines a wrong closer shows: what is kept is what dropping the
      partners would keep if and only if no other div is inside a wrapper. */
  lemma {:induction false} KeptShowsPartnersFrom(lines: seq<string>, open: Stack, pending: nat, at: nat, just: bool)
    requires Nested(lines, Depth(open)) && pending == Wrappers(open) && Spaced(lines, just)
    ensures Kept(lines, pending) == Without(lines, Partners(lines, open, at), at) <==> !Crossed(open) && NoneInside(lines, open)
    decreases |lines|, 1
  {
    hide KindOf, Partners, NoneInside;
    PartnersUnfold(lines, open, at);
    if lines != [] {
      var rest := lines[1..];
      match KindOf(lines[0])
      case Wrapper =>
        KeptShowsPartnersFrom(rest, Push(true, open), pending + 1, at + 1, just);
        WithoutSame(rest, Partners(rest, Push(true, open), at + 1), Partners(lines, open, at), at + 1);
      case Other =>
        KeptShowsPartnersFrom(rest, Push(false, open), pending, at + 1, false);
        WithoutSame(rest, Partners(rest, Push(false, open), at + 1), Partners(lines, open, at), at + 1);
        SameTail(lines[0], Kept(rest, pending), Without(rest, Partners(lines, open, at), at + 1));
      case Plain =>
        KeptShowsPartnersFrom(rest, open, pending, at + 1, false);
        WithoutSame(rest, Partners(rest, open, at + 1), Partners(lines, open, at), at + 1);
        SameTail(lines[0], Kept(rest, pending), Without(rest, Partners(lines, open, at), at + 1));
      case Close =>
        KeptShowsAtCloser(lines, open, pending, at, just);
    }
  }

  lemma SameTail(l: string, a: seq<string>, b: seq<string>)
    ensures [l] + a == [l] + b <==> a == b
  {
    assert ([l] + a)[1..] == a && ([l] + b)[1..] == b;
  }

  lemma {:induction false} KeptShowsAtCloser(lines: seq<string>, open: Stack, pending: nat, at: nat, just: bool)
    requires lines != [] && KindOf(lines[0]) == Close
    requires Nested(lines, Depth(open)) && pending == Wrappers(open) && Spaced(lines, just)
    ensures Kept(lines, pending) == Without(lines, Partners(lines, open, at), at) <==> !Crossed(open) && NoneInside(lines, open)
    decreases |lines|, 0
  {
    hide KindOf;
    var rest := lines[1..];
    if open.wrapper {
      KeptShowsPartnersFrom(rest, open.below, pending - 1, at + 1, true);
      WithoutSame(rest, Partners(rest, open.below, at + 1), Partners(lines, open, at), at + 1);
    } else if pending > 0 {
      DepthHoldsWrappers(open.below);
      NextKeptIsNoCloser(rest, pending - 1, Depth(open.below));
      assert Without(lines, Partners(lines, open, at), at)[0] == lines[0];
      assert Kept(lines, pending) == Kept(rest, pending - 1);
      assert Crossed(open);
    } else {
      KeptShowsPartnersFrom(rest, open.below, pending, at + 1, true);
      WithoutSame(rest, Partners(rest, open.below, at + 1), Partners(lines, open, at), at + 1);
      SameTail(lines[0], Kept(rest, 0), Without(rest, Partners(lines, open, at), at + 1));
    }
  }

  /** On a well-nested text the lines kept are all but the wrapper openers and the
      dropped closers, and the dropped closers are the wrappers' own partners if
      and only if no other div is opened inside a wrapper. */
  lemma DroppedArePartnersExactly(markdown: string)
    requires Nested(Lines(markdown), 0)
    ensures var lines := Lines(markdown);
            && Kept(lines, 0) == Without(lines, Dropped(lines, 0, 0), 0)
            && (Dropped(lines, 0, 0) == Partners(lines, Empty, 0) <==> NoneInside(lines, Empty))
  {
    hide KindOf, Nested, Dropped, Partners, NoneInside, Kept, Without;
    DroppedArePartnersFrom(Lines(markdown), Empty, 0, 0);
    KeptIsWithoutDropped(Lines(markdown), 0, 0);
  }

  /** The text in which each wrapper has lost its opener and its own closer. */
  function Unwrapped(markdown: string): string {
    Join(Without(Lines(markdown), Partners(Lines(markdown), Empty, 0), 0))
  }

  /** The result is the text in which each wrapper has lost its opener and its own
      closer where no other div is opened inside a wrapper; on spaced lines,
      whose closers can be told apart by where they stand, only there. */
  lemma StripUnwrapsExactly(markdown: string)
    requires Nested(Lines(markdown), 0)
    ensures NoneInside(Lines(markdown), Empty) ==> StrippedDivs(markdown) == Unwrapped(markdown)
    ensures Spaced(Lines(markdown), false) ==>
              (StrippedDivs(markdown) == Unwrapped(markdown) <==> NoneInside(Lines(markdown), Empty))
  {
    hide KindOf, Nested, Dropped, Partners, NoneInside, Kept, Without, Join, Lines, Spaced, Content, AreLines;
    var lines := Lines(markdown);
    var gone := Partners(lines, Empty, 0);
    DroppedArePartnersExactly(markdown);
    if Spaced(lines, false) {
      KeptShowsPartnersFrom(lines, Empty, 0, 0, false);
      LinesJoinBack(markdown);
      KeptAreLines(lines, 0);
      WithoutAreLines(lines, gone, 0);
      RemovalOfAnyLines(lines, 0);
      PartnersAreClosers(lines, Empty, 0);
      WithoutKeepsContent(lines, gone, 0);
      if StrippedDivs(markdown) == Unwrapped(markdown) {
        SameTextSameLines(Kept(lines, 0), Without(lines, gone, 0));
      }
    }
  }

  lemma SameTextSameLines(a: seq<string>, b: seq<string>)
    requires AreLines(a) && AreLines(b) && Content(a) == Content(b) && Join(a) == Join(b)
    ensures a == b
  {
    hide KindOf, AreLines;
    EmptyLineIsPlain();
    assert Content([""]) == [""] && Content([]) == [] by {
      ContentUnfolds("", []);
      assert [""] + [] == [""];
    }
    if a != [] {
      JoinedLinesAreBack(a);
    }
    if b != [] {
      JoinedLinesAreBack(b);
    }
  }

  lemma {:induction false} PartnersAreClosers(lines: seq<string>, open: Stack, at: nat)
    ensures forall k :: k in Partners(lines, open, at) ==> KindOf(lines[k - at]) == Close
    decreases |lines|
  {
    hide KindOf;
    if lines != [] {
      var kind := KindOf(lines[0]);
      var next := match kind
                  case Wrapper => Push(true, open)
                  case Other => Push(false, open)
                  case Close => if open.Empty? then open else open.below
                  case Plain => open;
      PartnersAreClosers(lines[1..], next, at + 1);
      forall k | k in Partners(lines, open, at) ensures KindOf(lines[k - at]) == Close {
        if k > at {
          assert k in Partners(lines[1..], next, at + 1);
          assert lines[1..][k - (at + 1)] == lines[k - at];
        }
      }
    }
  }

  lemma {:induction false} WithoutKeepsContent(lines: seq<string>, gone: set<nat>, at: nat)
    requires forall k :: k in gone && at <= k < at + |lines| ==> KindOf(lines[k - at]) == Close
    ensures Content(Without(lines, gone, at)) == Content(lines)
    decreases |lines|
  {
    hide KindOf;
    if lines != [] {
      forall k | k in gone && at + 1 <= k < at + 1 + |lines[1..]| ensures KindOf(lines[1..][k - (at + 1)]) == Close {
        assert lines[1..][k - (at + 1)] == lines[k - at];
      }
      WithoutKeepsContent(lines[1..], gone, at + 1);
      var rest := Without(lines[1..], gone, at + 1);
      assert at in gone ==> KindOf(lines[at - at]) == Close;
      assert [] + rest == rest && [] + Content(rest) == Content(rest);
      ContentUnfolds(lines[0], Without(lines[1..], gone, at + 1));
      assert lines == [lines[0]] + lines[1..];
      ContentUnfolds(lines[0], lines[1..]);
    }
  }

  lemma {:induction false} WithoutAreLines(lines: seq<string>, gone: set<nat>, at: nat)
    requires AreLines(lines)
    ensures AreLines(Without(lines, gone, at))
    decreases |lines|
  {
    hide KindOf;
    if lines != [] {
      assert AreLines(lines[1..]);
      assert IsLine(lines[0]);
      WithoutAreLines(lines[1..], gone, at + 1);
    }
  }

  const CENTRE: string := "<div class=\"center\">"

  lemma CentreText()
    ensures |CENTRE| == 20 && CENTRE[0..4] == "<div" && CENTRE[4] == ' ' && CENTRE[5] == 'c'
    ensures CENTRE[12] == 'c' && CENTRE[19] == '>'
  {
  }

  lemma CentreClass()
    ensures CENTRE[5..19] == "class=\"center\""
  {
    var s := CENTRE;
    assert |s[5..19]| == 14 == |"class=\"center\""|;
  }

  lemma CentreAttribute()
    ensures AttributeEnd(CENTRE, 5) == Some(19)
  {
    var s := CENTRE;
    hide SkipSpaces, NextQuote;
    CentreText();
    CentreClass();
    assert s[5..9] != "id=\"" by {
      assert s[5..9][0] == 'c';
    }
    assert s[5..19] != "class=\"figure\"" by {
      assert s[5..19][7] == 'c' && "class=\"figure\""[7] == 'f';
    }
    assert s[5..20] != "class=\"figure*\"" by {
      assert s[5..20][7] == 'c' && "class=\"figure*\""[7] == 'f';
    }
  }

  lemma CentreIsWrapper()
    ensures KindOf(CENTRE) == Wrapper
  {
    hide AttributeEnd;
    var s := CENTRE;
    CentreText();
    CentreAttribute();
    assert Trim(s) == s;
    assert SkipSpaces(s, 5) == 5 && SkipSpaces(s, 4) == 5;
    assert SkipSpaces(s, 19) == 19;
    assert AttributesEnd(s, 19) == 19;
    assert AttributesEnd(s, 4) == 19;
  }

  lemma BareDivIsOther()
    ensures KindOf("<div>") == Other
  {
    var s := "<div>";
    assert Trim(s) == s;
    assert s[0..4] == "<div";
    assert SkipSpaces(s, 4) == 4;
    assert AttributesEnd(s, 4) == 4;
  }

  lemma CloserIsClose()
    ensures KindOf("</div>") == Close
  {
    var c := "</div>";
    assert Trim(c) == c;
    assert c[0..4] != "<div" by {
      assert c[0..4][1] == '/';
    }
  }

  lemma LetterIsPlain()
    ensures KindOf("x") == Plain
  {
    var s := "x";
    assert Trim(s) == s;
  }

  const CENTRED: seq<string> := [CENTRE, "<div>", "</div>", "x", "</div>"]

  lemma CentredKinds()
    ensures KindOf(CENTRED[0]) == Wrapper && KindOf(CENTRED[1]) == Other && KindOf(CENTRED[2]) == Close
    ensures KindOf(CENTRED[3]) == Plain && KindOf(CENTRED[4]) == Close
  {
    hide KindOf;
    CentreIsWrapper();
    BareDivIsOther();
    CloserIsClose();
    LetterIsPlain();
  }

  lemma CentredLines()
    ensures var lines := CENTRED;
            && Nested(lines, 0)
            && Kept(lines, 0) == ["<div>", "x", "</div>"]
            && Without(lines, Partners(lines, Empty, 0), 0) == ["<div>", "</div>", "x"]
  {
    hide KindOf;
    CentredKinds();
    var l4 := ["</div>"];
    var l3 := ["x"] + l4;
    var l2 := ["</div>"] + l3;
    var l1 := ["<div>"] + l2;
    var lines := CENTRED;
    assert lines[1..] == l1 && l1[1..] == l2 && l2[1..] == l3 && l3[1..] == l4 && l4[1..] == [];
    assert Nested([], 0) && Nested(l4, 1) && Nested(l3, 1) && Nested(l2, 2) && Nested(l1, 1);
    assert Kept([], 0) == [] && Kept(l4, 0) == l4 && Kept(l3, 0) == ["x", "</div>"] && Kept(l2, 1) == ["x", "</div>"];
    assert Kept(l1, 1) == ["<div>", "x", "</div>"];
    var w := Push(true, Empty);
    assert Partners(l4, w, 4) == {4} && Partners(l3, w, 3) == {4};
    assert Partners(l2, Push(false, w), 2) == {4} && Partners(l1, w, 1) == {4} && Partners(lines, Empty, 0) == {4};
    var gone := {4};
    assert Without([], gone, 5) == [] && Without(l4, gone, 4) == [] && Without(l3, gone, 3) == ["x"];
    assert Without(l2, gone, 2) == ["</div>", "x"] && Without(l1, gone, 1) == ["<div>", "</div>", "x"];
  }

  /** Another div inside a centred block loses its own closer: the line behind it
      comes to stand inside the div. */
  lemma InnerCloserIsDropped()
    ensures var markdown := Join(CENTRED);
            && Nested(Lines(markdown), 0)
            && StrippedDivs(markdown) == "<div>\nx\n</div>"
            && Unwrapped(markdown) == "<div>\n</div>\nx"
  {
    hide KindOf, Nested, Kept, Without, Partners, Lines, Join;
    JoinedLinesAreBack(CENTRED);
    CentredLines();
    JoinThree("<div>", "x", "</div>");
    JoinThree("<div>", "</div>", "x");
  }

  lemma JoinThree(a: string, b: string, c: string)
    ensures Join([a, b, c]) == a + ("\n" + (b + ("\n" + c)))
  {
    assert [a, b, c][1..] == [b, c] && [b, c][1..] == [c];
    assert Join([b, c]) == b + ("\n" + Join([c]));
  }
}
