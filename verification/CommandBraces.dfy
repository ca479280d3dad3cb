/** What stripping a command does to the balance of braces: a removed argument is
    balanced as the matcher reads it, so the counts of the two braces fall alike
    but for braces that are escaped. */
module CommandBraces {
  import opened Text
  import opened Braces
  import opened Commands

  /** Opening braces less closing braces, escaped or not. */
  function Excess(s: string): int {
    Count('{', s) - Count('}', s)
  }

  function BraceValue(c: char): int {
    if c == '{' then 1 else if c == '}' then -1 else 0
  }

  /** Escaped opening braces less escaped closing braces in `t[i..n]`, read in
      escape pairs. */
  function Escaped(t: string, i: nat, n: nat): int
    requires i <= n <= |t|
    decreases n - i
  {
    if i == n then 0
    else if t[i] == '\\' && i + 1 < n then BraceValue(t[i + 1]) + Escaped(t, i + 2, n)
    else Escaped(t, i + 1, n)
  }

  lemma ExcessAppend(a: string, b: string)
    ensures Excess(a + b) == Excess(a) + Excess(b)
  {
    CountAppend('{', a, b);
    CountAppend('}', a, b);
  }

  lemma ExcessOfOne(c: char)
    ensures Excess([c]) == BraceValue(c)
  {
    assert [c][1..] == "" && Count('{', "") == 0 && Count('}', "") == 0;
    assert Count('{', [c]) == if c == '{' then 1 else 0;
    assert Count('}', [c]) == if c == '}' then 1 else 0;
  }

  lemma ExcessOfNothing()
    ensures Excess("") == 0
  {
  }

  lemma ExcessStep(t: string, i: nat, c: nat)
    requires i < c <= |t|
    ensures Excess(t[i..c]) == BraceValue(t[i]) + Excess(t[i + 1..c])
  {
    hide Excess;
    assert t[i..c] == [t[i]] + t[i + 1..c];
    ExcessAppend([t[i]], t[i + 1..c]);
    ExcessOfOne(t[i]);
  }

  /** Up to the brace that closes `depth` groups, closing braces prevail by the
      groups closed on the way, but for the escaped ones. */
  lemma {:induction false} ClosedExcess(t: string, i: nat, n: nat, depth: nat)
    requires i <= n <= |t| && depth >= 1 && CloseFrom(t, i, n, depth).Some?
    ensures var c := CloseFrom(t, i, n, depth).value;
            Excess(t[i..c]) == Escaped(t, i, c) - (depth - 1)
    decreases n - i
  {
    hide Excess, CloseFrom;
    CloseUnfolds(t, i, n, depth);
    if i < n {
      var c := CloseFrom(t, i, n, depth).value;
      if t[i] == '\\' && i + 1 < n {
        ClosedExcess(t, i + 2, n, depth);
        ExcessStep(t, i, c);
        ExcessStep(t, i + 1, c);
      } else if t[i] == '}' && depth == 1 {
        assert t[i..i] == "";
        ExcessOfNothing();
      } else {
        ClosedExcess(t, i + 1, n, if t[i] == '{' then depth + 1 else if t[i] == '}' then depth - 1 else depth);
        ExcessStep(t, i, c);
      }
    }
  }

  lemma {:induction false} ExcessOfPlain(s: string)
    requires forall k :: 0 <= k < |s| ==> s[k] != '{' && s[k] != '}'
    ensures Excess(s) == 0
  {
    hide Excess;
    if s == "" {
      ExcessOfNothing();
    } else {
      assert s == [s[0]] + s[1..];
      ExcessAppend([s[0]], s[1..]);
      ExcessOfOne(s[0]);
      ExcessOfPlain(s[1..]);
    }
  }

  /** A span is balanced but for the escaped braces in its argument. */
  lemma SpanExcess(tex: string, command: string, p: nat)
    requires IsCommandName(command) && Removable(tex, command, p)
    ensures Excess(tex[p..CloseOf(tex, command, p) + 1])
         == Escaped(tex, BraceAt(tex, command, p) + 1, CloseOf(tex, command, p))
  {
    hide Excess, CloseFrom;
    var b, c := BraceAt(tex, command, p), CloseOf(tex, command, p);
    var head := tex[p..b];
    forall k | 0 <= k < |head| ensures head[k] != '{' && head[k] != '}' {
      if k > 0 {
        NothingStartsBeforeTheBrace(tex, command, p, p + k);
      }
    }
    ExcessOfPlain(head);
    ClosedExcess(tex, b + 1, |tex|, 1);
    assert tex[p..c + 1] == head + tex[b..c + 1];
    ExcessAppend(head, tex[b..c + 1]);
    ExcessStep(tex, b, c + 1);
    assert tex[b + 1..c + 1] == tex[b + 1..c] + [tex[c]];
    ExcessAppend(tex[b + 1..c], [tex[c]]);
    ExcessOfOne(tex[c]);
  }

  predicate AreSpansOf(tex: string, command: string, spans: seq<Span>) {
    forall k :: 0 <= k < |spans| ==>
      Removable(tex, command, spans[k].start) && spans[k].end == CloseOf(tex, command, spans[k].start) + 1
  }

  /** The escaped braces in the arguments of all spans. */
  function EscapedIn(tex: string, command: string, spans: seq<Span>): int
    requires AreSpansOf(tex, command, spans)
  {
    if spans == [] then 0
    else
      Escaped(tex, BraceAt(tex, command, spans[0].start) + 1, CloseOf(tex, command, spans[0].start))
      + EscapedIn(tex, command, spans[1..])
  }

  lemma CutExcess(tex: string, last: nat, s: nat, e: nat)
    requires last <= s <= e <= |tex|
    ensures Excess(tex[last..]) == Excess(Slice(tex, last, s)) + Excess(tex[s..e]) + Excess(tex[e..])
  {
    hide Excess;
    assert tex[last..] == tex[last..s] + tex[s..];
    assert tex[s..] == tex[s..e] + tex[e..];
    ExcessAppend(tex[last..s], tex[s..]);
    ExcessAppend(tex[s..e], tex[e..]);
  }

  lemma StripUnfolds(tex: string, spans: seq<Span>, last: nat, out: string)
    requires InBounds(tex, spans) && last <= |tex|
    ensures StripFrom(tex, spans, last, out) ==
            if spans == [] then out + tex[last..]
            else StripFrom(tex, spans[1..], spans[0].end, out + Slice(tex, last, spans[0].start))
  {
  }

  lemma {:induction false} StripExcess(tex: string, command: string, spans: seq<Span>, last: nat, out: string)
    requires IsCommandName(command) && InBounds(tex, spans) && AreSpansOf(tex, command, spans) && NoneNested(spans)
    requires last <= |tex| && (spans != [] ==> last <= spans[0].start)
    ensures Excess(StripFrom(tex, spans, last, out)) == Excess(out) + Excess(tex[last..]) - EscapedIn(tex, command, spans)
    decreases |spans|
  {
    hide Excess, Removable, CloseOf, Escaped, StripFrom, Slice, IsCommandName;
    StripUnfolds(tex, spans, last, out);
    if spans == [] {
      ExcessAppend(out, tex[last..]);
    } else {
      var s, e := spans[0].start, spans[0].end;
      var piece := Slice(tex, last, s);
      assert |spans| > 1 ==> e <= spans[1].start;
      StripExcess(tex, command, spans[1..], e, out + piece);
      ExcessAppend(out, piece);
      SpanExcess(tex, command, s);
      CutExcess(tex, last, s, e);
    }
  }

  lemma SpansAreSpans(tex: string, command: string)
    requires IsCommandName(command)
    ensures AreSpansOf(tex, command, CommandSpans(tex, command))
  {
    hide Removable, CloseOf;
    SpansAreOccurrences(tex, command, 0);
    var spans := CommandSpans(tex, command);
    forall k | 0 <= k < |spans|
      ensures Removable(tex, command, spans[k].start) && spans[k].end == CloseOf(tex, command, spans[k].start) + 1
    {
      assert spans[k] in spans;
    }
  }

  /** Where no occurrence is nested, stripping removes equally many opening and
      closing braces if and only if as many of either are escaped in the removed
      arguments. */
  lemma StripConservesBracesExactly(tex: string, command: string)
    requires IsCommandName(command) && !HasNested(tex, command)
    ensures AreSpansOf(tex, command, CommandSpans(tex, command))
    ensures Count('{', tex) - Count('{', Stripped(tex, command)) == Count('}', tex) - Count('}', Stripped(tex, command))
       <==> EscapedIn(tex, command, CommandSpans(tex, command)) == 0
  {
    hide StripFrom, CommandSpans, Count, HasNested;
    SpansAreSpans(tex, command);
    CommandSpansAreInBounds(tex, command);
    NestedSpansAreNestedOccurrences(tex, command);
    StripExcess(tex, command, CommandSpans(tex, command), 0, "");
    ExcessOfNothing();
    assert tex[0..] == tex;
  }

  // A note with an escaped brace takes one more opening brace with it.

  const ESCAPED_NOTE: string := "\\thanks{\\{}"

  lemma EscapedNoteUnbalances()
    ensures Stripped(ESCAPED_NOTE, "thanks") == ""
    ensures Count('{', ESCAPED_NOTE) == 2 && Count('}', ESCAPED_NOTE) == 1
  {
    var tex := ESCAPED_NOTE;
    EscapedNoteSpan();
    assert Slice(tex, 0, 0) == "" && tex[11..] == "";
    assert StripFrom(tex, [], 11, "") == "";
    EscapedNoteCounts();
  }

  lemma EscapedNoteCounts()
    ensures Count('{', ESCAPED_NOTE) == 2 && Count('}', ESCAPED_NOTE) == 1
  {
    hide Count;
    NoBraces("\\thanks");
    NoBraces("\\");
    OneBrace();
    assert ESCAPED_NOTE == "\\thanks" + ("{" + ("\\" + ("{" + "}")));
    forall c | c == '{' || c == '}' ensures Count(c, ESCAPED_NOTE) == 2 * Count(c, "{") + Count(c, "}") {
      CountAppend(c, "\\thanks", "{" + ("\\" + ("{" + "}")));
      CountAppend(c, "{", "\\" + ("{" + "}"));
      CountAppend(c, "\\", "{" + "}");
      CountAppend(c, "{", "}");
    }
  }

  lemma {:induction false} NoBraces(s: string)
    requires forall k :: 0 <= k < |s| ==> s[k] != '{' && s[k] != '}'
    ensures Count('{', s) == 0 && Count('}', s) == 0
  {
    if s != "" {
      NoBraces(s[1..]);
    }
  }

  lemma OneBrace()
    ensures Count('{', "{") == 1 && Count('}', "{") == 0 && Count('{', "}") == 0 && Count('}', "}") == 1
  {
  }

  lemma EscapedNoteSpan()
    ensures CommandSpans(ESCAPED_NOTE, "thanks") == [Span(0, 11)]
  {
    var tex := ESCAPED_NOTE;
    assert At(tex, 1, "thanks");
    assert OccursAt(tex, "thanks", 0) && BraceAt(tex, "thanks", 0) == 7;
    assert CloseFrom(tex, 8, 11, 1) == CloseFrom(tex, 10, 11, 1) == Some(10);
    assert Matches(tex, "thanks", 8) == [] by {
      NoMoreMatches(tex);
    }
    assert Matches(tex, "thanks", 0) == [Match(0, 7)];
    assert Spans(tex, []) == [];
  }

  lemma NoMoreMatches(tex: string)
    requires tex == ESCAPED_NOTE
    ensures FindFrom(tex, "thanks", 8) == None
  {
    assert FindFrom(tex, "thanks", 11) == None;
    assert FindFrom(tex, "thanks", 10) == None;
    assert FindFrom(tex, "thanks", 9) == None;
  }
}
