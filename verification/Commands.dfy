/** Finding and deleting `\command{...}` with a balanced argument. */
module Commands {
  import opened Text
  import opened Braces
  import opened LineComments

  /** Where the brace of an occurrence at `p` stands, past optional whitespace. */
  function BraceAt(tex: string, command: string, p: nat): (q: nat)
    requires p + 1 + |command| <= |tex|
    ensures p + 1 + |command| <= q <= |tex|
  {
    SkipSpaces(tex, p + 1 + |command|)
  }

  /** The pattern `\command\s*{` matches at `p`. */
  predicate OccursAt(tex: string, command: string, p: nat) {
    && p + 1 + |command| <= |tex| && tex[p] == '\\' && At(tex, p + 1, command)
    && BraceAt(tex, command, p) < |tex| && tex[BraceAt(tex, command, p)] == '{'
  }

  /** A match of the pattern: its backslash and its brace. */
  datatype Match = Match(start: nat, brace: nat)

  /** The leftmost match of the pattern at or after `from`. */
  function FindFrom(tex: string, command: string, from: nat): (m: Option<nat>)
    ensures m.Some? ==> from <= m.value && OccursAt(tex, command, m.value)
    decreases |tex| - from
  {
    if from >= |tex| then None
    else if OccursAt(tex, command, from) then Some(from)
    else FindFrom(tex, command, from + 1)
  }

  lemma {:induction false} FindFromIsLeftmost(tex: string, command: string, from: nat, p: nat)
    requires from <= p && OccursAt(tex, command, p)
    ensures FindFrom(tex, command, from).Some? && FindFrom(tex, command, from).value <= p
    decreases |tex| - from
  {
    if !OccursAt(tex, command, from) {
      FindFromIsLeftmost(tex, command, from + 1, p);
    }
  }

  /** The matches that `pattern.finditer(tex)` yields from `from` on: each search
      starts where the previous match ended. */
  function Matches(tex: string, command: string, from: nat): seq<Match>
    decreases |tex| - from
  {
    var m := FindFrom(tex, command, from);
    if m.None? then []
    else
      var brace := BraceAt(tex, command, m.value);
      [Match(m.value, brace)] + Matches(tex, command, brace + 1)
  }

  predicate BracesOf(tex: string, ms: seq<Match>) {
    forall m :: m in ms ==> m.start < m.brace < |tex| && tex[m.brace] == '{'
  }

  lemma {:induction false} MatchesHaveBraces(tex: string, command: string, from: nat)
    ensures BracesOf(tex, Matches(tex, command, from))
    decreases |tex| - from
  {
    var m := FindFrom(tex, command, from);
    if m.Some? {
      MatchesHaveBraces(tex, command, BraceAt(tex, command, m.value) + 1);
    }
  }

  /** A command name as TeX has them: no escapes and no braces in it. */
  predicate IsCommandName(command: string) {
    command != "" && forall i :: 0 <= i < |command| ==> IsPlain(command[i])
  }

  /** Between the backslash of an occurrence and its brace no other brace or
      backslash stands, so the pattern's matches never overlap. */
  lemma NothingStartsBeforeTheBrace(tex: string, command: string, p: nat, k: nat)
    requires IsCommandName(command) && OccursAt(tex, command, p)
    requires p < k < BraceAt(tex, command, p)
    ensures IsPlain(tex[k])
  {
    if k < p + 1 + |command| {
      assert tex[k] == tex[p + 1..p + 1 + |command|][k - p - 1];
    } else {
      SkippedAreSpaces(tex, p + 1 + |command|, k);
    }
  }

  /** For a command name the matches are its occurrences, from left to right. */
  lemma {:induction false} MatchesAreOccurrences(tex: string, command: string, from: nat)
    requires IsCommandName(command)
    ensures var ms := Matches(tex, command, from);
            && (forall j, k :: 0 <= j < k < |ms| ==> ms[j].start < ms[k].start)
            && (forall m :: m in ms ==> from <= m.start && OccursAt(tex, command, m.start)
                                        && m.brace == BraceAt(tex, command, m.start))
    decreases |tex| - from
  {
    hide At, FindFrom, SkipSpaces, IsCommandName;
    var m := FindFrom(tex, command, from);
    if m.Some? {
      MatchesAreOccurrences(tex, command, BraceAt(tex, command, m.value) + 1);
    }
  }

  lemma {:induction false} OccurrencesAreMatches(tex: string, command: string, from: nat, p: nat)
    requires IsCommandName(command) && from <= p && OccursAt(tex, command, p)
    ensures Match(p, BraceAt(tex, command, p)) in Matches(tex, command, from)
    decreases |tex| - from
  {
    hide At, FindFrom, SkipSpaces, IsCommandName;
    FindFromIsLeftmost(tex, command, from, p);
    var m := FindFrom(tex, command, from).value;
    if m < p {
      var brace := BraceAt(tex, command, m);
      if p < brace {
        NothingStartsBeforeTheBrace(tex, command, m, p);
      }
      OccurrencesAreMatches(tex, command, brace + 1, p);
    }
  }

  // ---- _find_command_inner ----

  /** A match that counts: outside comments and with a balanced argument. */
  predicate Usable(tex: string, m: Match) {
    && m.start <= |tex| && ModeAt(tex, m.start) != Comment && MatchingClose(tex, m.brace).Some?
  }

  function Argument(tex: string, m: Match): string
    requires MatchingClose(tex, m.brace).Some?
  {
    tex[m.brace + 1..MatchingClose(tex, m.brace).value]
  }

  function FirstUsable(tex: string, ms: seq<Match>): (r: Option<Match>)
    ensures r.Some? ==> Usable(tex, r.value)
  {
    if ms == [] then None else if Usable(tex, ms[0]) then Some(ms[0]) else FirstUsable(tex, ms[1..])
  }

  /** The match whose argument `_find_command_inner` returns. */
  function Declaration(tex: string, command: string): (r: Option<Match>)
    ensures r.Some? ==> Usable(tex, r.value)
  {
    FirstUsable(tex, Matches(tex, command, 0))
  }

  /** `_find_command_inner`. */
  method FindCommandInner(tex: string, command: string) returns (r: Option<string>)
    ensures var d := Declaration(tex, command);
            r == if d.Some? then Some(Argument(tex, d.value)) else None
  {
    hide Matches, InComment, MatchingClose, ModeAt;
    var ms := Matches(tex, command, 0);
    MatchesHaveBraces(tex, command, 0);
    for k := 0 to |ms|
      invariant FirstUsable(tex, ms[k..]) == FirstUsable(tex, ms)
    {
      assert ms[k] in ms;
      var commented := IsInLineComment(tex, ms[k].start);
      if commented {
        continue;
      }
      var close := MatchBalancedBrace(tex, ms[k].brace);
      if !close.Close? {
        continue;
      }
      return Some(tex[ms[k].brace + 1..close.at]);
    }
    return None;
  }

  /** Position `p` declares the command: an occurrence that counts. */
  predicate Declares(tex: string, command: string, p: nat) {
    OccursAt(tex, command, p) && Usable(tex, Match(p, BraceAt(tex, command, p)))
  }

  lemma {:induction false} FirstUsableIsFirst(tex: string, ms: seq<Match>)
    ensures match FirstUsable(tex, ms)
            case None => forall m :: m in ms ==> !Usable(tex, m)
            case Some(d) => exists k :: 0 <= k < |ms| && ms[k] == d && forall j :: 0 <= j < k ==> !Usable(tex, ms[j])
  {
    if ms != [] {
      if Usable(tex, ms[0]) {
        assert ms[0] == FirstUsable(tex, ms).value;
      } else {
        FirstUsableIsFirst(tex, ms[1..]);
        if FirstUsable(tex, ms).Some? {
          var k :| 0 <= k < |ms[1..]| && ms[1..][k] == FirstUsable(tex, ms).value
                   && forall j :: 0 <= j < k ==> !Usable(tex, ms[1..][j]);
          assert ms[k + 1] == FirstUsable(tex, ms).value;
          forall j | 0 <= j < k + 1 ensures !Usable(tex, ms[j]) {
            if j > 0 {
              assert ms[j] == ms[1..][j - 1];
            }
          }
        }
      }
    }
  }

  /** The argument returned is that of the leftmost declaration in the text, and
      there is no result exactly when the text declares the command nowhere. */
  lemma DeclarationIsLeftmost(tex: string, command: string)
    requires IsCommandName(command)
    ensures match Declaration(tex, command)
            case None => forall p: nat :: !Declares(tex, command, p)
            case Some(d) => Declares(tex, command, d.start) && d.brace == BraceAt(tex, command, d.start)
                            && forall p: nat :: p < d.start ==> !Declares(tex, command, p)
  {
    hide OccursAt, BraceAt, Usable, Matches, FirstUsable, IsCommandName;
    var ms := Matches(tex, command, 0);
    var d := Declaration(tex, command);
    FirstUsableIsFirst(tex, ms);
    MatchesAreOccurrences(tex, command, 0);
    forall p: nat | Declares(tex, command, p) ensures d.Some? && d.value.start <= p {
      OccurrencesAreMatches(tex, command, 0, p);
      var i :| 0 <= i < |ms| && ms[i] == Match(p, BraceAt(tex, command, p));
    }
  }

  /** Writing a declaration and extracting it again gives the argument back,
      for every balanced argument and whatever follows. */
  lemma ExtractionRoundTrip(command: string, inner: string, suffix: string)
    requires Balanced(inner)
    ensures var tex := "\\" + command + "{" + inner + "}" + suffix;
            var d := Declaration(tex, command);
            d.Some? && d.value.start == 0 && Argument(tex, d.value) == inner
  {
    var tex := "\\" + command + "{" + inner + "}" + suffix;
    var brace := 1 + |command|;
    assert At(tex, 1, command);
    assert tex[brace] == '{' && tex[brace + 1 + |inner|] == '}';
    assert tex[brace + 1..brace + 1 + |inner|] == inner;
    MatchIsTheEnclosingPartner(tex, brace, brace + 1 + |inner|);
    assert OccursAt(tex, command, 0);
    assert Matches(tex, command, 0)[0] == Match(0, brace);
  }

  // ---- _strip_command ----

  /** A stretch of text from `start` up to, and not including, `end`. */
  datatype Span = Span(start: nat, end: nat)

  /** The spans `\command{...}` of the matches that have a balanced argument. */
  function Spans(tex: string, ms: seq<Match>): seq<Span> {
    if ms == [] then []
    else
      var close := MatchingClose(tex, ms[0].brace);
      (if close.Some? then [Span(ms[0].start, close.value + 1)] else []) + Spans(tex, ms[1..])
  }

  function CommandSpans(tex: string, command: string): seq<Span> {
    Spans(tex, Matches(tex, command, 0))
  }

  lemma SpansStep(tex: string, ms: seq<Match>, k: nat)
    requires k < |ms|
    ensures match MatchingClose(tex, ms[k].brace)
            case None => Spans(tex, ms[k..]) == Spans(tex, ms[k + 1..])
            case Some(c) =>
              && |Spans(tex, ms[k..])| > 0 && Spans(tex, ms[k..])[0] == Span(ms[k].start, c + 1)
              && Spans(tex, ms[k..])[1..] == Spans(tex, ms[k + 1..])
  {
    assert ms[k..][1..] == ms[k + 1..];
  }

  lemma NoSpans(tex: string)
    ensures Spans(tex, []) == []
  {
  }

  predicate InBounds(tex: string, spans: seq<Span>) {
    forall k :: 0 <= k < |spans| ==> spans[k].start < spans[k].end <= |tex|
  }

  lemma {:induction false} SpansAreInBounds(tex: string, ms: seq<Match>)
    requires BracesOf(tex, ms)
    ensures InBounds(tex, Spans(tex, ms))
  {
    if ms != [] {
      assert ms[0] in ms;
      SpansAreInBounds(tex, ms[1..]);
    }
  }

  /** Python's `tex[i:j]`: empty when the ends have crossed. */
  function Slice(tex: string, i: nat, j: nat): string
    requires i <= |tex| && j <= |tex|
  {
    if i <= j then tex[i..j] else ""
  }

  /** The output of the loop when `out` is emitted, `spans` are to come and the
      text before `last` is done with. */
  function StripFrom(tex: string, spans: seq<Span>, last: nat, out: string): string
    requires InBounds(tex, spans) && last <= |tex|
  {
    if spans == [] then out + tex[last..]
    else StripFrom(tex, spans[1..], spans[0].end, out + Slice(tex, last, spans[0].start))
  }

  lemma StripUnfolds(tex: string, spans: seq<Span>, last: nat, out: string)
    requires InBounds(tex, spans) && last <= |tex|
    ensures StripFrom(tex, spans, last, out) ==
            if spans == [] then out + tex[last..]
            else StripFrom(tex, spans[1..], spans[0].end, out + Slice(tex, last, spans[0].start))
  {
  }

  function Stripped(tex: string, command: string): string {
    CommandSpansAreInBounds(tex, command);
    StripFrom(tex, CommandSpans(tex, command), 0, "")
  }

  lemma CommandSpansAreInBounds(tex: string, command: string)
    ensures InBounds(tex, CommandSpans(tex, command))
  {
    MatchesHaveBraces(tex, command, 0);
    SpansAreInBounds(tex, Matches(tex, command, 0));
  }

  /** `_strip_command`. */
  method StripCommand(tex: string, command: string) returns (r: string)
    ensures r == Stripped(tex, command)
  {
    hide StripFrom, Spans, Matches, MatchingClose;
    var ms := Matches(tex, command, 0);
    MatchesHaveBraces(tex, command, 0);
    CommandSpansAreInBounds(tex, command);
    assert ms[0..] == ms;
    ghost var rest := Spans(tex, ms);
    r := "";
    var last: nat := 0;
    for k := 0 to |ms|
      invariant rest == Spans(tex, ms[k..]) && last <= |tex| && InBounds(tex, rest)
      invariant StripFrom(tex, rest, last, r) == Stripped(tex, command)
    {
      var close := MatchBalancedBrace(tex, ms[k].brace);
      SpansStep(tex, ms, k);
      if !close.Close? {
        continue;
      }
      StripUnfolds(tex, rest, last, r);
      r := r + Slice(tex, last, ms[k].start);
      last := close.at + 1;
      rest := rest[1..];
    }
    assert ms[|ms|..] == [];
    NoSpans(tex);
    StripUnfolds(tex, rest, last, r);
    r := r + tex[last..];
  }

  // What the loop emits, position by position.

  ghost predicate Covered(spans: seq<Span>, p: nat) {
    exists k :: 0 <= k < |spans| && spans[k].start <= p < spans[k].end
  }

  /** The loop emits position `p`: the span started last has ended. */
  predicate Emitted(spans: seq<Span>, last: nat, p: nat) {
    if spans == [] || p < spans[0].start then last <= p else Emitted(spans[1..], spans[0].end, p)
  }

  predicate Ascending(spans: seq<Span>) {
    forall j, k :: 0 <= j < k < |spans| ==> spans[j].start < spans[k].start
  }

  /** Spans either follow one another or lie properly inside one another. */
  predicate Laminar(spans: seq<Span>) {
    forall j, k :: 0 <= j < k < |spans| ==> spans[j].end <= spans[k].start || spans[k].end < spans[j].end
  }

  /** No span starts inside an earlier one. */
  predicate NoneNested(spans: seq<Span>) {
    forall j, k :: 0 <= j < k < |spans| ==> spans[j].end <= spans[k].start
  }

  ghost function EmittedBy(spans: seq<Span>, last: nat, n: nat): set<nat> {
    set p: nat | p < n && Emitted(spans, last, p)
  }

  ghost function Uncovered(spans: seq<Span>, n: nat): set<nat> {
    set p: nat | p < n && !Covered(spans, p)
  }

  /** Which positions are emitted, seen from the first span. */
  lemma EmittedUnfolds(spans: seq<Span>, last: nat, n: nat)
    ensures forall p: nat | p < n ::
              p in EmittedBy(spans, last, n) <==>
              if spans == [] || p < spans[0].start then last <= p else p in EmittedBy(spans[1..], spans[0].end, n)
  {
  }

  /** What the loop emits up to the first span: the text from `last` on. */
  lemma EmitsUpToTheFirst(tex: string, spans: seq<Span>, last: nat, i: nat)
    requires spans != [] && i <= last <= |tex| && i <= spans[0].start <= |tex|
    ensures Pick(tex, EmittedBy(spans, last, |tex|), i)
         == Slice(tex, last, spans[0].start) + Pick(tex, EmittedBy(spans[1..], spans[0].end, |tex|), spans[0].start)
  {
    hide Pick, Emitted, EmittedBy;
    var keep := EmittedBy(spans, last, |tex|);
    var start := spans[0].start;
    var mid := if last <= start then last else start;
    EmittedUnfolds(spans, last, |tex|);
    PickRun(tex, keep, false, i, mid);
    PickRun(tex, keep, true, mid, start);
    PickSame(tex, keep, EmittedBy(spans[1..], spans[0].end, |tex|), start);
    assert last > start ==> tex[mid..start] == "";
    assert "" + Pick(tex, keep, mid) == Pick(tex, keep, mid);
  }

  lemma EmitsTheRest(tex: string, last: nat, i: nat)
    requires i <= last <= |tex|
    ensures Pick(tex, EmittedBy([], last, |tex|), i) == tex[last..]
  {
    hide Pick, Emitted, EmittedBy;
    var keep := EmittedBy([], last, |tex|);
    EmittedUnfolds([], last, |tex|);
    PickNothing(tex, keep);
    PickRun(tex, keep, false, i, last);
    PickRun(tex, keep, true, last, |tex|);
    assert "" + Pick(tex, keep, last) == Pick(tex, keep, last) && tex[last..|tex|] + "" == tex[last..];
  }

  lemma {:induction false} LoopEmits(tex: string, spans: seq<Span>, last: nat, i: nat, out: string)
    requires InBounds(tex, spans) && Ascending(spans) && i <= last <= |tex|
    requires spans != [] ==> i <= spans[0].start
    ensures StripFrom(tex, spans, last, out) == out + Pick(tex, EmittedBy(spans, last, |tex|), i)
    decreases |spans|
  {
    hide StripFrom, Pick, Emitted, EmittedBy, Slice;
    StripUnfolds(tex, spans, last, out);
    if spans == [] {
      EmitsTheRest(tex, last, i);
    } else {
      var start, end := spans[0].start, spans[0].end;
      EmitsUpToTheFirst(tex, spans, last, i);
      LoopEmits(tex, spans[1..], end, start, out + Slice(tex, last, start));
      Associate(out, Slice(tex, last, start), Pick(tex, EmittedBy(spans[1..], end, |tex|), start));
    }
  }

  /** What no span covers is emitted. */
  lemma {:induction false} UncoveredIsEmitted(spans: seq<Span>, last: nat, p: nat)
    requires last <= p && !Covered(spans, p)
    ensures Emitted(spans, last, p)
    decreases |spans|
  {
    if spans != [] && spans[0].start <= p {
      UncoveredIsEmitted(spans[1..], spans[0].end, p);
    }
  }

  lemma {:induction false} EmittedIsUncoveredUnlessNested(spans: seq<Span>, last: nat, p: nat, k: nat)
    requires NoneNested(spans) && Emitted(spans, last, p) && k < |spans|
    requires forall l :: 0 <= l < |spans| ==> spans[l].start < spans[l].end
    ensures p < spans[k].start || spans[k].end <= p
    decreases |spans|
  {
    if spans[0].start <= p {
      if k > 0 {
        EmittedIsUncoveredUnlessNested(spans[1..], spans[0].end, p, k - 1);
      } else if |spans| > 1 && spans[1].start <= p {
        assert spans[0].end <= spans[1].start;
      }
    } else if k > 0 {
      assert spans[0].end <= spans[k].start;
    }
  }

  lemma EmittedAt(spans: seq<Span>, last: nat, p: nat)
    ensures Emitted(spans, last, p) ==
            if spans == [] || p < spans[0].start then last <= p else Emitted(spans[1..], spans[0].end, p)
  {
  }

  lemma ShapesOfRest(spans: seq<Span>)
    requires Ascending(spans) && Laminar(spans) && spans != []
    ensures Ascending(spans[1..]) && Laminar(spans[1..])
    ensures forall k :: 0 < k < |spans| ==>
              && spans[0].start < spans[k].start
              && (spans[0].end <= spans[k].start || spans[k].end < spans[0].end)
  {
  }

  /** The last character of a span that holds another is emitted. */
  lemma {:induction false} OuterEndIsEmitted(spans: seq<Span>, last: nat, j: nat, k: nat)
    requires Ascending(spans) && Laminar(spans) && j < k < |spans|
    requires forall l :: 0 <= l < |spans| ==> spans[l].start < spans[l].end
    requires spans[k].start < spans[j].end
    ensures Emitted(spans, last, spans[j].end - 1)
  {
    hide Emitted, Ascending, Laminar;
    EmittedAt(spans, last, spans[j].end - 1);
    ShapesOfRest(spans);
    if j == 0 {
      LastStartedHasEnded(spans[1..], spans[0].end, spans[0].end - 1);
    } else {
      OuterEndIsEmitted(spans[1..], spans[0].end, j - 1, k - 1);
    }
  }

  lemma {:induction false} LastStartedHasEnded(spans: seq<Span>, last: nat, p: nat)
    requires Ascending(spans) && spans != [] && spans[0].start <= p
    requires forall l :: 0 <= l < |spans| ==> p < spans[l].start || spans[l].end <= p
    ensures Emitted(spans, last, p)
    decreases |spans|
  {
    if |spans| > 1 && spans[1].start <= p {
      LastStartedHasEnded(spans[1..], spans[0].end, p);
    }
  }

  /** The loop deletes exactly the given spans if and only if none is nested. */
  lemma StripsExactlyUnlessNested(tex: string, spans: seq<Span>)
    requires InBounds(tex, spans) && Ascending(spans) && Laminar(spans)
    ensures StripFrom(tex, spans, 0, "") == Pick(tex, Uncovered(spans, |tex|), 0) <==> NoneNested(spans)
  {
    hide StripFrom, Pick, Emitted;
    var emitted, outside := EmittedBy(spans, 0, |tex|), Uncovered(spans, |tex|);
    LoopEmits(tex, spans, 0, 0, "");
    forall p | p in outside ensures p in emitted {
      UncoveredIsEmitted(spans, 0, p);
    }
    if NoneNested(spans) {
      forall p, k | p in emitted && 0 <= k < |spans| ensures p < spans[k].start || spans[k].end <= p {
        EmittedIsUncoveredUnlessNested(spans, 0, p, k);
      }
      assert outside == emitted;
    } else {
      var j, k :| 0 <= j < k < |spans| && spans[k].start < spans[j].end;
      OuterEndIsEmitted(spans, 0, j, k);
      var p := spans[j].end - 1;
      assert spans[j].start <= p < spans[j].end;
      assert p in emitted && p !in outside;
      PickLess(tex, emitted, outside, 0);
    }
  }

  // The spans of a command are of that shape.

  /** Position `p` starts a `\command{...}` with a balanced argument. */
  predicate Removable(tex: string, command: string, p: nat) {
    OccursAt(tex, command, p) && MatchingClose(tex, BraceAt(tex, command, p)).Some?
  }

  function CloseOf(tex: string, command: string, p: nat): (c: nat)
    requires Removable(tex, command, p)
    ensures BraceAt(tex, command, p) < c < |tex| && tex[c] == '}'
  {
    MatchingClose(tex, BraceAt(tex, command, p)).value
  }

  /** An occurrence that starts inside another's span ends inside it. */
  lemma NestedEndsInside(tex: string, command: string, s: nat, u: nat)
    requires IsCommandName(command) && Removable(tex, command, s) && Removable(tex, command, u)
    requires s < u <= CloseOf(tex, command, s)
    ensures CloseOf(tex, command, u) < CloseOf(tex, command, s)
  {
    var outer, inner, close := BraceAt(tex, command, s), BraceAt(tex, command, u), CloseOf(tex, command, s);
    if u < outer {
      NothingStartsBeforeTheBrace(tex, command, s, u);
    }
    if close < inner {
      NothingStartsBeforeTheBrace(tex, command, u, close);
    }
    assert outer < inner < close;
    if u < inner - 1 {
      NothingStartsBeforeTheBrace(tex, command, u, inner - 1);
    }
    MatchesNest(tex, outer, inner);
  }

  /** The spans are those of the removable occurrences, in ascending order. */
  lemma {:induction false} SpansAreOccurrences(tex: string, command: string, from: nat)
    requires IsCommandName(command)
    ensures var spans := Spans(tex, Matches(tex, command, from));
            && Ascending(spans)
            && (forall sp :: sp in spans ==> from <= sp.start && Removable(tex, command, sp.start)
                                             && sp.end == CloseOf(tex, command, sp.start) + 1)
    decreases |tex| - from
  {
    hide At, FindFrom, SkipSpaces, CloseFrom, IsCommandName;
    var m := FindFrom(tex, command, from);
    if m.Some? {
      SpansAreOccurrences(tex, command, BraceAt(tex, command, m.value) + 1);
    }
  }

  lemma {:induction false} OccurrencesAreSpans(tex: string, command: string, from: nat, p: nat)
    requires IsCommandName(command) && from <= p && Removable(tex, command, p)
    ensures Span(p, CloseOf(tex, command, p) + 1) in Spans(tex, Matches(tex, command, from))
    decreases |tex| - from
  {
    hide At, FindFrom, SkipSpaces, CloseFrom, IsCommandName;
    FindFromIsLeftmost(tex, command, from, p);
    var m := FindFrom(tex, command, from).value;
    if m < p {
      var brace := BraceAt(tex, command, m);
      if p < brace {
        NothingStartsBeforeTheBrace(tex, command, m, p);
      }
      OccurrencesAreSpans(tex, command, brace + 1, p);
    }
  }

  lemma CommandSpansAreLaminar(tex: string, command: string)
    requires IsCommandName(command)
    ensures Laminar(CommandSpans(tex, command))
  {
    var spans := CommandSpans(tex, command);
    SpansAreOccurrences(tex, command, 0);
    forall j, k | 0 <= j < k < |spans| && spans[k].start < spans[j].end ensures spans[k].end < spans[j].end {
      assert spans[j] in spans && spans[k] in spans;
      NestedEndsInside(tex, command, spans[j].start, spans[k].start);
    }
  }

  /** Position `p` lies in a span `\command{...}` with a balanced argument. */
  ghost predicate InOccurrence(tex: string, command: string, p: nat) {
    exists s: nat :: s <= p && Removable(tex, command, s) && p <= CloseOf(tex, command, s)
  }

  /** The positions outside every span `\command{...}`. */
  ghost function OutsideOccurrences(tex: string, command: string): set<nat> {
    set p: nat | p < |tex| && !InOccurrence(tex, command, p)
  }

  /** Some removable occurrence starts inside the argument of another. */
  ghost predicate HasNested(tex: string, command: string) {
    exists s: nat, u: nat ::
      s < u && Removable(tex, command, s) && Removable(tex, command, u) && u <= CloseOf(tex, command, s)
  }

  lemma CoveredIsInOccurrence(tex: string, command: string, p: nat)
    requires IsCommandName(command)
    ensures Covered(CommandSpans(tex, command), p) <==> InOccurrence(tex, command, p)
  {
    var spans := CommandSpans(tex, command);
    SpansAreOccurrences(tex, command, 0);
    if Covered(spans, p) {
      var k :| 0 <= k < |spans| && spans[k].start <= p < spans[k].end;
      assert spans[k] in spans;
    }
    if InOccurrence(tex, command, p) {
      var s: nat :| s <= p && Removable(tex, command, s) && p <= CloseOf(tex, command, s);
      OccurrencesAreSpans(tex, command, 0, s);
    }
  }

  lemma NestedInList(spans: seq<Span>, a: Span, b: Span)
    requires Ascending(spans) && a in spans && b in spans && a.start < b.start < a.end
    ensures !NoneNested(spans)
  {
    var j :| 0 <= j < |spans| && spans[j] == a;
    var k :| 0 <= k < |spans| && spans[k] == b;
    assert j < k;
  }

  lemma NestedSpansAreNestedOccurrences(tex: string, command: string)
    requires IsCommandName(command)
    ensures NoneNested(CommandSpans(tex, command)) <==> !HasNested(tex, command)
  {
    var spans := CommandSpans(tex, command);
    SpansAreOccurrences(tex, command, 0);
    if j, k :| 0 <= j < k < |spans| && spans[k].start < spans[j].end {
      assert spans[j] in spans && spans[k] in spans;
    }
    if s: nat, u: nat :| s < u && Removable(tex, command, s) && Removable(tex, command, u)
                         && u <= CloseOf(tex, command, s) {
      OccurrencesAreSpans(tex, command, 0, s);
      OccurrencesAreSpans(tex, command, 0, u);
      NestedInList(spans, Span(s, CloseOf(tex, command, s) + 1), Span(u, CloseOf(tex, command, u) + 1));
    }
  }

  /** `_strip_command` deletes exactly the spans `\command{...}` and keeps
      everything else in order if and only if none is nested in another. */
  lemma StripCommandIsExactUnlessNested(tex: string, command: string)
    requires IsCommandName(command)
    ensures Stripped(tex, command) == Pick(tex, OutsideOccurrences(tex, command), 0) <==> !HasNested(tex, command)
  {
    hide StripFrom, Spans, Matches, Pick, Covered, InOccurrence, HasNested, NoneNested, Laminar, Removable;
    var spans := CommandSpans(tex, command);
    CommandSpansAreInBounds(tex, command);
    CommandSpansAreLaminar(tex, command);
    SpansAreOccurrences(tex, command, 0);
    StripsExactlyUnlessNested(tex, spans);
    forall p: nat | p < |tex| ensures p in Uncovered(spans, |tex|) <==> p in OutsideOccurrences(tex, command) {
      CoveredIsInOccurrence(tex, command, p);
    }
    assert Uncovered(spans, |tex|) == OutsideOccurrences(tex, command);
    NestedSpansAreNestedOccurrences(tex, command);
  }

  // A note inside a note: the tail of the outer one survives.

  const NESTED_NOTE: string := "\\thanks{a\\thanks{b}c}"

  lemma NestedNoteOccurrences()
    ensures OccursAt(NESTED_NOTE, "thanks", 0) && BraceAt(NESTED_NOTE, "thanks", 0) == 7
    ensures OccursAt(NESTED_NOTE, "thanks", 9) && BraceAt(NESTED_NOTE, "thanks", 9) == 16
    ensures forall p :: 0 < p && p != 9 ==> !OccursAt(NESTED_NOTE, "thanks", p)
  {
    assert At(NESTED_NOTE, 1, "thanks") && At(NESTED_NOTE, 10, "thanks");
  }

  lemma NestedNoteGroups()
    ensures MatchingClose(NESTED_NOTE, 16) == Some(18) && MatchingClose(NESTED_NOTE, 7) == Some(20)
  {
    assert CloseFrom(NESTED_NOTE, 17, 21, 1) == Some(18);
    assert CloseFrom(NESTED_NOTE, 19, 21, 1) == Some(20);
    CloseInTwoSteps(NESTED_NOTE, 17, 21, 1, 1);
    assert CloseFrom(NESTED_NOTE, 8, 21, 1) == Some(20);
  }

  lemma NestedNoteSpans()
    ensures CommandSpans(NESTED_NOTE, "thanks") == [Span(0, 21), Span(9, 19)]
    ensures Removable(NESTED_NOTE, "thanks", 0) && Removable(NESTED_NOTE, "thanks", 9)
    ensures CloseOf(NESTED_NOTE, "thanks", 0) == 20
  {
    hide At, CloseFrom, MatchingClose, OccursAt, BraceAt;
    var tex, command := NESTED_NOTE, "thanks";
    NestedNoteOccurrences();
    NestedNoteGroups();
    FindFromIsLeftmost(tex, command, 8, 9);
    assert Matches(tex, command, 17) == [];
    assert Matches(tex, command, 8) == [Match(9, 16)];
    assert Matches(tex, command, 0) == [Match(0, 7), Match(9, 16)];
    assert Spans(tex, [Match(9, 16)]) == [Span(9, 19)];
  }

  lemma NestedNoteLeavesItsTail()
    ensures HasNested(NESTED_NOTE, "thanks") && Stripped(NESTED_NOTE, "thanks") == "c}"
  {
    NestedNoteSpans();
    var tex := NESTED_NOTE;
    assert Slice(tex, 0, 0) == "" && Slice(tex, 21, 9) == "";
    assert StripFrom(tex, [], 19, "") == "c}";
    assert StripFrom(tex, [Span(9, 19)], 21, "") == "c}";
  }
}
