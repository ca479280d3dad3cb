/** Taking labels out of display math keeps the blocks of a text exactly where no
    body is only labels and none holds a label between two dollars. */
module MathLabels {
  import opened Text
  import opened MathLayout

  const LABEL: string := "\\label"

  /** The end of a match of `\\label\s*\{[^{}]*\}` that starts at `i`, if any. */
  function LabelEnd(s: string, i: nat): (e: Option<nat>)
    ensures e.Some? ==> i < e.value <= |s|
  {
    if !At(s, i, LABEL) then None
    else
      var open := SkipSpaces(s, i + |LABEL|);
      if open == |s| || s[open] != '{' then None
      else
        var close := NextBrace(s, open + 1);
        if close == |s| || s[close] != '}' then None else Some(close + 1)
  }

  /** `_LABEL_IN_MATH.sub("", s)` from position `i` on. */
  function Cleaned(s: string, i: nat): string
    requires i <= |s|
    decreases |s| - i
  {
    if i == |s| then ""
    else
      var e := LabelEnd(s, i);
      if e.Some? then Cleaned(s, e.value) else [s[i]] + Cleaned(s, i + 1)
  }

  function WithCleanBodies(d: Doc): Doc {
    match d
    case End(_) => d
    case Block(gap, body, rest) => Block(gap, Cleaned(body, 0), WithCleanBodies(rest))
  }

  /** `strip_math_labels`. */
  function StripLabels(t: string): string {
    Source(WithCleanBodies(Parse(t)))
  }

  // ---- What the labels of a body do to its dollars ----

  /** The first position at or after `i` where no label stands. */
  function AfterLabels(s: string, i: nat): (j: nat)
    requires i <= |s|
    ensures i <= j <= |s|
    decreases |s| - i
  {
    if i < |s| && LabelEnd(s, i).Some? then AfterLabels(s, LabelEnd(s, i).value) else i
  }

  predicate OnlyLabels(body: string) {
    AfterLabels(body, 0) == |body|
  }

  /** From `i` on, a dollar is followed by labels and then by another dollar, or
      by the dollars that end the body. */
  predicate DollarsMeet(s: string, i: nat)
    requires i <= |s|
    decreases |s| - i
  {
    if i == |s| then false
    else
      var e := LabelEnd(s, i);
      if e.Some? then DollarsMeet(s, e.value)
      else
        var j := AfterLabels(s, i + 1);
        (s[i] == '$' && j > i + 1 && (j == |s| || s[j] == '$')) || DollarsMeet(s, i + 1)
  }

  /** A label stands between two dollars, the first of which does not begin what
      is left of the body: two dollars at the beginning do not close a block. */
  predicate LabelBetweenDollars(body: string) {
    var j := AfterLabels(body, 0);
    j < |body| && DollarsMeet(body, j + 1)
  }

  lemma {:induction false} CleanedBehindLabels(s: string, i: nat)
    requires i <= |s|
    ensures var j := AfterLabels(s, i);
            Cleaned(s, i) == if j == |s| then "" else [s[j]] + Cleaned(s, j + 1)
    decreases |s| - i
  {
    hide LabelEnd;
    if i < |s| && LabelEnd(s, i).Some? {
      CleanedBehindLabels(s, LabelEnd(s, i).value);
    }
  }

  /** Inside a body no two dollars stand next to each other. */
  lemma IntactBodyApart(b: string, i: nat)
    requires IntactBody(b) && 1 <= i < |b| && b[i] == '$'
    ensures i + 1 < |b| && b[i + 1] != '$'
  {
    var s := b[1..] + "$";
    NoDollarsSuffix(s, i - 1);
    assert s[i - 1..][0] == b[i];
    assert s[i - 1..][1] == if i + 1 < |b| then b[i + 1] else '$';
  }

  lemma NoDollarsStep(c: char, s: string)
    ensures NoDollars(([c] + s) + "$") <==> !(c == '$' && (s == "" || s[0] == '$')) && NoDollars(s + "$")
  {
    hide NoDollars;
    var t := ([c] + s) + "$";
    assert t[1..] == s + "$" && t[0] == c;
    assert t[1] == if s == "" then '$' else s[0];
    NoDollarsUnfolds(t);
  }

  lemma NoDollarsUnfolds(t: string)
    requires |t| >= 2
    ensures NoDollars(t) <==> !(t[0] == '$' && t[1] == '$') && NoDollars(t[1..])
  {
  }

  lemma {:induction false} CleanedMeetsExactly(b: string, i: nat)
    requires IntactBody(b) && 1 <= i <= |b|
    ensures NoDollars(Cleaned(b, i) + "$") <==> !DollarsMeet(b, i)
    decreases |b| - i
  {
    hide LabelEnd, IntactBody, NoDollars;
    if i == |b| {
      LastDollar();
    } else if LabelEnd(b, i).Some? {
      CleanedMeetsExactly(b, LabelEnd(b, i).value);
    } else {
      CleanedMeetsExactly(b, i + 1);
      NoDollarsStep(b[i], Cleaned(b, i + 1));
      CleanedBehindLabels(b, i + 1);
      if b[i] == '$' {
        IntactBodyApart(b, i);
      }
    }
  }

  lemma LastDollar()
    ensures NoDollars("" + "$")
  {
  }

  /** A body without its labels is still a body if and only if it is not only
      labels and holds no label between two dollars. */
  lemma CleanedIsBodyExactly(b: string)
    requires IntactBody(b)
    ensures IntactBody(Cleaned(b, 0)) <==> !OnlyLabels(b) && !LabelBetweenDollars(b)
  {
    hide LabelEnd, NoDollars, DollarsMeet, AfterLabels, Cleaned;
    var j := AfterLabels(b, 0);
    CleanedBehindLabels(b, 0);
    if j < |b| {
      CleanedMeetsExactly(b, j + 1);
      assert Cleaned(b, 0)[1..] == Cleaned(b, j + 1);
    }
  }

  // ---- The blocks are kept, exactly when ----

  /** No body is only labels, and none holds a label between two dollars. */
  predicate LabelsStandApart(d: Doc) {
    d.Block? ==> !OnlyLabels(d.body) && !LabelBetweenDollars(d.body) && LabelsStandApart(d.rest)
  }

  lemma {:induction false} CleanIsCanonicalExactly(d: Doc)
    requires Canonical(d)
    ensures Canonical(WithCleanBodies(d)) <==> LabelsStandApart(d)
  {
    hide IntactGap, IntactBody, HasNoBlock, OnlyLabels, LabelBetweenDollars;
    if d.Block? {
      CleanedIsBodyExactly(d.body);
      CleanIsCanonicalExactly(d.rest);
    }
  }

  /** The result is read as the same gaps and the same blocks, each without its
      labels, if and only if no body is only labels and none holds a label
      between two dollars. */
  lemma StripKeepsBlocksExactly(t: string)
    ensures Parse(StripLabels(t)) == WithCleanBodies(Parse(t)) <==> LabelsStandApart(Parse(t))
  {
    hide Parse, Source, Canonical, WithCleanBodies, LabelsStandApart;
    var d := WithCleanBodies(Parse(t));
    ParseIsReading(t);
    CleanIsCanonicalExactly(Parse(t));
    ParseIsReading(StripLabels(t));
    if Canonical(d) {
      CanonicalIsParsed(d);
    }
  }

  /** A block that is nothing but a label becomes four dollars, and is lost. */
  lemma LabelOnlyBlockIsLost()
    ensures StripLabels("$$\\label{a}$$") == "$$$$" && Parse("$$$$") == End("$$$$")
  {
    hide Parse;
    var body := "\\label{a}";
    var t := "" + ("$$" + (body + ("$$" + "")));
    assert t == "$$\\label{a}$$";
    PlainHasNoDollars(body[1..] + "$");
    PlainHasNoDollars("" + "$");
    ParseBlock("", body, "");
    EmptyParse();
    assert LabelEnd(body, 0) == Some(9) by {
      assert body[0..6] == LABEL;
      assert SkipSpaces(body, 6) == 6;
      assert NextBrace(body, 7) == NextBrace(body, 8) == 8;
    }
    assert Cleaned(body, 0) == "";
    assert WithCleanBodies(Block("", body, End(""))) == Block("", "", End(""));
    assert Source(Block("", "", End(""))) == "" + ("$$" + ("" + ("$$" + "")));
    assert "" + ("$$" + ("" + ("$$" + ""))) == "$$$$";
    ParseUnfolds("$$$$");
    assert FindDollars("$$$$", 0) == Some(0) && FindDollars("$$$$", 3) == None;
  }

  /** A label between a dollar and the end of its block: without it the block
      closes too early. */
  lemma DollarsThatMeetCloseTheBlock()
    ensures Parse(StripLabels("$$x$\\label{}$$")) != WithCleanBodies(Parse("$$x$\\label{}$$"))
  {
    hide Parse, WithCleanBodies, LabelBetweenDollars, OnlyLabels, IntactBody, IntactGap, StripLabels;
    var body := "x$\\label{}";
    var t := "" + ("$$" + (body + ("$$" + "")));
    assert t == "$$x$\\label{}$$";
    MeetingBody();
    ParseBlock("", body, "");
    StripKeepsBlocksExactly(t);
  }

  lemma MeetingBody()
    ensures IntactGap("") && IntactBody("x$\\label{}") && LabelBetweenDollars("x$\\label{}")
  {
    hide NoDollars, LabelEnd;
    var body := "x$\\label{}";
    var s := body[1..] + "$";
    assert s[0] == '$' && s[1] == '\\' && s[1..] == "\\label{}$";
    NoDollarsUnfolds(s);
    PlainHasNoDollars("\\label{}$");
    PlainHasNoDollars("" + "$");
    MeetingLabel();
    MeetingLabelsEnd();
    assert DollarsMeet(body, 1);
  }

  lemma MeetingLabelsEnd()
    ensures var body := "x$\\label{}";
            AfterLabels(body, 10) == 10 && AfterLabels(body, 2) == 10 && AfterLabels(body, 0) == 0
  {
    hide LabelEnd;
    MeetingLabel();
  }

  lemma MeetingLabel()
    ensures var body := "x$\\label{}";
            LabelEnd(body, 0) == None && LabelEnd(body, 1) == None && LabelEnd(body, 2) == Some(10)
  {
    var body := "x$\\label{}";
    assert body[2..8] == LABEL;
    assert SkipSpaces(body, 8) == 8;
    assert NextBrace(body, 9) == 9;
    assert body[0..6][0] == 'x' && body[1..7][0] == '$';
  }

  lemma EmptyParse()
    ensures Parse("") == End("")
  {
  }

  // ---- Bodies without dollars ----

  predicate Lacks(s: string, c: char) {
    forall k :: 0 <= k < |s| ==> s[k] != c
  }

  lemma {:induction false} CleanedIsPart(s: string, i: nat)
    requires i <= |s|
    ensures IsSubsequence(Cleaned(s, i), s[i..])
    decreases |s| - i
  {
    hide LabelEnd, IsSubsequence;
    if i == |s| {
      SubsequenceSelf("");
      assert s[i..] == "";
    } else {
      var e := LabelEnd(s, i);
      if e.Some? {
        CleanedIsPart(s, e.value);
        assert s[i..] == s[i..e.value] + s[e.value..];
        SubsequencePrepend(s[i..e.value], Cleaned(s, e.value), s[e.value..]);
      } else {
        CleanedIsPart(s, i + 1);
        assert s[i..] == [s[i]] + s[i + 1..];
        SubsequenceSelf([s[i]]);
        SubsequenceAppend([s[i]], [s[i]], Cleaned(s, i + 1), s[i + 1..]);
      }
    }
  }

  /** No body holds a dollar, and none is only labels. */
  predicate PlainBodies(d: Doc) {
    d.Block? ==> Lacks(d.body, '$') && !OnlyLabels(d.body) && PlainBodies(d.rest)
  }

  lemma {:induction false} NoDollarsNoMeeting(s: string, i: nat)
    requires i <= |s| && Lacks(s, '$')
    ensures !DollarsMeet(s, i)
    decreases |s| - i
  {
    hide LabelEnd;
    if i < |s| {
      var e := LabelEnd(s, i);
      NoDollarsNoMeeting(s, if e.Some? then e.value else i + 1);
    }
  }

  lemma {:induction false} PlainBodiesStandApart(d: Doc)
    requires PlainBodies(d)
    ensures LabelsStandApart(d)
  {
    hide OnlyLabels, DollarsMeet, AfterLabels;
    if d.Block? {
      if AfterLabels(d.body, 0) < |d.body| {
        NoDollarsNoMeeting(d.body, AfterLabels(d.body, 0) + 1);
      }
      PlainBodiesStandApart(d.rest);
    }
  }

  lemma StripKeepsPlainBlocks(t: string)
    requires PlainBodies(Parse(t))
    ensures Parse(StripLabels(t)) == WithCleanBodies(Parse(t))
  {
    PlainBodiesStandApart(Parse(t));
    StripKeepsBlocksExactly(t);
  }

  // ---- What is taken out of a body ----

  lemma {:induction false} CountOfNone(c: char, s: string)
    requires Lacks(s, c)
    ensures Count(c, s) == 0
  {
    if s != "" {
      assert forall k :: 0 <= k < |s[1..]| ==> s[1..][k] == s[k + 1];
      CountOfNone(c, s[1..]);
    }
  }

  lemma LabelHead(s: string, i: nat, k: nat)
    requires At(s, i, LABEL) && i <= k < SkipSpaces(s, i + |LABEL|)
    ensures s[k] != '{' && s[k] != '}'
  {
    if k < i + |LABEL| {
      assert s[k] == s[i..i + |LABEL|][k - i];
    } else {
      SkippedAreSpaces(s, i + |LABEL|, k);
    }
  }

  /** A label holds one opening and one closing brace. */
  lemma LabelHoldsOneGroup(s: string, i: nat, c: char)
    requires i <= |s| && LabelEnd(s, i).Some? && (c == '{' || c == '}')
    ensures Count(c, s[i..LabelEnd(s, i).value]) == 1
  {
    hide Count, NextBrace, SkipSpaces;
    var open := SkipSpaces(s, i + |LABEL|);
    var close := NextBrace(s, open + 1);
    var head, body := s[i..open], s[open + 1..close];
    forall k | 0 <= k < |head| ensures head[k] != c {
      LabelHead(s, i, i + k);
    }
    forall k | 0 <= k < |body| ensures body[k] != c {
      NoBraceBefore(s, open + 1, open + 1 + k);
    }
    CountOfNone(c, head);
    CountOfNone(c, body);
    OneGroup(head, body, c);
    assert s[i..close + 1] == head + ("{" + (body + "}"));
  }

  lemma OneGroup(head: string, body: string, c: char)
    requires Count(c, head) == 0 && Count(c, body) == 0 && (c == '{' || c == '}')
    ensures Count(c, head + ("{" + (body + "}"))) == 1
  {
    CountAppend(c, head, "{" + (body + "}"));
    CountAppend(c, "{", body + "}");
    CountAppend(c, body, "}");
  }

  /** Equally many opening and closing braces are taken out. */
  lemma {:induction false} CleaningConservesBraces(s: string, i: nat)
    requires i <= |s|
    ensures Count('{', s[i..]) - Count('{', Cleaned(s, i)) == Count('}', s[i..]) - Count('}', Cleaned(s, i))
    decreases |s| - i
  {
    hide LabelEnd, Count;
    if i < |s| {
      var e := LabelEnd(s, i);
      if e.Some? {
        CleaningConservesBraces(s, e.value);
        LabelHoldsOneGroup(s, i, '{');
        LabelHoldsOneGroup(s, i, '}');
        assert s[i..] == s[i..e.value] + s[e.value..];
        CountAppend('{', s[i..e.value], s[e.value..]);
        CountAppend('}', s[i..e.value], s[e.value..]);
      } else {
        CleaningConservesBraces(s, i + 1);
        assert s[i..] == [s[i]] + s[i + 1..];
        CountAppend('{', [s[i]], s[i + 1..]);
        CountAppend('}', [s[i]], s[i + 1..]);
        CountAppend('{', [s[i]], Cleaned(s, i + 1));
        CountAppend('}', [s[i]], Cleaned(s, i + 1));
      }
    } else {
      assert s[i..] == "";
      CountOfNone('{', "");
      CountOfNone('}', "");
    }
  }
}
