/** The line-local test for a position inside a TeX `%` comment, measured
    against a lexer that reads the whole text from its start. */
module LineComments {
  import opened Text
  import opened Braces

  datatype Mode = Normal | Escaped | Comment

  /** One step of the global lexer: escapes pair up, an unescaped `%` opens a
      comment, and only a newline ends one. */
  function Advance(m: Mode, c: char): Mode {
    match m
    case Normal => if c == '\\' then Escaped else if c == '%' then Comment else Normal
    case Escaped => Normal
    case Comment => if c == '\n' then Normal else Comment
  }

  /** The lexer's mode when it has read the first `pos` characters. */
  function ModeAt(t: string, pos: nat): Mode
    requires pos <= |t|
  {
    if pos == 0 then Normal else Advance(ModeAt(t, pos - 1), t[pos - 1])
  }

  /** `text.rfind("\n", 0, pos) + 1`. */
  function LineStart(t: string, pos: nat): (s: nat)
    requires pos <= |t|
    ensures s <= pos && (s > 0 ==> t[s - 1] == '\n')
    ensures forall k :: s <= k < pos ==> t[k] != '\n'
  {
    if pos == 0 || t[pos - 1] == '\n' then pos else LineStart(t, pos - 1)
  }

  /** No comment and no open escape survives a newline. */
  lemma LineStartsAreNormal(t: string, pos: nat)
    requires 0 < pos <= |t| && t[pos - 1] == '\n'
    ensures ModeAt(t, pos) == Normal
  {
  }

  /** A comment that is open stays open up to the end of its line. */
  lemma {:induction false} CommentPersists(t: string, i: nat, pos: nat)
    requires i <= pos <= |t| && ModeAt(t, i) == Comment
    requires forall k :: i <= k < pos ==> t[k] != '\n'
    ensures ModeAt(t, pos) == Comment
    decreases pos - i
  {
    if i < pos {
      CommentPersists(t, i + 1, pos);
    }
  }

  // ---- Comments without a lexer ----

  /** A `%` that no backslash escapes: an even number of them stands before it. */
  predicate IsOpenPercent(t: string, q: nat) {
    q < |t| && t[q] == '%' && Backslashes(t, 0, q) % 2 == 0
  }

  /** Such a `%` stands before `pos` on the same line. */
  predicate InComment(t: string, pos: nat)
    requires pos <= |t|
  {
    exists q :: 0 <= q < pos && IsOpenPercent(t, q) && forall k :: q <= k < pos ==> t[k] != '\n'
  }

  /** Outside comments an escape is open exactly behind an odd number of
      backslashes. */
  lemma {:induction false} EscapesAreOdd(t: string, pos: nat)
    requires pos <= |t| && ModeAt(t, pos) != Comment
    ensures ModeAt(t, pos) == Escaped <==> Backslashes(t, 0, pos) % 2 == 1
  {
    if pos > 0 {
      if ModeAt(t, pos - 1) != Comment {
        EscapesAreOdd(t, pos - 1);
      }
    }
  }

  lemma {:induction false} CommentIsOpened(t: string, pos: nat)
    requires pos <= |t| && ModeAt(t, pos) == Comment
    ensures InComment(t, pos)
  {
    if ModeAt(t, pos - 1) == Comment {
      CommentIsOpened(t, pos - 1);
      var q :| 0 <= q < pos - 1 && IsOpenPercent(t, q) && forall k :: q <= k < pos - 1 ==> t[k] != '\n';
      assert forall k :: q <= k < pos ==> t[k] != '\n';
    } else {
      EscapesAreOdd(t, pos - 1);
      assert IsOpenPercent(t, pos - 1);
    }
  }

  /** The lexer is in a comment exactly where an unescaped `%` stands earlier on
      the line. */
  lemma InCommentExactly(t: string, pos: nat)
    requires pos <= |t|
    ensures ModeAt(t, pos) == Comment <==> InComment(t, pos)
  {
    hide ModeAt;
    if ModeAt(t, pos) == Comment {
      CommentIsOpened(t, pos);
    }
    if InComment(t, pos) {
      var q :| 0 <= q < pos && IsOpenPercent(t, q) && forall k :: q <= k < pos ==> t[k] != '\n';
      PercentOpens(t, q);
      CommentPersists(t, q + 1, pos);
    }
  }

  lemma PercentOpens(t: string, q: nat)
    requires IsOpenPercent(t, q)
    ensures ModeAt(t, q + 1) == Comment
  {
    if ModeAt(t, q) != Comment {
      EscapesAreOdd(t, q);
    }
  }

  /** `_is_in_line_comment` agrees with the global lexer at every position. */
  method IsInLineComment(text: string, pos: nat) returns (inside: bool)
    requires pos <= |text|
    ensures inside <==> ModeAt(text, pos) == Comment
    ensures inside <==> InComment(text, pos)
  {
    InCommentExactly(text, pos);
    var i := LineStart(text, pos);
    if i > 0 {
      LineStartsAreNormal(text, i);
    }
    while i < pos
      invariant LineStart(text, pos) <= i <= |text|
      invariant i < pos ==> ModeAt(text, i) == Normal
      invariant i >= pos ==> ModeAt(text, pos) != Comment
    {
      var ch := text[i];
      if ch == '\\' && i + 1 < |text| {
        assert ModeAt(text, i + 1) == Escaped;
        i := i + 2;
        continue;
      }
      if ch == '%' {
        CommentPersists(text, i + 1, pos);
        return true;
      }
      i := i + 1;
    }
    return false;
  }
}
