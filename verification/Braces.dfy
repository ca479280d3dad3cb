/** The balanced-brace matcher of the TeX tools, and the grammar of balanced
    TeX text it is measured against. */
module Braces {
  import opened Text

  /** A balanced text as a sequence of plain characters, backslash escapes and
      braced groups. */
  datatype Forest =
    | End
    | Char(c: char, rest: Forest)
    | Escape(c: char, rest: Forest)
    | Group(body: Forest, rest: Forest)

  predicate IsPlain(c: char) {
    c != '\\' && c != '{' && c != '}'
  }

  predicate Proper(f: Forest) {
    match f
    case End => true
    case Char(c, rest) => IsPlain(c) && Proper(rest)
    case Escape(_, rest) => Proper(rest)
    case Group(body, rest) => Proper(body) && Proper(rest)
  }

  function Print(f: Forest): string {
    match f
    case End => ""
    case Char(c, rest) => [c] + Print(rest)
    case Escape(c, rest) => ['\\', c] + Print(rest)
    case Group(body, rest) => "{" + Print(body) + "}" + Print(rest)
  }

  ghost predicate Balanced(t: string) {
    exists f :: Proper(f) && Print(f) == t
  }

  /** The brace at `open` encloses a balanced text that ends just before the
      brace at `close`. */
  ghost predicate Encloses(t: string, open: nat, close: nat) {
    open < close < |t| && t[open] == '{' && t[close] == '}' && Balanced(t[open + 1..close])
  }

  datatype BraceMatch = Close(at: nat) | NotABrace | Unbalanced

  /** Where a scan of `t[..n]` that stands at `i` inside `depth` open groups
      meets the brace that closes the outermost of them. */
  function CloseFrom(t: string, i: nat, n: nat, depth: nat): (c: Option<nat>)
    requires i <= n <= |t| && depth >= 1
    ensures c.Some? ==> i <= c.value < n && t[c.value] == '}'
    decreases n - i
  {
    if i == n then None
    else if t[i] == '\\' && i + 1 < n then CloseFrom(t, i + 2, n, depth)
    else if t[i] == '{' then CloseFrom(t, i + 1, n, depth + 1)
    else if t[i] == '}' then (if depth == 1 then Some(i) else CloseFrom(t, i + 1, n, depth - 1))
    else CloseFrom(t, i + 1, n, depth)
  }

  /** The index of the brace matching the one at `open`, if there is one. */
  function MatchingClose(t: string, open: nat): (c: Option<nat>)
    ensures c.Some? ==> open < c.value < |t| && t[open] == '{' && t[c.value] == '}'
  {
    if open >= |t| || t[open] != '{' then None else CloseFrom(t, open + 1, |t|, 1)
  }

  // ---- Reading a forest in place ----

  function Width(f: Forest): nat {
    match f
    case End => 0
    case Char(_, rest) => 1 + Width(rest)
    case Escape(_, rest) => 2 + Width(rest)
    case Group(body, rest) => 2 + Width(body) + Width(rest)
  }

  lemma WidthUnfolds(f: Forest)
    ensures Width(f) == match f
                        case End => 0
                        case Char(_, rest) => 1 + Width(rest)
                        case Escape(_, rest) => 2 + Width(rest)
                        case Group(body, rest) => 2 + Width(body) + Width(rest)
  {
  }

  /** The text holds `f` from position `i` on. */
  predicate Holds(t: string, i: nat, f: Forest)
    decreases f
  {
    match f
    case End => i <= |t|
    case Char(c, rest) => i < |t| && t[i] == c && Holds(t, i + 1, rest)
    case Escape(c, rest) => i + 1 < |t| && t[i] == '\\' && t[i + 1] == c && Holds(t, i + 2, rest)
    case Group(body, rest) =>
      && i < |t| && t[i] == '{' && Holds(t, i + 1, body)
      && i + 1 + Width(body) < |t| && t[i + 1 + Width(body)] == '}'
      && Holds(t, i + 2 + Width(body), rest)
  }

  lemma {:induction false} WidthIsLength(f: Forest)
    ensures Width(f) == |Print(f)|
  {
    match f
    case End =>
    case Char(_, rest) => WidthIsLength(rest);
    case Escape(_, rest) => WidthIsLength(rest);
    case Group(body, rest) =>
      WidthIsLength(body);
      WidthIsLength(rest);
  }

  lemma {:induction false} HoldsIsPrinted(t: string, i: nat, f: Forest)
    ensures Holds(t, i, f) <==> At(t, i, Print(f))
    decreases f
  {
    hide At, Width;
    match f
    case End =>
      AtNothing(t, i);
    case Char(c, rest) =>
      HoldsIsPrinted(t, i + 1, rest);
      CharAt(t, i, c, Print(rest));
    case Escape(c, rest) =>
      HoldsIsPrinted(t, i + 2, rest);
      EscapeAt(t, i, c, Print(rest));
    case Group(body, rest) =>
      WidthIsLength(body);
      HoldsIsPrinted(t, i + 1, body);
      HoldsIsPrinted(t, i + 2 + Width(body), rest);
      GroupAt(t, i, Print(body), Print(rest));
  }

  lemma CharAt(t: string, i: nat, c: char, rest: string)
    ensures At(t, i, [c] + rest) <==> i < |t| && t[i] == c && At(t, i + 1, rest)
  {
    AtAppend(t, i, [c], rest);
    AtOne(t, i, c);
  }

  lemma EscapeAt(t: string, i: nat, c: char, rest: string)
    ensures At(t, i, ['\\', c] + rest) <==> i + 1 < |t| && t[i] == '\\' && t[i + 1] == c && At(t, i + 2, rest)
  {
    assert ['\\', c] + rest == ['\\'] + ([c] + rest);
    CharAt(t, i, '\\', [c] + rest);
    CharAt(t, i + 1, c, rest);
  }

  lemma GroupAt(t: string, i: nat, body: string, rest: string)
    ensures At(t, i, "{" + body + "}" + rest) <==>
            && i < |t| && t[i] == '{' && At(t, i + 1, body)
            && i + 1 + |body| < |t| && t[i + 1 + |body|] == '}'
            && At(t, i + 2 + |body|, rest)
  {
    AtAppend(t, i, "{" + body + "}", rest);
    AtAppend(t, i, "{" + body, "}");
    AtAppend(t, i, "{", body);
    AtOne(t, i, '{');
    AtOne(t, i + 1 + |body|, '}');
  }

  lemma CloseUnfolds(t: string, i: nat, n: nat, depth: nat)
    requires i < n <= |t| && depth >= 1
    ensures CloseFrom(t, i, n, depth) ==
            if t[i] == '\\' && i + 1 < n then CloseFrom(t, i + 2, n, depth)
            else if t[i] == '{' then CloseFrom(t, i + 1, n, depth + 1)
            else if t[i] == '}' then (if depth == 1 then Some(i) else CloseFrom(t, i + 1, n, depth - 1))
            else CloseFrom(t, i + 1, n, depth)
  {
  }

  lemma NothingCloses(t: string, n: nat, depth: nat)
    requires n <= |t| && depth >= 1
    ensures CloseFrom(t, n, n, depth) == None
  {
  }

  /** The forest read from `i` up to the brace that closes the group around it. */
  ghost function ReadForest(t: string, i: nat, n: nat): Forest
    requires i <= n <= |t| && CloseFrom(t, i, n, 1).Some?
    decreases n - i
  {
    if t[i] == '\\' && i + 1 < n then Escape(t[i + 1], ReadForest(t, i + 2, n))
    else if t[i] == '{' then
      CloseInTwoSteps(t, i + 1, n, 1, 1);
      Group(ReadForest(t, i + 1, n), ReadForest(t, CloseFrom(t, i + 1, n, 1).value + 1, n))
    else if t[i] == '}' then End
    else Char(t[i], ReadForest(t, i + 1, n))
  }

  /** Leaving `a + b` groups is leaving `a` of them and then `b` more. */
  lemma {:induction false} CloseInTwoSteps(t: string, i: nat, n: nat, a: nat, b: nat)
    requires i <= n <= |t| && a >= 1 && b >= 1
    ensures CloseFrom(t, i, n, a + b) == match CloseFrom(t, i, n, a)
                                         case None => None
                                         case Some(c) => CloseFrom(t, c + 1, n, b)
    decreases n - i
  {
    hide CloseFrom;
    if i == n {
      NothingCloses(t, n, a);
      NothingCloses(t, n, a + b);
    } else {
      CloseUnfolds(t, i, n, a);
      CloseUnfolds(t, i, n, a + b);
      if t[i] == '\\' && i + 1 < n {
        CloseInTwoSteps(t, i + 2, n, a, b);
      } else if t[i] == '{' {
        CloseInTwoSteps(t, i + 1, n, a + 1, b);
      } else if t[i] != '}' {
        CloseInTwoSteps(t, i + 1, n, a, b);
      } else if a > 1 {
        CloseInTwoSteps(t, i + 1, n, a - 1, b);
      }
    }
  }

  lemma {:induction false} ReadForestIsHeld(t: string, i: nat, n: nat)
    requires i <= n <= |t| && CloseFrom(t, i, n, 1).Some?
    ensures Proper(ReadForest(t, i, n)) && Holds(t, i, ReadForest(t, i, n))
    ensures i + Width(ReadForest(t, i, n)) == CloseFrom(t, i, n, 1).value
    decreases n - i
  {
    hide CloseFrom;
    CloseUnfolds(t, i, n, 1);
    if t[i] == '\\' && i + 1 < n {
      ReadForestIsHeld(t, i + 2, n);
    } else if t[i] == '{' {
      CloseInTwoSteps(t, i + 1, n, 1, 1);
      ReadForestIsHeld(t, i + 1, n);
      ReadForestIsHeld(t, CloseFrom(t, i + 1, n, 1).value + 1, n);
    } else if t[i] != '}' {
      ReadForestIsHeld(t, i + 1, n);
    }
  }

  /** A scan runs over a balanced stretch without changing its depth. */
  lemma {:induction false} ScanOverBalanced(t: string, i: nat, n: nat, f: Forest, depth: nat)
    requires Proper(f) && depth >= 1 && Holds(t, i, f) && i + Width(f) <= n <= |t|
    ensures CloseFrom(t, i, n, depth) == CloseFrom(t, i + Width(f), n, depth)
    decreases f
  {
    hide CloseFrom, Width;
    WidthUnfolds(f);
    match f
    case End =>
    case Char(c, rest) =>
      CloseUnfolds(t, i, n, depth);
      ScanOverBalanced(t, i + 1, n, rest, depth);
    case Escape(c, rest) =>
      CloseUnfolds(t, i, n, depth);
      ScanOverBalanced(t, i + 2, n, rest, depth);
    case Group(body, rest) =>
      var m := i + 1 + Width(body);
      CloseUnfolds(t, i, n, depth);
      ScanOverBalanced(t, i + 1, n, body, depth + 1);
      CloseUnfolds(t, m, n, depth + 1);
      ScanOverBalanced(t, m + 1, n, rest, depth);
  }

  // ---- The matcher against the grammar ----

  /** The matcher finds exactly the partner the grammar gives, in every text. */
  lemma MatchIsTheEnclosingPartner(t: string, open: nat, close: nat)
    ensures MatchingClose(t, open) == Some(close) <==> Encloses(t, open, close)
  {
    if MatchingClose(t, open) == Some(close) {
      var f := ReadForest(t, open + 1, |t|);
      ReadForestIsHeld(t, open + 1, |t|);
      WidthIsLength(f);
      HoldsIsPrinted(t, open + 1, f);
    }
    if Encloses(t, open, close) {
      var f :| Proper(f) && Print(f) == t[open + 1..close];
      WidthIsLength(f);
      HoldsIsPrinted(t, open + 1, f);
      ScanOverBalanced(t, open + 1, |t|, f, 1);
    }
  }

  /** `_match_balanced_brace`: the two failures stand for its two `ValueError`s. */
  method MatchBalancedBrace(text: string, openPos: nat) returns (r: BraceMatch)
    ensures r.NotABrace? <==> openPos >= |text| || text[openPos] != '{'
    ensures r.Close? ==> MatchingClose(text, openPos) == Some(r.at)
    ensures r.Unbalanced? ==> MatchingClose(text, openPos) == None
  {
    if openPos >= |text| || text[openPos] != '{' {
      return NotABrace;
    }
    var depth := 1;
    var i := openPos + 1;
    while i < |text|
      invariant depth >= 1 && openPos < i <= |text|
      invariant CloseFrom(text, i, |text|, depth) == MatchingClose(text, openPos)
    {
      var ch := text[i];
      if ch == '\\' && i + 1 < |text| {
        i := i + 2;
        continue;
      }
      if ch == '{' {
        depth := depth + 1;
      } else if ch == '}' {
        depth := depth - 1;
        if depth == 0 {
          return Close(i);
        }
      }
      i := i + 1;
    }
    return Unbalanced;
  }

  /** Putting a matched argument back between braces, behind any prefix and
      before any suffix, makes the matcher return exactly its end. */
  lemma ArgumentRoundTrip(t: string, open: nat, prefix: string, suffix: string)
    requires MatchingClose(t, open).Some?
    ensures var inner := t[open + 1..MatchingClose(t, open).value];
            MatchingClose(prefix + "{" + inner + "}" + suffix, |prefix|) == Some(|prefix| + 1 + |inner|)
  {
    var close := MatchingClose(t, open).value;
    MatchIsTheEnclosingPartner(t, open, close);
    var inner := t[open + 1..close];
    var u := prefix + "{" + inner + "}" + suffix;
    assert u[|prefix| + 1..|prefix| + 1 + |inner|] == inner;
    MatchIsTheEnclosingPartner(u, |prefix|, |prefix| + 1 + |inner|);
  }

  // ---- Escapes, seen from behind ----

  /** How many backslashes stand directly before `p`, none before `i` counted. */
  function Backslashes(t: string, i: nat, p: nat): nat
    requires i <= p <= |t|
  {
    if i < p && t[p - 1] == '\\' then 1 + Backslashes(t, i, p - 1) else 0
  }

  /** The count does not look behind another character. */
  lemma {:induction false} BackslashesStop(t: string, i: nat, m: nat, p: nat)
    requires i <= m < p <= |t| && t[m] != '\\'
    ensures Backslashes(t, i, p) == Backslashes(t, m + 1, p)
    decreases p
  {
    if p > m + 1 {
      BackslashesStop(t, i, m, p - 1);
    }
  }

  /** An escape pair in front does not change whether the count is even. */
  lemma {:induction false} BackslashesPair(t: string, i: nat, p: nat)
    requires i + 2 <= p <= |t| && t[i] == '\\'
    ensures Backslashes(t, i, p) % 2 == Backslashes(t, i + 2, p) % 2
    decreases p
  {
    if p > i + 2 {
      if t[p - 1] == '\\' {
        BackslashesPair(t, i, p - 1);
      }
    } else {
      assert Backslashes(t, i, i) == 0 && Backslashes(t, i, i + 1) == 1;
    }
  }

  /** Every unescaped brace of a balanced stretch is closed within the stretch. */
  lemma {:induction false} BraceInsideIsClosedInside(t: string, i: nat, n: nat, f: Forest, p: nat)
    requires Proper(f) && Holds(t, i, f) && i <= p < i + Width(f) <= n <= |t|
    requires t[p] == '{' && Backslashes(t, i, p) % 2 == 0
    ensures CloseFrom(t, p + 1, n, 1).Some? && CloseFrom(t, p + 1, n, 1).value < i + Width(f)
    decreases f
  {
    hide CloseFrom, Backslashes, Width;
    WidthUnfolds(f);
    match f
    case End =>
    case Char(c, rest) =>
      BackslashesStop(t, i, i, p);
      BraceInsideIsClosedInside(t, i + 1, n, rest, p);
    case Escape(c, rest) =>
      EscapedIsOdd(t, i);
      if p >= i + 2 {
        BackslashesPair(t, i, p);
        BraceInsideIsClosedInside(t, i + 2, n, rest, p);
      }
    case Group(body, rest) =>
      var m := i + 1 + Width(body);
      if p == i {
        ScanOverBalanced(t, i + 1, n, body, 1);
        CloseUnfolds(t, m, n, 1);
      } else if p < m {
        BackslashesStop(t, i, i, p);
        BraceInsideIsClosedInside(t, i + 1, n, body, p);
      } else {
        BackslashesStop(t, i, m, p);
        BraceInsideIsClosedInside(t, m + 1, n, rest, p);
      }
  }

  lemma EscapedIsOdd(t: string, i: nat)
    requires i + 1 < |t| && t[i] == '\\'
    ensures Backslashes(t, i, i + 1) == 1
  {
  }

  /** Matched groups nest: an unescaped brace inside a matched group, with an even
      number of backslashes before it, is matched before the group ends. */
  lemma MatchesNest(t: string, outer: nat, inner: nat)
    requires MatchingClose(t, outer).Some? && outer < inner < MatchingClose(t, outer).value
    requires t[inner] == '{' && Backslashes(t, 0, inner) % 2 == 0
    ensures MatchingClose(t, inner).Some? && MatchingClose(t, inner).value < MatchingClose(t, outer).value
  {
    BackslashesStop(t, 0, outer, inner);
    ReadForestIsHeld(t, outer + 1, |t|);
    BraceInsideIsClosedInside(t, outer + 1, |t|, ReadForest(t, outer + 1, |t|), inner);
  }
}
