/** Commands as they are written: a backslash, the name, optional whitespace and a
    balanced argument between braces. */
module CommandForms {
  import opened Text
  import opened Braces
  import opened LineComments
  import opened Commands

  /** `\command`, whitespace and an opening brace. */
  function Opening(command: string, space: string): string {
    "\\" + (command + (space + "{"))
  }

  function Command(command: string, space: string, inner: string): string {
    Opening(command, space) + (inner + "}")
  }

  lemma OpeningPlaces(tex: string, command: string, space: string, p: nat)
    requires At(tex, p, Opening(command, space))
    ensures var q := p + 1 + |command|;
            && q + |space| < |tex| && tex[p] == '\\' && At(tex, p + 1, command)
            && tex[q..q + |space|] == space && tex[q + |space|] == '{'
  {
    hide At;
    var q := p + 1 + |command|;
    AtAppend(tex, p, "\\", command + (space + "{"));
    AtAppend(tex, p + 1, command, space + "{");
    AtAppend(tex, q, space, "{");
    AtOne(tex, p, '\\');
    AtOne(tex, q + |space|, '{');
    AtIs(tex, q, space);
  }

  lemma OpeningStands(tex: string, command: string, p: nat, brace: nat)
    requires p + 1 + |command| <= brace < |tex| && tex[p] == '\\' && At(tex, p + 1, command) && tex[brace] == '{'
    ensures At(tex, p, Opening(command, tex[p + 1 + |command|..brace]))
  {
    hide At;
    var q := p + 1 + |command|;
    var space := tex[q..brace];
    AtAppend(tex, p, "\\", command + (space + "{"));
    AtAppend(tex, p + 1, command, space + "{");
    AtAppend(tex, q, space, "{");
    AtOne(tex, p, '\\');
    AtOne(tex, brace, '{');
    SliceStands(tex, q, brace);
  }

  /** An occurrence is the name behind a backslash, then nothing but whitespace, then
      a brace; the brace is the one found. */
  lemma OccursExactly(tex: string, command: string, p: nat)
    ensures OccursAt(tex, command, p) <==> exists space :: IsBlank(space) && At(tex, p, Opening(command, space))
    ensures forall space :: IsBlank(space) && At(tex, p, Opening(command, space)) ==>
              OccursAt(tex, command, p) && BraceAt(tex, command, p) == p + 1 + |command| + |space|
  {
    hide At, SkipSpaces, Opening, IsListed;
    if OccursAt(tex, command, p) {
      var q := p + 1 + |command|;
      SkippedIsBlank(tex, q);
      OpeningStands(tex, command, p, BraceAt(tex, command, p));
    }
    forall space | IsBlank(space) && At(tex, p, Opening(command, space))
      ensures OccursAt(tex, command, p) && BraceAt(tex, command, p) == p + 1 + |command| + |space|
    {
      OpeningPlaces(tex, command, space, p);
      BraceIsNotListed();
      SkipOverBlank(tex, p + 1 + |command|, p + 1 + |command| + |space|);
    }
  }

  lemma BraceIsNotListed()
    ensures !IsListed('{')
  {
  }

  lemma CommandPlaces(tex: string, command: string, space: string, inner: string, p: nat)
    ensures At(tex, p, Command(command, space, inner)) <==>
            var brace := p + 1 + |command| + |space|;
            && At(tex, p, Opening(command, space)) && At(tex, brace + 1, inner)
            && brace + 1 + |inner| < |tex| && tex[brace + 1 + |inner|] == '}'
  {
    hide At;
    var brace := p + 1 + |command| + |space|;
    AtAppend(tex, p, Opening(command, space), inner + "}");
    AtAppend(tex, brace + 1, inner, "}");
    AtOne(tex, brace + 1 + |inner|, '}');
  }

  /** Position `p` declares the command with the argument `inner`: the command stands
      there as it is written, and no comment is open. */
  ghost predicate IsDeclaration(tex: string, command: string, p: nat, inner: string) {
    && p <= |tex| && !InComment(tex, p) && Balanced(inner)
    && exists space :: IsBlank(space) && At(tex, p, Command(command, space, inner))
  }

  lemma DeclaresIsDeclaration(tex: string, command: string, p: nat)
    requires Declares(tex, command, p)
    ensures IsDeclaration(tex, command, p, Argument(tex, Match(p, BraceAt(tex, command, p))))
  {
    hide At, Opening, Command, MatchingClose, BraceAt, Balanced, InComment, ModeAt, IsBlank, OccursAt;
    InCommentExactly(tex, p);
    OccursExactly(tex, command, p);
    var space :| IsBlank(space) && At(tex, p, Opening(command, space));
    var brace := BraceAt(tex, command, p);
    var close := MatchingClose(tex, brace).value;
    MatchIsTheEnclosingPartner(tex, brace, close);
    SliceStands(tex, brace + 1, close);
    CommandPlaces(tex, command, space, tex[brace + 1..close], p);
  }

  lemma DeclarationDeclares(tex: string, command: string, p: nat, inner: string)
    requires IsDeclaration(tex, command, p, inner)
    ensures Declares(tex, command, p) && Argument(tex, Match(p, BraceAt(tex, command, p))) == inner
  {
    hide At, Opening, Command, MatchingClose, BraceAt, Balanced, InComment, ModeAt, IsBlank, OccursAt;
    InCommentExactly(tex, p);
    var space :| IsBlank(space) && At(tex, p, Command(command, space, inner));
    CommandPlaces(tex, command, space, inner, p);
    OccursExactly(tex, command, p);
    OpeningPlaces(tex, command, space, p);
    var brace := BraceAt(tex, command, p);
    AtIs(tex, brace + 1, inner);
    MatchIsTheEnclosingPartner(tex, brace, brace + 1 + |inner|);
  }

  /** `_find_command_inner` in terms of what is written: it returns the argument of the
      first `\command{...}` outside comments whose argument is balanced, and nothing
      exactly when there is none. */
  lemma ExtractionIsOfTheFirst(tex: string, command: string)
    requires IsCommandName(command)
    ensures match Declaration(tex, command)
            case None => forall p: nat, inner :: !IsDeclaration(tex, command, p, inner)
            case Some(d) => IsDeclaration(tex, command, d.start, Argument(tex, d))
                            && forall p: nat, inner :: p < d.start ==> !IsDeclaration(tex, command, p, inner)
  {
    hide IsDeclaration, Declares, Declaration, Argument, IsCommandName;
    DeclarationIsLeftmost(tex, command);
    forall p: nat, inner | IsDeclaration(tex, command, p, inner)
      ensures Declares(tex, command, p)
    {
      DeclarationDeclares(tex, command, p, inner);
    }
    var d := Declaration(tex, command);
    if d.Some? {
      DeclaresIsDeclaration(tex, command, d.value.start);
      SameMatch(d.value, tex, command);
    }
  }

  lemma SameMatch(d: Match, tex: string, command: string)
    requires Declares(tex, command, d.start) && d.brace == BraceAt(tex, command, d.start)
    ensures d == Match(d.start, BraceAt(tex, command, d.start))
  {
  }

  /** Behind a text without backslashes and outside a comment, a declaration with any
      whitespace before its brace is the one that is extracted. */
  lemma ExtractionRoundTripBehind(x: string, command: string, space: string, inner: string, y: string)
    requires IsCommandName(command) && IsBlank(space) && Balanced(inner)
    requires forall i :: 0 <= i < |x| ==> x[i] != '\\'
    requires !InComment(x + (Command(command, space, inner) + y), |x|)
    ensures var tex := x + (Command(command, space, inner) + y);
            var d := Declaration(tex, command);
            d.Some? && d.value.start == |x| && Argument(tex, d.value) == inner
  {
    hide Declaration, Argument, IsCommandName, Command, InComment, Balanced, IsBlank, BraceAt, Usable;
    var tex := x + (Command(command, space, inner) + y);
    MiddlePiece(x, Command(command, space, inner), y);
    assert IsDeclaration(tex, command, |x|, inner);
    DeclarationDeclares(tex, command, |x|, inner);
    DeclarationIsLeftmost(tex, command);
    forall p: nat | p < |x| ensures !Declares(tex, command, p) {
      assert tex[p] == x[p];
    }
  }

  // ---- Stripping ----

  /** What is stripped is what is written: a command with a balanced argument, from
      its backslash to its closing brace. */
  lemma RemovableExactly(tex: string, command: string, p: nat)
    ensures Removable(tex, command, p) <==>
            exists space, inner :: IsBlank(space) && Balanced(inner) && At(tex, p, Command(command, space, inner))
    ensures forall space, inner :: IsBlank(space) && Balanced(inner) && At(tex, p, Command(command, space, inner)) ==>
              Removable(tex, command, p) && CloseOf(tex, command, p) == p + |Command(command, space, inner)| - 1
  {
    hide At, Opening, Command, MatchingClose, BraceAt, Balanced, IsBlank, OccursAt;
    if Removable(tex, command, p) {
      OccursExactly(tex, command, p);
      var space :| IsBlank(space) && At(tex, p, Opening(command, space));
      var brace := BraceAt(tex, command, p);
      var close := MatchingClose(tex, brace).value;
      MatchIsTheEnclosingPartner(tex, brace, close);
      SliceStands(tex, brace + 1, close);
      CommandPlaces(tex, command, space, tex[brace + 1..close], p);
    }
    forall space, inner | IsBlank(space) && Balanced(inner) && At(tex, p, Command(command, space, inner))
      ensures Removable(tex, command, p) && CloseOf(tex, command, p) == p + |Command(command, space, inner)| - 1
    {
      WrittenIsRemovable(tex, command, p, space, inner);
    }
  }

  lemma CommandLength(command: string, space: string, inner: string)
    ensures |Command(command, space, inner)| == |command| + |space| + |inner| + 3
  {
  }

  lemma WrittenIsRemovable(tex: string, command: string, p: nat, space: string, inner: string)
    requires IsBlank(space) && Balanced(inner) && At(tex, p, Command(command, space, inner))
    ensures Removable(tex, command, p) && CloseOf(tex, command, p) == p + |Command(command, space, inner)| - 1
  {
    hide At, Opening, Command, MatchingClose, BraceAt, Balanced, IsBlank, OccursAt;
    CommandLength(command, space, inner);
    CommandPlaces(tex, command, space, inner, p);
    OccursExactly(tex, command, p);
    OpeningPlaces(tex, command, space, p);
    var brace := BraceAt(tex, command, p);
    AtIs(tex, brace + 1, inner);
    MatchIsTheEnclosingPartner(tex, brace, brace + 1 + |inner|);
  }

  predicate BackslashFree(s: string) {
    forall i :: 0 <= i < |s| ==> s[i] != '\\'
  }

  /** Which positions lie outside when the only removable command is `w` behind `x`. */
  lemma OutsideOfOne(tex: string, command: string, start: nat, end: nat)
    requires start < end <= |tex| && Removable(tex, command, start) && CloseOf(tex, command, start) + 1 == end
    requires forall p :: Removable(tex, command, p) ==> p == start
    ensures !HasNested(tex, command)
    ensures forall p: nat | p < |tex| :: p in OutsideOccurrences(tex, command) <==> p < start || end <= p
  {
    hide Removable, CloseOf;
    forall p: nat | start <= p < end ensures InOccurrence(tex, command, p) {
      assert start <= p && Removable(tex, command, start) && p <= CloseOf(tex, command, start);
    }
  }

  /** A command in a text without other backslashes is taken out of it. */
  lemma StripTakesTheCommandOut(x: string, command: string, space: string, inner: string, y: string)
    requires IsCommandName(command) && IsBlank(space) && Balanced(inner)
    requires BackslashFree(x) && BackslashFree(inner) && BackslashFree(y)
    ensures Stripped(x + (Command(command, space, inner) + y), command) == x + y
  {
    hide At, Command, Balanced, Pick, Stripped, Removable, CloseOf, BackslashFree, IsBlank, IsCommandName, OutsideOccurrences,
         HasNested;
    var w := Command(command, space, inner);
    var tex := x + (w + y);
    var end := |x| + |w|;
    CommandLength(command, space, inner);
    MiddlePiece(x, w, y);
    WrittenIsRemovable(tex, command, |x|, space, inner);
    forall p | Removable(tex, command, p) ensures p == |x| {
      OnlyBackslash(x, command, space, inner, y, p);
    }
    OutsideOfOne(tex, command, |x|, end);
    StripCommandIsExactUnlessNested(tex, command);
    PickAround(tex, OutsideOccurrences(tex, command), |x|, end);
  }

  lemma PickAround(t: string, keep: set<nat>, start: nat, end: nat)
    requires start <= end <= |t| && forall p: nat | p < |t| :: p in keep <==> p < start || end <= p
    ensures Pick(t, keep, 0) == t[0..start] + t[end..|t|]
  {
    hide Pick;
    PickRun(t, keep, true, 0, start);
    PickRun(t, keep, false, start, end);
    PickRun(t, keep, true, end, |t|);
    PickNothing(t, keep);
    assert t[end..|t|] + "" == t[end..|t|] && "" + t[end..|t|] == t[end..|t|];
  }

  lemma OnlyBackslash(x: string, command: string, space: string, inner: string, y: string, p: nat)
    requires IsCommandName(command) && IsBlank(space) && BackslashFree(x) && BackslashFree(inner) && BackslashFree(y)
    requires Removable(x + (Command(command, space, inner) + y), command, p)
    ensures p == |x|
  {
    hide At, MatchingClose, BraceAt, IsCommandName;
    CommandIsBackslashFree(command);
    BlankIsBackslashFree(space);
    var tex := x + (Command(command, space, inner) + y);
    assert tex == x + ("\\" + (command + (space + ("{" + (inner + ("}" + y))))));
    assert tex[p] == '\\';
  }

  lemma CommandIsBackslashFree(command: string)
    requires IsCommandName(command)
    ensures BackslashFree(command)
  {
  }

  lemma BlankIsBackslashFree(s: string)
    requires IsBlank(s)
    ensures BackslashFree(s)
  {
    assert forall i :: 0 <= i < |s| ==> IsListed(s[i]);
  }
}
