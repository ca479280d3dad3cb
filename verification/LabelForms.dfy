/** Labels as they are written: `\label`, optional whitespace and an argument
    without braces. */
module LabelForms {
  import opened Text
  import opened MathLayout
  import opened MathLabels

  function Label(space: string, name: string): string {
    "\\label" + (space + ("{" + (name + "}")))
  }

  lemma LabelPlaces(s: string, i: nat, space: string, name: string)
    ensures At(s, i, Label(space, name)) <==>
            var open := i + 6 + |space|;
            && At(s, i, "\\label") && At(s, i + 6, space) && open < |s| && s[open] == '{'
            && At(s, open + 1, name) && open + 1 + |name| < |s| && s[open + 1 + |name|] == '}'
  {
    hide At;
    assert |"\\label"| == 6;
    AtAppend(s, i, "\\label", space + ("{" + (name + "}")));
    AtAppend(s, i + 6, space, "{" + (name + "}"));
    AtAppend(s, i + 6 + |space|, "{", name + "}");
    AtAppend(s, i + 7 + |space|, name, "}");
    AtOne(s, i + 6 + |space|, '{');
    AtOne(s, i + 7 + |space| + |name|, '}');
  }

  lemma BraceIsNotListed()
    ensures !IsListed('{') && |LABEL| == 6
  {
  }

  lemma {:induction false} NextBraceIsFirst(s: string, i: nat)
    requires i <= |s|
    ensures Braceless(s[i..NextBrace(s, i)]) && (NextBrace(s, i) < |s| ==> s[NextBrace(s, i)] == '{' || s[NextBrace(s, i)] == '}')
    decreases |s| - i
  {
    var k := NextBrace(s, i);
    if i < |s| && s[i] != '{' && s[i] != '}' {
      NextBraceIsFirst(s, i + 1);
      assert s[i..k] == [s[i]] + s[i + 1..k];
    }
  }

  /** A label that is written is found up to its end. */
  lemma LabelIsFound(s: string, i: nat, space: string, name: string)
    requires IsBlank(space) && Braceless(name) && At(s, i, Label(space, name))
    ensures LabelEnd(s, i) == Some(i + |Label(space, name)|)
  {
    hide At, SkipSpaces, NextBrace, IsListed;
    BraceIsNotListed();
    LabelPlaces(s, i, space, name);
    var open := i + 6 + |space|;
    AtIs(s, i + 6, space);
    AtIs(s, open + 1, name);
    SkipOverBlank(s, i + 6, open);
    NextBraceIs(s, open + 1, open + 1 + |name|);
  }

  /** A label is found where one is written, and nowhere else. */
  lemma LabelExactly(s: string, i: nat, e: nat)
    ensures LabelEnd(s, i) == Some(e) <==>
            exists space, name :: IsBlank(space) && Braceless(name) && At(s, i, Label(space, name))
                                  && e == i + |Label(space, name)|
  {
    hide At, SkipSpaces, NextBrace, IsListed, Label;
    BraceIsNotListed();
    if LabelEnd(s, i) == Some(e) {
      var open := SkipSpaces(s, i + 6);
      SkippedIsBlank(s, i + 6);
      NextBraceIsFirst(s, open + 1);
      SliceStands(s, i + 6, open);
      SliceStands(s, open + 1, e - 1);
      var space, name := s[i + 6..open], s[open + 1..e - 1];
      LabelPlaces(s, i, space, name);
      LabelIsFound(s, i, space, name);
    }
    forall space, name | IsBlank(space) && Braceless(name) && At(s, i, Label(space, name))
                         && e == i + |Label(space, name)|
      ensures LabelEnd(s, i) == Some(e)
    {
      LabelIsFound(s, i, space, name);
    }
  }

  // ---- Cleaning ----

  lemma NoLabelHere(s: string, i: nat)
    requires i < |s| && s[i] != '\\'
    ensures LabelEnd(s, i) == None
  {
    AtHas(s, i, LABEL, 0);
  }

  lemma CleanedUnfolds(s: string, i: nat)
    requires i <= |s|
    ensures Cleaned(s, i) ==
            if i == |s| then ""
            else if LabelEnd(s, i).Some? then Cleaned(s, LabelEnd(s, i).value)
            else [s[i]] + Cleaned(s, i + 1)
  {
    hide LabelEnd;
  }

  /** Text without backslashes is kept. */
  lemma {:induction false} PlainIsKept(s: string, i: nat, j: nat)
    requires i <= j <= |s| && forall k :: i <= k < j ==> s[k] != '\\'
    ensures Cleaned(s, i) == s[i..j] + Cleaned(s, j)
    decreases j - i
  {
    hide LabelEnd, Cleaned;
    if i < j {
      NoLabelHere(s, i);
      CleanedUnfolds(s, i);
      PlainIsKept(s, i + 1, j);
      assert s[i..j] == [s[i]] + s[i + 1..j];
      Associate([s[i]], s[i + 1..j], Cleaned(s, j));
    } else {
      assert s[i..j] == "" && "" + Cleaned(s, j) == Cleaned(s, j);
    }
  }

  /** A label between texts without backslashes is taken out, and nothing else. */
  lemma LabelIsTakenOut(x: string, space: string, name: string, y: string)
    requires IsBlank(space) && Braceless(name)
    requires Lacks(x, '\\') && Lacks(y, '\\')
    ensures Cleaned(x + (Label(space, name) + y), 0) == x + y
  {
    hide LabelEnd, Cleaned, Label, At;
    var w := Label(space, name);
    var s := x + (w + y);
    var end := |x| + |w|;
    MiddlePiece(x, w, y);
    LabelIsFound(s, |x|, space, name);
    PlainIsKept(s, 0, |x|);
    LabelIsLong(space, name);
    CleanedUnfolds(s, |x|);
    PlainIsKept(s, end, |s|);
    CleanedUnfolds(s, |s|);
    assert y + "" == y;
  }

  lemma LabelIsLong(space: string, name: string)
    ensures Label(space, name) != ""
  {
  }

  /** In the text: the label of a block is taken out, and the block is otherwise as it
      was. */
  lemma LabelOfABlockIsTakenOut(gap: string, x: string, space: string, name: string, y: string, rest: string)
    requires IsBlank(space) && Braceless(name) && Lacks(x, '\\') && Lacks(y, '\\')
    requires IntactGap(gap) && IntactBody(x + (Label(space, name) + y))
    ensures StripLabels(gap + ("$$" + ((x + (Label(space, name) + y)) + ("$$" + rest))))
         == gap + ("$$" + ((x + y) + ("$$" + StripLabels(rest))))
  {
    hide Cleaned, Parse, IntactGap, IntactBody, Label;
    var body := x + (Label(space, name) + y);
    ParseBlock(gap, body, rest);
    LabelIsTakenOut(x, space, name, y);
  }

  /** A text without blocks is left as it is. */
  lemma NoBlockNoChange(t: string)
    requires HasNoBlock(t)
    ensures StripLabels(t) == t
  {
  }
}
