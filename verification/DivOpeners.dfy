/** The div openers that are removed, as they are written: attributes from a short
    list, each behind whitespace. */
module DivOpeners {
  import opened Text
  import opened DivWrappers

  /** `id` with any value, or one of three classes. */
  datatype Attribute = Id(value: string) | Figure | WideFigure | Centre

  function Spelt(a: Attribute): string {
    match a
    case Id(value) => "id=\"" + (value + "\"")
    case Figure => "class=\"figure\""
    case WideFigure => "class=\"figure*\""
    case Centre => "class=\"center\""
  }

  predicate NoQuote(s: string) {
    forall i :: 0 <= i < |s| ==> s[i] != '"'
  }

  /** An attribute behind whitespace. */
  datatype Gapped = Gapped(gap: string, attribute: Attribute)

  predicate IsGapped(g: Gapped) {
    g.gap != "" && IsBlank(g.gap) && (g.attribute.Id? ==> NoQuote(g.attribute.value))
  }

  predicate AreGapped(gs: seq<Gapped>) {
    forall i :: 0 <= i < |gs| ==> IsGapped(gs[i])
  }

  function SpeltAll(gs: seq<Gapped>): string {
    if gs == [] then "" else gs[0].gap + (Spelt(gs[0].attribute) + SpeltAll(gs[1..]))
  }

  /** `<div`, at least one attribute, optional whitespace and `>`. */
  function Opener(gs: seq<Gapped>, space: string): string {
    "<div" + (SpeltAll(gs) + (space + ">"))
  }

  ghost predicate IsOpenerOf(s: string, gs: seq<Gapped>, space: string) {
    gs != [] && AreGapped(gs) && IsBlank(space) && s == Opener(gs, space)
  }

  // ---- One attribute ----

  lemma {:induction false} QuoteIs(s: string, i: nat, k: nat)
    requires i <= k < |s| && NoQuote(s[i..k]) && s[k] == '"'
    ensures NextQuote(s, i) == k
    decreases k - i
  {
    if i < k {
      assert s[i..k][0] == s[i] && s[i..k][1..] == s[i + 1..k];
      QuoteIs(s, i + 1, k);
    }
  }

  lemma {:induction false} NoneBeforeQuote(s: string, i: nat)
    requires i <= |s|
    ensures NoQuote(s[i..NextQuote(s, i)]) && (NextQuote(s, i) < |s| ==> s[NextQuote(s, i)] == '"')
    decreases |s| - i
  {
    var q := NextQuote(s, i);
    if i < |s| && s[i] != '"' {
      NoneBeforeQuote(s, i + 1);
      assert s[i..q] == [s[i]] + s[i + 1..q];
    }
  }

  /** No two of the fixed spellings begin alike. */
  lemma SpellingsDiffer(s: string, i: nat)
    ensures At(s, i, "class=\"figure\"") ==> !At(s, i, "id=\"")
    ensures At(s, i, "class=\"figure*\"") ==> !At(s, i, "id=\"") && !At(s, i, "class=\"figure\"")
    ensures At(s, i, "class=\"center\"") ==>
              !At(s, i, "id=\"") && !At(s, i, "class=\"figure\"") && !At(s, i, "class=\"figure*\"")
  {
    AtHas(s, i, "id=\"", 0);
    AtHas(s, i, "class=\"figure\"", 0);
    AtHas(s, i, "class=\"figure*\"", 0);
    AtHas(s, i, "class=\"center\"", 0);
    AtHas(s, i, "class=\"figure\"", 13);
    AtHas(s, i, "class=\"figure*\"", 13);
    AtHas(s, i, "class=\"figure\"", 7);
    AtHas(s, i, "class=\"figure*\"", 7);
    AtHas(s, i, "class=\"center\"", 7);
  }

  lemma Lengths()
    ensures |"id=\""| == 4 && |"class=\"figure\""| == 14 && |"class=\"figure*\""| == 15 && |"class=\"center\""| == 14
  {
  }

  /** An attribute of the list is recognised up to its end. */
  lemma AttributeIsRead(s: string, i: nat, a: Attribute)
    requires At(s, i, Spelt(a)) && (a.Id? ==> NoQuote(a.value))
    ensures AttributeEnd(s, i) == Some(i + |Spelt(a)|)
  {
    hide At;
    Lengths();
    SpellingsDiffer(s, i);
    if a.Id? {
      var k := i + 4 + |a.value|;
      AtAppend(s, i, "id=\"", a.value + "\"");
      AtAppend(s, i + 4, a.value, "\"");
      AtOne(s, k, '"');
      AtIs(s, i + 4, a.value);
      QuoteIs(s, i + 4, k);
    }
  }

  /** And nothing else is. */
  lemma ReadIsAttribute(s: string, i: nat) returns (a: Attribute)
    requires AttributeEnd(s, i).Some?
    ensures At(s, i, Spelt(a)) && AttributeEnd(s, i) == Some(i + |Spelt(a)|) && (a.Id? ==> NoQuote(a.value))
  {
    hide At;
    Lengths();
    if At(s, i, "id=\"") {
      AtIs(s, i, "id=\"");
      NoneBeforeQuote(s, i + 4);
      var q := NextQuote(s, i + 4);
      a := Id(s[i + 4..q]);
      SliceStands(s, i + 4, q);
      AtOne(s, q, '"');
      AtAppend(s, i + 4, a.value, "\"");
      AtAppend(s, i, "id=\"", a.value + "\"");
    } else if At(s, i, "class=\"figure\"") {
      a := Figure;
    } else if At(s, i, "class=\"figure*\"") {
      a := WideFigure;
    } else {
      a := Centre;
    }
  }

  // ---- The list of attributes ----

  lemma AttributeStart(a: Attribute)
    ensures Spelt(a) != "" && !IsListed(Spelt(a)[0])
  {
  }

  lemma AngleIsNoAttribute(s: string, i: nat)
    requires i < |s| && s[i] == '>'
    ensures AttributeEnd(s, i) == None && !IsListed(s[i])
  {
    hide At;
    AtHas(s, i, "id=\"", 0);
    AtHas(s, i, "class=\"figure\"", 0);
    AtHas(s, i, "class=\"figure*\"", 0);
    AtHas(s, i, "class=\"center\"", 0);
  }

  lemma EndUnfolds(s: string, i: nat)
    requires i <= |s|
    ensures AttributesEnd(s, i) ==
            var j := SkipSpaces(s, i);
            if j == i then i
            else if AttributeEnd(s, j) == None then i
            else AttributesEnd(s, AttributeEnd(s, j).value)
  {
    hide AttributeEnd;
  }

  /** Behind the last attribute nothing more is read. */
  lemma EndIsRead(s: string, i: nat, space: string)
    requires IsBlank(space) && i <= |s| && s[i..] == space + ">"
    ensures AttributesEnd(s, i) == i && SkipSpaces(s, i) == |s| - 1 && s[|s| - 1] == '>'
  {
    hide AttributeEnd, AttributesEnd, SkipSpaces, IsListed;
    EndUnfolds(s, i);
    assert s[|s| - 1] == s[i..][|s[i..]| - 1] && s[i..|s| - 1] == space;
    AngleIsNoAttribute(s, |s| - 1);
    SkipOverBlank(s, i, |s| - 1);
  }

  /** One attribute is stepped over. */
  lemma OneIsRead(s: string, i: nat, g: Gapped, rest: string)
    requires IsGapped(g) && i <= |s| && s[i..] == g.gap + (Spelt(g.attribute) + rest)
    ensures var e := i + |g.gap| + |Spelt(g.attribute)|;
            e <= |s| && s[e..] == rest && AttributesEnd(s, i) == AttributesEnd(s, e)
  {
    hide AttributeEnd, AttributesEnd, SkipSpaces, IsListed, Spelt, At;
    EndUnfolds(s, i);
    AttributeStart(g.attribute);
    PiecesOf(s, i, g.gap, Spelt(g.attribute), rest);
    SkipOverBlank(s, i, i + |g.gap|);
    AttributeIsRead(s, i + |g.gap|, g.attribute);
  }

  /** Attributes from `i` on, whitespace and the closing angle are read as such. */
  lemma {:induction false} AttributesAreRead(s: string, i: nat, gs: seq<Gapped>, space: string)
    requires AreGapped(gs) && IsBlank(space) && i <= |s| && s[i..] == SpeltAll(gs) + (space + ">")
    ensures AttributesEnd(s, i) == i + |SpeltAll(gs)| && SkipSpaces(s, i + |SpeltAll(gs)|) == |s| - 1 && s[|s| - 1] == '>'
    decreases |gs|
  {
    hide AttributesEnd, SkipSpaces, IsBlank, Spelt, IsGapped;
    if gs == [] {
      assert s[i..] == space + ">";
      EndIsRead(s, i, space);
    } else {
      var g := gs[0];
      var rest := SpeltAll(gs[1..]) + (space + ">");
      assert s[i..] == g.gap + (Spelt(g.attribute) + rest);
      OneIsRead(s, i, g, rest);
      AttributesAreRead(s, i + |g.gap| + |Spelt(g.attribute)|, gs[1..], space);
    }
  }

  lemma PiecesOf(s: string, i: nat, a: string, b: string, c: string)
    requires i <= |s| && s[i..] == a + (b + c) && b != ""
    ensures i + |a| + |b| <= |s| && s[i..i + |a|] == a && s[i + |a|] == b[0] && At(s, i + |a|, b) && s[i + |a| + |b|..] == c
  {
    assert s[i..][..|a|] == a && s[i..][|a|..|a| + |b|] == b && s[i..][|a| + |b|..] == c;
    assert s[i + |a|..i + |a| + |b|] == s[i..][|a|..|a| + |b|];
    assert s[i..i + |a|] == s[i..][..|a|];
    assert s[i + |a|] == s[i..][|a|];
  }

  /** What is read up to the end of the attributes are attributes. */
  lemma {:induction false} ReadAreAttributes(s: string, i: nat) returns (gs: seq<Gapped>)
    requires i <= |s|
    ensures AreGapped(gs) && s[i..AttributesEnd(s, i)] == SpeltAll(gs) && (gs == [] <==> AttributesEnd(s, i) == i)
    decreases |s| - i
  {
    hide AttributeEnd, AttributesEnd, SkipSpaces, IsListed, Spelt, At;
    EndUnfolds(s, i);
    gs := [];
    var j := SkipSpaces(s, i);
    if j > i && AttributeEnd(s, j).Some? {
      SkippedIsBlank(s, i);
      var a := ReadIsAttribute(s, j);
      var e := AttributeEnd(s, j).value;
      var rest := ReadAreAttributes(s, e);
      AtIs(s, j, Spelt(a));
      gs := [Gapped(s[i..j], a)] + rest;
      assert gs[1..] == rest && s[i..j] != "";
      var n := AttributesEnd(s, e);
      assert s[i..n] == s[i..j] + (s[j..e] + s[e..n]);
    }
  }

  // ---- Openers ----

  /** A stripped line is a wrapper opener if and only if it is written so. */
  lemma OpenerExactly(s: string)
    ensures IsWrapperOpener(s) <==> exists gs, space :: IsOpenerOf(s, gs, space)
  {
    hide AttributesEnd, SkipSpaces, IsListed, SpeltAll;
    if IsWrapperOpener(s) {
      var e := AttributesEnd(s, 4);
      var gs := ReadAreAttributes(s, 4);
      SkippedIsBlank(s, e);
      var space := s[e..|s| - 1];
      assert s == s[0..4] + (s[4..e] + (s[e..|s| - 1] + [s[|s| - 1]]));
      assert IsOpenerOf(s, gs, space);
    }
    forall gs, space | IsOpenerOf(s, gs, space) ensures IsWrapperOpener(s) {
      WrittenIsOpener(s, gs, space);
    }
  }

  lemma {:induction false} AttributesAreLong(gs: seq<Gapped>)
    requires AreGapped(gs) && gs != []
    ensures |SpeltAll(gs)| > 0
  {
    hide Spelt;
    assert IsGapped(gs[0]);
  }

  lemma WrittenIsOpener(s: string, gs: seq<Gapped>, space: string)
    requires IsOpenerOf(s, gs, space)
    ensures IsWrapperOpener(s)
  {
    hide AttributesEnd, SkipSpaces, IsListed, SpeltAll, IsBlank;
    AttributesAreLong(gs);
    assert s[..4] == "<div" && s[4..] == SpeltAll(gs) + (space + ">");
    assert s[0..4] == s[..4];
    AttributesAreRead(s, 4, gs, space);
  }

  lemma AnglesAtTheEnds(gs: seq<Gapped>, space: string)
    ensures Opener(gs, space)[0] == '<' && Opener(gs, space)[|Opener(gs, space)| - 1] == '>'
  {
    hide SpeltAll;
  }

  /** A line is the opener of a wrapper if and only if it is one written so, with any
      whitespace around it. */
  lemma WrapperLinesExactly(line: string)
    ensures KindOf(line) == Wrapper <==>
            exists a, b, gs, space :: IsBlank(a) && IsBlank(b) && gs != [] && AreGapped(gs) && IsBlank(space)
                                      && line == a + (Opener(gs, space) + b)
  {
    hide Trim, IsWrapperOpener, Opener, AreGapped, IsListed;
    OpenerExactly(Trim(line));
    if KindOf(line) == Wrapper {
      var gs, space :| IsOpenerOf(Trim(line), gs, space);
      var a, b := TrimSplits(line);
      assert IsBlank(a) && IsBlank(b) && line == a + (Opener(gs, space) + b);
    }
    forall a, b, gs, space | IsBlank(a) && IsBlank(b) && gs != [] && AreGapped(gs) && IsBlank(space)
                             && line == a + (Opener(gs, space) + b)
      ensures KindOf(line) == Wrapper
    {
      AnglesAtTheEnds(gs, space);
      AnglesAreInk();
      TrimOfPadded(a, Opener(gs, space), b);
      assert IsOpenerOf(Trim(line), gs, space);
    }
  }

  lemma AnglesAreInk()
    ensures !IsListed('<') && !IsListed('>')
  {
  }

  /** A line closes a div if and only if it is the closing tag with any whitespace
      around it. */
  lemma CloserLinesExactly(line: string)
    ensures KindOf(line) == Close <==> exists a, b :: IsBlank(a) && IsBlank(b) && line == a + ("</div>" + b)
  {
    hide Trim, IsWrapperOpener, IsListed;
    CloserIsNoOpener();
    if KindOf(line) == Close {
      var a, b := TrimSplits(line);
    }
    forall a, b | IsBlank(a) && IsBlank(b) && line == a + ("</div>" + b) ensures KindOf(line) == Close {
      AnglesAreInk();
      TrimOfPadded(a, "</div>", b);
    }
  }

  lemma CloserIsNoOpener()
    ensures !IsWrapperOpener("</div>")
  {
    hide AttributesEnd;
    AtHas("</div>", 0, "<div", 1);
  }

  // ---- Other divs ----

  /** `<div`, what stands in the tag behind whitespace, and `>`. */
  function Tag(inside: string): string {
    "<div" + (inside + ">")
  }

  predicate IsInside(inside: string) {
    && (inside == "" || IsListed(inside[0]) || inside[0] == '>')
    && forall i :: 0 <= i < |inside| ==> inside[i] != '<'
  }

  lemma TagsAreOpeners(inside: string)
    requires IsInside(inside)
    ensures IsOpener(Tag(inside)) && Tag(inside) != "</div>"
  {
    hide IsListed, IsSpace;
    var s := Tag(inside);
    assert s[0..4] == "<div" && s[|s| - 1] == '>';
    if inside != "" {
      SpacesAreListed(inside[0]);
      assert s[4] == inside[0];
    }
    TagCharacters(inside);
  }

  lemma TagCharacters(inside: string)
    requires forall i :: 0 <= i < |inside| ==> inside[i] != '<'
    ensures var s := Tag(inside);
            s[0] == '<' && s[1] == 'd' && forall k :: 0 < k < |s| ==> s[k] != '<'
  {
    var s := Tag(inside);
    assert forall k :: 4 <= k < |s| - 1 ==> s[k] == inside[k - 4];
  }

  lemma OpenersAreLong(s: string)
    requires IsOpener(s)
    ensures |s| > 4
  {
  }

  lemma OpenersAreTags(s: string)
    requires IsOpener(s)
    ensures IsInside(s[4..|s| - 1]) && s == Tag(s[4..|s| - 1])
  {
    hide IsListed, IsSpace;
    SpacesAreListed(s[4]);
    assert s == s[0..4] + (s[4..|s| - 1] + [s[|s| - 1]]);
  }

  /** A line opens another div if and only if it is one `<div ...>` tag, with whitespace
      around it, and not the opener of a wrapper. */
  lemma OtherLinesExactly(line: string)
    ensures KindOf(line) == Other <==>
            KindOf(line) != Wrapper &&
            exists a, b, inside :: IsBlank(a) && IsBlank(b) && IsInside(inside) && line == a + (Tag(inside) + b)
  {
    hide Trim, IsWrapperOpener, IsOpener, IsListed, IsInside, Tag;
    if KindOf(line) == Other {
      var a, b := TrimSplits(line);
      var s := Trim(line);
      OpenersAreLong(s);
      OpenersAreTags(s);
      assert IsBlank(a) && IsBlank(b) && IsInside(s[4..|s| - 1]) && line == a + (Tag(s[4..|s| - 1]) + b);
    }
    forall a, b, inside | IsBlank(a) && IsBlank(b) && IsInside(inside) && line == a + (Tag(inside) + b)
      ensures IsOpener(Trim(line)) && Trim(line) != "</div>"
    {
      TagEnds(inside);
      AnglesAreInk();
      TrimOfPadded(a, Tag(inside), b);
      TagsAreOpeners(inside);
    }
  }

  lemma TagEnds(inside: string)
    ensures var s := Tag(inside);
            |s| > 4 && s[0] == '<' && s[|s| - 1] == '>'
  {
  }
}
