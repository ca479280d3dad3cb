/** The unwrapper on texts that are printed trees: every wrapper node, at every
    depth, is replaced by its children, exactly when the text has no hits
    besides those nodes. */
module UnwrapTrees {
  import opened Text
  import opened Braces
  import opened Unwrap

  /** A balanced text in which some groups are the arguments of wrappers. */
  datatype Tree =
    | Nil
    | Chr(c: char, rest: Tree)
    | Esc(c: char, rest: Tree)
    | Grp(body: Tree, rest: Tree)
    | Wrap(k: nat, body: Tree, rest: Tree)

  predicate WellFormed(f: Tree) {
    match f
    case Nil => true
    case Chr(c, rest) => IsPlain(c) && WellFormed(rest)
    case Esc(_, rest) => WellFormed(rest)
    case Grp(body, rest) => WellFormed(body) && WellFormed(rest)
    case Wrap(k, body, rest) => k < 4 && WellFormed(body) && WellFormed(rest)
  }

  function PrintTree(f: Tree): string
    requires WellFormed(f)
  {
    match f
    case Nil => ""
    case Chr(c, rest) => [c] + PrintTree(rest)
    case Esc(c, rest) => ['\\', c] + PrintTree(rest)
    case Grp(body, rest) => "{" + PrintTree(body) + "}" + PrintTree(rest)
    case Wrap(k, body, rest) => Needle(k) + (PrintTree(body) + "}" + PrintTree(rest))
  }

  function Append(f: Forest, g: Forest): Forest {
    match f
    case End => g
    case Char(c, rest) => Char(c, Append(rest, g))
    case Escape(c, rest) => Escape(c, Append(rest, g))
    case Group(body, rest) => Group(body, Append(rest, g))
  }

  /** Every wrapper, at every depth, replaced by its children. */
  function Erase(f: Tree): Forest {
    match f
    case Nil => End
    case Chr(c, rest) => Char(c, Erase(rest))
    case Esc(c, rest) => Escape(c, Erase(rest))
    case Grp(body, rest) => Group(Erase(body), Erase(rest))
    case Wrap(_, body, rest) => Append(Erase(body), Erase(rest))
  }

  function Size(f: Tree): nat
    requires WellFormed(f)
  {
    match f
    case Nil => 0
    case Chr(_, rest) => 1 + Size(rest)
    case Esc(_, rest) => 2 + Size(rest)
    case Grp(body, rest) => 2 + Size(body) + Size(rest)
    case Wrap(k, body, rest) => |Needle(k)| + 1 + Size(body) + Size(rest)
  }

  lemma SizeUnfolds(f: Tree)
    requires WellFormed(f)
    ensures Size(f) == match f
                       case Nil => 0
                       case Chr(_, rest) => 1 + Size(rest)
                       case Esc(_, rest) => 2 + Size(rest)
                       case Grp(body, rest) => 2 + Size(body) + Size(rest)
                       case Wrap(k, body, rest) => |Needle(k)| + 1 + Size(body) + Size(rest)
  {
  }

  /** Does a wrapper node of the tree start at offset `p` of its text? */
  predicate IsStart(f: Tree, p: int)
    requires WellFormed(f)
    decreases f
  {
    match f
    case Nil => false
    case Chr(_, rest) => IsStart(rest, p - 1)
    case Esc(_, rest) => IsStart(rest, p - 2)
    case Grp(body, rest) => IsStart(body, p - 1) || IsStart(rest, p - 2 - Size(body))
    case Wrap(k, body, rest) =>
      p == 0 || IsStart(body, p - |Needle(k)|) || IsStart(rest, p - |Needle(k)| - 1 - Size(body))
  }

  // ---- Trees in place ----

  predicate TreeAt(t: string, i: nat, f: Tree)
    requires WellFormed(f)
    decreases f
  {
    match f
    case Nil => i <= |t|
    case Chr(c, rest) => i < |t| && t[i] == c && TreeAt(t, i + 1, rest)
    case Esc(c, rest) => i + 1 < |t| && t[i] == '\\' && t[i + 1] == c && TreeAt(t, i + 2, rest)
    case Grp(body, rest) =>
      && i < |t| && t[i] == '{' && TreeAt(t, i + 1, body)
      && i + 1 + Size(body) < |t| && t[i + 1 + Size(body)] == '}'
      && TreeAt(t, i + 2 + Size(body), rest)
    case Wrap(k, body, rest) =>
      var a := i + |Needle(k)|;
      && At(t, i, Needle(k)) && TreeAt(t, a, body)
      && a + Size(body) < |t| && t[a + Size(body)] == '}'
      && TreeAt(t, a + Size(body) + 1, rest)
  }

  lemma {:induction false} SizeIsLength(f: Tree)
    requires WellFormed(f)
    ensures Size(f) == |PrintTree(f)|
  {
    hide Needle;
    match f
    case Nil =>
    case Chr(_, rest) => SizeIsLength(rest);
    case Esc(_, rest) => SizeIsLength(rest);
    case Grp(body, rest) =>
      SizeIsLength(body);
      SizeIsLength(rest);
    case Wrap(_, body, rest) =>
      SizeIsLength(body);
      SizeIsLength(rest);
  }

  lemma WrapAt(t: string, i: nat, w: string, body: string, rest: string)
    ensures At(t, i, w + (body + "}" + rest)) <==>
            && At(t, i, w) && At(t, i + |w|, body)
            && i + |w| + |body| < |t| && t[i + |w| + |body|] == '}'
            && At(t, i + |w| + |body| + 1, rest)
  {
    hide At;
    AtAppend(t, i, w, body + "}" + rest);
    AtAppend(t, i + |w|, body + "}", rest);
    AtAppend(t, i + |w|, body, "}");
    AtOne(t, i + |w| + |body|, '}');
  }

  lemma PrintTreeUnfolds(f: Tree)
    requires WellFormed(f)
    ensures PrintTree(f) == match f
                            case Nil => ""
                            case Chr(c, rest) => [c] + PrintTree(rest)
                            case Esc(c, rest) => ['\\', c] + PrintTree(rest)
                            case Grp(body, rest) => "{" + PrintTree(body) + "}" + PrintTree(rest)
                            case Wrap(k, body, rest) => Needle(k) + (PrintTree(body) + "}" + PrintTree(rest))
  {
  }

  /** A tree's text holds the tree. */
  lemma {:induction false} PrintedTreeIsHeld(t: string, i: nat, f: Tree)
    requires WellFormed(f) && At(t, i, PrintTree(f))
    ensures TreeAt(t, i, f)
    decreases f
  {
    hide At, Size, Needle, PrintTree, IsPlain;
    PrintTreeUnfolds(f);
    match f
    case Nil =>
      AtNothing(t, i);
    case Chr(c, rest) =>
      CharAt(t, i, c, PrintTree(rest));
      PrintedTreeIsHeld(t, i + 1, rest);
    case Esc(c, rest) =>
      EscapeAt(t, i, c, PrintTree(rest));
      PrintedTreeIsHeld(t, i + 2, rest);
    case Grp(body, rest) =>
      SizeIsLength(body);
      GroupAt(t, i, PrintTree(body), PrintTree(rest));
      PrintedTreeIsHeld(t, i + 1, body);
      PrintedTreeIsHeld(t, i + 2 + Size(body), rest);
    case Wrap(k, body, rest) =>
      SizeIsLength(body);
      WrapAt(t, i, Needle(k), PrintTree(body), PrintTree(rest));
      PrintedTreeIsHeld(t, i + |Needle(k)|, body);
      PrintedTreeIsHeld(t, i + |Needle(k)| + Size(body) + 1, rest);
  }

  // ---- What stands where ----

  lemma NeedleText(t: string, i: nat, k: nat, p: nat)
    requires k < 4 && At(t, i, Needle(k)) && i <= p < i + |Needle(k)|
    ensures p < |t|
    ensures (p == i ==> t[p] == '\\') && (p == i + |Needle(k)| - 1 ==> t[p] == '{')
    ensures i < p < i + |Needle(k)| - 1 ==> IsPlain(t[p])
  {
    NeedleLetters(k, p - i);
    assert t[p] == t[i..i + |Needle(k)|][p - i];
  }

  lemma {:induction false} ScanOverPlain(t: string, i: nat, j: nat, n: nat, depth: nat)
    requires i <= j <= n <= |t| && depth >= 1 && forall p :: i <= p < j ==> IsPlain(t[p])
    ensures CloseFrom(t, i, n, depth) == CloseFrom(t, j, n, depth)
    decreases j - i
  {
    hide CloseFrom;
    if i < j {
      CloseUnfolds(t, i, n, depth);
      ScanOverPlain(t, i + 1, j, n, depth);
    }
  }

  lemma ScanOverNeedle(t: string, i: nat, n: nat, k: nat, depth: nat)
    requires k < 4 && At(t, i, Needle(k)) && i + |Needle(k)| <= n <= |t| && depth >= 1
    ensures CloseFrom(t, i, n, depth) == CloseFrom(t, i + |Needle(k)|, n, depth + 1)
  {
    hide CloseFrom, Needle, At;
    var b := i + |Needle(k)| - 1;
    NeedleText(t, i, k, i);
    NeedleText(t, i, k, b);
    NeedleLetters(k, 0);
    NeedleLetters(k, |Needle(k)| - 1);
    CloseUnfolds(t, i, n, depth);
    assert b >= i + 2 by {
      NeedleIsLong(k);
    }
    forall p | i + 2 <= p < b ensures IsPlain(t[p]) {
      NeedleText(t, i, k, p);
    }
    ScanOverPlain(t, i + 2, b, n, depth);
    CloseUnfolds(t, b, n, depth);
  }

  lemma NeedleIsLong(k: nat)
    requires k < 4
    ensures |Needle(k)| >= 4
  {
  }

  /** A scan runs over a tree without changing its depth. */
  lemma {:induction false} ScanOverTree(t: string, i: nat, n: nat, f: Tree, depth: nat)
    requires WellFormed(f) && depth >= 1 && TreeAt(t, i, f) && i + Size(f) <= n <= |t|
    ensures CloseFrom(t, i, n, depth) == CloseFrom(t, i + Size(f), n, depth)
    decreases f, 1
  {
    hide CloseFrom, At, Needle, Size;
    SizeUnfolds(f);
    match f
    case Nil =>
    case Chr(c, rest) =>
      CloseUnfolds(t, i, n, depth);
      ScanOverTree(t, i + 1, n, rest, depth);
    case Esc(c, rest) =>
      CloseUnfolds(t, i, n, depth);
      ScanOverTree(t, i + 2, n, rest, depth);
    case Grp(body, rest) =>
      CloseUnfolds(t, i, n, depth);
      ScanOverBody(t, i + 1, n, body, depth);
      ScanOverTree(t, i + 2 + Size(body), n, rest, depth);
    case Wrap(_, _, _) => ScanOverWrap(t, i, n, f, depth);
  }

  lemma {:induction false} ScanOverWrap(t: string, i: nat, n: nat, f: Tree, depth: nat)
    requires f.Wrap? && WellFormed(f) && depth >= 1 && TreeAt(t, i, f) && i + Size(f) <= n <= |t|
    ensures CloseFrom(t, i, n, depth) == CloseFrom(t, i + Size(f), n, depth)
    decreases f, 0
  {
    hide CloseFrom, At, Needle, Size;
    SizeUnfolds(f);
    var a := i + |Needle(f.k)|;
    ScanOverNeedle(t, i, n, f.k, depth);
    ScanOverBody(t, a, n, f.body, depth);
    ScanOverTree(t, a + Size(f.body) + 1, n, f.rest, depth);
  }

  /** From the start of a group's body to behind its closing brace. */
  lemma {:induction false} ScanOverBody(t: string, a: nat, n: nat, body: Tree, depth: nat)
    requires WellFormed(body) && depth >= 1 && TreeAt(t, a, body) && a + Size(body) < n <= |t|
    requires t[a + Size(body)] == '}'
    ensures CloseFrom(t, a, n, depth + 1) == CloseFrom(t, a + Size(body) + 1, n, depth)
    decreases body, 2
  {
    hide CloseFrom, TreeAt, Size;
    ScanOverTree(t, a, n, body, depth + 1);
    CloseUnfolds(t, a + Size(body), n, depth + 1);
  }

  /** The closer of an argument that is a tree. */
  lemma TreeIsClosed(t: string, a: nat, n: nat, body: Tree)
    requires WellFormed(body) && TreeAt(t, a, body) && a + Size(body) < n <= |t| && t[a + Size(body)] == '}'
    ensures CloseFrom(t, a, n, 1) == Some(a + Size(body))
  {
    hide CloseFrom, TreeAt, Size;
    ScanOverTree(t, a, n, body, 1);
    CloseUnfolds(t, a + Size(body), n, 1);
  }

  lemma OnlyBackslashHits(t: string, i: nat, n: nat)
    requires Hit(t, i, n) && n <= |t|
    ensures i < n && t[i] == '\\'
  {
    NeedleEndsInBrace(t, i, n);
  }

  lemma WrapIsHit(t: string, i: nat, n: nat, k: nat)
    requires k < 4 && At(t, i, Needle(k)) && i + |Needle(k)| <= n <= |t|
    ensures Hit(t, i, n) && ArgumentOf(t, i, n) == i + |Needle(k)|
  {
    OneNeedleAtATime(t, i, n, k);
  }

  /** A needle holds no closing brace, so none crosses the end of a group. */
  lemma HitsStayInside(t: string, p: nat, c: nat, n: nat)
    requires Hit(t, p, n) && p <= c < n <= |t| && t[c] == '}'
    ensures Hit(t, p, c)
  {
    var k := NeedleAt(t, p, n);
    if c < p + |Needle(k)| {
      NeedleText(t, p, k, c);
    }
    assert Fits(t, p, c, k);
  }

  lemma HitsStayHits(t: string, p: nat, c: nat, n: nat)
    requires Hit(t, p, c) && c <= n
    ensures Hit(t, p, n)
  {
    assert Fits(t, p, n, NeedleAt(t, p, c));
  }

  // ---- The homomorphism ----

  /** Every hit that starts in the tree's text is one of its wrapper nodes. */
  ghost predicate OnlyNodeHits(t: string, i: nat, f: Tree, n: nat)
    requires WellFormed(f)
  {
    forall p :: i <= p < i + Size(f) && Hit(t, p, n) ==> IsStart(f, p - i)
  }

  lemma {:induction false} StartsAreInside(f: Tree, p: int)
    requires WellFormed(f) && IsStart(f, p)
    ensures 0 <= p < Size(f)
    decreases f
  {
    hide Needle, Size, IsStart;
    SizeUnfolds(f);
    StartUnfolds(f, p);
    match f
    case Nil =>
    case Chr(_, rest) => StartsAreInside(rest, p - 1);
    case Esc(_, rest) => StartsAreInside(rest, p - 2);
    case Grp(body, rest) =>
      if IsStart(body, p - 1) {
        StartsAreInside(body, p - 1);
      } else {
        StartsAreInside(rest, p - 2 - Size(body));
      }
    case Wrap(k, body, rest) =>
      if p != 0 {
        if IsStart(body, p - |Needle(k)|) {
          StartsAreInside(body, p - |Needle(k)|);
        } else {
          StartsAreInside(rest, p - |Needle(k)| - 1 - Size(body));
        }
      }
  }

  lemma StartUnfolds(f: Tree, p: int)
    requires WellFormed(f)
    ensures IsStart(f, p) <==>
            match f
            case Nil => false
            case Chr(_, rest) => IsStart(rest, p - 1)
            case Esc(_, rest) => IsStart(rest, p - 2)
            case Grp(body, rest) => IsStart(body, p - 1) || IsStart(rest, p - 2 - Size(body))
            case Wrap(k, body, rest) =>
              p == 0 || IsStart(body, p - |Needle(k)|) || IsStart(rest, p - |Needle(k)| - 1 - Size(body))
  {
    hide Needle, Size;
  }

  /** The condition is inherited by the tree behind the first node. */
  lemma RestHasOnlyNodeHits(t: string, i: nat, f: Tree, n: nat, rest: Tree)
    requires WellFormed(f) && !f.Nil? && rest == f.rest && OnlyNodeHits(t, i, f, n)
    ensures OnlyNodeHits(t, i + Size(f) - Size(rest), rest, n)
  {
    hide Hit, Needle;
    var q := i + Size(f) - Size(rest);
    forall p | q <= p < q + Size(rest) && Hit(t, p, n) ensures IsStart(rest, p - q) {
      assert IsStart(f, p - i);
      StartsBehindTheFirstNode(f, p - i);
    }
  }

  lemma StartsBehindTheFirstNode(f: Tree, p: int)
    requires WellFormed(f) && !f.Nil? && IsStart(f, p) && p >= Size(f) - Size(f.rest)
    ensures IsStart(f.rest, p - (Size(f) - Size(f.rest)))
  {
    hide Needle;
    if f.Grp? && IsStart(f.body, p - 1) {
      StartsAreInside(f.body, p - 1);
    }
    if f.Wrap? && IsStart(f.body, p - |Needle(f.k)|) {
      StartsAreInside(f.body, p - |Needle(f.k)|);
    }
  }

  /** ... and by the children of the first node, read up to any later end. */
  lemma BodyHasOnlyNodeHits(t: string, i: nat, f: Tree, n: nat, c: nat)
    requires WellFormed(f) && (f.Grp? || f.Wrap?) && OnlyNodeHits(t, i, f, n) && c <= n
    ensures OnlyNodeHits(t, i + (if f.Grp? then 1 else |Needle(f.k)|), f.body, c)
  {
    hide Hit, Needle;
    var q := i + (if f.Grp? then 1 else |Needle(f.k)|);
    forall p | q <= p < q + Size(f.body) && Hit(t, p, c) ensures IsStart(f.body, p - q) {
      HitsStayHits(t, p, c, n);
      assert IsStart(f, p - i);
      var r := p - q - 1 - Size(f.body);
      if IsStart(f.rest, r) {
        StartsAreInside(f.rest, r);
      }
    }
  }

  /** The printed forest put in front of `tail`. */
  function PrintOnto(f: Forest, tail: string): string {
    match f
    case End => tail
    case Char(c, rest) => [c] + PrintOnto(rest, tail)
    case Escape(c, rest) => ['\\'] + ([c] + PrintOnto(rest, tail))
    case Group(body, rest) => ['{'] + PrintOnto(body, ['}'] + PrintOnto(rest, tail))
  }

  lemma {:induction false} OntoIsInFront(f: Forest, tail: string)
    ensures PrintOnto(f, tail) == Print(f) + tail
    decreases f
  {
    match f
    case End =>
    case Char(c, rest) =>
      OntoIsInFront(rest, tail);
    case Escape(c, rest) =>
      OntoIsInFront(rest, tail);
    case Group(body, rest) =>
      OntoIsInFront(rest, tail);
      OntoIsInFront(body, ['}'] + PrintOnto(rest, tail));
      GroupText(Print(body), Print(rest), tail);
  }

  lemma GroupText(body: string, rest: string, tail: string)
    ensures ['{'] + (body + (['}'] + (rest + tail))) == ("{" + body + "}" + rest) + tail
  {
  }

  lemma {:induction false} OntoAppended(f: Forest, g: Forest, tail: string)
    ensures PrintOnto(Append(f, g), tail) == PrintOnto(f, PrintOnto(g, tail))
  {
    match f
    case End =>
    case Char(c, rest) => OntoAppended(rest, g, tail);
    case Escape(c, rest) => OntoAppended(rest, g, tail);
    case Group(body, rest) => OntoAppended(rest, g, tail);
  }

  lemma {:induction false} AppendIsProper(f: Forest, g: Forest)
    requires Proper(f) && Proper(g)
    ensures Proper(Append(f, g))
  {
    match f
    case End =>
    case Char(c, rest) => AppendIsProper(rest, g);
    case Escape(c, rest) => AppendIsProper(rest, g);
    case Group(body, rest) => AppendIsProper(rest, g);
  }

  /** Erasing wrappers leaves a balanced text. */
  lemma {:induction false} EraseIsProper(f: Tree)
    requires WellFormed(f)
    ensures Proper(Erase(f))
  {
    match f
    case Nil =>
    case Chr(c, rest) => EraseIsProper(rest);
    case Esc(c, rest) => EraseIsProper(rest);
    case Grp(body, rest) =>
      EraseIsProper(body);
      EraseIsProper(rest);
    case Wrap(_, body, rest) =>
      EraseIsProper(body);
      EraseIsProper(rest);
      AppendIsProper(Erase(body), Erase(rest));
  }

  /** A position without a hit is copied. */
  lemma CopiesOne(t: string, i: nat, n: nat)
    requires i < n <= |t| && (t[i] != '\\' || !Hit(t, i, n))
    ensures UnwrapRange(t, i, n) == [t[i]] + UnwrapRange(t, i + 1, n)
  {
    hide UnwrapRange, Hit;
    if Hit(t, i, n) {
      OnlyBackslashHits(t, i, n);
    }
    UnwrapUnfolds(t, i, n);
  }

  /** A wrapper whose argument is a tree is dropped with its braces. */
  lemma DropsOne(t: string, i: nat, n: nat, body: Tree)
    requires i < n <= |t| && Hit(t, i, n) && WellFormed(body)
    requires var a := ArgumentOf(t, i, n);
             TreeAt(t, a, body) && a + Size(body) < n && t[a + Size(body)] == '}'
    ensures var a := ArgumentOf(t, i, n);
            UnwrapRange(t, i, n) == UnwrapRange(t, a, a + Size(body)) + UnwrapRange(t, a + Size(body) + 1, n)
  {
    hide UnwrapRange, Hit, CloseFrom, ArgumentOf, TreeAt, Size, WellFormed;
    TreeIsClosed(t, ArgumentOf(t, i, n), n, body);
    UnwrapUnfolds(t, i, n);
  }

  /** The tree at `i` is unwrapped to its erasure, and the rest follows. */
  predicate Unwraps(t: string, i: nat, f: Tree, n: nat)
    requires WellFormed(f) && i + Size(f) <= n <= |t|
  {
    UnwrapRange(t, i, n) == PrintOnto(Erase(f), UnwrapRange(t, i + Size(f), n))
  }

  lemma WrapUnwraps(t: string, i: nat, f: Tree, n: nat)
    requires f.Wrap? && WellFormed(f) && TreeAt(t, i, f) && i + Size(f) <= n <= |t|
    requires var m := i + |Needle(f.k)| + Size(f.body);
             Unwraps(t, i + |Needle(f.k)|, f.body, m) && Unwraps(t, m + 1, f.rest, n)
    ensures Unwraps(t, i, f, n)
  {
    hide UnwrapRange, Hit, Needle, ArgumentOf, At, PrintOnto, Size;
    SizeUnfolds(f);
    var a := i + |Needle(f.k)|;
    var m := a + Size(f.body);
    WrapIsHit(t, i, n, f.k);
    DropsOne(t, i, n, f.body);
    NothingLeft(t, m);
    var after := UnwrapRange(t, m + 1, n);
    OntoIsInFront(Erase(f.body), "");
    OntoIsInFront(Erase(f.body), after);
    OntoAppended(Erase(f.body), Erase(f.rest), UnwrapRange(t, i + Size(f), n));
  }

  lemma {:induction false} UnwrapsTheTree(t: string, i: nat, f: Tree, n: nat)
    requires WellFormed(f) && TreeAt(t, i, f) && i + Size(f) <= n <= |t| && OnlyNodeHits(t, i, f, n)
    ensures Unwraps(t, i, f, n)
    decreases f
  {
    hide UnwrapRange, Hit, CloseFrom, ArgumentOf, At, Needle, OnlyNodeHits, Size;
    SizeUnfolds(f);
    if f != Nil {
      RestHasOnlyNodeHits(t, i, f, n, f.rest);
    }
    match f
    case Nil =>
    case Chr(c, rest) =>
      CopiesOne(t, i, n);
      UnwrapsTheTree(t, i + 1, rest, n);
    case Esc(c, rest) =>
      NoHitInEscape(t, i, f, n);
      CopiesOne(t, i, n);
      CopiesOne(t, i + 1, n);
      UnwrapsTheTree(t, i + 2, rest, n);
    case Grp(body, rest) =>
      BodyHasOnlyNodeHits(t, i, f, n, n);
      CopiesOne(t, i, n);
      UnwrapsTheTree(t, i + 1, body, n);
      CopiesOne(t, i + 1 + Size(body), n);
      UnwrapsTheTree(t, i + 2 + Size(body), rest, n);
    case Wrap(k, body, rest) =>
      var a := i + |Needle(k)|;
      BodyHasOnlyNodeHits(t, i, f, n, a + Size(body));
      UnwrapsTheTree(t, a, body, a + Size(body));
      UnwrapsTheTree(t, a + Size(body) + 1, rest, n);
      WrapUnwraps(t, i, f, n);
  }

  lemma NoHitInEscape(t: string, i: nat, f: Tree, n: nat)
    requires f.Esc? && WellFormed(f) && OnlyNodeHits(t, i, f, n)
    ensures !Hit(t, i, n) && !Hit(t, i + 1, n)
  {
    hide Hit;
    NothingStartsBefore(f.rest, -2);
    NothingStartsBefore(f.rest, -1);
  }

  lemma NothingStartsBefore(f: Tree, p: int)
    requires WellFormed(f) && p < 0
    ensures !IsStart(f, p)
  {
    if IsStart(f, p) {
      StartsAreInside(f, p);
    }
  }

  // ---- And only then ----

  /** If no hit starts in the first node itself and its parts have only node
      hits, the tree has only node hits. */
  lemma PartsHaveOnlyNodeHits(t: string, i: nat, f: Tree, n: nat)
    requires WellFormed(f) && !f.Nil? && TreeAt(t, i, f) && i + Size(f) <= n <= |t|
    requires f.Esc? ==> !Hit(t, i, n) && !Hit(t, i + 1, n)
    requires f.Grp? ==> OnlyNodeHits(t, i + 1, f.body, n)
    requires f.Wrap? ==> OnlyNodeHits(t, i + |Needle(f.k)|, f.body, i + |Needle(f.k)| + Size(f.body))
    requires OnlyNodeHits(t, i + Size(f) - Size(f.rest), f.rest, n)
    ensures OnlyNodeHits(t, i, f, n)
  {
    hide Hit, Needle, At, Size;
    SizeUnfolds(f);
    var q := i + Size(f) - Size(f.rest);
    forall p | i <= p < i + Size(f) && Hit(t, p, n) ensures IsStart(f, p - i) {
      OnlyBackslashHits(t, p, n);
      if p >= q {
        assert IsStart(f.rest, p - q);
      } else if f.Wrap? {
        WrapHitIsStart(t, i, f, n, p);
      } else if f.Grp? {
        assert IsStart(f.body, p - (i + 1));
      }
    }
  }

  lemma WrapHitIsStart(t: string, i: nat, f: Tree, n: nat, p: nat)
    requires f.Wrap? && WellFormed(f) && TreeAt(t, i, f) && i + Size(f) <= n <= |t|
    requires OnlyNodeHits(t, i + |Needle(f.k)|, f.body, i + |Needle(f.k)| + Size(f.body))
    requires Hit(t, p, n) && i <= p <= i + |Needle(f.k)| + Size(f.body) && t[p] == '\\'
    ensures IsStart(f, p - i)
  {
    hide Hit, Needle, At, Size, TreeAt;
    SizeUnfolds(f);
    WrapMarks(t, i, f);
    var a := i + |Needle(f.k)|;
    if p != i {
      if p < a {
        NeedleText(t, i, f.k, p);
      }
      HitsStayInside(t, p, a + Size(f.body), n);
      assert IsStart(f.body, p - a);
    }
  }

  lemma WrapMarks(t: string, i: nat, f: Tree)
    requires f.Wrap? && WellFormed(f) && TreeAt(t, i, f)
    ensures var c := i + |Needle(f.k)| + Size(f.body);
            At(t, i, Needle(f.k)) && c < |t| && t[c] == '}'
  {
    hide Needle, At, Size;
  }

  /** Plain characters and then an opening brace, in a tree that the text closes:
      the brace opens a group of the tree. */
  lemma {:induction false} RunThenGroup(t: string, q: nat, g: Tree, j: nat, n: nat) returns (body: Tree, rest: Tree)
    requires WellFormed(g) && TreeAt(t, q, g) && q <= j < n <= |t| && q + Size(g) <= n
    requires (forall p :: q <= p < j ==> IsPlain(t[p])) && t[j] == '{'
    requires q + Size(g) == n || t[q + Size(g)] == '}'
    ensures WellFormed(body) && WellFormed(rest)
    ensures j + 2 + Size(body) + Size(rest) == q + Size(g) && TreeAt(t, j + 1, body)
    ensures t[j + 1 + Size(body)] == '}' && TreeAt(t, j + 2 + Size(body), rest)
    ensures Width(Erase(g)) == j - q + 2 + Width(Erase(body)) + Width(Erase(rest))
    decreases g
  {
    hide Needle, At, Size, Width, Erase;
    SizeUnfolds(g);
    WidthErased(g);
    match g
    case Nil =>
      assert false;
    case Chr(c, r) =>
      body, rest := RunThenGroup(t, q + 1, r, j, n);
    case Esc(c, r) =>
      assert false;
    case Grp(b, r) =>
      body, rest := b, r;
    case Wrap(k, b, r) =>
      NeedleText(t, q, k, q);
      assert false;
  }

  /** A hit on an escape: the letters behind it and the group that follows are
      read as a wrapper although the tree has none there. */
  lemma HitOnEscape(t: string, i: nat, h: nat, f: Tree, n: nat) returns (body: Tree, rest: Tree)
    requires f.Esc? && WellFormed(f) && TreeAt(t, i, f) && i + Size(f) <= n <= |t|
    requires i + Size(f) == n || t[i + Size(f)] == '}'
    requires i <= h <= i + 1 && Hit(t, h, n)
    ensures WellFormed(body) && WellFormed(rest)
    ensures var a := ArgumentOf(t, h, n);
            && a + Size(body) + 1 + Size(rest) == i + Size(f) && TreeAt(t, a, body)
            && t[a + Size(body)] == '}' && TreeAt(t, a + Size(body) + 1, rest)
            && Width(Erase(f)) >= 3 + Width(Erase(body)) + Width(Erase(rest))
  {
    hide Needle, At, Size;
    SizeUnfolds(f);
    var k := NeedleAt(t, h, n);
    var j := ArgumentOf(t, h, n) - 1;
    NeedleEndsInBrace(t, h, n);
    NeedleIsLong(k);
    forall p | i + 2 <= p < j ensures IsPlain(t[p]) {
      NeedleText(t, h, k, p);
    }
    body, rest := RunThenGroup(t, i + 2, f.rest, j, n);
  }

  lemma {:induction false} WidthAppended(f: Forest, g: Forest)
    ensures Width(Append(f, g)) == Width(f) + Width(g)
  {
    match f
    case End =>
    case Char(_, rest) => WidthAppended(rest, g);
    case Escape(_, rest) => WidthAppended(rest, g);
    case Group(_, rest) => WidthAppended(rest, g);
  }

  lemma WidthErased(f: Tree)
    ensures Width(Erase(f)) == match f
                               case Nil => 0
                               case Chr(_, rest) => 1 + Width(Erase(rest))
                               case Esc(_, rest) => 2 + Width(Erase(rest))
                               case Grp(body, rest) => 2 + Width(Erase(body)) + Width(Erase(rest))
                               case Wrap(_, body, rest) => Width(Erase(body)) + Width(Erase(rest))
  {
    if f.Wrap? {
      WidthAppended(Erase(f.body), Erase(f.rest));
    }
  }

  /** The unwrapped text is never longer than the erased tree, and shorter as
      soon as some hit is not a wrapper node. */
  lemma {:induction false} StrayHitsShorten(t: string, i: nat, f: Tree, n: nat)
    requires WellFormed(f) && TreeAt(t, i, f) && i + Size(f) <= n <= |t|
    requires i + Size(f) == n || t[i + Size(f)] == '}'
    ensures |UnwrapRange(t, i, n)| <= Width(Erase(f)) + |UnwrapRange(t, i + Size(f), n)|
    ensures !OnlyNodeHits(t, i, f, n) ==>
              |UnwrapRange(t, i, n)| < Width(Erase(f)) + |UnwrapRange(t, i + Size(f), n)|
    decreases Size(f), 1
  {
    hide UnwrapRange, Hit, CloseFrom, ArgumentOf, At, Needle, OnlyNodeHits, Size, Width, Erase;
    SizeUnfolds(f);
    WidthErased(f);
    match f
    case Nil =>
      NilHasNoHits(t, i, n);
    case Chr(c, rest) =>
      CopiesOne(t, i, n);
      StrayHitsShorten(t, i + 1, rest, n);
      if OnlyNodeHits(t, i + 1, rest, n) {
        PartsHaveOnlyNodeHits(t, i, f, n);
      }
    case Esc(c, rest) =>
      if Hit(t, i, n) {
        StrayOnEscapeShortens(t, i, i, f, n);
      } else {
        CopiesOne(t, i, n);
        if Hit(t, i + 1, n) {
          StrayOnEscapeShortens(t, i, i + 1, f, n);
        } else {
          CopiesOne(t, i + 1, n);
          StrayHitsShorten(t, i + 2, rest, n);
          if OnlyNodeHits(t, i + 2, rest, n) {
            PartsHaveOnlyNodeHits(t, i, f, n);
          }
        }
      }
    case Grp(_, _) => StrayHitsInGroupShorten(t, i, f, n);
    case Wrap(_, _, _) => StrayHitsInWrapShorten(t, i, f, n);
  }

  lemma {:induction false} StrayHitsInGroupShorten(t: string, i: nat, f: Tree, n: nat)
    requires f.Grp? && WellFormed(f) && TreeAt(t, i, f) && i + Size(f) <= n <= |t|
    requires i + Size(f) == n || t[i + Size(f)] == '}'
    ensures |UnwrapRange(t, i, n)| <= Width(Erase(f)) + |UnwrapRange(t, i + Size(f), n)|
    ensures !OnlyNodeHits(t, i, f, n) ==>
              |UnwrapRange(t, i, n)| < Width(Erase(f)) + |UnwrapRange(t, i + Size(f), n)|
    decreases Size(f), 0
  {
    hide UnwrapRange, Hit, CloseFrom, ArgumentOf, At, Needle, OnlyNodeHits, Size, Width, Erase;
    SizeUnfolds(f);
    WidthErased(f);
    var m := i + 1 + Size(f.body);
    CopiesOne(t, i, n);
    StrayHitsShorten(t, i + 1, f.body, n);
    CopiesOne(t, m, n);
    StrayHitsShorten(t, m + 1, f.rest, n);
    if OnlyNodeHits(t, i + 1, f.body, n) && OnlyNodeHits(t, m + 1, f.rest, n) {
      PartsHaveOnlyNodeHits(t, i, f, n);
    }
  }

  lemma {:induction false} StrayHitsInWrapShorten(t: string, i: nat, f: Tree, n: nat)
    requires f.Wrap? && WellFormed(f) && TreeAt(t, i, f) && i + Size(f) <= n <= |t|
    requires i + Size(f) == n || t[i + Size(f)] == '}'
    ensures |UnwrapRange(t, i, n)| <= Width(Erase(f)) + |UnwrapRange(t, i + Size(f), n)|
    ensures !OnlyNodeHits(t, i, f, n) ==>
              |UnwrapRange(t, i, n)| < Width(Erase(f)) + |UnwrapRange(t, i + Size(f), n)|
    decreases Size(f), 0
  {
    hide UnwrapRange, Hit, CloseFrom, ArgumentOf, At, Needle, OnlyNodeHits, Size, Width, Erase;
    SizeUnfolds(f);
    WidthErased(f);
    var a := i + |Needle(f.k)|;
    var m := a + Size(f.body);
    WrapIsHit(t, i, n, f.k);
    DropsOne(t, i, n, f.body);
    StrayHitsShorten(t, a, f.body, m);
    NothingLeft(t, m);
    StrayHitsShorten(t, m + 1, f.rest, n);
    if OnlyNodeHits(t, a, f.body, m) && OnlyNodeHits(t, m + 1, f.rest, n) {
      PartsHaveOnlyNodeHits(t, i, f, n);
    }
  }

  lemma NilHasNoHits(t: string, i: nat, n: nat)
    ensures OnlyNodeHits(t, i, Nil, n)
  {
  }

  lemma {:induction false} StrayOnEscapeShortens(t: string, i: nat, h: nat, f: Tree, n: nat)
    requires f.Esc? && WellFormed(f) && TreeAt(t, i, f) && i + Size(f) <= n <= |t|
    requires i + Size(f) == n || t[i + Size(f)] == '}'
    requires i <= h <= i + 1 && Hit(t, h, n)
    ensures |UnwrapRange(t, h, n)| + 3 <= Width(Erase(f)) + |UnwrapRange(t, i + Size(f), n)|
    decreases Size(f), 0
  {
    hide UnwrapRange, Hit, CloseFrom, ArgumentOf, OnlyNodeHits, TreeAt, Size, Width;
    OnlyBackslashHits(t, h, n);
    var body, rest := HitOnEscape(t, i, h, f, n);
    var a := ArgumentOf(t, h, n);
    var c := a + Size(body);
    DropsOne(t, h, n, body);
    StrayHitsShorten(t, a, body, c);
    NothingLeft(t, c);
    StrayHitsShorten(t, c + 1, rest, n);
  }

  /** `_unwrap_brace_swallowers` returns the printed tree with every wrapper, at
      every depth, replaced by its children, if and only if the wrapper nodes
      are the only hits in the text. */
  lemma UnwrapIsHomomorphismExactly(f: Tree)
    requires WellFormed(f)
    ensures Unwrapped(PrintTree(f)) == Print(Erase(f)) <==> OnlyNodeHits(PrintTree(f), 0, f, |PrintTree(f)|)
  {
    hide UnwrapRange, OnlyNodeHits, TreeAt, Print, PrintOnto, Erase, Width, Size;
    var t := PrintTree(f);
    var n := |t|;
    SizeIsLength(f);
    assert At(t, 0, t);
    PrintedTreeIsHeld(t, 0, f);
    NothingLeft(t, n);
    WidthIsLength(Erase(f));
    StrayHitsShorten(t, 0, f, n);
    if OnlyNodeHits(t, 0, f, n) {
      UnwrapsTheTree(t, 0, f, n);
      OntoIsInFront(Erase(f), "");
    }
  }

  /** ... and so balanced texts of that kind stay balanced. */
  lemma UnwrapKeepsBalance(f: Tree)
    requires WellFormed(f) && OnlyNodeHits(PrintTree(f), 0, f, |PrintTree(f)|)
    ensures Balanced(Unwrapped(PrintTree(f)))
  {
    hide OnlyNodeHits, UnwrapRange;
    UnwrapIsHomomorphismExactly(f);
    EraseIsProper(f);
  }

  // Off a token boundary: behind an escaped backslash the needle still hits,
  // and a balanced text becomes an unbalanced one.

  const ESCAPED_BACKSLASH: string := ['\\'] + Needle(1) + "{}}"

  lemma EscapedBackslashIsBalanced()
    ensures Balanced(ESCAPED_BACKSLASH)
  {
    var group := Group(Group(End, End), End);
    var ing := Char('i', Char('n', Char('g', group)));
    var enter := Char('e', Char('n', Char('t', Char('e', Char('r', ing)))));
    var f := Escape('\\', Char('c', enter));
    assert Print(group) == "{{}}";
    assert Print(ing) == "ing{{}}";
    assert Print(enter) == "entering{{}}";
    assert Proper(ing) && Proper(enter);
    assert Print(f) == ESCAPED_BACKSLASH;
  }

  lemma EscapedBackslashText()
    ensures var t := ESCAPED_BACKSLASH;
            && |t| == 15 && t[0] == '\\' && At(t, 1, Needle(1)) && !Hit(t, 0, 15)
            && t[12] == '{' && t[13] == '}' && t[14] == '}'
  {
    var t := ESCAPED_BACKSLASH;
    assert t[1..12] == Needle(1);
    assert t[1] == Needle(1)[0];
    if Hit(t, 0, 15) {
      NeedleIsLong(NeedleAt(t, 0, 15));
      NeedleText(t, 0, NeedleAt(t, 0, 15), 1);
    }
  }

  lemma EscapedBackslashUnwraps()
    ensures Unwrapped(ESCAPED_BACKSLASH) == "\\{}"
  {
    var t := ESCAPED_BACKSLASH;
    hide Hit, ArgumentOf, UnwrapRange, At, CloseFrom;
    EscapedBackslashText();
    WrapIsHit(t, 1, 15, 1);
    assert ArgumentOf(t, 1, 15) == 12;
    TreeIsClosed(t, 12, 15, Grp(Nil, Nil));
    UnwrapUnfolds(t, 1, 15);
    CopiesOne(t, 0, 15);
    CopiesOne(t, 12, 14);
    CopiesOne(t, 13, 14);
    NothingLeft(t, 14);
    NothingLeft(t, 15);
  }

  lemma ClosedEscapeIsUnbalanced(f: Forest)
    requires Proper(f)
    ensures Print(f) != "\\{}"
  {
    if f.Escape? {
      assert Print(f)[2..] == Print(f.rest);
      assert Print(f.rest) == "" || Print(f.rest)[0] != '}';
    } else if !f.End? {
      assert Print(f)[0] != '\\';
    }
  }

  /** Balance is lost when a needle is hit behind an escaped backslash. */
  lemma EscapedBackslashLosesBalance()
    ensures Balanced(ESCAPED_BACKSLASH) && !Balanced(Unwrapped(ESCAPED_BACKSLASH))
  {
    hide UnwrapRange;
    EscapedBackslashIsBalanced();
    EscapedBackslashUnwraps();
    forall f | Proper(f) ensures Print(f) != "\\{}" {
      ClosedEscapeIsUnbalanced(f);
    }
  }
}
