/** Inlining of `\input`, `\include` and `\bibliography` directives: a recursion
    over the files of a project with one set of path keys shared by all of it. */
module Inputs {
  import opened Text

  // ---- Directives ----

  datatype Kind = Input | Include | Bib | Style

  function Head(k: Kind): string {
    match k
    case Input => "\\input{"
    case Include => "\\include{"
    case Bib => "\\bibliography{"
    case Style => "\\bibliographystyle{"
  }

  /** The end of a directive at the start of `t`: its head, an argument without
      braces, and a closing brace. Only a style may have an empty argument. */
  function MatchEnd(t: string, k: Kind): (e: Option<nat>)
    ensures e.Some? ==> |Head(k)| < e.value <= |t|
  {
    if !At(t, 0, Head(k)) then None
    else
      var q := NextBrace(t, |Head(k)|);
      if q == |t| || t[q] != '}' || (q == |Head(k)| && k != Style) then None else Some(q + 1)
  }

  function InputKind(t: string): (k: Option<Kind>)
    ensures k.Some? ==> MatchEnd(t, k.value).Some? && (k.value == Input || k.value == Include)
  {
    if MatchEnd(t, Input).Some? then Some(Input)
    else if MatchEnd(t, Include).Some? then Some(Include)
    else None
  }

  function Argument(t: string, k: Kind): string
    requires MatchEnd(t, k).Some?
  {
    t[|Head(k)|..MatchEnd(t, k).value - 1]
  }

  // ---- The project ----

  /** The files of a source tree. `found` gives the path key of the file that a
      name denotes relative to a directory, `bbls` that of the first `<name>.bbl`
      in the tree, and `anyBbl` that of the first `.bbl` of any name. */
  datatype Project = Project(
    root: string,
    files: map<string, string>,
    found: map<(string, string), string>,
    bbls: map<string, string>,
    anyBbl: Option<string>)

  function Content(p: Project, path: string): string {
    if path in p.files then p.files[path] else ""
  }

  /** The directory of a path. */
  function Parent(path: string): string {
    if path == "" || path[|path| - 1] == '/' then path[..if path == "" then 0 else |path| - 1]
    else Parent(path[..|path| - 1])
  }

  /** First the file's own directory, then the root; each as written and with
      `.tex` appended. */
  function Resolve(p: Project, dir: string, arg: string): Option<string> {
    var a := Trim(arg);
    if (dir, a) in p.found then Some(p.found[(dir, a)])
    else if (dir, a + ".tex") in p.found then Some(p.found[(dir, a + ".tex")])
    else if (p.root, a) in p.found then Some(p.found[(p.root, a)])
    else if (p.root, a + ".tex") in p.found then Some(p.found[(p.root, a + ".tex")])
    else None
  }

  function FirstNamed(p: Project, names: seq<string>): Option<string> {
    if names == [] then None
    else if Trim(names[0]) != "" && Trim(names[0]) in p.bbls then Some(p.bbls[Trim(names[0])])
    else FirstNamed(p, names[1..])
  }

  function BibTarget(p: Project, arg: string): Option<string> {
    var named := FirstNamed(p, Split(arg, ','));
    if named.Some? then named else p.anyBbl
  }

  /** Every path key the project can yield. */
  function Keys(p: Project): set<string> {
    p.found.Values + p.bbls.Values + if p.anyBbl.Some? then {p.anyBbl.value} else {}
  }

  // ---- The expansion ----

  const MAX_DEPTH: nat := 10

  const REFERENCES: string := "\\section*{References}\n"

  /** The expanded text, the keys seen so far in the order they were entered, the
      number of recursive calls, and whether the depth limit stopped one. */
  datatype Out = Out(text: string, seen: seq<string>, calls: nat, halted: bool)

  function Then(o: Out, r: Out): Out {
    Out(o.text + r.text, r.seen, o.calls + r.calls, o.halted || r.halted)
  }

  function Copied(s: string, r: Out): Out {
    r.(text := s + r.text)
  }

  /** A recursive call whose result goes in behind `header`. */
  function Called(header: string, o: Out): Out {
    o.(text := header + o.text, calls := o.calls + 1)
  }

  /** `_expand_inputs`: the inputs first, then the styles, then the bibliographies. */
  function Expand(p: Project, t: string, dir: string, depth: nat, seen: seq<string>): Out
    requires depth <= MAX_DEPTH + 1
    decreases MAX_DEPTH + 1 - depth, 1, 0
  {
    if depth > MAX_DEPTH then Out(t, seen, 0, true)
    else
      var a := ExpandInputs(p, t, dir, depth, seen);
      var b := ExpandBibs(p, DropStyles(a.text), depth, a.seen);
      Out(b.text, b.seen, a.calls + b.calls, a.halted || b.halted)
  }

  /** `_INPUT_DIRECTIVE.sub(_replace_input, t)`. */
  function ExpandInputs(p: Project, t: string, dir: string, depth: nat, seen: seq<string>): Out
    requires depth <= MAX_DEPTH
    decreases MAX_DEPTH + 1 - depth, 0, |t|
  {
    if t == "" then Out("", seen, 0, false)
    else
      var k := InputKind(t);
      if k == None then Copied([t[0]], ExpandInputs(p, t[1..], dir, depth, seen))
      else
        var e := MatchEnd(t, k.value).value;
        var path := Resolve(p, dir, Argument(t, k.value));
        if path == None then Copied(t[..e], ExpandInputs(p, t[e..], dir, depth, seen))
        else if path.value in seen then ExpandInputs(p, t[e..], dir, depth, seen)
        else
          var inner := Expand(p, Content(p, path.value), Parent(path.value), depth + 1, seen + [path.value]);
          Then(Called("", inner), ExpandInputs(p, t[e..], dir, depth, inner.seen))
  }

  /** `_BIBLIOGRAPHYSTYLE_DIRECTIVE.sub("", t)`. */
  function DropStyles(t: string): (r: string)
    ensures |r| <= |t|
    decreases |t|
  {
    if t == "" then ""
    else
      var e := MatchEnd(t, Style);
      if e.Some? then DropStyles(t[e.value..]) else [t[0]] + DropStyles(t[1..])
  }

  /** `_BIBLIOGRAPHY_DIRECTIVE.sub(_replace_bibliography, t)`. */
  function ExpandBibs(p: Project, t: string, depth: nat, seen: seq<string>): Out
    requires depth <= MAX_DEPTH
    decreases MAX_DEPTH + 1 - depth, 0, |t|
  {
    if t == "" then Out("", seen, 0, false)
    else
      var end := MatchEnd(t, Bib);
      if end == None then Copied([t[0]], ExpandBibs(p, t[1..], depth, seen))
      else
        var e := end.value;
        var path := BibTarget(p, Argument(t, Bib));
        if path == None then Copied(t[..e], ExpandBibs(p, t[e..], depth, seen))
        else if path.value in seen then ExpandBibs(p, t[e..], depth, seen)
        else
          var inner := Expand(p, Content(p, path.value), Parent(path.value), depth + 1, seen + [path.value]);
          Then(Called(REFERENCES, inner), ExpandBibs(p, t[e..], depth, inner.seen))
  }

  // ---- No blow-up ----

  predicate Distinct(s: seq<string>) {
    forall i, j :: 0 <= i < j < |s| ==> s[i] != s[j]
  }

  /** The lengths of the files behind the keys, and of a header for each. */
  function Weight(p: Project, keys: seq<string>): nat {
    if keys == [] then 0 else |Content(p, keys[0])| + 22 + Weight(p, keys[1..])
  }

  lemma {:induction false} WeightAppend(p: Project, a: seq<string>, b: seq<string>)
    ensures Weight(p, a + b) == Weight(p, a) + Weight(p, b)
    decreases |a|
  {
    if a == [] {
      assert a + b == b;
    } else {
      assert (a + b)[1..] == a[1..] + b;
      WeightAppend(p, a[1..], b);
    }
  }

  /** What a stretch of expansion over `n` characters does to the set of keys, and
      how long its result may be. */
  predicate Grown(p: Project, n: nat, seen: seq<string>, o: Out) {
    && seen <= o.seen
    && (Distinct(seen) ==> Distinct(o.seen))
    && (forall k :: |seen| <= k < |o.seen| ==> o.seen[k] in Keys(p))
    && o.calls == |o.seen| - |seen|
    && |o.text| + Weight(p, seen) <= n + Weight(p, o.seen)
  }

  lemma GrownThen(p: Project, n: nat, m: nat, seen: seq<string>, o: Out, r: Out)
    requires Grown(p, n, seen, o) && Grown(p, m, o.seen, r)
    ensures Grown(p, n + m, seen, Then(o, r))
  {
  }

  lemma GrownEnter(p: Project, header: string, seen: seq<string>, path: string, inner: Out)
    requires Grown(p, |Content(p, path)|, seen + [path], inner)
    requires path !in seen && path in Keys(p) && |header| <= 22
    ensures Grown(p, 0, seen, Called(header, inner))
  {
    WeightAppend(p, seen, [path]);
    assert Weight(p, [path]) == |Content(p, path)| + 22 by {
      assert [path][1..] == [];
    }
    assert (seen + [path])[|seen|] == path;
    assert inner.seen[|seen|] == path;
    assert Distinct(seen) ==> Distinct(seen + [path]);
  }

  lemma GrownTail(p: Project, n: nat, m: nat, seen: seq<string>, s: string, r: Out)
    requires Grown(p, n, seen, r) && n + |s| <= m
    ensures Grown(p, m, seen, Copied(s, r))
    ensures Grown(p, m, seen, r)
  {
  }

  lemma NothingGrown(p: Project, seen: seq<string>, t: string, halted: bool)
    ensures Grown(p, |t|, seen, Out(t, seen, 0, halted))
  {
  }

  lemma ResolvedIsKey(p: Project, dir: string, arg: string)
    ensures Resolve(p, dir, arg).Some? ==> Resolve(p, dir, arg).value in Keys(p)
  {
    hide Trim;
    var a := Trim(arg);
    assert forall d, n :: (d, n) in p.found ==> p.found[(d, n)] in p.found.Values;
  }

  lemma {:induction false} NamedIsKey(p: Project, names: seq<string>)
    ensures FirstNamed(p, names).Some? ==> FirstNamed(p, names).value in Keys(p)
    decreases |names|
  {
    hide Trim;
    if names != [] {
      NamedIsKey(p, names[1..]);
    }
  }

  lemma {:induction false} ExpandGrows(p: Project, t: string, dir: string, depth: nat, seen: seq<string>)
    requires depth <= MAX_DEPTH + 1
    ensures Grown(p, |t|, seen, Expand(p, t, dir, depth, seen))
    decreases MAX_DEPTH + 1 - depth, 1, 0
  {
    hide Grown, DropStyles, ExpandInputs, ExpandBibs;
    if depth > MAX_DEPTH {
      NothingGrown(p, seen, t, true);
    } else {
      var a := ExpandInputs(p, t, dir, depth, seen);
      var s := DropStyles(a.text);
      var b := ExpandBibs(p, s, depth, a.seen);
      InputsGrow(p, t, dir, depth, seen);
      BibsGrow(p, s, depth, a.seen);
      GrownPasses(p, |t|, seen, a, |s|, b);
    }
  }

  lemma GrownPasses(p: Project, n: nat, seen: seq<string>, a: Out, m: nat, b: Out)
    requires Grown(p, n, seen, a) && m <= |a.text| && Grown(p, m, a.seen, b)
    ensures Grown(p, n, seen, Out(b.text, b.seen, a.calls + b.calls, a.halted || b.halted))
  {
  }

  lemma InputsUnfold(p: Project, t: string, dir: string, depth: nat, seen: seq<string>)
    requires depth <= MAX_DEPTH && t != ""
    ensures ExpandInputs(p, t, dir, depth, seen) ==
            var k := InputKind(t);
            if k == None then Copied([t[0]], ExpandInputs(p, t[1..], dir, depth, seen))
            else
              var e := MatchEnd(t, k.value).value;
              var path := Resolve(p, dir, Argument(t, k.value));
              if path == None then Copied(t[..e], ExpandInputs(p, t[e..], dir, depth, seen))
              else if path.value in seen then ExpandInputs(p, t[e..], dir, depth, seen)
              else
                var inner := Expand(p, Content(p, path.value), Parent(path.value), depth + 1, seen + [path.value]);
                Then(Called("", inner), ExpandInputs(p, t[e..], dir, depth, inner.seen))
  {
  }

  lemma BibsUnfold(p: Project, t: string, depth: nat, seen: seq<string>)
    requires depth <= MAX_DEPTH && t != ""
    ensures ExpandBibs(p, t, depth, seen) ==
            var end := MatchEnd(t, Bib);
            if end == None then Copied([t[0]], ExpandBibs(p, t[1..], depth, seen))
            else
              var e := end.value;
              var path := BibTarget(p, Argument(t, Bib));
              if path == None then Copied(t[..e], ExpandBibs(p, t[e..], depth, seen))
              else if path.value in seen then ExpandBibs(p, t[e..], depth, seen)
              else
                var inner := Expand(p, Content(p, path.value), Parent(path.value), depth + 1, seen + [path.value]);
                Then(Called(REFERENCES, inner), ExpandBibs(p, t[e..], depth, inner.seen))
  {
  }

  lemma {:induction false} InputsGrow(p: Project, t: string, dir: string, depth: nat, seen: seq<string>)
    requires depth <= MAX_DEPTH
    ensures Grown(p, |t|, seen, ExpandInputs(p, t, dir, depth, seen))
    decreases MAX_DEPTH + 1 - depth, 0, |t|
  {
    hide Grown, ExpandInputs, Expand, MatchEnd, Resolve, Keys;
    if t == "" {
      NoInputs(p, dir, depth, seen);
      NothingGrown(p, seen, "", false);
    } else {
      InputsUnfold(p, t, dir, depth, seen);
      var k := InputKind(t);
      if k == None {
        InputsGrow(p, t[1..], dir, depth, seen);
        GrownTail(p, |t[1..]|, |t|, seen, [t[0]], ExpandInputs(p, t[1..], dir, depth, seen));
      } else {
        var e := MatchEnd(t, k.value).value;
        var path := Resolve(p, dir, Argument(t, k.value));
        if path == None || path.value in seen {
          InputsGrow(p, t[e..], dir, depth, seen);
          GrownTail(p, |t[e..]|, |t|, seen, t[..e], ExpandInputs(p, t[e..], dir, depth, seen));
        } else {
          ResolvedIsKey(p, dir, Argument(t, k.value));
          EnterGrows(p, "", path.value, depth, seen);
          var inner := Expand(p, Content(p, path.value), Parent(path.value), depth + 1, seen + [path.value]);
          var r := ExpandInputs(p, t[e..], dir, depth, inner.seen);
          InputsGrow(p, t[e..], dir, depth, inner.seen);
          GrownTail(p, |t[e..]|, |t|, inner.seen, "", r);
          GrownThen(p, 0, |t|, seen, Called("", inner), r);
        }
      }
    }
  }

  lemma NoInputs(p: Project, dir: string, depth: nat, seen: seq<string>)
    requires depth <= MAX_DEPTH
    ensures ExpandInputs(p, "", dir, depth, seen) == ExpandBibs(p, "", depth, seen) == Out("", seen, 0, false)
  {
  }

  lemma {:induction false} EnterGrows(p: Project, header: string, path: string, depth: nat, seen: seq<string>)
    requires depth <= MAX_DEPTH && path !in seen && path in Keys(p) && |header| <= 22
    ensures Grown(p, 0, seen, Called(header, Expand(p, Content(p, path), Parent(path), depth + 1, seen + [path])))
    decreases MAX_DEPTH + 1 - (depth + 1), 2, 0
  {
    hide Grown, Expand;
    ExpandGrows(p, Content(p, path), Parent(path), depth + 1, seen + [path]);
    GrownEnter(p, header, seen, path, Expand(p, Content(p, path), Parent(path), depth + 1, seen + [path]));
  }

  lemma {:induction false} BibsGrow(p: Project, t: string, depth: nat, seen: seq<string>)
    requires depth <= MAX_DEPTH
    ensures Grown(p, |t|, seen, ExpandBibs(p, t, depth, seen))
    decreases MAX_DEPTH + 1 - depth, 0, |t|
  {
    hide Grown, ExpandBibs, Expand, MatchEnd, FirstNamed, Split, Keys;
    if t == "" {
      NoInputs(p, "", depth, seen);
      NothingGrown(p, seen, "", false);
    } else {
      BibsUnfold(p, t, depth, seen);
      var end := MatchEnd(t, Bib);
      if end == None {
        BibsGrow(p, t[1..], depth, seen);
        GrownTail(p, |t[1..]|, |t|, seen, [t[0]], ExpandBibs(p, t[1..], depth, seen));
      } else {
        var e := end.value;
        var path := BibTarget(p, Argument(t, Bib));
        if path == None || path.value in seen {
          BibsGrow(p, t[e..], depth, seen);
          GrownTail(p, |t[e..]|, |t|, seen, t[..e], ExpandBibs(p, t[e..], depth, seen));
        } else {
          BibIsKey(p, Argument(t, Bib));
          EnterGrows(p, REFERENCES, path.value, depth, seen);
          var inner := Expand(p, Content(p, path.value), Parent(path.value), depth + 1, seen + [path.value]);
          var r := ExpandBibs(p, t[e..], depth, inner.seen);
          BibsGrow(p, t[e..], depth, inner.seen);
          GrownTail(p, |t[e..]|, |t|, inner.seen, "", r);
          GrownThen(p, 0, |t|, seen, Called(REFERENCES, inner), r);
        }
      }
    }
  }

  lemma BibIsKey(p: Project, arg: string)
    ensures BibTarget(p, arg).Some? ==> BibTarget(p, arg).value in Keys(p)
  {
    NamedIsKey(p, Split(arg, ','));
  }

  lemma {:induction false} DistinctFit(s: seq<string>, keys: set<string>)
    requires Distinct(s) && forall k :: 0 <= k < |s| ==> s[k] in keys
    ensures |s| <= |keys|
    decreases |s|
  {
    if s != [] {
      var last := s[|s| - 1];
      var front := s[..|s| - 1];
      forall k | 0 <= k < |front| ensures front[k] in keys - {last} {
        assert front[k] == s[k] != last;
      }
      DistinctFit(front, keys - {last});
    }
  }

  /** On any project, cyclic or not: every key is entered at most once, there is
      one recursive call for each key, at most as many as the project has keys,
      and the result is no longer than the text and the entered files together,
      with 22 characters for each. */
  lemma ExpandHasNoBlowUp(p: Project, t: string)
    ensures var o := Expand(p, t, p.root, 0, []);
            && Distinct(o.seen)
            && (forall k :: 0 <= k < |o.seen| ==> o.seen[k] in Keys(p))
            && o.calls == |o.seen| <= |Keys(p)|
            && |o.text| <= |t| + Weight(p, o.seen)
  {
    hide Expand, Keys;
    ExpandGrows(p, t, p.root, 0, []);
    var o := Expand(p, t, p.root, 0, []);
    DistinctFit(o.seen, Keys(p));
  }

  // ---- The code over a shared set ----

  /** The set that all calls of one expansion share. */
  class Seen {
    var keys: set<string>
    ghost var order: seq<string>

    constructor ()
      ensures Valid() && keys == {} && order == []
    {
      keys, order := {}, [];
    }

    ghost predicate Valid()
      reads this
    {
      forall k :: k in keys <==> k in order
    }

    method Add(key: string)
      requires Valid()
      modifies this
      ensures Valid() && keys == old(keys) + {key} && order == old(order) + [key]
    {
      keys := keys + {key};
      order := order + [key];
    }
  }

  method RunExpand(p: Project, tex: string, dir: string, depth: nat, seen: Seen) returns (out: string, ghost calls: nat)
    requires seen.Valid() && depth <= MAX_DEPTH + 1
    modifies seen
    ensures seen.Valid()
    ensures var o := Expand(p, tex, dir, depth, old(seen.order));
            out == o.text && seen.order == o.seen && calls == o.calls
    decreases MAX_DEPTH + 1 - depth, 1, 0
  {
    hide ExpandInputs, ExpandBibs, DropStyles;
    if depth > MAX_DEPTH {
      return tex, 0;
    }
    ghost var calls1, calls2;
    out, calls1 := RunInputs(p, tex, dir, depth, seen);
    out := DropStyles(out);
    out, calls2 := RunBibs(p, out, depth, seen);
    calls := calls1 + calls2;
  }

  method RunInputs(p: Project, tex: string, dir: string, depth: nat, seen: Seen) returns (out: string, ghost calls: nat)
    requires seen.Valid() && depth <= MAX_DEPTH
    modifies seen
    ensures seen.Valid()
    ensures var o := ExpandInputs(p, tex, dir, depth, old(seen.order));
            out == o.text && seen.order == o.seen && calls == o.calls
    decreases MAX_DEPTH + 1 - depth, 0, 0
  {
    hide ExpandInputs, Expand, MatchEnd, Resolve;
    ghost var all := ExpandInputs(p, tex, dir, depth, seen.order);
    out, calls := "", 0;
    var rest := tex;
    while rest != ""
      invariant seen.Valid()
      invariant out + ExpandInputs(p, rest, dir, depth, seen.order).text == all.text
      invariant ExpandInputs(p, rest, dir, depth, seen.order).seen == all.seen
      invariant calls + ExpandInputs(p, rest, dir, depth, seen.order).calls == all.calls
      decreases |rest|
    {
      InputsUnfold(p, rest, dir, depth, seen.order);
      ghost var t := ExpandInputs(p, rest, dir, depth, seen.order).text;
      var piece := "";
      var k := InputKind(rest);
      if k == None {
        piece, rest := [rest[0]], rest[1..];
      } else {
        var e := MatchEnd(rest, k.value).value;
        var path := Resolve(p, dir, Argument(rest, k.value));
        if path == None {
          piece, rest := rest[..e], rest[e..];
        } else if path.value in seen.keys {
          rest := rest[e..];
        } else {
          seen.Add(path.value);
          ghost var n;
          piece, n := RunExpand(p, Content(p, path.value), Parent(path.value), depth + 1, seen);
          calls := calls + 1 + n;
          rest := rest[e..];
        }
      }
      Associate(out, piece, ExpandInputs(p, rest, dir, depth, seen.order).text);
      assert t == piece + ExpandInputs(p, rest, dir, depth, seen.order).text;
      out := out + piece;
    }
    NoInputs(p, dir, depth, seen.order);
    assert out + "" == out;
  }

  method RunBibs(p: Project, tex: string, depth: nat, seen: Seen) returns (out: string, ghost calls: nat)
    requires seen.Valid() && depth <= MAX_DEPTH
    modifies seen
    ensures seen.Valid()
    ensures var o := ExpandBibs(p, tex, depth, old(seen.order));
            out == o.text && seen.order == o.seen && calls == o.calls
    decreases MAX_DEPTH + 1 - depth, 0, 0
  {
    hide ExpandBibs, Expand, MatchEnd, BibTarget;
    ghost var all := ExpandBibs(p, tex, depth, seen.order);
    out, calls := "", 0;
    var rest := tex;
    while rest != ""
      invariant seen.Valid()
      invariant out + ExpandBibs(p, rest, depth, seen.order).text == all.text
      invariant ExpandBibs(p, rest, depth, seen.order).seen == all.seen
      invariant calls + ExpandBibs(p, rest, depth, seen.order).calls == all.calls
      decreases |rest|
    {
      BibsUnfold(p, rest, depth, seen.order);
      ghost var t := ExpandBibs(p, rest, depth, seen.order).text;
      var piece := "";
      var end := MatchEnd(rest, Bib);
      if end == None {
        piece, rest := [rest[0]], rest[1..];
      } else {
        var e := end.value;
        var path := BibTarget(p, Argument(rest, Bib));
        if path == None {
          piece, rest := rest[..e], rest[e..];
        } else if path.value in seen.keys {
          rest := rest[e..];
        } else {
          seen.Add(path.value);
          ghost var n;
          piece, n := RunExpand(p, Content(p, path.value), Parent(path.value), depth + 1, seen);
          piece := REFERENCES + piece;
          calls := calls + 1 + n;
          rest := rest[e..];
        }
      }
      Associate(out, piece, ExpandBibs(p, rest, depth, seen.order).text);
      assert t == piece + ExpandBibs(p, rest, depth, seen.order).text;
      out := out + piece;
    }
    NoInputs(p, "", depth, seen.order);
    assert out + "" == out;
  }
}
