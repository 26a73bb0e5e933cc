/** Matching contexts against a query: the recursive matcher, and the path language it decides. */
module QueryMatch {
  import opened Wrappers

  /** One condition of a query; without a name it is a wildcard or a context name. */
  datatype Attribute = Attribute(name: Option<string>, value: string)

  /** The conditions on one context, as written. The last one decides whether the part is a `**`. */
  type Part = seq<Attribute>

  /** A context is known by its path from the root; its parent is the path without the last element. */
  type Path<Ctx> = seq<Ctx>

  /** A registered comparator of context properties. */
  datatype Comparator<!Ctx> = Comparator(name: string, holds: (Ctx, string) -> bool)

  const DEFAULT_COMPARATOR: string := "*"

  function Lower(c: char): char { if 'A' <= c <= 'Z' then c - 'A' + 'a' else c }

  predicate SameName(a: string, b: string) {
    |a| == |b| && forall i :: 0 <= i < |a| ==> Lower(a[i]) == Lower(b[i])
  }

  /** The first comparator for a name decides; if there is none, any default comparator may. */
  ghost predicate Holds<Ctx(!new)>(cs: seq<Comparator<Ctx>>, ctx: Ctx, key: string, val: string) {
    if exists i :: 0 <= i < |cs| && SameName(cs[i].name, key) then
      exists i :: 0 <= i < |cs| && SameName(cs[i].name, key) && (forall j :: 0 <= j < i ==> !SameName(cs[j].name, key))
                  && cs[i].holds(ctx, val)
    else
      exists i :: 0 <= i < |cs| && cs[i].name == "*" && cs[i].holds(ctx, val)
  }

  method MatchAttribute<Ctx(!new)>(cs: seq<Comparator<Ctx>>, ctx: Ctx, key: string, val: string) returns (res: bool)
    ensures res <==> Holds(cs, ctx, key, val)
  {
    res := false;
    var i := 0;
    while i < |cs|
      invariant i <= |cs| && forall j :: 0 <= j < i ==> !SameName(cs[j].name, key)
    {
      if SameName(cs[i].name, key) {
        res := cs[i].holds(ctx, val);
        return;
      }
      i := i + 1;
    }
    i := 0;
    while i < |cs|
      invariant i <= |cs| && forall j :: 0 <= j < i ==> !(cs[j].name == DEFAULT_COMPARATOR && cs[j].holds(ctx, val))
    {
      if cs[i].name == DEFAULT_COMPARATOR {
        res := cs[i].holds(ctx, val);
        if res { return; }
      }
      i := i + 1;
    }
  }

  ghost predicate HoldsOne<Ctx(!new)>(cs: seq<Comparator<Ctx>>, ctx: Ctx, a: Attribute) {
    match a.name
    case Some(n) => Holds(cs, ctx, n, a.value)
    case None => a.value == "*" || Holds(cs, ctx, "Name", a.value)
  }

  /** A context satisfies a part if it satisfies each of its conditions. */
  ghost predicate Satisfies<Ctx(!new)>(cs: seq<Comparator<Ctx>>, ctx: Ctx, part: Part) {
    forall i :: 0 <= i < |part| ==> HoldsOne(cs, ctx, part[i])
  }

  method MatchPart<Ctx(!new)>(cs: seq<Comparator<Ctx>>, ctx: Ctx, part: Part) returns (res: bool)
    ensures res <==> Satisfies(cs, ctx, part)
  {
    hide Holds;
    var i := |part|;
    while i > 0
      invariant 0 <= i <= |part| && forall j :: i <= j < |part| ==> HoldsOne(cs, ctx, part[j])
    {
      var a := part[i - 1];
      var r := true;
      if a.name.Some? {
        r := MatchAttribute(cs, ctx, a.name.value, a.value);
      } else if a.value != "*" {
        r := MatchAttribute(cs, ctx, "Name", a.value);
      }
      assert r <==> HoldsOne(cs, ctx, part[i - 1]);
      if !r { return false; }
      i := i - 1;
    }
    return true;
  }

  predicate IsDoubleStar(part: Part) {
    part != [] && part[|part| - 1] == Attribute(None, "**")
  }

  /** Names are compared without regard to the case of letters, and the double star is the last condition of its part. */
  lemma Names(c: char, part: Part)
    ensures Lower(c) as int == if 65 <= c as int <= 90 then c as int + 32 else c as int
    ensures SameName("Name", "nAMe") && !SameName("Name", "Names") && !SameName("Name", "Same")
    ensures IsDoubleStar([Attribute(None, "**")]) && !IsDoubleStar([Attribute(None, "*")]) && !IsDoubleStar([Attribute(Some("x"), "**")])
    ensures IsDoubleStar(part + [Attribute(None, "**")]) && !IsDoubleStar([Attribute(None, "**")] + [Attribute(None, "a")])
  {
    assert Lower("Name"[0]) != Lower("Same"[0]);
    assert "*" != "**" by { assert |"*"| != |"**"|; }
    assert "a" != "**" by { assert |"a"| != |"**"|; }
  }

  // ----- the path language -----

  /** What stretch of a path one part stands for: a `**` for any stretch, at the start of the query for a non-empty one;
      any other part for one context that satisfies it. */
  ghost predicate Stretch<Ctx(!new)>(cs: seq<Comparator<Ctx>>, part: Part, first: bool, path: Path<Ctx>, from: nat, to: nat) {
    if IsDoubleStar(part) then (if first then from < to else from <= to) && to <= |path|
    else to == from + 1 && to <= |path| && Satisfies(cs, path[from], part)
  }

  /** `cuts` divides the path, from some context on, into the stretches of the parts. */
  ghost predicate Divides<Ctx(!new)>(cs: seq<Comparator<Ctx>>, abs: bool, parts: seq<Part>, path: Path<Ctx>, cuts: seq<nat>) {
    && |cuts| == |parts| + 1 && cuts[|parts|] == |path|
    && (abs ==> cuts[0] == 0)
    && forall i :: 0 <= i < |parts| ==> Stretch(cs, parts[i], i == 0, path, cuts[i], cuts[i + 1])
  }

  /** The declarative meaning of a query: the path can be divided into stretches of its parts; anchored queries start at
      the root. */
  ghost predicate InLanguage<Ctx(!new)>(cs: seq<Comparator<Ctx>>, abs: bool, parts: seq<Part>, path: Path<Ctx>) {
    exists cuts: seq<nat> :: Divides(cs, abs, parts, path, cuts)
  }

  /** Adding a last part and its stretch. */
  lemma Append<Ctx(!new)>(cs: seq<Comparator<Ctx>>, abs: bool, parts: seq<Part>, path: Path<Ctx>, k: nat, cuts: seq<nat>, last: Part)
    requires k <= |path| && Divides(cs, abs, parts, path[..k], cuts) && Stretch(cs, last, parts == [], path, k, |path|)
    ensures Divides(cs, abs, parts + [last], path, cuts + [|path|])
  {
    hide Satisfies;
    var ps, cs2 := parts + [last], cuts + [|path|];
    forall i | 0 <= i < |ps| ensures Stretch(cs, ps[i], i == 0, path, cs2[i], cs2[i + 1]) {
      if i < |parts| {
        assert Stretch(cs, parts[i], i == 0, path[..k], cuts[i], cuts[i + 1]);
      }
    }
  }

  /** Taking the last part and its stretch away. */
  lemma Drop<Ctx(!new)>(cs: seq<Comparator<Ctx>>, abs: bool, parts: seq<Part>, path: Path<Ctx>, cuts: seq<nat>)
    requires |parts| > 1 && Divides(cs, abs, parts, path, cuts)
    ensures var n := |parts| - 1;
            && 0 < cuts[n] <= |path| && Stretch(cs, parts[n], false, path, cuts[n], |path|)
            && Divides(cs, abs, parts[..n], path[..cuts[n]], cuts[..n + 1])
  {
    hide Satisfies;
    var n := |parts| - 1;
    var k := cuts[n];
    Ordered(cs, abs, parts, path, cuts, 0, n);
    assert Stretch(cs, parts[n], n == 0, path, cuts[n], cuts[n + 1]);
    forall i | 0 <= i < n ensures Stretch(cs, parts[..n][i], i == 0, path[..k], cuts[..n + 1][i], cuts[..n + 1][i + 1]) {
      assert Stretch(cs, parts[i], i == 0, path, cuts[i], cuts[i + 1]);
      Ordered(cs, abs, parts, path, cuts, i + 1, n);
    }
  }

  lemma {:induction false} Ordered<Ctx(!new)>(cs: seq<Comparator<Ctx>>, abs: bool, parts: seq<Part>, path: Path<Ctx>, cuts: seq<nat>, i: nat, j: nat)
    requires Divides(cs, abs, parts, path, cuts) && i <= j <= |parts|
    ensures cuts[i] <= cuts[j] && (i == 0 && j > 0 ==> cuts[i] < cuts[j])
    decreases j - i
  {
    hide Satisfies;
    if i < j {
      assert Stretch(cs, parts[i], i == 0, path, cuts[i], cuts[i + 1]);
      Ordered(cs, abs, parts, path, cuts, i + 1, j);
    }
  }

  // ----- the matcher meets it -----

  /** A query of one part. */
  lemma SinglePart<Ctx(!new)>(cs: seq<Comparator<Ctx>>, abs: bool, parts: seq<Part>, path: Path<Ctx>)
    requires |parts| == 1 && path != []
    ensures InLanguage(cs, abs, parts, path) <==>
              IsDoubleStar(parts[0]) || ((abs ==> |path| == 1) && Satisfies(cs, path[|path| - 1], parts[0]))
  {
    hide Satisfies;
    var p := parts[0];
    if IsDoubleStar(p) {
      assert Divides(cs, abs, parts, path, [0, |path|]);
    } else {
      if (abs ==> |path| == 1) && Satisfies(cs, path[|path| - 1], p) {
        assert Divides(cs, abs, parts, path, [|path| - 1, |path|]);
      }
      if InLanguage(cs, abs, parts, path) {
        var cuts :| Divides(cs, abs, parts, path, cuts);
        assert Stretch(cs, parts[0], true, path, cuts[0], cuts[1]);
      }
    }
  }

  /** P/x: one child of a match of P that satisfies x. */
  lemma ChildPart<Ctx(!new)>(cs: seq<Comparator<Ctx>>, abs: bool, parts: seq<Part>, path: Path<Ctx>)
    requires |parts| > 1 && path != [] && !IsDoubleStar(parts[|parts| - 1])
    ensures var n, k := |parts| - 1, |path| - 1;
            InLanguage(cs, abs, parts, path) <==> k > 0 && InLanguage(cs, abs, parts[..n], path[..k]) && Satisfies(cs, path[k], parts[n])
  {
    hide Satisfies, Divides;
    var n, k := |parts| - 1, |path| - 1;
    if InLanguage(cs, abs, parts, path) {
      var cuts :| Divides(cs, abs, parts, path, cuts);
      Shape(cs, abs, parts, path, cuts);
      Drop(cs, abs, parts, path, cuts);
    }
    if k > 0 && InLanguage(cs, abs, parts[..n], path[..k]) && Satisfies(cs, path[k], parts[n]) {
      var cuts :| Divides(cs, abs, parts[..n], path[..k], cuts);
      Append(cs, abs, parts[..n], path, k, cuts, parts[n]);
      assert parts[..n] + [parts[n]] == parts;
    }
  }

  lemma Shape<Ctx(!new)>(cs: seq<Comparator<Ctx>>, abs: bool, parts: seq<Part>, path: Path<Ctx>, cuts: seq<nat>)
    requires Divides(cs, abs, parts, path, cuts)
    ensures |cuts| == |parts| + 1
  {
  }

  // A query P followed by a double star: any context at or below a match of P.
  lemma BelowPart<Ctx(!new)>(cs: seq<Comparator<Ctx>>, abs: bool, parts: seq<Part>, path: Path<Ctx>)
    requires |parts| > 1 && IsDoubleStar(parts[|parts| - 1])
    ensures InLanguage(cs, abs, parts, path) <==>
              exists k :: 0 < k <= |path| && InLanguage(cs, abs, parts[..|parts| - 1], path[..k])
  {
    hide Satisfies, Divides;
    var n := |parts| - 1;
    if InLanguage(cs, abs, parts, path) {
      var cuts :| Divides(cs, abs, parts, path, cuts);
      Shape(cs, abs, parts, path, cuts);
      Drop(cs, abs, parts, path, cuts);
      assert InLanguage(cs, abs, parts[..n], path[..cuts[n]]);
    }
    if exists k :: 0 < k <= |path| && InLanguage(cs, abs, parts[..n], path[..k]) {
      var k :| 0 < k <= |path| && InLanguage(cs, abs, parts[..n], path[..k]);
      var cuts :| Divides(cs, abs, parts[..n], path[..k], cuts);
      Append(cs, abs, parts[..n], path, k, cuts, parts[n]);
      assert parts[..n] + [parts[n]] == parts;
    }
  }

  /** The recursive matcher, for a query of at least one part, decides the path language. */
  method Match<Ctx(!new)>(cs: seq<Comparator<Ctx>>, abs: bool, parts: seq<Part>, path: Path<Ctx>) returns (res: bool)
    requires parts != [] && path != []
    ensures res <==> InLanguage(cs, abs, parts, path)
    decreases |parts|
  {
    hide InLanguage, Satisfies;
    var n := |parts| - 1;
    if IsDoubleStar(parts[n]) {
      if n == 0 {
        SinglePart(cs, abs, parts, path);
        return true;
      }
      BelowPart(cs, abs, parts, path);
      var k := |path|;
      while k > 0
        invariant 0 <= k <= |path|
        invariant forall j :: k < j <= |path| ==> !InLanguage(cs, abs, parts[..n], path[..j])
      {
        var r := Match(cs, abs, parts[..n], path[..k]);
        if r { return true; }
        k := k - 1;
      }
      return false;
    }
    if n > 0 {
      ChildPart(cs, abs, parts, path);
      if |path| == 1 { return false; }
      var r := Match(cs, abs, parts[..n], path[..|path| - 1]);
      if !r { return false; }
    } else {
      SinglePart(cs, abs, parts, path);
      if abs && |path| > 1 { return false; }
    }
    res := MatchPart(cs, path[|path| - 1], parts[n]);
  }

  /** Running a query; the empty one matches unless it is anchored. */
  method RunQuery<Ctx(!new)>(cs: seq<Comparator<Ctx>>, abs: bool, parts: seq<Part>, path: Path<Ctx>) returns (res: bool)
    requires path != []
    ensures res <==> if parts == [] then !abs else InLanguage(cs, abs, parts, path)
  {
    if parts == [] { return !abs; }
    res := Match(cs, abs, parts, path);
  }
}
