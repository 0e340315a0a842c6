/**
 * When gathered configuration paths repeat: Gather makes a copy of its output unique and drops it,
 * so its output is free of repetitions only if DoGather makes none.
 */
module ConfigRecords {
  import opened Sequences
  import opened ConfigPaths

  /** What Gather leaves in an empty output. */
  ghost function GatheredFrom(g: Graph, root: TypeId): seq<Record> {
    Records(g, root, [], Walks(g, root, {}))
  }

  // ---------- Joined paths split uniquely ----------

  predicate IsName(text: string) {
    '/' !in text && text != "[i]"
  }

  /** A name, or a name with the index of a container's items behind it. */
  ghost predicate CleanLabel(text: string) {
    IsName(text) || exists name :: IsName(name) && text == name + "/" + "[i]"
  }

  lemma LastSlash(x: string, s: string, y: string, t: string)
    requires x + "/" + s == y + "/" + t && '/' !in s && '/' !in t
    ensures x == y && s == t
  {
    var z := x + "/" + s;
    assert z[|x|] == '/' && z[|y|] == '/';
    assert forall i :: |x| < i < |z| ==> z[i] == s[i - |x| - 1];
    assert forall i :: |y| < i < |z| ==> z[i] == t[i - |y| - 1];
    assert x == z[..|x|] && s == z[|x| + 1..];
    assert y == z[..|y|] && t == z[|y| + 1..];
  }

  lemma LastLabel(x: string, s: string, y: string, t: string)
    requires x + "/" + s == y + "/" + t && CleanLabel(s) && CleanLabel(t)
    ensures x == y && s == t
  {
    if IsName(s) && IsName(t) {
      LastSlash(x, s, y, t);
    } else if IsName(s) {
      var b :| IsName(b) && t == b + "/" + "[i]";
      assert y + "/" + t == y + "/" + b + "/" + "[i]";
      LastSlash(x, s, y + "/" + b, "[i]");
    } else if IsName(t) {
      var a :| IsName(a) && s == a + "/" + "[i]";
      assert x + "/" + s == x + "/" + a + "/" + "[i]";
      LastSlash(x + "/" + a, "[i]", y, t);
    } else {
      var a :| IsName(a) && s == a + "/" + "[i]";
      var b :| IsName(b) && t == b + "/" + "[i]";
      assert x + "/" + s == x + "/" + a + "/" + "[i]";
      assert y + "/" + t == y + "/" + b + "/" + "[i]";
      LastSlash(x + "/" + a, "[i]", y + "/" + b, "[i]");
      LastSlash(x, a, y, b);
    }
  }

  ghost predicate AllClean(labels: seq<string>) {
    forall i :: 0 <= i < |labels| ==> CleanLabel(labels[i])
  }

  /** A path of clean labels can be taken apart again. */
  lemma {:induction false} JoinPathInjective(a: seq<string>, b: seq<string>)
    requires AllClean(a) && AllClean(b) && JoinPath(a) == JoinPath(b)
    ensures a == b
  {
    if a == [] || b == [] {
    } else {
      var n, m := |a| - 1, |b| - 1;
      LastLabel(JoinPath(a[..n]), a[n], JoinPath(b[..m]), b[m]);
      JoinPathInjective(a[..n], b[..m]);
      assert a == a[..n] + [a[n]] && b == b[..m] + [b[m]];
    }
  }

  // ---------- Parallel edges ----------

  ghost predicate LabelsClean(g: Graph) {
    forall t, k :: 0 <= k < |EdgesOf(g, t)| ==> CleanLabel(EdgesOf(g, t)[k].0)
  }

  /** Out of one type, equal labels lead to the same type. */
  ghost predicate LabelsResolve(g: Graph) {
    forall t, j, k :: 0 <= j < k < |EdgesOf(g, t)| && EdgesOf(g, t)[j].0 == EdgesOf(g, t)[k].0 ==>
      EdgesOf(g, t)[j].1 == EdgesOf(g, t)[k].1
  }

  /** The walk w can go on through edge j, and edge k is the same once more. */
  ghost predicate ParallelAt(g: Graph, tid: TypeId, processed: set<TypeId>, w: seq<nat>, j: nat, k: nat) {
    && SimpleWalk(g, tid, processed, w) && SimpleWalk(g, tid, processed, w + [j])
    && j != k && j < |EdgesOf(g, Target(g, tid, w))| && k < |EdgesOf(g, Target(g, tid, w))|
    && EdgesOf(g, Target(g, tid, w))[j] == EdgesOf(g, Target(g, tid, w))[k]
  }

  ghost predicate Parallel(g: Graph, tid: TypeId) {
    exists w, j, k :: ParallelAt(g, tid, {}, w, j, k)
  }

  lemma {:induction false} WalkAppend(g: Graph, tid: TypeId, w: seq<nat>, k: nat)
    requires IsWalk(g, tid, w) && k < |EdgesOf(g, Target(g, tid, w))|
    ensures var e := EdgesOf(g, Target(g, tid, w))[k];
            && IsWalk(g, tid, w + [k]) && Target(g, tid, w + [k]) == e.1
            && Labels(g, tid, w + [k]) == Labels(g, tid, w) + [e.0]
            && Visited(g, tid, w + [k]) == Visited(g, tid, w) + [e.1]
    decreases |w|
  {
    hide EdgesOf;
    if w != [] {
      WalkAppend(g, EdgesOf(g, tid)[w[0]].1, w[1..], k);
      assert (w + [k])[1..] == w[1..] + [k];
    } else {
      assert [] + [k] == [k] && [k][1..] == [];
    }
  }

  /** Parallel edges that some walk can take are recorded twice, whatever the names. */
  lemma ParallelRepeats(g: Graph, root: TypeId, w: seq<nat>, j: nat, k: nat)
    requires ParallelAt(g, root, {}, w, j, k)
    ensures !Distinct(GatheredFrom(g, root))
  {
    hide Walks, EdgesOf, Distinct, JoinPath;
    var walks := Walks(g, root, {});
    WalkAppend(g, root, w, j);
    WalkAppend(g, root, w, k);
    WalksExact(g, root, {}, w + [j]);
    WalksExact(g, root, {}, w + [k]);
    var a :| 0 <= a < |walks| && walks[a] == w + [j];
    var b :| 0 <= b < |walks| && walks[b] == w + [k];
    assert walks[a][|w|] == j && walks[b][|w|] == k;
    assert GatheredFrom(g, root)[a] == GatheredFrom(g, root)[b];
    TwiceMeansNotDistinct(GatheredFrom(g, root), a, b);
  }

  lemma TwiceMeansNotDistinct<T>(s: seq<T>, a: nat, b: nat)
    requires a < |s| && b < |s| && a != b && s[a] == s[b]
    ensures !Distinct(s)
  {
    if a < b { assert s[a] == s[b]; } else { assert s[b] == s[a]; }
  }

  // ---------- No other repetitions ----------

  lemma {:induction false} LabelsCount(g: Graph, tid: TypeId, w: seq<nat>)
    requires IsWalk(g, tid, w)
    ensures |Labels(g, tid, w)| == |w|
    ensures LabelsClean(g) ==> AllClean(Labels(g, tid, w))
    decreases |w|
  {
    hide EdgesOf, CleanLabel;
    if w != [] { LabelsCount(g, EdgesOf(g, tid)[w[0]].1, w[1..]); }
  }

  lemma StepIsSimple(g: Graph, tid: TypeId, processed: set<TypeId>, w: seq<nat>)
    requires SimpleWalk(g, tid, processed, w) && w != []
    ensures SimpleWalk(g, tid, processed, []) && SimpleWalk(g, tid, processed, [w[0]])
  {
    hide EdgesOf;
    var next := EdgesOf(g, tid)[w[0]].1;
    SimpleWalkStep(g, tid, processed, w);
    assert Visited(g, next, w[1..])[0] == next;
    assert Visited(g, next, []) == [next] && Visited(g, tid, []) == [tid];
    assert [w[0]][1..] == [];
    SimpleWalkStep(g, tid, processed, [w[0]]);
  }

  lemma ParallelBehind(g: Graph, tid: TypeId, processed: set<TypeId>, x: nat, u: seq<nat>, j: nat, k: nat)
    requires x < |EdgesOf(g, tid)| && tid !in processed
    requires ParallelAt(g, EdgesOf(g, tid)[x].1, processed + {tid}, u, j, k)
    ensures ParallelAt(g, tid, processed, [x] + u, j, k)
  {
    hide EdgesOf, Visited, Distinct;
    assert ([x] + u)[1..] == u && ([x] + u + [j])[1..] == u + [j];
    SimpleWalkStep(g, tid, processed, [x] + u);
    SimpleWalkStep(g, tid, processed, [x] + u + [j]);
  }

  /** Two walks with the same labels part at parallel edges. */
  lemma {:induction false} SameLabelsPart(g: Graph, tid: TypeId, processed: set<TypeId>, v: seq<nat>, w: seq<nat>)
    returns (u: seq<nat>, j: nat, k: nat)
    requires LabelsResolve(g)
    requires SimpleWalk(g, tid, processed, v) && SimpleWalk(g, tid, processed, w) && v != w
    requires Labels(g, tid, v) == Labels(g, tid, w)
    ensures ParallelAt(g, tid, processed, u, j, k)
    decreases |v|
  {
    hide EdgesOf, Visited, Distinct;
    LabelsCount(g, tid, v);
    LabelsCount(g, tid, w);
    SimpleWalkStep(g, tid, processed, v);
    SimpleWalkStep(g, tid, processed, w);
    var e, f := EdgesOf(g, tid)[v[0]], EdgesOf(g, tid)[w[0]];
    assert Labels(g, tid, v)[0] == e.0 && Labels(g, tid, w)[0] == f.0;
    if v[0] == w[0] {
      assert Labels(g, tid, v)[1..] == Labels(g, e.1, v[1..]) && Labels(g, tid, w)[1..] == Labels(g, e.1, w[1..]);
      assert v == [v[0]] + v[1..] && w == [w[0]] + w[1..];
      u, j, k := SameLabelsPart(g, e.1, processed + {tid}, v[1..], w[1..]);
      ParallelBehind(g, tid, processed, v[0], u, j, k);
      u := [v[0]] + u;
    } else {
      u, j, k := [], v[0], w[0];
      StepIsSimple(g, tid, processed, v);
      assert [] + [j] == [j];
    }
  }

  lemma RepeatMeansParallel(g: Graph, root: TypeId, a: nat, b: nat)
    requires LabelsClean(g) && LabelsResolve(g)
    requires a < b < |GatheredFrom(g, root)| && GatheredFrom(g, root)[a] == GatheredFrom(g, root)[b]
    ensures Parallel(g, root)
  {
    hide Walks, EdgesOf, LabelsClean, LabelsResolve, JoinPath, ParallelAt;
    GatheredFromScratch(g, root);
    var walks := Walks(g, root, {});
    var v, w := walks[a], walks[b];
    assert v in walks && w in walks;
    WalksExact(g, root, {}, v);
    WalksExact(g, root, {}, w);
    LabelsCount(g, root, v);
    LabelsCount(g, root, w);
    JoinPathInjective(Labels(g, root, v), Labels(g, root, w));
    var u, j, k := SameLabelsPart(g, root, {}, v, w);
  }

  /**
   * With names that can be told apart, gathering is free of repetitions exactly when no walk from the
   * root comes to a type with two equal edges to a type that it has not visited yet.
   */
  lemma NoRepetitionsIff(g: Graph, root: TypeId)
    requires LabelsClean(g) && LabelsResolve(g)
    ensures Distinct(GatheredFrom(g, root)) <==> !Parallel(g, root)
  {
    hide Walks, EdgesOf, LabelsClean, LabelsResolve, ParallelAt, GatheredFrom;
    if Parallel(g, root) {
      var w, j, k :| ParallelAt(g, root, {}, w, j, k);
      ParallelRepeats(g, root, w, j, k);
    } else {
      forall a, b | 0 <= a < b < |GatheredFrom(g, root)|
        ensures GatheredFrom(g, root)[a] != GatheredFrom(g, root)[b]
      {
        if GatheredFrom(g, root)[a] == GatheredFrom(g, root)[b] { RepeatMeansParallel(g, root, a, b); }
      }
    }
  }

  /** Where no type has two equal edges, nothing repeats, whatever the root. */
  lemma DistinctEdgesNoRepetitions(g: Graph, root: TypeId)
    requires LabelsClean(g) && LabelsResolve(g)
    requires forall t :: Distinct(EdgesOf(g, t))
    ensures Distinct(GatheredFrom(g, root))
  {
    hide EdgesOf, LabelsClean, LabelsResolve, GatheredFrom, SimpleWalk;
    NoRepetitionsIff(g, root);
  }

  // ---------- Registries with names that can be told apart ----------

  /**
   * Names have no slashes, attributes do not look like types, the attributes of a type have different
   * names, and so have the types.
   */
  ghost predicate WellNamed(g: Graph) {
    && (forall t :: t in g.reg.attributes ==> AttributesNamed(g.reg.attributes[t]))
    && (forall t :: t in Universe(g) ==> '/' !in Name(g.reg, t))
    && (forall s, t :: s in Universe(g) && t in Universe(g) && Name(g.reg, s) == Name(g.reg, t) ==> s == t)
  }

  predicate AttributesNamed(attributes: seq<Attribute>) {
    && (forall i :: 0 <= i < |attributes| ==> AttributeNamed(attributes[i]))
    && (forall i, j :: 0 <= i < j < |attributes| ==> attributes[i].name != attributes[j].name)
  }

  predicate AttributeNamed(a: Attribute) {
    IsName(a.name) && (a.name == "" || a.name[0] != '$')
  }

  ghost predicate FromAttribute(g: Graph, t: TypeId, e: (string, TypeId), a: Attribute) {
    a in Attributes(g.reg, t) && AttributeEdge(g.reg, a) == [e]
  }

  ghost predicate FromType(g: Graph, e: (string, TypeId)) {
    e.1 in Universe(g) && e.0 == "$" + Name(g.reg, e.1)
  }

  lemma {:induction false} AttributeOrigin(reg: Registry, attributes: seq<Attribute>, e: (string, TypeId))
    requires e in AttributeEdges(reg, attributes)
    ensures exists a :: a in attributes && AttributeEdge(reg, a) == [e]
  {
    var front, last := attributes[..|attributes| - 1], attributes[|attributes| - 1];
    if e in AttributeEdges(reg, front) {
      AttributeOrigin(reg, front, e);
    } else {
      assert last in attributes && AttributeEdge(reg, last) == [e];
    }
  }

  lemma {:induction false} ChildOrigin(reg: Registry, tid: TypeId, types: seq<TypeId>, e: (string, TypeId))
    requires e in ChildEdges(reg, tid, types)
    ensures e.0 == "$" + Name(reg, e.1)
  {
    if e in ChildEdges(reg, tid, types[..|types| - 1]) { ChildOrigin(reg, tid, types[..|types| - 1], e); }
  }

  lemma {:induction false} AggregateOrigin(reg: Registry, tid: TypeId, pairs: seq<(TypeId, TypeId)>,
                                           e: (string, TypeId))
    requires e in AggregateEdges(reg, tid, pairs)
    ensures e.0 == "$" + Name(reg, e.1)
  {
    if e in AggregateEdges(reg, tid, pairs[..|pairs| - 1]) { AggregateOrigin(reg, tid, pairs[..|pairs| - 1], e); }
  }

  lemma EdgeOrigin(g: Graph, t: TypeId, k: nat)
    requires k < |EdgesOf(g, t)|
    ensures var e := EdgesOf(g, t)[k]; FromType(g, e) || exists a :: FromAttribute(g, t, e, a)
  {
    hide AttributeEdges, ChildEdges, AggregateEdges, Universe;
    var e := EdgesOf(g, t)[k];
    TargetsInUniverse(g, t, k);
    if e in AttributeEdges(g.reg, Attributes(g.reg, t)) {
      AttributeOrigin(g.reg, Attributes(g.reg, t), e);
      var a :| a in Attributes(g.reg, t) && AttributeEdge(g.reg, a) == [e];
      assert FromAttribute(g, t, e, a);
    } else if e in ChildEdges(g.reg, t, g.reg.registered) {
      ChildOrigin(g.reg, t, g.reg.registered, e);
    } else {
      AggregateOrigin(g.reg, t, g.aggregates, e);
    }
  }

  lemma AttributeLabelClean(g: Graph, t: TypeId, e: (string, TypeId), a: Attribute)
    requires WellNamed(g) && FromAttribute(g, t, e, a)
    ensures AttributeNamed(a) && AttributesNamed(Attributes(g.reg, t))
    ensures CleanLabel(e.0) && (e.0 == "" || e.0[0] != '$')
    ensures e.0 == if a.Pointer? then a.name else a.name + "/" + "[i]"
    ensures a.Pointer? <==> '/' !in e.0
  {
    assert a.Container? ==> a.name + "/[i]" == a.name + "/" + "[i]" && e.0[|a.name|] == '/';
  }

  lemma TypeLabelClean(g: Graph, e: (string, TypeId))
    requires WellNamed(g) && FromType(g, e)
    ensures CleanLabel(e.0) && e.0 != "" && e.0[0] == '$' && e.0[1..] == Name(g.reg, e.1)
  {
    assert e.0[0] == '$' && "[i]"[0] == '[';
  }

  lemma SameAttribute(g: Graph, t: TypeId, e: (string, TypeId), f: (string, TypeId), a: Attribute, b: Attribute)
    requires WellNamed(g) && FromAttribute(g, t, e, a) && FromAttribute(g, t, f, b) && e.0 == f.0
    ensures e == f
  {
    hide WellNamed, CleanLabel, Universe;
    AttributeLabelClean(g, t, e, a);
    AttributeLabelClean(g, t, f, b);
    if !a.Pointer? {
      LastSlash(a.name, "[i]", b.name, "[i]");
    }
  }

  /** Such names give labels that split and resolve uniquely. */
  lemma WellNamedLabels(g: Graph)
    requires WellNamed(g)
    ensures LabelsClean(g) && LabelsResolve(g)
  {
    hide WellNamed, FromAttribute, FromType, EdgesOf, CleanLabel;
    forall t, k | 0 <= k < |EdgesOf(g, t)|
      ensures CleanLabel(EdgesOf(g, t)[k].0)
    {
      EdgeOrigin(g, t, k);
      var e := EdgesOf(g, t)[k];
      if FromType(g, e) {
        TypeLabelClean(g, e);
      } else {
        var a :| FromAttribute(g, t, e, a);
        AttributeLabelClean(g, t, e, a);
      }
    }
    forall t, j, k | 0 <= j < k < |EdgesOf(g, t)| && EdgesOf(g, t)[j].0 == EdgesOf(g, t)[k].0
      ensures EdgesOf(g, t)[j].1 == EdgesOf(g, t)[k].1
    {
      EdgeOrigin(g, t, j);
      EdgeOrigin(g, t, k);
      SameLabelSameTarget(g, t, EdgesOf(g, t)[j], EdgesOf(g, t)[k]);
    }
  }

  lemma SameLabelSameTarget(g: Graph, t: TypeId, e: (string, TypeId), f: (string, TypeId))
    requires WellNamed(g) && e.0 == f.0
    requires FromType(g, e) || exists a :: FromAttribute(g, t, e, a)
    requires FromType(g, f) || exists a :: FromAttribute(g, t, f, a)
    ensures e.1 == f.1
  {
    hide FromAttribute, AttributesNamed, Universe;
    if FromType(g, e) && FromType(g, f) {
      TypeLabelClean(g, e);
      TypeLabelClean(g, f);
    } else if FromType(g, e) {
      var b :| FromAttribute(g, t, f, b);
      TypeLabelClean(g, e);
      AttributeLabelClean(g, t, f, b);
    } else if FromType(g, f) {
      var a :| FromAttribute(g, t, e, a);
      TypeLabelClean(g, f);
      AttributeLabelClean(g, t, e, a);
    } else {
      var a :| FromAttribute(g, t, e, a);
      var b :| FromAttribute(g, t, f, b);
      SameAttribute(g, t, e, f, a, b);
    }
  }

  /** With good names, parallel edges are the only way to gather anything twice. */
  lemma WellNamedNoRepetitionsIff(g: Graph, root: TypeId)
    requires WellNamed(g)
    ensures Distinct(GatheredFrom(g, root)) <==> !Parallel(g, root)
  {
    hide *;
    WellNamedLabels(g);
    NoRepetitionsIff(g, root);
  }

  // ---------- Which edges a type has ----------

  /**
   * What source item i of a type gives: the attributes, then the registered types, then the aggregations,
   * each in its order.
   */
  ghost predicate Gives(g: Graph, t: TypeId, i: nat, text: string, next: TypeId) {
    var attributes, types, pairs := Attributes(g.reg, t), g.reg.registered, g.aggregates;
    if i < |attributes| then
      || (attributes[i] == Pointer(text, next) && next != g.reg.objectTypeId)
      || (attributes[i].Container? && attributes[i].item == next && text == attributes[i].name + "/[i]")
    else if i < |attributes| + |types| then
      types[i - |attributes|] == next && (next, t) in g.reg.childOf && text == "$" + Name(g.reg, next)
    else
      && i < |attributes| + |types| + |pairs|
      && pairs[i - |attributes| - |types|] in [(t, next), (next, t)]
      && text == "$" + Name(g.reg, next)
  }

  ghost function ItemCount(g: Graph, t: TypeId): nat {
    |Attributes(g.reg, t)| + |g.reg.registered| + |g.aggregates|
  }

  ghost function ItemEdge(g: Graph, t: TypeId, i: nat): Edges
    requires i < ItemCount(g, t)
  {
    var attributes, types := Attributes(g.reg, t), g.reg.registered;
    if i < |attributes| then AttributeEdge(g.reg, attributes[i])
    else if i < |attributes| + |types| then ChildEdge(g.reg, t, types[i - |attributes|])
    else AggregateEdge(g.reg, t, g.aggregates[i - |attributes| - |types|])
  }

  /** An item gives one edge or none. */
  lemma ItemEdgeExact(g: Graph, t: TypeId, i: nat, e: (string, TypeId))
    requires i < ItemCount(g, t)
    ensures ItemEdge(g, t, i) == [e] <==> Gives(g, t, i, e.0, e.1)
    ensures |ItemEdge(g, t, i)| <= 1
  {
  }

  ghost function FirstEdges(g: Graph, t: TypeId, n: nat): Edges
    requires n <= ItemCount(g, t)
  {
    if n == 0 then [] else FirstEdges(g, t, n - 1) + ItemEdge(g, t, n - 1)
  }

  lemma FirstEdgesStep(g: Graph, t: TypeId, n: nat)
    requires n <= ItemCount(g, t)
    ensures FirstEdges(g, t, n) == if n == 0 then [] else FirstEdges(g, t, n - 1) + ItemEdge(g, t, n - 1)
  {
  }

  lemma AttributesStep(reg: Registry, s: seq<Attribute>, n: nat)
    requires 0 < n <= |s|
    ensures AttributeEdges(reg, s[..n]) == AttributeEdges(reg, s[..n - 1]) + AttributeEdge(reg, s[n - 1])
  {
    assert s[..n][..n - 1] == s[..n - 1];
  }

  lemma ChildrenStep(reg: Registry, t: TypeId, s: seq<TypeId>, n: nat)
    requires 0 < n <= |s|
    ensures ChildEdges(reg, t, s[..n]) == ChildEdges(reg, t, s[..n - 1]) + ChildEdge(reg, t, s[n - 1])
  {
    assert s[..n][..n - 1] == s[..n - 1];
  }

  lemma AggregatesStep(reg: Registry, t: TypeId, s: seq<(TypeId, TypeId)>, n: nat)
    requires 0 < n <= |s|
    ensures AggregateEdges(reg, t, s[..n]) == AggregateEdges(reg, t, s[..n - 1]) + AggregateEdge(reg, t, s[n - 1])
  {
    assert s[..n][..n - 1] == s[..n - 1];
  }

  lemma NoEdgeLists(g: Graph, t: TypeId)
    ensures AttributeEdges(g.reg, []) == [] && ChildEdges(g.reg, t, []) == [] && AggregateEdges(g.reg, t, []) == []
  {
  }

  lemma {:induction false} AttributesFirst(g: Graph, t: TypeId, n: nat)
    requires n <= |Attributes(g.reg, t)|
    ensures FirstEdges(g, t, n) == AttributeEdges(g.reg, Attributes(g.reg, t)[..n])
  {
    hide AttributeEdges, FirstEdges, AttributeEdge, Attributes;
    FirstEdgesStep(g, t, n);
    NoEdgeLists(g, t);
    if n > 0 {
      AttributesFirst(g, t, n - 1);
      AttributesStep(g.reg, Attributes(g.reg, t), n);
    } else {
      assert Attributes(g.reg, t)[..0] == [];
    }
  }

  lemma {:induction false} ChildrenNext(g: Graph, t: TypeId, n: nat)
    requires n <= |g.reg.registered|
    ensures FirstEdges(g, t, |Attributes(g.reg, t)| + n) ==
            AttributeEdges(g.reg, Attributes(g.reg, t)) + ChildEdges(g.reg, t, g.reg.registered[..n])
  {
    hide AttributeEdges, ChildEdges, FirstEdges, ChildEdge, Attributes;
    var attributes, types := Attributes(g.reg, t), g.reg.registered;
    FirstEdgesStep(g, t, |attributes| + n);
    NoEdgeLists(g, t);
    if n > 0 {
      ChildrenNext(g, t, n - 1);
      ChildrenStep(g.reg, t, types, n);
    } else {
      AttributesFirst(g, t, |attributes|);
      assert attributes[..|attributes|] == attributes && types[..0] == [];
    }
  }

  lemma {:induction false} AggregatesLast(g: Graph, t: TypeId, n: nat)
    requires n <= |g.aggregates|
    ensures FirstEdges(g, t, |Attributes(g.reg, t)| + |g.reg.registered| + n) ==
            AttributeEdges(g.reg, Attributes(g.reg, t)) + ChildEdges(g.reg, t, g.reg.registered) +
            AggregateEdges(g.reg, t, g.aggregates[..n])
  {
    hide AttributeEdges, ChildEdges, AggregateEdges, FirstEdges, AggregateEdge, Attributes;
    var types, pairs := g.reg.registered, g.aggregates;
    FirstEdgesStep(g, t, |Attributes(g.reg, t)| + |types| + n);
    NoEdgeLists(g, t);
    if n > 0 {
      AggregatesLast(g, t, n - 1);
      AggregatesStep(g.reg, t, pairs, n);
    } else {
      ChildrenNext(g, t, |types|);
      assert types[..|types|] == types && pairs[..0] == [];
    }
  }

  /** Edge k comes from item from[k], in order. */
  ghost predicate EdgesGiven(g: Graph, t: TypeId, edges: Edges, from: seq<nat>, n: nat) {
    && |from| == |edges|
    && (forall j, k :: 0 <= j < k < |from| ==> from[j] < from[k])
    && (forall k :: 0 <= k < |from| ==> from[k] < n && Gives(g, t, from[k], edges[k].0, edges[k].1))
  }

  /** No item that gives an edge is left out. */
  ghost predicate GiversCovered(g: Graph, t: TypeId, from: seq<nat>, n: nat) {
    forall i: nat, text, next :: i < n && Gives(g, t, i, text, next) ==> i in from
  }

  lemma NothingGiven(g: Graph, t: TypeId)
    ensures EdgesGiven(g, t, [], [], 0) && GiversCovered(g, t, [], 0)
  {
  }

  lemma GivenStep(g: Graph, t: TypeId, edges: Edges, from: seq<nat>, n: nat)
    requires n < ItemCount(g, t) && EdgesGiven(g, t, edges, from, n)
    ensures var more := ItemEdge(g, t, n);
            EdgesGiven(g, t, edges + more, if more == [] then from else from + [n], n + 1)
  {
    hide Gives, ItemEdge, Attributes;
    var more := ItemEdge(g, t, n);
    ItemEdgeExact(g, t, n, ("", 0));
    if more != [] {
      assert more == [more[0]];
      ItemEdgeExact(g, t, n, more[0]);
    } else {
      assert edges + more == edges;
    }
  }

  lemma CoveredStep(g: Graph, t: TypeId, from: seq<nat>, n: nat)
    requires n < ItemCount(g, t) && GiversCovered(g, t, from, n)
    ensures GiversCovered(g, t, if ItemEdge(g, t, n) == [] then from else from + [n], n + 1)
  {
    hide Gives, ItemEdge, Attributes;
    var now := if ItemEdge(g, t, n) == [] then from else from + [n];
    forall i: nat, text, next | i < n + 1 && Gives(g, t, i, text, next)
      ensures i in now
    {
      if i == n {
        ItemEdgeExact(g, t, i, (text, next));
        assert now[|from|] == n;
      } else {
        assert i in from;
      }
    }
  }

  lemma {:induction false} FirstEdgesFrom(g: Graph, t: TypeId, n: nat) returns (from: seq<nat>)
    requires n <= ItemCount(g, t)
    ensures EdgesGiven(g, t, FirstEdges(g, t, n), from, n) && GiversCovered(g, t, from, n)
  {
    hide *;
    FirstEdgesStep(g, t, n);
    if n == 0 {
      from := [];
      NothingGiven(g, t);
    } else {
      from := FirstEdgesFrom(g, t, n - 1);
      GivenStep(g, t, FirstEdges(g, t, n - 1), from, n - 1);
      CoveredStep(g, t, from, n - 1);
      from := if ItemEdge(g, t, n - 1) == [] then from else from + [n - 1];
    }
  }

  /**
   * The edges out of a type are exactly what its attributes, its registered children and its
   * aggregations give, once for each, in that order.
   */
  lemma EdgesExactly(g: Graph, t: TypeId) returns (from: seq<nat>)
    ensures EdgesGiven(g, t, EdgesOf(g, t), from, ItemCount(g, t)) && GiversCovered(g, t, from, ItemCount(g, t))
  {
    hide EdgesGiven, GiversCovered, FirstEdges, AttributeEdges, ChildEdges, AggregateEdges;
    AggregatesLast(g, t, |g.aggregates|);
    assert g.aggregates[..|g.aggregates|] == g.aggregates;
    from := FirstEdgesFrom(g, t, ItemCount(g, t));
  }

  /** A path is its labels one after the other, each behind a slash. */
  lemma {:induction false} JoinPathText(a: seq<string>, b: seq<string>, text: string)
    ensures JoinPath([]) == "" && JoinPath([text]) == "/" + text
    ensures JoinPath(a + b) == JoinPath(a) + JoinPath(b)
    decreases |b|
  {
    assert [text][..0] == [] && JoinPath([text]) == "" + "/" + text;
    if b == [] {
      assert a + b == a;
    } else {
      var front := b[..|b| - 1];
      JoinPathText(a, front, text);
      assert (a + b)[..|a + b| - 1] == a + front;
    }
  }

  // ---------- An example ----------

  /** Two types, and the same aggregation recorded twice. */
  function TwiceAggregated(): Graph {
    Graph(Registry(0, map[], [1, 2], {}, map[1 := "A", 2 := "B"]), [(1, 2), (1, 2)])
  }

  lemma TwiceAggregatedNames()
    ensures WellNamed(TwiceAggregated())
  {
    hide EdgesOf, AttributeEdges, ChildEdges, AggregateEdges;
    var g := TwiceAggregated();
    assert ToSet([1, 2]) == {1, 2};
    assert (set p | p in g.aggregates :: p.0) == {1} && (set p | p in g.aggregates :: p.1) == {2};
    assert Universe(g) == {1, 2};
    assert Name(g.reg, 1) == "A" && Name(g.reg, 2) == "B" && "A" != "B";
  }

  lemma TwoAggregateEdges(reg: Registry, tid: TypeId, p: (TypeId, TypeId), q: (TypeId, TypeId))
    ensures AggregateEdges(reg, tid, [p, q]) == AggregateEdge(reg, tid, p) + AggregateEdge(reg, tid, q)
  {
    assert [p, q][..1] == [p] && [p][..0] == [];
    assert AggregateEdges(reg, tid, []) == [];
    assert AggregateEdges(reg, tid, [p]) == [] + AggregateEdge(reg, tid, p);
  }

  lemma {:induction false} NoChildEdges(reg: Registry, tid: TypeId, types: seq<TypeId>)
    requires reg.childOf == {}
    ensures ChildEdges(reg, tid, types) == []
  {
    if types != [] { NoChildEdges(reg, tid, types[..|types| - 1]); }
  }

  lemma TwiceAggregatedEdges()
    ensures EdgesOf(TwiceAggregated(), 1) == [("$B", 2), ("$B", 2)]
  {
    hide AggregateEdges, ChildEdges;
    var g := TwiceAggregated();
    TwoAggregateEdges(g.reg, 1, (1, 2), (1, 2));
    NoChildEdges(g.reg, 1, g.reg.registered);
    assert "$" + Name(g.reg, 2) == "$B";
    assert AggregateEdge(g.reg, 1, (1, 2)) == [("$B", 2)];
    assert [("$B", 2)] + [("$B", 2)] == [("$B", 2), ("$B", 2)];
  }

  lemma ParallelAtStart(g: Graph, root: TypeId, j: nat, k: nat)
    requires j != k && j < |EdgesOf(g, root)| && k < |EdgesOf(g, root)|
    requires EdgesOf(g, root)[j] == EdgesOf(g, root)[k] && EdgesOf(g, root)[j].1 != root
    ensures ParallelAt(g, root, {}, [], j, k)
  {
    hide EdgesOf;
    SimpleWalkStep(g, root, {}, [j]);
    assert [j][1..] == [] && [] + [j] == [j];
    assert Visited(g, root, []) == [root] && Visited(g, EdgesOf(g, root)[j].1, []) == [EdgesOf(g, root)[j].1];
  }

  /** An aggregation recorded twice is gathered twice, with perfectly good names. */
  lemma RepetitionExample()
    ensures WellNamed(TwiceAggregated()) && !Distinct(GatheredFrom(TwiceAggregated(), 1))
  {
    hide *;
    TwiceAggregatedNames();
    TwiceAggregatedEdges();
    ParallelAtStart(TwiceAggregated(), 1, 0, 1);
    ParallelRepeats(TwiceAggregated(), 1, [], 0, 1);
  }

  /** B is a child of A. */
  function ParentAndChild(): Graph {
    Graph(Registry(0, map[], [1, 2], {(2, 1)}, map[1 := "A", 2 := "B"]), [])
  }

  lemma TwoChildEdges(reg: Registry, tid: TypeId, a: TypeId, b: TypeId)
    ensures ChildEdges(reg, tid, [a, b]) == ChildEdge(reg, tid, a) + ChildEdge(reg, tid, b)
  {
    assert [a, b][..1] == [a] && [a][..0] == [];
    assert ChildEdges(reg, tid, []) == [];
    assert ChildEdges(reg, tid, [a]) == [] + ChildEdge(reg, tid, a);
  }

  lemma ParentAndChildEdges()
    ensures EdgesOf(ParentAndChild(), 1) == [("$B", 2)] && EdgesOf(ParentAndChild(), 2) == []
  {
    hide ChildEdges;
    var g := ParentAndChild();
    TwoChildEdges(g.reg, 1, 1, 2);
    TwoChildEdges(g.reg, 2, 1, 2);
    NoEdgeLists(g, 1);
    assert "$" + Name(g.reg, 2) == "$B";
  }

  lemma WalksOfLeaf(g: Graph, tid: TypeId, processed: set<TypeId>)
    requires EdgesOf(g, tid) == [] && tid !in processed
    ensures Walks(g, tid, processed) == [[]]
  {
    hide EdgesOf;
    WalksThroughUnfold(g, tid, processed, 0);
  }

  lemma WalksOfOneEdge(g: Graph, tid: TypeId, next: TypeId)
    requires |EdgesOf(g, tid)| == 1 && EdgesOf(g, tid)[0].1 == next && EdgesOf(g, next) == [] && next != tid
    ensures Walks(g, tid, {}) == [[], [0]]
  {
    hide EdgesOf;
    WalksOfLeaf(g, next, {} + {tid});
    WalksThroughUnfold(g, tid, {}, 0);
    WalksThroughUnfold(g, tid, {}, 1);
    assert Through(0, [[]]) == [[0] + []] && [0] + [] == [0];
  }

  lemma RecordAtStart(g: Graph, tid: TypeId)
    ensures RecordOf(g, tid, [], []) == (tid, "")
  {
    assert [] + Labels(g, tid, []) == [];
  }

  lemma RecordOneStep(g: Graph, tid: TypeId, k: nat)
    requires k < |EdgesOf(g, tid)|
    ensures RecordOf(g, tid, [], [k]) == (EdgesOf(g, tid)[k].1, "/" + EdgesOf(g, tid)[k].0)
  {
    hide EdgesOf, JoinPath;
    var e := EdgesOf(g, tid)[k];
    RecordThrough(g, tid, [], k, []);
    assert [k] + [] == [k] && [] + [e.0] == [e.0];
    assert [e.0] + Labels(g, e.1, []) == [e.0];
    JoinPathText([], [], e.0);
  }

  /** Gathering from A finds B below it; gathering from B finds B alone. */
  lemma ChildExample()
    ensures GatheredFrom(ParentAndChild(), 1) == [(1, ""), (2, "/$B")]
    ensures GatheredFrom(ParentAndChild(), 2) == [(2, "")]
  {
    hide EdgesOf, Walks, RecordOf, ParentAndChild;
    var g := ParentAndChild();
    ParentAndChildEdges();
    WalksOfOneEdge(g, 1, 2);
    WalksOfLeaf(g, 2, {});
    RecordAtStart(g, 1);
    RecordAtStart(g, 2);
    RecordOneStep(g, 1, 0);
    assert "/" + "$B" == "/$B";
  }
}
