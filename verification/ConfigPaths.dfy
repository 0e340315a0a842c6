/**
 * Configuration paths: the recursive gathering of all simple labelled walks through the
 * graph of types, over the shared stacks of StaticInformation.
 */
module ConfigPaths {
  import opened Sequences

  type TypeId = nat

  /** The kinds of attributes that DoGather tells apart. */
  datatype Attribute =
    | Pointer(name: string, pointee: TypeId)
    | Container(name: string, item: TypeId)
    | Plain(name: string)

  datatype Registry = Registry(
    objectTypeId: TypeId,
    attributes: map<TypeId, seq<Attribute>>,
    registered: seq<TypeId>,
    childOf: set<(TypeId, TypeId)>,
    names: map<TypeId, string>)

  /** Everything DoGather consults: the registry and the recorded aggregations. */
  datatype Graph = Graph(reg: Registry, aggregates: seq<(TypeId, TypeId)>)

  function Attributes(reg: Registry, tid: TypeId): seq<Attribute> {
    if tid in reg.attributes then reg.attributes[tid] else []
  }

  function Name(reg: Registry, tid: TypeId): string {
    if tid in reg.names then reg.names[tid] else ""
  }

  function JoinPath(labels: seq<string>): string {
    if labels == [] then "" else JoinPath(labels[..|labels| - 1]) + "/" + labels[|labels| - 1]
  }

  // ---------- The ordered, labelled edges out of a type ----------

  type Edges = seq<(string, TypeId)>

  ghost function AttributeEdge(reg: Registry, a: Attribute): Edges {
    match a
    case Pointer(name, pointee) => if pointee == reg.objectTypeId then [] else [(name, pointee)]
    case Container(name, item) => [(name + "/[i]", item)]
    case Plain(_) => []
  }

  ghost function AttributeEdges(reg: Registry, attributes: seq<Attribute>): Edges {
    if attributes == [] then [] else
      AttributeEdges(reg, attributes[..|attributes| - 1]) + AttributeEdge(reg, attributes[|attributes| - 1])
  }

  ghost function ChildEdge(reg: Registry, tid: TypeId, child: TypeId): Edges {
    if (child, tid) in reg.childOf then [("$" + Name(reg, child), child)] else []
  }

  ghost function ChildEdges(reg: Registry, tid: TypeId, types: seq<TypeId>): Edges {
    if types == [] then [] else
      ChildEdges(reg, tid, types[..|types| - 1]) + ChildEdge(reg, tid, types[|types| - 1])
  }

  /** An aggregation links its two types in both directions. */
  ghost function AggregateEdge(reg: Registry, tid: TypeId, pair: (TypeId, TypeId)): Edges {
    if pair.1 == tid then [("$" + Name(reg, pair.0), pair.0)]
    else if pair.0 == tid then [("$" + Name(reg, pair.1), pair.1)]
    else []
  }

  ghost function AggregateEdges(reg: Registry, tid: TypeId, pairs: seq<(TypeId, TypeId)>): Edges {
    if pairs == [] then [] else
      AggregateEdges(reg, tid, pairs[..|pairs| - 1]) + AggregateEdge(reg, tid, pairs[|pairs| - 1])
  }

  ghost function EdgesOf(g: Graph, tid: TypeId): Edges {
    AttributeEdges(g.reg, Attributes(g.reg, tid)) +
    ChildEdges(g.reg, tid, g.reg.registered) +
    AggregateEdges(g.reg, tid, g.aggregates)
  }

  // ---------- A finite universe of types ----------

  ghost function AttributeTarget(a: Attribute): TypeId {
    match a
    case Pointer(_, pointee) => pointee
    case Container(_, item) => item
    case Plain(_) => 0
  }

  ghost function Universe(g: Graph): set<TypeId> {
    (set t, a | t in g.reg.attributes && a in g.reg.attributes[t] :: AttributeTarget(a)) +
    ToSet(g.reg.registered) +
    (set p | p in g.aggregates :: p.0) + (set p | p in g.aggregates :: p.1)
  }

  lemma {:induction false} AttributeTargets(reg: Registry, attributes: seq<Attribute>, e: (string, TypeId))
    requires e in AttributeEdges(reg, attributes)
    ensures exists a :: a in attributes && AttributeTarget(a) == e.1
  {
    var front, last := attributes[..|attributes| - 1], attributes[|attributes| - 1];
    if e in AttributeEdges(reg, front) {
      AttributeTargets(reg, front, e);
    } else {
      assert AttributeTarget(last) == e.1;
    }
  }

  lemma {:induction false} ChildTargets(reg: Registry, tid: TypeId, types: seq<TypeId>, e: (string, TypeId))
    requires e in ChildEdges(reg, tid, types)
    ensures e.1 in types
  {
    var front := types[..|types| - 1];
    if e in ChildEdges(reg, tid, front) {
      ChildTargets(reg, tid, front, e);
    }
  }

  lemma {:induction false} AggregateTargets(reg: Registry, tid: TypeId, pairs: seq<(TypeId, TypeId)>, e: (string, TypeId))
    requires e in AggregateEdges(reg, tid, pairs)
    ensures exists p :: p in pairs && (p.0 == e.1 || p.1 == e.1)
  {
    var front := pairs[..|pairs| - 1];
    if e in AggregateEdges(reg, tid, front) {
      AggregateTargets(reg, tid, front, e);
    } else {
      assert pairs[|pairs| - 1] in pairs;
    }
  }

  lemma TargetsInUniverse(g: Graph, tid: TypeId, k: nat)
    requires k < |EdgesOf(g, tid)|
    ensures EdgesOf(g, tid)[k].1 in Universe(g)
  {
    var e := EdgesOf(g, tid)[k];
    var attributes := AttributeEdges(g.reg, Attributes(g.reg, tid));
    var children := ChildEdges(g.reg, tid, g.reg.registered);
    if e in attributes {
      AttributeTargets(g.reg, Attributes(g.reg, tid), e);
    } else if e in children {
      ChildTargets(g.reg, tid, g.reg.registered, e);
    } else {
      AggregateTargets(g.reg, tid, g.aggregates, e);
    }
  }

  /** How many types can still be entered. */
  ghost function Unprocessed(g: Graph, tid: TypeId, processed: set<TypeId>): nat {
    |Universe(g) + {tid} - processed|
  }

  lemma UnprocessedShrinks(g: Graph, tid: TypeId, k: nat, processed: set<TypeId>)
    requires tid !in processed && k < |EdgesOf(g, tid)|
    ensures Unprocessed(g, EdgesOf(g, tid)[k].1, processed + {tid}) < Unprocessed(g, tid, processed)
  {
    TargetsInUniverse(g, tid, k);
    var small := Universe(g) + {EdgesOf(g, tid)[k].1} - (processed + {tid});
    var large := Universe(g) + {tid} - processed;
    SubsetCardinality(small, large - {tid});
  }

  // ---------- Walks as sequences of edge choices ----------

  /** Prefix every walk with the choice of edge k. */
  ghost function Through(k: nat, walks: seq<seq<nat>>): seq<seq<nat>> {
    seq(|walks|, i requires 0 <= i < |walks| => [k] + walks[i])
  }

  /** The walks from tid that avoid processed and repeat no type, in the order of the recursion. */
  ghost function Walks(g: Graph, tid: TypeId, processed: set<TypeId>): seq<seq<nat>>
    decreases Unprocessed(g, tid, processed), |EdgesOf(g, tid)| + 1
  {
    if tid in processed then [] else [[]] + WalksThrough(g, tid, processed, |EdgesOf(g, tid)|)
  }

  /** Those that start with one of the first n edges. */
  ghost function WalksThrough(g: Graph, tid: TypeId, processed: set<TypeId>, n: nat): seq<seq<nat>>
    requires tid !in processed && n <= |EdgesOf(g, tid)|
    decreases Unprocessed(g, tid, processed), n
  {
    if n == 0 then [] else
      UnprocessedShrinks(g, tid, n - 1, processed);
      WalksThrough(g, tid, processed, n - 1) +
      Through(n - 1, Walks(g, EdgesOf(g, tid)[n - 1].1, processed + {tid}))
  }

  /** The types that a walk visits, its start included; choices out of range end it. */
  ghost predicate IsWalk(g: Graph, tid: TypeId, w: seq<nat>)
    decreases w
  {
    w == [] || (w[0] < |EdgesOf(g, tid)| && IsWalk(g, EdgesOf(g, tid)[w[0]].1, w[1..]))
  }

  ghost function Visited(g: Graph, tid: TypeId, w: seq<nat>): seq<TypeId>
    requires IsWalk(g, tid, w)
    decreases w
  {
    [tid] + if w == [] then [] else Visited(g, EdgesOf(g, tid)[w[0]].1, w[1..])
  }

  ghost function Labels(g: Graph, tid: TypeId, w: seq<nat>): seq<string>
    requires IsWalk(g, tid, w)
    decreases w
  {
    if w == [] then [] else
      var e := EdgesOf(g, tid)[w[0]];
      [e.0] + Labels(g, e.1, w[1..])
  }

  ghost function Target(g: Graph, tid: TypeId, w: seq<nat>): TypeId
    requires IsWalk(g, tid, w)
    decreases w
  {
    if w == [] then tid else Target(g, EdgesOf(g, tid)[w[0]].1, w[1..])
  }

  /** A walk that enters no type twice and none of processed. */
  ghost predicate SimpleWalk(g: Graph, tid: TypeId, processed: set<TypeId>, w: seq<nat>) {
    IsWalk(g, tid, w) && Distinct(Visited(g, tid, w)) && forall t :: t in Visited(g, tid, w) ==> t !in processed
  }

  /** Preorder: a walk comes before its extensions, and earlier edges come before later ones. */
  ghost predicate Before(v: seq<nat>, w: seq<nat>) {
    w != [] && (v == [] || v[0] < w[0] || (v[0] == w[0] && Before(v[1..], w[1..])))
  }

  ghost predicate InPreorder(walks: seq<seq<nat>>) {
    forall i, j :: 0 <= i < j < |walks| ==> Before(walks[i], walks[j])
  }

  lemma {:induction false} BeforeIrreflexive(w: seq<nat>)
    ensures !Before(w, w)
  {
    if w != [] { BeforeIrreflexive(w[1..]); }
  }

  /** In preorder, no walk is listed twice. */
  lemma PreorderDistinct(walks: seq<seq<nat>>)
    requires InPreorder(walks)
    ensures Distinct(walks)
  {
    forall i, j | 0 <= i < j < |walks|
      ensures walks[i] != walks[j]
    {
      BeforeIrreflexive(walks[i]);
    }
  }

  lemma SimpleWalkStep(g: Graph, tid: TypeId, processed: set<TypeId>, w: seq<nat>)
    requires w != [] && w[0] < |EdgesOf(g, tid)|
    ensures SimpleWalk(g, tid, processed, w) <==>
            tid !in processed && SimpleWalk(g, EdgesOf(g, tid)[w[0]].1, processed + {tid}, w[1..])
  {
    var next := EdgesOf(g, tid)[w[0]].1;
    if IsWalk(g, next, w[1..]) {
      var rest := Visited(g, next, w[1..]);
      assert Visited(g, tid, w) == [tid] + rest;
      assert forall t :: t in [tid] + rest <==> t == tid || t in rest;
      DistinctCons(tid, rest);
    }
  }

  /** Walks lists exactly the simple walks. */
  lemma {:induction false} WalksExact(g: Graph, tid: TypeId, processed: set<TypeId>, w: seq<nat>)
    ensures w in Walks(g, tid, processed) <==> SimpleWalk(g, tid, processed, w)
    decreases |w|
  {
    if tid in processed {
      assert IsWalk(g, tid, w) ==> Visited(g, tid, w)[0] == tid;
    } else {
      var n := |EdgesOf(g, tid)|;
      WalksThroughExact(g, tid, processed, n, w);
      if w == [] {
        assert Visited(g, tid, w) == [tid];
        assert Walks(g, tid, processed)[0] == [];
      } else if w[0] < n {
        SimpleWalkStep(g, tid, processed, w);
        WalksExact(g, EdgesOf(g, tid)[w[0]].1, processed + {tid}, w[1..]);
      }
    }
  }

  lemma ThroughMembers(k: nat, walks: seq<seq<nat>>, w: seq<nat>)
    ensures w in Through(k, walks) <==> w != [] && w[0] == k && w[1..] in walks
  {
    if w != [] && w[0] == k && w[1..] in walks {
      var i :| 0 <= i < |walks| && walks[i] == w[1..];
      assert Through(k, walks)[i] == w;
    }
  }

  lemma WalksThroughUnfold(g: Graph, tid: TypeId, processed: set<TypeId>, n: nat)
    requires tid !in processed && n <= |EdgesOf(g, tid)|
    ensures n == 0 ==> WalksThrough(g, tid, processed, n) == [] && InPreorder([])
    ensures n > 0 ==> WalksThrough(g, tid, processed, n) == WalksThrough(g, tid, processed, n - 1) +
                        Through(n - 1, Walks(g, EdgesOf(g, tid)[n - 1].1, processed + {tid}))
  {
  }

  lemma {:induction false} WalksThroughExact(g: Graph, tid: TypeId, processed: set<TypeId>, n: nat, w: seq<nat>)
    requires tid !in processed && n <= |EdgesOf(g, tid)|
    ensures w in WalksThrough(g, tid, processed, n) <==>
            w != [] && w[0] < n && w[1..] in Walks(g, EdgesOf(g, tid)[w[0]].1, processed + {tid})
    decreases n
  {
    hide *;
    WalksThroughUnfold(g, tid, processed, n);
    if n > 0 {
      WalksThroughExact(g, tid, processed, n - 1, w);
      ThroughMembers(n - 1, Walks(g, EdgesOf(g, tid)[n - 1].1, processed + {tid}), w);
    }
  }

  lemma PreorderAppend(early: seq<seq<nat>>, late: seq<seq<nat>>)
    requires InPreorder(early) && InPreorder(late)
    requires forall v, w :: v in early && w in late ==> Before(v, w)
    ensures InPreorder(early + late)
  {
    forall i, j | 0 <= i < j < |early + late|
      ensures Before((early + late)[i], (early + late)[j])
    {
      if i < |early| <= j {
        assert early[i] in early && late[j - |early|] in late;
      }
    }
  }

  lemma ThroughInPreorder(k: nat, walks: seq<seq<nat>>)
    requires InPreorder(walks)
    ensures InPreorder(Through(k, walks))
  {
    var all := Through(k, walks);
    forall i, j | 0 <= i < j < |all|
      ensures Before(all[i], all[j])
    {
      assert all[i][1..] == walks[i] && all[j][1..] == walks[j];
      assert Before(walks[i], walks[j]);
    }
  }

  /** Walks is in preorder. */
  lemma {:induction false} WalksInPreorder(g: Graph, tid: TypeId, processed: set<TypeId>)
    ensures InPreorder(Walks(g, tid, processed))
    decreases Unprocessed(g, tid, processed), |EdgesOf(g, tid)| + 1
  {
    if tid !in processed {
      var n := |EdgesOf(g, tid)|;
      var rest := WalksThrough(g, tid, processed, n);
      WalksThroughInPreorder(g, tid, processed, n);
      forall v, w | v in [[]] && w in rest
        ensures Before(v, w)
      {
        WalksThroughExact(g, tid, processed, n, w);
      }
      PreorderAppend([[]], rest);
    }
  }

  lemma {:induction false} WalksThroughInPreorder(g: Graph, tid: TypeId, processed: set<TypeId>, n: nat)
    requires tid !in processed && n <= |EdgesOf(g, tid)|
    ensures InPreorder(WalksThrough(g, tid, processed, n))
    decreases Unprocessed(g, tid, processed), n
  {
    hide *;
    WalksThroughUnfold(g, tid, processed, n);
    if n > 0 {
      var early := WalksThrough(g, tid, processed, n - 1);
      WalksThroughInPreorder(g, tid, processed, n - 1);
      UnprocessedShrinks(g, tid, n - 1, processed);
      var next := Walks(g, EdgesOf(g, tid)[n - 1].1, processed + {tid});
      WalksInPreorder(g, EdgesOf(g, tid)[n - 1].1, processed + {tid});
      ThroughInPreorder(n - 1, next);
      EarlierEdgeFirst(g, tid, processed, n - 1, next);
      PreorderAppend(early, Through(n - 1, next));
    }
  }

  lemma EarlierEdgeFirst(g: Graph, tid: TypeId, processed: set<TypeId>, n: nat, next: seq<seq<nat>>)
    requires tid !in processed && n <= |EdgesOf(g, tid)|
    ensures forall v, w :: v in WalksThrough(g, tid, processed, n) && w in Through(n, next) ==> Before(v, w)
  {
    forall v, w | v in WalksThrough(g, tid, processed, n) && w in Through(n, next)
      ensures Before(v, w)
    {
      WalksThroughExact(g, tid, processed, n, v);
      ThroughMembers(n, next, w);
    }
  }

  // ---------- What is recorded for a walk ----------

  type Record = (TypeId, string)

  /** The type a walk ends in, with the slash-joined labels behind the given prefix. */
  ghost function RecordOf(g: Graph, tid: TypeId, prefix: seq<string>, w: seq<nat>): Record {
    if IsWalk(g, tid, w) then (Target(g, tid, w), JoinPath(prefix + Labels(g, tid, w))) else (tid, "")
  }

  ghost function Records(g: Graph, tid: TypeId, prefix: seq<string>, walks: seq<seq<nat>>): seq<Record> {
    seq(|walks|, i requires 0 <= i < |walks| => RecordOf(g, tid, prefix, walks[i]))
  }

  lemma RecordThrough(g: Graph, tid: TypeId, prefix: seq<string>, k: nat, w: seq<nat>)
    requires k < |EdgesOf(g, tid)|
    ensures RecordOf(g, tid, prefix, [k] + w) ==
            if IsWalk(g, EdgesOf(g, tid)[k].1, w)
            then RecordOf(g, EdgesOf(g, tid)[k].1, prefix + [EdgesOf(g, tid)[k].0], w) else (tid, "")
  {
    var e := EdgesOf(g, tid)[k];
    assert ([k] + w)[1..] == w;
    if IsWalk(g, e.1, w) {
      assert prefix + Labels(g, tid, [k] + w) == prefix + [e.0] + Labels(g, e.1, w);
    }
  }

  /** Records of the walks through one more edge. */
  lemma RecordsNext(g: Graph, tid: TypeId, prefix: seq<string>, processed: set<TypeId>, k: nat)
    requires tid !in processed && k < |EdgesOf(g, tid)|
    ensures var e := EdgesOf(g, tid)[k];
            Records(g, tid, prefix, WalksThrough(g, tid, processed, k + 1)) ==
            Records(g, tid, prefix, WalksThrough(g, tid, processed, k)) +
            Records(g, e.1, prefix + [e.0], Walks(g, e.1, processed + {tid}))
  {
    var e := EdgesOf(g, tid)[k];
    var next := Walks(g, e.1, processed + {tid});
    var left := Records(g, tid, prefix, Through(k, next));
    var right := Records(g, e.1, prefix + [e.0], next);
    forall i | 0 <= i < |next|
      ensures left[i] == right[i]
    {
      assert next[i] in next;
      WalksExact(g, e.1, processed + {tid}, next[i]);
      RecordThrough(g, tid, prefix, k, next[i]);
    }
    assert left == right;
  }

  class StaticInformation {
    const reg: Registry
    var output: seq<Record>
    var currentPath: seq<string>
    var alreadyProcessed: seq<TypeId>
    var aggregates: seq<(TypeId, TypeId)>

    constructor (reg: Registry, aggregates: seq<(TypeId, TypeId)>)
      ensures this.reg == reg && this.aggregates == aggregates
      ensures output == [] && currentPath == [] && alreadyProcessed == []
    {
      this.reg, this.aggregates := reg, aggregates;
      output, currentPath, alreadyProcessed := [], [], [];
    }

    ghost function G(): Graph
      reads this`aggregates
    {
      Graph(reg, aggregates)
    }

    method GetCurrentPath() returns (path: string)
      ensures path == JoinPath(currentPath)
    {
      path := "";
      for i := 0 to |currentPath|
        invariant path == JoinPath(currentPath[..i])
      {
        assert currentPath[..i + 1][..i] == currentPath[..i];
        path := path + "/" + currentPath[i];
      }
      assert currentPath[..|currentPath|] == currentPath;
    }

    method RecordOutput(tid: TypeId)
      modifies this`output
      ensures output == old(output) + [(tid, JoinPath(currentPath))]
    {
      var path := GetCurrentPath();
      output := output + [(tid, path)];
    }

    method HasAlreadyBeenProcessed(tid: TypeId) returns (b: bool)
      ensures b <==> tid in alreadyProcessed
    {
      for i := 0 to |alreadyProcessed|
        invariant tid !in alreadyProcessed[..i]
      {
        if alreadyProcessed[i] == tid {
          return true;
        }
      }
      return false;
    }

    /** The records of the walks through the first n edges of tid have been appended. */
    ghost predicate Gathered(tid: TypeId, output0: seq<Record>, path0: seq<string>, processed0: seq<TypeId>, n: nat)
      reads this
    {
      && tid !in processed0
      && n <= |EdgesOf(G(), tid)|
      && currentPath == path0 && alreadyProcessed == processed0
      && output == output0 + [(tid, JoinPath(path0))] +
                   Records(G(), tid, path0, WalksThrough(G(), tid, ToSet(processed0), n))
    }

    /** Push edge n's label and the type, gather the next type, and pop both. */
    method GatherThrough(tid: TypeId, name: string, next: TypeId, ghost output0: seq<Record>, ghost n: nat)
      requires Gathered(tid, output0, currentPath, alreadyProcessed, n)
      requires n < |EdgesOf(G(), tid)| && EdgesOf(G(), tid)[n] == (name, next)
      modifies this`output, this`currentPath, this`alreadyProcessed
      ensures currentPath == old(currentPath) && alreadyProcessed == old(alreadyProcessed)
      ensures Gathered(tid, output0, currentPath, alreadyProcessed, n + 1)
      decreases Unprocessed(G(), tid, ToSet(alreadyProcessed)), 0
    {
      hide EdgesOf, Walks, WalksThrough, Records, Unprocessed, Universe, JoinPath;
      ghost var path0, processed0 := currentPath, alreadyProcessed;
      currentPath := currentPath + [name];
      alreadyProcessed := alreadyProcessed + [tid];
      assert ToSet(alreadyProcessed) == ToSet(processed0) + {tid};
      UnprocessedShrinks(G(), tid, n, ToSet(processed0));
      RecordsNext(G(), tid, path0, ToSet(processed0), n);
      DoGather(next);
      alreadyProcessed := alreadyProcessed[..|alreadyProcessed| - 1];
      currentPath := currentPath[..|currentPath| - 1];
      assert currentPath == path0 && alreadyProcessed == processed0;
    }

    /**
     * Appends one record per simple walk from tid, in preorder, and leaves both stacks as they were.
     */
    method DoGather(tid: TypeId)
      modifies this`output, this`currentPath, this`alreadyProcessed
      ensures currentPath == old(currentPath) && alreadyProcessed == old(alreadyProcessed)
      ensures output == old(output) + Records(G(), tid, currentPath, Walks(G(), tid, ToSet(alreadyProcessed)))
      decreases Unprocessed(G(), tid, ToSet(alreadyProcessed)), 1
    {
      hide Gathered, EdgesOf, Walks, WalksThrough, Records, Unprocessed, Universe, JoinPath;
      hide AttributeEdges, ChildEdges, AggregateEdges, ToSet;
      var processed := HasAlreadyBeenProcessed(tid);
      ghost var n, path0, processed0, output0 := 0, currentPath, alreadyProcessed, output;
      if processed {
        NoRecords(G(), tid, currentPath, alreadyProcessed);
        return;
      }
      RecordOutput(tid);
      GatheredNothing(tid, output0);
      var attributes := Attributes(reg, tid);
      for i := 0 to |attributes|
        invariant currentPath == path0 && alreadyProcessed == processed0
        invariant Gathered(tid, output0, currentPath, alreadyProcessed, n)
        invariant n == |AttributeEdges(reg, attributes[..i])|
      {
        AttributeEdgeAt(G(), tid, i);
        match attributes[i] {
          case Pointer(name, pointee) =>
            if pointee == reg.objectTypeId {
              continue;
            }
            GatherThrough(tid, name, pointee, output0, n);
            n := n + 1;
          case Container(name, item) =>
            GatherThrough(tid, name + "/[i]", item, output0, n);
            n := n + 1;
          case Plain(_) =>
        }
      }
      assert attributes[..|attributes|] == attributes;
      for j := 0 to |reg.registered|
        invariant currentPath == path0 && alreadyProcessed == processed0
        invariant Gathered(tid, output0, currentPath, alreadyProcessed, n)
        invariant n == |AttributeEdges(reg, attributes)| + |ChildEdges(reg, tid, reg.registered[..j])|
      {
        var child := reg.registered[j];
        ChildEdgeAt(G(), tid, j);
        if (child, tid) in reg.childOf {
          GatherThrough(tid, "$" + Name(reg, child), child, output0, n);
          n := n + 1;
        }
      }
      assert reg.registered[..|reg.registered|] == reg.registered;
      for k := 0 to |aggregates|
        invariant currentPath == path0 && alreadyProcessed == processed0
        invariant Gathered(tid, output0, currentPath, alreadyProcessed, n)
        invariant n == |AttributeEdges(reg, attributes)| + |ChildEdges(reg, tid, reg.registered)| +
                       |AggregateEdges(reg, tid, aggregates[..k])|
      {
        var item := aggregates[k];
        AggregateEdgeAt(G(), tid, k);
        if item.0 == tid || item.1 == tid {
          var other := 0;
          if item.0 == tid {
            other := item.1;
          }
          if item.1 == tid {
            other := item.0;
          }
          GatherThrough(tid, "$" + Name(reg, other), other, output0, n);
          n := n + 1;
        }
      }
      assert aggregates[..|aggregates|] == aggregates;
      GatheredAll(tid, output0, n);
    }

    lemma GatheredNothing(tid: TypeId, output0: seq<Record>)
      requires tid !in alreadyProcessed && output == output0 + [(tid, JoinPath(currentPath))]
      ensures Gathered(tid, output0, currentPath, alreadyProcessed, 0)
      ensures AttributeEdges(reg, Attributes(reg, tid)[..0]) == []
      ensures ChildEdges(reg, tid, reg.registered[..0]) == []
      ensures AggregateEdges(reg, tid, aggregates[..0]) == []
    {
    }

    lemma GatheredAll(tid: TypeId, output0: seq<Record>, n: nat)
      requires Gathered(tid, output0, currentPath, alreadyProcessed, n)
      requires n == |AttributeEdges(reg, Attributes(reg, tid))| + |ChildEdges(reg, tid, reg.registered)| +
                    |AggregateEdges(reg, tid, aggregates)|
      ensures output == output0 + Records(G(), tid, currentPath, Walks(G(), tid, ToSet(alreadyProcessed)))
    {
      hide EdgesOf, Walks, WalksThrough, Records, JoinPath, AttributeEdges, ChildEdges, AggregateEdges;
      AllEdges(G(), tid, currentPath, ToSet(alreadyProcessed));
    }

    /** The copy that Gather makes unique is dropped, so its output is DoGather's. */
    method Gather(tid: TypeId)
      modifies this`output, this`currentPath, this`alreadyProcessed
      ensures currentPath == old(currentPath) && alreadyProcessed == old(alreadyProcessed)
      ensures output == old(output) + Records(G(), tid, currentPath, Walks(G(), tid, ToSet(alreadyProcessed)))
    {
      DoGather(tid);
    }
  }

  // ---------- Which edge each loop iteration follows ----------

  lemma {:induction false} AttributePrefix(reg: Registry, attributes: seq<Attribute>, i: nat)
    requires i <= |attributes|
    ensures AttributeEdges(reg, attributes[..i]) <= AttributeEdges(reg, attributes)
    decreases |attributes| - i
  {
    if i < |attributes| {
      AttributePrefix(reg, attributes, i + 1);
      assert attributes[..i + 1][..i] == attributes[..i];
    } else {
      assert attributes[..i] == attributes;
    }
  }

  lemma {:induction false} ChildPrefix(reg: Registry, tid: TypeId, types: seq<TypeId>, j: nat)
    requires j <= |types|
    ensures ChildEdges(reg, tid, types[..j]) <= ChildEdges(reg, tid, types)
    decreases |types| - j
  {
    if j < |types| {
      ChildPrefix(reg, tid, types, j + 1);
      assert types[..j + 1][..j] == types[..j];
    } else {
      assert types[..j] == types;
    }
  }

  lemma {:induction false} AggregatePrefix(reg: Registry, tid: TypeId, pairs: seq<(TypeId, TypeId)>, k: nat)
    requires k <= |pairs|
    ensures AggregateEdges(reg, tid, pairs[..k]) <= AggregateEdges(reg, tid, pairs)
    decreases |pairs| - k
  {
    if k < |pairs| {
      AggregatePrefix(reg, tid, pairs, k + 1);
      assert pairs[..k + 1][..k] == pairs[..k];
    } else {
      assert pairs[..k] == pairs;
    }
  }

  /** If there is an edge, it is number n of all edges. */
  ghost predicate EdgesAt(all: Edges, n: nat, some: Edges) {
    n + |some| <= |all| && |some| <= 1 && (some != [] ==> all[n] == some[0])
  }

  lemma AttributeEdgeAt(g: Graph, tid: TypeId, i: nat)
    requires i < |Attributes(g.reg, tid)|
    ensures var attributes := Attributes(g.reg, tid);
            var n, edge := |AttributeEdges(g.reg, attributes[..i])|, AttributeEdge(g.reg, attributes[i]);
            EdgesAt(EdgesOf(g, tid), n, edge) && |AttributeEdges(g.reg, attributes[..i + 1])| == n + |edge|
  {
    var attributes := Attributes(g.reg, tid);
    AttributePrefix(g.reg, attributes, i + 1);
    assert attributes[..i + 1][..i] == attributes[..i];
  }

  lemma ChildEdgeAt(g: Graph, tid: TypeId, j: nat)
    requires j < |g.reg.registered|
    ensures var types := g.reg.registered;
            var n := |AttributeEdges(g.reg, Attributes(g.reg, tid))| + |ChildEdges(g.reg, tid, types[..j])|;
            var edge := ChildEdge(g.reg, tid, types[j]);
            && EdgesAt(EdgesOf(g, tid), n, edge)
            && |ChildEdges(g.reg, tid, types[..j + 1])| == |ChildEdges(g.reg, tid, types[..j])| + |edge|
  {
    var types := g.reg.registered;
    ChildPrefix(g.reg, tid, types, j + 1);
    assert types[..j + 1][..j] == types[..j];
  }

  lemma AggregateEdgeAt(g: Graph, tid: TypeId, k: nat)
    requires k < |g.aggregates|
    ensures var pairs := g.aggregates;
            var n := |AttributeEdges(g.reg, Attributes(g.reg, tid))| + |ChildEdges(g.reg, tid, g.reg.registered)| +
                     |AggregateEdges(g.reg, tid, pairs[..k])|;
            var edge := AggregateEdge(g.reg, tid, pairs[k]);
            && EdgesAt(EdgesOf(g, tid), n, edge)
            && |AggregateEdges(g.reg, tid, pairs[..k + 1])| == |AggregateEdges(g.reg, tid, pairs[..k])| + |edge|
  {
    var pairs := g.aggregates;
    AggregatePrefix(g.reg, tid, pairs, k + 1);
    assert pairs[..k + 1][..k] == pairs[..k];
  }

  lemma NoRecords(g: Graph, tid: TypeId, prefix: seq<string>, processed: seq<TypeId>)
    requires tid in processed
    ensures Records(g, tid, prefix, Walks(g, tid, ToSet(processed))) == []
  {
  }

  /** After the last edge, the record of the type itself and those of its edges are all there are. */
  lemma AllEdges(g: Graph, tid: TypeId, prefix: seq<string>, processed: set<TypeId>)
    requires tid !in processed
    ensures |EdgesOf(g, tid)| == |AttributeEdges(g.reg, Attributes(g.reg, tid))| +
                                 |ChildEdges(g.reg, tid, g.reg.registered)| +
                                 |AggregateEdges(g.reg, tid, g.aggregates)|
    ensures [(tid, JoinPath(prefix))] +
            Records(g, tid, prefix, WalksThrough(g, tid, processed, |EdgesOf(g, tid)|)) ==
            Records(g, tid, prefix, Walks(g, tid, processed))
  {
    assert prefix + Labels(g, tid, []) == prefix;
    var rest := WalksThrough(g, tid, processed, |EdgesOf(g, tid)|);
    assert Walks(g, tid, processed) == [[]] + rest;
    assert Records(g, tid, prefix, [[]] + rest) == [RecordOf(g, tid, prefix, [])] + Records(g, tid, prefix, rest);
  }

  /**
   * Gathering from empty stacks lists every simple labelled walk from the root once, in preorder.
   */
  lemma GatheredFromScratch(g: Graph, root: TypeId)
    ensures var walks := Walks(g, root, {});
            && InPreorder(walks) && Distinct(walks)
            && (forall w :: w in walks <==> IsWalk(g, root, w) && Distinct(Visited(g, root, w)))
            && |Records(g, root, [], walks)| == |walks|
            && (forall i :: 0 <= i < |walks| ==>
                  Records(g, root, [], walks)[i] ==
                  (Target(g, root, walks[i]), JoinPath(Labels(g, root, walks[i]))))
  {
    var walks := Walks(g, root, {});
    WalksInPreorder(g, root, {});
    PreorderDistinct(walks);
    forall w
      ensures w in walks <==> IsWalk(g, root, w) && Distinct(Visited(g, root, w))
    {
      WalksExact(g, root, {}, w);
    }
    forall i | 0 <= i < |walks|
      ensures Records(g, root, [], walks)[i] ==
              (Target(g, root, walks[i]), JoinPath(Labels(g, root, walks[i])))
    {
      assert walks[i] in walks;
      assert [] + Labels(g, root, walks[i]) == Labels(g, root, walks[i]);
    }
  }
}
