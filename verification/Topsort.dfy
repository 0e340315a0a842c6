/**
 * Dependency sorting: the FIFO sort, the level-by-level sort, and what their outcomes
 * mean for the multigraph given by the (parent, child) pairs.
 */
module Topsort {
  import opened Sequences
  import opened DependencyGraph

  type Pairs = seq<(Node, Node)>

  datatype SortResult =
    | Sorted(answer: seq<Node>)
    | CycleError(answer: seq<Node>, numParents: map<Node, int>, children: Children)

  datatype LevelsEnd =
    | StopIteration
    | LevelsCycleError(numParents: map<Node, int>, children: Children)

  // ---------- The graph that a list of pairs denotes ----------

  ghost function ParentsIn(pairs: Pairs): set<Node> {
    set e | e in pairs :: e.0
  }

  ghost function Items(pairs: Pairs): set<Node> {
    ParentsIn(pairs) + set e | e in pairs :: e.1
  }

  /** The children listed for u, in pair order and with multiplicity. */
  ghost function ChildrenOf(pairs: Pairs, u: Node): seq<Node> {
    if pairs == [] then [] else
      var front, e := pairs[..|pairs| - 1], pairs[|pairs| - 1];
      ChildrenOf(front, u) + if e.0 == u then [e.1] else []
  }

  ghost function GraphOf(pairs: Pairs): Children {
    map u | u in ParentsIn(pairs) :: ChildrenOf(pairs, u)
  }

  lemma {:induction false} ChildrenOfMembers(pairs: Pairs, u: Node, v: Node)
    ensures v in ChildrenOf(pairs, u) <==> (u, v) in pairs
  {
    if pairs != [] {
      ChildrenOfMembers(pairs[..|pairs| - 1], u, v);
    }
  }

  /** Child lists follow the order of the pairs. */
  lemma {:induction false} ChildrenInPairOrder(pairs: Pairs, more: Pairs, u: Node, v: Node, w: Node)
    ensures ChildrenOf(pairs + more, u) == ChildrenOf(pairs, u) + ChildrenOf(more, u)
    ensures ChildrenOf([(v, w)], u) == if v == u then [w] else []
    decreases |more|
  {
    assert [(v, w)][..0] == [];
    if more == [] {
      assert pairs + more == pairs;
    } else {
      var front, e := more[..|more| - 1], more[|more| - 1];
      ChildrenInPairOrder(pairs, front, u, v, w);
      assert (pairs + more)[..|pairs + more| - 1] == pairs + front;
    }
  }

  lemma GraphOfEdges(pairs: Pairs, u: Node, v: Node)
    ensures Edge(GraphOf(pairs), u, v) <==> (u, v) in pairs
  {
    ChildrenOfMembers(pairs, u, v);
    if (u, v) in pairs {
      assert (u, v).0 in ParentsIn(pairs);
    }
  }

  // ---------- Parent counts ----------

  /** All child entries of all child lists. */
  ghost function Arrivals(ch: Children): multiset<Node> {
    if ch == map[] then multiset{} else
      var u :| u in ch;
      multiset(ch[u]) + Arrivals(ch - {u})
  }

  lemma {:induction false} ArrivalsSplit(ch: Children, v: Node)
    requires v in ch
    ensures Arrivals(ch) == multiset(ch[v]) + Arrivals(ch - {v})
  {
    var u :| u in ch && Arrivals(ch) == multiset(ch[u]) + Arrivals(ch - {u});
    if u != v {
      ArrivalsSplit(ch - {u}, v);
      ArrivalsSplit(ch - {v}, u);
      assert ch - {u} - {v} == ch - {v} - {u};
    }
  }

  lemma {:induction false} ArrivalsMembers(ch: Children, v: Node)
    ensures v in Arrivals(ch) <==> exists u :: Edge(ch, u, v)
  {
    if ch != map[] {
      var u :| u in ch && Arrivals(ch) == multiset(ch[u]) + Arrivals(ch - {u});
      ArrivalsMembers(ch - {u}, v);
      forall w
        ensures Edge(ch, w, v) <==> (w == u && v in ch[u]) || Edge(ch - {u}, w, v)
      {
      }
      if v in ch[u] { assert Edge(ch, u, v); }
    }
  }

  lemma ArrivalsAppend(ch: Children, p: Node, c: Node)
    ensures Arrivals(ch[p := Kids(ch, p) + [c]]) == Arrivals(ch) + multiset{c}
  {
    hide Arrivals;
    var kids := Kids(ch, p);
    var more := ch[p := kids + [c]];
    assert multiset(more[p]) == multiset(kids) + multiset{c};
    ArrivalsSplit(more, p);
    if p in ch {
      ArrivalsSplit(ch, p);
      assert more - {p} == ch - {p};
    } else {
      assert more - {p} == ch;
    }
  }

  /** Each key's number is its number of in-edges, and every item mentioned is a key. */
  ghost predicate Counted(numParents: map<Node, int>, ch: Children) {
    && ch.Keys <= numParents.Keys
    && (forall v :: v in Arrivals(ch) ==> v in numParents)
    && (forall v :: v in numParents ==> numParents[v] == Arrivals(ch)[v])
  }

  /** The state after one pair has been entered. */
  lemma CountedAppend(numParents: map<Node, int>, ch: Children, p: Node, c: Node)
    requires Counted(numParents, ch) && p in numParents && c in numParents
    ensures Counted(numParents[c := numParents[c] + 1], ch[p := Kids(ch, p) + [c]])
  {
    ArrivalsAppend(ch, p, c);
  }

  lemma ItemsAppend(pairs: Pairs, p: Node, c: Node)
    ensures ParentsIn(pairs + [(p, c)]) == ParentsIn(pairs) + {p}
    ensures Items(pairs + [(p, c)]) == Items(pairs) + {p, c}
  {
    var more := pairs + [(p, c)];
    assert forall e :: e in more <==> e in pairs || e == (p, c);
    assert (p, c) in more;
    assert (set e | e in more :: e.1) == (set e | e in pairs :: e.1) + {c};
  }

  lemma {:induction false} NoChildren(pairs: Pairs, u: Node)
    requires u !in ParentsIn(pairs)
    ensures ChildrenOf(pairs, u) == []
  {
    if pairs != [] {
      assert pairs[|pairs| - 1].0 in ParentsIn(pairs);
      NoChildren(pairs[..|pairs| - 1], u);
    }
  }

  lemma GraphOfAppend(pairs: Pairs, p: Node, c: Node)
    ensures var ch := GraphOf(pairs); GraphOf(pairs + [(p, c)]) == ch[p := Kids(ch, p) + [c]]
  {
    var more := pairs + [(p, c)];
    var now, ch := GraphOf(more), GraphOf(pairs);
    assert more[..|more| - 1] == pairs;
    ItemsAppend(pairs, p, c);
    if p !in ch {
      NoChildren(pairs, p);
    }
    forall u | u in now
      ensures now[u] == ch[p := Kids(ch, p) + [c]][u]
    {
      assert ChildrenOf(more, u) == ChildrenOf(pairs, u) + if p == u then [c] else [];
    }
  }

  ghost predicate Built(pairs: Pairs, numParents: map<Node, int>, ch: Children) {
    numParents.Keys == Items(pairs) && ch == GraphOf(pairs) && Counted(numParents, ch)
  }

  ghost function WithKey(numParents: map<Node, int>, x: Node): map<Node, int> {
    if x in numParents then numParents else numParents[x := 0]
  }

  lemma WithKeyCounted(numParents: map<Node, int>, ch: Children, x: Node)
    requires Counted(numParents, ch)
    ensures Counted(WithKey(numParents, x), ch)
  {
  }

  lemma CountedStep(numParents: map<Node, int>, ch: Children, p: Node, c: Node)
    requires Counted(numParents, ch)
    ensures var np := WithKey(WithKey(numParents, p), c);
            Counted(np[c := np[c] + 1], ch[p := Kids(ch, p) + [c]])
  {
    WithKeyCounted(numParents, ch, p);
    WithKeyCounted(WithKey(numParents, p), ch, c);
    CountedAppend(WithKey(WithKey(numParents, p), c), ch, p, c);
  }

  lemma BuiltStep(pairs: Pairs, numParents: map<Node, int>, ch: Children, p: Node, c: Node)
    requires Built(pairs, numParents, ch)
    ensures var np := if p in numParents then numParents else numParents[p := 0];
            var np' := if c in np then np else np[c := 0];
            Built(pairs + [(p, c)], np'[c := np'[c] + 1], ch[p := (if p in ch then ch[p] else []) + [c]])
  {
    hide Counted, GraphOf, Items, ParentsIn;
    CountedStep(numParents, ch, p, c);
    ItemsAppend(pairs, p, c);
    GraphOfAppend(pairs, p, c);
  }

  lemma NothingBuilt()
    ensures Built([], map[], map[])
  {
  }

  method BuildGraph(pairs: Pairs) returns (numParents: map<Node, int>, children: Children)
    ensures Built(pairs, numParents, children)
  {
    hide *;
    numParents, children := map[], map[];
    NothingBuilt();
    for i := 0 to |pairs|
      invariant Built(pairs[..i], numParents, children)
    {
      var (parent, child) := pairs[i];
      assert pairs[..i + 1] == pairs[..i] + [(parent, child)];
      BuiltStep(pairs[..i], numParents, children, parent, child);
      if parent !in numParents {
        numParents := numParents[parent := 0];
      }
      if child !in numParents {
        numParents := numParents[child := 0];
      }
      numParents := numParents[child := numParents[child] + 1];
      children := children[parent := (if parent in children then children[parent] else []) + [child]];
    }
    assert pairs[..|pairs|] == pairs;
  }

  // ---------- Removing one parentless item ----------

  /** Counts while a removed item's child list is being worked off. */
  ghost predicate Draining(numParents: map<Node, int>, rest: Children, pending: seq<Node>) {
    && rest.Keys <= numParents.Keys
    && (forall v :: v in Arrivals(rest) || v in pending ==> v in numParents)
    && (forall v :: v in numParents ==> numParents[v] == Arrivals(rest)[v] + multiset(pending)[v])
  }

  lemma StartDraining(numParents: map<Node, int>, ch: Children, p: Node)
    requires Counted(numParents, ch) && p in numParents && numParents[p] == 0
    ensures Draining(numParents - {p}, ch - {p}, Kids(ch, p))
  {
    if p in ch {
      ArrivalsSplit(ch, p);
    } else {
      assert ch - {p} == ch;
    }
    assert p !in Arrivals(ch);
    assert forall v :: v in Kids(ch, p) ==> v in Arrivals(ch);
  }

  lemma DrainStep(numParents: map<Node, int>, rest: Children, c: Node, pending: seq<Node>)
    requires Draining(numParents, rest, [c] + pending)
    ensures c in numParents && numParents[c] > 0
    ensures Draining(numParents[c := numParents[c] - 1], rest, pending)
  {
    assert c in [c] + pending;
    assert multiset([c] + pending) == multiset{c} + multiset(pending);
    assert forall v :: v in pending ==> v in [c] + pending;
  }

  lemma DrainedIsCounted(numParents: map<Node, int>, rest: Children)
    requires Draining(numParents, rest, [])
    ensures Counted(numParents, rest)
  {
  }

  // ---------- Level-by-level sorting ----------

  /** The keys with count 0, in an arbitrary order. */
  method Parentless(numParents: map<Node, int>) returns (xs: seq<Node>)
    ensures IsParentless(xs, numParents)
  {
    xs := [];
    var keys := numParents.Keys;
    while keys != {}
      invariant keys <= numParents.Keys
      invariant Distinct(xs)
      invariant forall x :: x in xs <==> x in numParents && x !in keys && numParents[x] == 0
      decreases |keys|
    {
      var x :| x in keys;
      keys := keys - {x};
      if numParents[x] == 0 {
        xs := xs + [x];
      }
    }
  }

  ghost function DeepItems(items: set<Node>, ch: Children, k: nat): set<Node> {
    set v | v in items && Deep(ch, v, k)
  }

  ghost function DeepPart(ch: Children, k: nat): Children {
    map u | u in ch && Deep(ch, u, k) :: ch[u]
  }

  lemma ZeroCountIffLevel(items: set<Node>, numParents: map<Node, int>, ch: Children, k: nat, v: Node)
    requires Counted(numParents, DeepPart(ch, k))
    requires v in numParents
    ensures numParents[v] == 0 <==> !Deep(ch, v, k + 1)
  {
    var rest := DeepPart(ch, k);
    ArrivalsMembers(rest, v);
    if Deep(ch, v, k + 1) {
      var u :| Edge(ch, u, v) && Deep(ch, u, k);
      assert Edge(rest, u, v);
    }
    forall u | Edge(rest, u, v)
      ensures Deep(ch, v, k + 1)
    {
      assert Edge(ch, u, v) && Deep(ch, u, k);
    }
  }

  /** levels[k] lists, once each, the items whose longest incoming walk has k edges. */
  ghost predicate LevelsOf(levels: seq<seq<Node>>, items: set<Node>, ch: Children) {
    forall k: nat :: k < |levels| ==>
      && levels[k] != []
      && Distinct(levels[k])
      && (forall v :: v in levels[k] <==> v in items && AtLevel(ch, v, k))
  }

  method ReleaseChildren(numParents: map<Node, int>, ghost ch: Children, ghost p: Node, kids: seq<Node>)
    returns (np: map<Node, int>)
    requires Draining(numParents, ch - {p}, kids)
    ensures Counted(np, ch - {p}) && np.Keys == numParents.Keys
    ensures forall v :: v in np && numParents[v] == 0 ==> np[v] == 0
  {
    hide *;
    np := numParents;
    assert kids[0..] == kids;
    for i := 0 to |kids|
      invariant Draining(np, ch - {p}, kids[i..])
      invariant np.Keys == numParents.Keys
      invariant forall v :: v in np && numParents[v] == 0 ==> np[v] == 0
    {
      assert kids[i..] == [kids[i]] + kids[i + 1..];
      DrainStep(np, ch - {p}, kids[i], kids[i + 1..]);
      np := np[kids[i] := np[kids[i]] - 1];
    }
    assert kids[|kids|..] == [];
    DrainedIsCounted(np, ch - {p});
  }

  /** What is left when the sort stops: everything downstream of a cycle, with its own counts. */
  ghost predicate LeftoverOf(numParents: map<Node, int>, children: Children, items: set<Node>, ch: Children) {
    && (forall v :: v in numParents <==> v in items && FromCycle(ch, v))
    && (forall u :: u in children <==> u in ch && FromCycle(ch, u))
    && (forall u :: u in children ==> children[u] == ch[u])
    && Counted(numParents, children)
  }

  /** Removing exactly the items of level k leaves those with longer incoming walks. */
  lemma NextLevel(items: set<Node>, ch: Children, k: nat, level: seq<Node>)
    requires ch.Keys <= items
    requires forall v :: v in level <==> v in items && AtLevel(ch, v, k)
    ensures DeepItems(items, ch, k) - ToSet(level) == DeepItems(items, ch, k + 1)
    ensures DeepPart(ch, k) - ToSet(level) == DeepPart(ch, k + 1)
  {
    forall v | Deep(ch, v, k + 1)
      ensures Deep(ch, v, k)
    {
      DeepAntitone(ch, v, k, k + 1);
    }
  }

  ghost predicate NoneAtLevel(items: set<Node>, ch: Children, k: nat) {
    forall v {:trigger AtLevel(ch, v, k)} :: v in items ==> !AtLevel(ch, v, k)
  }

  lemma {:induction false} StuckStaysDeep(items: set<Node>, ch: Children, k: nat, v: Node, j: nat)
    requires ch.Keys <= items && NoneAtLevel(items, ch, k)
    requires v in items && Deep(ch, v, k)
    ensures Deep(ch, v, j)
    decreases j
  {
    if j <= k {
      DeepAntitone(ch, v, j, k);
    } else {
      assert !AtLevel(ch, v, k);
      var u :| Edge(ch, u, v) && Deep(ch, u, k);
      StuckStaysDeep(items, ch, k, u, j - 1);
    }
  }

  /** When no item of level k exists, the remaining ones are exactly those downstream of a cycle. */
  lemma StuckMeansFromCycle(items: set<Node>, ch: Children, k: nat, v: Node)
    requires ch.Keys <= items && NoneAtLevel(items, ch, k) && v in items
    ensures Deep(ch, v, k) <==> FromCycle(ch, v)
  {
    FromCycleIffEndless(ch, v);
    if Deep(ch, v, k) {
      forall j: nat
        ensures Deep(ch, v, j)
      {
        StuckStaysDeep(items, ch, k, v, j);
      }
      assert EndlesslyDeep(ch, v);
    }
  }

  lemma StuckLeftover(numParents: map<Node, int>, children: Children, items: set<Node>, ch: Children, k: nat)
    requires ch.Keys <= items && NoneAtLevel(items, ch, k)
    requires numParents.Keys == DeepItems(items, ch, k) && children == DeepPart(ch, k)
    requires Counted(numParents, children)
    ensures LeftoverOf(numParents, children, items, ch)
  {
    forall v | v in items
      ensures Deep(ch, v, k) <==> FromCycle(ch, v)
    {
      StuckMeansFromCycle(items, ch, k, v);
    }
  }

  lemma StuckBoundsLevels(items: set<Node>, ch: Children, m: nat, v: Node, k: nat)
    requires ch.Keys <= items && NoneAtLevel(items, ch, m)
    requires v in items && AtLevel(ch, v, k)
    ensures k < m
  {
    if m <= k {
      DeepAntitone(ch, v, m, k);
      StuckStaysDeep(items, ch, m, v, k + 1);
    }
  }

  /** Nothing is left over iff the graph has no cycle. */
  lemma LeftoverIffCycle(numParents: map<Node, int>, children: Children, items: set<Node>, ch: Children)
    requires ch.Keys <= items
    requires LeftoverOf(numParents, children, items, ch)
    ensures numParents != map[] <==> HasCycle(ch)
  {
    if HasCycle(ch) {
      var c :| ElementaryCycle(ch, c);
      CycleNodeFromCycle(ch, c);
      assert c[0] in numParents;
    }
    if numParents != map[] {
      var v :| v in numParents;
    }
  }

  lemma ParentlessIsLevel(items: set<Node>, np: map<Node, int>, ch: Children, k: nat, level: seq<Node>)
    requires np.Keys == DeepItems(items, ch, k) && Counted(np, DeepPart(ch, k))
    requires forall v :: v in level <==> v in np && np[v] == 0
    ensures forall v :: v in level <==> v in items && AtLevel(ch, v, k)
  {
    forall v
      ensures v in level <==> v in items && AtLevel(ch, v, k)
    {
      if v in np { ZeroCountIffLevel(items, np, ch, k, v); }
    }
  }

  lemma LevelsAppend(levels: seq<seq<Node>>, items: set<Node>, ch: Children, level: seq<Node>)
    requires LevelsOf(levels, items, ch) && level != [] && Distinct(level)
    requires forall v :: v in level <==> v in items && AtLevel(ch, v, |levels|)
    ensures LevelsOf(levels + [level], items, ch)
  {
  }

  lemma ProperSubset(a: set<Node>, b: set<Node>, x: Node)
    requires a <= b && x in b && x !in a
    ensures |a| < |b|
  {
    SubsetCardinality(a, b - {x});
  }

  /** All items without a parent among the remaining ones go at once. */
  method RemoveParentless(numParents: map<Node, int>, children: Children, p: Node)
    returns (np: map<Node, int>, ch: Children)
    requires Counted(numParents, children) && p in numParents && numParents[p] == 0
    ensures np.Keys == numParents.Keys - {p} && ch == children - {p}
    ensures Counted(np, ch)
    ensures forall v :: v in np && numParents[v] == 0 ==> np[v] == 0
  {
    StartDraining(numParents, children, p);
    np, ch := numParents - {p}, children - {p};
    if p in children {
      np := ReleaseChildren(np, children, p, children[p]);
    } else {
      DrainedIsCounted(np, ch);
    }
  }

  method RemoveLevel(numParents: map<Node, int>, children: Children, level: seq<Node>)
    returns (np: map<Node, int>, ch: Children)
    requires Counted(numParents, children) && IsParentless(level, numParents)
    ensures np.Keys == numParents.Keys - ToSet(level)
    ensures ch == children - ToSet(level)
    ensures Counted(np, ch)
  {
    hide *;
    np, ch := numParents, children;
    RemoveNone(np, ch, level);
    for i := 0 to |level|
      invariant Counted(np, ch)
      invariant PartlyRemoved(numParents, children, level, i, np, ch)
    {
      PartlyRemovedNext(numParents, children, level, i, np, ch);
      np, ch := RemoveParentless(np, ch, level[i]);
    }
    AllRemoved(numParents, children, level, np, ch);
  }

  ghost predicate PartlyRemoved(numParents: map<Node, int>, children: Children, level: seq<Node>, i: nat,
                                np: map<Node, int>, ch: Children) {
    && i <= |level|
    && np.Keys == numParents.Keys - ToSet(level[..i])
    && ch == children - ToSet(level[..i])
    && (forall j :: i <= j < |level| ==> level[j] in np && np[level[j]] == 0)
  }

  lemma RemoveNone(np: map<Node, int>, ch: Children, level: seq<Node>)
    requires IsParentless(level, np)
    ensures PartlyRemoved(np, ch, level, 0, np, ch)
  {
    assert ToSet(level[..0]) == {};
    assert forall j :: 0 <= j < |level| ==> level[j] in level;
  }

  lemma PartlyRemovedNext(numParents: map<Node, int>, children: Children, level: seq<Node>, i: nat,
                          np: map<Node, int>, ch: Children)
    requires PartlyRemoved(numParents, children, level, i, np, ch) && i < |level| && IsParentless(level, numParents)
    ensures level[i] in np && np[level[i]] == 0
    ensures forall np': map<Node, int> ::
              && np'.Keys == np.Keys - {level[i]}
              && (forall v :: v in np' && np[v] == 0 ==> np'[v] == 0)
              ==> PartlyRemoved(numParents, children, level, i + 1, np', ch - {level[i]})
  {
    assert ToSet(level[..i + 1]) == ToSet(level[..i]) + {level[i]};
  }

  lemma AllRemoved(numParents: map<Node, int>, children: Children, level: seq<Node>,
                   np: map<Node, int>, ch: Children)
    requires PartlyRemoved(numParents, children, level, |level|, np, ch)
    ensures np.Keys == numParents.Keys - ToSet(level) && ch == children - ToSet(level)
  {
    assert level[..|level|] == level;
  }

  /** The dictionaries after k levels have been yielded. */
  ghost predicate LevelState(items: set<Node>, start: Children, k: nat, np: map<Node, int>, ch: Children) {
    && start.Keys <= items
    && np.Keys == DeepItems(items, start, k)
    && ch == DeepPart(start, k)
  }

  ghost predicate IsParentless(level: seq<Node>, np: map<Node, int>) {
    Distinct(level) && forall x :: x in level <==> x in np && np[x] == 0
  }

  lemma AdvanceState(items: set<Node>, start: Children, k: nat, np: map<Node, int>, ch: Children,
                     level: seq<Node>, np': map<Node, int>, ch': Children)
    requires LevelState(items, start, k, np, ch)
    requires forall v :: v in level <==> v in items && AtLevel(start, v, k)
    requires np'.Keys == np.Keys - ToSet(level) && ch' == ch - ToSet(level)
    ensures LevelState(items, start, k + 1, np', ch')
  {
    NextLevel(items, start, k, level);
  }

  lemma AdvanceLevel(items: set<Node>, start: Children, levels: seq<seq<Node>>, np: map<Node, int>, ch: Children,
                     level: seq<Node>, np': map<Node, int>, ch': Children)
    requires LevelsSoFar(items, start, levels, np, ch) && IsParentless(level, np) && level != []
    requires np'.Keys == np.Keys - ToSet(level) && ch' == ch - ToSet(level) && Counted(np', ch')
    ensures LevelsSoFar(items, start, levels + [level], np', ch')
  {
    ParentlessIsLevel(items, np, start, |levels|, level);
    LevelsAppend(levels, items, start, level);
    AdvanceState(items, start, |levels|, np, ch, level, np', ch');
  }

  ghost predicate LevelsBelow(items: set<Node>, ch: Children, m: nat) {
    forall v, k: nat :: v in items && AtLevel(ch, v, k) ==> k < m
  }

  /** levels are exactly the non-empty depth levels, and end tells whether and where cycles are. */
  ghost predicate LevelsOutcome(levels: seq<seq<Node>>, end: LevelsEnd, items: set<Node>, ch: Children) {
    && LevelsOf(levels, items, ch)
    && LevelsBelow(items, ch, |levels|)
    && (end.StopIteration? <==> !HasCycle(ch))
    && (end.LevelsCycleError? ==> LeftoverOf(end.numParents, end.children, items, ch))
  }

  /** How the generator ends with the given dictionaries left. */
  function EndOfLevels(np: map<Node, int>, ch: Children): LevelsEnd {
    if np != map[] then LevelsCycleError(np, ch) else StopIteration
  }

  /** The loop's invariant: the levels so far, and the dictionaries without them. */
  ghost predicate LevelsSoFar(items: set<Node>, start: Children, levels: seq<seq<Node>>, np: map<Node, int>,
                              ch: Children) {
    LevelsOf(levels, items, start) && LevelState(items, start, |levels|, np, ch) && Counted(np, ch)
  }

  lemma NoMoreLevels(items: set<Node>, start: Children, levels: seq<seq<Node>>, np: map<Node, int>, ch: Children)
    requires LevelsSoFar(items, start, levels, np, ch) && IsParentless([], np)
    ensures LevelsOutcome(levels, EndOfLevels(np, ch), items, start)
  {
    var k := |levels|;
    ParentlessIsLevel(items, np, start, k, []);
    StuckLeftover(np, ch, items, start, k);
    LeftoverIffCycle(np, ch, items, start);
    forall v, j: nat | v in items && AtLevel(start, v, j)
      ensures j < k
    {
      StuckBoundsLevels(items, start, k, v, j);
    }
  }

  lemma StartState(np: map<Node, int>, ch: Children)
    requires Counted(np, ch)
    ensures LevelsSoFar(np.Keys, ch, [], np, ch)
  {
    assert DeepItems(np.Keys, ch, 0) == np.Keys;
    assert DeepPart(ch, 0) == ch;
  }

  lemma StillCounted(items: set<Node>, start: Children, levels: seq<seq<Node>>, np: map<Node, int>, ch: Children)
    requires LevelsSoFar(items, start, levels, np, ch)
    ensures Counted(np, ch)
  {
  }

  lemma FewerKeys(np: map<Node, int>, np': map<Node, int>, level: seq<Node>)
    requires IsParentless(level, np) && level != [] && np'.Keys == np.Keys - ToSet(level)
    ensures |np'.Keys| < |np.Keys|
  {
    assert level[0] in np;
    ProperSubset(np'.Keys, np.Keys, level[0]);
  }

  method TopsortLevelsCore(numParents: map<Node, int>, children: Children)
    returns (levels: seq<seq<Node>>, end: LevelsEnd)
    requires Counted(numParents, children)
    ensures LevelsOutcome(levels, end, numParents.Keys, children)
  {
    hide *;
    levels := [];
    var np, ch := numParents, children;
    ghost var items := np.Keys;
    StartState(np, ch);
    while true
      invariant LevelsSoFar(items, children, levels, np, ch)
      decreases |np.Keys|
    {
      var level := Parentless(np);
      if level == [] {
        break;
      }
      StillCounted(items, children, levels, np, ch);
      var np', ch' := RemoveLevel(np, ch, level);
      AdvanceLevel(items, children, levels, np, ch, level, np', ch');
      FewerKeys(np, np', level);
      levels, np, ch := levels + [level], np', ch';
    }
    NoMoreLevels(items, children, levels, np, ch);
    end := EndOfLevels(np, ch);
  }

  /** topsort_levels: the generator over the graph built from the pairs. */
  method TopsortLevels(pairs: Pairs) returns (levels: seq<seq<Node>>, end: LevelsEnd)
    ensures LevelsOutcome(levels, end, Items(pairs), GraphOf(pairs))
  {
    var numParents, children := BuildGraph(pairs);
    levels, end := TopsortLevelsCore(numParents, children);
  }

  // ---------- The FIFO sort ----------

  ghost predicate PointsBack(via: seq<int>) {
    forall a :: 0 <= a < |via| ==> -1 <= via[a] < a
  }

  /**
   * answer lists items in the order in which their last parent was worked off:
   * via[a] is the position of that parent, or -1 for an item without parents.
   */
  ghost predicate Fifo(ch: Children, answer: seq<Node>, via: seq<int>) {
    && |via| == |answer|
    && PointsBack(via)
    && (forall a, b :: 0 <= a <= b < |via| ==> via[a] <= via[b])
    && (forall a :: 0 <= a < |via| && via[a] >= 0 ==> Edge(ch, answer[via[a]], answer[a]))
    && (forall a, u :: 0 <= a < |via| && Edge(ch, u, answer[a]) ==> u in answer[..via[a] + 1])
  }

  /** The last place of x in s, or -1. */
  ghost function LastIndex(s: seq<Node>, x: Node): int {
    if s == [] then -1 else if s[|s| - 1] == x then |s| - 1 else LastIndex(s[..|s| - 1], x)
  }

  /** Items with the same last parent stand in the order of their last entries in its child list. */
  ghost predicate SiblingsInOrder(ch: Children, answer: seq<Node>, via: seq<int>) {
    && |via| == |answer| && PointsBack(via)
    && forall a, b :: 0 <= a < b < |via| && via[a] == via[b] >= 0 ==>
         LastIndex(Kids(ch, answer[via[a]]), answer[a]) < LastIndex(Kids(ch, answer[via[a]]), answer[b])
  }

  /** The order of the queue: by last parent, then by the place in that parent's child list. */
  ghost predicate QueueOrder(ch: Children, answer: seq<Node>) {
    exists via :: Fifo(ch, answer, via) && SiblingsInOrder(ch, answer, via)
  }

  /** The position-level of answer[a]: one more than that of its last parent. */
  ghost function Rank(via: seq<int>, a: nat): nat
    requires a < |via| && PointsBack(via)
  {
    if via[a] < 0 then 0 else Rank(via, via[a]) + 1
  }

  lemma {:induction false} RankMonotone(ch: Children, answer: seq<Node>, via: seq<int>, a: nat, b: nat)
    requires Fifo(ch, answer, via) && a <= b < |via|
    ensures Rank(via, a) <= Rank(via, b)
    decreases b
  {
    if via[a] >= 0 {
      RankMonotone(ch, answer, via, via[a], via[b]);
    }
  }

  lemma ViaIsParent(ch: Children, answer: seq<Node>, via: seq<int>, a: nat)
    requires Fifo(ch, answer, via) && a < |via| && via[a] >= 0
    ensures via[a] < a && Edge(ch, answer[via[a]], answer[a])
  {
  }

  lemma {:induction false} RankIsDeep(ch: Children, answer: seq<Node>, via: seq<int>, a: nat)
    requires Fifo(ch, answer, via) && a < |via| == |answer| && PointsBack(via)
    ensures Deep(ch, answer[a], Rank(via, a))
    decreases a
  {
    hide Deep, Edge, Fifo;
    DeepZero(ch, answer[a]);
    if via[a] >= 0 {
      ViaIsParent(ch, answer, via, a);
      RankIsDeep(ch, answer, via, via[a]);
      DeepStep(ch, answer[via[a]], answer[a], Rank(via, via[a]));
    }
  }

  lemma ParentPosition(ch: Children, answer: seq<Node>, via: seq<int>, a: nat, u: Node) returns (j: nat)
    requires Fifo(ch, answer, via) && a < |via| && Edge(ch, u, answer[a])
    ensures j <= via[a] < a && answer[j] == u && Rank(via, j) < Rank(via, a)
  {
    j :| 0 <= j < via[a] + 1 && answer[j] == u;
    RankMonotone(ch, answer, via, j, via[a]);
  }

  lemma {:induction false} RankIsDeepest(ch: Children, answer: seq<Node>, via: seq<int>, a: nat)
    requires Fifo(ch, answer, via) && a < |via| == |answer| && PointsBack(via)
    ensures !Deep(ch, answer[a], Rank(via, a) + 1)
    decreases a
  {
    hide *;
    if Deep(ch, answer[a], Rank(via, a) + 1) {
      var u := DeepParent(ch, answer[a], Rank(via, a));
      var j := ParentPosition(ch, answer, via, a, u);
      RankIsDeepest(ch, answer, via, j);
      DeepAntitone(ch, u, Rank(via, j) + 1, Rank(via, a));
    }
  }

  lemma RankIsLevel(ch: Children, answer: seq<Node>, via: seq<int>, a: nat)
    requires Fifo(ch, answer, via) && a < |via|
    ensures AtLevel(ch, answer[a], Rank(via, a))
  {
    RankIsDeep(ch, answer, via, a);
    RankIsDeepest(ch, answer, via, a);
  }

  /** The FIFO order never goes back to an earlier level. */
  ghost predicate LevelOrdered(answer: seq<Node>, ch: Children) {
    forall a, b, j: nat, k: nat ::
      0 <= a <= b < |answer| && AtLevel(ch, answer[a], j) && AtLevel(ch, answer[b], k) ==> j <= k
  }

  lemma FifoIsLevelOrdered(ch: Children, answer: seq<Node>, via: seq<int>)
    requires Fifo(ch, answer, via)
    ensures LevelOrdered(answer, ch)
    ensures forall a :: 0 <= a < |answer| ==> !FromCycle(ch, answer[a])
  {
    forall a, b, j: nat, k: nat |
      0 <= a <= b < |answer| && AtLevel(ch, answer[a], j) && AtLevel(ch, answer[b], k)
      ensures j <= k
    {
      RankIsLevel(ch, answer, via, a);
      RankIsLevel(ch, answer, via, b);
      LevelUnique(ch, answer[a], j, Rank(via, a));
      LevelUnique(ch, answer[b], k, Rank(via, b));
      RankMonotone(ch, answer, via, a, b);
    }
    forall a | 0 <= a < |answer|
      ensures !FromCycle(ch, answer[a])
    {
      RankIsLevel(ch, answer, via, a);
      if FromCycle(ch, answer[a]) { FromCycleIsDeep(ch, answer[a], Rank(via, a) + 1); }
    }
  }

  /** Parents come before children. */
  ghost predicate ParentsFirst(answer: seq<Node>, ch: Children) {
    forall u, b :: 0 <= b < |answer| && Edge(ch, u, answer[b]) ==> u in answer[..b]
  }

  lemma FifoParentsFirst(ch: Children, answer: seq<Node>, via: seq<int>)
    requires Fifo(ch, answer, via)
    ensures ParentsFirst(answer, ch)
  {
    forall u, b | 0 <= b < |answer| && Edge(ch, u, answer[b])
      ensures u in answer[..b]
    {
      var j :| 0 <= j < via[b] + 1 && answer[j] == u;
      assert answer[..b][j] == u;
    }
  }

  /** The child lists left once the items of done are gone. */
  ghost function Rest(start: Children, done: seq<Node>): Children {
    start - ToSet(done)
  }

  /**
   * The queue when the first n entries of answer have been removed from the graph:
   * exactly the queued items are parentless among the remaining ones.
   */
  ghost predicate Queued(items: set<Node>, start: Children, answer: seq<Node>, via: seq<int>, n: nat,
                         np: map<Node, int>) {
    && n <= |answer|
    && Distinct(answer)
    && (forall v :: v in answer ==> v in items)
    && np.Keys == items - ToSet(answer[..n])
    && (forall v :: v in np ==> (v in answer <==> np[v] == 0))
    && Fifo(start, answer, via)
    && (forall a :: 0 <= a < |via| ==> via[a] < n)
  }

  lemma RestOfAll(start: Children)
    ensures Rest(start, []) == start
  {
  }

  lemma InitialQueue(np: map<Node, int>, start: Children, answer: seq<Node>)
    requires Counted(np, start) && IsParentless(answer, np)
    ensures Queued(np.Keys, start, answer, seq(|answer|, _ => -1), 0, np)
  {
    forall a, u | 0 <= a < |answer| && Edge(start, u, answer[a])
      ensures false
    {
      assert answer[a] in answer;
      ArrivalsMembers(start, answer[a]);
    }
  }

  lemma DequeueQueue(items: set<Node>, start: Children, answer: seq<Node>, via: seq<int>, n: nat,
                     np: map<Node, int>)
    requires Queued(items, start, answer, via, n, np) && n < |answer|
    ensures answer[n] in np && np[answer[n]] == 0
    ensures Queued(items, start, answer, via, n + 1, np - {answer[n]})
    ensures Rest(start, answer[..n]) - {answer[n]} == Rest(start, answer[..n + 1])
  {
    var p := answer[n];
    assert ToSet(answer[..n + 1]) == ToSet(answer[..n]) + {p};
    assert p in answer && p !in answer[..n];
  }

  lemma DequeueStep(items: set<Node>, start: Children, answer: seq<Node>, via: seq<int>, n: nat,
                    np: map<Node, int>, ch: Children)
    requires Queued(items, start, answer, via, n, np) && n < |answer|
    requires ch == Rest(start, answer[..n]) && Counted(np, ch)
    ensures var p := answer[n];
            && p in np
            && |np.Keys - {p}| < |np.Keys|
            && Queued(items, start, answer, via, n + 1, np - {p})
            && ch - {p} == Rest(start, answer[..n + 1])
            && Draining(np - {p}, ch - {p}, if p in ch then ch[p] else [])
            && (p in ch ==> ch[p] == Kids(start, p))
  {
    var p := answer[n];
    assert Kids(ch, p) == if p in ch then ch[p] else [];
    assert p in ch ==> ch[p] == Kids(start, p);
    hide *;
    DequeueQueue(items, start, answer, via, n, np);
    StartDraining(np, ch, p);
    ProperSubset(np.Keys - {p}, np.Keys, p);
  }

  lemma CountDownStep(items: set<Node>, start: Children, answer: seq<Node>, via: seq<int>, n: nat,
                      np: map<Node, int>, c: Node)
    requires Queued(items, start, answer, via, n, np)
    requires c in np && np[c] > 1
    ensures Queued(items, start, answer, via, n, np[c := np[c] - 1])
  {
  }

  lemma AllParentsDone(start: Children, answer: seq<Node>, n: nat, np: map<Node, int>, pending: seq<Node>, c: Node)
    requires n <= |answer| && c in np && np[c] == 0
    requires Draining(np, Rest(start, answer[..n]), pending)
    ensures forall u :: Edge(start, u, c) ==> u in answer[..n]
  {
    var rest := Rest(start, answer[..n]);
    ArrivalsMembers(rest, c);
    forall u | Edge(start, u, c)
      ensures u in answer[..n]
    {
      assert u in answer[..n] || Edge(rest, u, c);
    }
  }

  lemma FifoAppend(start: Children, answer: seq<Node>, via: seq<int>, n: nat, c: Node)
    requires Fifo(start, answer, via) && 0 < n <= |answer|
    requires forall a :: 0 <= a < |via| ==> via[a] < n
    requires Edge(start, answer[n - 1], c)
    requires forall u :: Edge(start, u, c) ==> u in answer[..n]
    ensures Fifo(start, answer + [c], via + [n - 1])
  {
    var answer', via' := answer + [c], via + [n - 1];
    forall a, u | 0 <= a < |via'| && Edge(start, u, answer'[a])
      ensures u in answer'[..via'[a] + 1]
    {
      assert answer'[..via'[a] + 1] == answer[..via'[a] + 1];
    }
  }

  lemma EnqueueStep(items: set<Node>, start: Children, answer: seq<Node>, via: seq<int>, n: nat,
                    np: map<Node, int>, c: Node)
    requires Queued(items, start, answer, via, n, np) && n > 0
    requires c in np && np[c] == 1
    requires Fifo(start, answer + [c], via + [n - 1])
    ensures Queued(items, start, answer + [c], via + [n - 1], n, np[c := 0])
  {
    assert (answer + [c])[..n] == answer[..n];
    assert c !in answer;
  }

  /** The items queued for the first j entries of the last dequeued item's child list. */
  ghost predicate QueuedSoFar(ch: Children, answer: seq<Node>, via: seq<int>, n: nat, kids: seq<Node>, j: nat) {
    && SiblingsInOrder(ch, answer, via)
    && forall a :: 0 <= a < |via| && via[a] == n - 1 ==> LastIndex(kids, answer[a]) < j
  }

  lemma {:induction false} LastEntry(s: seq<Node>, j: nat)
    requires j < |s| && s[j] !in s[j + 1..]
    ensures LastIndex(s, s[j]) == j
    decreases |s|
  {
    if j < |s| - 1 {
      var front := s[..|s| - 1];
      assert s[j + 1..][|s| - 2 - j] == s[|s| - 1];
      assert front[j + 1..] == s[j + 1..][..|s| - 2 - j];
      LastEntry(front, j);
    }
  }

  /** A child whose count has run out is not listed any more. */
  lemma NotPending(np: map<Node, int>, rest: Children, pending: seq<Node>, c: Node)
    requires Draining(np, rest, pending) && c in np && np[c] == 0
    ensures c !in pending
  {
    assert multiset(pending)[c] == 0;
  }

  lemma NothingQueued(ch: Children, answer: seq<Node>, via: seq<int>, n: nat, kids: seq<Node>)
    requires SiblingsInOrder(ch, answer, via) && forall a :: 0 <= a < |via| ==> via[a] < n - 1
    ensures QueuedSoFar(ch, answer, via, n, kids, 0)
  {
  }

  lemma NotQueuedNow(ch: Children, answer: seq<Node>, via: seq<int>, n: nat, kids: seq<Node>, j: nat)
    requires QueuedSoFar(ch, answer, via, n, kids, j)
    ensures QueuedSoFar(ch, answer, via, n, kids, j + 1) && SiblingsInOrder(ch, answer, via)
  {
  }

  lemma QueuedNow(ch: Children, answer: seq<Node>, via: seq<int>, n: nat, kids: seq<Node>, j: nat)
    requires QueuedSoFar(ch, answer, via, n, kids, j) && 0 < n <= |answer|
    requires forall a :: 0 <= a < |via| ==> via[a] < n
    requires j < |kids| && kids == Kids(ch, answer[n - 1]) && kids[j] !in kids[j + 1..]
    ensures QueuedSoFar(ch, answer + [kids[j]], via + [n - 1], n, kids, j + 1)
  {
    hide LastIndex, Kids;
    LastEntry(kids, j);
    var answer', via' := answer + [kids[j]], via + [n - 1];
    forall a, b | 0 <= a < b < |via'| && via'[a] == via'[b] >= 0
      ensures LastIndex(Kids(ch, answer'[via'[a]]), answer'[a]) < LastIndex(Kids(ch, answer'[via'[a]]), answer'[b])
    {
      assert answer'[via'[a]] == answer[via'[a]] && answer'[a] == answer[a];
    }
  }

  lemma ViaBounds(items: set<Node>, start: Children, answer: seq<Node>, via: seq<int>, n: nat, np: map<Node, int>)
    requires Queued(items, start, answer, via, n, np)
    ensures forall a :: 0 <= a < |via| ==> via[a] < n
    ensures Fifo(start, answer, via) && |via| == |answer|
  {
  }

  lemma RootsOnly(start: Children, answer: seq<Node>)
    ensures SiblingsInOrder(start, answer, seq(|answer|, _ => -1))
  {
  }

  /**
   * One count taken off child c of answer[n - 1]; c joins the queue when none is left.
   */
  lemma KnockDownStep(items: set<Node>, start: Children, answer: seq<Node>, via: seq<int>, n: nat,
                      np: map<Node, int>, c: Node, pending: seq<Node>)
    requires Queued(items, start, answer, via, n, np) && 0 < n <= |answer|
    requires Draining(np, Rest(start, answer[..n]), [c] + pending)
    requires Edge(start, answer[n - 1], c)
    ensures c in np && np[c] > 0
    ensures var np' := np[c := np[c] - 1];
            && Draining(np', Rest(start, answer[..n]), pending)
            && (np'[c] == 0 ==> Queued(items, start, answer + [c], via + [n - 1], n, np'))
            && (np'[c] != 0 ==> Queued(items, start, answer, via, n, np'))
  {
    DrainStep(np, Rest(start, answer[..n]), c, pending);
    if np[c] == 1 {
      AllParentsDone(start, answer, n, np[c := 0], pending, c);
      FifoAppend(start, answer, via, n, c);
      EnqueueStep(items, start, answer, via, n, np, c);
    } else {
      CountDownStep(items, start, answer, via, n, np, c);
    }
  }

  /** The inner loop of the sort: work off the child list of answer[n - 1]. */
  method KnockDown(numParents: map<Node, int>, queue: seq<Node>, kids: seq<Node>,
                   ghost items: set<Node>, ghost start: Children, ghost via0: seq<int>, ghost n: nat)
    returns (np: map<Node, int>, answer: seq<Node>, ghost via: seq<int>)
    requires 0 < n <= |queue|
    requires Queued(items, start, queue, via0, n, numParents)
    requires Draining(numParents, Rest(start, queue[..n]), kids)
    requires kids == Kids(start, queue[n - 1])
    requires QueuedSoFar(start, queue, via0, n, kids, 0)
    ensures queue <= answer && np.Keys == numParents.Keys
    ensures Queued(items, start, answer, via, n, np)
    ensures SiblingsInOrder(start, answer, via)
    ensures Counted(np, Rest(start, queue[..n]))
  {
    hide *;
    np, answer, via := numParents, queue, via0;
    NotQueuedNow(start, queue, via0, n, kids, 0);
    for j := 0 to |kids|
      invariant queue <= answer && answer[..n] == queue[..n] && np.Keys == numParents.Keys
      invariant Queued(items, start, answer, via, n, np)
      invariant Draining(np, Rest(start, queue[..n]), kids[j..])
      invariant QueuedSoFar(start, answer, via, n, kids, j)
    {
      var child := kids[j];
      assert kids[j..] == [child] + kids[j + 1..];
      assert child in kids && answer[n - 1] == queue[n - 1];
      KidIsEdge(start, queue[n - 1], child);
      ViaBounds(items, start, answer, via, n, np);
      NotQueuedNow(start, answer, via, n, kids, j);
      KnockDownStep(items, start, answer, via, n, np, child, kids[j + 1..]);
      np := np[child := np[child] - 1];
      if np[child] == 0 {
        NotPending(np, Rest(start, queue[..n]), kids[j + 1..], child);
        QueuedNow(start, answer, via, n, kids, j);
        answer, via := answer + [child], via + [n - 1];
      }
    }
    NotQueuedNow(start, answer, via, n, kids, |kids|);
    assert kids[|kids|..] == [];
    DrainedIsCounted(np, Rest(start, queue[..n]));
  }

  lemma KidIsEdge(ch: Children, u: Node, v: Node)
    requires v in Kids(ch, u)
    ensures Edge(ch, u, v)
  {
  }

  /** What topsort returns or raises for a graph over items. */
  ghost predicate SortOutcome(r: SortResult, items: set<Node>, ch: Children) {
    && Distinct(r.answer)
    && (forall v :: v in r.answer <==> v in items && !FromCycle(ch, v))
    && ParentsFirst(r.answer, ch)
    && LevelOrdered(r.answer, ch)
    && QueueOrder(ch, r.answer)
    && (r.Sorted? <==> !HasCycle(ch))
    && (r.CycleError? ==> LeftoverOf(r.numParents, r.children, items, ch))
  }

  /** Every item left when the queue runs dry has a parent that is left, too. */
  lemma {:induction false} LeftoverIsDeep(np: map<Node, int>, rest: Children, start: Children, v: Node, k: nat)
    requires Counted(np, rest) && rest.Keys <= start.Keys
    requires forall u :: u in rest ==> rest[u] == start[u]
    requires forall x :: x in np ==> np[x] != 0
    requires v in np
    ensures Deep(start, v, k)
    decreases k
  {
    if k > 0 {
      ArrivalsMembers(rest, v);
      var u :| Edge(rest, u, v);
      LeftoverIsDeep(np, rest, start, u, k - 1);
      assert Edge(start, u, v);
    }
  }

  lemma DrainedQueue(items: set<Node>, start: Children, answer: seq<Node>, via: seq<int>, np: map<Node, int>,
                     ch: Children)
    requires start.Keys <= items
    requires Queued(items, start, answer, via, |answer|, np)
    requires ch == Rest(start, answer) && Counted(np, ch)
    ensures forall v :: v in answer <==> v in items && !FromCycle(start, v)
    ensures LeftoverOf(np, ch, items, start)
  {
    assert answer[..|answer|] == answer;
    assert forall v :: v in np ==> np[v] != 0;
    forall v | v in np
      ensures FromCycle(start, v)
    {
      LeftoverIsDeep(np, ch, start, v, |start.Keys| + 1);
      DeepMeansFromCycle(start, v);
    }
    FifoIsLevelOrdered(start, answer, via);
    forall v | v in answer
      ensures !FromCycle(start, v)
    {
      var a :| 0 <= a < |answer| && answer[a] == v;
    }
  }

  lemma SortFinished(items: set<Node>, start: Children, answer: seq<Node>, via: seq<int>, np: map<Node, int>,
                     ch: Children)
    requires start.Keys <= items
    requires Queued(items, start, answer, via, |answer|, np)
    requires SiblingsInOrder(start, answer, via)
    requires ch == Rest(start, answer) && Counted(np, ch)
    ensures SortOutcome(if np != map[] then CycleError(answer, np, ch) else Sorted(answer), items, start)
  {
    hide LevelOrdered, ParentsFirst, LeftoverOf, Counted, FromCycle, HasCycle, Fifo, SiblingsInOrder;
    ViaBounds(items, start, answer, via, |answer|, np);
    DrainedQueue(items, start, answer, via, np, ch);
    LeftoverIffCycle(np, ch, items, start);
    FifoIsLevelOrdered(start, answer, via);
    FifoParentsFirst(start, answer, via);
  }

  lemma BuiltGraph(pairs: Pairs, np: map<Node, int>, ch: Children)
    requires Built(pairs, np, ch)
    ensures np.Keys == Items(pairs) && ch == GraphOf(pairs) && Counted(np, ch) && ch.Keys <= np.Keys
  {
  }

  method Topsort(pairs: Pairs) returns (r: SortResult)
    ensures SortOutcome(r, Items(pairs), GraphOf(pairs))
  {
    hide *;
    var numParents, children := BuildGraph(pairs);
    ghost var items, start := numParents.Keys, children;
    BuiltGraph(pairs, numParents, children);
    var answer := Parentless(numParents);
    ghost var via: seq<int> := seq(|answer|, _ => -1);
    InitialQueue(numParents, start, answer);
    RootsOnly(start, answer);
    var i := 0;
    RestOfAll(start);
    while i < |answer|
      invariant i <= |answer|
      invariant Queued(items, start, answer, via, i, numParents)
      invariant children == Rest(start, answer[..i])
      invariant SiblingsInOrder(start, answer, via)
      invariant Counted(numParents, children)
      decreases |numParents.Keys|
    {
      var parent := answer[i];
      ViaBounds(items, start, answer, via, i, numParents);
      DequeueStep(items, start, answer, via, i, numParents, children);
      numParents := numParents - {parent};
      ghost var rest := children - {parent};
      if parent in children {
        ghost var queue := answer;
        NothingQueued(start, answer, via, i + 1, children[parent]);
        numParents, answer, via := KnockDown(numParents, answer, children[parent], items, start, via, i + 1);
        assert answer[..i + 1] == queue[..i + 1];
        children := children - {parent};
      } else {
        DrainedIsCounted(numParents, children - {parent});
        assert children - {parent} == children;
      }
      i := i + 1;
    }
    assert answer[..i] == answer;
    SortFinished(items, start, answer, via, numParents, children);
    r := if numParents != map[] then CycleError(answer, numParents, children) else Sorted(answer);
  }
}
