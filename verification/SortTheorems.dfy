/**
 * Theorems that tie the three algorithms of the dependency graph engine to each other.
 * They speak about any outcomes that meet the algorithms' contracts.
 */
module SortTheorems {
  import opened Sequences
  import opened DependencyGraph
  import opened Topsort
  import opened Rotation
  import opened FindCycles

  /** s is a concatenation of rearrangements of the given parts, in order. */
  ghost predicate ConcatOfPermutations(s: seq<Node>, parts: seq<seq<Node>>) {
    if parts == [] then s == [] else
      var n := |parts[0]|;
      n <= |s| && multiset(s[..n]) == multiset(parts[0]) && ConcatOfPermutations(s[n..], parts[1..])
  }

  lemma {:induction false} LevelExists(ch: Children, v: Node, j: nat) returns (k: nat)
    requires !Deep(ch, v, j)
    ensures AtLevel(ch, v, k)
  {
    if Deep(ch, v, j - 1) {
      k := j - 1;
    } else {
      k := LevelExists(ch, v, j - 1);
    }
  }

  lemma LevelOfSorted(ch: Children, v: Node) returns (k: nat)
    requires !FromCycle(ch, v)
    ensures AtLevel(ch, v, k)
  {
    FromCycleIffEndless(ch, v);
    var j: nat :| !Deep(ch, v, j);
    k := LevelExists(ch, v, j);
  }

  lemma LevelNotFromCycle(ch: Children, v: Node, k: nat)
    requires AtLevel(ch, v, k)
    ensures !FromCycle(ch, v)
  {
    if FromCycle(ch, v) { FromCycleIsDeep(ch, v, k + 1); }
  }

  /** v's level lies in [lo, hi). */
  ghost predicate LevelIn(ch: Children, v: Node, lo: nat, hi: nat) {
    exists k: nat :: lo <= k < hi && AtLevel(ch, v, k)
  }

  /** Tail of a level-ordered answer: what remains once the levels below base are cut off. */
  ghost predicate OrderedFrom(answer: seq<Node>, levels: seq<seq<Node>>, items: set<Node>, ch: Children, base: nat) {
    && Distinct(answer)
    && LevelOrdered(answer, ch)
    && (forall v :: v in answer <==> v in items && LevelIn(ch, v, base, base + |levels|))
    && (forall j :: 0 <= j < |levels| ==> Distinct(levels[j]))
    && (forall j, v :: 0 <= j < |levels| ==> (v in levels[j] <==> v in items && AtLevel(ch, v, base + j)))
  }

  /** The entries of the lowest level form a prefix. */
  lemma LowestPrefix(answer: seq<Node>, ch: Children, base: nat) returns (m: nat)
    requires LevelOrdered(answer, ch)
    requires forall v :: v in answer ==> exists k: nat :: base <= k && AtLevel(ch, v, k)
    ensures m <= |answer|
    ensures forall a :: 0 <= a < |answer| ==> (a < m <==> AtLevel(ch, answer[a], base))
  {
    m := 0;
    while m < |answer| && AtLevel(ch, answer[m], base)
      invariant m <= |answer|
      invariant forall a :: 0 <= a < m ==> AtLevel(ch, answer[a], base)
    {
      m := m + 1;
    }
    if m < |answer| {
      assert answer[m] in answer;
      var k: nat :| base <= k && AtLevel(ch, answer[m], k);
      forall b | m <= b < |answer|
        ensures !AtLevel(ch, answer[b], base)
      {
        assert AtLevel(ch, answer[b], base) ==> k <= base;
      }
    }
  }

  lemma LowestLevelFirst(answer: seq<Node>, levels: seq<seq<Node>>, items: set<Node>, ch: Children, base: nat)
    returns (m: nat)
    requires OrderedFrom(answer, levels, items, ch, base) && levels != []
    ensures m <= |answer|
    ensures forall a :: 0 <= a < |answer| ==> (a < m <==> AtLevel(ch, answer[a], base))
    ensures m == |levels[0]| && multiset(answer[..m]) == multiset(levels[0])
  {
    m := LowestPrefix(answer, ch, base);
    forall v
      ensures v in answer[..m] <==> v in levels[0]
    {
      if v in levels[0] {
        assert v in items && AtLevel(ch, v, base + 0);
        assert LevelIn(ch, v, base, base + |levels|);
        var a :| 0 <= a < |answer| && answer[a] == v;
        assert answer[..m][a] == v;
      }
      if v in answer[..m] {
        var a :| 0 <= a < m && answer[a] == v;
        assert v in answer;
        assert AtLevel(ch, v, base + 0);
        assert v in levels[0];
      }
    }
    assert ToSet(answer[..m]) == ToSet(levels[0]);
    SameElements(answer[..m], levels[0]);
  }

  lemma RestMembers(answer: seq<Node>, m: nat, items: set<Node>, ch: Children, base: nat, hi: nat, v: Node)
    requires m <= |answer| && Distinct(answer)
    requires forall x :: x in answer <==> x in items && LevelIn(ch, x, base, hi)
    requires forall a :: 0 <= a < |answer| ==> (a < m <==> AtLevel(ch, answer[a], base))
    ensures v in answer[m..] <==> v in items && LevelIn(ch, v, base + 1, hi)
  {
    if v in answer[m..] {
      var a :| m <= a < |answer| && answer[a] == v;
      assert v in answer;
      assert LevelIn(ch, v, base, hi);
      var k: nat :| base <= k < hi && AtLevel(ch, v, k);
      assert k != base;
    }
    if v in items && LevelIn(ch, v, base + 1, hi) {
      var k: nat :| base + 1 <= k < hi && AtLevel(ch, v, k);
      assert LevelIn(ch, v, base, hi);
      var a :| 0 <= a < |answer| && answer[a] == v;
      if a < m { LevelUnique(ch, v, base, k); }
      assert answer[m..][a - m] == v;
    }
  }

  lemma CutLowestLevel(answer: seq<Node>, levels: seq<seq<Node>>, items: set<Node>, ch: Children, base: nat, m: nat)
    requires OrderedFrom(answer, levels, items, ch, base) && levels != [] && m <= |answer|
    requires forall a :: 0 <= a < |answer| ==> (a < m <==> AtLevel(ch, answer[a], base))
    ensures OrderedFrom(answer[m..], levels[1..], items, ch, base + 1)
  {
    forall v
      ensures v in answer[m..] <==> v in items && LevelIn(ch, v, base + 1, base + |levels|)
    {
      RestMembers(answer, m, items, ch, base, base + |levels|, v);
    }
    forall j, v | 0 <= j < |levels[1..]|
      ensures v in levels[1..][j] <==> v in items && AtLevel(ch, v, base + 1 + j)
    {
      assert levels[1..][j] == levels[j + 1];
    }
    CutLevelOrdered(answer, ch, m);
  }

  lemma CutLevelOrdered(answer: seq<Node>, ch: Children, m: nat)
    requires LevelOrdered(answer, ch) && m <= |answer|
    ensures LevelOrdered(answer[m..], ch)
  {
    var rest := answer[m..];
    forall a, b, j: nat, k: nat |
      0 <= a <= b < |rest| && AtLevel(ch, rest[a], j) && AtLevel(ch, rest[b], k)
      ensures j <= k
    {
      assert AtLevel(ch, answer[m + a], j) && AtLevel(ch, answer[m + b], k);
    }
  }

  lemma SomeMember(s: seq<Node>)
    ensures s != [] ==> exists v :: v in s
  {
    if s != [] { assert s[0] in s; }
  }

  lemma {:induction false} OrderedConcatenates(answer: seq<Node>, levels: seq<seq<Node>>, items: set<Node>,
                                               ch: Children, base: nat)
    requires OrderedFrom(answer, levels, items, ch, base)
    ensures ConcatOfPermutations(answer, levels)
    decreases |levels|
  {
    if levels == [] {
      SomeMember(answer);
    } else {
      var m := LowestLevelFirst(answer, levels, items, ch, base);
      CutLowestLevel(answer, levels, items, ch, base, m);
      OrderedConcatenates(answer[m..], levels[1..], items, ch, base + 1);
    }
  }

  /**
   * The FIFO answer is the concatenation of rearrangements of exactly the levels that the
   * level-by-level sort yields, also when both end in an error.
   */
  lemma AnswerConcatenatesLevels(r: SortResult, levels: seq<seq<Node>>, end: LevelsEnd, items: set<Node>, ch: Children)
    requires SortOutcome(r, items, ch) && LevelsOutcome(levels, end, items, ch)
    ensures ConcatOfPermutations(r.answer, levels)
  {
    forall v
      ensures v in r.answer <==> v in items && LevelIn(ch, v, 0, 0 + |levels|)
    {
      if v in r.answer {
        var k := LevelOfSorted(ch, v);
        assert 0 <= k < |levels|;
      }
      if LevelIn(ch, v, 0, 0 + |levels|) {
        var k: nat :| 0 <= k < |levels| && AtLevel(ch, v, k);
        LevelNotFromCycle(ch, v, k);
      }
    }
    LevelsAsOrdered(r, levels, items, ch);
    OrderedConcatenates(r.answer, levels, items, ch, 0);
  }

  lemma LevelsAsOrdered(r: SortResult, levels: seq<seq<Node>>, items: set<Node>, ch: Children)
    requires Distinct(r.answer) && LevelOrdered(r.answer, ch) && LevelsOf(levels, items, ch)
    requires forall v :: v in r.answer <==> v in items && LevelIn(ch, v, 0, 0 + |levels|)
    ensures OrderedFrom(r.answer, levels, items, ch, 0)
  {
    forall j, v | 0 <= j < |levels|
      ensures v in levels[j] <==> v in items && AtLevel(ch, v, 0 + j)
    {
      var k: nat := j;
      assert k < |levels|;
    }
  }

  /** Both sorts stop with the same items, counts and child lists left over. */
  lemma SameLeftover(r: SortResult, levels: seq<seq<Node>>, end: LevelsEnd, items: set<Node>, ch: Children)
    requires SortOutcome(r, items, ch) && LevelsOutcome(levels, end, items, ch)
    ensures r.CycleError? <==> end.LevelsCycleError?
    ensures r.CycleError? ==> r.numParents == end.numParents && r.children == end.children
  {
    if r.CycleError? {
      SameLeftoverMaps(r.numParents, r.children, end.numParents, end.children, items, ch);
    }
  }

  lemma SameLeftoverMaps(np: map<Node, int>, rest: Children, np': map<Node, int>, rest': Children,
                         items: set<Node>, ch: Children)
    requires LeftoverOf(np, rest, items, ch) && LeftoverOf(np', rest', items, ch)
    ensures np == np' && rest == rest'
  {
    assert forall u :: u in rest <==> u in rest';
    assert rest == rest';
    assert forall v :: v in np <==> v in np';
  }

  /** Every left-over item has a left-over parent (it need not have a child). */
  lemma LeftoverHasLeftoverParent(np: map<Node, int>, rest: Children, items: set<Node>, ch: Children, v: Node)
    requires LeftoverOf(np, rest, items, ch) && ch.Keys <= items && v in np
    ensures exists u :: u in np && Edge(rest, u, v)
  {
    FromCycleIsDeep(ch, v, |ch.Keys| + 2);
    var u := DeepParent(ch, v, |ch.Keys| + 1);
    DeepMeansFromCycle(ch, u);
    assert Edge(rest, u, v);
  }

  /**
   * Everything left over has a child, as the sorts' comment has it, exactly when no item without
   * children is downstream of a cycle.
   */
  lemma LeftoverAllHaveChildrenIff(np: map<Node, int>, rest: Children, items: set<Node>, ch: Children)
    requires LeftoverOf(np, rest, items, ch)
    ensures (forall v :: v in np ==> Kids(rest, v) != []) <==>
            (forall v :: v in items && Kids(ch, v) == [] ==> !FromCycle(ch, v))
  {
    forall v | v in np
      ensures Kids(rest, v) == Kids(ch, v)
    {
    }
  }

  lemma TwoCycle(ch: Children, a: Node, b: Node)
    requires a != b && Edge(ch, a, b) && Edge(ch, b, a)
    ensures ElementaryCycle(ch, [a, b])
  {
  }

  /** The pairs (a, b), (b, a), (b, c): the childless c is left over, too. */
  lemma ChildlessLeftoverExample(a: Node, b: Node, c: Node, r: SortResult)
    requires a != b && a != c && b != c
    requires var pairs := [(a, b), (b, a), (b, c)]; SortOutcome(r, Items(pairs), GraphOf(pairs))
    ensures r.CycleError? && c in r.numParents && Kids(r.children, c) == []
  {
    hide Deep, AtLevel, LevelOrdered, ParentsFirst, Counted, Items;
    var pairs := [(a, b), (b, a), (b, c)];
    var ch := GraphOf(pairs);
    assert pairs[0] == (a, b) && pairs[1] == (b, a) && pairs[2] == (b, c);
    GraphOfEdges(pairs, a, b);
    GraphOfEdges(pairs, b, a);
    GraphOfEdges(pairs, b, c);
    TwoCycle(ch, a, b);
    assert PathBetween(ch, [a, b, c], a, c);
    assert Reaches(ch, [a, b][0], c) && FromCycle(ch, c);
    assert c in Items(pairs) by { InItems(pairs, 2); }
    assert c !in ParentsIn(pairs);
  }

  lemma InItems(pairs: Pairs, i: nat)
    requires i < |pairs|
    ensures pairs[i].0 in Items(pairs) && pairs[i].1 in Items(pairs)
  {
    assert pairs[i] in pairs;
  }

  // ---------- The answer is determined ----------

  ghost predicate IsRoot(ch: Children, v: Node) {
    forall u :: !Edge(ch, u, v)
  }

  /** The items without parents stand at the same places. */
  ghost predicate SameRoots(ch: Children, s: seq<Node>, t: seq<Node>) {
    |s| == |t| && forall a :: 0 <= a < |s| && (IsRoot(ch, s[a]) || IsRoot(ch, t[a])) ==> s[a] == t[a]
  }

  lemma NoLastParent(ch: Children, s: seq<Node>, via: seq<int>, a: nat)
    requires Fifo(ch, s, via) && a < |s| && via[a] < 0
    ensures IsRoot(ch, s[a])
  {
    assert via[a] == -1 && s[..0] == [];
  }

  lemma ParentAt(ch: Children, s: seq<Node>, via: seq<int>, a: nat, u: Node) returns (q: nat)
    requires Fifo(ch, s, via) && a < |s| && Edge(ch, u, s[a])
    ensures q <= via[a] < a && s[q] == u
  {
    assert u in s[..via[a] + 1];
    q :| 0 <= q < via[a] + 1 && s[q] == u;
  }

  /** An item's last parent is found at the same place in both answers. */
  lemma SameLastParent(ch: Children, s: seq<Node>, vs: seq<int>, t: seq<Node>, vt: seq<int>, k: nat, m: nat)
    requires Fifo(ch, s, vs) && Fifo(ch, t, vt) && Distinct(s) && Distinct(t)
    requires k < |s| && m < |t| && s[k] == t[m] && k <= |t| && s[..k] == t[..k] && vs[k] >= 0
    ensures vt[m] == vs[k]
  {
    hide IsPath, Deep;
    var i := vs[k];
    ViaIsParent(ch, s, vs, k);
    assert s[..k][i] == t[..k][i];
    var q := ParentAt(ch, t, vt, m, s[i]);
    assert t[q] == t[i];
    ViaIsParent(ch, t, vt, m);
    var p := ParentAt(ch, s, vs, k, t[vt[m]]);
    assert s[..k][p] == t[..k][p];
  }

  lemma PlaceOf(s: seq<Node>, t: seq<Node>, k: nat) returns (m: nat)
    requires Distinct(s) && k < |s| && k < |t| && s[..k] == t[..k] && s[k] != t[k]
    requires forall v :: v in s ==> v in t
    ensures k < m < |t| && t[m] == s[k]
  {
    forall i | 0 <= i < k
      ensures s[i] == t[i]
    {
      SamePlace(s, t, k, i);
    }
    assert s[k] in s;
    m :| 0 <= m < |t| && t[m] == s[k];
  }

  lemma SamePlace(s: seq<Node>, t: seq<Node>, k: nat, i: nat)
    requires i < k <= |s| && k <= |t| && s[..k] == t[..k]
    ensures s[i] == t[i]
  {
    assert s[..k][i] == t[..k][i];
  }

  lemma LaterSibling(ch: Children, s: seq<Node>, via: seq<int>, a: nat, b: nat)
    requires Fifo(ch, s, via) && SiblingsInOrder(ch, s, via) && a < b < |s| && 0 <= via[b] <= via[a]
    ensures via[a] == via[b]
    ensures LastIndex(Kids(ch, s[via[a]]), s[a]) < LastIndex(Kids(ch, s[via[a]]), s[b])
  {
  }

  lemma SameNext(ch: Children, s: seq<Node>, vs: seq<int>, t: seq<Node>, vt: seq<int>, k: nat)
    requires Fifo(ch, s, vs) && Fifo(ch, t, vt) && SiblingsInOrder(ch, s, vs) && SiblingsInOrder(ch, t, vt)
    requires Distinct(s) && Distinct(t) && SameRoots(ch, s, t) && forall v :: v in s <==> v in t
    requires k < |s| && s[..k] == t[..k]
    ensures s[k] == t[k]
  {
    hide LastIndex, IsRoot, Edge;
    if s[k] != t[k] {
      if vs[k] < 0 { NoLastParent(ch, s, vs, k); }
      if vt[k] < 0 { NoLastParent(ch, t, vt, k); }
      var m := PlaceOf(s, t, k);
      var l := PlaceOf(t, s, k);
      SameLastParent(ch, s, vs, t, vt, k, m);
      SameLastParent(ch, t, vt, s, vs, k, l);
      SamePlace(s, t, k, vs[k]);
      LaterSibling(ch, s, vs, k, l);
      LaterSibling(ch, t, vt, k, m);
    }
  }

  lemma {:induction false} SamePrefixes(ch: Children, s: seq<Node>, vs: seq<int>, t: seq<Node>, vt: seq<int>, n: nat)
    requires Fifo(ch, s, vs) && Fifo(ch, t, vt) && SiblingsInOrder(ch, s, vs) && SiblingsInOrder(ch, t, vt)
    requires Distinct(s) && Distinct(t) && SameRoots(ch, s, t) && forall v :: v in s <==> v in t
    requires n <= |s|
    ensures s[..n] == t[..n]
    decreases n
  {
    hide Fifo, SiblingsInOrder;
    if n > 0 {
      SamePrefixes(ch, s, vs, t, vt, n - 1);
      SameNext(ch, s, vs, t, vt, n - 1);
    }
  }

  /** The order of the items without parents fixes the whole answer. */
  lemma AnswerDetermined(r: SortResult, q: SortResult, items: set<Node>, ch: Children)
    requires SortOutcome(r, items, ch) && SortOutcome(q, items, ch) && SameRoots(ch, r.answer, q.answer)
    ensures r.answer == q.answer
  {
    hide Fifo, SiblingsInOrder, SameRoots, LevelOrdered, ParentsFirst, LeftoverOf;
    var s, t := r.answer, q.answer;
    var vs :| Fifo(ch, s, vs) && SiblingsInOrder(ch, s, vs);
    var vt :| Fifo(ch, t, vt) && SiblingsInOrder(ch, t, vt);
    SamePrefixes(ch, s, vs, t, vt, |s|);
    SameLength(ch, s, t);
    assert s[..|s|] == s && t[..|t|] == t;
  }

  lemma SameLength(ch: Children, s: seq<Node>, t: seq<Node>)
    requires SameRoots(ch, s, t)
    ensures |s| == |t|
  {
  }

  /** A list in queue order of exactly the sorted items is the answer, up to the order of the roots. */
  lemma AnswerIs(r: SortResult, items: set<Node>, ch: Children, s: seq<Node>, via: seq<int>)
    requires SortOutcome(r, items, ch)
    requires Distinct(s) && Fifo(ch, s, via) && SiblingsInOrder(ch, s, via)
    requires ToSet(s) == items && ch.Keys <= items && SameRoots(ch, s, r.answer)
    ensures r == Sorted(s)
  {
    hide Fifo, SiblingsInOrder, SameRoots, LevelOrdered, ParentsFirst, LeftoverOf, Distinct, AtLevel;
    FifoIsLevelOrdered(ch, s, via);
    forall v
      ensures v in s <==> v in r.answer
    {
      assert v in s <==> v in ToSet(s);
    }
    var t := r.answer;
    var vt :| Fifo(ch, t, vt) && SiblingsInOrder(ch, t, vt);
    SamePrefixes(ch, s, via, t, vt, |s|);
    SameLength(ch, s, t);
    assert s[..|s|] == s && t[..|t|] == t;
    if HasCycle(ch) {
      var c :| ElementaryCycle(ch, c);
      CycleNodeFromCycle(ch, c);
    }
  }

  // ---------- The first example of the source's documentation ----------

  function FirstExample(n: seq<Node>): Pairs
    requires |n| == 7
  {
    [(n[1], n[2]), (n[3], n[4]), (n[5], n[6]), (n[1], n[3]), (n[1], n[5]), (n[1], n[6]), (n[2], n[5])]
  }

  lemma SevenChildren(pairs: Pairs, u: Node)
    requires |pairs| == 7
    ensures ChildrenOf(pairs, u) ==
            (if pairs[0].0 == u then [pairs[0].1] else []) + (if pairs[1].0 == u then [pairs[1].1] else []) +
            (if pairs[2].0 == u then [pairs[2].1] else []) + (if pairs[3].0 == u then [pairs[3].1] else []) +
            (if pairs[4].0 == u then [pairs[4].1] else []) + (if pairs[5].0 == u then [pairs[5].1] else []) +
            (if pairs[6].0 == u then [pairs[6].1] else [])
  {
    assert pairs[..7] == pairs;
    assert pairs[..7][..6] == pairs[..6] && pairs[..6][..5] == pairs[..5] && pairs[..5][..4] == pairs[..4];
    assert pairs[..4][..3] == pairs[..3] && pairs[..3][..2] == pairs[..2] && pairs[..2][..1] == pairs[..1];
    assert pairs[..1][..0] == [] && ChildrenOf([], u) == [];
    assert ChildrenOf(pairs[..1], u) == if pairs[0].0 == u then [pairs[0].1] else [];
    assert ChildrenOf(pairs[..2], u) == ChildrenOf(pairs[..1], u) + if pairs[1].0 == u then [pairs[1].1] else [];
    assert ChildrenOf(pairs[..3], u) == ChildrenOf(pairs[..2], u) + if pairs[2].0 == u then [pairs[2].1] else [];
    assert ChildrenOf(pairs[..4], u) == ChildrenOf(pairs[..3], u) + if pairs[3].0 == u then [pairs[3].1] else [];
    assert ChildrenOf(pairs[..5], u) == ChildrenOf(pairs[..4], u) + if pairs[4].0 == u then [pairs[4].1] else [];
    assert ChildrenOf(pairs[..6], u) == ChildrenOf(pairs[..5], u) + if pairs[5].0 == u then [pairs[5].1] else [];
  }

  lemma FirstExampleChildren(n: seq<Node>)
    requires |n| == 7 && Distinct(n)
    ensures var pairs := FirstExample(n);
            && ChildrenOf(pairs, n[1]) == [n[2], n[3], n[5], n[6]]
            && ChildrenOf(pairs, n[2]) == [n[5]] && ChildrenOf(pairs, n[3]) == [n[4]] && ChildrenOf(pairs, n[5]) == [n[6]]
  {
    hide ChildrenOf;
    var pairs := FirstExample(n);
    SevenChildren(pairs, n[1]);
    SevenChildren(pairs, n[2]);
    SevenChildren(pairs, n[3]);
    SevenChildren(pairs, n[5]);
  }

  lemma SevenPairs(pairs: Pairs)
    requires |pairs| == 7
    ensures ParentsIn(pairs) == {pairs[0].0, pairs[1].0, pairs[2].0, pairs[3].0, pairs[4].0, pairs[5].0, pairs[6].0}
    ensures Items(pairs) == ParentsIn(pairs) +
            {pairs[0].1, pairs[1].1, pairs[2].1, pairs[3].1, pairs[4].1, pairs[5].1, pairs[6].1}
  {
  }

  lemma FirstExampleItems(n: seq<Node>)
    requires |n| == 7
    ensures ParentsIn(FirstExample(n)) == {n[1], n[2], n[3], n[5]}
    ensures Items(FirstExample(n)) == {n[1], n[2], n[3], n[4], n[5], n[6]}
  {
    hide Items, ParentsIn;
    SevenPairs(FirstExample(n));
  }

  lemma FirstExampleGraph(n: seq<Node>)
    requires |n| == 7 && Distinct(n)
    ensures GraphOf(FirstExample(n)) ==
            map[n[1] := [n[2], n[3], n[5], n[6]], n[2] := [n[5]], n[3] := [n[4]], n[5] := [n[6]]]
  {
    hide ChildrenOf, ParentsIn, FirstExample;
    FirstExampleChildren(n);
    FirstExampleItems(n);
  }

  /** The graph of the example, with its answer and the place of every item's last parent. */
  ghost predicate ExampleOrder(ch: Children, n: seq<Node>, s: seq<Node>, via: seq<int>)
    requires |n| == 7
  {
    && ch == map[n[1] := [n[2], n[3], n[5], n[6]], n[2] := [n[5]], n[3] := [n[4]], n[5] := [n[6]]]
    && s == [n[1], n[2], n[3], n[5], n[4], n[6]]
    && via == [-1, 0, 0, 1, 2, 3]
  }

  lemma ExampleParents(ch: Children, n: seq<Node>, s: seq<Node>, via: seq<int>, a: nat, u: Node)
    requires |n| == 7 && Distinct(n) && ExampleOrder(ch, n, s, via) && a < 6 && Edge(ch, u, s[a])
    ensures via[a] >= 0 && u in s[..via[a] + 1]
  {
    if a == 0 {
    } else if a == 1 || a == 2 {
      assert u == s[0];
    } else if a == 3 {
      assert u == s[0] || u == s[1];
      assert s[..2] == [s[0], s[1]];
    } else if a == 4 {
      assert u == s[2];
      assert s[..3] == [s[0], s[1], s[2]];
    } else {
      assert u == s[0] || u == s[3];
      assert s[..4] == [s[0], s[1], s[2], s[3]];
    }
  }

  lemma ExampleFifo(ch: Children, n: seq<Node>, s: seq<Node>, via: seq<int>)
    requires |n| == 7 && Distinct(n) && ExampleOrder(ch, n, s, via)
    ensures Fifo(ch, s, via)
  {
    forall a, u | 0 <= a < |via| && Edge(ch, u, s[a])
      ensures u in s[..via[a] + 1]
    {
      ExampleParents(ch, n, s, via, a, u);
    }
  }

  lemma LastOf(s: seq<Node>, j: nat)
    requires j < |s| && Distinct(s)
    ensures LastIndex(s, s[j]) == j
  {
    assert s[j] !in s[j + 1..];
    LastEntry(s, j);
  }

  lemma ExampleSiblings(ch: Children, n: seq<Node>, s: seq<Node>, via: seq<int>)
    requires |n| == 7 && Distinct(n) && ExampleOrder(ch, n, s, via)
    ensures SiblingsInOrder(ch, s, via)
  {
    hide LastIndex;
    LastOf(ch[n[1]], 0);
    LastOf(ch[n[1]], 1);
    forall a, b | 0 <= a < b < |via| && via[a] == via[b] >= 0
      ensures a == 1 && b == 2
    {
    }
  }

  lemma OnlyRoot(ch: Children, n: seq<Node>, s: seq<Node>, via: seq<int>, v: Node)
    requires |n| == 7 && Distinct(n) && ExampleOrder(ch, n, s, via) && IsRoot(ch, v) && v in s
    ensures v == s[0]
  {
    assert Edge(ch, n[1], n[2]) && Edge(ch, n[1], n[3]) && Edge(ch, n[1], n[5]) && Edge(ch, n[1], n[6]);
    assert Edge(ch, n[3], n[4]);
  }

  /** Without cycles, every item is sorted. */
  lemma AllSorted(r: SortResult, s: seq<Node>, via: seq<int>, ch: Children)
    requires Distinct(s) && Fifo(ch, s, via) && SortOutcome(r, ToSet(s), ch)
    ensures |r.answer| == |s| && Distinct(r.answer) && (forall v :: v in s <==> v in r.answer) && ParentsFirst(r.answer, ch)
  {
    hide Fifo, LevelOrdered, LeftoverOf, QueueOrder, FromCycle, HasCycle, ParentsFirst;
    FifoIsLevelOrdered(ch, s, via);
    forall v
      ensures v in s <==> v in r.answer
    {
      assert v in s <==> v in ToSet(s);
    }
    assert ToSet(s) == ToSet(r.answer);
    SameElements(s, r.answer);
  }

  lemma ExampleRoots(ch: Children, n: seq<Node>, s: seq<Node>, via: seq<int>, r: SortResult)
    requires |n| == 7 && Distinct(n) && ExampleOrder(ch, n, s, via) && Fifo(ch, s, via)
    requires SortOutcome(r, ToSet(s), ch)
    ensures SameRoots(ch, s, r.answer)
  {
    hide Fifo, SortOutcome, IsRoot, Edge, ParentsFirst;
    var t := r.answer;
    AllSorted(r, s, via, ch);
    FirstIsRoot(ch, t);
    forall a | 0 <= a < |s|
      ensures IsRoot(ch, s[a]) || IsRoot(ch, t[a]) ==> s[a] == t[a]
    {
      OnlyRootAt(ch, n, s, via, t, a);
    }
  }

  lemma OnlyRootAt(ch: Children, n: seq<Node>, s: seq<Node>, via: seq<int>, t: seq<Node>, a: nat)
    requires |n| == 7 && Distinct(n) && ExampleOrder(ch, n, s, via)
    requires |t| == |s| && Distinct(t) && (forall v :: v in s <==> v in t) && IsRoot(ch, t[0]) && a < |s|
    ensures IsRoot(ch, s[a]) || IsRoot(ch, t[a]) ==> s[a] == t[a]
  {
    hide IsRoot;
    assert t[0] in t && t[a] in t && s[a] in s;
    OnlyRoot(ch, n, s, via, t[0]);
    if IsRoot(ch, s[a]) { OnlyRoot(ch, n, s, via, s[a]); }
    if IsRoot(ch, t[a]) { OnlyRoot(ch, n, s, via, t[a]); }
  }

  lemma FirstIsRoot(ch: Children, t: seq<Node>)
    requires ParentsFirst(t, ch) && t != []
    ensures IsRoot(ch, t[0])
  {
    assert t[..0] == [];
  }

  /** topsort on the seven pairs gives [1, 2, 3, 5, 4, 6]. */
  lemma FirstExampleAnswer(n: seq<Node>, r: SortResult)
    requires |n| == 7 && Distinct(n)
    requires SortOutcome(r, Items(FirstExample(n)), GraphOf(FirstExample(n)))
    ensures r == Sorted([n[1], n[2], n[3], n[5], n[4], n[6]])
  {
    hide Fifo, SiblingsInOrder, FirstExample, GraphOf, Items, SortOutcome;
    var ch := GraphOf(FirstExample(n));
    var s, via := [n[1], n[2], n[3], n[5], n[4], n[6]], [-1, 0, 0, 1, 2, 3];
    FirstExampleGraph(n);
    FirstExampleItems(n);
    ExampleFifo(ch, n, s, via);
    ExampleSiblings(ch, n, s, via);
    assert ToSet(s) == Items(FirstExample(n));
    ExampleRoots(ch, n, s, via, r);
    AnswerIs(r, Items(FirstExample(n)), ch, s, via);
  }

  // ---------- The sorts and the cycle enumeration ----------

  lemma SameEdgesSameCycle(ch: Children, other: Children, c: seq<Node>)
    requires forall u, v :: Edge(ch, u, v) <==> Edge(other, u, v)
    requires ElementaryCycle(ch, c)
    ensures ElementaryCycle(other, c)
  {
  }

  /**
   * topsort raises CycleError exactly when find_cycles yields something on the same edges,
   * however the child collections repeat or order them.
   */
  lemma RaisesIffCyclesFound(pairs: Pairs, r: SortResult, other: Children, cycles: seq<seq<Node>>)
    requires SortOutcome(r, Items(pairs), GraphOf(pairs))
    requires forall u, v :: Edge(other, u, v) <==> (u, v) in pairs
    requires CyclesSound(other, cycles) && CyclesComplete(other, cycles)
    ensures r.CycleError? <==> cycles != []
  {
    var ch := GraphOf(pairs);
    forall u, v
      ensures Edge(ch, u, v) <==> Edge(other, u, v)
    {
      GraphOfEdges(pairs, u, v);
    }
    if r.CycleError? {
      var c :| ElementaryCycle(ch, c);
      SameEdgesSameCycle(ch, other, c);
      assert Found(cycles, c);
    }
    if cycles != [] {
      SameEdgesSameCycle(other, ch, cycles[0]);
    }
  }

  /** The items that stop the sort are exactly those that some yielded cycle leads to. */
  lemma LeftoverIsDownstreamOfFound(r: SortResult, items: set<Node>, ch: Children, cycles: seq<seq<Node>>, v: Node)
    requires SortOutcome(r, items, ch) && CyclesSound(ch, cycles) && CyclesComplete(ch, cycles)
    requires r.CycleError? && v in items
    ensures v in r.numParents <==> exists i :: 0 <= i < |cycles| && Reaches(ch, cycles[i][0], v)
  {
    if v in r.numParents {
      var c :| ElementaryCycle(ch, c) && Reaches(ch, c[0], v);
      assert Found(cycles, c);
      var i :| 0 <= i < |cycles| && Rotated(cycles[i], c);
      AlongCycle(ch, cycles[i], c);
      ReachesTransitive(ch, cycles[i][0], c[0], v);
    }
  }

  lemma AlongCycle(ch: Children, c: seq<Node>, d: seq<Node>)
    requires ElementaryCycle(ch, c) && Rotated(c, d)
    ensures Reaches(ch, c[0], d[0])
  {
    var k: nat :| RotatedBy(c, d, k);
    SubPath(ch, c, 0, k + 1);
    assert PathBetween(ch, c[0..k + 1], c[0], d[0]);
  }

  /** Which cycles are yielded, and how many, does not depend on the dictionary order. */
  lemma SameCycles(ch: Children, cycles: seq<seq<Node>>, others: seq<seq<Node>>)
    requires CyclesSound(ch, cycles) && CyclesComplete(ch, cycles)
    requires CyclesSound(ch, others) && CyclesComplete(ch, others)
    ensures |cycles| == |others|
    ensures forall i :: 0 <= i < |cycles| ==> Found(others, cycles[i])
  {
    NoMoreCycles(ch, cycles, others);
    NoMoreCycles(ch, others, cycles);
  }

  lemma NoMoreCycles(ch: Children, cycles: seq<seq<Node>>, others: seq<seq<Node>>)
    requires CyclesSound(ch, cycles) && CyclesComplete(ch, others)
    ensures |cycles| <= |others|
    ensures forall i :: 0 <= i < |cycles| ==> Found(others, cycles[i])
  {
    var partner: seq<int> := [];
    while |partner| < |cycles|
      invariant |partner| <= |cycles|
      invariant forall i :: 0 <= i < |partner| ==> 0 <= partner[i] < |others| && Rotated(others[partner[i]], cycles[i])
    {
      assert Found(others, cycles[|partner|]);
      var j :| 0 <= j < |others| && Rotated(others[j], cycles[|partner|]);
      partner := partner + [j];
    }
    forall i, j | 0 <= i < j < |partner|
      ensures partner[i] != partner[j]
    {
      if partner[i] == partner[j] {
        RotatedSymmetric(others[partner[i]], cycles[i]);
        RotatedTransitive(cycles[i], others[partner[i]], cycles[j]);
      }
    }
    if |partner| > |others| { Pigeonhole(partner, Slots(|others|)); }
  }

  ghost function Slots(n: nat): (slots: set<int>)
    ensures |slots| == n
    ensures forall j :: j in slots <==> 0 <= j < n
  {
    if n == 0 then {} else Slots(n - 1) + {n - 1}
  }
}
