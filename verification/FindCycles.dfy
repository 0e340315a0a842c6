/** Enumeration of all elementary cycles with a stack of simple paths. */
module FindCycles {
  import opened Sequences
  import opened DependencyGraph
  import opened Rotation

  // ---------- The result ----------

  ghost predicate Found(cycles: seq<seq<Node>>, c: seq<Node>) {
    exists i :: 0 <= i < |cycles| && Rotated(cycles[i], c)
  }

  /** Every list is an elementary cycle, and no two are rotations of each other. */
  ghost predicate CyclesSound(ch: Children, cycles: seq<seq<Node>>) {
    && (forall i :: 0 <= i < |cycles| ==> ElementaryCycle(ch, cycles[i]))
    && (forall i, j :: 0 <= i < |cycles| && 0 <= j < |cycles| && i != j ==> !Rotated(cycles[i], cycles[j]))
  }

  /** Every elementary cycle is listed, up to rotation. */
  ghost predicate CyclesComplete(ch: Children, cycles: seq<seq<Node>>) {
    forall c :: ElementaryCycle(ch, c) ==> Found(cycles, c)
  }

  lemma FoundLonger(cycles: seq<seq<Node>>, more: seq<seq<Node>>, c: seq<Node>)
    requires Found(cycles, c) && cycles <= more
    ensures Found(more, c)
  {
    var i :| 0 <= i < |cycles| && Rotated(cycles[i], c);
    assert more[i] == cycles[i];
  }

  lemma FoundRotation(cycles: seq<seq<Node>>, c: seq<Node>, d: seq<Node>)
    requires Found(cycles, c) && Rotated(c, d)
    ensures Found(cycles, d)
  {
    var i :| 0 <= i < |cycles| && Rotated(cycles[i], c);
    RotatedTransitive(cycles[i], c, d);
  }

  // ---------- Simple paths from a root and their weight ----------

  ghost function Universe(ch: Children): set<Node> {
    ch.Keys + set u, v | u in ch && v in ch[u] :: v
  }

  ghost predicate SimpleFrom(ch: Children, root: Node, p: seq<Node>) {
    IsPath(ch, p) && Distinct(p) && p[0] == root
  }

  ghost predicate Within(p: seq<Node>, pool: set<Node>) {
    Distinct(p) && forall x :: x in p ==> x in pool
  }

  lemma WithinBound(p: seq<Node>, pool: set<Node>)
    requires Within(p, pool)
    ensures |p| <= |pool|
  {
    if |p| > |pool| { Pigeonhole(p, pool); }
  }

  lemma WithinExtend(p: seq<Node>, c: Node, pool: set<Node>)
    requires Within(p, pool) && c in pool && c !in p
    ensures Within(p + [c], pool) && |p| < |pool|
  {
    WithinBound(p + [c], pool);
  }

  lemma KidsInUniverse(ch: Children, u: Node, c: Node)
    requires c in Kids(ch, u)
    ensures c in Universe(ch)
  {
  }

  /** How many paths are still going to be popped below path, when kids are its children to try. */
  ghost function WeightBelow(ch: Children, path: seq<Node>, kids: seq<Node>): nat
    requires Within(path, Universe(ch)) && forall c :: c in kids ==> c in Universe(ch)
    decreases |Universe(ch)| - |path|, |kids|
  {
    if kids == [] then 0 else
      var c := kids[0];
      WeightBelow(ch, path, kids[1..]) +
      if c in path then 0 else
        (WithinExtend(path, c, Universe(ch));
         1 + WeightBelow(ch, path + [c], Kids(ch, c)))
  }

  ghost predicate StackOk(ch: Children, paths: seq<seq<Node>>) {
    forall i :: 0 <= i < |paths| ==> paths[i] != [] && Within(paths[i], Universe(ch))
  }

  /** The paths pushed for the children that are not on the path yet. */
  ghost function Extensions(path: seq<Node>, kids: seq<Node>): seq<seq<Node>> {
    if kids == [] then [] else
      (if kids[0] in path then [] else [path + [kids[0]]]) + Extensions(path, kids[1..])
  }

  lemma {:induction false} ExtensionsMembers(path: seq<Node>, kids: seq<Node>, p: seq<Node>)
    ensures p in Extensions(path, kids) <==> exists c :: c in kids && c !in path && p == path + [c]
  {
    if kids != [] {
      ExtensionsMembers(path, kids[1..], p);
      assert forall c :: c in kids <==> c == kids[0] || c in kids[1..];
    }
  }

  lemma KidsWithin(ch: Children, u: Node)
    ensures forall c :: c in Kids(ch, u) ==> c in Universe(ch)
  {
  }

  ghost function PathWeight(ch: Children, p: seq<Node>): nat
    requires p != [] && Within(p, Universe(ch))
  {
    KidsWithin(ch, Last(p));
    1 + WeightBelow(ch, p, Kids(ch, Last(p)))
  }

  ghost function StackWeight(ch: Children, paths: seq<seq<Node>>): nat
    requires StackOk(ch, paths)
  {
    if paths == [] then 0 else
      StackWeight(ch, paths[..|paths| - 1]) + PathWeight(ch, paths[|paths| - 1])
  }

  lemma PushOne(ch: Children, paths: seq<seq<Node>>, p: seq<Node>)
    requires StackOk(ch, paths) && p != [] && Within(p, Universe(ch))
    ensures StackOk(ch, paths + [p])
    ensures StackWeight(ch, paths + [p]) == StackWeight(ch, paths) + PathWeight(ch, p)
  {
    assert (paths + [p])[..|paths|] == paths;
  }

  lemma WeightBelowSkip(ch: Children, path: seq<Node>, kids: seq<Node>)
    requires kids != [] && kids[0] in path && Within(path, Universe(ch))
    requires forall c :: c in kids ==> c in Universe(ch)
    ensures WeightBelow(ch, path, kids) == WeightBelow(ch, path, kids[1..])
    ensures Extensions(path, kids) == Extensions(path, kids[1..])
  {
  }

  lemma WeightBelowTake(ch: Children, path: seq<Node>, kids: seq<Node>)
    requires kids != [] && kids[0] !in path && Within(path, Universe(ch))
    requires forall c :: c in kids ==> c in Universe(ch)
    ensures Within(path + [kids[0]], Universe(ch))
    ensures Extensions(path, kids) == [path + [kids[0]]] + Extensions(path, kids[1..])
    ensures WeightBelow(ch, path, kids) == PathWeight(ch, path + [kids[0]]) + WeightBelow(ch, path, kids[1..])
  {
    WithinExtend(path, kids[0], Universe(ch));
  }

  lemma PushNothing(ch: Children, paths: seq<seq<Node>>, path: seq<Node>)
    requires StackOk(ch, paths) && Within(path, Universe(ch))
    ensures paths + Extensions(path, []) == paths && WeightBelow(ch, path, []) == 0
  {
  }

  lemma {:induction false} PushWeight(ch: Children, paths: seq<seq<Node>>, path: seq<Node>, kids: seq<Node>)
    requires StackOk(ch, paths) && Within(path, Universe(ch))
    requires forall c :: c in kids ==> c in Universe(ch)
    ensures StackOk(ch, paths + Extensions(path, kids))
    ensures StackWeight(ch, paths + Extensions(path, kids)) == StackWeight(ch, paths) + WeightBelow(ch, path, kids)
    decreases |kids|
  {
    hide *;
    if kids == [] {
      PushNothing(ch, paths, path);
    } else if kids[0] in path {
      WeightBelowSkip(ch, path, kids);
      PushWeight(ch, paths, path, kids[1..]);
    } else {
      WeightBelowTake(ch, path, kids);
      PushOne(ch, paths, path + [kids[0]]);
      PushWeight(ch, paths + [path + [kids[0]]], path, kids[1..]);
      assert paths + Extensions(path, kids) == paths + [path + [kids[0]]] + Extensions(path, kids[1..]);
    }
  }

  // ---------- Working off one path ----------

  function IndexOf(path: seq<Node>, x: Node): (i: nat)
    requires x in path
    ensures i < |path| && path[i] == x && x !in path[..i]
  {
    if path[0] == x then 0 else 1 + IndexOf(path[1..], x)
  }

  /** Every cycle that the children of path's last node close has been found. */
  ghost predicate ClosedOff(ch: Children, path: seq<Node>, cycles: seq<seq<Node>>) {
    path != [] && forall c :: c in Kids(ch, Last(path)) && c in path ==> Found(cycles, path[IndexOf(path, c)..])
  }

  lemma ClosedOffLonger(ch: Children, path: seq<Node>, cycles: seq<seq<Node>>, more: seq<seq<Node>>)
    requires ClosedOff(ch, path, cycles) && cycles <= more
    ensures ClosedOff(ch, path, more)
  {
    forall c | c in Kids(ch, Last(path)) && c in path
      ensures Found(more, path[IndexOf(path, c)..])
    {
      FoundLonger(cycles, more, path[IndexOf(path, c)..]);
    }
  }

  lemma DistinctSuffix(p: seq<Node>, i: nat)
    requires Distinct(p) && i <= |p|
    ensures Distinct(p[i..])
  {
  }

  lemma SuffixIsCycle(ch: Children, path: seq<Node>, c: Node)
    requires IsPath(ch, path) && Distinct(path) && c in path && Edge(ch, Last(path), c)
    ensures ElementaryCycle(ch, path[IndexOf(path, c)..])
  {
    hide IsPath, Distinct, Edge;
    var i := IndexOf(path, c);
    SubPath(ch, path, i, |path|);
    var cycle := path[i..];
    assert cycle == path[i..|path|];
    DistinctSuffix(path, i);
    assert Last(cycle) == Last(path) && cycle[0] == c;
  }

  /** Append cycle unless a rotation of it is already there. */
  method AddUnlessDuplicate(ch: Children, cycles: seq<seq<Node>>, cycle: seq<Node>)
    returns (result: seq<seq<Node>>)
    requires CyclesSound(ch, cycles) && ElementaryCycle(ch, cycle)
    ensures CyclesSound(ch, result) && cycles <= result
    ensures Found(result, cycle)
    ensures result == cycles || result == cycles + [cycle]
  {
    var isDup := false;
    for i := 0 to |cycles|
      invariant !isDup
      invariant forall j :: 0 <= j < i ==> !Rotated(cycles[j], cycle)
    {
      var rotated := IsRotated(cycles[i], cycle);
      if rotated {
        isDup := true;
        break;
      }
    }
    if isDup {
      result := cycles;
    } else {
      result := cycles + [cycle];
      RotatedReflexive(cycle);
      assert result[|cycles|] == cycle;
      forall j | 0 <= j < |cycles|
        ensures !Rotated(cycle, cycles[j])
      {
        if Rotated(cycle, cycles[j]) { RotatedSymmetric(cycle, cycles[j]); }
      }
    }
  }

  /** ClosedOff for the children tried so far. */
  ghost predicate ClosedFor(path: seq<Node>, tried: seq<Node>, cycles: seq<seq<Node>>) {
    forall c :: c in tried && c in path ==> Found(cycles, path[IndexOf(path, c)..])
  }

  lemma ClosedForNext(path: seq<Node>, tried: seq<Node>, c: Node, cycles: seq<seq<Node>>, more: seq<seq<Node>>)
    requires ClosedFor(path, tried, cycles) && cycles <= more
    requires c in path ==> Found(more, path[IndexOf(path, c)..])
    ensures ClosedFor(path, tried + [c], more)
  {
    forall x | x in tried + [c] && x in path
      ensures Found(more, path[IndexOf(path, x)..])
    {
      if x in tried { FoundLonger(cycles, more, path[IndexOf(path, x)..]); }
    }
  }

  /** The children that are not on the path. */
  ghost function NewNodes(path: seq<Node>, kids: seq<Node>): set<Node> {
    set c | c in kids && c !in path
  }

  lemma NextChild(path: seq<Node>, kids: seq<Node>, j: nat)
    requires j < |kids|
    ensures kids[..j + 1] == kids[..j] + [kids[j]]
    ensures kids[j] in path ==> Extensions(path, kids[j..]) == Extensions(path, kids[j + 1..])
    ensures kids[j] !in path ==> Extensions(path, kids[j..]) == [path + [kids[j]]] + Extensions(path, kids[j + 1..])
    ensures NewNodes(path, kids[..j + 1]) ==
            NewNodes(path, kids[..j]) + if kids[j] in path then {} else {kids[j]}
  {
    assert kids[j..] == [kids[j]] + kids[j + 1..];
    assert kids[..j + 1] == kids[..j] + [kids[j]];
  }

  lemma NoChildLeft(ch: Children, path: seq<Node>, kids: seq<Node>, cycles: seq<seq<Node>>)
    requires path != [] && kids == Kids(ch, Last(path)) && ClosedFor(path, kids, cycles)
    ensures ClosedOff(ch, path, cycles)
    ensures kids[..|kids|] == kids && Extensions(path, kids[|kids|..]) == []
  {
  }

  lemma NoChildYet(path: seq<Node>, kids: seq<Node>, cycles: seq<seq<Node>>)
    ensures ClosedFor(path, [], cycles) && NewNodes(path, []) == {}
    ensures kids[..0] == [] && kids[0..] == kids
  {
  }

  /** The loop over the children of a popped path's last node. */
  method ExtendPath(ch: Children, path: seq<Node>, kids: seq<Node>,
                    cycles0: seq<seq<Node>>, paths0: seq<seq<Node>>, visited0: set<Node>)
    returns (cycles: seq<seq<Node>>, paths: seq<seq<Node>>, visited: set<Node>)
    requires path != [] && IsPath(ch, path) && Distinct(path) && kids == Kids(ch, Last(path))
    requires CyclesSound(ch, cycles0)
    ensures CyclesSound(ch, cycles) && cycles0 <= cycles
    ensures ClosedOff(ch, path, cycles)
    ensures paths == paths0 + Extensions(path, kids)
    ensures visited == visited0 + NewNodes(path, kids)
  {
    hide *;
    cycles, paths, visited := cycles0, paths0, visited0;
    NoChildYet(path, kids, cycles);
    for j := 0 to |kids|
      invariant CyclesSound(ch, cycles) && cycles0 <= cycles
      invariant ClosedFor(path, kids[..j], cycles)
      invariant paths + Extensions(path, kids[j..]) == paths0 + Extensions(path, kids)
      invariant visited == visited0 + NewNodes(path, kids[..j])
    {
      var child := kids[j];
      NextChild(path, kids, j);
      ghost var before := cycles;
      if child in path {
        var cycle := path[IndexOf(path, child)..];
        ChildIsEdge(ch, path, kids, j);
        SuffixIsCycle(ch, path, child);
        cycles := AddUnlessDuplicate(ch, cycles, cycle);
      } else {
        paths := paths + [path + [child]];
        visited := visited + {child};
      }
      ClosedForNext(path, kids[..j], child, before, cycles);
    }
    assert kids[..|kids|] == kids;
    NoChildLeft(ch, path, kids, cycles);
  }

  lemma ChildIsEdge(ch: Children, path: seq<Node>, kids: seq<Node>, j: nat)
    requires path != [] && kids == Kids(ch, Last(path)) && j < |kids|
    ensures Edge(ch, Last(path), kids[j])
  {
  }

  // ---------- All simple paths from one root ----------

  /** Stacked and popped paths are simple, and every simple path is popped or still below the stack. */
  ghost predicate Exploring(ch: Children, root: Node, paths: seq<seq<Node>>, popped: set<seq<Node>>) {
    && (forall i :: 0 <= i < |paths| ==> SimpleFrom(ch, root, paths[i]))
    && (forall p :: p in popped ==> SimpleFrom(ch, root, p))
    && (forall q :: SimpleFrom(ch, root, q) ==> q in popped || PrefixIn(paths, q))
  }

  ghost predicate PrefixIn(paths: seq<seq<Node>>, q: seq<Node>) {
    exists i :: 0 <= i < |paths| && paths[i] <= q
  }

  lemma ExploringStart(ch: Children, root: Node)
    ensures Exploring(ch, root, [[root]], {})
  {
    forall q | SimpleFrom(ch, root, q)
      ensures PrefixIn([[root]], q)
    {
      assert [[root]][0] <= q;
    }
  }

  lemma PrefixInMore(paths: seq<seq<Node>>, more: seq<seq<Node>>, q: seq<Node>)
    requires PrefixIn(paths, q)
    ensures PrefixIn(paths + more, q) && PrefixIn(more + paths, q)
  {
    var i :| 0 <= i < |paths| && paths[i] <= q;
    assert (paths + more)[i] <= q;
    assert (more + paths)[|more| + i] <= q;
  }

  /** A simple path through path goes on with one of the pushed extensions. */
  lemma NextExtension(ch: Children, root: Node, path: seq<Node>, q: seq<Node>)
    requires SimpleFrom(ch, root, q) && path != [] && path <= q && path != q
    ensures PrefixIn(Extensions(path, Kids(ch, Last(path))), q)
  {
    var c := q[|path|];
    assert Edge(ch, q[|path| - 1], q[|path|]);
    var p := path + [c];
    ExtensionsMembers(path, Kids(ch, Last(path)), p);
    var i :| 0 <= i < |Extensions(path, Kids(ch, Last(path)))| && Extensions(path, Kids(ch, Last(path)))[i] == p;
    assert p <= q;
  }

  lemma ExtensionSimple(ch: Children, root: Node, path: seq<Node>, p: seq<Node>)
    requires SimpleFrom(ch, root, path) && p in Extensions(path, Kids(ch, Last(path)))
    ensures SimpleFrom(ch, root, p)
  {
    ExtensionsMembers(path, Kids(ch, Last(path)), p);
    var c :| c in Kids(ch, Last(path)) && c !in path && p == path + [c];
    JoinPaths(ch, path, [c]);
  }

  lemma ExploringStep(ch: Children, root: Node, front: seq<seq<Node>>, path: seq<Node>, popped: set<seq<Node>>)
    requires Exploring(ch, root, front + [path], popped)
    ensures SimpleFrom(ch, root, path)
    ensures Exploring(ch, root, front + Extensions(path, Kids(ch, Last(path))), popped + {path})
  {
    var stack := front + [path];
    assert stack[|front|] == path;
    var pushed := Extensions(path, Kids(ch, Last(path)));
    forall i | 0 <= i < |front + pushed|
      ensures SimpleFrom(ch, root, (front + pushed)[i])
    {
      if i < |front| {
        assert stack[i] == front[i];
      } else {
        ExtensionSimple(ch, root, path, pushed[i - |front|]);
      }
    }
    forall q | SimpleFrom(ch, root, q) && q !in popped + {path}
      ensures PrefixIn(front + pushed, q)
    {
      var i :| 0 <= i < |stack| && stack[i] <= q;
      if i < |front| {
        assert front[i] <= q;
        PrefixInMore(front, pushed, q);
      } else {
        NextExtension(ch, root, path, q);
        PrefixInMore(pushed, front, q);
      }
    }
  }

  /** Dropping loops turns any walk into a simple path over a subset of its nodes. */
  lemma {:induction false} LoopErased(ch: Children, p: seq<Node>) returns (q: seq<Node>)
    requires IsPath(ch, p)
    ensures SimpleFrom(ch, p[0], q) && Last(q) == Last(p)
    ensures forall x :: x in q ==> x in p
    decreases |p|
  {
    if Distinct(p) {
      q := p;
    } else {
      var i, j :| 0 <= i < j < |p| && p[i] == p[j];
      var r := p[..i] + p[j..];
      forall k | 0 < k < |r|
        ensures Edge(ch, r[k - 1], r[k])
      {
        if k < i {
          assert Edge(ch, p[k - 1], p[k]);
        } else if k == i {
          assert Edge(ch, p[i - 1], p[i]);
        } else {
          assert Edge(ch, p[k - i + j - 1], p[k - i + j]);
        }
      }
      q := LoopErased(ch, r);
    }
  }

  ghost predicate Disjoint(p: seq<Node>, c: seq<Node>) {
    forall x :: x in p ==> x !in c
  }

  /** A walk to a node of c has a first node on c. */
  lemma {:induction false} FirstHit(p: seq<Node>, c: seq<Node>) returns (i: nat)
    requires p != [] && Last(p) in c
    ensures i < |p| && p[i] in c && Disjoint(p[..i], c)
  {
    i := 0;
    while p[i] !in c
      invariant i < |p| && Disjoint(p[..i], c)
      decreases |p| - i
    {
      i := i + 1;
    }
  }

  lemma RotatedCycle(ch: Children, c: seq<Node>, k: nat)
    requires ElementaryCycle(ch, c) && k < |c|
    ensures ElementaryCycle(ch, c[k..] + c[..k])
  {
    var d := c[k..] + c[..k];
    forall i | 0 < i < |d|
      ensures Edge(ch, d[i - 1], d[i])
    {
      var n := |c|;
      if i < n - k {
        assert Edge(ch, c[k + i - 1], c[k + i]);
      } else if i == n - k {
        assert d[i] == c[0] && d[i - 1] == Last(c);
      } else {
        assert Edge(ch, c[i - (n - k) - 1], c[i - (n - k)]);
      }
    }
    if k > 0 { assert Edge(ch, c[k - 1], c[k]); }
  }

  /** A cycle reached over a simple path that avoids it extends to a simple path around it. */
  lemma AroundCycle(ch: Children, root: Node, p: seq<Node>, c: seq<Node>)
    requires SimpleFrom(ch, root, p) && ElementaryCycle(ch, c)
    requires Last(p) == c[0] && Disjoint(p[..|p| - 1], c)
    ensures SimpleFrom(ch, root, p[..|p| - 1] + c)
    ensures c[0] in p[..|p| - 1] + c && (p[..|p| - 1] + c)[IndexOf(p[..|p| - 1] + c, c[0])..] == c
  {
    var front := p[..|p| - 1];
    var q := front + c;
    if front != [] {
      SubPath(ch, p, 0, |p| - 1);
      assert p[0..|p| - 1] == front;
      assert Edge(ch, p[|p| - 2], p[|p| - 1]);
      JoinPaths(ch, front, c);
    } else {
      assert q == c;
    }
    DistinctConcat(front, c);
    assert q[|front|] == c[0];
    assert IndexOf(q, c[0]) == |front|;
    assert q[|front|..] == c;
  }

  lemma DistinctConcat(p: seq<Node>, c: seq<Node>)
    requires Distinct(p) && Distinct(c) && Disjoint(p, c)
    ensures Distinct(p + c)
  {
    var q := p + c;
    forall i, j | 0 <= i < j < |q|
      ensures q[i] != q[j]
    {
      if i < |p| <= j {
        assert p[i] in p && c[j - |p|] in c;
      }
    }
  }

  /** Every elementary cycle that root leads to has been found. */
  ghost predicate Covered(ch: Children, root: Node, cycles: seq<seq<Node>>) {
    forall c :: ElementaryCycle(ch, c) && Reaches(ch, root, c[0]) ==> Found(cycles, c)
  }

  lemma CoveredLonger(ch: Children, root: Node, cycles: seq<seq<Node>>, more: seq<seq<Node>>)
    requires Covered(ch, root, cycles) && cycles <= more
    ensures Covered(ch, root, more)
  {
    forall c | ElementaryCycle(ch, c) && Reaches(ch, root, c[0])
      ensures Found(more, c)
    {
      FoundLonger(cycles, more, c);
    }
  }

  /** Whatever a covered root reaches is covered, too: skipping visited roots loses no cycle. */
  lemma CoveredDownstream(ch: Children, root: Node, v: Node, cycles: seq<seq<Node>>)
    requires Covered(ch, root, cycles) && Reaches(ch, root, v)
    ensures Covered(ch, v, cycles)
  {
    forall c | ElementaryCycle(ch, c) && Reaches(ch, v, c[0])
      ensures Found(cycles, c)
    {
      ReachesTransitive(ch, root, v, c[0]);
    }
  }

  lemma PathToCycle(ch: Children, root: Node, c: seq<Node>) returns (p: seq<Node>, k: nat)
    requires ElementaryCycle(ch, c) && Reaches(ch, root, c[0])
    ensures SimpleFrom(ch, root, p) && k < |c| && Last(p) == c[k]
    ensures Disjoint(p[..|p| - 1], c)
  {
    var w :| PathBetween(ch, w, root, c[0]);
    var q := LoopErased(ch, w);
    var i := FirstHit(q, c);
    SubPath(ch, q, 0, i + 1);
    p := q[..i + 1];
    assert q[0..i + 1] == p && p[..|p| - 1] == q[..i];
    k :| 0 <= k < |c| && c[k] == q[i];
  }

  lemma TurnCycle(ch: Children, c: seq<Node>, k: nat) returns (d: seq<Node>)
    requires ElementaryCycle(ch, c) && k < |c|
    ensures ElementaryCycle(ch, d) && Rotated(d, c) && d[0] == c[k]
    ensures forall x :: x in d <==> x in c
  {
    d := c[k..] + c[..k];
    RotatedCycle(ch, c, k);
    assert RotatedBy(c, d, k);
    RotatedSymmetric(c, d);
    assert c == c[..k] + c[k..];
  }

  /** The simple path from root on which the given cycle is closed. */
  lemma PathAroundCycle(ch: Children, root: Node, c: seq<Node>) returns (q: seq<Node>, d: seq<Node>)
    requires ElementaryCycle(ch, c) && Reaches(ch, root, c[0])
    ensures SimpleFrom(ch, root, q) && ElementaryCycle(ch, d) && Rotated(d, c)
    ensures d[0] in q && Edge(ch, Last(q), d[0]) && q[IndexOf(q, d[0])..] == d
  {
    var p, k := PathToCycle(ch, root, c);
    d := TurnCycle(ch, c, k);
    AroundCycle(ch, root, p, d);
    q := p[..|p| - 1] + d;
    assert Last(q) == Last(d);
  }

  lemma PoppedCovers(ch: Children, root: Node, popped: set<seq<Node>>, cycles: seq<seq<Node>>)
    requires Exploring(ch, root, [], popped)
    requires forall p :: p in popped ==> ClosedOff(ch, p, cycles)
    ensures Covered(ch, root, cycles)
  {
    forall c | ElementaryCycle(ch, c) && Reaches(ch, root, c[0])
      ensures Found(cycles, c)
    {
      var q, d := PathAroundCycle(ch, root, c);
      assert q in popped && ClosedOff(ch, q, cycles);
      assert d[0] in Kids(ch, Last(q));
      FoundRotation(cycles, d, c);
    }
  }

  /** The nodes other than root that root reaches. */
  ghost predicate Downstream(ch: Children, root: Node, v: Node) {
    v != root && Reaches(ch, root, v)
  }

  lemma SimplePathDownstream(ch: Children, root: Node, p: seq<Node>)
    requires SimpleFrom(ch, root, p) && |p| >= 2
    ensures Downstream(ch, root, Last(p))
  {
    assert PathBetween(ch, p, root, Last(p));
  }

  lemma DownstreamPopped(ch: Children, root: Node, popped: set<seq<Node>>, visited: set<Node>, v: Node)
    requires Exploring(ch, root, [], popped)
    requires forall p :: p in popped && |p| >= 2 ==> Last(p) in visited
    requires Downstream(ch, root, v)
    ensures v in visited
  {
    var w :| PathBetween(ch, w, root, v);
    var q := LoopErased(ch, w);
    assert q in popped && Last(q) == v;
  }

  /** The ghost bookkeeping of one root's loop. */
  ghost predicate RootState(ch: Children, root: Node, paths: seq<seq<Node>>, popped: set<seq<Node>>,
                            cycles: seq<seq<Node>>, visited: set<Node>, visited0: set<Node>) {
    && Exploring(ch, root, paths, popped)
    && (forall p :: p in popped ==> ClosedOff(ch, p, cycles))
    && visited0 <= visited
    && (forall v :: v in visited && v !in visited0 ==> Downstream(ch, root, v))
    && (forall p :: p in popped && |p| >= 2 ==> Last(p) in visited)
    && (forall i :: 0 <= i < |paths| && |paths[i]| >= 2 ==> Last(paths[i]) in visited)
  }

  lemma RootStep(ch: Children, root: Node, front: seq<seq<Node>>, path: seq<Node>, popped: set<seq<Node>>,
                 cycles: seq<seq<Node>>, cycles': seq<seq<Node>>, visited: set<Node>, visited': set<Node>,
                 visited0: set<Node>)
    requires RootState(ch, root, front + [path], popped, cycles, visited, visited0)
    requires path != [] && cycles <= cycles' && ClosedOff(ch, path, cycles')
    requires visited' == visited + NewNodes(path, Kids(ch, Last(path)))
    ensures RootState(ch, root, front + Extensions(path, Kids(ch, Last(path))), popped + {path},
                      cycles', visited', visited0)
  {
    var kids := Kids(ch, Last(path));
    var pushed := Extensions(path, kids);
    ExploringStep(ch, root, front, path, popped);
    forall p | p in popped
      ensures ClosedOff(ch, p, cycles')
    {
      ClosedOffLonger(ch, p, cycles, cycles');
    }
    forall v | v in visited' && v !in visited0 && v !in visited
      ensures Downstream(ch, root, v)
    {
      ExtensionsMembers(path, kids, path + [v]);
      ExtensionSimple(ch, root, path, path + [v]);
      SimplePathDownstream(ch, root, path + [v]);
    }
    assert (front + [path])[|front|] == path;
    forall i | 0 <= i < |front + pushed| && |(front + pushed)[i]| >= 2
      ensures Last((front + pushed)[i]) in visited'
    {
      if i < |front| {
        assert (front + [path])[i] == front[i];
      } else {
        ExtensionsMembers(path, kids, pushed[i - |front|]);
      }
    }
  }

  lemma SimpleWithin(ch: Children, root: Node, p: seq<Node>)
    requires SimpleFrom(ch, root, p) && root in ch
    ensures Within(p, Universe(ch))
  {
    forall x | x in p
      ensures x in Universe(ch)
    {
      var i :| 0 <= i < |p| && p[i] == x;
      if i > 0 {
        assert Edge(ch, p[i - 1], p[i]);
        KidsInUniverse(ch, p[i - 1], x);
      }
    }
  }

  lemma PopWeight(ch: Children, root: Node, front: seq<seq<Node>>, path: seq<Node>)
    requires StackOk(ch, front + [path]) && path != []
    ensures StackOk(ch, front + Extensions(path, Kids(ch, Last(path))))
    ensures StackWeight(ch, front + Extensions(path, Kids(ch, Last(path)))) < StackWeight(ch, front + [path])
  {
    assert (front + [path])[|front|] == path && (front + [path])[..|front|] == front;
    assert forall i :: 0 <= i < |front| ==> (front + [path])[i] == front[i];
    KidsWithin(ch, Last(path));
    PushWeight(ch, front, path, Kids(ch, Last(path)));
  }

  /** The while loop of one root that has not been visited before. */
  method ExploreRoot(ch: Children, root: Node, cycles0: seq<seq<Node>>, visited0: set<Node>)
    returns (cycles: seq<seq<Node>>, visited: set<Node>)
    requires root in ch && CyclesSound(ch, cycles0)
    ensures CyclesSound(ch, cycles) && cycles0 <= cycles
    ensures Covered(ch, root, cycles)
    ensures forall v :: v in visited <==> v in visited0 || Downstream(ch, root, v)
  {
    hide *;
    cycles, visited := cycles0, visited0;
    var paths := [[root]];
    ghost var popped: set<seq<Node>> := {};
    RootStart(ch, root, cycles, visited);
    while paths != []
      invariant CyclesSound(ch, cycles) && cycles0 <= cycles
      invariant RootState(ch, root, paths, popped, cycles, visited, visited0)
      invariant StackOk(ch, paths)
      decreases StackWeight(ch, paths)
    {
      var path := paths[|paths| - 1];
      var front := paths[..|paths| - 1];
      assert paths == front + [path];
      TopIsSimple(ch, root, front, path, popped, cycles, visited, visited0);
      ghost var before, seen := cycles, visited;
      var kids := Kids(ch, path[|path| - 1]);
      cycles, paths, visited := ExtendPath(ch, path, kids, cycles, front, visited);
      RootStep(ch, root, front, path, popped, before, cycles, seen, visited, visited0);
      PopWeight(ch, root, front, path);
      popped := popped + {path};
    }
    RootFinished(ch, root, popped, cycles, visited, visited0);
  }

  lemma RootStart(ch: Children, root: Node, cycles: seq<seq<Node>>, visited: set<Node>)
    requires root in ch
    ensures RootState(ch, root, [[root]], {}, cycles, visited, visited)
    ensures StackOk(ch, [[root]])
  {
    ExploringStart(ch, root);
    SimpleWithin(ch, root, [root]);
  }

  lemma TopIsSimple(ch: Children, root: Node, front: seq<seq<Node>>, path: seq<Node>, popped: set<seq<Node>>,
                    cycles: seq<seq<Node>>, visited: set<Node>, visited0: set<Node>)
    requires RootState(ch, root, front + [path], popped, cycles, visited, visited0)
    ensures path != [] && IsPath(ch, path) && Distinct(path) && Last(path) == path[|path| - 1]
  {
    ExploringStep(ch, root, front, path, popped);
  }

  lemma RootFinished(ch: Children, root: Node, popped: set<seq<Node>>, cycles: seq<seq<Node>>,
                     visited: set<Node>, visited0: set<Node>)
    requires RootState(ch, root, [], popped, cycles, visited, visited0)
    ensures Covered(ch, root, cycles)
    ensures forall v :: v in visited <==> v in visited0 || Downstream(ch, root, v)
  {
    PoppedCovers(ch, root, popped, cycles);
    forall v | Downstream(ch, root, v)
      ensures v in visited
    {
      DownstreamPopped(ch, root, popped, visited, v);
    }
  }

  // ---------- The whole enumeration ----------

  /** The keys in an arbitrary order. */
  method KeysOf(ch: Children) returns (keys: seq<Node>)
    ensures Distinct(keys) && forall x :: x in keys <==> x in ch
  {
    keys := [];
    var left := ch.Keys;
    while left != {}
      invariant left <= ch.Keys
      invariant Distinct(keys) && forall x :: x in keys <==> x in ch && x !in left
      decreases |left|
    {
      var x :| x in left;
      left := left - {x};
      keys := keys + [x];
    }
  }

  /** After the first n keys: they are covered, and visited nodes are downstream of them. */
  ghost predicate KeysState(ch: Children, keys: seq<Node>, n: nat, cycles: seq<seq<Node>>, visited: set<Node>) {
    && n <= |keys|
    && (forall i :: 0 <= i < n ==> Covered(ch, keys[i], cycles))
    && (forall v :: v in visited ==> exists i :: 0 <= i < n && Reaches(ch, keys[i], v))
  }

  lemma SkipVisited(ch: Children, keys: seq<Node>, n: nat, cycles: seq<seq<Node>>, visited: set<Node>)
    requires KeysState(ch, keys, n, cycles, visited) && n < |keys| && keys[n] in visited
    ensures KeysState(ch, keys, n + 1, cycles, visited)
  {
    var i :| 0 <= i < n && Reaches(ch, keys[i], keys[n]);
    CoveredDownstream(ch, keys[i], keys[n], cycles);
  }

  lemma RootExplored(ch: Children, keys: seq<Node>, n: nat, cycles: seq<seq<Node>>, visited: set<Node>,
                     cycles': seq<seq<Node>>, visited': set<Node>)
    requires KeysState(ch, keys, n, cycles, visited) && n < |keys|
    requires cycles <= cycles' && Covered(ch, keys[n], cycles')
    requires forall v :: v in visited' <==> v in visited || Downstream(ch, keys[n], v)
    ensures KeysState(ch, keys, n + 1, cycles', visited')
  {
    forall i | 0 <= i < n
      ensures Covered(ch, keys[i], cycles')
    {
      CoveredLonger(ch, keys[i], cycles, cycles');
    }
    forall v | v in visited'
      ensures exists i :: 0 <= i < n + 1 && Reaches(ch, keys[i], v)
    {
      if v !in visited { assert Reaches(ch, keys[n], v); }
    }
  }

  lemma KeysFinished(ch: Children, keys: seq<Node>, cycles: seq<seq<Node>>, visited: set<Node>)
    requires KeysState(ch, keys, |keys|, cycles, visited)
    requires forall x :: x in ch ==> x in keys
    ensures CyclesComplete(ch, cycles)
  {
    forall c | ElementaryCycle(ch, c)
      ensures Found(cycles, c)
    {
      CycleNodeFromCycle(ch, c);
      var i :| 0 <= i < |keys| && keys[i] == c[0];
      assert PathBetween(ch, [c[0]], c[0], c[0]);
      assert Covered(ch, keys[i], cycles);
    }
  }

  /** find_cycles: the list of everything the generator yields. */
  method FindAll(ch: Children) returns (cycles: seq<seq<Node>>)
    ensures CyclesSound(ch, cycles)
    ensures CyclesComplete(ch, cycles)
  {
    hide *;
    cycles := [];
    var visited: set<Node> := {};
    var keys := KeysOf(ch);
    KeysStart(ch, keys);
    for n := 0 to |keys|
      invariant CyclesSound(ch, cycles)
      invariant KeysState(ch, keys, n, cycles, visited)
    {
      if keys[n] in visited {
        SkipVisited(ch, keys, n, cycles, visited);
        continue;
      }
      var cycles', visited' := ExploreRoot(ch, keys[n], cycles, visited);
      RootExplored(ch, keys, n, cycles, visited, cycles', visited');
      cycles, visited := cycles', visited';
    }
    KeysFinished(ch, keys, cycles, visited);
  }

  lemma KeysStart(ch: Children, keys: seq<Node>)
    ensures KeysState(ch, keys, 0, [], {}) && CyclesSound(ch, [])
  {
  }
}
