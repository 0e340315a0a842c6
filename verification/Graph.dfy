/**
 * The vocabulary of dependency graphs: child lists, walks, elementary cycles and depth.
 * A node may list the same child several times and may list itself.
 */
module DependencyGraph {
  import opened Sequences

  /** Graph elements are arbitrary hashable values; only equality is used. */
  type Node(==, !new)

  type Children = map<Node, seq<Node>>

  function Kids(ch: Children, u: Node): seq<Node> {
    if u in ch then ch[u] else []
  }

  predicate Edge(ch: Children, u: Node, v: Node) {
    v in Kids(ch, u)
  }

  /** A walk: every item but the first is a child of its predecessor. */
  predicate IsPath(ch: Children, p: seq<Node>) {
    |p| > 0 && forall i :: 0 < i < |p| ==> Edge(ch, p[i - 1], p[i])
  }

  function Last(p: seq<Node>): Node
    requires |p| > 0
  {
    p[|p| - 1]
  }

  /** The last item is a parent of the first, and no node repeats. */
  predicate ElementaryCycle(ch: Children, c: seq<Node>) {
    IsPath(ch, c) && Distinct(c) && Edge(ch, Last(c), c[0])
  }

  ghost predicate HasCycle(ch: Children) {
    exists c :: ElementaryCycle(ch, c)
  }

  ghost predicate PathBetween(ch: Children, p: seq<Node>, u: Node, v: Node) {
    IsPath(ch, p) && p[0] == u && Last(p) == v
  }

  ghost predicate Reaches(ch: Children, u: Node, v: Node) {
    exists p :: PathBetween(ch, p, u, v)
  }

  /** v is on a cycle or downstream of one. */
  ghost predicate FromCycle(ch: Children, v: Node) {
    exists c :: ElementaryCycle(ch, c) && Reaches(ch, c[0], v)
  }

  /** Some walk with exactly k edges ends in v. */
  ghost predicate Deep(ch: Children, v: Node, k: nat) {
    k == 0 || exists u :: Edge(ch, u, v) && Deep(ch, u, k - 1)
  }

  /** The longest walk into v has exactly k edges. */
  ghost predicate AtLevel(ch: Children, v: Node, k: nat) {
    Deep(ch, v, k) && !Deep(ch, v, k + 1)
  }

  lemma {:induction false} DeepAntitone(ch: Children, v: Node, j: nat, k: nat)
    requires j <= k && Deep(ch, v, k)
    ensures Deep(ch, v, j)
  {
    if j > 0 {
      var u :| Edge(ch, u, v) && Deep(ch, u, k - 1);
      DeepAntitone(ch, u, j - 1, k - 1);
    }
  }

  lemma DeepZero(ch: Children, v: Node)
    ensures Deep(ch, v, 0)
  {
  }

  lemma DeepStep(ch: Children, u: Node, v: Node, k: nat)
    requires Edge(ch, u, v) && Deep(ch, u, k)
    ensures Deep(ch, v, k + 1)
  {
  }

  lemma DeepParent(ch: Children, v: Node, k: nat) returns (u: Node)
    requires Deep(ch, v, k + 1)
    ensures Edge(ch, u, v) && Deep(ch, u, k)
  {
    u :| Edge(ch, u, v) && Deep(ch, u, k);
  }

  lemma LevelUnique(ch: Children, v: Node, j: nat, k: nat)
    requires AtLevel(ch, v, j) && AtLevel(ch, v, k)
    ensures j == k
  {
    if j < k { DeepAntitone(ch, v, j + 1, k); }
    if k < j { DeepAntitone(ch, v, k + 1, j); }
  }

  lemma {:induction false} DeepAlongPath(ch: Children, p: seq<Node>, k: nat)
    requires IsPath(ch, p) && Deep(ch, p[0], k)
    ensures Deep(ch, Last(p), k + |p| - 1)
    decreases |p|
  {
    if |p| > 1 {
      var front := p[..|p| - 1];
      DeepAlongPath(ch, front, k);
      assert Edge(ch, Last(front), Last(p));
    }
  }

  lemma {:induction false} DeepOnCycle(ch: Children, c: seq<Node>, i: nat, k: nat)
    requires ElementaryCycle(ch, c) && i < |c|
    ensures Deep(ch, c[i], k)
    decreases k
  {
    if k > 0 {
      var j := if i == 0 then |c| - 1 else i - 1;
      DeepOnCycle(ch, c, j, k - 1);
      assert Edge(ch, c[j], c[i]);
    }
  }

  lemma {:induction false} DeepWitness(ch: Children, v: Node, k: nat) returns (p: seq<Node>)
    requires Deep(ch, v, k)
    ensures IsPath(ch, p) && Last(p) == v && |p| == k + 1
  {
    if k == 0 {
      p := [v];
    } else {
      var u :| Edge(ch, u, v) && Deep(ch, u, k - 1);
      var q := DeepWitness(ch, u, k - 1);
      p := q + [v];
    }
  }

  /** Deep(v, k) says exactly that a k-edge walk into v exists. */
  lemma DeepIffPath(ch: Children, v: Node, k: nat)
    ensures Deep(ch, v, k) <==> exists p :: IsPath(ch, p) && Last(p) == v && |p| == k + 1
  {
    if Deep(ch, v, k) {
      var p := DeepWitness(ch, v, k);
    }
    forall p | IsPath(ch, p) && Last(p) == v && |p| == k + 1
      ensures Deep(ch, v, k)
    {
      DeepAlongPath(ch, p, 0);
    }
  }

  lemma SubPath(ch: Children, p: seq<Node>, i: nat, j: nat)
    requires IsPath(ch, p) && i < j <= |p|
    ensures IsPath(ch, p[i..j])
  {
    var q := p[i..j];
    forall k | 0 < k < |q|
      ensures Edge(ch, q[k - 1], q[k])
    {
      assert Edge(ch, p[i + k - 1], p[i + k]);
    }
  }

  lemma JoinPaths(ch: Children, p: seq<Node>, q: seq<Node>)
    requires IsPath(ch, p) && IsPath(ch, q) && Edge(ch, Last(p), q[0])
    ensures IsPath(ch, p + q)
  {
    var r := p + q;
    forall k | 0 < k < |r|
      ensures Edge(ch, r[k - 1], r[k])
    {
      if k > |p| { assert Edge(ch, q[k - |p| - 1], q[k - |p|]); }
    }
  }

  lemma ReachesTransitive(ch: Children, u: Node, v: Node, w: Node)
    requires Reaches(ch, u, v) && Reaches(ch, v, w)
    ensures Reaches(ch, u, w)
  {
    var p :| PathBetween(ch, p, u, v);
    var q :| PathBetween(ch, q, v, w);
    if |q| == 1 {
      assert PathBetween(ch, p, u, w);
    } else {
      SubPath(ch, q, 1, |q|);
      assert Edge(ch, q[0], q[1]);
      JoinPaths(ch, p, q[1..]);
      assert PathBetween(ch, p + q[1..], u, w);
    }
  }

  lemma SliceOfSlice(p: seq<Node>, i: nat, j: nat, a: nat, b: nat)
    requires i <= j <= |p| && a <= b <= j - i
    ensures p[i..j][a..b] == p[i + a..i + b]
  {
    var left, right := p[i..j][a..b], p[i + a..i + b];
    assert forall k :: 0 <= k < |left| ==> left[k] == right[k];
  }

  lemma RepeatedItem(p: seq<Node>) returns (i: nat, j: nat)
    requires !Distinct(p)
    ensures i < j < |p| && p[i] == p[j]
  {
    i, j :| 0 <= i < j < |p| && p[i] == p[j];
  }

  lemma LoopIsCycle(ch: Children, p: seq<Node>, i: nat, j: nat)
    requires IsPath(ch, p) && i < j < |p| && p[i] == p[j] && Distinct(p[i..j])
    ensures ElementaryCycle(ch, p[i..j])
  {
    SubPath(ch, p, i, j);
    assert Edge(ch, p[j - 1], p[j]);
  }

  /** A walk that revisits a node contains an elementary cycle. */
  lemma {:induction false} LoopInPath(ch: Children, p: seq<Node>) returns (i: nat, j: nat)
    requires IsPath(ch, p) && !Distinct(p)
    ensures i < j < |p| && p[i] == p[j] && ElementaryCycle(ch, p[i..j])
    decreases |p|
  {
    hide *;
    i, j := RepeatedItem(p);
    if Distinct(p[i..j]) {
      LoopIsCycle(ch, p, i, j);
    } else {
      SubPath(ch, p, i, j);
      var a, b := LoopInPath(ch, p[i..j]);
      SliceOfSlice(p, i, j, a, b);
      i, j := i + a, i + b;
    }
  }

  lemma LoopLeadsToEnd(ch: Children, p: seq<Node>)
    requires IsPath(ch, p) && !Distinct(p)
    ensures FromCycle(ch, Last(p))
  {
    var i, j := LoopInPath(ch, p);
    SubPath(ch, p, i, |p|);
    var c := p[i..j];
    assert PathBetween(ch, p[i..|p|], c[0], Last(p));
  }

  /** A walk longer than the number of parents runs into a cycle. */
  lemma DeepMeansFromCycle(ch: Children, v: Node)
    requires Deep(ch, v, |ch.Keys| + 1)
    ensures FromCycle(ch, v)
  {
    var p := DeepWitness(ch, v, |ch.Keys| + 1);
    var front := p[..|p| - 1];
    forall x | x in front
      ensures x in ch.Keys
    {
      var i :| 0 <= i < |front| && front[i] == x;
      assert Edge(ch, p[i + 1 - 1], p[i + 1]);
    }
    Pigeonhole(front, ch.Keys);
    LoopLeadsToEnd(ch, p);
  }

  /** Walks of every length end in v. */
  ghost predicate EndlesslyDeep(ch: Children, v: Node) {
    forall k: nat :: Deep(ch, v, k)
  }

  lemma FromCycleIsDeep(ch: Children, v: Node, k: nat)
    requires FromCycle(ch, v)
    ensures Deep(ch, v, k)
  {
    var c :| ElementaryCycle(ch, c) && Reaches(ch, c[0], v);
    var p :| PathBetween(ch, p, c[0], v);
    DeepOnCycle(ch, c, 0, k);
    DeepAlongPath(ch, p, k);
    DeepAntitone(ch, v, k, k + |p| - 1);
  }

  /** Nodes downstream of a cycle are exactly those with arbitrarily long walks into them. */
  lemma FromCycleIffEndless(ch: Children, v: Node)
    ensures FromCycle(ch, v) <==> EndlesslyDeep(ch, v)
  {
    if FromCycle(ch, v) {
      forall k: nat
        ensures Deep(ch, v, k)
      {
        FromCycleIsDeep(ch, v, k);
      }
    }
    if EndlesslyDeep(ch, v) {
      DeepMeansFromCycle(ch, v);
    }
  }

  lemma CycleNodeFromCycle(ch: Children, c: seq<Node>)
    requires ElementaryCycle(ch, c)
    ensures c[0] in ch && FromCycle(ch, c[0])
  {
    assert PathBetween(ch, [c[0]], c[0], c[0]);
    assert |c| > 1 ==> Edge(ch, c[0], c[1]);
  }
}
