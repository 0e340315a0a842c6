/** The recursive listing of all permutations of a list. */
module Permutations {
  import opened Sequences

  function Factorial(n: nat): nat {
    if n == 0 then 1 else n * Factorial(n - 1)
  }

  function Insert<T>(s: seq<T>, i: nat, x: T): seq<T>
    requires i <= |s|
  {
    s[..i] + [x] + s[i..]
  }

  /** x inserted at each of the first n positions of s. */
  function Inserts<T>(s: seq<T>, x: T, n: nat): seq<seq<T>>
    requires n <= |s| + 1
  {
    if n == 0 then [] else Inserts(s, x, n - 1) + [Insert(s, n - 1, x)]
  }

  /** x inserted at every position of every list. */
  function InsertEverywhere<T>(subs: seq<seq<T>>, x: T): seq<seq<T>> {
    if subs == [] then [] else
      var last := subs[|subs| - 1];
      InsertEverywhere(subs[..|subs| - 1], x) + Inserts(last, x, |last| + 1)
  }

  function Listing<T>(s: seq<T>): seq<seq<T>> {
    if |s| > 1 then InsertEverywhere(Listing(s[1..]), s[0]) else [s]
  }

  method ListPermutations<T>(input: seq<T>) returns (out: seq<seq<T>>)
    ensures out == Listing(input)
    decreases |input|
  {
    out := [];
    if |input| > 1 {
      var item := input[0];
      var subLists := ListPermutations(input[1..]);
      Lengths(input[1..]);
      for k := 0 to |subLists|
        invariant out == InsertEverywhere(subLists[..k], item)
      {
        var subList := subLists[k];
        assert subLists[..k + 1][..k] == subLists[..k];
        assert |subList| + 1 == |input|;
        ghost var before := out;
        for i := 0 to |input|
          invariant out == before + Inserts(subList, item, i)
        {
          out := out + [Insert(subList, i, item)];
        }
      }
      assert subLists[..|subLists|] == subLists;
    } else {
      out := [input];
    }
  }

  lemma InsertsAt<T>(s: seq<T>, x: T, n: nat)
    requires n <= |s| + 1
    ensures |Inserts(s, x, n)| == n
    ensures forall i :: 0 <= i < n ==> Inserts(s, x, n)[i] == Insert(s, i, x)
  {
  }

  ghost predicate InsertOf<T>(s: seq<T>, x: T, p: seq<T>) {
    exists i :: 0 <= i <= |s| && p == Insert(s, i, x)
  }

  lemma InsertsMembers<T>(s: seq<T>, x: T, p: seq<T>)
    ensures p in Inserts(s, x, |s| + 1) <==> InsertOf(s, x, p)
  {
    InsertsAt(s, x, |s| + 1);
    if InsertOf(s, x, p) {
      var i :| 0 <= i <= |s| && p == Insert(s, i, x);
      assert Inserts(s, x, |s| + 1)[i] == p;
    }
  }

  lemma {:induction false} EverywhereMembers<T>(subs: seq<seq<T>>, x: T, p: seq<T>)
    ensures p in InsertEverywhere(subs, x) <==> exists k :: 0 <= k < |subs| && InsertOf(subs[k], x, p)
  {
    hide InsertOf;
    if subs != [] {
      var front, last := subs[..|subs| - 1], subs[|subs| - 1];
      EverywhereMembers(front, x, p);
      InsertsMembers(last, x, p);
      assert forall k :: 0 <= k < |front| ==> front[k] == subs[k];
    }
  }

  lemma InsertMultiset<T>(s: seq<T>, i: nat, x: T)
    requires i <= |s|
    ensures multiset(Insert(s, i, x)) == multiset(s) + multiset{x}
  {
    assert s == s[..i] + s[i..];
  }

  lemma InsertOfMultiset<T>(s: seq<T>, x: T, p: seq<T>)
    requires InsertOf(s, x, p)
    ensures multiset(p) == multiset(s) + multiset{x}
  {
    var i :| 0 <= i <= |s| && p == Insert(s, i, x);
    InsertMultiset(s, i, x);
  }

  /** Everything listed is a rearrangement of the input. */
  lemma {:induction false} Rearrangements<T>(s: seq<T>, p: seq<T>)
    requires p in Listing(s)
    ensures multiset(p) == multiset(s)
    decreases |s|
  {
    hide Insert, InsertEverywhere, InsertOf;
    if |s| > 1 {
      var subs := Listing(s[1..]);
      EverywhereMembers(subs, s[0], p);
      var k :| 0 <= k < |subs| && InsertOf(subs[k], s[0], p);
      Rearrangements(s[1..], subs[k]);
      InsertOfMultiset(subs[k], s[0], p);
      assert s == [s[0]] + s[1..];
      assert multiset(s) == multiset{s[0]} + multiset(s[1..]);
    }
  }

  lemma SameMembers<T>(p: seq<T>, q: seq<T>, x: T)
    requires multiset(p) == multiset(q)
    ensures x in p <==> x in q
  {
    assert x in multiset(p) <==> x in multiset(q);
  }

  lemma Lengths<T>(s: seq<T>)
    ensures forall k :: 0 <= k < |Listing(s)| ==> |Listing(s)[k]| == |s|
  {
    forall k | 0 <= k < |Listing(s)|
      ensures |Listing(s)[k]| == |s|
    {
      Rearrangements(s, Listing(s)[k]);
      assert |multiset(Listing(s)[k])| == |multiset(s)|;
    }
  }

  lemma {:induction false} EverywhereCount<T>(subs: seq<seq<T>>, x: T, n: nat)
    requires forall k :: 0 <= k < |subs| ==> |subs[k]| == n
    ensures |InsertEverywhere(subs, x)| == |subs| * (n + 1)
  {
    if subs != [] {
      EverywhereCount(subs[..|subs| - 1], x, n);
      InsertsAt(subs[|subs| - 1], x, n + 1);
      assert (|subs| - 1) * (n + 1) + (n + 1) == |subs| * (n + 1);
    }
  }

  /** n! lists come back. */
  lemma {:induction false} ListingCount<T>(s: seq<T>)
    ensures |Listing(s)| == Factorial(|s|)
    decreases |s|
  {
    if |s| > 1 {
      ListingCount(s[1..]);
      Lengths(s[1..]);
      EverywhereCount(Listing(s[1..]), s[0], |s| - 1);
    } else if |s| == 1 {
      assert Factorial(1) == 1 * Factorial(0);
    }
  }

  lemma TakeOut<T>(p: seq<T>, x: T) returns (q: seq<T>)
    requires x in p
    ensures InsertOf(q, x, p) && multiset(q) == multiset(p) - multiset{x}
  {
    var i :| 0 <= i < |p| && p[i] == x;
    q := p[..i] + p[i + 1..];
    assert q[..i] == p[..i] && q[i..] == p[i + 1..];
    assert p == Insert(q, i, x);
    InsertMultiset(q, i, x);
  }

  lemma TailMultiset<T>(s: seq<T>)
    requires s != []
    ensures multiset(s[1..]) == multiset(s) - multiset{s[0]}
  {
    assert s == [s[0]] + s[1..];
  }

  lemma SameLength<T>(p: seq<T>, s: seq<T>)
    requires multiset(p) == multiset(s)
    ensures |p| == |s| && (|s| <= 1 ==> p == s)
  {
    assert |multiset(p)| == |multiset(s)|;
    if |s| == 1 {
      assert p[0] in multiset(p);
      assert p == [p[0]] && s == [s[0]];
    }
  }

  /** Every rearrangement of the input is listed. */
  lemma {:induction false} ListingComplete<T>(s: seq<T>, p: seq<T>)
    requires multiset(p) == multiset(s)
    ensures p in Listing(s)
    decreases |s|
  {
    hide InsertOf, InsertEverywhere;
    SameLength(p, s);
    if |s| > 1 {
      SameMembers(p, s, s[0]);
      TailMultiset(s);
      var q := TakeOut(p, s[0]);
      ListingComplete(s[1..], q);
      EverywhereMembers(Listing(s[1..]), s[0], p);
    }
  }

  // ---------- When each rearrangement occurs once ----------

  lemma InsertPosition<T>(s: seq<T>, i: nat, x: T)
    requires i <= |s| && x !in s
    ensures forall k :: 0 <= k <= |s| ==> (Insert(s, i, x)[k] == x <==> k == i)
    ensures Insert(s, i, x)[..i] + Insert(s, i, x)[i + 1..] == s
  {
    var p := Insert(s, i, x);
    forall k | 0 <= k <= |s| && k != i
      ensures p[k] != x
    {
      assert p[k] == if k < i then s[k] else s[k - 1];
    }
    assert p[..i] == s[..i] && p[i + 1..] == s[i..];
  }

  lemma InsertInjective<T>(s: seq<T>, i: nat, t: seq<T>, j: nat, x: T)
    requires i <= |s| && j <= |t| && x !in s && x !in t
    requires Insert(s, i, x) == Insert(t, j, x)
    ensures i == j && s == t
  {
    InsertPosition(s, i, x);
    InsertPosition(t, j, x);
    var p := Insert(s, i, x);
    assert |p| == |s| + 1 == |t| + 1;
    assert p[i] == x && p[j] == x;
    hide Insert;
  }

  lemma {:induction false} EverywhereDistinct<T>(subs: seq<seq<T>>, x: T)
    requires Distinct(subs) && forall k :: 0 <= k < |subs| ==> x !in subs[k]
    ensures Distinct(InsertEverywhere(subs, x))
  {
    if subs != [] {
      var front, last := subs[..|subs| - 1], subs[|subs| - 1];
      EverywhereDistinct(front, x);
      var early, late := InsertEverywhere(front, x), Inserts(last, x, |last| + 1);
      InsertsAt(last, x, |last| + 1);
      forall i, j | 0 <= i < j < |late|
        ensures late[i] != late[j]
      {
        if late[i] == late[j] { InsertInjective(last, i, last, j, x); }
      }
      forall a, b | 0 <= a < |early| && 0 <= b < |late|
        ensures early[a] != late[b]
      {
        if early[a] == late[b] {
          EverywhereMembers(front, x, early[a]);
          var k :| 0 <= k < |front| && InsertOf(front[k], x, early[a]);
          var i :| 0 <= i <= |front[k]| && early[a] == Insert(front[k], i, x);
          InsertInjective(front[k], i, last, b, x);
        }
      }
      DistinctAppend(early, late);
    }
  }

  lemma DistinctAppend<T>(a: seq<T>, b: seq<T>)
    requires Distinct(a) && Distinct(b)
    requires forall i, j :: 0 <= i < |a| && 0 <= j < |b| ==> a[i] != b[j]
    ensures Distinct(a + b)
  {
  }

  lemma {:induction false} DistinctListing<T>(s: seq<T>)
    requires Distinct(s)
    ensures Distinct(Listing(s))
    decreases |s|
  {
    if |s| > 1 {
      DistinctListing(s[1..]);
      assert s == [s[0]] + s[1..];
      DistinctCons(s[0], s[1..]);
      forall k | 0 <= k < |Listing(s[1..])|
        ensures s[0] !in Listing(s[1..])[k]
      {
        var p := Listing(s[1..])[k];
        Rearrangements(s[1..], p);
        SameMembers(p, s[1..], s[0]);
      }
      EverywhereDistinct(Listing(s[1..]), s[0]);
    }
  }

  /** Inserting an item next to its equal gives the same list twice. */
  lemma TwinInserts<T>(s: seq<T>, x: T, i: nat)
    requires i < |s| && s[i] == x
    ensures Insert(s, i, x) == Insert(s, i + 1, x)
  {
    assert s[..i + 1] == s[..i] + [x] && s[i..] == [x] + s[i + 1..];
  }

  lemma {:induction false} EverywhereRepeats<T>(subs: seq<seq<T>>, x: T)
    requires !Distinct(subs) || exists k :: 0 <= k < |subs| && x in subs[k]
    ensures !Distinct(InsertEverywhere(subs, x))
  {
    var front, last := subs[..|subs| - 1], subs[|subs| - 1];
    var early, late := InsertEverywhere(front, x), Inserts(last, x, |last| + 1);
    var all := early + late;
    InsertsAt(last, x, |last| + 1);
    assert forall j :: 0 <= j < |late| ==> all[|early| + j] == late[j];
    if x in last {
      var i :| 0 <= i < |last| && last[i] == x;
      TwinInserts(last, x, i);
      assert all[|early| + i] == all[|early| + (i + 1)];
    } else if last in front {
      EverywhereMembers(front, x, Insert(last, 0, x));
      var k :| 0 <= k < |front| && front[k] == last;
      assert Insert(last, 0, x) == Insert(front[k], 0, x) && InsertOf(front[k], x, Insert(last, 0, x));
      var a :| 0 <= a < |early| && early[a] == Insert(last, 0, x);
      assert all[a] == all[|early| + 0];
    } else {
      FrontRepeats(subs, x);
      EverywhereRepeats(front, x);
      var i, j :| 0 <= i < j < |early| && early[i] == early[j];
      assert all[i] == all[j];
    }
  }

  lemma FrontRepeats<T>(subs: seq<seq<T>>, x: T)
    requires subs != [] && x !in subs[|subs| - 1] && subs[|subs| - 1] !in subs[..|subs| - 1]
    requires !Distinct(subs) || exists k :: 0 <= k < |subs| && x in subs[k]
    ensures var front := subs[..|subs| - 1]; !Distinct(front) || exists k :: 0 <= k < |front| && x in front[k]
  {
    var front, n := subs[..|subs| - 1], |subs| - 1;
    if !Distinct(subs) {
      var i, j :| 0 <= i < j < |subs| && subs[i] == subs[j];
      assert front[i] == subs[i];
      if j < n { assert front[j] == subs[j]; }
    } else {
      var k :| 0 <= k < |subs| && x in subs[k];
      assert front[k] == subs[k];
    }
  }

  lemma ListingNonEmpty<T>(s: seq<T>)
    ensures Listing(s) != []
  {
    ListingComplete(s, s);
  }

  /** Every permutation is listed exactly once if and only if no item occurs twice in the input. */
  lemma {:induction false} ListedOnceIffDistinct<T>(s: seq<T>)
    ensures Distinct(Listing(s)) <==> Distinct(s)
    decreases |s|
  {
    if Distinct(s) {
      DistinctListing(s);
    } else {
      var subs := Listing(s[1..]);
      assert s == [s[0]] + s[1..];
      DistinctCons(s[0], s[1..]);
      ListedOnceIffDistinct(s[1..]);
      if s[0] in s[1..] {
        ListingNonEmpty(s[1..]);
        Rearrangements(s[1..], subs[0]);
        SameMembers(subs[0], s[1..], s[0]);
      }
      EverywhereRepeats(subs, s[0]);
    }
  }
}
