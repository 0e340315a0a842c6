/** The rotation test of the general utility module. */
module Rotation {

  /** t is s with its first k items moved to the end. */
  predicate RotatedBy<T(==)>(s: seq<T>, t: seq<T>, k: nat) {
    k < |s| && t == s[k..] + s[..k]
  }

  ghost predicate Rotated<T>(s: seq<T>, t: seq<T>) {
    exists k: nat :: RotatedBy(s, t, k)
  }

  lemma RotatedReflexive<T>(s: seq<T>)
    requires s != []
    ensures Rotated(s, s)
  {
    assert RotatedBy(s, s, 0);
  }

  lemma RotatedSymmetric<T>(s: seq<T>, t: seq<T>)
    requires Rotated(s, t)
    ensures Rotated(t, s)
  {
    var k: nat :| RotatedBy(s, t, k);
    if k > 0 {
      assert t[|s| - k..] == s[..k] && t[..|s| - k] == s[k..];
      assert s == s[..k] + s[k..];
      assert RotatedBy(t, s, |s| - k);
    } else {
      assert RotatedBy(t, s, 0);
    }
  }

  /** Two rotations in a row are one rotation. */
  lemma ShortRotations<T>(s: seq<T>, j: nat, k: nat)
    requires j + k < |s|
    ensures var t := s[j..] + s[..j]; t[k..] + t[..k] == s[j + k..] + s[..j + k]
  {
    var t := s[j..] + s[..j];
    assert t[k..] == s[j + k..] + s[..j];
    assert t[..k] == s[j..j + k];
    assert s[..j] + s[j..j + k] == s[..j + k];
  }

  lemma LongRotations<T>(s: seq<T>, j: nat, k: nat)
    requires j < |s| && k < |s| && j + k >= |s|
    ensures var t, m := s[j..] + s[..j], j + k - |s|; t[k..] + t[..k] == s[m..] + s[..m]
  {
    var t, m := s[j..] + s[..j], j + k - |s|;
    assert t[k..] == s[m..j];
    assert t[..k] == s[j..] + s[..m];
    assert s[m..j] + s[j..] == s[m..];
  }

  lemma RotatedTransitive<T>(s: seq<T>, t: seq<T>, u: seq<T>)
    requires Rotated(s, t) && Rotated(t, u)
    ensures Rotated(s, u)
  {
    var j: nat :| RotatedBy(s, t, j);
    var k: nat :| RotatedBy(t, u, k);
    if j + k < |s| {
      ShortRotations(s, j, k);
      assert RotatedBy(s, u, j + k);
    } else {
      LongRotations(s, j, k);
      assert RotatedBy(s, u, j + k - |s|);
    }
  }

  /** True exactly for rotations; the empty pair has no head item to look for. */
  method IsRotated<T(==)>(seq1: seq<T>, seq2: seq<T>) returns (result: bool)
    requires |seq1| != |seq2| || seq2 != []
    ensures result <==> Rotated(seq1, seq2)
  {
    if |seq1| != |seq2| {
      return false;
    }
    var startIndexes: seq<nat> := [];
    var headItem := seq2[0];
    for index1 := 0 to |seq1|
      invariant forall i: nat :: i in startIndexes <==> i < index1 && seq1[i] == headItem
    {
      if seq1[index1] == headItem {
        startIndexes := startIndexes + [index1];
      }
    }
    var doubleSeq1 := seq1 + seq1;
    for i := 0 to |startIndexes|
      invariant forall j :: 0 <= j < i ==> !RotatedBy(seq1, seq2, startIndexes[j])
    {
      var index1 := startIndexes[i];
      assert index1 in startIndexes;
      assert doubleSeq1[index1..index1 + |seq1|] == seq1[index1..] + seq1[..index1];
      if doubleSeq1[index1..index1 + |seq1|] == seq2 {
        assert RotatedBy(seq1, seq2, index1);
        return true;
      }
    }
    forall k: nat
      ensures !RotatedBy(seq1, seq2, k)
    {
      if k < |seq1| && k in startIndexes {
        var j :| 0 <= j < |startIndexes| && startIndexes[j] == k;
      }
    }
    return false;
  }
}
