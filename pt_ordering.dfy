/**
 * Ordering of each constituent list by descending transverse momentum. The
 * source calls `std::sort` with the comparison `a.pt > b.pt`, which is not
 * stable: the only promises are that the result is ordered and that it is a
 * rearrangement of the input. The sort below is one algorithm with exactly
 * that contract; candidates of equal pt may come out in any order.
 */
module PtOrdering {

  import opened Objects

  /** Every earlier candidate has at least the pt of every later one. */
  predicate SortedByPt(s: seq<Candidate>) {
    forall i, j :: 0 <= i < j < |s| ==> s[i].pt >= s[j].pt
  }

  /** Neighbour-wise form of the order. */
  predicate AdjacentSortedByPt(s: seq<Candidate>) {
    forall i :: 0 <= i < |s| - 1 ==> s[i].pt >= s[i + 1].pt
  }

  /** Ordering all pairs and ordering every adjacent pair are the same property. */
  lemma {:induction false} SortedIffAdjacentSorted(s: seq<Candidate>)
    ensures SortedByPt(s) <==> AdjacentSortedByPt(s)
  {
    if AdjacentSortedByPt(s) && |s| > 1 {
      SortedIffAdjacentSorted(s[1..]);
      assert AdjacentSortedByPt(s[1..]);
      forall i, j | 0 <= i < j < |s| ensures s[i].pt >= s[j].pt {
        if i > 0 {
          assert s[1..][i - 1].pt >= s[1..][j - 1].pt;
        } else if j > 1 {
          assert s[1..][0].pt >= s[1..][j - 1].pt;
        }
      }
    }
  }

  /**
   * A sorted list keeps its highest-pt candidates in front: every candidate
   * of a prefix has at least the pt of every candidate after it.
   */
  lemma SortedPrefixDominates(s: seq<Candidate>, n: nat)
    requires SortedByPt(s) && n <= |s|
    ensures forall a, b :: a in s[..n] && b in s[n..] ==> a.pt >= b.pt
  {
    forall a, b | a in s[..n] && b in s[n..] ensures a.pt >= b.pt {
      var i :| 0 <= i < n && s[i] == a;
      var j :| n <= j < |s| && s[j] == b;
    }
  }

  /** Removing one entry from a sorted list leaves it sorted. */
  lemma RemovePreservesSorted(s: seq<Candidate>, j: nat)
    requires SortedByPt(s) && j < |s|
    ensures SortedByPt(s[..j] + s[j + 1..])
  {
    var r := s[..j] + s[j + 1..];
    forall i, k | 0 <= i < k < |r| ensures r[i].pt >= r[k].pt {
      var i' := if i < j then i else i + 1;
      var k' := if k < j then k else k + 1;
      assert r[i] == s[i'] && r[k] == s[k'];
    }
  }

  /** Removing entry `j` removes one occurrence of it from the multiset. */
  lemma RemoveFromMultiset(s: seq<Candidate>, j: nat)
    requires j < |s|
    ensures multiset(s[..j] + s[j + 1..]) == multiset(s) - multiset{s[j]}
  {
    assert s == s[..j] + [s[j]] + s[j + 1..];
  }

  /**
   * Putting entry `j` back in front of its shorter list: when every later
   * entry of `a` matches the list without `b[j]`, and the heads agree with
   * `b[j]`, then `a` and `b` agree position by position.
   */
  lemma ReinsertAgrees(a: seq<Candidate>, b: seq<Candidate>, j: nat, rest: seq<Candidate>, b': seq<Candidate>)
    requires SortedByPt(b) && j < |b| == |a|
    requires rest == a[1..] && b' == b[..j] + b[j + 1..]
    requires a[0].pt == b[0].pt == b[j].pt
    requires forall i :: 0 <= i < |rest| ==> rest[i].pt == b'[i].pt
    ensures forall i :: 0 <= i < |a| ==> a[i].pt == b[i].pt
  {
    forall i | 0 < i < |a| ensures a[i].pt == b[i].pt {
      assert a[i] == rest[i - 1];
      if i - 1 < j {
        assert b'[i - 1] == b[i - 1];
        assert b[i - 1].pt >= b[i].pt >= b[j].pt;
      } else {
        assert b'[i - 1] == b[i];
      }
    }
  }

  /** A position at which a member of the list occurs. */
  lemma PositionOf(s: seq<Candidate>, x: Candidate) returns (j: nat)
    requires x in multiset(s)
    ensures j < |s| && s[j] == x
  {
    j :| 0 <= j < |s| && s[j] == x;
  }

  /** The heads of two sorted lists that hold each other's heads share the largest pt. */
  lemma HeadsShareMaxPt(a: seq<Candidate>, b: seq<Candidate>, j: nat, i0: nat)
    requires SortedByPt(a) && SortedByPt(b)
    requires j < |b| && i0 < |a| && b[j] == a[0] && a[i0] == b[0]
    ensures a[0].pt == b[0].pt == b[j].pt
  {
    assert a[0].pt >= a[i0].pt && b[0].pt >= b[j].pt;
  }

  /** Dropping the head of `a` and entry `j` of `b` keeps both sorted. */
  lemma DropKeepsSorted(a: seq<Candidate>, b: seq<Candidate>, j: nat)
    requires SortedByPt(a) && SortedByPt(b) && a != [] && j < |b|
    ensures SortedByPt(a[1..]) && SortedByPt(b[..j] + b[j + 1..])
  {
    RemovePreservesSorted(a, 0);
    assert a[..0] + a[1..] == a[1..];
    RemovePreservesSorted(b, j);
  }

  /** Dropping the head of `a` and its copy at `j` in `b` keeps them rearrangements of each other. */
  lemma DropKeepsMultiset(a: seq<Candidate>, b: seq<Candidate>, j: nat)
    requires multiset(a) == multiset(b) && a != []
    requires j < |b| && b[j] == a[0]
    ensures multiset(a[1..]) == multiset(b[..j] + b[j + 1..])
  {
    RemoveFromMultiset(a, 0);
    assert a[..0] + a[1..] == a[1..];
    RemoveFromMultiset(b, j);
  }

  /**
   * Two non-empty sorted rearrangements of each other: the head of `a` sits
   * at some position `j` of `b` with the same pt as both heads, and dropping
   * the two copies leaves sorted rearrangements of each other.
   */
  lemma MatchHead(a: seq<Candidate>, b: seq<Candidate>) returns (j: nat)
    requires SortedByPt(a) && SortedByPt(b)
    requires multiset(a) == multiset(b) && a != []
    ensures j < |b| && a[0].pt == b[0].pt == b[j].pt
    ensures SortedByPt(a[1..]) && SortedByPt(b[..j] + b[j + 1..])
    ensures multiset(a[1..]) == multiset(b[..j] + b[j + 1..])
  {
    j := PositionOf(b, a[0]);
    var i0 := PositionOf(a, b[0]);
    HeadsShareMaxPt(a, b, j, i0);
    DropKeepsSorted(a, b, j);
    DropKeepsMultiset(a, b, j);
  }

  /**
   * The order is determined up to ties: two lists sorted by descending pt
   * that are rearrangements of each other carry the same pt at every
   * position, so the freedom an unstable sort has among equal-pt candidates
   * never changes which pt sits where.
   */
  lemma {:induction false} SortedPermutationsAgreeOnPt(a: seq<Candidate>, b: seq<Candidate>)
    requires SortedByPt(a) && SortedByPt(b)
    requires multiset(a) == multiset(b)
    ensures |a| == |b|
    ensures forall i :: 0 <= i < |a| ==> a[i].pt == b[i].pt
  {
    assert |multiset(a)| == |multiset(b)|;
    if a != [] {
      var j := MatchHead(a, b);
      var rest, b' := a[1..], b[..j] + b[j + 1..];
      SortedPermutationsAgreeOnPt(rest, b');
      ReinsertAgrees(a, b, j, rest, b');
    }
  }

  /** Exchanges two neighbouring entries. */
  method SwapWithPrevious(a: array<Candidate>, j: nat)
    requires 0 < j < a.Length
    modifies a
    ensures a[j - 1] == old(a[j]) && a[j] == old(a[j - 1])
    ensures forall m :: 0 <= m < a.Length && m != j - 1 && m != j ==> a[m] == old(a[m])
    ensures multiset(a[..]) == old(multiset(a[..]))
  {
    a[j - 1], a[j] := a[j], a[j - 1];
  }

  /** Moves `a[i]` left past every lighter entry of the sorted prefix `a[..i]`. */
  method InsertIntoSortedPrefix(a: array<Candidate>, i: nat)
    requires 0 < i < a.Length
    requires SortedByPt(a[..i])
    modifies a
    ensures SortedByPt(a[..i + 1])
    ensures forall m :: i < m < a.Length ==> a[m] == old(a[m])
    ensures multiset(a[..]) == old(multiset(a[..]))
  {
    var j := i;
    while j > 0 && a[j - 1].pt < a[j].pt
      invariant 0 <= j <= i
      invariant forall k, l :: 0 <= k < l <= i && k != j && l != j ==> a[k].pt >= a[l].pt
      invariant forall l :: j < l <= i ==> a[j].pt > a[l].pt
      invariant forall m :: i < m < a.Length ==> a[m] == old(a[m])
      invariant multiset(a[..]) == old(multiset(a[..]))
    {
      SwapWithPrevious(a, j);
      j := j - 1;
    }
  }

  /** Insertion sort on an array, in place, by descending pt. */
  method SortByPtDescending(a: array<Candidate>)
    modifies a
    ensures SortedByPt(a[..])
    ensures multiset(a[..]) == old(multiset(a[..]))
  {
    if a.Length == 0 {
      return;
    }
    var i := 1;
    while i < a.Length
      invariant 1 <= i <= a.Length
      invariant SortedByPt(a[..i])
      invariant multiset(a[..]) == old(multiset(a[..]))
    {
      InsertIntoSortedPrefix(a, i);
      i := i + 1;
    }
    assert a[..i] == a[..];
  }

  /**
   * The list sorted by descending pt: `std::sort` over a local vector,
   * modelled as a sort of an array filled from the list.
   */
  method SortedByPtCopy(s: seq<Candidate>) returns (r: seq<Candidate>)
    ensures SortedByPt(r)
    ensures multiset(r) == multiset(s)
    ensures |r| == |s|
  {
    var a := new Candidate[|s|](i requires 0 <= i < |s| => s[i]);
    assert a[..] == s;
    SortByPtDescending(a);
    r := a[..];
    assert |multiset(r)| == |multiset(s)|;
  }
}
