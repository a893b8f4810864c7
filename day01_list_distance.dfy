/** The two location-id lists (1/day1.go): the total distance between the sorted lists and
    the similarity score. */
module ListDistance {

  datatype Result<T> = Ok(value: T) | Err(message: string)

  predicate Sorted(s: seq<int>)
  {
    forall i, j :: 0 <= i < j < |s| ==> s[i] <= s[j]
  }

  function Abs(x: int): int
  {
    if x < 0 then -x else x
  }

  /** Sum of |a[i] - b[i]| over the common indices. */
  function PairwiseDistance(a: seq<int>, b: seq<int>): (d: int)
    requires |a| == |b|
    ensures d >= 0
  {
    if a == [] then 0
    else PairwiseDistance(a[..|a| - 1], b[..|b| - 1]) + Abs(a[|a| - 1] - b[|b| - 1])
  }

  /** The last element of a sorted sequence bounds every element of its multiset. */
  lemma LastIsGreatest(s: seq<int>, v: int)
    requires Sorted(s) && v in multiset(s)
    ensures s != [] && v <= s[|s| - 1]
  {
    assert v in s;
  }

  /** Dropping the last element of a sorted sequence leaves it sorted and removes one copy of
      that element from the multiset. */
  lemma DropLast(s: seq<int>)
    requires Sorted(s) && s != []
    ensures s == s[..|s| - 1] + [s[|s| - 1]] && Sorted(s[..|s| - 1])
    ensures multiset(s[..|s| - 1]) == multiset(s) - multiset{s[|s| - 1]}
  {
    assert s == s[..|s| - 1] + [s[|s| - 1]];
  }

  /** The sorted arrangement of a multiset is unique. */
  lemma {:induction false} SortedUnique(s: seq<int>, t: seq<int>)
    requires Sorted(s) && Sorted(t) && multiset(s) == multiset(t)
    ensures s == t
    decreases |s|
  {
    assert |t| == |multiset(t)| == |multiset(s)| == |s|;
    if s != [] {
      var x := s[|s| - 1];
      LastIsGreatest(t, x);
      LastIsGreatest(s, t[|t| - 1]);
      assert t[|t| - 1] == x;
      var s', t' := s[..|s| - 1], t[..|t| - 1];
      DropLast(s);
      DropLast(t);
      SortedUnique(s', t');
    }
  }

  /** The distance of two lists depends only on their contents, not on their order. */
  lemma DistanceIgnoresOrder(a: seq<int>, b: seq<int>, a': seq<int>, b': seq<int>)
    requires Sorted(a) && Sorted(b) && Sorted(a') && Sorted(b')
    requires multiset(a) == multiset(a') && multiset(b) == multiset(b')
    requires |a| == |b|
    ensures |a'| == |b'| && PairwiseDistance(a, b) == PairwiseDistance(a', b')
  {
    SortedUnique(a, a');
    SortedUnique(b, b');
  }

  /** Exchanging two neighbouring cells keeps the array's multiset. */
  method SwapAdjacent(a: array<int>, j: int)
    requires 0 < j < a.Length
    modifies a
    ensures a[j - 1] == old(a[j]) && a[j] == old(a[j - 1])
    ensures forall k :: 0 <= k < a.Length && k != j && k != j - 1 ==> a[k] == old(a[k])
    ensures multiset(a[..]) == old(multiset(a[..]))
  {
    a[j - 1], a[j] := a[j], a[j - 1];
  }

  /** slices.Sort: the caller's slice is reordered in place into ascending order. */
  method SortInPlace(a: array<int>)
    modifies a
    ensures Sorted(a[..])
    ensures multiset(a[..]) == old(multiset(a[..]))
  {
    var i := 1;
    while i < a.Length
      invariant 1 <= i || a.Length == 0
      invariant i <= a.Length || a.Length == 0
      invariant forall p, q :: 0 <= p < q < i && q < a.Length ==> a[p] <= a[q]
      invariant multiset(a[..]) == old(multiset(a[..]))
    {
      var j := i;
      while j > 0 && a[j - 1] > a[j]
        invariant 0 <= j <= i
        invariant forall p, q :: 0 <= p < q <= i && q != j ==> a[p] <= a[q]
        invariant 0 < j < i ==> a[j - 1] <= a[j + 1]
        invariant multiset(a[..]) == old(multiset(a[..]))
      {
        SwapAdjacent(a, j);
        j := j - 1;
      }
      i := i + 1;
    }
  }

  /** calculateDistance: lists of different lengths are an error and are left untouched;
      otherwise both are sorted in place and the distance is summed over the sorted lists. */
  method CalculateDistance(a: array<int>, b: array<int>) returns (r: Result<int>)
    requires a != b
    modifies a, b
    ensures a.Length != b.Length ==> r.Err? && a[..] == old(a[..]) && b[..] == old(b[..])
    ensures a.Length == b.Length ==>
      && Sorted(a[..]) && multiset(a[..]) == old(multiset(a[..]))
      && Sorted(b[..]) && multiset(b[..]) == old(multiset(b[..]))
      && r == Ok(PairwiseDistance(a[..], b[..]))
  {
    if a.Length != b.Length {
      return Err("Lists are not same length");
    }
    SortInPlace(a);
    SortInPlace(b);
    var distance := 0;
    var i := 0;
    while i < a.Length
      invariant 0 <= i <= a.Length
      invariant distance == PairwiseDistance(a[..i], b[..i])
    {
      assert a[..i + 1][..i] == a[..i] && b[..i + 1][..i] == b[..i];
      distance := distance + Abs(a[i] - b[i]);
      i := i + 1;
    }
    assert a[..i] == a[..] && b[..i] == b[..];
    r := Ok(distance);
  }

  /** Occurrences of x in s. */
  function Occurrences(s: seq<int>, x: int): (n: nat)
    ensures n == multiset(s)[x]
  {
    if s == [] then 0
    else
      assert s == s[..|s| - 1] + [s[|s| - 1]];
      Occurrences(s[..|s| - 1], x) + (if s[|s| - 1] == x then 1 else 0)
  }

  /** Sum over the left elements of element * (occurrences in the right list). */
  function Similarity(left: seq<int>, right: seq<int>): int
  {
    if left == [] then 0
    else Similarity(left[..|left| - 1], right) + left[|left| - 1] * Occurrences(right, left[|left| - 1])
  }

  /** The similarity depends only on the multiset of the right list. */
  lemma {:induction false} SimilarityIgnoresRightOrder(left: seq<int>, right: seq<int>, right': seq<int>)
    requires multiset(right) == multiset(right')
    ensures Similarity(left, right) == Similarity(left, right')
  {
    if left != [] {
      SimilarityIgnoresRightOrder(left[..|left| - 1], right, right');
    }
  }

  /** Left elements absent from the right list add nothing. */
  lemma {:induction false} SimilarityOfAbsent(left: seq<int>, right: seq<int>, x: int)
    requires x !in right
    ensures Similarity(left + [x], right) == Similarity(left, right)
  {
    assert (left + [x])[..|left|] == left;
    assert multiset(right)[x] == 0;
  }

  /** One more element on the right adds one occurrence of itself and none of anything else. */
  lemma OccurrencesSnoc(s: seq<int>, v: int)
    ensures forall x :: Occurrences(s + [v], x) == Occurrences(s, x) + (if v == x then 1 else 0)
  {
    assert multiset(s + [v]) == multiset(s) + multiset{v};
  }

  /** One more element on the left adds element * occurrences. */
  lemma SimilaritySnoc(left: seq<int>, right: seq<int>, x: int)
    ensures Similarity(left + [x], right) == Similarity(left, right) + x * Occurrences(right, x)
  {
    assert (left + [x])[..|left|] == left;
  }

  /** The counting loop of calculateSimilarityScore: the map holds exactly the values of the
      right list, each with its number of occurrences. */
  method CountFrequencies(right: array<int>) returns (frequencies: map<int, nat>)
    ensures forall x :: x in frequencies <==> x in right[..]
    ensures forall x :: x in frequencies ==> frequencies[x] == Occurrences(right[..], x)
  {
    frequencies := map[];
    var i := 0;
    while i < right.Length
      invariant 0 <= i <= right.Length
      invariant forall x :: x in frequencies <==> x in right[..i]
      invariant forall x :: x in frequencies ==> frequencies[x] == Occurrences(right[..i], x)
    {
      assert right[..i + 1] == right[..i] + [right[i]];
      OccurrencesSnoc(right[..i], right[i]);
      var elem := right[i];
      var current := if elem in frequencies then frequencies[elem] else 0;
      frequencies := frequencies[elem := current + 1];
      i := i + 1;
    }
    assert right[..i] == right[..];
  }

  /** calculateSimilarityScore: count the right list into a frequency map, then add
      elem * frequency for each left element found in it. It never fails and changes
      neither array. */
  method CalculateSimilarityScore(left: array<int>, right: array<int>) returns (similarity: int)
    ensures similarity == Similarity(left[..], right[..])
  {
    var frequencies := CountFrequencies(right);
    similarity := 0;
    var i := 0;
    while i < left.Length
      invariant 0 <= i <= left.Length
      invariant similarity == Similarity(left[..i], right[..])
    {
      var elem := left[i];
      assert left[..i + 1] == left[..i] + [elem];
      SimilaritySnoc(left[..i], right[..], elem);
      if elem !in frequencies {
        assert Occurrences(right[..], elem) == 0;
        i := i + 1;
        continue;
      }
      similarity := similarity + elem * frequencies[elem];
      i := i + 1;
    }
    assert left[..i] == left[..];
  }
}
