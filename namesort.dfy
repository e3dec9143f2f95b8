/** Sorting the action-unit name lists: the reference definition (insertion into a sorted
    sequence), the in-place sort the header code performs on its name vector, and the fact that a
    sorted permutation is unique, so the two agree. */
module NameSort {
  import opened LexOrder

  /** `x` placed in front of the first element of `s` it does not exceed. */
  function Insert(x: string, s: seq<string>): seq<string> {
    if s == [] then [x]
    else if LexLe(x, s[0]) then [x] + s
    else [s[0]] + Insert(x, s[1..])
  }

  /** Inserting adds exactly `x` to the names. */
  lemma {:induction false} InsertPermutes(x: string, s: seq<string>)
    ensures multiset(Insert(x, s)) == multiset(s) + multiset{x}
  {
    if s != [] && !LexLe(x, s[0]) {
      assert s == [s[0]] + s[1..];
      InsertPermutes(x, s[1..]);
    }
  }

  /** A sorted sequence stays sorted when an element no larger than all of it is put in front. */
  lemma SortedCons(y: string, t: seq<string>)
    requires Sorted(t)
    requires forall z :: z in t ==> LexLe(y, z)
    ensures Sorted([y] + t)
  {
    var s := [y] + t;
    forall i, j | 0 <= i < j < |s| ensures LexLe(s[i], s[j]) {
      if i > 0 {
        assert s[i] == t[i - 1] && s[j] == t[j - 1];
      } else {
        assert s[j] == t[j - 1];
        assert s[j] in t;
      }
    }
  }

  lemma {:induction false} InsertSorted(x: string, s: seq<string>)
    requires Sorted(s)
    ensures Sorted(Insert(x, s))
  {
    if s == [] {
    } else if LexLe(x, s[0]) {
      forall z | z in s ensures LexLe(x, z) {
        var k :| 0 <= k < |s| && s[k] == z;
        if k > 0 {
          LexLeTransitive(x, s[0], z);
        }
      }
      SortedCons(x, s);
    } else {
      var t := s[1..];
      SortedTail(s);
      InsertSorted(x, t);
      InsertPermutes(x, t);
      LexLeTotal(x, s[0]);
      forall z | z in Insert(x, t) ensures LexLe(s[0], z) {
        assert z in multiset(Insert(x, t));
        if z != x {
          assert z in multiset(t);
          var k :| 0 <= k < |t| && t[k] == z;
          assert s[k + 1] == z;
        }
      }
      SortedCons(s[0], Insert(x, t));
    }
  }

  /** The reference sort: every name inserted into the sorted rest. */
  function SortedNames(s: seq<string>): seq<string> {
    if s == [] then [] else Insert(s[0], SortedNames(s[1..]))
  }

  /** The reference sort puts the names in order. */
  lemma {:induction false} SortedNamesSorted(s: seq<string>)
    ensures Sorted(SortedNames(s))
  {
    if s != [] {
      SortedNamesSorted(s[1..]);
      InsertSorted(s[0], SortedNames(s[1..]));
    }
  }

  /** The reference sort keeps each name, as often as it occurs. */
  lemma {:induction false} SortedNamesPermutes(s: seq<string>)
    ensures multiset(SortedNames(s)) == multiset(s)
  {
    if s != [] {
      assert s == [s[0]] + s[1..];
      SortedNamesPermutes(s[1..]);
      InsertPermutes(s[0], SortedNames(s[1..]));
    }
  }

  /** The tail of a sorted sequence is sorted. */
  lemma SortedTail(s: seq<string>)
    requires s != [] && Sorted(s)
    ensures Sorted(s[1..])
  {
    var t := s[1..];
    forall p, q | 0 <= p < q < |t| ensures LexLe(t[p], t[q]) {
      assert t[p] == s[p + 1] && t[q] == s[q + 1];
    }
  }

  /** The head of a sorted sequence is no larger than any of its elements. */
  lemma SortedHeadLeast(s: seq<string>, z: string)
    requires Sorted(s) && z in s
    ensures LexLe(s[0], z)
  {
    var k :| 0 <= k < |s| && s[k] == z;
    if k == 0 { LexLeReflexive(z); }
  }

  /** Two sorted arrangements of the same names are the same sequence: sorting is determined by
      the multiset of names alone, whatever order they were staged in. */
  lemma {:induction false} SortedUnique(a: seq<string>, b: seq<string>)
    requires Sorted(a) && Sorted(b)
    requires multiset(a) == multiset(b)
    ensures a == b
  {
    if a == [] {
      assert |b| == |multiset(b)| == 0;
    } else {
      assert |b| == |multiset(b)| == |a|;
      assert a[0] in multiset(b) && b[0] in multiset(a);
      SortedHeadLeast(a, b[0]);
      SortedHeadLeast(b, a[0]);
      LexLeAntisymmetric(a[0], b[0]);
      assert a == [a[0]] + a[1..];
      assert b == [b[0]] + b[1..];
      assert multiset(a[1..]) == multiset(a) - multiset{a[0]};
      assert multiset(b[1..]) == multiset(b) - multiset{b[0]};
      SortedTail(a);
      SortedTail(b);
      SortedUnique(a[1..], b[1..]);
    }
  }

  /** The names at positions `lo` to `hi - 1` are in order. */
  predicate SortedRange(s: seq<string>, lo: int, hi: int) {
    forall p, q :: lo <= p < q < hi && 0 <= p && q < |s| ==> LexLe(s[p], s[q])
  }

  /** Partway through moving the name at `i` down to position `j`: the names before `j` and the
      names from `j` to `i` are each in order, and none before `j` exceeds one after it. */
  predicate Sinking(s: seq<string>, j: int, i: int) {
    && 0 <= j <= i < |s|
    && SortedRange(s, 0, j)
    && SortedRange(s, j, i + 1)
    && forall p, q :: 0 <= p < j < q <= i ==> LexLe(s[p], s[q])
  }

  /** Swapping the moving name with a larger left neighbour moves it one place down. */
  lemma SinkStep(s: seq<string>, j: int, i: int)
    requires Sinking(s, j, i) && j > 0 && !LexLe(s[j - 1], s[j])
    ensures Sinking(s[j - 1 := s[j]][j := s[j - 1]], j - 1, i)
    ensures multiset(s[j - 1 := s[j]][j := s[j - 1]]) == multiset(s)
  {
    var t := s[j - 1 := s[j]][j := s[j - 1]];
    LexLeTotal(s[j - 1], s[j]);
    forall p, q | j - 1 <= p < q <= i ensures LexLe(t[p], t[q]) {
      if p == j - 1 && q > j {
        LexLeTransitive(s[j], s[j - 1], s[q]);
      }
    }
  }

  /** Once the moving name has stopped, the first `i + 1` names are in order. */
  lemma SinkDone(s: seq<string>, j: int, i: int)
    requires Sinking(s, j, i) && (j == 0 || LexLe(s[j - 1], s[j]))
    ensures SortedRange(s, 0, i + 1)
  {
    forall p, q | 0 <= p < q <= i ensures LexLe(s[p], s[q]) {
      if p < j - 1 && q == j {
        LexLeTransitive(s[p], s[j - 1], s[j]);
      }
    }
  }

  /** std::sort over a name vector, as an insertion sort by adjacent swaps. */
  method SortInPlace(a: array<string>)
    modifies a
    ensures Sorted(a[..])
    ensures multiset(a[..]) == multiset(old(a[..]))
  {
    var i := 0;
    while i < a.Length
      invariant 0 <= i <= a.Length
      invariant SortedRange(a[..], 0, i)
      invariant multiset(a[..]) == multiset(old(a[..]))
    {
      var j := i;
      while j > 0 && !LexLe(a[j - 1], a[j])
        invariant Sinking(a[..], j, i)
        invariant multiset(a[..]) == multiset(old(a[..]))
      {
        SinkStep(a[..], j, i);
        a[j - 1], a[j] := a[j], a[j - 1];
        j := j - 1;
      }
      SinkDone(a[..], j, i);
      i := i + 1;
    }
  }
}
