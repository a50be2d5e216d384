/**
 * The `sort(begin, end, SortTracksFunc())` the playlist writers run on a
 * bucket before writing it, as an insertion sort over an array.
 */
module TrackSort {
  import opened Tracks

  /** No later element is less than an earlier one. */
  ghost predicate SortedBy<T>(s: seq<T>, less: (T, T) -> bool)
  {
    forall i, j :: 0 <= i < j < |s| ==> !less(s[j], s[i])
  }

  /** What std::sort asks of its comparator, on the elements of s. */
  ghost predicate StrictWeakOn<T>(s: seq<T>, less: (T, T) -> bool)
  {
    && (forall x, y :: x in s && y in s && less(x, y) ==> !less(y, x))
    && (forall x, y, z :: x in s && y in s && z in s && !less(x, y) && !less(y, z) ==> !less(x, z))
  }

  /** Every track of s is in mode m, as every bucket the program fills is. */
  ghost predicate Uniform(s: seq<Track>, m: SortMode)
  {
    forall i :: 0 <= i < |s| ==> s[i].sort == m
  }

  /** Tracks that share one mode meet what std::sort asks of operator<. */
  lemma UniformIsStrictWeak(s: seq<Track>, m: SortMode)
    requires Uniform(s, m)
    ensures StrictWeakOn(s, Less)
  {
    forall x, y | x in s && y in s && Less(x, y) ensures !Less(y, x) {
      LessAsymmetric(x, y);
    }
    forall x, y, z | x in s && y in s && z in s && !Less(x, y) && !Less(y, z) ensures !Less(x, z) {
      NotLessTransitive(x, y, z);
    }
  }

  /**
   * Sorts a in place by operator<. The result is always a permutation of
   * the input; it is sorted whenever all tracks share one mode. Tracks are
   * moved as whole values, which is what std::sort's moves through
   * Track::operator= do when the paths in the array are pairwise distinct.
   */
  method SortTracks(a: array<Track>)
    modifies a
    ensures multiset(a[..]) == multiset(old(a[..]))
    ensures forall m :: Uniform(old(a[..]), m) ==> SortedBy(a[..], Less)
  {
    ghost var before := a[..];
    InsertionSort(a, Less);
    forall m | Uniform(before, m) ensures SortedBy(a[..], Less) {
      UniformIsStrictWeak(before, m);
    }
  }

  /** An insertion sort by any comparator; sorted when the comparator is a strict weak order. */
  method InsertionSort<T>(a: array<T>, less: (T, T) -> bool)
    modifies a
    ensures multiset(a[..]) == multiset(old(a[..]))
    ensures StrictWeakOn(old(a[..]), less) ==> SortedBy(a[..], less)
  {
    ghost var ok := StrictWeakOn(a[..], less);
    var i := 1;
    while i < a.Length
      invariant a.Length == 0 || 1 <= i <= a.Length
      invariant multiset(a[..]) == multiset(old(a[..]))
      invariant ok ==> StrictWeakOn(a[..], less)
      invariant ok ==> SortedPrefix(a[..], i, less)
    {
      ghost var s := a[..];
      var j := Insert(a, i, less);
      if ok {
        InsertedSorted(s, a[..], i, j, less);
        SameElements(s, a[..]);
      }
      i := i + 1;
    }
  }

  ghost predicate SortedPrefix<T>(s: seq<T>, n: nat, less: (T, T) -> bool)
  {
    forall p, q :: 0 <= p < q < n && q < |s| ==> !less(s[q], s[p])
  }

  /**
   * t is s with s[i] moved down to position j, past elements it is less
   * than, and stopped by one it is not less than (or by the front).
   */
  ghost predicate MovedDown<T>(s: seq<T>, t: seq<T>, i: nat, j: nat, less: (T, T) -> bool)
  {
    && j <= i < |s| == |t|
    && (forall k :: 0 <= k < j ==> t[k] == s[k])
    && t[j] == s[i]
    && (forall k :: j < k <= i ==> t[k] == s[k - 1])
    && (forall k :: i < k < |s| ==> t[k] == s[k])
    && (forall k :: j <= k < i ==> less(s[i], s[k]))
    && (j == 0 || !less(s[i], s[j - 1]))
  }

  /** One pass: a[i] sinks into a[..i], to the position it returns. */
  method Insert<T>(a: array<T>, i: nat, less: (T, T) -> bool) returns (j: nat)
    requires 1 <= i < a.Length
    modifies a
    ensures multiset(a[..]) == multiset(old(a[..]))
    ensures MovedDown(old(a[..]), a[..], i, j, less)
  {
    ghost var s := a[..];
    j := i;
    while j > 0 && less(a[j], a[j - 1])
      invariant Sinking(s, a[..], i, j, less)
      invariant multiset(a[..]) == multiset(s)
    {
      SinkStep(s, a[..], i, j, less);
      Swap(a, j - 1, j);
      j := j - 1;
    }
  }

  /** Part way through a pass: s[i] has sunk to j past elements it is less than. */
  ghost predicate Sinking<T>(s: seq<T>, t: seq<T>, i: nat, j: nat, less: (T, T) -> bool)
  {
    && j <= i < |s| == |t|
    && (forall k :: 0 <= k < j ==> t[k] == s[k])
    && t[j] == s[i]
    && (forall k :: j < k <= i ==> t[k] == s[k - 1])
    && (forall k :: i < k < |s| ==> t[k] == s[k])
    && (forall k :: j <= k < i ==> less(s[i], s[k]))
  }

  /** Swapping the sinking element with a greater neighbour sinks it one further. */
  lemma SinkStep<T>(s: seq<T>, t: seq<T>, i: nat, j: nat, less: (T, T) -> bool)
    requires Sinking(s, t, i, j, less) && 0 < j && less(t[j], t[j - 1])
    ensures Sinking(s, t[j - 1 := t[j]][j := t[j - 1]], i, j - 1, less)
  {
  }

  /** Exchanges two elements of a. */
  method Swap<T>(a: array<T>, x: nat, y: nat)
    requires x < y < a.Length
    modifies a
    ensures a[..] == old(a[..])[x := old(a[y])][y := old(a[x])]
    ensures multiset(a[..]) == multiset(old(a[..]))
  {
    a[x], a[y] := a[y], a[x];
  }

  lemma SameElements<T>(s: seq<T>, t: seq<T>)
    requires multiset(s) == multiset(t)
    ensures forall x :: x in s <==> x in t
  {
    forall x ensures x in s <==> x in t {
      assert x in s <==> x in multiset(s);
      assert x in t <==> x in multiset(t);
    }
  }

  /** Moving s[i] down keeps a sorted prefix sorted, one longer. */
  lemma InsertedSorted<T>(s: seq<T>, t: seq<T>, i: nat, j: nat, less: (T, T) -> bool)
    requires StrictWeakOn(s, less) && SortedPrefix(s, i, less)
    requires MovedDown(s, t, i, j, less)
    ensures SortedPrefix(t, i + 1, less)
  {
    forall p, q | 0 <= p < q <= i ensures !less(t[q], t[p]) {
      if q == j {
        // t[p] == s[p] with p < j: s[i] is not less than s[j-1], which is not less than s[p]
        if p < j - 1 {
          assert !less(s[j - 1], s[p]);
        }
      } else if p == j {
        // t[q] == s[q-1] and s[i] is less than it
        assert less(s[i], s[q - 1]);
      } else if p < j && q > j {
        assert t[q] == s[q - 1];
      }
    }
  }
}
