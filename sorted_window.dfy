/**
 * Value-level facts about the sorted window of the running median: ascending
 * order, the upper-bound insertion point, erase and insert at a position, the
 * uniqueness of a sorted arrangement of a multiset, and the median itself.
 */
module SortedWindow {

  /** Non-decreasing order, smallest value first. */
  predicate Sorted(s: seq<int>)
  {
    forall i, j :: 0 <= i < j < |s| ==> s[i] <= s[j]
  }

  /**
   * k is the upper bound of v in s: every element before k is at most v and
   * every element from k on is strictly greater (what `std::upper_bound`
   * returns on a sorted range).
   */
  predicate IsUpperBound(s: seq<int>, v: int, k: int)
  {
    && 0 <= k <= |s|
    && (forall i :: 0 <= i < k ==> s[i] <= v)
    && (forall i :: k <= i < |s| ==> v < s[i])
  }

  /** s with v placed at position k. */
  function Insert(s: seq<int>, k: nat, v: int): (r: seq<int>)
    requires k <= |s|
    ensures |r| == |s| + 1 && r[k] == v
    ensures forall i :: 0 <= i < k ==> r[i] == s[i]
    ensures forall i :: k < i < |r| ==> r[i] == s[i - 1]
    ensures multiset(r) == multiset(s) + multiset{v}
  {
    assert s == s[..k] + s[k..];
    s[..k] + [v] + s[k..]
  }

  /** s without the element at position e. */
  function Remove(s: seq<int>, e: nat): (r: seq<int>)
    requires e < |s|
    ensures |r| == |s| - 1
    ensures forall i :: 0 <= i < e ==> r[i] == s[i]
    ensures forall i :: e <= i < |r| ==> r[i] == s[i + 1]
    ensures multiset(r) == multiset(s) - multiset{s[e]}
  {
    assert s == s[..e] + [s[e]] + s[e + 1..];
    s[..e] + s[e + 1..]
  }

  /**
   * A sequence that agrees with s except that [ig, ie] holds v followed by
   * s[ig..ie) is s with position ie erased and v inserted at ig.
   */
  lemma EraseRightShape(s: seq<int>, t: seq<int>, ie: nat, ig: nat, v: int)
    requires ig < ie < |s| == |t|
    requires forall j :: 0 <= j < ig ==> t[j] == s[j]
    requires t[ig] == v
    requires forall j :: ig < j <= ie ==> t[j] == s[j - 1]
    requires forall j :: ie < j < |s| ==> t[j] == s[j]
    ensures t == Insert(Remove(s, ie), ig, v)
  {
  }

  /**
   * A sequence that agrees with s except that [ie, ig - 1) holds s(ie, ig)
   * and ig - 1 holds v is s with position ie erased and v inserted at ig - 1.
   */
  lemma EraseLeftShape(s: seq<int>, t: seq<int>, ie: nat, ig: nat, v: int)
    requires ie < ig <= |s| == |t|
    requires forall j :: 0 <= j < ie ==> t[j] == s[j]
    requires forall j :: ie <= j < ig - 1 ==> t[j] == s[j + 1]
    requires t[ig - 1] == v
    requires forall j :: ig <= j < |s| ==> t[j] == s[j]
    ensures t == Insert(Remove(s, ie), ig - 1, v)
  {
  }

  /**
   * A sequence one longer than s that holds v at k and s shifted right by one
   * from there on is s with v inserted at k.
   */
  lemma InsertShape(s: seq<int>, t: seq<int>, k: nat, v: int)
    requires k <= |s| && |t| == |s| + 1
    requires forall j :: 0 <= j < k ==> t[j] == s[j]
    requires t[k] == v
    requires forall j :: k < j < |t| ==> t[j] == s[j - 1]
    ensures t == Insert(s, k, v)
  {
  }

  /** Inserting at the upper bound keeps a sorted sequence sorted. */
  lemma InsertAtUpperBound(s: seq<int>, k: nat, v: int)
    requires Sorted(s) && IsUpperBound(s, v, k)
    ensures Sorted(Insert(s, k, v))
  {
  }

  /** Erasing any position keeps a sorted sequence sorted. */
  lemma RemoveKeepsSorted(s: seq<int>, e: nat)
    requires Sorted(s) && e < |s|
    ensures Sorted(Remove(s, e))
  {
  }

  /**
   * After erasing position e, the upper bound k of v moves one place left
   * when e lies left of k and stays where it was otherwise.
   */
  lemma UpperBoundAfterRemove(s: seq<int>, e: nat, k: nat, v: int)
    requires e < |s| && IsUpperBound(s, v, k)
    ensures IsUpperBound(Remove(s, e), v, if e < k then k - 1 else k)
  {
  }

  /** The first element of a sorted sequence is at most each of its values. */
  lemma SortedHeadIsLeast(s: seq<int>, x: int)
    requires Sorted(s) && x in multiset(s)
    ensures s[0] <= x
  {
    var j :| 0 <= j < |s| && s[j] == x;
  }

  /** Dropping the first element removes one copy of it from the multiset. */
  lemma MultisetOfTail(s: seq<int>)
    requires |s| > 0
    ensures multiset(s[1..]) == multiset(s) - multiset{s[0]}
  {
    assert s == [s[0]] + s[1..];
  }

  /**
   * Two non-empty sorted arrangements of one multiset start with the same
   * (least) value, and what follows is again one multiset.
   */
  lemma SameLeast(a: seq<int>, b: seq<int>)
    requires Sorted(a) && Sorted(b) && multiset(a) == multiset(b) && |a| > 0
    ensures |b| > 0 && a[0] == b[0]
    ensures Sorted(a[1..]) && Sorted(b[1..]) && multiset(a[1..]) == multiset(b[1..])
  {
    assert a[0] in multiset(b);
    assert b[0] in multiset(a);
    SortedHeadIsLeast(b, a[0]);
    SortedHeadIsLeast(a, b[0]);
    MultisetOfTail(a);
    MultisetOfTail(b);
  }

  /**
   * A multiset has exactly one sorted arrangement.  So "sorting q yields s"
   * holds exactly when s is sorted and is a permutation of q.
   */
  lemma {:induction false} SortedUnique(a: seq<int>, b: seq<int>)
    requires Sorted(a) && Sorted(b) && multiset(a) == multiset(b)
    ensures a == b
    decreases |a|
  {
    if |a| == 0 {
      assert |b| == |multiset(b)| == |multiset(a)| == 0;
    } else {
      SameLeast(a, b);
      SortedUnique(a[1..], b[1..]);
      assert a == [a[0]] + a[1..] && b == [b[0]] + b[1..];
    }
  }

  /** s is what sorting (any permutation of) q produces. */
  ghost predicate SortsTo(q: seq<int>, s: seq<int>)
  {
    Sorted(s) && multiset(q) == multiset(s)
  }

  /**
   * Comparing a sorted copy of q element-wise with s, as an integrity check
   * that sorts q does, succeeds exactly when SortsTo(q, s).
   */
  lemma SortedCopyComparison(q: seq<int>, sortedCopy: seq<int>, s: seq<int>)
    requires Sorted(sortedCopy) && multiset(sortedCopy) == multiset(q)
    ensures sortedCopy == s <==> SortsTo(q, s)
  {
    if SortsTo(q, s) {
      SortedUnique(sortedCopy, s);
    }
  }

  /** Arithmetic shift right by one on an integer: halving rounded down. */
  function Halve(x: int): (r: int)
    ensures 2 * r <= x <= 2 * r + 1
  {
    x / 2
  }

  /**
   * The median of a sorted window: 0 for the empty window, the middle element
   * for an odd count, the rounded-down mean of the two middle elements for an
   * even count.
   */
  function Median(s: seq<int>): int
  {
    if |s| == 0 then 0
    else if |s| % 2 == 1 then s[|s| / 2]
    else Halve(s[|s| / 2 - 1] + s[|s| / 2])
  }

  /**
   * In a non-empty sorted window the median lies between the two middle
   * elements, so at least half of the window is at most the median and at
   * least half is at least the median.
   */
  lemma {:induction false} MedianSplitsWindow(s: seq<int>)
    requires Sorted(s) && |s| > 0
    ensures s[(|s| - 1) / 2] <= Median(s) <= s[|s| / 2]
    ensures forall i :: 0 <= i <= (|s| - 1) / 2 ==> s[i] <= Median(s)
    ensures forall i :: |s| / 2 <= i < |s| ==> Median(s) <= s[i]
  {
    var m := Median(s);
    if |s| % 2 == 0 {
      assert s[|s| / 2 - 1] <= s[|s| / 2];
    }
    assert s[(|s| - 1) / 2] <= m <= s[|s| / 2];
    forall i | 0 <= i <= (|s| - 1) / 2
      ensures s[i] <= m
    {
      assert s[i] <= s[(|s| - 1) / 2];
    }
    forall i | |s| / 2 <= i < |s|
      ensures m <= s[i]
    {
      assert s[|s| / 2] <= s[i];
    }
  }
}
