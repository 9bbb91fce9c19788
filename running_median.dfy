/**
 * The running-median engine `Runmedian<T, kSize>`.  It keeps the window in two
 * forms: in arrival order, in an owned circular queue, and in value order, in
 * the prefix values_sorted[0..values_count) of a fixed array.  Each Add pushes
 * the new value into the queue and repositions the sorted prefix in place;
 * once the window is full, the value leaving is the one that arrived first.
 *
 * The error checks of the source (which return early only when an error
 * callback is registered) are `assert` statements here: under the engine's
 * invariant none of them can fail.
 */
module RunningMedian {
  import opened CircularQueue
  import opened SortedWindow

  /** `std::upper_bound` over a[0..n): binary search for the first element greater than v. */
  method UpperBound(a: array<int>, n: nat, v: int) returns (k: nat)
    requires n <= a.Length && Sorted(a[..n])
    ensures IsUpperBound(a[..n], v, k)
  {
    var lo, hi := 0, n;
    while lo < hi
      invariant 0 <= lo <= hi <= n
      invariant forall i :: 0 <= i < lo ==> a[i] <= v
      invariant forall i :: hi <= i < n ==> v < a[i]
    {
      var mid := (lo + hi) / 2;
      if a[mid] <= v {
        lo := mid + 1;
      } else {
        hi := mid;
      }
    }
    k := lo;
  }

  /** `std::find` over a[0..n): the first position holding x, or n when there is none. */
  method Find(a: array<int>, n: nat, x: int) returns (k: nat)
    requires n <= a.Length
    ensures k <= n
    ensures forall i :: 0 <= i < k ==> a[i] != x
    ensures k < n ==> a[k] == x
  {
    k := 0;
    while k < n && a[k] != x
      invariant k <= n
      invariant forall i :: 0 <= i < k ==> a[i] != x
    {
      k := k + 1;
    }
  }

  /**
   * The full-window pass when the erased position ie lies right of the insert
   * position ig: v goes to ig and each displaced value is carried one step
   * right until the erased slot is filled.
   */
  method EraseRightOfInsert(a: array<int>, n: nat, ie: nat, ig: nat, v: int)
    requires ig < ie < n <= a.Length
    modifies a
    ensures a[..n] == Insert(Remove(old(a[..n]), ie), ig, v)
    ensures a[n..] == old(a[n..])
  {
    ghost var s := a[..n];
    var carry := a[ig];
    var newold := 0;
    var hasNewold := false;
    a[ig] := v;
    var i := ig + 1;
    while i < n
      invariant ig + 1 <= i <= ie
      invariant carry == s[i - 1]
      invariant forall j :: 0 <= j < ig ==> a[j] == s[j]
      invariant a[ig] == v
      invariant forall j :: ig < j < i ==> a[j] == s[j - 1]
      invariant forall j :: i <= j < n ==> a[j] == s[j]
      invariant a[n..] == old(a[n..])
    {
      if i == ie {
        a[i] := carry;
        hasNewold := false;
        break;
      }
      newold := a[i];
      hasNewold := true;
      a[i] := carry;
      carry := newold;
      i := i + 1;
    }
    // The loop always stops at the erased slot, so the source's fix-up of
    // the last slot never runs.
    assert !hasNewold;
    EraseRightShape(s, a[..n], ie, ig, v);
  }

  /**
   * The full-window pass when the erased position ie lies left of the insert
   * position ig: [ie, ig - 1) moves one step left and v goes to ig - 1.
   */
  method EraseLeftOfInsert(a: array<int>, n: nat, ie: nat, ig: nat, v: int)
    requires ie < ig <= n <= a.Length
    modifies a
    ensures a[..n] == Insert(Remove(old(a[..n]), ie), ig - 1, v)
    ensures a[n..] == old(a[n..])
  {
    ghost var s := a[..n];
    var i := ie;
    while i < ig - 1
      invariant ie <= i <= ig - 1
      invariant forall j :: 0 <= j < ie ==> a[j] == s[j]
      invariant forall j :: ie <= j < i ==> a[j] == s[j + 1]
      invariant forall j :: i <= j < n ==> a[j] == s[j]
      invariant a[n..] == old(a[n..])
    {
      assert i + 1 < n;
      a[i] := a[i + 1];
      i := i + 1;
    }
    assert ig - 1 >= 0;
    a[ig - 1] := v;
    EraseLeftShape(s, a[..n], ie, ig, v);
  }

  /**
   * The erase-and-insert step of a full window: the first copy ie of the
   * leaving value goes and v enters at its upper bound ig, which is one
   * place further left once ie, lying left of it, has gone.
   */
  method EraseAndInsert(a: array<int>, n: nat, ie: nat, ig: nat, v: int)
    requires ie < n <= a.Length && ig <= n
    modifies a
    ensures a[..n] == Insert(Remove(old(a[..n]), ie), if ie < ig then ig - 1 else ig, v)
    ensures a[n..] == old(a[n..])
  {
    ghost var s := a[..n];
    if ie > ig {
      EraseRightOfInsert(a, n, ie, ig, v);
    } else if ig == ie {
      // The erased slot is the insert position: overwrite it.
      assert ie < n;
      a[ig] := v;
      assert a[..n] == Insert(Remove(s, ie), ig, v);
    } else {
      EraseLeftOfInsert(a, n, ie, ig, v);
    }
  }

  /**
   * The insert-only pass of a window that is not full: [ig, n) moves one step
   * right, into the free slot n, and v goes to ig.
   */
  method ShiftRightInsert(a: array<int>, n: nat, ig: nat, v: int)
    requires ig < n < a.Length
    modifies a
    ensures a[..n + 1] == Insert(old(a[..n]), ig, v)
    ensures a[n + 1..] == old(a[n + 1..])
  {
    ghost var s := a[..n];
    var carry := v;
    var p := ig;
    while p < n + 1
      invariant ig <= p <= n + 1
      invariant p == ig ==> carry == v
      invariant ig < p <= n ==> carry == s[p - 1]
      invariant forall j :: 0 <= j < ig ==> a[j] == s[j]
      invariant forall j :: ig <= j < p ==> a[j] == if j == ig then v else s[j - 1]
      invariant forall j :: p <= j < n ==> a[j] == s[j]
      invariant a[n + 1..] == old(a[n + 1..])
    {
      var newold := a[p];
      a[p] := carry;
      carry := newold;
      p := p + 1;
    }
    InsertShape(s, a[..n + 1], ig, v);
  }

  /**
   * The insert step of a window that is not full: shift [ig, n) right when
   * the upper bound is inside the window, else write v just past its end.
   */
  method InsertShifting(a: array<int>, n: nat, ig: nat, v: int)
    requires ig <= n < a.Length
    modifies a
    ensures a[..n + 1] == Insert(old(a[..n]), ig, v)
    ensures a[n + 1..] == old(a[n + 1..])
  {
    ghost var s := a[..n];
    if ig != n {
      ShiftRightInsert(a, n, ig, v);
    } else {
      a[n] := v;
      assert a[..n + 1] == Insert(s, ig, v);
    }
  }

  /**
   * One Add on a window that is not full: inserting v at its upper bound keeps
   * the window sorted and adds v to the multiset shared with the queue.
   */
  lemma GrowStep(s: seq<int>, arrivals: seq<int>, ig: nat, v: int)
    requires Sorted(s) && multiset(s) == multiset(arrivals) && IsUpperBound(s, v, ig)
    ensures Sorted(Insert(s, ig, v))
    ensures multiset(Insert(s, ig, v)) == multiset(s) + multiset{v} == multiset(arrivals + [v])
  {
    InsertAtUpperBound(s, ig, v);
  }

  /**
   * One Add on a full window: erasing the first copy of the oldest arrival
   * and inserting v at its upper bound in what remains keeps the window
   * sorted, and it then holds exactly the values of the slid queue.
   */
  lemma {:induction false} SlideStep(s: seq<int>, arrivals: seq<int>, ie: nat, ig: nat, v: int)
    requires Sorted(s) && multiset(s) == multiset(arrivals) && IsUpperBound(s, v, ig)
    requires ie < |s| && |arrivals| > 0 && s[ie] == arrivals[0]
    ensures Sorted(Insert(Remove(s, ie), if ie < ig then ig - 1 else ig, v))
    ensures multiset(Insert(Remove(s, ie), if ie < ig then ig - 1 else ig, v))
            == multiset(s) - multiset{arrivals[0]} + multiset{v}
            == multiset(arrivals[1..] + [v])
  {
    UpperBoundAfterRemove(s, ie, ig, v);
    RemoveKeepsSorted(s, ie);
    InsertAtUpperBound(Remove(s, ie), if ie < ig then ig - 1 else ig, v);
    assert arrivals == [arrivals[0]] + arrivals[1..];
    assert multiset(arrivals[1..]) == multiset(arrivals) - multiset{arrivals[0]};
  }

  /** A window of capacity one holds exactly the value just added. */
  lemma SingleValueWindow(w: seq<int>, q: seq<int>, v: int)
    requires multiset(w) == multiset(q) && |q| == 1 && q[0] == v
    ensures w == [v]
  {
    assert |w| == |multiset(w)| == |multiset(q)| == 1;
    assert w[0] in multiset(q);
  }

  class Runmedian {
    /** The window capacity (template parameter kSize). */
    const kSize: uint8
    /** Value order: the first valuesCount entries, ascending (`values_sorted`). */
    const valuesSorted: array<int>
    /** Arrival order (`values_queue`), owned by this engine. */
    const valuesQueue: Rqueue
    /** Length of the filled prefix of valuesSorted (`values_count`). */
    var valuesCount: uint8

    /** The current window in value order. */
    ghost function Window(): seq<int>
      reads this, valuesSorted
      requires valuesCount as int <= valuesSorted.Length
    {
      valuesSorted[..valuesCount]
    }

    /** The shape of an engine: both arrays of length kSize, distinct, and a valid queue. */
    ghost predicate WellFormed()
      reads this, valuesSorted, valuesQueue, valuesQueue.queue
    {
      && valuesQueue.Valid()
      && valuesQueue.kSize == kSize
      && valuesSorted.Length == kSize as int
      && valuesSorted != valuesQueue.queue
      && valuesCount <= kSize
    }

    /**
     * The engine invariant: the count equals the queue's size, the window is
     * ascending, and it holds the same values as the queue.
     */
    ghost predicate Valid()
      reads this, valuesSorted, valuesQueue, valuesQueue.queue
    {
      && WellFormed()
      && valuesCount == valuesQueue.size
      && Sorted(Window())
      && multiset(Window()) == multiset(valuesQueue.Contents)
    }

    /** A fresh engine is empty, with a zeroed sorted array and an empty queue. */
    constructor (k: uint8)
      requires 1 <= k
      ensures Valid()
      ensures fresh(valuesSorted) && fresh(valuesQueue) && fresh(valuesQueue.queue)
      ensures kSize == k && valuesCount == 0 && valuesQueue.Contents == []
      ensures forall i :: 0 <= i < valuesSorted.Length ==> valuesSorted[i] == 0
    {
      kSize := k;
      valuesSorted := new int[k](_ => 0);
      valuesCount := 0;
      valuesQueue := new Rqueue(k);
    }

    /** The number of values in the window. */
    function Size(): (r: uint8)
      reads this, valuesSorted, valuesQueue, valuesQueue.queue
      requires Valid()
      ensures r as int == |valuesQueue.Contents| && r <= kSize
    {
      valuesCount
    }

    /** Whether the window holds no value at all. */
    function IsEmpty(): (r: bool)
      reads this, valuesSorted, valuesQueue, valuesQueue.queue
      requires Valid()
      ensures r <==> Size() == 0
      ensures r <==> valuesQueue.Contents == []
    {
      valuesCount == 0
    }

    /**
     * The running median.  The local `even` is `count % 2`, so it is 1 for an
     * ODD count, and then the middle element is returned; for an even count
     * the two middle elements are summed and shifted right by one.
     */
    function Value(): (r: int)
      reads this, valuesSorted, valuesQueue, valuesQueue.queue
      requires Valid()
      ensures r == Median(Window())
    {
      assert valuesCount <= kSize;
      if valuesCount == 0 then 0
      else if valuesCount == 1 then valuesSorted[0]
      else
        var even := valuesCount % 2;
        var index := valuesCount / 2 + even - 1;
        if even == 1 then valuesSorted[index]
        else Halve(valuesSorted[index] + valuesSorted[index + 1])
    }

    /**
     * The integrity check used by the tests.  A window that is not full passes.
     * Otherwise the queue is copied through its indexed access, and the check
     * passes exactly when sorting that copy gives valuesSorted; this is
     * computed as "valuesSorted is ascending and a permutation of the copy",
     * which SortedCopyComparison shows to be the same verdict.
     */
    method CheckIntegrity() returns (ok: bool)
      requires WellFormed()
      ensures ok <==> valuesCount < kSize || SortsTo(valuesQueue.Snapshot(), valuesSorted[..])
      ensures forall sc :: Sorted(sc) && multiset(sc) == multiset(valuesQueue.Snapshot()) ==>
                (ok <==> valuesCount < kSize || sc == valuesSorted[..])
      ensures Valid() ==> ok
    {
      if valuesCount < kSize {
        return true;
      }
      var qcopy := CopyQueue();
      ok := Sorted(valuesSorted[..]) && multiset(qcopy[..]) == multiset(valuesSorted[..]);
      assert Valid() ==> valuesSorted[..] == Window();
      // Whatever sorted copy of the queue is taken, comparing it with
      // valuesSorted gives the same verdict.
      forall sc | Sorted(sc) && multiset(sc) == multiset(valuesQueue.Snapshot())
        ensures ok <==> sc == valuesSorted[..]
      {
        SortedCopyComparison(valuesQueue.Snapshot(), sc, valuesSorted[..]);
      }
    }

    /** The copy the integrity check takes: every index 0 .. kSize-1 read through `At`. */
    method CopyQueue() returns (qcopy: array<int>)
      requires WellFormed()
      ensures fresh(qcopy) && qcopy[..] == valuesQueue.Snapshot()
    {
      qcopy := new int[kSize];
      var i := 0;
      while i < kSize
        invariant 0 <= i <= kSize
        invariant forall j :: 0 <= j < i ==> qcopy[j] == valuesQueue.At(j)
      {
        qcopy[i] := valuesQueue.At(i);
        i := i + 1;
      }
      assert qcopy[..] == valuesQueue.Snapshot();
    }

    /**
     * Adds v to the window.  While the window is not full, v is inserted at
     * its upper bound and the count grows by one.  Once it is full, one copy
     * of the oldest value by arrival (the queue's head) leaves and v enters,
     * in a single shift pass; the count stays at kSize.
     */
    method Add(v: int)
      requires Valid()
      modifies this, valuesSorted, valuesQueue, valuesQueue.queue
      ensures Valid()
      ensures old(valuesCount) < kSize ==>
                && valuesCount == old(valuesCount) + 1
                && valuesQueue.Contents == old(valuesQueue.Contents) + [v]
                && multiset(Window()) == multiset(old(Window())) + multiset{v}
      ensures old(valuesCount) == kSize ==>
                && valuesCount == kSize
                && valuesQueue.Contents == old(valuesQueue.Contents)[1..] + [v]
                && multiset(Window()) == multiset(old(Window())) - multiset{old(valuesQueue.Contents)[0]} + multiset{v}
      ensures kSize == 1 ==> Value() == v
    {
      assert valuesCount <= kSize;
      var n := valuesCount as int;
      ghost var s := valuesSorted[..n];
      ghost var arrivals := valuesQueue.Contents;
      var ig := UpperBound(valuesSorted, n, v);
      var ie := Find(valuesSorted, n, valuesQueue.Head());
      valuesQueue.Add(v);
      if n + 1 > kSize as int {
        ReplaceOldest(v, ig, ie, s, arrivals);
      } else {
        InsertNew(v, ig, s, arrivals);
      }
    }

    /**
     * The full-window half of Add, once v is in the queue: the first copy ie
     * of the value that left the queue is erased from the window and v is
     * inserted at its upper bound ig, in one pass.  The count stays kSize.
     */
    method ReplaceOldest(v: int, ig: nat, ie: nat, ghost s: seq<int>, ghost arrivals: seq<int>)
      requires WellFormed() && valuesCount == kSize && valuesQueue.size == kSize
      requires s == Window() && Sorted(s) && multiset(s) == multiset(arrivals)
      requires |arrivals| > 0 && valuesQueue.Contents == arrivals[1..] + [v]
      requires IsUpperBound(s, v, ig)
      requires ie <= |s| && (forall i :: 0 <= i < ie ==> s[i] != arrivals[0])
      requires ie < |s| ==> s[ie] == arrivals[0]
      modifies valuesSorted
      ensures Valid() && valuesCount == kSize
      ensures multiset(Window()) == multiset(s) - multiset{arrivals[0]} + multiset{v}
      ensures kSize == 1 ==> Window() == [v]
    {
      var n := valuesCount as int;
      // The oldest value is in the window, so it is found.
      assert arrivals[0] in multiset(s);
      assert ie < n;
      EraseAndInsert(valuesSorted, n, ie, ig, v);
      assert valuesQueue.Valid();
      ghost var w := Insert(Remove(s, ie), if ie < ig then ig - 1 else ig, v);
      assert Window() == w;
      SlideStep(s, arrivals, ie, ig, v);
      if kSize == 1 {
        SingleValueWindow(w, valuesQueue.Contents, v);
      }
    }

    /**
     * The growing half of Add, once v is in the queue: v is inserted at its
     * upper bound ig and the count grows by one.
     */
    method InsertNew(v: int, ig: nat, ghost s: seq<int>, ghost arrivals: seq<int>)
      requires WellFormed() && valuesCount < kSize && valuesQueue.size == valuesCount + 1
      requires s == Window() && Sorted(s) && multiset(s) == multiset(arrivals)
      requires valuesQueue.Contents == arrivals + [v]
      requires IsUpperBound(s, v, ig)
      modifies this, valuesSorted
      ensures Valid() && valuesCount == old(valuesCount) + 1
      ensures multiset(Window()) == multiset(s) + multiset{v}
      ensures kSize == 1 ==> Window() == [v]
    {
      ghost var w := Insert(s, ig, v);
      GrowStep(s, arrivals, ig, v);
      if kSize == 1 {
        SingleValueWindow(w, arrivals + [v], v);
      }
      var n := valuesCount as int;
      // The source checks values_count < kSize before writing past the end.
      assert n < kSize as int;
      InsertShifting(valuesSorted, n, ig, v);
      valuesCount := valuesCount + 1;
      assert valuesCount <= kSize;
      assert Window() == w;
      assert valuesQueue.Valid();
    }

    /**
     * Empties the engine from any well-formed state: the queue is emptied,
     * every entry of valuesSorted is zeroed and the count is reset.
     */
    method Clear()
      requires WellFormed()
      modifies this, valuesSorted, valuesQueue
      ensures Valid()
      ensures valuesCount == 0 && valuesQueue.Contents == [] && valuesQueue.pos == 0
      ensures forall i :: 0 <= i < valuesSorted.Length ==> valuesSorted[i] == 0
      ensures valuesQueue.queue[..] == old(valuesQueue.queue[..])
      ensures Size() == 0 && Value() == 0
    {
      valuesQueue.DeleteAll();
      var i := 0;
      while i < valuesSorted.Length
        modifies valuesSorted
        invariant 0 <= i <= valuesSorted.Length
        invariant forall j :: 0 <= j < i ==> valuesSorted[j] == 0
      {
        valuesSorted[i] := 0;
        i := i + 1;
      }
      valuesCount := 0;
    }
  }
}
