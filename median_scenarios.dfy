/**
 * The concrete readings that the repository's test suite asserts for an
 * engine of capacity 5.  Each test's inputs are replayed through Add.  For
 * every step the expected queue contents and the expected window in value
 * order are given as data, and each step is checked against Add's contract.
 * The median and the size read after each Add then follow from that window
 * and that queue.
 */
module MedianScenarios {
  import opened CircularQueue
  import opened SortedWindow
  import opened RunningMedian

  /** The queue's contents after adding v with capacity k. */
  function NextQueue(k: int, q: seq<int>, v: int): (r: seq<int>)
    ensures |q| < k ==> r == q + [v]
    ensures k <= |q| && 0 < |q| ==> r == q[1..] + [v]
  {
    if |q| < k || |q| == 0 then q + [v] else q[1..] + [v]
  }

  /**
   * The window in value order after adding v to an engine of capacity k that
   * holds `window`, with `arrivals` in its queue: while it is not full, v is
   * inserted at `at`; once it is full, position `erased` holds the oldest
   * arrival, which leaves, and v is inserted at `at` in what remains.
   */
  ghost predicate NextWindow(k: int, window: seq<int>, arrivals: seq<int>, v: int,
                             erased: nat, at: nat, sorted: seq<int>)
  {
    && Sorted(sorted)
    && (|window| < k ==> at <= |window| && sorted == window[..at] + [v] + window[at..])
    && (|window| == k ==>
          && erased < |window| && 0 < |arrivals| && window[erased] == arrivals[0]
          && var rest := window[..erased] + window[erased + 1..];
             at < |window| && sorted == rest[..at] + [v] + rest[at..])
  }

  /**
   * Adds v and reads the median and the size.  Whenever `sorted` is the next
   * window as NextWindow describes it, it is the engine's new window and the
   * median read is its median.
   */
  method AddThenRead(e: Runmedian, v: int, ghost window: seq<int>, ghost arrivals: seq<int>,
                     ghost erased: nat, ghost at: nat, ghost sorted: seq<int>)
    returns (median: int, size: int)
    requires e.Valid() && e.Window() == window && e.valuesQueue.Contents == arrivals
    requires NextWindow(e.kSize as int, window, arrivals, v, erased, at, sorted)
    modifies e, e.valuesSorted, e.valuesQueue, e.valuesQueue.queue
    ensures e.Valid() && e.Window() == sorted
    ensures e.valuesQueue.Contents == NextQueue(e.kSize as int, arrivals, v)
    ensures median == Median(sorted) && size == |e.valuesQueue.Contents|
  {
    e.Add(v);
    assert multiset(e.Window()) == multiset(sorted) by {
      if |window| < e.kSize as int {
        assert sorted == Insert(window, at, v);
      } else {
        assert sorted == Insert(Remove(window, erased), at, v);
        assert multiset(Remove(window, erased)) == multiset(window) - multiset{arrivals[0]};
      }
    }
    SortedUnique(e.Window(), sorted);
    median := e.Value();
    size := e.Size() as int;
  }

  /** Step i of a replay: the queue and the window move on as one Add of inputs[i] says. */
  ghost predicate ReplayStep(k: int, inputs: seq<int>, queues: seq<seq<int>>, windows: seq<seq<int>>,
                             erased: seq<nat>, ats: seq<nat>, i: int)
  {
    && 0 <= i < |inputs| && i < |erased| && i < |ats| && i + 1 < |queues| && i + 1 < |windows|
    && queues[i + 1] == NextQueue(k, queues[i], inputs[i])
    && NextWindow(k, windows[i], queues[i], inputs[i], erased[i], ats[i], windows[i + 1])
  }

  /** Engine e has capacity k, is valid and holds `window` in value order and `queue` in arrival order. */
  ghost predicate Holds(e: Runmedian, k: uint8, window: seq<int>, queue: seq<int>)
    reads e, e.valuesSorted, e.valuesQueue, e.valuesQueue.queue
  {
    e.Valid() && e.kSize == k && e.Window() == window && e.valuesQueue.Contents == queue
  }

  /** Step i of Replay: one Add of inputs[i] takes the engine from state i to state i + 1. */
  method ReplayOne(e: Runmedian, k: uint8, inputs: seq<int>, ghost queues: seq<seq<int>>,
                   ghost windows: seq<seq<int>>, ghost erased: seq<nat>, ghost ats: seq<nat>, i: nat)
    returns (median: int, size: int)
    requires i < |inputs| && ReplayStep(k, inputs, queues, windows, erased, ats, i)
    requires Holds(e, k, windows[i], queues[i])
    modifies e, e.valuesSorted, e.valuesQueue, e.valuesQueue.queue
    ensures Holds(e, k, windows[i + 1], queues[i + 1])
    ensures median == Median(windows[i + 1]) && size == |queues[i + 1]|
  {
    median, size := AddThenRead(e, inputs[i], windows[i], queues[i], erased[i], ats[i], windows[i + 1]);
  }

  /** Appending the readings of state i + 1 extends what Replay has read so far. */
  lemma ReadingsExtend(medians: seq<int>, sizes: seq<int>, m: int, n: int,
                       queues: seq<seq<int>>, windows: seq<seq<int>>, i: nat)
    requires |medians| == |sizes| == i && i + 1 < |windows| && i + 1 < |queues|
    requires forall j :: 0 <= j < i ==> medians[j] == Median(windows[j + 1])
    requires forall j :: 0 <= j < i ==> sizes[j] == |queues[j + 1]|
    requires m == Median(windows[i + 1]) && n == |queues[i + 1]|
    ensures forall j :: 0 <= j < i + 1 ==> (medians + [m])[j] == Median(windows[j + 1])
    ensures forall j :: 0 <= j < i + 1 ==> (sizes + [n])[j] == |queues[j + 1]|
  {
  }

  /**
   * Feeds `inputs` to engine e, reading the median and the size after each
   * Add.  When every step is a ReplayStep, the i-th median is the median of
   * windows[i + 1] and the i-th size is the length of queues[i + 1].
   */
  method Replay(e: Runmedian, k: uint8, inputs: seq<int>, ghost queues: seq<seq<int>>,
                ghost windows: seq<seq<int>>, ghost erased: seq<nat>, ghost ats: seq<nat>)
    returns (medians: seq<int>, sizes: seq<int>)
    requires |queues| == |windows| == |inputs| + 1 && Holds(e, k, windows[0], queues[0])
    requires forall i :: 0 <= i < |inputs| ==> ReplayStep(k, inputs, queues, windows, erased, ats, i)
    modifies e, e.valuesSorted, e.valuesQueue, e.valuesQueue.queue
    ensures Holds(e, k, windows[|inputs|], queues[|inputs|])
    ensures |medians| == |sizes| == |inputs|
    ensures forall i :: 0 <= i < |inputs| ==> medians[i] == Median(windows[i + 1])
    ensures forall i :: 0 <= i < |inputs| ==> sizes[i] == |queues[i + 1]|
  {
    medians, sizes := [], [];
    var i := 0;
    while i < |inputs|
      invariant 0 <= i <= |inputs|
      invariant Holds(e, k, windows[i], queues[i])
      invariant |medians| == |sizes| == i
      invariant forall j :: 0 <= j < i ==> medians[j] == Median(windows[j + 1])
      invariant forall j :: 0 <= j < i ==> sizes[j] == |queues[j + 1]|
    {
      var m, n := ReplayOne(e, k, inputs, queues, windows, erased, ats, i);
      ReadingsExtend(medians, sizes, m, n, queues, windows, i);
      medians, sizes := medians + [m], sizes + [n];
      i := i + 1;
    }
  }

  // ---------------------------------------------------------------------
  // The Median4TestGrowing test: inputs 1, 2, 3, 4, 5, 6, 7.

  const GrowingInputs: seq<int> := [1, 2, 3, 4, 5, 6, 7]
  /** The queue contents after each Add. */
  const GrowingQueues: seq<seq<int>> := [[], [1], [1, 2], [1, 2, 3], [1, 2, 3, 4], [1, 2, 3, 4, 5], [2, 3, 4, 5, 6], [3, 4, 5, 6, 7]]
  /** The window in value order after each Add. */
  const GrowingWindows: seq<seq<int>> := [[], [1], [1, 2], [1, 2, 3], [1, 2, 3, 4], [1, 2, 3, 4, 5], [2, 3, 4, 5, 6], [3, 4, 5, 6, 7]]
  /** Where the oldest value sits in each full window (unused while the window grows). */
  const GrowingErased: seq<nat> := [0, 0, 0, 0, 0, 0, 0]
  /** Where each input enters the window. */
  const GrowingAts: seq<nat> := [0, 1, 2, 3, 4, 4, 4]

  /** Add number 1 of the Median4TestGrowing test, of input 1. */
  lemma GrowingStep0()
    ensures ReplayStep(5, GrowingInputs, GrowingQueues, GrowingWindows, GrowingErased, GrowingAts, 0)
  {
  }

  /** Add number 2 of the Median4TestGrowing test, of input 2. */
  lemma GrowingStep1()
    ensures ReplayStep(5, GrowingInputs, GrowingQueues, GrowingWindows, GrowingErased, GrowingAts, 1)
  {
  }

  /** Add number 3 of the Median4TestGrowing test, of input 3. */
  lemma GrowingStep2()
    ensures ReplayStep(5, GrowingInputs, GrowingQueues, GrowingWindows, GrowingErased, GrowingAts, 2)
  {
  }

  /** Add number 4 of the Median4TestGrowing test, of input 4. */
  lemma GrowingStep3()
    ensures ReplayStep(5, GrowingInputs, GrowingQueues, GrowingWindows, GrowingErased, GrowingAts, 3)
  {
  }

  /** Add number 5 of the Median4TestGrowing test, of input 5. */
  lemma GrowingStep4()
    ensures ReplayStep(5, GrowingInputs, GrowingQueues, GrowingWindows, GrowingErased, GrowingAts, 4)
  {
  }

  /** Add number 6 of the Median4TestGrowing test, of input 6. */
  lemma GrowingStep5()
    ensures ReplayStep(5, GrowingInputs, GrowingQueues, GrowingWindows, GrowingErased, GrowingAts, 5)
  {
  }

  /** Add number 7 of the Median4TestGrowing test, of input 7. */
  lemma GrowingStep6()
    ensures ReplayStep(5, GrowingInputs, GrowingQueues, GrowingWindows, GrowingErased, GrowingAts, 6)
  {
  }

  /** Every Add of the Median4TestGrowing input sequence moves queue and window as Add promises. */
  lemma GrowingSteps()
    ensures forall i :: 0 <= i < |GrowingInputs| ==> ReplayStep(5, GrowingInputs, GrowingQueues, GrowingWindows, GrowingErased, GrowingAts, i)
  {
    forall i | 0 <= i < |GrowingInputs|
      ensures ReplayStep(5, GrowingInputs, GrowingQueues, GrowingWindows, GrowingErased, GrowingAts, i)
    {
      if i == 0 {
        GrowingStep0();
      } else if i == 1 {
        GrowingStep1();
      } else if i == 2 {
        GrowingStep2();
      } else if i == 3 {
        GrowingStep3();
      } else if i == 4 {
        GrowingStep4();
      } else if i == 5 {
        GrowingStep5();
      } else {
        GrowingStep6();
      }
    }
  }

  /**
   * The medians of the Median4TestGrowing windows are 1, 1, 2, 2, 3, 4, 5,
   * and the sizes of its queues are 1, 2, 3, 4, 5, 5, 5.
   */
  lemma GrowingReadings(medians: seq<int>, sizes: seq<int>)
    requires |medians| == |sizes| == |GrowingInputs|
    requires forall i :: 0 <= i < |GrowingInputs| ==> medians[i] == Median(GrowingWindows[i + 1])
    requires forall i :: 0 <= i < |GrowingInputs| ==> sizes[i] == |GrowingQueues[i + 1]|
    ensures medians == [1, 1, 2, 2, 3, 4, 5]
    ensures sizes == [1, 2, 3, 4, 5, 5, 5]
  {
  }

  /**
   * The Median4TestGrowing test on an engine of capacity 5: the median read after each
   * Add is 1, 1, 2, 2, 3, 4, 5, the size grows to 5 and stays there, and
   * after Clear both the size and the median are 0.
   */
  method Growing() returns (medians: seq<int>, sizes: seq<int>, clearedSize: int, clearedMedian: int)
    ensures medians == [1, 1, 2, 2, 3, 4, 5]
    ensures sizes == [1, 2, 3, 4, 5, 5, 5]
    ensures clearedSize == 0 && clearedMedian == 0
  {
    GrowingSteps();
    var e := new Runmedian(5);
    assert e.Window() == [];
    medians, sizes := Replay(e, 5, GrowingInputs, GrowingQueues, GrowingWindows, GrowingErased, GrowingAts);
    GrowingReadings(medians, sizes);
    e.Clear();
    clearedSize := e.Size() as int;
    clearedMedian := e.Value();
  }

  // ---------------------------------------------------------------------
  // The Median4TestDecreasing test: inputs 7, 6, 5, 4, 3, 2, 1.

  const DecreasingInputs: seq<int> := [7, 6, 5, 4, 3, 2, 1]
  /** The queue contents after each Add. */
  const DecreasingQueues: seq<seq<int>> := [[], [7], [7, 6], [7, 6, 5], [7, 6, 5, 4], [7, 6, 5, 4, 3], [6, 5, 4, 3, 2], [5, 4, 3, 2, 1]]
  /** The window in value order after each Add. */
  const DecreasingWindows: seq<seq<int>> := [[], [7], [6, 7], [5, 6, 7], [4, 5, 6, 7], [3, 4, 5, 6, 7], [2, 3, 4, 5, 6], [1, 2, 3, 4, 5]]
  /** Where the oldest value sits in each full window (unused while the window grows). */
  const DecreasingErased: seq<nat> := [0, 0, 0, 0, 0, 4, 4]
  /** Where each input enters the window. */
  const DecreasingAts: seq<nat> := [0, 0, 0, 0, 0, 0, 0]

  /** Add number 1 of the Median4TestDecreasing test, of input 7. */
  lemma DecreasingStep0()
    ensures ReplayStep(5, DecreasingInputs, DecreasingQueues, DecreasingWindows, DecreasingErased, DecreasingAts, 0)
  {
  }

  /** Add number 2 of the Median4TestDecreasing test, of input 6. */
  lemma DecreasingStep1()
    ensures ReplayStep(5, DecreasingInputs, DecreasingQueues, DecreasingWindows, DecreasingErased, DecreasingAts, 1)
  {
  }

  /** Add number 3 of the Median4TestDecreasing test, of input 5. */
  lemma DecreasingStep2()
    ensures ReplayStep(5, DecreasingInputs, DecreasingQueues, DecreasingWindows, DecreasingErased, DecreasingAts, 2)
  {
  }

  /** Add number 4 of the Median4TestDecreasing test, of input 4. */
  lemma DecreasingStep3()
    ensures ReplayStep(5, DecreasingInputs, DecreasingQueues, DecreasingWindows, DecreasingErased, DecreasingAts, 3)
  {
  }

  /** Add number 5 of the Median4TestDecreasing test, of input 3. */
  lemma DecreasingStep4()
    ensures ReplayStep(5, DecreasingInputs, DecreasingQueues, DecreasingWindows, DecreasingErased, DecreasingAts, 4)
  {
  }

  /** Add number 6 of the Median4TestDecreasing test, of input 2. */
  lemma DecreasingStep5()
    ensures ReplayStep(5, DecreasingInputs, DecreasingQueues, DecreasingWindows, DecreasingErased, DecreasingAts, 5)
  {
  }

  /** Add number 7 of the Median4TestDecreasing test, of input 1. */
  lemma DecreasingStep6()
    ensures ReplayStep(5, DecreasingInputs, DecreasingQueues, DecreasingWindows, DecreasingErased, DecreasingAts, 6)
  {
  }

  /** Every Add of the Median4TestDecreasing input sequence moves queue and window as Add promises. */
  lemma DecreasingSteps()
    ensures forall i :: 0 <= i < |DecreasingInputs| ==> ReplayStep(5, DecreasingInputs, DecreasingQueues, DecreasingWindows, DecreasingErased, DecreasingAts, i)
  {
    forall i | 0 <= i < |DecreasingInputs|
      ensures ReplayStep(5, DecreasingInputs, DecreasingQueues, DecreasingWindows, DecreasingErased, DecreasingAts, i)
    {
      if i == 0 {
        DecreasingStep0();
      } else if i == 1 {
        DecreasingStep1();
      } else if i == 2 {
        DecreasingStep2();
      } else if i == 3 {
        DecreasingStep3();
      } else if i == 4 {
        DecreasingStep4();
      } else if i == 5 {
        DecreasingStep5();
      } else {
        DecreasingStep6();
      }
    }
  }

  /**
   * The medians of the Median4TestDecreasing windows are 7, 6, 6, 5, 5, 4, 3,
   * and the sizes of its queues are 1, 2, 3, 4, 5, 5, 5.
   */
  lemma DecreasingReadings(medians: seq<int>, sizes: seq<int>)
    requires |medians| == |sizes| == |DecreasingInputs|
    requires forall i :: 0 <= i < |DecreasingInputs| ==> medians[i] == Median(DecreasingWindows[i + 1])
    requires forall i :: 0 <= i < |DecreasingInputs| ==> sizes[i] == |DecreasingQueues[i + 1]|
    ensures medians == [7, 6, 6, 5, 5, 4, 3]
    ensures sizes == [1, 2, 3, 4, 5, 5, 5]
  {
  }

  /**
   * The Median4TestDecreasing test on an engine of capacity 5: the median read after each
   * Add is 7, 6, 6, 5, 5, 4, 3, the size grows to 5 and stays there, and
   * after Clear both the size and the median are 0.
   */
  method Decreasing() returns (medians: seq<int>, sizes: seq<int>, clearedSize: int, clearedMedian: int)
    ensures medians == [7, 6, 6, 5, 5, 4, 3]
    ensures sizes == [1, 2, 3, 4, 5, 5, 5]
    ensures clearedSize == 0 && clearedMedian == 0
  {
    DecreasingSteps();
    var e := new Runmedian(5);
    assert e.Window() == [];
    medians, sizes := Replay(e, 5, DecreasingInputs, DecreasingQueues, DecreasingWindows, DecreasingErased, DecreasingAts);
    DecreasingReadings(medians, sizes);
    e.Clear();
    clearedSize := e.Size() as int;
    clearedMedian := e.Value();
  }

  // ---------------------------------------------------------------------
  // The Median5TestDiff test: inputs 7, 1, 5, 2, 6, 3, 5, 10, 1, 4.

  const DiffInputs: seq<int> := [7, 1, 5, 2, 6, 3, 5, 10, 1, 4]
  /** The queue contents after each Add. */
  const DiffQueues: seq<seq<int>> := [[], [7], [7, 1], [7, 1, 5], [7, 1, 5, 2], [7, 1, 5, 2, 6], [1, 5, 2, 6, 3], [5, 2, 6, 3, 5], [2, 6, 3, 5, 10], [6, 3, 5, 10, 1], [3, 5, 10, 1, 4]]
  /** The window in value order after each Add. */
  const DiffWindows: seq<seq<int>> := [[], [7], [1, 7], [1, 5, 7], [1, 2, 5, 7], [1, 2, 5, 6, 7], [1, 2, 3, 5, 6], [2, 3, 5, 5, 6], [2, 3, 5, 6, 10], [1, 3, 5, 6, 10], [1, 3, 4, 5, 10]]
  /** Where the oldest value sits in each full window (unused while the window grows). */
  const DiffErased: seq<nat> := [0, 0, 0, 0, 0, 4, 0, 2, 0, 3]
  /** Where each input enters the window. */
  const DiffAts: seq<nat> := [0, 0, 1, 1, 3, 2, 3, 4, 0, 2]

  /** Add number 1 of the Median5TestDiff test, of input 7. */
  lemma DiffStep0()
    ensures ReplayStep(5, DiffInputs, DiffQueues, DiffWindows, DiffErased, DiffAts, 0)
  {
  }

  /** Add number 2 of the Median5TestDiff test, of input 1. */
  lemma DiffStep1()
    ensures ReplayStep(5, DiffInputs, DiffQueues, DiffWindows, DiffErased, DiffAts, 1)
  {
  }

  /** Add number 3 of the Median5TestDiff test, of input 5. */
  lemma DiffStep2()
    ensures ReplayStep(5, DiffInputs, DiffQueues, DiffWindows, DiffErased, DiffAts, 2)
  {
  }

  /** Add number 4 of the Median5TestDiff test, of input 2. */
  lemma DiffStep3()
    ensures ReplayStep(5, DiffInputs, DiffQueues, DiffWindows, DiffErased, DiffAts, 3)
  {
  }

  /** Add number 5 of the Median5TestDiff test, of input 6. */
  lemma DiffStep4()
    ensures ReplayStep(5, DiffInputs, DiffQueues, DiffWindows, DiffErased, DiffAts, 4)
  {
  }

  /** Add number 6 of the Median5TestDiff test, of input 3. */
  lemma DiffStep5()
    ensures ReplayStep(5, DiffInputs, DiffQueues, DiffWindows, DiffErased, DiffAts, 5)
  {
  }

  /** Add number 7 of the Median5TestDiff test, of input 5. */
  lemma DiffStep6()
    ensures ReplayStep(5, DiffInputs, DiffQueues, DiffWindows, DiffErased, DiffAts, 6)
  {
  }

  /** Add number 8 of the Median5TestDiff test, of input 10. */
  lemma DiffStep7()
    ensures ReplayStep(5, DiffInputs, DiffQueues, DiffWindows, DiffErased, DiffAts, 7)
  {
  }

  /** Add number 9 of the Median5TestDiff test, of input 1. */
  lemma DiffStep8()
    ensures ReplayStep(5, DiffInputs, DiffQueues, DiffWindows, DiffErased, DiffAts, 8)
  {
  }

  /** Add number 10 of the Median5TestDiff test, of input 4. */
  lemma DiffStep9()
    ensures ReplayStep(5, DiffInputs, DiffQueues, DiffWindows, DiffErased, DiffAts, 9)
  {
  }

  /** Every Add of the Median5TestDiff input sequence moves queue and window as Add promises. */
  lemma DiffSteps()
    ensures forall i :: 0 <= i < |DiffInputs| ==> ReplayStep(5, DiffInputs, DiffQueues, DiffWindows, DiffErased, DiffAts, i)
  {
    forall i | 0 <= i < |DiffInputs|
      ensures ReplayStep(5, DiffInputs, DiffQueues, DiffWindows, DiffErased, DiffAts, i)
    {
      if i == 0 {
        DiffStep0();
      } else if i == 1 {
        DiffStep1();
      } else if i == 2 {
        DiffStep2();
      } else if i == 3 {
        DiffStep3();
      } else if i == 4 {
        DiffStep4();
      } else if i == 5 {
        DiffStep5();
      } else if i == 6 {
        DiffStep6();
      } else if i == 7 {
        DiffStep7();
      } else if i == 8 {
        DiffStep8();
      } else {
        DiffStep9();
      }
    }
  }

  /**
   * The medians of the Median5TestDiff windows are 7, 4, 5, 3, 5, 3, 5, 5, 5, 4,
   * and the sizes of its queues are 1, 2, 3, 4, 5, 5, 5, 5, 5, 5.
   */
  lemma DiffReadings(medians: seq<int>, sizes: seq<int>)
    requires |medians| == |sizes| == |DiffInputs|
    requires forall i :: 0 <= i < |DiffInputs| ==> medians[i] == Median(DiffWindows[i + 1])
    requires forall i :: 0 <= i < |DiffInputs| ==> sizes[i] == |DiffQueues[i + 1]|
    ensures medians == [7, 4, 5, 3, 5, 3, 5, 5, 5, 4]
    ensures sizes == [1, 2, 3, 4, 5, 5, 5, 5, 5, 5]
  {
  }

  /**
   * The Median5TestDiff test on an engine of capacity 5: the median read after each
   * Add is 7, 4, 5, 3, 5, 3, 5, 5, 5, 4, the size grows to 5 and stays there, and
   * after Clear both the size and the median are 0.
   */
  method Diff() returns (medians: seq<int>, sizes: seq<int>, clearedSize: int, clearedMedian: int)
    ensures medians == [7, 4, 5, 3, 5, 3, 5, 5, 5, 4]
    ensures sizes == [1, 2, 3, 4, 5, 5, 5, 5, 5, 5]
    ensures clearedSize == 0 && clearedMedian == 0
  {
    DiffSteps();
    var e := new Runmedian(5);
    assert e.Window() == [];
    medians, sizes := Replay(e, 5, DiffInputs, DiffQueues, DiffWindows, DiffErased, DiffAts);
    DiffReadings(medians, sizes);
    e.Clear();
    clearedSize := e.Size() as int;
    clearedMedian := e.Value();
  }

  // ---------------------------------------------------------------------
  // The FullArrayTest test: inputs 7, 1, 5, 4, 3, 2, 6, 7, 8, 2, 10, 1.

  const FullArrayInputs: seq<int> := [7, 1, 5, 4, 3, 2, 6, 7, 8, 2, 10, 1]
  /** The queue contents after each Add. */
  const FullArrayQueues: seq<seq<int>> := [[], [7], [7, 1], [7, 1, 5], [7, 1, 5, 4], [7, 1, 5, 4, 3], [1, 5, 4, 3, 2], [5, 4, 3, 2, 6], [4, 3, 2, 6, 7], [3, 2, 6, 7, 8], [2, 6, 7, 8, 2], [6, 7, 8, 2, 10], [7, 8, 2, 10, 1]]
  /** The window in value order after each Add. */
  const FullArrayWindows: seq<seq<int>> := [[], [7], [1, 7], [1, 5, 7], [1, 4, 5, 7], [1, 3, 4, 5, 7], [1, 2, 3, 4, 5], [2, 3, 4, 5, 6], [2, 3, 4, 6, 7], [2, 3, 6, 7, 8], [2, 2, 6, 7, 8], [2, 6, 7, 8, 10], [1, 2, 7, 8, 10]]
  /** Where the oldest value sits in each full window (unused while the window grows). */
  const FullArrayErased: seq<nat> := [0, 0, 0, 0, 0, 4, 0, 3, 2, 1, 0, 1]
  /** Where each input enters the window. */
  const FullArrayAts: seq<nat> := [0, 0, 1, 1, 1, 1, 4, 4, 4, 1, 4, 0]

  /** Add number 1 of the FullArrayTest test, of input 7. */
  lemma FullArrayStep0()
    ensures ReplayStep(5, FullArrayInputs, FullArrayQueues, FullArrayWindows, FullArrayErased, FullArrayAts, 0)
  {
  }

  /** Add number 2 of the FullArrayTest test, of input 1. */
  lemma FullArrayStep1()
    ensures ReplayStep(5, FullArrayInputs, FullArrayQueues, FullArrayWindows, FullArrayErased, FullArrayAts, 1)
  {
  }

  /** Add number 3 of the FullArrayTest test, of input 5. */
  lemma FullArrayStep2()
    ensures ReplayStep(5, FullArrayInputs, FullArrayQueues, FullArrayWindows, FullArrayErased, FullArrayAts, 2)
  {
  }

  /** Add number 4 of the FullArrayTest test, of input 4. */
  lemma FullArrayStep3()
    ensures ReplayStep(5, FullArrayInputs, FullArrayQueues, FullArrayWindows, FullArrayErased, FullArrayAts, 3)
  {
  }

  /** Add number 5 of the FullArrayTest test, of input 3. */
  lemma FullArrayStep4()
    ensures ReplayStep(5, FullArrayInputs, FullArrayQueues, FullArrayWindows, FullArrayErased, FullArrayAts, 4)
  {
  }

  /** Add number 6 of the FullArrayTest test, of input 2. */
  lemma FullArrayStep5()
    ensures ReplayStep(5, FullArrayInputs, FullArrayQueues, FullArrayWindows, FullArrayErased, FullArrayAts, 5)
  {
  }

  /** Add number 7 of the FullArrayTest test, of input 6. */
  lemma FullArrayStep6()
    ensures ReplayStep(5, FullArrayInputs, FullArrayQueues, FullArrayWindows, FullArrayErased, FullArrayAts, 6)
  {
  }

  /** Add number 8 of the FullArrayTest test, of input 7. */
  lemma FullArrayStep7()
    ensures ReplayStep(5, FullArrayInputs, FullArrayQueues, FullArrayWindows, FullArrayErased, FullArrayAts, 7)
  {
  }

  /** Add number 9 of the FullArrayTest test, of input 8. */
  lemma FullArrayStep8()
    ensures ReplayStep(5, FullArrayInputs, FullArrayQueues, FullArrayWindows, FullArrayErased, FullArrayAts, 8)
  {
  }

  /** Add number 10 of the FullArrayTest test, of input 2. */
  lemma FullArrayStep9()
    ensures ReplayStep(5, FullArrayInputs, FullArrayQueues, FullArrayWindows, FullArrayErased, FullArrayAts, 9)
  {
  }

  /** Add number 11 of the FullArrayTest test, of input 10. */
  lemma FullArrayStep10()
    ensures ReplayStep(5, FullArrayInputs, FullArrayQueues, FullArrayWindows, FullArrayErased, FullArrayAts, 10)
  {
  }

  /** Add number 12 of the FullArrayTest test, of input 1. */
  lemma FullArrayStep11()
    ensures ReplayStep(5, FullArrayInputs, FullArrayQueues, FullArrayWindows, FullArrayErased, FullArrayAts, 11)
  {
  }

  /** Every Add of the FullArrayTest input sequence moves queue and window as Add promises. */
  lemma FullArraySteps()
    ensures forall i :: 0 <= i < |FullArrayInputs| ==> ReplayStep(5, FullArrayInputs, FullArrayQueues, FullArrayWindows, FullArrayErased, FullArrayAts, i)
  {
    forall i | 0 <= i < |FullArrayInputs|
      ensures ReplayStep(5, FullArrayInputs, FullArrayQueues, FullArrayWindows, FullArrayErased, FullArrayAts, i)
    {
      if i == 0 {
        FullArrayStep0();
      } else if i == 1 {
        FullArrayStep1();
      } else if i == 2 {
        FullArrayStep2();
      } else if i == 3 {
        FullArrayStep3();
      } else if i == 4 {
        FullArrayStep4();
      } else if i == 5 {
        FullArrayStep5();
      } else if i == 6 {
        FullArrayStep6();
      } else if i == 7 {
        FullArrayStep7();
      } else if i == 8 {
        FullArrayStep8();
      } else if i == 9 {
        FullArrayStep9();
      } else if i == 10 {
        FullArrayStep10();
      } else {
        FullArrayStep11();
      }
    }
  }

  /**
   * The medians of the FullArrayTest windows are 7, 4, 5, 4, 4, 3, 4, 4, 6, 6, 7, 7,
   * and the sizes of its queues are 1, 2, 3, 4, 5, 5, 5, 5, 5, 5, 5, 5.
   */
  lemma FullArrayReadings(medians: seq<int>, sizes: seq<int>)
    requires |medians| == |sizes| == |FullArrayInputs|
    requires forall i :: 0 <= i < |FullArrayInputs| ==> medians[i] == Median(FullArrayWindows[i + 1])
    requires forall i :: 0 <= i < |FullArrayInputs| ==> sizes[i] == |FullArrayQueues[i + 1]|
    ensures medians == [7, 4, 5, 4, 4, 3, 4, 4, 6, 6, 7, 7]
    ensures sizes == [1, 2, 3, 4, 5, 5, 5, 5, 5, 5, 5, 5]
  {
  }

  /**
   * The FullArrayTest test on an engine of capacity 5: the median read after each
   * Add is 7, 4, 5, 4, 4, 3, 4, 4, 6, 6, 7, 7, the size grows to 5 and stays there, and
   * after Clear both the size and the median are 0.
   */
  method FullArray() returns (medians: seq<int>, sizes: seq<int>, clearedSize: int, clearedMedian: int)
    ensures medians == [7, 4, 5, 4, 4, 3, 4, 4, 6, 6, 7, 7]
    ensures sizes == [1, 2, 3, 4, 5, 5, 5, 5, 5, 5, 5, 5]
    ensures clearedSize == 0 && clearedMedian == 0
  {
    FullArraySteps();
    var e := new Runmedian(5);
    assert e.Window() == [];
    medians, sizes := Replay(e, 5, FullArrayInputs, FullArrayQueues, FullArrayWindows, FullArrayErased, FullArrayAts);
    FullArrayReadings(medians, sizes);
    e.Clear();
    clearedSize := e.Size() as int;
    clearedMedian := e.Value();
  }

}
