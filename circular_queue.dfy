/**
 * The bounded circular queue `Rqueue<T, kSize>`: a fixed array of kSize slots,
 * a head index and a size.  The logical contents are the `size` slots that
 * start at the head and wrap around the end of the array.  Removing elements
 * only moves the indices; no slot is ever cleared.
 *
 * The element type is `int`; the capacity kSize is fixed at construction and,
 * like the source's `uint8_t` template parameter, lies in 1..255.
 */
module CircularQueue {

  /** The source's `uint8_t` index and size type. */
  type uint8 = x: int | 0 <= x < 0x100

  /**
   * Slot arithmetic of the ring: x mod k for 0 <= x < 2k, written without the
   * modulus so that contracts stay linear.  ModBelowTwice ties it to `%`.
   */
  function Wrap(x: int, k: int): int
  {
    if x < k then x else x - k
  }

  /** Wrap agrees with the modulus the source computes. */
  lemma ModBelowTwice(x: int, k: int)
    requires 0 < k && 0 <= x < 2 * k
    ensures x % k == Wrap(x, k)
  {
  }

  /**
   * The slot `Tail` reads: `pos + size - 1U` in 32-bit unsigned arithmetic,
   * reduced modulo k.  Only pos == size == 0 makes the difference wrap.
   */
  lemma TailSlot(p: nat, n: nat, k: nat)
    requires 0 < k < 0x100 && p < k && n <= k
    ensures ((p + n - 1) % 0x1_0000_0000) % k
            == if p + n == 0 then 0xFFFF_FFFF % k else Wrap(p + n - 1, k)
  {
    if p + n > 0 {
      assert (p + n - 1) % 0x1_0000_0000 == p + n - 1;
      ModBelowTwice(p + n - 1, k);
    } else {
      assert (p + n - 1) % 0x1_0000_0000 == 0xFFFF_FFFF;
    }
  }

  /** The n logical elements of a ring over `buf` whose head is slot p. */
  ghost function Ring(buf: seq<int>, p: nat, n: nat, k: nat): (r: seq<int>)
    requires 0 < k == |buf| && p < k && n <= k
    ensures |r| == n
    ensures forall i :: 0 <= i < n ==> r[i] == buf[Wrap(p + i, k)]
  {
    seq(n, i requires 0 <= i < n => buf[Wrap(p + i, k)])
  }

  /** Writing the slot just past the last element of a non-full ring appends to it. */
  lemma {:induction false} RingAppend(buf: seq<int>, p: nat, n: nat, k: nat, x: int)
    requires 0 < k == |buf| && p < k && n < k
    ensures Ring(buf[Wrap(p + n, k) := x], p, n + 1, k) == Ring(buf, p, n, k) + [x]
  {
    var after := Ring(buf[Wrap(p + n, k) := x], p, n + 1, k);
    var before := Ring(buf, p, n, k) + [x];
    forall i | 0 <= i < n + 1
      ensures after[i] == before[i]
    {
      ModBelowTwice(p + i, k);
      ModBelowTwice(p + n, k);
    }
  }

  /**
   * Overwriting the head slot of a full ring and moving the head on by one
   * drops the oldest element and appends x.
   */
  lemma {:induction false} RingOverwrite(buf: seq<int>, p: nat, k: nat, x: int)
    requires 0 < k == |buf| && p < k
    ensures Ring(buf[p := x], Wrap(p + 1, k), k, k) == Ring(buf, p, k, k)[1..] + [x]
  {
    var after := Ring(buf[p := x], Wrap(p + 1, k), k, k);
    var before := Ring(buf, p, k, k)[1..] + [x];
    ModBelowTwice(p + 1, k);
    forall i | 0 <= i < k
      ensures after[i] == before[i]
    {
      ModBelowTwice(Wrap(p + 1, k) + i, k);
      ModBelowTwice(p + i + 1, k);
    }
  }

  /** Moving the head of a non-empty ring on by one drops its oldest element. */
  lemma {:induction false} RingAdvance(buf: seq<int>, p: nat, n: nat, k: nat)
    requires 0 < k == |buf| && p < k && 0 < n <= k
    ensures Ring(buf, Wrap(p + 1, k), n - 1, k) == Ring(buf, p, n, k)[1..]
  {
    var after := Ring(buf, Wrap(p + 1, k), n - 1, k);
    var before := Ring(buf, p, n, k)[1..];
    ModBelowTwice(p + 1, k);
    forall i | 0 <= i < n - 1
      ensures after[i] == before[i]
    {
      ModBelowTwice(Wrap(p + 1, k) + i, k);
      ModBelowTwice(p + i + 1, k);
    }
  }

  class Rqueue {
    /** The capacity (template parameter kSize). */
    const kSize: uint8
    /** The slots (`queue_`). */
    const queue: array<int>
    /** Physical index of the oldest element (`queue_pos_`). */
    var pos: uint8
    /** Number of logically valid elements (`queue_size_`). */
    var size: uint8

    /** The logical contents, oldest first. */
    ghost var Contents: seq<int>

    /** Logical element i lives in slot (pos + i) mod kSize. */
    ghost predicate Valid()
      reads this, queue
    {
      && 1 <= kSize
      && queue.Length == kSize as int
      && pos < kSize
      && size <= kSize
      && Contents == Ring(queue[..], pos, size, kSize)
    }

    /** A fresh queue is empty, its head is slot 0 and every slot holds 0. */
    constructor (k: uint8)
      requires 1 <= k
      ensures Valid() && fresh(queue)
      ensures kSize == k && pos == 0 && size == 0 && Contents == []
      ensures forall i :: 0 <= i < queue.Length ==> queue[i] == 0
    {
      kSize := k;
      queue := new int[k](_ => 0);
      pos, size := 0, 0;
      Contents := [];
    }

    /** Advances the head index by one, wrapping at kSize. */
    method IncrementPos()
      requires 1 <= kSize && pos < kSize
      modifies this`pos
      ensures pos == Wrap(old(pos) + 1, kSize)
    {
      ModBelowTwice(pos + 1, kSize);
      pos := (pos + 1) % kSize;
    }

    /**
     * Appends x.  On a full queue the oldest element is overwritten: the head
     * moves on by one, the size stays kSize and the slot written is the old
     * head's.  In both cases the slot written is (old pos + old size) mod kSize.
     */
    method AddToTail(x: int)
      requires Valid()
      modifies this, queue
      ensures Valid()
      ensures old(size) < kSize ==>
                size == old(size) + 1 && pos == old(pos) && Contents == old(Contents) + [x]
      ensures old(size) == kSize ==>
                size == kSize && pos == Wrap(old(pos) + 1, kSize) && Contents == old(Contents)[1..] + [x]
      ensures queue[..] == old(queue[..])[Wrap(old(pos) + old(size), kSize) := x]
    {
      ghost var was := queue[..];
      ghost var wasPos := pos;
      ghost var wasSize := size;
      if size < kSize {
        size := size + 1;
      } else {
        IncrementPos();
      }
      // The new tail's slot is (old pos + old size) mod kSize in both cases.
      ModBelowTwice(pos + size - 1, kSize);
      var slot := (pos + size - 1) % kSize;
      assert slot == Wrap(wasPos + wasSize, kSize);
      queue[slot] := x;
      if wasSize < kSize {
        RingAppend(was, wasPos, wasSize, kSize, x);
        Contents := Contents + [x];
      } else {
        RingOverwrite(was, wasPos, kSize, x);
        Contents := Contents[1..] + [x];
      }
    }

    /** The oldest retained element; on an empty queue a stale slot is read. */
    function Head(): (r: int)
      reads this, queue
      requires Valid()
      ensures size > 0 ==> r == Contents[0]
    {
      ModBelowTwice(pos, kSize);
      queue[pos]
    }

    /**
     * The newest element.  The index `pos + size - 1U` is computed in 32-bit
     * unsigned arithmetic, so on an empty queue it wraps before the reduction
     * modulo kSize and a stale slot is read.
     */
    function Tail(): (r: int)
      reads this, queue
      requires Valid()
      ensures size > 0 ==> r == Contents[size - 1]
      ensures size == 0 ==> r == queue[if pos == 0 then 0xFFFF_FFFF % kSize as int else pos as int - 1]
    {
      TailSlot(pos, size, kSize);
      if pos + size == 0 then queue[0xFFFF_FFFF % kSize] else queue[Wrap(pos + size - 1, kSize)]
    }

    /**
     * Logical element `index` counted from the head.  An index at or beyond
     * the size falls back to PHYSICAL slot 0, not to the logical head.
     */
    function At(index: uint8): (r: int)
      reads this, queue
      requires Valid()
      ensures index < size ==> r == Contents[index]
      ensures size <= index ==> r == queue[0]
    {
      ModBelowTwice(if index < size then pos + index else 0, kSize);
      var itemIdx := if index < size then (pos + index) % kSize else 0;
      queue[itemIdx]
    }

    /** The current number of elements. */
    function Size(): (r: uint8)
      reads this, queue
      requires Valid()
      ensures r as int == |Contents| && r <= kSize
    {
      size
    }

    /**
     * What reading indices 0 .. kSize-1 through `At` yields: the contents,
     * then physical slot 0 for every index past the size.
     */
    ghost function Snapshot(): (r: seq<int>)
      reads this, queue
      requires Valid()
      ensures |r| == kSize as int
      ensures forall i :: 0 <= i < |r| ==> r[i] == At(i as uint8)
      ensures size == kSize ==> r == Contents
    {
      var fallback := queue[0];
      Contents + seq(kSize - size, _ => fallback)
    }

    /** Unconditional insertion: never fails, overwrites the oldest when full. */
    method Add(x: int)
      requires Valid()
      modifies this, queue
      ensures Valid()
      ensures old(size) < kSize ==>
                size == old(size) + 1 && pos == old(pos) && Contents == old(Contents) + [x]
      ensures old(size) == kSize ==>
                size == kSize && pos == Wrap(old(pos) + 1, kSize) && Contents == old(Contents)[1..] + [x]
      ensures queue[..] == old(queue[..])[Wrap(old(pos) + old(size), kSize) := x]
      ensures Tail() == x
    {
      AddToTail(x);
    }

    /** Insertion only into a queue that is not full; reports whether it happened. */
    method TryAdd(x: int) returns (added: bool)
      requires Valid()
      modifies this, queue
      ensures Valid()
      ensures added <==> old(size) < kSize
      ensures added ==>
                size == old(size) + 1 && pos == old(pos) && Contents == old(Contents) + [x]
                && queue[..] == old(queue[..])[Wrap(old(pos) + old(size), kSize) := x]
      ensures !added ==>
                size == old(size) && pos == old(pos) && Contents == old(Contents)
                && queue[..] == old(queue[..])
    {
      if size < kSize {
        AddToTail(x);
        added := true;
      } else {
        added := false;
      }
    }

    /** Drops the oldest element by moving the head; a no-op when empty. */
    method DeleteHead()
      requires Valid()
      modifies this
      ensures Valid()
      ensures old(size) > 0 ==>
                size == old(size) - 1 && pos == Wrap(old(pos) + 1, kSize) && Contents == old(Contents)[1..]
      ensures old(size) == 0 ==> size == 0 && pos == old(pos) && Contents == old(Contents)
      ensures queue[..] == old(queue[..])
    {
      if size > 0 {
        RingAdvance(queue[..], pos, size, kSize);
        size := size - 1;
        IncrementPos();
        Contents := Contents[1..];
      }
    }

    /** Drops the newest element by shrinking the size; a no-op when empty. */
    method DeleteTail()
      requires Valid()
      modifies this
      ensures Valid()
      ensures old(size) > 0 ==>
                size == old(size) - 1 && pos == old(pos) && Contents == old(Contents)[..old(size) - 1]
      ensures old(size) == 0 ==> size == 0 && pos == old(pos) && Contents == old(Contents)
      ensures queue[..] == old(queue[..])
    {
      if size > 0 {
        size := size - 1;
        Contents := Contents[..size];
      }
    }

    /** Empties the queue and resets the head to slot 0; the slots keep their values. */
    method DeleteAll()
      requires Valid()
      modifies this
      ensures Valid()
      ensures size == 0 && pos == 0 && Contents == []
      ensures queue[..] == old(queue[..])
    {
      size := 0;
      pos := 0;
      Contents := [];
    }
  }
}
