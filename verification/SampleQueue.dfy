/** The ring of sample blocks between the device callback and the DSP thread. */
module SampleQueue {
  import opened Decimator

  const U64_MAX: nat := 0xffff_ffff_ffff_ffff

  function SaturatingAdd(left: nat, right: nat): (sum: nat)
    requires left <= U64_MAX
    ensures sum == if left + right <= U64_MAX then left + right else U64_MAX
  {
    if U64_MAX - left < right then U64_MAX else left + right
  }

  /** A slot with the memory it owns. */
  datatype Cell = Cell(memory: seq<Sample>, count: nat, deviceDropped: nat, queueDropped: nat)

  datatype Ring = Ring(slots: seq<Cell>, head: nat, tail: nat, count: nat, pendingDevice: nat, pendingQueue: nat, stopping: bool)

  /** What a slot delivers: samples lost before it, then samples. */
  datatype Block = Block(deviceDropped: nat, queueDropped: nat, samples: seq<Sample>)

  /** The slot k places after the tail. */
  function Place(tail: nat, k: nat, n: nat): (i: nat)
    requires tail < n && k <= n
    ensures i < n
  {
    if tail + k < n then tail + k else tail + k - n
  }

  ghost predicate ValidRing(r: Ring, capacity: nat) {
    && r.tail < |r.slots| && r.count <= |r.slots| && r.head == Place(r.tail, r.count, |r.slots|)
    && r.pendingDevice <= U64_MAX && r.pendingQueue <= U64_MAX
    && forall i :: 0 <= i < |r.slots| ==> ValidCell(r.slots[i], capacity)
  }

  ghost predicate ValidCell(c: Cell, capacity: nat) {
    |c.memory| == capacity && c.count <= capacity && c.deviceDropped <= U64_MAX && c.queueDropped <= U64_MAX
  }

  function Contents(c: Cell): Block
    requires c.count <= |c.memory|
  {
    Block(c.deviceDropped, c.queueDropped, c.memory[..c.count])
  }

  /** The queued blocks, oldest first. */
  ghost function Blocks(r: Ring, capacity: nat): (b: seq<Block>)
    requires ValidRing(r, capacity)
    ensures |b| == r.count
  {
    seq(r.count, k requires 0 <= k < r.count => Contents(r.slots[Place(r.tail, k, |r.slots|)]))
  }

  /** The slot after a push into it. */
  function Filled(c: Cell, samples: seq<Sample>, deviceDropped: nat, queueDropped: nat): Cell
    requires |samples| <= |c.memory|
  {
    Cell(samples + c.memory[|samples|..], |samples|, deviceDropped, queueDropped)
  }

  /** A push: refused, counted as lost, or stored in the head slot. */
  ghost function Pushed(r: Ring, capacity: nat, samples: seq<Sample>, dropped: nat): (Ring, bool)
    requires ValidRing(r, capacity)
  {
    if |samples| == 0 || r.stopping then (r, false)
    else if |samples| > capacity || r.count == |r.slots| then
      (r.(pendingDevice := SaturatingAdd(r.pendingDevice, dropped), pendingQueue := SaturatingAdd(r.pendingQueue, |samples|)), false)
    else
      (Ring(r.slots[r.head := Filled(r.slots[r.head], samples, SaturatingAdd(r.pendingDevice, dropped), r.pendingQueue)],
            (r.head + 1) % |r.slots|, r.tail, r.count + 1, 0, 0, false), true)
  }

  ghost function Released(r: Ring, capacity: nat): (Ring, bool)
    requires ValidRing(r, capacity)
  {
    if r.count == 0 then (r, false) else (r.(tail := (r.tail + 1) % |r.slots|, count := r.count - 1), true)
  }

  function Emptied(r: Ring): Ring {
    r.(head := 0, tail := 0, count := 0, pendingDevice := 0, pendingQueue := 0)
  }

  // ----- the ring is a queue

  lemma NextPlace(i: nat, n: nat)
    requires i < n
    ensures (i + 1) % n == if i + 1 == n then 0 else i + 1
  {
  }

  /** A push that is accepted appends its block with all losses pending before it. */
  lemma PushAppends(r: Ring, capacity: nat, samples: seq<Sample>, dropped: nat)
    requires ValidRing(r, capacity)
    ensures var (next, ok) := Pushed(r, capacity, samples, dropped);
      && ValidRing(next, capacity)
      && ok == (0 < |samples| <= capacity && !r.stopping && r.count < |r.slots|)
      && Blocks(next, capacity) == Blocks(r, capacity)
           + if ok then [Block(SaturatingAdd(r.pendingDevice, dropped), r.pendingQueue, samples)] else []
  {
    var (next, ok) := Pushed(r, capacity, samples, dropped);
    var n := |r.slots|;
    if ok {
      NextPlace(r.head, n);
      var block := Block(SaturatingAdd(r.pendingDevice, dropped), r.pendingQueue, samples);
      assert Contents(next.slots[r.head]).samples == samples;
      forall k | 0 <= k < r.count ensures Contents(next.slots[Place(r.tail, k, n)]) == Contents(r.slots[Place(r.tail, k, n)]) {
        assert Place(r.tail, k, n) != r.head;
      }
    } else {
      assert Blocks(next, capacity) == Blocks(r, capacity);
    }
  }

  /** A release retires the oldest block. */
  lemma ReleaseRemoves(r: Ring, capacity: nat)
    requires ValidRing(r, capacity)
    ensures var (next, ok) := Released(r, capacity);
      && ValidRing(next, capacity) && ok == (Blocks(r, capacity) != [])
      && Blocks(next, capacity) == if ok then Blocks(r, capacity)[1..] else Blocks(r, capacity)
  {
    var (next, ok) := Released(r, capacity);
    if ok {
      NextPlace(r.tail, |r.slots|);
      forall k | 0 <= k < next.count ensures Blocks(next, capacity)[k] == Blocks(r, capacity)[k + 1] {
        assert Place(next.tail, k, |r.slots|) == Place(r.tail, k + 1, |r.slots|);
      }
    }
  }

  // ----- the queue in place

  datatype Slot = Slot(samples: array<Sample>, sampleCount: nat, deviceDropped: nat, queueDropped: nat)

  /** `memcpy` into the front of a slot's memory. */
  method Copy(memory: array<Sample>, samples: seq<Sample>)
    requires |samples| <= memory.Length
    modifies memory
    ensures memory[..] == samples + old(memory[..])[|samples|..]
  {
    for i := 0 to |samples|
      invariant memory[..i] == samples[..i] && memory[i..] == old(memory[..])[i..]
    {
      memory[i] := samples[i];
    }
    assert memory[..] == memory[..|samples|] + memory[|samples|..];
  }

  class SampleQueue {
    const capacity: nat
    const slots: array<Slot>
    ghost const buffers: seq<array<Sample>>
    var head: nat
    var tail: nat
    var count: nat
    var pendingDevice: nat
    var pendingQueue: nat
    var stopping: bool

    ghost predicate Shaped()
      reads slots
    {
      && |buffers| == slots.Length
      && (forall i :: 0 <= i < |buffers| ==> buffers[i].Length == capacity && slots[i].samples == buffers[i])
      && forall i, j :: 0 <= i < j < |buffers| ==> buffers[i] != buffers[j]
    }

    ghost function Cells(): (c: seq<Cell>)
      requires Shaped()
      reads slots, buffers
      ensures |c| == slots.Length
    {
      seq(slots.Length, i requires 0 <= i < slots.Length reads slots, buffers =>
        Cell(buffers[i][..], slots[i].sampleCount, slots[i].deviceDropped, slots[i].queueDropped))
    }

    ghost function Current(): (r: Ring)
      requires Shaped()
      reads this, slots, buffers
    {
      Ring(Cells(), head, tail, count, pendingDevice, pendingQueue, stopping)
    }

    ghost predicate Valid()
      reads this, slots, buffers
    {
      Shaped() && ValidRing(Current(), capacity)
    }

    /** `sample_queue_init`, given memory: an empty queue of slots with room for capacity samples. */
    constructor (capacity: nat, slotCount: nat)
      requires slotCount > 0
      ensures Valid() && this.capacity == capacity && slots.Length == slotCount && fresh(slots) && fresh(buffers)
      ensures Blocks(Current(), capacity) == [] && pendingDevice == pendingQueue == 0 && !stopping
    {
      var none := new Sample[0](_ => Sample(0.0, 0.0));
      var ring := new Slot[slotCount](_ => Slot(none, 0, 0, 0));
      ghost var owned: seq<array<Sample>> := [];
      for i := 0 to slotCount
        invariant |owned| == i && fresh(ring) && fresh(owned)
        invariant forall k :: 0 <= k < i ==> owned[k].Length == capacity && ring[k] == Slot(owned[k], 0, 0, 0)
        invariant forall j, k :: 0 <= j < k < i ==> owned[j] != owned[k]
      {
        var memory := new Sample[capacity](_ => Sample(0.0, 0.0));
        ring[i] := Slot(memory, 0, 0, 0);
        owned := owned + [memory];
      }
      this.capacity, slots, buffers := capacity, ring, owned;
      head, tail, count, pendingDevice, pendingQueue, stopping := 0, 0, 0, 0, 0, false;
    }

    /** `sample_queue_reset`. */
    method Reset()
      requires Valid()
      modifies `head, `tail, `count, `pendingDevice, `pendingQueue
      ensures Valid() && Current() == Emptied(old(Current())) && Blocks(Current(), capacity) == []
    {
      head, tail, count, pendingDevice, pendingQueue := 0, 0, 0, 0, 0;
    }

    /** `sample_queue_stop`. */
    method Stop()
      requires Valid()
      modifies `stopping
      ensures Valid() && Current() == old(Current()).(stopping := true)
    {
      stopping := true;
    }

    /** `sample_queue_push`. */
    method Push(samples: seq<Sample>, dropped: nat) returns (ok: bool)
      requires Valid()
      modifies `head, `count, `pendingDevice, `pendingQueue, slots, buffers
      ensures Valid() && (Current(), ok) == Pushed(old(Current()), capacity, samples, dropped)
    {
      PushAppends(Current(), capacity, samples, dropped);
      if |samples| == 0 || stopping {
        return false;
      }
      if |samples| > capacity || count == slots.Length {
        pendingDevice := SaturatingAdd(pendingDevice, dropped);
        pendingQueue := SaturatingAdd(pendingQueue, |samples|);
        return false;
      }
      Fill(samples, SaturatingAdd(pendingDevice, dropped), pendingQueue);
      pendingDevice, pendingQueue := 0, 0;
      head := (head + 1) % slots.Length;
      count := count + 1;
      ok := true;
    }

    /** Copy into the head slot. */
    method Fill(samples: seq<Sample>, deviceDropped: nat, queueDropped: nat)
      requires Shaped() && head < slots.Length && |samples| <= capacity
      modifies slots, buffers[head]
      ensures Shaped() && Cells() == old(Cells())[head := Filled(old(Cells())[head], samples, deviceDropped, queueDropped)]
    {
      var slot := slots[head];
      ghost var cells := Cells();
      assert slot.samples == buffers[head] && cells[head].memory == buffers[head][..];
      Copy(slot.samples, samples);
      slots[head] := Slot(slot.samples, |samples|, deviceDropped, queueDropped);
      forall i | 0 <= i < |cells| && i != head ensures Cells()[i] == cells[i] {
        assert buffers[i] != buffers[head];
      }
    }

    /** `sample_queue_try_peek`: a copy of the oldest slot, still pointing at its memory. */
    method TryPeek() returns (available: bool, slot: Slot)
      requires Valid()
      ensures available == (Blocks(Current(), capacity) != [] && !stopping)
      ensures available ==> slot == slots[tail] && slot.sampleCount <= slot.samples.Length
      ensures available ==>
        Block(slot.deviceDropped, slot.queueDropped, slot.samples[..slot.sampleCount]) == Blocks(Current(), capacity)[0]
    {
      available := count != 0 && !stopping;
      assert Cells()[tail].count == slots[tail].sampleCount && Cells()[tail].memory == buffers[tail][..];
      slot := slots[tail];
    }

    /** `sample_queue_release`. */
    method Release() returns (released: bool)
      requires Valid()
      modifies `tail, `count
      ensures Valid() && (Current(), released) == Released(old(Current()), capacity)
    {
      ReleaseRemoves(Current(), capacity);
      released := false;
      if count != 0 {
        tail := (tail + 1) % slots.Length;
        count := count - 1;
        released := true;
      }
    }
  }
}
