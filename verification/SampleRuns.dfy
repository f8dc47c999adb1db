/** All interleavings of the device callback, the DSP thread and frame resets. */
module SampleRuns {
  import opened Decimator
  import opened SampleQueue
  import opened Capture

  /** Where the DSP thread is inside its lock, if it holds it: before the peek, with a peeked
      slot, with that slot processed, or after the release. A reset holds the same lock. */
  datatype Dsp = Unlocked | Locked | Peeked(slot: nat, header: Cell) | Processed(slot: nat, header: Cell) | Finished

  /** The ring, the DSP thread and the capture frame; what the device produced and what was
      processed since the reset. */
  datatype World = World(ring: Ring, dsp: Dsp, frame: Frame, timeline: seq<Sample>, processed: seq<Sample>)

  datatype Event =
    | Push(samples: seq<Sample>, dropped: nat)
    | Lock
    | Peek
    | Process
    | Release
    | Unlock
    | ResetFrame
    | Stop

  datatype Setup = Setup(capacity: nat, slotCount: nat, factor: nat, target: nat)

  predicate Enabled(w: World, e: Event) {
    match e
    case Push(_, _) => true
    case Lock => w.dsp.Unlocked?
    case Peek => w.dsp.Locked?
    case Process => w.dsp.Peeked?
    case Release => w.dsp.Processed?
    case Unlock => w.dsp.Finished?
    case ResetFrame => w.dsp.Unlocked?
    case Stop => true
  }

  /** What the device had to deliver: lost samples as zeros, and a refused block too. */
  function Span(samples: seq<Sample>, dropped: nat, accepted: bool): (x: seq<Sample>)
    ensures |x| == dropped + |samples|
  {
    Silent(dropped) + if accepted then samples else Silent(|samples|)
  }

  /** What the memory of a slot holds now, under the header copied by the peek. */
  function ReadNow(r: Ring, slot: nat, header: Cell): Block
    requires slot < |r.slots| && header.count <= |r.slots[slot].memory|
  {
    Block(header.deviceDropped, header.queueDropped, r.slots[slot].memory[..header.count])
  }

  /** One atomic step; an event that cannot happen now changes nothing. */
  ghost function Step(setup: Setup, w: World, e: Event): World
    requires Safe(setup, w)
  {
    if !Enabled(w, e) then w
    else match e
      case Push(samples, dropped) =>
        var (next, ok) := Pushed(w.ring, setup.capacity, samples, dropped);
        w.(ring := next, timeline := if w.ring.stopping then w.timeline else w.timeline + Span(samples, dropped, ok))
      case Lock => w.(dsp := Locked)
      case Peek =>
        w.(dsp := if w.ring.count != 0 && !w.ring.stopping then Peeked(w.ring.tail, w.ring.slots[w.ring.tail]) else Finished)
      case Process =>
        var block := ReadNow(w.ring, w.dsp.slot, w.dsp.header);
        w.(dsp := Processed(w.dsp.slot, w.dsp.header), frame := Handled(w.frame, block, setup.factor, setup.target),
           processed := w.processed + Expanded(block))
      case Release => w.(ring := Released(w.ring, setup.capacity).0, dsp := Finished)
      case Unlock => w.(dsp := Unlocked)
      case ResetFrame => World(Emptied(w.ring), Unlocked, Started(), [], [])
      case Stop => w.(ring := w.ring.(stopping := true))
  }

  // ----- slot ownership

  ghost predicate Holds(w: World) {
    w.dsp.Peeked? || w.dsp.Processed?
  }

  /** While the DSP thread holds a slot, that slot is the oldest queued one and its memory is
      what the peek saw. */
  ghost predicate Safe(setup: Setup, w: World) {
    && ValidRing(w.ring, setup.capacity) && |w.ring.slots| == setup.slotCount && setup.factor > 0 && setup.target > 0
    && (Holds(w) ==>
          && w.ring.count > 0 && w.dsp.slot == w.ring.tail && w.dsp.header == w.ring.slots[w.ring.tail])
  }

  lemma SafeStep(setup: Setup, w: World, e: Event)
    requires Safe(setup, w)
    ensures Safe(setup, Step(setup, w, e))
  {
    match e
    case Push(samples, dropped) => { PushAppends(w.ring, setup.capacity, samples, dropped); }
    case Release => { ReleaseRemoves(w.ring, setup.capacity); }
    case _ => { }
  }

  /** A processed block is the oldest queued one, whatever was pushed since the peek, and the
      release retires exactly that block. */
  lemma OwnedBlock(setup: Setup, w: World)
    requires Safe(setup, w) && Holds(w)
    ensures Blocks(w.ring, setup.capacity) != []
    ensures ReadNow(w.ring, w.dsp.slot, w.dsp.header) == Contents(w.dsp.header) == Blocks(w.ring, setup.capacity)[0]
    ensures w.dsp.Processed? ==>
      var next := Step(setup, w, Release);
      Safe(setup, next) && Blocks(next.ring, setup.capacity) == Blocks(w.ring, setup.capacity)[1..]
  {
    hide Handled, Expanded, Pushed;
    ReleaseRemoves(w.ring, setup.capacity);
    assert Place(w.ring.tail, 0, |w.ring.slots|) == w.ring.tail;
  }

  // ----- conservation of the timeline

  /** The input queued blocks stand for. */
  ghost function Queued(blocks: seq<Block>): seq<Sample> {
    if blocks == [] then [] else Queued(blocks[..|blocks| - 1]) + Expanded(blocks[|blocks| - 1])
  }

  /** The queued blocks not yet processed. */
  ghost function Unprocessed(setup: Setup, w: World): seq<Block>
    requires Safe(setup, w)
  {
    var blocks := Blocks(w.ring, setup.capacity);
    if w.dsp.Processed? && blocks != [] then blocks[1..] else blocks
  }

  /** What is still to be processed: queued blocks, but for one just processed, then pending losses. */
  ghost function Waiting(setup: Setup, w: World): seq<Sample>
    requires Safe(setup, w)
  {
    Queued(Unprocessed(setup, w)) + Silent(w.ring.pendingDevice + w.ring.pendingQueue)
  }

  ghost predicate Conserved(setup: Setup, w: World) {
    Safe(setup, w) && w.processed + Waiting(setup, w) == w.timeline
  }

  lemma {:induction false} QueuedFront(blocks: seq<Block>)
    requires blocks != []
    ensures Queued(blocks) == Expanded(blocks[0]) + Queued(blocks[1..])
    decreases |blocks|
  {
    hide Expanded;
    var n := |blocks| - 1;
    if n == 0 {
      assert blocks[..0] == [] && blocks[1..] == [];
    } else {
      QueuedFront(blocks[..n]);
      assert blocks[..n][1..] == blocks[1..][..n - 1] && blocks[..n][0] == blocks[0];
      assert blocks[1..][n - 1] == blocks[n];
      Regroup(Expanded(blocks[0]), Queued(blocks[1..][..n - 1]), Expanded(blocks[n]));
    }
  }

  lemma QueuedSnoc(blocks: seq<Block>, b: Block)
    ensures Queued(blocks + [b]) == Queued(blocks) + Expanded(b)
  {
    assert (blocks + [b])[..|blocks|] == blocks;
  }

  lemma Merge(a: seq<Sample>, n: nat, m: nat)
    ensures a + Silent(n) + Silent(m) == a + Silent(n + m) && a + Silent(0) == a
  {
  }

  /** An accepted block expands to the pending losses, the new loss and the samples. */
  lemma AcceptedSpan(r: Ring, samples: seq<Sample>, dropped: nat)
    requires r.pendingDevice + r.pendingQueue + dropped + |samples| <= U64_MAX
    ensures Expanded(Block(SaturatingAdd(r.pendingDevice, dropped), r.pendingQueue, samples))
      == Silent(r.pendingDevice + r.pendingQueue) + Span(samples, dropped, true)
  {
    ExpandedPlain(Block(r.pendingDevice + dropped, r.pendingQueue, samples));
    assert Silent(r.pendingDevice + dropped + r.pendingQueue) == Silent(r.pendingDevice + r.pendingQueue) + Silent(dropped);
  }

  lemma RefusedSpan(samples: seq<Sample>, dropped: nat)
    ensures Span(samples, dropped, false) == Silent(dropped + |samples|)
  {
  }

  lemma Regroup(a: seq<Sample>, b: seq<Sample>, c: seq<Sample>)
    ensures a + (b + c) == a + b + c
  {
  }

  /** What a push does to the ring, in terms of what is waiting. */
  lemma PushResult(setup: Setup, w: World, samples: seq<Sample>, dropped: nat, ok: bool)
    requires Safe(setup, w) && !w.ring.stopping && w.ring.pendingDevice + w.ring.pendingQueue + dropped + |samples| <= U64_MAX
    requires samples != [] || dropped == 0
    requires ok == Pushed(w.ring, setup.capacity, samples, dropped).1
    ensures var next := Step(setup, w, Push(samples, dropped));
      && Safe(setup, next)
      && (ok ==> next.ring.pendingDevice + next.ring.pendingQueue == 0 && Unprocessed(setup, next)
                   == Unprocessed(setup, w) + [Block(SaturatingAdd(w.ring.pendingDevice, dropped), w.ring.pendingQueue, samples)])
      && (!ok ==> Unprocessed(setup, next) == Unprocessed(setup, w)
                   && next.ring.pendingDevice + next.ring.pendingQueue == w.ring.pendingDevice + w.ring.pendingQueue + (dropped + |samples|))
  {
    PushAppends(w.ring, setup.capacity, samples, dropped);
    SafeStep(setup, w, Push(samples, dropped));
    hide Blocks;
  }

  lemma PushWaiting(setup: Setup, w: World, samples: seq<Sample>, dropped: nat, ok: bool)
    requires Safe(setup, w) && !w.ring.stopping && w.ring.pendingDevice + w.ring.pendingQueue + dropped + |samples| <= U64_MAX
    requires samples != [] || dropped == 0
    requires ok == Pushed(w.ring, setup.capacity, samples, dropped).1
    ensures var next := Step(setup, w, Push(samples, dropped));
      Safe(setup, next) && Waiting(setup, next) == Waiting(setup, w) + Span(samples, dropped, ok)
  {
    PushResult(setup, w, samples, dropped, ok);
    var was, n := Unprocessed(setup, w), w.ring.pendingDevice + w.ring.pendingQueue;
    AcceptedSpan(w.ring, samples, dropped);
    RefusedSpan(samples, dropped);
    var b := Block(SaturatingAdd(w.ring.pendingDevice, dropped), w.ring.pendingQueue, samples);
    hide Step, Pushed, Unprocessed, Expanded, Queued, Span, Silent;
    if ok {
      QueuedSnoc(was, b);
      Merge(Queued(was + [b]), 0, 0);
      Regroup(Queued(was), Silent(n), Span(samples, dropped, true));
    } else {
      Merge(Queued(was), n, dropped + |samples|);
    }
  }

  /** A push keeps the timeline whole exactly when it is not an empty transfer that reports
      lost samples: those are forgotten. */
  lemma PushConservesIff(setup: Setup, w: World, samples: seq<Sample>, dropped: nat)
    requires Conserved(setup, w) && |Step(setup, w, Push(samples, dropped)).timeline| <= U64_MAX
    ensures Conserved(setup, Step(setup, w, Push(samples, dropped))) <==> (samples != [] || dropped == 0 || w.ring.stopping)
  {
    var next := Step(setup, w, Push(samples, dropped));
    SafeStep(setup, w, Push(samples, dropped));
    if !w.ring.stopping && (samples != [] || dropped == 0) {
      var ok := Pushed(w.ring, setup.capacity, samples, dropped).1;
      assert |Waiting(setup, w)| >= w.ring.pendingDevice + w.ring.pendingQueue;
      PushWaiting(setup, w, samples, dropped, ok);
      assert next.timeline == w.timeline + Span(samples, dropped, ok) && next.processed == w.processed;
      hide Span, Waiting, Step, Pushed;
      Regroup(w.processed, Waiting(setup, w), Span(samples, dropped, ok));
    } else if !w.ring.stopping {
      assert next.ring == w.ring && |next.timeline| == |w.timeline| + dropped;
      assert |w.processed + Waiting(setup, next)| == |w.timeline|;
    }
  }

  lemma ProcessResult(setup: Setup, w: World)
    requires Safe(setup, w) && Enabled(w, Process)
    ensures var next, blocks := Step(setup, w, Process), Blocks(w.ring, setup.capacity);
      && blocks != [] && next.processed == w.processed + Expanded(blocks[0]) && next.ring == w.ring && next.timeline == w.timeline
      && Unprocessed(setup, w) == blocks && Unprocessed(setup, next) == blocks[1..]
  {
    OwnedBlock(setup, w);
    hide Blocks, Expanded;
  }

  lemma ProcessConserves(setup: Setup, w: World)
    requires Conserved(setup, w) && Enabled(w, Process)
    ensures Conserved(setup, Step(setup, w, Process))
  {
    SafeStep(setup, w, Process);
    ProcessResult(setup, w);
    var blocks, lost := Blocks(w.ring, setup.capacity), Silent(w.ring.pendingDevice + w.ring.pendingQueue);
    hide Expanded, Step, Safe, Blocks, Unprocessed, Silent, Queued;
    QueuedFront(blocks);
    var e, rest := Expanded(blocks[0]), Queued(blocks[1..]);
    Regroup(e, rest, lost);
    Regroup(w.processed, e, rest + lost);
  }

  /** Every event but a lossy empty transfer keeps the timeline whole. */
  lemma StepConserves(setup: Setup, w: World, e: Event)
    requires Conserved(setup, w) && |Step(setup, w, e).timeline| <= U64_MAX
    requires e.Push? ==> e.samples != [] || e.dropped == 0
    ensures Conserved(setup, Step(setup, w, e))
  {
    SafeStep(setup, w, e);
    if Enabled(w, e) {
      match e
      case Push(samples, dropped) => { PushConservesIff(setup, w, samples, dropped); }
      case Process => { ProcessConserves(setup, w); }
      case Release => { OwnedBlock(setup, w); }
      case ResetFrame => { }
      case Lock => { }
      case Peek => { }
      case Unlock => { }
      case Stop => { assert Blocks(Step(setup, w, e).ring, setup.capacity) == Blocks(w.ring, setup.capacity); }
    }
  }

  // ----- whole runs

  /** Just after a reset. */
  ghost predicate Fresh(setup: Setup, w: World) {
    && Safe(setup, w) && w.dsp.Unlocked? && w.frame == Started() && w.timeline == [] && w.processed == []
    && w.ring.count == 0 && w.ring.pendingDevice == 0 && w.ring.pendingQueue == 0
  }

  ghost function After(setup: Setup, start: World, events: seq<Event>): (w: World)
    requires Safe(setup, start)
    ensures Safe(setup, w)
  {
    if events == [] then start
    else
      var before := After(setup, start, events[..|events| - 1]);
      SafeStep(setup, before, events[|events| - 1]);
      Step(setup, before, events[|events| - 1])
  }

  /** No empty transfer reports losses, and no frame's timeline outgrows a 64-bit counter. */
  ghost predicate Regular(setup: Setup, start: World, events: seq<Event>)
    requires Safe(setup, start)
  {
    && (forall i :: 0 <= i < |events| && events[i].Push? ==> events[i].samples != [] || events[i].dropped == 0)
    && forall n :: 0 <= n <= |events| ==> |After(setup, start, events[..n]).timeline| <= U64_MAX
  }

  /** In every interleaving, what was processed, then what is queued, then the pending losses,
      is the device's stream since the reset with lost samples as zeros. */
  lemma {:induction false} TimelineWhole(setup: Setup, start: World, events: seq<Event>)
    requires Fresh(setup, start) && Regular(setup, start, events)
    ensures Conserved(setup, After(setup, start, events))
  {
    if events == [] {
    } else {
      var n := |events| - 1;
      assert forall m :: 0 <= m <= n ==> events[..n][..m] == events[..m];
      TimelineWhole(setup, start, events[..n]);
      assert events[..n + 1] == events;
      StepConserves(setup, After(setup, start, events[..n]), events[n]);
    }
  }

  lemma FrameOnStep(setup: Setup, w: World, e: Event)
    requires Safe(setup, w) && FrameFollows(w.frame, w.processed, setup.factor, setup.target)
    ensures var next := Step(setup, w, e); FrameFollows(next.frame, next.processed, setup.factor, setup.target)
  {
    hide FrameFollows, Expanded, Handled;
    StartedFollows(setup.factor, setup.target);
    if e.Process? && Enabled(w, e) {
      HandledFollows(w.frame, w.processed, ReadNow(w.ring, w.dsp.slot, w.dsp.header), setup.factor, setup.target);
    }
  }

  /** In every interleaving the frame holds the outputs of all input processed since the reset, up
      to the target; it is open until it is full, and decoding has been requested once if it is full
      and not at all before. */
  lemma {:induction false} FrameOfRun(setup: Setup, start: World, events: seq<Event>)
    requires Fresh(setup, start)
    ensures var w := After(setup, start, events);
      && w.frame.stored == Stored(w.processed, setup.factor, setup.target)
      && w.frame.open == (|w.frame.stored| < setup.target) && w.frame.requests == if w.frame.open then 0 else 1
    ensures var w := After(setup, start, events); FrameFollows(w.frame, w.processed, setup.factor, setup.target)
  {
    if events == [] {
      StartedFollows(setup.factor, setup.target);
    } else {
      FrameOfRun(setup, start, events[..|events| - 1]);
      FrameOnStep(setup, After(setup, start, events[..|events| - 1]), events[|events| - 1]);
    }
    hide Step, Safe;
  }

  /** Each stored sample of a frame is the direct filter of the device's own stream, ending at
      input (k + 1) * factor. */
  lemma FrameIsFiltered(setup: Setup, start: World, events: seq<Event>, k: nat)
    requires Fresh(setup, start) && Regular(setup, start, events)
    requires k < |After(setup, start, events).frame.stored|
    ensures var w := After(setup, start, events);
      (k + 1) * setup.factor <= |w.timeline| && w.frame.stored[k] == OutputAt(w.timeline, k, setup.factor)
  {
    TimelineWhole(setup, start, events);
    FrameOfRun(setup, start, events);
    var w := After(setup, start, events);
    hide Regular, OutputAt, After;
    OutputAtPrefix(w.processed, Waiting(setup, w), k, setup.factor);
    OutputInside(|w.processed|, k, setup.factor);
  }
}
