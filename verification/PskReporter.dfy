/** The reporter: a queue filled by the decoder and emptied by a thread that sends unlocked. */
module PskReporter {
  import opened Bits
  import opened PskPacket
  import opened RecentSenders

  const RETRY_SECONDS := 60
  const TEMPLATE_SECONDS := 3600
  const IMMEDIATE_COUNT := 40
  const QUEUE_CAPACITY := 512

  /** What the mutex protects. */
  datatype State = State(queue: seq<Report>, recent: seq<Recent>, sequence: nat, packetCount: nat,
                         templatesLastSent: int, nextFlush: int, stopping: bool)

  /** One turn of the thread: leave, sleep, go round again, or unlock and send. */
  datatype Turn = Exit | Wait | Idle | Drop | Send(count: nat, size: nat, templates: bool)

  function Callsigns(reports: seq<Report>): (calls: seq<Text>)
    ensures |calls| == |reports| && forall i :: 0 <= i < |calls| ==> calls[i] == reports[i].call
  {
    seq(|reports|, i requires 0 <= i < |reports| => reports[i].call)
  }

  /** Position of a sender in the queue, or the queue's length. */
  function Find(queue: seq<Report>, call: Text): (i: nat)
    ensures i <= |queue| && (i < |queue| ==> queue[i].call == call)
    ensures forall j :: 0 <= j < i ==> queue[j].call != call
  {
    if queue == [] || queue[0].call == call then 0 else 1 + Find(queue[1..], call)
  }

  lemma FindStep(queue: seq<Report>, call: Text, i: nat)
    requires i < |queue|
    ensures Find(queue[i..], call) == if queue[i].call == call then 0 else 1 + Find(queue[i + 1..], call)
  {
    assert queue[i..][1..] == queue[i + 1..];
  }

  /** The queue after a report is offered, and whether it was taken care of. */
  function Enqueued(st: State, report: Report, now: int): (State, bool) {
    if !ValidReport(report) then (st, false)
    else if Suppressed(st.recent, report.call, now) then (st, true)
    else
      var i := Find(st.queue, report.call);
      if i < |st.queue| then
        (if report.snr > st.queue[i].snr then st.(queue := st.queue[i := report]) else st, true)
      else if |st.queue| >= QUEUE_CAPACITY || st.stopping then (st, false)
      else (st.(queue := st.queue + [report]), true)
  }

  predicate TemplatesDue(st: State, now: int) {
    st.packetCount < 3 || now - st.templatesLastSent >= TEMPLATE_SECONDS
  }

  function FlushAfter(now: int, observationId: nat): int {
    now + QUIET_SECONDS + observationId % 31
  }

  function Least(a: nat, b: nat): nat {
    if a < b then a else b
  }

  /** One turn taken with the queue locked. */
  function Turned(st: State, station: Station, observationId: nat, now: int): (State, Turn)
    requires ValidStation(station) && ValidReports(st.queue)
  {
    var n := |st.queue|;
    if st.stopping then (st, Exit)
    else if n < IMMEDIATE_COUNT && now < st.nextFlush then (st, Wait)
    else if n == 0 then (st.(nextFlush := FlushAfter(now, observationId)), Idle)
    else if now < 0 then (st.(queue := st.queue[1..]), Drop)
    else
      var count, due := Least(n, IMMEDIATE_COUNT), TemplatesDue(st, now);
      (st, Send(count, |Packet(station, st.queue[..count], st.sequence, observationId, now, due)|, due))
  }

  /** What the thread does with the queue when the send has ended. */
  function Ended(st: State, sent: bool, count: nat, templates: bool, observationId: nat, now: int): State
    requires count <= |st.queue| && |st.recent| == SLOTS
  {
    if !sent then st.(packetCount := 0, templatesLastSent := 0, nextFlush := now + RETRY_SECONDS)
    else State(st.queue[count..], MarkAll(st.recent, Callsigns(st.queue[..count]), now),
               (st.sequence + count) % 0x1_0000_0000, (st.packetCount + 1) % 0x1_0000_0000,
               if templates then now else st.templatesLastSent, FlushAfter(now, observationId), st.stopping)
  }

  lemma SentState(st: State, next: State, n: nat, templates: bool, observationId: nat, now: int)
    requires n <= |st.queue| && |st.recent| == SLOTS
    requires next.queue == st.queue[n..] && next.recent == MarkAll(st.recent, Callsigns(st.queue[..n]), now)
    requires next.sequence == (st.sequence + n) % 0x1_0000_0000 && next.packetCount == (st.packetCount + 1) % 0x1_0000_0000
    requires next.templatesLastSent == if templates then now else st.templatesLastSent
    requires next.nextFlush == FlushAfter(now, observationId) && next.stopping == st.stopping
    ensures next == Ended(st, true, n, templates, observationId, now)
  {
  }

  /** A turn sends as soon as forty reports wait, or fewer when the flush is due; it sleeps just when
      fewer wait and the flush is still to come. */
  lemma TurnSends(st: State, station: Station, observationId: nat, now: int)
    requires ValidStation(station) && ValidReports(st.queue)
    ensures var n, turn := |st.queue|, Turned(st, station, observationId, now).1;
      && (turn.Send? <==> !st.stopping && now >= 0 && (n >= 40 || (n > 0 && now >= st.nextFlush)))
      && (turn.Send? ==> turn.count == if n > 40 then 40 else n)
      && (turn.Send? ==> (turn.templates <==> st.packetCount < 3 || now - st.templatesLastSent >= 3600))
      && (turn.Wait? <==> !st.stopping && n < 40 && now < st.nextFlush)
  {
    hide Packet;
  }

  // ----- a packet of forty always fits

  lemma {:induction false} ReportsSize(rs: seq<Report>)
    requires ValidReports(rs)
    ensures |ReportsBytes(rs)| <= 27 * |rs|
    decreases rs
  {
    hide ReportBytes;
    if rs == [] {
    } else {
      ReportsSize(rs[1..]);
    }
  }

  /** Worst case 1276 of 1400 bytes. */
  lemma PacketFits(station: Station, rs: seq<Report>, sequence: nat, observationId: nat, now: int, templates: bool)
    requires ValidStation(station) && ValidReports(rs) && |rs| <= IMMEDIATE_COUNT
    ensures |Packet(station, rs, sequence, observationId, now, templates)| <= 1276
  {
    ReportsSize(rs);
    PacketParts(station, rs, sequence, observationId, now, templates);
    hide Packet, ReportsBytes;
    assert |StationBytes(station)| <= 84;
    assert AlignFour(4 + 84) == 88 && AlignFour(4 + 27 * 40) == 1084;
  }

  // ----- the reporter in place

  class Reporter {
    const station: Station
    const observationId: nat
    var queue: array<Report>
    var count: nat
    var recent: array<Recent>
    var sequence: nat
    var packetCount: nat
    var templatesLastSent: int
    var nextFlush: int
    var stopping: bool

    ghost predicate Valid()
      reads `queue, `count, `recent, queue
    {
      && ValidStation(station) && queue.Length == QUEUE_CAPACITY && recent.Length == SLOTS
      && count <= QUEUE_CAPACITY && ValidReports(queue[..count])
    }

    ghost function Current(): (st: State)
      requires count <= queue.Length
      reads this, queue, recent
    {
      State(queue[..count], recent[..], sequence, packetCount, templatesLastSent, nextFlush, stopping)
    }

    /** `psk_reporter_start`, once its arguments are accepted. */
    constructor (station: Station, observationId: nat, now: int)
      requires ValidStation(station)
      ensures Valid() && fresh(queue) && fresh(recent) && this.station == station && this.observationId == observationId
      ensures Current() == State([], seq(SLOTS, _ => Recent([], 0)), 0, 0, 0, FlushAfter(now, observationId), false)
    {
      this.station, this.observationId := station, observationId;
      queue := new Report[QUEUE_CAPACITY];
      count := 0;
      recent := new Recent[SLOTS](_ => Recent([], 0));
      sequence, packetCount, templatesLastSent := 0, 0, 0;
      nextFlush := FlushAfter(now, observationId);
      stopping := false;
    }

    /** The scan of the queue in `psk_reporter_enqueue`. */
    method FindQueued(call: Text) returns (index: nat)
      requires Valid()
      ensures index == Find(queue[..count], call)
    {
      ghost var waiting := queue[..count];
      assert waiting[0..] == waiting;
      index := 0;
      while index < count
        invariant index <= count && Find(waiting, call) == index + Find(waiting[index..], call)
      {
        FindStep(waiting, call, index);
        if queue[index].call == call {
          return;
        }
        index := index + 1;
      }
    }

    /** `psk_reporter_enqueue`; `now` was read before the lock was taken. */
    method Enqueue(report: Report, now: int) returns (ok: bool)
      requires Valid() && Typed(report)
      modifies this`count, queue
      ensures Valid() && (Current(), ok) == Enqueued(old(Current()), report, now)
    {
      if !ValidText(report.call, 12) || report.frequency == 0 || report.flowStart < 0 {
        return false;
      }
      for index := 0 to SLOTS
        invariant !Suppressed(recent[..index], report.call, now)
      {
        if recent[index].callsign == report.call && now - recent[index].sentAt < QUIET_SECONDS {
          assert recent[..][index] == recent[index];
          return true;
        }
        assert recent[..index + 1] == recent[..index] + [recent[index]];
      }
      assert recent[..SLOTS] == recent[..];
      var index := FindQueued(report.call);
      if index < count {
        if report.snr > queue[index].snr {
          queue[index] := report;
          assert queue[..count] == old(queue[..count])[index := report];
        }
        return true;
      }
      if count >= QUEUE_CAPACITY || stopping {
        return false;
      }
      queue[count] := report;
      count := count + 1;
      assert queue[..count] == old(queue[..count]) + [report];
      return true;
    }

    /** `mark_recent` over the front of the queue. */
    method MarkRecent(n: nat, sentAt: int)
      requires Valid() && n <= count
      modifies recent
      ensures Valid() && recent[..] == MarkAll(old(recent[..]), Callsigns(queue[..n]), sentAt)
    {
      for index := 0 to n
        invariant recent[..] == MarkAll(old(recent[..]), Callsigns(queue[..index]), sentAt)
      {
        var call := queue[index].call;
        ghost var was := recent[..];
        var slot := FindSlot(call);
        recent[slot] := Recent(call, sentAt);
        assert recent[..] == MarkOne(was, call, sentAt);
        assert Callsigns(queue[..index + 1]) == Callsigns(queue[..index]) + [call];
        assert Callsigns(queue[..index + 1])[..index] == Callsigns(queue[..index]);
      }
    }

    /** The inner scan of `mark_recent`. */
    method FindSlot(call: Text) returns (slot: nat)
      requires recent.Length == SLOTS
      ensures slot == Slot(recent[..], call)
    {
      slot := 0;
      var oldest := recent[0].sentAt;
      for index := 0 to SLOTS
        invariant slot <= index && slot < SLOTS && oldest == recent[slot].sentAt
        invariant FirstOldest(recent[..], slot, index)
        invariant Slot(recent[..], call) == SlotFrom(recent[..], call, index, slot)
      {
        if recent[index].callsign == call || recent[index].callsign == [] {
          slot := index;
          break;
        }
        if recent[index].sentAt < oldest {
          oldest := recent[index].sentAt;
          slot := index;
        }
      }
    }

    /** `packet_report_count`: how many of the queued reports go, and their packet. */
    method PacketReportCount(templates: bool, packet: array<Byte>, now: int) returns (n: nat, size: nat)
      requires Valid() && packet.Length == PACKET_CAPACITY
      modifies packet
      ensures n == if now >= 0 then Least(count, IMMEDIATE_COUNT) else 0
      ensures n > 0 ==> size <= 1276 && packet[..size] == Packet(station, queue[..n], sequence, observationId, now, templates)
    {
      hide Packet;
      n := if count < IMMEDIATE_COUNT then count else IMMEDIATE_COUNT;
      size := 0;
      while n > 0
        invariant n <= Least(count, IMMEDIATE_COUNT) && (now >= 0 ==> n == Least(count, IMMEDIATE_COUNT))
      {
        assert queue[..n] == queue[..count][..n];
        PacketFits(station, queue[..n], sequence, observationId, now, templates);
        var rc, bytes := BuildPacket(packet, PACKET_CAPACITY, station, queue[..n], sequence, observationId, now, templates);
        if rc == 0 {
          size := bytes;
          return;
        }
        n := n - 1;
      }
    }

    /** `memmove`: drop the first n reports. */
    method Remove(n: nat)
      requires Valid() && n <= count
      modifies this`count, queue
      ensures Valid() && queue[..count] == old(queue[..count])[n..]
    {
      forall i | 0 <= i < count - n {
        queue[i] := queue[i + n];
      }
      count := count - n;
      ghost var rest := old(queue[..count])[n..];
      assert |rest| == count && forall i :: 0 <= i < count ==> queue[i] == rest[i];
    }

    /** `reporter_thread`, from the top of its loop to the unlock before sending. */
    method TakeTurn(packet: array<Byte>, now: int) returns (turn: Turn)
      requires Valid() && packet.Length == PACKET_CAPACITY
      modifies this`count, this`nextFlush, queue, packet
      ensures Valid() && (Current(), turn) == Turned(old(Current()), station, observationId, now)
      ensures turn.Send? ==> turn.size <= 1276
      ensures turn.Send? ==>
        packet[..turn.size] == Packet(station, queue[..turn.count], sequence, observationId, now, turn.templates)
    {
      hide Packet;
      if stopping {
        return Exit;
      }
      if count < IMMEDIATE_COUNT && now < nextFlush {
        return Wait;
      }
      if count == 0 {
        nextFlush := now + QUIET_SECONDS + observationId % 31;
        return Idle;
      }
      var templates := packetCount < 3 || now - templatesLastSent >= TEMPLATE_SECONDS;
      var n, size := PacketReportCount(templates, packet, now);
      if n == 0 {
        Remove(1);
        return Drop;
      }
      assert queue[..n] == queue[..count][..n];
      turn := Send(n, size, templates);
    }

    /** The counters and the table after a packet of n reports went out. */
    method Record(n: nat, templates: bool, now: int)
      requires Valid() && n <= count
      modifies `sequence, `packetCount, `templatesLastSent, recent
      ensures Valid() && recent[..] == MarkAll(old(recent[..]), Callsigns(queue[..count][..n]), now)
      ensures sequence == (old(sequence) + n) % 0x1_0000_0000 && packetCount == (old(packetCount) + 1) % 0x1_0000_0000
      ensures templatesLastSent == if templates then now else old(templatesLastSent)
    {
      hide MarkAll, Callsigns;
      assert queue[..n] == queue[..count][..n];
      MarkRecent(n, now);
      sequence := (sequence + n) % 0x1_0000_0000;
      packetCount := (packetCount + 1) % 0x1_0000_0000;
      if templates {
        templatesLastSent := now;
      }
    }

    /** `reporter_thread`, from the lock after sending to the bottom of its loop. */
    method EndSend(sent: bool, n: nat, templates: bool, now: int)
      requires Valid() && n <= count
      modifies `count, `sequence, `packetCount, `templatesLastSent, `nextFlush, queue, recent
      ensures Valid() && Current() == Ended(old(Current()), sent, n, templates, observationId, now)
    {
      if !sent {
        packetCount, templatesLastSent, nextFlush := 0, 0, now + RETRY_SECONDS;
        return;
      }
      hide MarkAll, Callsigns, Ended;
      ghost var was := Current();
      ghost var front := was.queue[..n];
      Record(n, templates, now);
      Remove(n);
      nextFlush := now + QUIET_SECONDS + observationId % 31;
      SentState(was, Current(), n, templates, observationId, now);
    }

    /** `psk_reporter_stop`, up to joining the thread. */
    method Stop()
      requires Valid()
      modifies this`stopping
      ensures Valid() && Current() == old(Current()).(stopping := true)
    {
      stopping := true;
    }
  }
}
