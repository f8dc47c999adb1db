/** The table of recently reported senders: 256 slots, the oldest one reused when all are taken. */
module RecentSenders {
  import opened PskPacket

  datatype Recent = Recent(callsign: Text, sentAt: int)

  /** A callsign in a packet that was sent, and when. */
  datatype Mark = Mark(call: Text, at: int)

  const SLOTS := 256
  const QUIET_SECONDS := 300

  predicate Fits(r: Recent, call: Text) {
    r.callsign == call || r.callsign == []
  }

  /** Slot s is the first of the oldest among the first n. */
  predicate FirstOldest(recent: seq<Recent>, s: nat, n: nat)
    requires s < |recent| && n <= |recent|
  {
    && (forall j :: 0 <= j < n ==> recent[s].sentAt <= recent[j].sentAt)
    && (forall j :: 0 <= j < s ==> recent[s].sentAt < recent[j].sentAt)
  }

  /** Scan from slot i, with the first oldest slot seen so far. */
  function SlotFrom(recent: seq<Recent>, call: Text, i: nat, best: nat): (s: nat)
    requires best <= i <= |recent| && best < |recent| && FirstOldest(recent, best, i)
    ensures s < |recent| && (s >= i || s == best)
    ensures (Fits(recent[s], call) && s >= i && forall j :: i <= j < s ==> !Fits(recent[j], call))
      || (forall j :: i <= j < |recent| ==> !Fits(recent[j], call))
    ensures (forall j :: i <= j < |recent| ==> !Fits(recent[j], call)) ==> FirstOldest(recent, s, |recent|)
    decreases |recent| - i
  {
    if i == |recent| then best
    else if Fits(recent[i], call) then i
    else SlotFrom(recent, call, i + 1, if recent[i].sentAt < recent[best].sentAt then i else best)
  }

  /** The slot for a callsign: the first one holding it or empty, else the first oldest. */
  function Slot(recent: seq<Recent>, call: Text): (s: nat)
    requires |recent| > 0
    ensures s < |recent|
    ensures (Fits(recent[s], call) && forall j :: 0 <= j < s ==> !Fits(recent[j], call))
      || ((forall j :: 0 <= j < |recent| ==> !Fits(recent[j], call)) && FirstOldest(recent, s, |recent|))
  {
    SlotFrom(recent, call, 0, 0)
  }

  function MarkOne(recent: seq<Recent>, call: Text, now: int): (r: seq<Recent>)
    requires |recent| > 0
    ensures |r| == |recent|
  {
    recent[Slot(recent, call) := Recent(call, now)]
  }

  /** Every callsign of a packet, in order. */
  function MarkAll(recent: seq<Recent>, calls: seq<Text>, now: int): (r: seq<Recent>)
    requires |recent| > 0
    ensures |r| == |recent|
  {
    if calls == [] then recent
    else MarkOne(MarkAll(recent, calls[..|calls| - 1], now), calls[|calls| - 1], now)
  }

  /** A report of this sender is dropped as a duplicate. */
  predicate Suppressed(recent: seq<Recent>, call: Text, now: int) {
    exists i :: 0 <= i < |recent| && recent[i].callsign == call && now - recent[i].sentAt < QUIET_SECONDS
  }

  // ----- what the table knows

  /** The callsigns sent in [start, start + 300). */
  ghost function Window(marks: set<Mark>, start: int): set<Text> {
    set m | m in marks && start <= m.at < start + QUIET_SECONDS :: m.call
  }

  /** No window shorter than 300 seconds holds more callsigns than the table has slots. */
  ghost predicate Sparse(marks: set<Mark>) {
    forall start :: |Window(marks, start)| <= SLOTS
  }

  /** Taken slots come first, hold different callsigns, and were sent as they say. */
  ghost predicate Faithful(recent: seq<Recent>, marks: set<Mark>, now: int) {
    && |recent| == SLOTS
    && (forall i, j :: 0 <= i < j < |recent| && recent[j].callsign != [] ==> recent[i].callsign != [])
    && (forall i, j :: 0 <= i < j < |recent| && recent[j].callsign != [] ==> recent[i].callsign != recent[j].callsign)
    && (forall i :: 0 <= i < |recent| && recent[i].callsign != [] ==>
          Mark(recent[i].callsign, recent[i].sentAt) in marks && recent[i].sentAt <= now)
  }

  ghost predicate Known(recent: seq<Recent>, m: Mark) {
    exists i :: 0 <= i < |recent| && recent[i].callsign == m.call && recent[i].sentAt >= m.at
  }

  /** Nothing sent in the last 300 seconds has been forgotten. */
  ghost predicate Complete(recent: seq<Recent>, marks: set<Mark>, now: int) {
    forall m :: m in marks && now - m.at < QUIET_SECONDS ==> Known(recent, m)
  }

  ghost function Calls(recent: seq<Recent>): set<Text> {
    set i | 0 <= i < |recent| :: recent[i].callsign
  }

  lemma {:induction false} DistinctCalls(recent: seq<Recent>)
    requires forall i, j :: 0 <= i < j < |recent| ==> recent[i].callsign != recent[j].callsign
    ensures |Calls(recent)| == |recent|
  {
    if recent == [] {
    } else {
      var n := |recent| - 1;
      var front := recent[..n];
      DistinctCalls(front);
      assert Calls(recent) == Calls(front) + {recent[n].callsign};
      assert recent[n].callsign !in Calls(front);
    }
  }

  lemma Larger(a: set<Text>, b: set<Text>)
    requires a <= b
    ensures |a| <= |b|
  {
    assert b == a + (b - a);
  }

  /** A full table of slots no older than start cannot meet a new callsign within the window. */
  lemma FullTable(recent: seq<Recent>, marks: set<Mark>, now: int, call: Text, start: int)
    requires Faithful(recent, marks, now) && Sparse(marks) && Mark(call, now) in marks
    requires forall j :: 0 <= j < |recent| ==> !Fits(recent[j], call) && start <= recent[j].sentAt
    ensures now - start >= QUIET_SECONDS
  {
    if now - start < QUIET_SECONDS {
      DistinctCalls(recent);
      var all := Calls(recent) + {call};
      assert |all| == SLOTS + 1;
      forall c | c in all ensures c in Window(marks, start) {
        if c == call {
          assert Mark(call, now) in marks && start <= recent[0].sentAt <= now;
        } else {
          var i :| 0 <= i < |recent| && recent[i].callsign == c;
          assert Mark(c, recent[i].sentAt) in marks;
        }
      }
      Larger(all, Window(marks, start));
      assert false;
    }
  }

  /** Recording one sender keeps the table faithful and complete. */
  lemma MarkOneKeeps(recent: seq<Recent>, marks: set<Mark>, done: set<Mark>, call: Text, now: int)
    requires Faithful(recent, marks, now) && Sparse(marks) && call != [] && Mark(call, now) in marks
    requires Complete(recent, done, now) && forall m :: m in done ==> m.at <= now && m.call != []
    ensures Faithful(MarkOne(recent, call, now), marks, now)
    ensures Complete(MarkOne(recent, call, now), done + {Mark(call, now)}, now)
  {
    var s := Slot(recent, call);
    var r := MarkOne(recent, call, now);
    forall m | m in done + {Mark(call, now)} && now - m.at < QUIET_SECONDS ensures Known(r, m) {
      if m == Mark(call, now) {
        assert r[s].callsign == m.call;
      } else {
        var i :| 0 <= i < |recent| && recent[i].callsign == m.call && recent[i].sentAt >= m.at;
        if i == s {
          if !Fits(recent[s], call) {
            FullTable(recent, marks, now, call, recent[s].sentAt);
          } else {
            assert r[s].callsign == m.call && r[s].sentAt >= m.at;
          }
        } else {
          assert r[i] == recent[i];
        }
      }
    }
  }

  ghost function MarksOf(calls: seq<Text>, now: int): set<Mark> {
    set i | 0 <= i < |calls| :: Mark(calls[i], now)
  }

  lemma MarksOfSnoc(calls: seq<Text>, now: int)
    requires calls != []
    ensures var n := |calls| - 1;
      MarksOf(calls, now) == MarksOf(calls[..n], now) + {Mark(calls[n], now)}
  {
    var n := |calls| - 1;
    forall m | m in MarksOf(calls, now) ensures m in MarksOf(calls[..n], now) + {Mark(calls[n], now)} {
      var i :| 0 <= i < |calls| && m == Mark(calls[i], now);
      if i < n {
        assert calls[..n][i] == calls[i];
      }
    }
  }

  lemma MarksOfPast(calls: seq<Text>, now: int)
    requires forall i :: 0 <= i < |calls| ==> calls[i] != []
    ensures forall m :: m in MarksOf(calls, now) ==> m.at <= now && m.call != []
  {
  }

  /** Recording a packet's senders keeps the table faithful, and complete for all sent so far. */
  lemma {:induction false} MarkAllKeeps(recent: seq<Recent>, marks: set<Mark>, done: set<Mark>, calls: seq<Text>, now: int)
    requires Faithful(recent, marks, now) && Sparse(marks)
    requires forall i :: 0 <= i < |calls| ==> calls[i] != [] && Mark(calls[i], now) in marks
    requires Complete(recent, done, now) && forall m :: m in done ==> m.at <= now && m.call != []
    ensures Faithful(MarkAll(recent, calls, now), marks, now)
    ensures Complete(MarkAll(recent, calls, now), done + MarksOf(calls, now), now)
  {
    assert |recent| == SLOTS;
    if calls == [] {
      hide Faithful, Complete, Sparse, MarkOne;
      assert done + MarksOf(calls, now) == done;
    } else {
      var n := |calls| - 1;
      var front, last := calls[..n], calls[n];
      hide Faithful, Complete, Sparse, MarkOne, MarksOf;
      MarkAllKeeps(recent, marks, done, front, now);
      MarksOfPast(front, now);
      MarkOneKeeps(MarkAll(recent, front, now), marks, done + MarksOf(front, now), last, now);
      MarksOfSnoc(calls, now);
      assert done + (MarksOf(front, now) + {Mark(last, now)}) == done + MarksOf(front, now) + {Mark(last, now)};
    }
  }

  /** A report let through proves that its sender was last sent at least 300 seconds ago, even
      when the clock was read before the table was locked. */
  lemma LetThrough(recent: seq<Recent>, marks: set<Mark>, m: Mark, seen: int, now: int)
    requires Complete(recent, marks, now) && m in marks && seen <= now && !Suppressed(recent, m.call, seen)
    ensures now - m.at >= QUIET_SECONDS
  {
  }
}
