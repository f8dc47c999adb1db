/** Whole runs of the reporter: decoders offering reports at any time, also while a packet is
    being sent with the queue unlocked. */
module ReporterRuns {
  import opened Options
  import opened Bits
  import opened Ipfix
  import opened PskPacket
  import opened RecentSenders
  import opened PskReporter

  datatype Setup = Setup(station: Station, observationId: nat)

  ghost predicate ValidSetup(setup: Setup) {
    ValidStation(setup.station) && setup.observationId < 0x1_0000_0000
  }

  /** A packet on its way, with the reports it was built from. */
  datatype Flight = Flight(reports: seq<Report>, templates: bool, began: int, sequence: nat, packet: seq<Byte>)

  /** A finished send: whether it succeeded, when, and the reports then taken off the queue. */
  datatype Attempt = Attempt(flight: Flight, sent: bool, ended: int, removed: seq<Report>)

  /** The state, what is in flight, the time, and the history: finished sends, and the senders
      taken into the queue in order. */
  datatype World = World(state: State, flight: Option<Flight>, clock: int, attempts: seq<Attempt>, taken: seq<Text>)

  datatype Event =
    | Offer(report: Report, seen: int, at: int)
    | Go(at: int)
    | Done(sent: bool, at: int)
    | Quit(at: int)

  function Start(setup: Setup, now: int): World {
    World(State([], seq(SLOTS, _ => Recent([], 0)), 0, 0, 0, FlushAfter(now, setup.observationId), false), None, now, [], [])
  }

  /** A reporter that was just created is where the runs start. */
  method Created(setup: Setup, now: int) returns (reporter: Reporter)
    requires ValidSetup(setup)
    ensures fresh(reporter) && reporter.Valid() && reporter.Current() == Start(setup, now).state
    ensures reporter.station == setup.station && reporter.observationId == setup.observationId
  {
    reporter := new Reporter(setup.station, setup.observationId, now);
  }

  /** The clock never goes back, and the one thread either sends or takes turns. */
  predicate Enabled(w: World, e: Event) {
    && w.clock <= e.at
    && match e
       case Offer(report, seen, at) => Typed(report) && seen <= at
       case Go(_) => w.flight.None?
       case Done(_, _) => w.flight.Some? && |w.flight.value.reports| <= |w.state.queue|
       case Quit(_) => true
  }

  /** An event that cannot happen now changes nothing. */
  ghost function Step(setup: Setup, w: World, e: Event): World
    requires ValidSetup(setup) && ValidReports(w.state.queue) && |w.state.recent| == SLOTS
  {
    if !Enabled(w, e) then w
    else match e
      case Offer(report, seen, at) =>
        var next := Enqueued(w.state, report, seen).0;
        w.(state := next, clock := at, taken := w.taken + Callsigns(next.queue[Least(|w.state.queue|, |next.queue|)..]))
      case Go(at) =>
        var (next, turn) := Turned(w.state, setup.station, setup.observationId, at);
        w.(state := next, clock := at, flight := if !turn.Send? then None else
             Some(Flight(w.state.queue[..turn.count], turn.templates, at, w.state.sequence,
                         Packet(setup.station, w.state.queue[..turn.count], w.state.sequence, setup.observationId, at, turn.templates))))
      case Done(sent, at) =>
        var n := |w.flight.value.reports|;
        World(Ended(w.state, sent, n, w.flight.value.templates, setup.observationId, at), None, at,
              w.attempts + [Attempt(w.flight.value, sent, at, if sent then w.state.queue[..n] else [])], w.taken)
      case Quit(at) =>
        w.(state := w.state.(stopping := true), clock := at)
  }

  /** The callsigns sent so far, in order. */
  ghost function Delivered(attempts: seq<Attempt>): seq<Text> {
    if attempts == [] then []
    else
      var n := |attempts| - 1;
      Delivered(attempts[..n]) + (if attempts[n].sent then Callsigns(attempts[n].flight.reports) else [])
  }

  ghost predicate Distinct(queue: seq<Report>) {
    forall i, j :: 0 <= i < j < |queue| ==> queue[i].call != queue[j].call
  }

  ghost predicate ValidFlight(setup: Setup, f: Flight, delivered: nat)
    requires ValidSetup(setup)
  {
    && 0 < |f.reports| <= IMMEDIATE_COUNT && ValidReports(f.reports) && 0 <= f.began
    && f.sequence == delivered % 0x1_0000_0000
    && f.packet == Packet(setup.station, f.reports, f.sequence, setup.observationId, f.began, f.templates)
  }

  ghost predicate ValidAttempt(setup: Setup, attempts: seq<Attempt>, k: nat)
    requires ValidSetup(setup) && k < |attempts|
  {
    && ValidFlight(setup, attempts[k].flight, |Delivered(attempts[..k])|)
    && attempts[k].flight.began <= attempts[k].ended
    && Callsigns(attempts[k].removed) == if attempts[k].sent then Callsigns(attempts[k].flight.reports) else []
  }

  ghost predicate ValidHistory(setup: Setup, attempts: seq<Attempt>, clock: int)
    requires ValidSetup(setup)
  {
    forall k :: 0 <= k < |attempts| ==> ValidAttempt(setup, attempts, k) && attempts[k].ended <= clock
  }

  ghost predicate ValidQueue(st: State) {
    ValidReports(st.queue) && |st.queue| <= QUEUE_CAPACITY && Distinct(st.queue) && |st.recent| == SLOTS
  }

  /** Every sender taken in has been sent, in order, or still waits; the sequence counts them. */
  ghost predicate Accounted(st: State, attempts: seq<Attempt>, taken: seq<Text>) {
    taken == Delivered(attempts) + Callsigns(st.queue) && st.sequence == |Delivered(attempts)| % 0x1_0000_0000
  }

  /** The packet in flight is for the senders at the front of the queue. */
  ghost predicate ValidInFlight(setup: Setup, w: World)
    requires ValidSetup(setup)
  {
    w.flight.Some? ==>
      var f := w.flight.value;
      && ValidFlight(setup, f, |Delivered(w.attempts)|) && f.began <= w.clock && |f.reports| <= |w.state.queue|
      && Callsigns(f.reports) == Callsigns(w.state.queue[..|f.reports|])
  }

  /** What every step keeps. */
  ghost predicate Good(setup: Setup, w: World)
    requires ValidSetup(setup)
  {
    && 0 <= w.clock && ValidQueue(w.state) && Accounted(w.state, w.attempts, w.taken)
    && ValidHistory(setup, w.attempts, w.clock) && ValidInFlight(setup, w)
  }

  ghost function After(setup: Setup, now: int, events: seq<Event>): (w: World)
    requires ValidSetup(setup) && now >= 0
    ensures Good(setup, w)
  {
    if events == [] then
      StartGood(setup, now);
      Start(setup, now)
    else
      var before := After(setup, now, events[..|events| - 1]);
      StepKeeps(setup, before, events[|events| - 1]);
      Step(setup, before, events[|events| - 1])
  }

  lemma StartGood(setup: Setup, now: int)
    requires ValidSetup(setup) && now >= 0
    ensures Good(setup, Start(setup, now))
  {
  }

  lemma StepKeeps(setup: Setup, w: World, e: Event)
    requires ValidSetup(setup) && Good(setup, w)
    ensures Good(setup, Step(setup, w, e))
  {
    if Enabled(w, e) {
      match e
      case Offer(report, seen, at) => { OfferKeeps(setup, w, report, seen, at); }
      case Go(at) => { GoKeeps(setup, w, at); }
      case Done(sent, at) => { DoneKeeps(setup, w, sent, at); }
      case Quit(at) => { }
    }
  }

  /** An offer leaves the senders already queued where they are, and adds at most one. */
  lemma EnqueuedKeeps(st: State, report: Report, now: int)
    requires ValidQueue(st) && Typed(report)
    ensures var next := Enqueued(st, report, now).0;
      && ValidQueue(next) && |st.queue| <= |next.queue| <= |st.queue| + 1 && next.sequence == st.sequence
      && next.packetCount == st.packetCount && next.templatesLastSent == st.templatesLastSent
      && forall i :: 0 <= i < |st.queue| ==> next.queue[i].call == st.queue[i].call
  {
    hide Suppressed;
  }

  lemma SamePrefix(queue: seq<Report>, next: seq<Report>, n: nat)
    requires n <= |queue| <= |next| && forall i :: 0 <= i < |queue| ==> next[i].call == queue[i].call
    ensures Callsigns(next[..n]) == Callsigns(queue[..n])
    ensures Callsigns(next) == Callsigns(queue) + Callsigns(next[|queue|..])
  {
  }

  lemma OfferKeeps(setup: Setup, w: World, report: Report, seen: int, at: int)
    requires ValidSetup(setup) && Good(setup, w) && Enabled(w, Offer(report, seen, at))
    ensures Good(setup, Step(setup, w, Offer(report, seen, at)))
  {
    EnqueuedKeeps(w.state, report, seen);
    HistoryLater(setup, w.attempts, w.clock, at);
    var queue, next := w.state.queue, Enqueued(w.state, report, seen).0;
    hide ValidHistory, ValidFlight, Enqueued, ValidQueue, Callsigns, Delivered;
    SamePrefix(queue, next.queue, |queue|);
    Regroup(Delivered(w.attempts), Callsigns(queue), Callsigns(next.queue[|queue|..]));
    if w.flight.Some? {
      SamePrefix(queue, next.queue, |w.flight.value.reports|);
    }
  }

  lemma GoKeeps(setup: Setup, w: World, at: int)
    requires ValidSetup(setup) && Good(setup, w) && Enabled(w, Go(at))
    ensures Good(setup, Step(setup, w, Go(at)))
  {
    hide ValidHistory, Packet;
    HistoryLater(setup, w.attempts, w.clock, at);
  }

  /** The history grows by one valid attempt. */
  lemma HistoryGrows(setup: Setup, attempts: seq<Attempt>, a: Attempt, clock: int)
    requires ValidSetup(setup) && ValidHistory(setup, attempts, clock) && clock <= a.ended
    requires ValidFlight(setup, a.flight, |Delivered(attempts)|) && a.flight.began <= a.ended
    requires Callsigns(a.removed) == if a.sent then Callsigns(a.flight.reports) else []
    ensures ValidHistory(setup, attempts + [a], a.ended)
    ensures Delivered(attempts + [a]) == Delivered(attempts) + Callsigns(a.removed)
  {
    hide ValidFlight;
    var next := attempts + [a];
    forall k | 0 <= k <= |attempts| ensures ValidAttempt(setup, next, k) && next[k].ended <= a.ended {
      assert next[..k] == attempts[..k];
      if k < |attempts| {
        assert ValidAttempt(setup, attempts, k);
      } else {
        assert next[..k] == attempts;
      }
    }
    assert next[..|attempts|] == attempts;
  }

  lemma QueueSplits(st: State, n: nat)
    requires n <= |st.queue| && ValidQueue(st)
    ensures Callsigns(st.queue) == Callsigns(st.queue[..n]) + Callsigns(st.queue[n..])
    ensures ValidQueue(st.(queue := st.queue[n..]))
  {
  }

  lemma Regroup(a: seq<Text>, b: seq<Text>, c: seq<Text>)
    ensures a + (b + c) == a + b + c
  {
  }

  lemma DoneAccounted(st: State, attempts: seq<Attempt>, taken: seq<Text>, a: Attempt, n: nat)
    requires Accounted(st, attempts, taken) && ValidQueue(st) && n <= |st.queue|
    requires Delivered(attempts + [a]) == Delivered(attempts) + Callsigns(st.queue[..n])
    ensures Accounted(st.(queue := st.queue[n..], sequence := (st.sequence + n) % 0x1_0000_0000), attempts + [a], taken)
  {
    QueueSplits(st, n);
    var d, front, back := Delivered(attempts), Callsigns(st.queue[..n]), Callsigns(st.queue[n..]);
    assert |front| == n;
    hide Delivered, ValidQueue, Callsigns;
    Regroup(d, front, back);
    SequenceAdds(|d|, n);
  }

  lemma HistoryLater(setup: Setup, attempts: seq<Attempt>, clock: int, later: int)
    requires ValidSetup(setup) && ValidHistory(setup, attempts, clock) && clock <= later
    ensures ValidHistory(setup, attempts, later)
  {
  }

  lemma DoneResult(setup: Setup, w: World, sent: bool, at: int, n: nat)
    requires ValidSetup(setup) && Good(setup, w) && Enabled(w, Done(sent, at))
    requires n == if sent then |w.flight.value.reports| else 0
    ensures n <= |w.state.queue| && ValidReports(w.state.queue) && |w.state.recent| == SLOTS
    ensures var next := Step(setup, w, Done(sent, at));
      && next.attempts == w.attempts + [Attempt(w.flight.value, sent, at, w.state.queue[..n])] && next.taken == w.taken
      && next.state.queue == w.state.queue[n..] && next.state.sequence == (w.state.sequence + n) % 0x1_0000_0000
      && |next.state.recent| == SLOTS && next.flight.None? && next.clock == at && 0 <= w.clock <= at
  {
    hide ValidHistory, ValidInFlight, MarkAll;
  }

  /** A valid queue stays valid from position n. */
  lemma QueueRest(st: State, n: nat, next: State)
    requires ValidQueue(st) && n <= |st.queue| && next.queue == st.queue[n..] && |next.recent| == SLOTS
    ensures ValidQueue(next)
  {
    QueueSplits(st, n);
  }

  lemma FlightParts(setup: Setup, w: World, sent: bool, n: nat)
    requires ValidSetup(setup) && Good(setup, w) && w.flight.Some? && n == if sent then |w.flight.value.reports| else 0
    ensures ValidFlight(setup, w.flight.value, |Delivered(w.attempts)|) && w.flight.value.began <= w.clock && n <= |w.state.queue|
    ensures Callsigns(w.state.queue[..n]) == if sent then Callsigns(w.flight.value.reports) else []
  {
    hide ValidHistory, ValidFlight, ValidQueue, Accounted;
  }

  lemma DoneKeeps(setup: Setup, w: World, sent: bool, at: int)
    requires ValidSetup(setup) && Good(setup, w) && Enabled(w, Done(sent, at))
    ensures Good(setup, Step(setup, w, Done(sent, at)))
  {
    hide ValidFlight, Delivered, ValidHistory, Accounted, Callsigns, Step, ValidQueue;
    var n := if sent then |w.flight.value.reports| else 0;
    DoneResult(setup, w, sent, at, n);
    FlightParts(setup, w, sent, n);
    var next := Step(setup, w, Done(sent, at));
    var a := Attempt(w.flight.value, sent, at, w.state.queue[..n]);
    HistoryGrows(setup, w.attempts, a, w.clock);
    QueueRest(w.state, n, next.state);
    DoneAccounted(w.state, w.attempts, w.taken, a, n);
    AccountedSame(w.state.(queue := w.state.queue[n..], sequence := (w.state.sequence + n) % 0x1_0000_0000), next.state, next.attempts, next.taken);
  }

  lemma AccountedSame(st: State, other: State, attempts: seq<Attempt>, taken: seq<Text>)
    requires Accounted(st, attempts, taken) && st.queue == other.queue && st.sequence == other.sequence
    ensures Accounted(other, attempts, taken)
  {
  }

  lemma SequenceAdds(delivered: nat, n: nat)
    ensures (delivered % 0x1_0000_0000 + n) % 0x1_0000_0000 == (delivered + n) % 0x1_0000_0000
  {
  }

  // ----- no sender reported twice within 300 seconds

  ghost function Marks(attempts: seq<Attempt>): set<Mark> {
    set k, i | 0 <= k < |attempts| && attempts[k].sent && 0 <= i < |attempts[k].flight.reports| ::
      Mark(attempts[k].flight.reports[i].call, attempts[k].ended)
  }

  /** None of these senders was sent in the 300 seconds before the time. */
  ghost predicate Quiet(reports: seq<Report>, marks: set<Mark>, time: int) {
    forall m, i :: m in marks && 0 <= i < |reports| && reports[i].call == m.call ==> time - m.at >= QUIET_SECONDS
  }

  ghost predicate Shares(a: Attempt, b: Attempt) {
    exists i, j :: 0 <= i < |a.flight.reports| && 0 <= j < |b.flight.reports| && a.flight.reports[i].call == b.flight.reports[j].call
  }

  /** Two packets that were sent and share a sender are 300 seconds apart. */
  ghost predicate Spaced(attempts: seq<Attempt>) {
    forall j, k :: 0 <= j < k < |attempts| && attempts[j].sent && attempts[k].sent && Shares(attempts[j], attempts[k]) ==>
      attempts[k].flight.began - attempts[j].ended >= QUIET_SECONDS
  }

  ghost predicate Suppressing(w: World) {
    var marks := Marks(w.attempts);
    && Faithful(w.state.recent, marks, w.clock) && Complete(w.state.recent, marks, w.clock)
    && Quiet(w.state.queue, marks, w.clock) && (w.flight.Some? ==> Quiet(w.flight.value.reports, marks, w.flight.value.began))
    && Spaced(w.attempts)
  }

  lemma FewerMarks(attempts: seq<Attempt>, a: Attempt)
    ensures Marks(attempts + [a]) == Marks(attempts) + (if a.sent then MarksOf(Callsigns(a.flight.reports), a.ended) else {})
    ensures Sparse(Marks(attempts + [a])) ==> Sparse(Marks(attempts))
  {
    var next := attempts + [a];
    assert next[..|attempts|] == attempts;
    forall m | m in Marks(attempts) ensures m in Marks(next) {
      var k, i :| 0 <= k < |attempts| && attempts[k].sent && 0 <= i < |attempts[k].flight.reports|
        && m == Mark(attempts[k].flight.reports[i].call, attempts[k].ended);
      assert next[k] == attempts[k];
    }
    if a.sent {
      forall m | m in MarksOf(Callsigns(a.flight.reports), a.ended) ensures m in Marks(next) {
        var i :| 0 <= i < |a.flight.reports| && m == Mark(Callsigns(a.flight.reports)[i], a.ended);
        assert next[|attempts|] == a;
      }
    }
    if Sparse(Marks(next)) {
      forall start ensures |Window(Marks(attempts), start)| <= SLOTS {
        Larger(Window(Marks(attempts), start), Window(Marks(next), start));
      }
    }
  }

  /** Senders in a packet were already quiet when it was started, so the new attempt is spaced. */
  lemma SpacedGrows(attempts: seq<Attempt>, a: Attempt)
    requires Spaced(attempts) && Quiet(a.flight.reports, Marks(attempts), a.flight.began)
    ensures Spaced(attempts + [a])
  {
    var next := attempts + [a];
    forall j, k | 0 <= j < k < |next| && next[j].sent && next[k].sent && Shares(next[j], next[k])
      ensures next[k].flight.began - next[j].ended >= QUIET_SECONDS
    {
      if k == |attempts| {
        var i, l :| 0 <= i < |next[j].flight.reports| && 0 <= l < |a.flight.reports|
          && next[j].flight.reports[i].call == a.flight.reports[l].call;
        assert attempts[j] == next[j];
        assert Mark(next[j].flight.reports[i].call, next[j].ended) in Marks(attempts);
      } else {
        assert attempts[j] == next[j] && attempts[k] == next[k];
      }
    }
  }

  lemma MarksPast(setup: Setup, w: World)
    requires ValidSetup(setup) && Good(setup, w)
    ensures forall m :: m in Marks(w.attempts) ==> m.at <= w.clock && m.call != []
  {
    forall m | m in Marks(w.attempts) ensures m.at <= w.clock && m.call != [] {
      var k, i :| 0 <= k < |w.attempts| && w.attempts[k].sent && 0 <= i < |w.attempts[k].flight.reports|
        && m == Mark(w.attempts[k].flight.reports[i].call, w.attempts[k].ended);
      assert ValidAttempt(setup, w.attempts, k);
    }
  }

  lemma OfferSuppresses(setup: Setup, w: World, report: Report, seen: int, at: int)
    requires ValidSetup(setup) && Good(setup, w) && Enabled(w, Offer(report, seen, at)) && Suppressing(w)
    ensures Suppressing(Step(setup, w, Offer(report, seen, at)))
  {
    hide ValidAttempt, ValidFlight, Good, Spaced, Marks;
    assert ValidReports(w.state.queue) && |w.state.recent| == SLOTS by { LengthsOf(setup, w); }
    var next := Step(setup, w, Offer(report, seen, at));
    var marks := Marks(w.attempts);
    assert next.attempts == w.attempts && next.state.recent == w.state.recent;
    forall m, i | m in marks && 0 <= i < |next.state.queue| && next.state.queue[i].call == m.call
      ensures at - m.at >= QUIET_SECONDS
    {
      if i < |w.state.queue| {
        assert w.state.queue[i].call == m.call;
      } else {
        assert !Suppressed(w.state.recent, m.call, seen);
        assert Complete(w.state.recent, marks, at);
        LetThrough(w.state.recent, marks, m, seen, at);
      }
    }
  }

  lemma LengthsOf(setup: Setup, w: World)
    requires ValidSetup(setup) && Good(setup, w)
    ensures ValidReports(w.state.queue) && |w.state.recent| == SLOTS
  {
  }

  lemma GoSuppresses(setup: Setup, w: World, at: int)
    requires ValidSetup(setup) && Good(setup, w) && Enabled(w, Go(at)) && Suppressing(w)
    ensures Suppressing(Step(setup, w, Go(at)))
  {
    hide ValidAttempt, ValidFlight, Spaced, Marks, Packet;
  }

  lemma QuietRest(queue: seq<Report>, n: nat, marks: set<Mark>, at: int)
    requires Distinct(queue) && n <= |queue| && Quiet(queue, marks, at)
    ensures Quiet(queue[n..], marks + MarksOf(Callsigns(queue[..n]), at), at)
  {
    var sent := MarksOf(Callsigns(queue[..n]), at);
    forall m, i | m in marks + sent && 0 <= i < |queue[n..]| && queue[n..][i].call == m.call
      ensures at - m.at >= QUIET_SECONDS
    {
      assert queue[n + i].call == m.call;
      assert forall j :: 0 <= j < n ==> Callsigns(queue[..n])[j] != queue[n + i].call;
      assert m in marks;
    }
  }

  lemma CallsMarked(reports: seq<Report>, at: int)
    requires ValidReports(reports)
    ensures forall i :: 0 <= i < |reports| ==> Callsigns(reports)[i] != [] && Mark(Callsigns(reports)[i], at) in MarksOf(Callsigns(reports), at)
  {
    forall i | 0 <= i < |reports| ensures Callsigns(reports)[i] != [] && Mark(Callsigns(reports)[i], at) in MarksOf(Callsigns(reports), at) {
      assert ValidReport(reports[i]);
    }
  }

  /** What a successful send does to the table and to the rest of the queue. */
  lemma SentSuppresses(queue: seq<Report>, n: nat, recent: seq<Recent>, marks: set<Mark>, at: int)
    requires ValidReports(queue) && Distinct(queue) && n <= |queue|
    requires Faithful(recent, marks, at) && Complete(recent, marks, at) && Quiet(queue, marks, at)
    requires forall m :: m in marks ==> m.at <= at && m.call != []
    requires Sparse(marks + MarksOf(Callsigns(queue[..n]), at))
    ensures var calls := Callsigns(queue[..n]);
      var after := marks + MarksOf(calls, at);
      |recent| == SLOTS && Faithful(MarkAll(recent, calls, at), after, at) && Complete(MarkAll(recent, calls, at), after, at)
      && Quiet(queue[n..], after, at)
  {
    var calls := Callsigns(queue[..n]);
    var after := marks + MarksOf(calls, at);
    QuietRest(queue, n, marks, at);
    CallsMarked(queue[..n], at);
    assert Faithful(recent, after, at) && |recent| == SLOTS;
    hide *;
    MarkAllKeeps(recent, after, marks, calls, at);
  }

  lemma DoneSuppresses(setup: Setup, w: World, sent: bool, at: int)
    requires ValidSetup(setup) && Good(setup, w) && Enabled(w, Done(sent, at)) && Suppressing(w)
    requires Sparse(Marks(Step(setup, w, Done(sent, at)).attempts))
    ensures Suppressing(Step(setup, w, Done(sent, at)))
  {
    MarksPast(setup, w);
    var f, queue := w.flight.value, w.state.queue;
    var n := |f.reports|;
    assert Callsigns(queue[..n]) == Callsigns(f.reports) && ValidReports(queue) && Distinct(queue);
    var next := Step(setup, w, Done(sent, at));
    hide Good, Packet, Spaced, MarkAll, Marks, Distinct, ValidReports, Sparse, Enabled;
    FewerMarks(w.attempts, next.attempts[|w.attempts|]);
    SpacedGrows(w.attempts, next.attempts[|w.attempts|]);
    var marks, after := Marks(w.attempts), Marks(next.attempts);
    LaterStill(w, at);
    if sent {
      SentSuppresses(queue, n, w.state.recent, marks, at);
    } else {
      assert after == marks;
    }
  }

  lemma LaterStill(w: World, at: int)
    requires Suppressing(w) && w.clock <= at
    ensures Faithful(w.state.recent, Marks(w.attempts), at) && Complete(w.state.recent, Marks(w.attempts), at)
    ensures Quiet(w.state.queue, Marks(w.attempts), at)
  {
    hide Marks, Spaced;
  }

  /** Over every run with a clock that never goes back and no window of less than 300 seconds
      with more than 256 callsigns in it, packets that share a sender are 300 seconds apart. */
  lemma {:induction false} NoRepeats(setup: Setup, now: int, events: seq<Event>)
    requires ValidSetup(setup) && now >= 0 && Sparse(Marks(After(setup, now, events).attempts))
    ensures Suppressing(After(setup, now, events)) && Spaced(After(setup, now, events).attempts)
  {
    if events == [] {
    } else {
      var n := |events| - 1;
      var before, e := After(setup, now, events[..n]), events[n];
      StepFewer(setup, before, e);
      NoRepeats(setup, now, events[..n]);
      StepSuppresses(setup, before, e);
    }
  }

  lemma StepFewer(setup: Setup, w: World, e: Event)
    requires ValidSetup(setup) && Good(setup, w) && Sparse(Marks(Step(setup, w, e).attempts))
    ensures Sparse(Marks(w.attempts))
  {
    if Enabled(w, e) && e.Done? {
      FewerMarks(w.attempts, Step(setup, w, e).attempts[|w.attempts|]);
    }
  }

  lemma StepSuppresses(setup: Setup, w: World, e: Event)
    requires ValidSetup(setup) && Good(setup, w) && Suppressing(w) && Sparse(Marks(Step(setup, w, e).attempts))
    ensures Suppressing(Step(setup, w, e))
  {
    if Enabled(w, e) {
      hide Marks, Sparse, Spaced, ValidAttempt, ValidFlight;
      match e
      case Offer(report, seen, at) => { OfferSuppresses(setup, w, report, seen, at); }
      case Go(at) => { GoSuppresses(setup, w, at); }
      case Done(sent, at) => { DoneSuppresses(setup, w, sent, at); }
      case Quit(at) => { }
    }
  }

  // ----- every packet can be read

  /** An IPFIX reader gets back the header, with the number of reports sent before as sequence,
      and the reports in order; the packet takes at most 1276 bytes. */
  lemma EveryPacketReads(setup: Setup, now: int, events: seq<Event>, k: nat)
    requires ValidSetup(setup) && now >= 0 && k < |After(setup, now, events).attempts|
    ensures var a := After(setup, now, events).attempts;
      var f := a[k].flight;
      && ValidReports(f.reports) && MinLength(SENDER_LAYOUT) > 0 && |f.packet| <= 1276
      && ReadMessage(f.packet) == Some((Header(f.began % 0x1_0000_0000, |Delivered(a[..k])| % 0x1_0000_0000, setup.observationId),
                                        PacketSets(setup.station, f.reports, f.templates)))
      && ReadRecords(SENDER_LAYOUT, SetOf(SENDER_ID, ReportsBytes(f.reports)).body) == Some(AllFields(f.reports))
  {
    var a := After(setup, now, events).attempts;
    var f := a[k].flight;
    assert ValidAttempt(setup, a, k);
    hide Packet, ReadMessage, ReadRecords, PacketSets, Delivered;
    PacketFits(setup.station, f.reports, f.sequence, setup.observationId, f.began, f.templates);
    PacketRead(setup.station, f.reports, f.sequence, setup.observationId, f.began, f.templates);
    ReportsRead(f.reports, Padding(|ReportsBytes(f.reports)|));
  }

  // ----- templates reach the collector

  /** A packet with templates went out at the time, and no send failed since. */
  ghost predicate TaughtAt(attempts: seq<Attempt>, time: int) {
    exists j :: 0 <= j < |attempts| && attempts[j].flight.templates && attempts[j].ended == time
      && forall i :: j <= i < |attempts| ==> attempts[i].sent
  }

  /** A packet with templates went out in the hour before the time, and no send failed since. */
  ghost predicate InForce(attempts: seq<Attempt>, time: int) {
    exists taught: int :: TaughtAt(attempts, taught) && time - taught < TEMPLATE_SECONDS
  }

  /** Each packet without templates was started while some were in force. */
  ghost predicate AlwaysInForce(attempts: seq<Attempt>) {
    forall k :: 0 <= k < |attempts| && !attempts[k].flight.templates ==> InForce(attempts[..k], attempts[k].flight.began)
  }

  ghost predicate TemplatesKept(w: World) {
    && AlwaysInForce(w.attempts)
    && (w.state.packetCount > 0 ==> TaughtAt(w.attempts, w.state.templatesLastSent))
    && (w.flight.Some? && !w.flight.value.templates ==> w.state.packetCount > 0 && InForce(w.attempts, w.flight.value.began))
  }

  lemma TaughtGrows(attempts: seq<Attempt>, a: Attempt, time: int)
    requires a.sent && if a.flight.templates then time == a.ended else TaughtAt(attempts, time)
    ensures TaughtAt(attempts + [a], time)
  {
    var next, n := attempts + [a], |attempts|;
    assert next[n] == a && forall i :: 0 <= i < n ==> next[i] == attempts[i];
    if !a.flight.templates {
      var j :| 0 <= j < n && attempts[j].flight.templates && attempts[j].ended == time && forall i :: j <= i < n ==> attempts[i].sent;
      assert next[j].flight.templates;
    }
  }

  lemma InForceGrows(attempts: seq<Attempt>, a: Attempt)
    requires AlwaysInForce(attempts) && (!a.flight.templates ==> InForce(attempts, a.flight.began))
    ensures AlwaysInForce(attempts + [a])
  {
    hide InForce;
    var next, n := attempts + [a], |attempts|;
    forall k | 0 <= k < |next| && !next[k].flight.templates ensures InForce(next[..k], next[k].flight.began) {
      assert next[..k] == attempts[..k];
      assert k == n ==> next[..k] == attempts;
    }
  }

  lemma TemplatesOnGo(setup: Setup, w: World, at: int)
    requires ValidSetup(setup) && Good(setup, w) && Enabled(w, Go(at)) && TemplatesKept(w)
    ensures TemplatesKept(Step(setup, w, Go(at)))
  {
    hide ValidHistory, Packet, Accounted, ValidInFlight, TaughtAt, AlwaysInForce;
  }

  lemma TemplatesOnDone(setup: Setup, w: World, sent: bool, at: int)
    requires ValidSetup(setup) && Good(setup, w) && Enabled(w, Done(sent, at)) && TemplatesKept(w)
    ensures TemplatesKept(Step(setup, w, Done(sent, at)))
  {
    hide InForce, TaughtAt, AlwaysInForce, Packet, ValidHistory, Accounted, MarkAll;
    var next := Step(setup, w, Done(sent, at));
    var a := next.attempts[|w.attempts|];
    InForceGrows(w.attempts, a);
    if next.state.packetCount > 0 {
      TaughtGrows(w.attempts, a, next.state.templatesLastSent);
    }
  }

  lemma TemplatesOnStep(setup: Setup, w: World, e: Event)
    requires ValidSetup(setup) && Good(setup, w) && TemplatesKept(w)
    ensures TemplatesKept(Step(setup, w, e))
  {
    if Enabled(w, e) {
      hide Packet, InForce, AlwaysInForce, TaughtAt, ValidHistory, Accounted, ValidInFlight, ValidQueue, Enqueued, Turned, Ended;
      match e
      case Offer(report, seen, at) => { EnqueuedKeeps(w.state, report, seen); }
      case Go(at) => { TemplatesOnGo(setup, w, at); }
      case Done(sent, at) => { TemplatesOnDone(setup, w, sent, at); }
      case Quit(_) => { }
    }
  }

  /** A packet without templates is only sent while a collector that got every packet since the
      last failure holds templates less than an hour old. */
  lemma {:induction false} TemplatesInForce(setup: Setup, now: int, events: seq<Event>)
    requires ValidSetup(setup) && now >= 0
    ensures TemplatesKept(After(setup, now, events))
  {
    if events == [] {
    } else {
      var n := |events| - 1;
      TemplatesInForce(setup, now, events[..n]);
      hide Step, TemplatesKept, Good;
      TemplatesOnStep(setup, After(setup, now, events[..n]), events[n]);
    }
  }

  // ----- what the send does not cover

  /** The report would take the place of one in the packet on its way. */
  ghost predicate Improves(st: State, report: Report, now: int, n: nat)
    requires n <= |st.queue|
  {
    && ValidReport(report) && !Suppressed(st.recent, report.call, now)
    && exists i :: 0 <= i < n && st.queue[i].call == report.call && report.snr > st.queue[i].snr
  }

  /** While a packet is on its way, the front of the queue stays what it was built from exactly
      as long as no offer improves one of its reports: such an improvement is later removed
      with the rest, though it was never in a packet. */
  lemma FrontKeptIffNotImproved(st: State, report: Report, now: int, n: nat)
    requires ValidQueue(st) && n <= |st.queue| && Typed(report)
    ensures n <= |Enqueued(st, report, now).0.queue|
    ensures Enqueued(st, report, now).0.queue[..n] == st.queue[..n] <==> !Improves(st, report, now, n)
  {
    hide Suppressed;
    var next := Enqueued(st, report, now).0;
    var i := Find(st.queue, report.call);
    if Improves(st, report, now, n) {
      var k :| 0 <= k < n && st.queue[k].call == report.call && report.snr > st.queue[k].snr;
      assert k == i;
      assert next.queue[..n][i] == report;
    }
  }

  /** The reports at the front, compared with those in flight: the same senders, none weaker. */
  ghost predicate Raised(reports: seq<Report>, front: seq<Report>) {
    |front| == |reports| && forall i :: 0 <= i < |front| ==> front[i].call == reports[i].call && front[i].snr >= reports[i].snr
  }

  /** An offer only raises the front, and a front once raised never becomes the packet again. */
  lemma OfferRaises(st: State, report: Report, now: int, n: nat, reports: seq<Report>)
    requires ValidQueue(st) && n <= |st.queue| && Typed(report) && Raised(reports, st.queue[..n])
    ensures n <= |Enqueued(st, report, now).0.queue| && Raised(reports, Enqueued(st, report, now).0.queue[..n])
    ensures Enqueued(st, report, now).0.queue[..n] == reports <==> st.queue[..n] == reports && !Improves(st, report, now, n)
  {
    hide Suppressed;
    FrontKeptIffNotImproved(st, report, now, n);
    var next := Enqueued(st, report, now).0;
    if Improves(st, report, now, n) {
      var k :| 0 <= k < n && st.queue[k].call == report.call && report.snr > st.queue[k].snr;
      assert Find(st.queue, report.call) == k;
      assert next.queue[..n][k] == report && st.queue[..n][k].snr >= reports[k].snr;
    }
  }

  /** The event is an offer that improves a report of the packet now on its way. */
  ghost predicate ImprovesFlight(w: World, e: Event) {
    && Enabled(w, e) && e.Offer? && w.flight.Some? && |w.flight.value.reports| <= |w.state.queue|
    && Improves(w.state, e.report, e.seen, |w.flight.value.reports|)
  }

  /** Event j improves a report of attempt a while that is on its way. */
  ghost predicate ImprovedAt(setup: Setup, now: int, events: seq<Event>, a: nat, j: nat)
    requires ValidSetup(setup) && now >= 0 && j < |events|
  {
    var w := After(setup, now, events[..j]);
    |w.attempts| == a && ImprovesFlight(w, events[j])
  }

  /** Some offer made while attempt a was on its way improved one of its reports. */
  ghost predicate ImprovedDuring(setup: Setup, now: int, events: seq<Event>, a: nat)
    requires ValidSetup(setup) && now >= 0
  {
    exists j :: 0 <= j < |events| && ImprovedAt(setup, now, events, a, j)
  }

  lemma ImprovedEarlier(setup: Setup, now: int, events: seq<Event>, a: nat, j: nat)
    requires ValidSetup(setup) && now >= 0 && j < |events| - 1
    ensures ImprovedAt(setup, now, events[..|events| - 1], a, j) == ImprovedAt(setup, now, events, a, j)
  {
    hide After, ImprovesFlight;
    assert events[..|events| - 1][..j] == events[..j];
  }

  lemma ImprovedStep(setup: Setup, now: int, events: seq<Event>, a: nat)
    requires ValidSetup(setup) && now >= 0 && events != []
    ensures ImprovedDuring(setup, now, events, a) ==
      (ImprovedDuring(setup, now, events[..|events| - 1], a) || ImprovedAt(setup, now, events, a, |events| - 1))
  {
    hide ImprovedAt;
    forall j | 0 <= j < |events| - 1
      ensures ImprovedAt(setup, now, events[..|events| - 1], a, j) == ImprovedAt(setup, now, events, a, j)
    {
      ImprovedEarlier(setup, now, events, a, j);
    }
    if ImprovedDuring(setup, now, events, a) {
      var j :| 0 <= j < |events| && ImprovedAt(setup, now, events, a, j);
      assert j < |events| - 1 ==> ImprovedAt(setup, now, events[..|events| - 1], a, j);
    }
    if ImprovedDuring(setup, now, events[..|events| - 1], a) {
      var j :| 0 <= j < |events| - 1 && ImprovedAt(setup, now, events[..|events| - 1], a, j);
      assert ImprovedAt(setup, now, events, a, j);
    }
  }

  /** Finished and current sends in view of which attempts have been improved so far. */
  ghost predicate LossesTracked(w: World, improved: iset<nat>) {
    && (forall a :: 0 <= a < |w.attempts| && w.attempts[a].sent ==>
          (w.attempts[a].removed == w.attempts[a].flight.reports <==> a !in improved))
    && (forall a :: a in improved ==> a < |w.attempts| || (a == |w.attempts| && w.flight.Some?))
    && (w.flight.Some? ==>
          var f := w.flight.value.reports;
          && |f| <= |w.state.queue| && Raised(f, w.state.queue[..|f|])
          && (w.state.queue[..|f|] == f <==> |w.attempts| !in improved))
  }

  lemma LossesOnOffer(setup: Setup, w: World, e: Event, improved: iset<nat>)
    requires ValidSetup(setup) && Good(setup, w) && LossesTracked(w, improved) && Enabled(w, e) && e.Offer?
    ensures LossesTracked(Step(setup, w, e), if ImprovesFlight(w, e) then improved + iset{|w.attempts|} else improved)
  {
    hide Packet, Enqueued, Improves, ValidHistory, Accounted, ValidInFlight, Raised;
    if w.flight.Some? {
      OfferRaises(w.state, e.report, e.seen, |w.flight.value.reports|, w.flight.value.reports);
    }
  }

  lemma LossesOnDone(setup: Setup, w: World, sent: bool, at: int, improved: iset<nat>)
    requires ValidSetup(setup) && Good(setup, w) && LossesTracked(w, improved) && Enabled(w, Done(sent, at))
    ensures LossesTracked(Step(setup, w, Done(sent, at)), improved)
  {
    var n := if sent then |w.flight.value.reports| else 0;
    DoneResult(setup, w, sent, at, n);
    hide Step, Good, Raised, ValidReports;
  }

  lemma LossesOnStep(setup: Setup, w: World, e: Event, improved: iset<nat>)
    requires ValidSetup(setup) && Good(setup, w) && LossesTracked(w, improved)
    ensures LossesTracked(Step(setup, w, e), if ImprovesFlight(w, e) then improved + iset{|w.attempts|} else improved)
  {
    if Enabled(w, e) {
      hide Packet, Enqueued, Turned, Ended, Improves, Good, Raised, ValidReports, LossesTracked;
      match e
      case Offer(_, _, _) => { LossesOnOffer(setup, w, e, improved); }
      case Go(at) => { LossesOnGo(setup, w, at, improved); }
      case Done(sent, at) => { LossesOnDone(setup, w, sent, at, improved); }
      case Quit(at) => { LossesOnQuit(setup, w, at, improved); }
    }
  }

  lemma LossesOnQuit(setup: Setup, w: World, at: int, improved: iset<nat>)
    requires ValidSetup(setup) && Good(setup, w) && LossesTracked(w, improved)
    ensures LossesTracked(Step(setup, w, Quit(at)), improved)
  {
    hide Good, Raised, ValidReports;
    LengthsOf(setup, w);
  }

  lemma LossesOnGo(setup: Setup, w: World, at: int, improved: iset<nat>)
    requires ValidSetup(setup) && Good(setup, w) && LossesTracked(w, improved) && Enabled(w, Go(at))
    ensures LossesTracked(Step(setup, w, Go(at)), improved)
  {
    LengthsOf(setup, w);
    GoRaises(setup, w, at);
    hide Good, Raised, ValidReports, Step;
  }

  lemma GoRaises(setup: Setup, w: World, at: int)
    requires ValidSetup(setup) && Good(setup, w) && Enabled(w, Go(at))
    ensures var next := Step(setup, w, Go(at));
      next.attempts == w.attempts
      && (next.flight.Some? ==>
            var f := next.flight.value.reports;
            |f| <= |next.state.queue| && next.state.queue[..|f|] == f && Raised(f, next.state.queue[..|f|]))
  {
    hide Packet, ValidHistory, Accounted, ValidInFlight;
  }

  ghost function ImprovedAttempts(setup: Setup, now: int, events: seq<Event>): iset<nat>
    requires ValidSetup(setup) && now >= 0
  {
    iset a: nat | ImprovedDuring(setup, now, events, a)
  }

  lemma {:induction false} LossesOverRun(setup: Setup, now: int, events: seq<Event>)
    requires ValidSetup(setup) && now >= 0
    ensures LossesTracked(After(setup, now, events), ImprovedAttempts(setup, now, events))
  {
    hide Good, Step, LossesTracked, ImprovedDuring, ImprovesFlight;
    if events == [] {
      NoLossesYet(setup, now);
    } else {
      var n := |events| - 1;
      var before := After(setup, now, events[..n]);
      var earlier := ImprovedAttempts(setup, now, events[..n]);
      LossesOverRun(setup, now, events[..n]);
      LossesOnStep(setup, before, events[n], earlier);
      forall a: nat
        ensures a in ImprovedAttempts(setup, now, events) <==> a in earlier || ImprovedAt(setup, now, events, a, n)
      {
        ImprovedStep(setup, now, events, a);
      }
      assert ImprovedAttempts(setup, now, events)
        == if ImprovesFlight(before, events[n]) then earlier + iset{|before.attempts|} else earlier;
    }
  }

  lemma NoLossesYet(setup: Setup, now: int)
    requires ValidSetup(setup) && now >= 0
    ensures LossesTracked(After(setup, now, []), ImprovedAttempts(setup, now, []))
  {
  }

  /** Over every run: a successful send takes off the queue exactly the reports of its packet if
      and only if no offer made while it was on its way improved one of them. */
  lemma SentIsRemovedIffNotImproved(setup: Setup, now: int, events: seq<Event>, a: nat)
    requires ValidSetup(setup) && now >= 0
    requires a < |After(setup, now, events).attempts| && After(setup, now, events).attempts[a].sent
    ensures var attempt := After(setup, now, events).attempts[a];
      attempt.removed == attempt.flight.reports <==> !ImprovedDuring(setup, now, events, a)
  {
    hide After, ImprovedDuring;
    LossesOverRun(setup, now, events);
  }

  lemma AfterSnoc(setup: Setup, now: int, events: seq<Event>, e: Event)
    requires ValidSetup(setup) && now >= 0
    ensures After(setup, now, events + [e]) == Step(setup, After(setup, now, events), e)
  {
    assert (events + [e])[..|events|] == events;
  }

  /** A report offered to the empty, fresh reporter is the queue. */
  lemma FirstOffer(setup: Setup, now: int, weak: Report)
    requires ValidSetup(setup) && now >= 0 && ValidReport(weak)
    ensures var w := Step(setup, Start(setup, now), Offer(weak, now, now));
      w == Start(setup, now).(state := Start(setup, now).state.(queue := [weak]), taken := w.taken)
  {
    assert !Suppressed(Start(setup, now).state.recent, weak.call, now);
  }

  /** It goes out alone when the flush is due. */
  lemma SingleGoes(setup: Setup, w: World, at: int)
    requires ValidSetup(setup) && Good(setup, w) && Enabled(w, Go(at))
    requires |w.state.queue| == 1 && !w.state.stopping && at >= w.state.nextFlush
    ensures var next := Step(setup, w, Go(at));
      next.state == w.state && next.flight.Some? && next.flight.value.reports == w.state.queue && next.attempts == w.attempts && next.clock == at
  {
    hide Packet, ValidHistory, Accounted, ValidInFlight;
    assert w.state.queue[..1] == w.state.queue;
  }

  lemma OnlyReport(st: State, report: Report, now: int)
    requires |st.queue| == 1 && st.queue[0].call == report.call && st.queue[0].snr < report.snr && ValidReport(report)
    requires !Suppressed(st.recent, report.call, now)
    ensures Enqueued(st, report, now).0 == st.(queue := [report])
  {
    assert st.queue[0 := report] == [report];
    assert Find(st.queue, report.call) == 0;
  }

  lemma SingleReplaced(setup: Setup, w: World, report: Report, at: int)
    requires ValidSetup(setup) && Good(setup, w) && Enabled(w, Offer(report, at, at)) && ValidReport(report)
    requires |w.state.queue| == 1 && w.state.queue[0].call == report.call && w.state.queue[0].snr < report.snr
    requires !Suppressed(w.state.recent, report.call, at)
    ensures var next := Step(setup, w, Offer(report, at, at));
      next.state == w.state.(queue := [report]) && next.flight == w.flight && next.attempts == w.attempts && next.clock == at
  {
    hide ValidHistory, Accounted, ValidInFlight, Suppressed, Enqueued;
    OnlyReport(w.state, report, at);
  }

  lemma SingleDone(setup: Setup, w: World, at: int)
    requires ValidSetup(setup) && Good(setup, w) && Enabled(w, Done(true, at))
    requires |w.state.queue| == 1 && |w.flight.value.reports| == 1
    ensures var next := Step(setup, w, Done(true, at));
      next.state.queue == [] && next.attempts == w.attempts + [Attempt(w.flight.value, true, at, w.state.queue)]
  {
    hide ValidHistory, Accounted, ValidInFlight, MarkAll;
    assert w.state.queue[..1] == w.state.queue;
  }

  /** One run in which that happens: the stronger report is taken, never sent, and gone. */
  lemma ImprovementLost(setup: Setup, now: int, weak: Report, strong: Report)
    requires ValidSetup(setup) && now >= 0 && ValidReport(weak) && ValidReport(strong)
    requires weak.call == strong.call && weak.snr < strong.snr
    ensures var due := FlushAfter(now, setup.observationId);
      var w := After(setup, now, [Offer(weak, now, now)] + [Go(due)] + [Offer(strong, due, due)] + [Done(true, due)]);
      && w.state.queue == [] && |w.attempts| == 1 && w.attempts[0].flight.reports == [weak] && w.attempts[0].removed == [strong]
  {
    var due := FlushAfter(now, setup.observationId);
    var e0, e1, e2, e3 := Offer(weak, now, now), Go(due), Offer(strong, due, due), Done(true, due);
    FourSteps(setup, now, e0, e1, e2, e3);
    FirstOffer(setup, now, weak);
    var w0 := Start(setup, now);
    assert !Suppressed(w0.state.recent, strong.call, due) && ValidQueue(w0.state) && w0.clock == now && w0.state.nextFlush == due;
    hide After, Step, Good, Suppressed, Start, ValidQueue, FlushAfter;
    var w1 := Step(setup, w0, e0);
    SingleGoes(setup, w1, due);
    var w2 := Step(setup, w1, e1);
    SingleReplaced(setup, w2, strong, due);
    var w3 := Step(setup, w2, e2);
    SingleDone(setup, w3, due);
  }

  lemma FourSteps(setup: Setup, now: int, e0: Event, e1: Event, e2: Event, e3: Event)
    requires ValidSetup(setup) && now >= 0
    ensures Good(setup, Start(setup, now)) && Good(setup, Step(setup, Start(setup, now), e0))
    ensures Good(setup, Step(setup, Step(setup, Start(setup, now), e0), e1))
    ensures Good(setup, Step(setup, Step(setup, Step(setup, Start(setup, now), e0), e1), e2))
    ensures After(setup, now, [e0] + [e1] + [e2] + [e3])
      == Step(setup, Step(setup, Step(setup, Step(setup, Start(setup, now), e0), e1), e2), e3)
  {
    var none: seq<Event> := [];
    assert none + [e0] == [e0];
    StartGood(setup, now);
    hide Step, Good;
    assert After(setup, now, none) == Start(setup, now);
    AfterSnoc(setup, now, none, e0);
    AfterSnoc(setup, now, [e0], e1);
    AfterSnoc(setup, now, [e0] + [e1], e2);
    AfterSnoc(setup, now, [e0] + [e1] + [e2], e3);
  }
}
