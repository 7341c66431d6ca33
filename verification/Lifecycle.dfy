/** The per-(host, vector) incident machine (detect/state.go, Step) and what it does over whole runs of one key. */
module Lifecycle {
  import opened Options
  import opened Words
  import opened Net
  import opened Thresholds

  const COOLDOWN_AFTER_END: int := 60 * SECOND
  const UPDATE_AFTER_DURATION: int := 300 * SECOND

  datatype Key = Key(hostIP: Addr, vector: Vector)

  type Id = nat

  datatype Input = Input(
    now: int, currentPps: U64, currentBps: U64, avgPps: U64, avgBps: U64,
    violating: bool, durationViolated: int, hostgroup: string, confidence: real)

  datatype State = Started | Updated | Ended | OtherState(name: string)

  datatype AttackEvent = AttackEvent(
    incidentID: Id, state: State, hostIP: Addr, vector: Vector, hostgroup: string,
    pps: U64, bps: U64, peakPps: U64, peakBps: U64, confidence: real,
    startedAt: int, endedAt: Option<int>, now: int)

  datatype Incident = Incident(
    id: Id, startedAt: int, initialPeakPps: U64, initialPeakBps: U64,
    peakPps: U64, peakBps: U64, updateEmitted: bool, noViolationTicks: nat)

  datatype Entry = Idle | Active(inc: Incident) | Cooldown(until: int)

  function GraceTicks(t: Threshold): int {
    if t.graceSec <= 0 then 60 else t.graceSec
  }

  function EventOf(k: Key, inc: Incident, state: State, input: Input): AttackEvent {
    AttackEvent(inc.id, state, k.hostIP, k.vector, input.hostgroup, input.currentPps, input.currentBps,
                inc.peakPps, inc.peakBps, input.confidence, inc.startedAt,
                if state.Ended? then Some(input.now) else None, input.now)
  }

  /** Whether the single update of an incident is due at a violating step. */
  predicate UpdateDue(inc: Incident, now: int) {
    || now - inc.startedAt >= UPDATE_AFTER_DURATION
    || inc.peakPps > Twice(inc.initialPeakPps)
    || inc.peakBps > Twice(inc.initialPeakBps)
  }

  /** One step of the machine of key `k`; `newId` is the ULID a new incident would get. */
  function Step(e: Entry, k: Key, input: Input, t: Threshold, newId: Id): (Entry, Option<AttackEvent>) {
    match e
    case Idle =>
      if !input.violating || input.durationViolated < t.minWindowSec then (Idle, None)
      else
        var (pps, bps) := (input.currentPps, input.currentBps);
        var inc := Incident(newId, input.now, pps, bps, pps, bps, false, 0);
        (Active(inc), Some(EventOf(k, inc, Started, input)))
    case Active(inc0) =>
      var inc := inc0.(peakPps := Max(inc0.peakPps, input.currentPps), peakBps := Max(inc0.peakBps, input.currentBps));
      if !input.violating then
        if inc.noViolationTicks + 1 >= GraceTicks(t) then
          (Cooldown(input.now + COOLDOWN_AFTER_END), Some(EventOf(k, inc, Ended, input)))
        else (Active(inc.(noViolationTicks := inc.noViolationTicks + 1)), None)
      else if !inc.updateEmitted && UpdateDue(inc, input.now) then
        (Active(inc.(noViolationTicks := 0, updateEmitted := true)), Some(EventOf(k, inc, Updated, input)))
      else (Active(inc.(noViolationTicks := 0)), None)
    case Cooldown(until) =>
      (if input.now > until then Idle else e, None)
  }

  // ---- Runs of one key -------------------------------------------------------------------------

  /** One call of Step for the key. */
  datatype Obs = Obs(input: Input, t: Threshold, newId: Id)

  /** The machine after the first `n` steps. */
  function After(k: Key, run: seq<Obs>, n: nat): Entry
    requires n <= |run|
  {
    if n == 0 then Idle else Step(After(k, run, n - 1), k, run[n - 1].input, run[n - 1].t, run[n - 1].newId).0
  }

  /** What step `i` emits. */
  function EventAt(k: Key, run: seq<Obs>, i: nat): Option<AttackEvent>
    requires i < |run|
  {
    Step(After(k, run, i), k, run[i].input, run[i].t, run[i].newId).1
  }

  function Emitted(k: Key, run: seq<Obs>, n: nat): seq<AttackEvent>
    requires n <= |run|
  {
    if n == 0 then []
    else
      var ev := EventAt(k, run, n - 1);
      Emitted(k, run, n - 1) + if ev.Some? then [ev.value] else []
  }

  predicate Emits(k: Key, run: seq<Obs>, i: nat, state: State)
    requires i < |run|
  {
    EventAt(k, run, i).Some? && EventAt(k, run, i).value.state == state
  }

  // ---- What the machine's fields mean, in terms of the inputs alone ----------------------------

  /** The greatest current rate over steps `s` to `i`. */
  function PeakPps(run: seq<Obs>, s: nat, i: nat): U64
    requires s <= i < |run|
    decreases i
  {
    if i == s then run[s].input.currentPps else Max(PeakPps(run, s, i - 1), run[i].input.currentPps)
  }

  function PeakBps(run: seq<Obs>, s: nat, i: nat): U64
    requires s <= i < |run|
    decreases i
  {
    if i == s then run[s].input.currentBps else Max(PeakBps(run, s, i - 1), run[i].input.currentBps)
  }

  /** How many steps up to `i` and after `s` have been non-violating without interruption. */
  function Quiet(run: seq<Obs>, s: nat, i: nat): nat
    requires s <= i < |run|
    decreases i
  {
    if i == s || run[i].input.violating then 0 else 1 + Quiet(run, s, i - 1)
  }

  /** Step `i` violates and, since the start `s`, five minutes have passed or a rate has more than doubled. */
  predicate Escalates(run: seq<Obs>, s: nat, i: nat)
    requires s <= i < |run|
  {
    && run[i].input.violating
    && (|| run[i].input.now - run[s].input.now >= 5 * 60 * SECOND
        || PeakPps(run, s, i) > Twice(run[s].input.currentPps)
        || PeakBps(run, s, i) > Twice(run[s].input.currentBps))
  }

  predicate EscalatedBefore(run: seq<Obs>, s: nat, i: nat)
    requires s <= i <= |run|
  {
    exists j :: s < j < i && Escalates(run, s, j)
  }

  /** The last step below `n` that emitted Started. */
  function OpenedAt(k: Key, run: seq<Obs>, n: nat): (s: nat)
    requires n <= |run|
    ensures n > 0 ==> s < n
  {
    if n <= 1 then 0 else if Emits(k, run, n - 1, Started) then n - 1 else OpenedAt(k, run, n - 1)
  }

  /** The peaks really are the maxima of the current rates since the start. */
  lemma {:induction false} PeaksAreMaxima(run: seq<Obs>, s: nat, i: nat)
    requires s <= i < |run|
    ensures forall j :: s <= j <= i ==> run[j].input.currentPps <= PeakPps(run, s, i)
    ensures forall j :: s <= j <= i ==> run[j].input.currentBps <= PeakBps(run, s, i)
    ensures exists j :: s <= j <= i && run[j].input.currentPps == PeakPps(run, s, i)
    ensures exists j :: s <= j <= i && run[j].input.currentBps == PeakBps(run, s, i)
    decreases i
  {
    if i > s {
      PeaksAreMaxima(run, s, i - 1);
      var p :| s <= p < i && run[p].input.currentPps == PeakPps(run, s, i - 1);
      var b :| s <= b < i && run[b].input.currentBps == PeakBps(run, s, i - 1);
      var p', b' := if PeakPps(run, s, i) == run[p].input.currentPps then p else i,
                    if PeakBps(run, s, i) == run[b].input.currentBps then b else i;
      assert s <= p' <= i && run[p'].input.currentPps == PeakPps(run, s, i);
      assert s <= b' <= i && run[b'].input.currentBps == PeakBps(run, s, i);
    } else {
      assert run[s].input.currentPps == PeakPps(run, s, i) && run[s].input.currentBps == PeakBps(run, s, i);
    }
  }

  /** `Quiet` is the length of the trailing non-violating stretch. */
  lemma {:induction false} QuietIsTrailing(run: seq<Obs>, s: nat, i: nat)
    requires s <= i < |run|
    ensures var q := Quiet(run, s, i);
            && q <= i - s
            && (forall j :: i - q < j <= i ==> !run[j].input.violating)
            && (q < i - s ==> run[i - q].input.violating)
    decreases i
  {
    if i != s && !run[i].input.violating {
      QuietIsTrailing(run, s, i - 1);
    }
  }

  /** Every field of an active incident, read off the inputs since its start. */
  ghost predicate Explained(k: Key, run: seq<Obs>, n: nat, inc: Incident)
    requires 0 < n <= |run|
  {
    var s := OpenedAt(k, run, n);
    && Emits(k, run, s, Started)
    && inc.id == run[s].newId && inc.startedAt == run[s].input.now
    && inc.initialPeakPps == run[s].input.currentPps && inc.initialPeakBps == run[s].input.currentBps
    && inc.peakPps == PeakPps(run, s, n - 1) && inc.peakBps == PeakBps(run, s, n - 1)
    && inc.noViolationTicks == Quiet(run, s, n - 1)
    && (inc.updateEmitted <==> EscalatedBefore(run, s, n))
  }

  lemma {:induction false} ActiveIsExplained(k: Key, run: seq<Obs>, n: nat)
    requires n <= |run| && After(k, run, n).Active?
    ensures n > 0 && Explained(k, run, n, After(k, run, n).inc)
    decreases n
  {
    hide Max, Twice;
    if After(k, run, n - 1).Active? {
      ActiveIsExplained(k, run, n - 1);
      var s := OpenedAt(k, run, n - 1);
      assert OpenedAt(k, run, n) == s;
      assert EscalatedBefore(run, s, n) <==> EscalatedBefore(run, s, n - 1) || Escalates(run, s, n - 1);
    } else {
      assert OpenedAt(k, run, n) == n - 1;
      assert !EscalatedBefore(run, n - 1, n);
    }
  }

  // ---- Every event of every run ----------------------------------------------------------------

  /** The last step below `n` that emitted anything, -1 if there is none. */
  function LastEventAt(k: Key, run: seq<Obs>, n: nat): (e: int)
    requires n <= |run|
    ensures -1 <= e < n && (e >= 0 ==> EventAt(k, run, e).Some?)
    ensures forall j :: e < j < n ==> EventAt(k, run, j).None?
  {
    if n == 0 then -1 else if EventAt(k, run, n - 1).Some? then n - 1 else LastEventAt(k, run, n - 1)
  }

  /** The last event before step `n` was not the end of an incident. */
  predicate Ongoing(k: Key, run: seq<Obs>, n: nat)
    requires n <= |run|
  {
    var e := LastEventAt(k, run, n);
    e >= 0 && !Emits(k, run, e, Ended)
  }

  /** Nothing was emitted before step `n`, or the last event was an end and some step since came over 60 s later. */
  predicate Rested(k: Key, run: seq<Obs>, n: nat)
    requires n <= |run|
  {
    var e := LastEventAt(k, run, n);
    e == -1 || (Emits(k, run, e, Ended) && exists j :: e < j < n && run[j].input.now > run[e].input.now + 60 * SECOND)
  }

  /** The machine's state follows from what it has emitted and when. */
  lemma {:induction false} StateFollowsEvents(k: Key, run: seq<Obs>, n: nat)
    requires n <= |run|
    ensures After(k, run, n).Active? <==> Ongoing(k, run, n)
    ensures After(k, run, n).Idle? <==> Rested(k, run, n)
    ensures After(k, run, n).Cooldown? ==>
              var e := LastEventAt(k, run, n);
              e >= 0 && After(k, run, n).until == run[e].input.now + 60 * SECOND
    decreases n
  {
    hide Max, UpdateDue, GraceTicks;
    if n > 0 {
      StateFollowsEvents(k, run, n - 1);
    }
  }

  /** Exactly when a step starts an incident, in terms of events and inputs alone, and what it then reports. */
  lemma StartedExactly(k: Key, run: seq<Obs>, i: nat)
    requires i < |run|
    ensures var x := run[i].input;
            Emits(k, run, i, Started) <==>
              Rested(k, run, i) && x.violating && x.durationViolated >= run[i].t.minWindowSec
    ensures Emits(k, run, i, Started) ==>
              var (ev, x) := (EventAt(k, run, i).value, run[i].input);
              && ev.incidentID == run[i].newId && ev.startedAt == x.now && ev.now == x.now && ev.endedAt == None
              && ev.pps == ev.peakPps == x.currentPps && ev.bps == ev.peakBps == x.currentBps
              && ev.hostIP == k.hostIP && ev.vector == k.vector
              && ev.hostgroup == x.hostgroup && ev.confidence == x.confidence
  {
    StateFollowsEvents(k, run, i);
  }

  /** The event of step `i` belongs to the incident started at step `s`, with its identity and its peaks so far. */
  predicate Reports(ev: AttackEvent, k: Key, run: seq<Obs>, s: nat, i: nat)
    requires s <= i < |run|
  {
    && ev.incidentID == run[s].newId && ev.startedAt == run[s].input.now
    && ev.hostIP == k.hostIP && ev.vector == k.vector && ev.now == run[i].input.now
    && ev.pps == run[i].input.currentPps && ev.bps == run[i].input.currentBps
    && ev.peakPps == PeakPps(run, s, i) && ev.peakBps == PeakBps(run, s, i)
    && ev.hostgroup == run[i].input.hostgroup && ev.confidence == run[i].input.confidence
    && ev.endedAt == if ev.state.Ended? then Some(run[i].input.now) else None
  }

  /** The single update fires at exactly the first escalation since the start. */
  lemma UpdatedExactly(k: Key, run: seq<Obs>, i: nat)
    requires i < |run|
    ensures var s := OpenedAt(k, run, i);
            Emits(k, run, i, Updated) <==>
              Ongoing(k, run, i) && Escalates(run, s, i) && !EscalatedBefore(run, s, i)
    ensures Emits(k, run, i, Updated) ==> Reports(EventAt(k, run, i).value, k, run, OpenedAt(k, run, i), i)
  {
    hide Max, Twice;
    StateFollowsEvents(k, run, i);
    if After(k, run, i).Active? {
      ActiveIsExplained(k, run, i);
    }
  }

  /** The incident ends when the quiet stretch reaches the grace of the step's threshold. */
  lemma EndedExactly(k: Key, run: seq<Obs>, i: nat)
    requires i < |run|
    ensures var s := OpenedAt(k, run, i);
            Emits(k, run, i, Ended) <==>
              && Ongoing(k, run, i) && !run[i].input.violating
              && Quiet(run, s, i) >= if run[i].t.graceSec > 0 then run[i].t.graceSec else 60
    ensures Emits(k, run, i, Ended) ==> Reports(EventAt(k, run, i).value, k, run, OpenedAt(k, run, i), i)
  {
    hide Max, Twice, UpdateDue;
    StateFollowsEvents(k, run, i);
    if After(k, run, i).Active? {
      ActiveIsExplained(k, run, i);
    }
  }

  predicate FixedThreshold(run: seq<Obs>, t: Threshold) {
    forall i :: 0 <= i < |run| ==> run[i].t == t
  }

  lemma {:induction false} QuietBelowGrace(k: Key, run: seq<Obs>, n: nat, t: Threshold)
    requires FixedThreshold(run, t) && n <= |run| && After(k, run, n).Active?
    ensures After(k, run, n).inc.noViolationTicks < GraceTicks(t)
    decreases n
  {
    hide Max, UpdateDue;
    if After(k, run, n - 1).Active? {
      QuietBelowGrace(k, run, n - 1, t);
    }
  }

  /** With a fixed threshold, an incident ends at exactly the graceTicks-th consecutive non-violating step. */
  lemma EndsAtExactlyGrace(k: Key, run: seq<Obs>, i: nat, t: Threshold)
    requires FixedThreshold(run, t) && i < |run|
    ensures Emits(k, run, i, Ended) <==>
              && Ongoing(k, run, i)
              && Quiet(run, OpenedAt(k, run, i), i) == if t.graceSec > 0 then t.graceSec else 60
  {
    EndedExactly(k, run, i);
    StateFollowsEvents(k, run, i);
    if After(k, run, i).Active? {
      QuietBelowGrace(k, run, i, t);
      ActiveIsExplained(k, run, i);
    }
  }

  /** Comparing with `2*initial` on uint64 says whether the peak has more than doubled. */
  predicate SeesDoubling(initial: U64, peak: U64) {
    peak > Twice(initial) <==> peak > 2 * initial
  }

  /** It does so for every later peak exactly while the double does not wrap. */
  lemma DoublingIsExact(initial: U64)
    ensures (forall peak: U64 | peak >= initial :: SeesDoubling(initial, peak)) <==> initial < TWO_63
  {
    assert initial >= TWO_63 ==> !SeesDoubling(initial, initial);
  }

  /** Escalation with the doubles of the initial rates computed exactly. */
  predicate TrulyEscalates(run: seq<Obs>, s: nat, i: nat)
    requires s <= i < |run|
  {
    && run[i].input.violating
    && (|| run[i].input.now - run[s].input.now >= 5 * 60 * SECOND
        || PeakPps(run, s, i) > 2 * run[s].input.currentPps
        || PeakBps(run, s, i) > 2 * run[s].input.currentBps)
  }

  /** The doubles of the rates at the start do not wrap. */
  predicate StartFits(start: Input) {
    start.currentPps < TWO_63 && start.currentBps < TWO_63
  }

  /** If the doubles of the rates at the start fit, escalation is exact; if not, every violating step escalates. */
  lemma EscalationAsStarted(run: seq<Obs>, s: nat, i: nat)
    requires s <= i < |run|
    ensures if StartFits(run[s].input) then Escalates(run, s, i) <==> TrulyEscalates(run, s, i)
            else Escalates(run, s, i) <==> run[i].input.violating
  {
    PeaksAreMaxima(run, s, i);
    hide PeakPps, PeakBps;
  }

  ghost predicate EscalationIsExact(start: Obs) {
    forall run, s: nat, i: nat | s <= i < |run| && run[s] == start ::
      Escalates(run, s, i) <==> TrulyEscalates(run, s, i)
  }

  /** On all runs from a given start escalation is exact if and only if the doubles of the start's rates fit. */
  lemma EscalationIsExactIfStartFits(start: Obs)
    ensures EscalationIsExact(start) <==> StartFits(start.input)
  {
    if StartFits(start.input) {
      forall run, s: nat, i: nat | s <= i < |run| && run[s] == start
        ensures Escalates(run, s, i) <==> TrulyEscalates(run, s, i)
      {
        EscalationAsStarted(run, s, i);
      }
    } else {
      var next := start.(input := start.input.(violating := true));
      var run := [start, next];
      EscalationAsStarted(run, 0, 1);
      assert PeakPps(run, 0, 1) == start.input.currentPps && PeakBps(run, 0, 1) == start.input.currentBps;
      assert !TrulyEscalates(run, 0, 1);
    }
  }

  /** The update in exact arithmetic. If the doubles of the start's rates fit, it fires at exactly the first violating
      step after the start at which five minutes have passed or a rate has truly more than doubled; if not, at exactly
      the first violating step after the start. */
  lemma UpdatedWhenDoubled(k: Key, run: seq<Obs>, i: nat)
    requires i < |run|
    ensures var s := OpenedAt(k, run, i);
            Emits(k, run, i, Updated) <==>
              && Ongoing(k, run, i)
              && if StartFits(run[s].input) then
                   TrulyEscalates(run, s, i) && forall j :: s < j < i ==> !TrulyEscalates(run, s, j)
                 else
                   run[i].input.violating && forall j :: s < j < i ==> !run[j].input.violating
  {
    UpdatedExactly(k, run, i);
    var s := OpenedAt(k, run, i);
    forall j | s <= j <= i
      ensures if StartFits(run[s].input) then Escalates(run, s, j) <==> TrulyEscalates(run, s, j)
              else Escalates(run, s, j) <==> run[j].input.violating
    {
      EscalationAsStarted(run, s, j);
    }
    hide Emits, After, Escalates, TrulyEscalates, OpenedAt;
  }

  /** A start at 2^63 packets: the very next violating step, at the same rate and the same time, emits the update. */
  lemma HugeStartUpdatesAtOnce(k: Key, o: Obs, run: seq<Obs>)
    requires o.input.violating && o.input.durationViolated >= o.t.minWindowSec
    requires o.input.currentPps == TWO_63 && o.input.currentBps == 0
    requires run == [o, o]
    ensures Emits(k, run, 0, Started) && Emits(k, run, 1, Updated) && !TrulyEscalates(run, 0, 1)
  {
    assert After(k, run, 1).Active?;
    assert PeakPps(run, 0, 1) == TWO_63 && PeakBps(run, 0, 1) == 0;
  }

  // ---- The shape of the event stream -----------------------------------------------------------

  /** (started updated? ended)*, each started more than the cooldown after the previous ended. */
  ghost predicate Complete(evs: seq<AttackEvent>)
    decreases |evs|, 0
  {
    evs == [] ||
    (var (before, ev) := (evs[..|evs| - 1], evs[|evs| - 1]);
     ev.state.Ended? && ev.endedAt == Some(ev.now) && Open(before, ev.incidentID, ev.startedAt))
  }

  /** A complete stream followed by the unfinished incident `id`: started updated? */
  ghost predicate Open(evs: seq<AttackEvent>, id: Id, startedAt: int)
    decreases |evs|, 2
  {
    || JustStarted(evs, id, startedAt)
    || (evs != [] &&
        var (before, ev) := (evs[..|evs| - 1], evs[|evs| - 1]);
        ev.state.Updated? && ev.incidentID == id && ev.startedAt == startedAt && JustStarted(before, id, startedAt))
  }

  ghost predicate JustStarted(evs: seq<AttackEvent>, id: Id, startedAt: int)
    decreases |evs|, 1
  {
    evs != [] &&
    var (before, ev) := (evs[..|evs| - 1], evs[|evs| - 1]);
    && ev.state.Started? && ev.incidentID == id && ev.startedAt == startedAt == ev.now
    && Complete(before)
    && (before != [] ==> startedAt > before[|before| - 1].now + 60 * SECOND)
  }

  predicate Monotone(run: seq<Obs>) {
    forall i, j :: 0 <= i < j < |run| ==> run[i].input.now <= run[j].input.now
  }

  /** How the machine's state relates to the events it has emitted. */
  ghost predicate Consistent(e: Entry, evs: seq<AttackEvent>, now: int) {
    match e
    case Active(inc) =>
      if inc.updateEmitted then
        evs != [] && evs[|evs| - 1].state.Updated? && Open(evs, inc.id, inc.startedAt)
      else JustStarted(evs, inc.id, inc.startedAt)
    case Cooldown(until) => Complete(evs) && evs != [] && until == evs[|evs| - 1].now + 60 * SECOND
    case Idle => Complete(evs) && (evs != [] ==> now > evs[|evs| - 1].now + 60 * SECOND)
  }

  /** One step keeps the stream in shape. */
  lemma StepKeepsShape(e: Entry, evs: seq<AttackEvent>, k: Key, o: Obs, now: int)
    requires Consistent(e, evs, now) && (evs != [] ==> now <= o.input.now)
    ensures var (e', ev) := Step(e, k, o.input, o.t, o.newId);
            Consistent(e', if ev.Some? then evs + [ev.value] else evs, o.input.now)
  {
    hide Max, UpdateDue, GraceTicks;
    var (e', ev) := Step(e, k, o.input, o.t, o.newId);
    if ev.Some? {
      assert (evs + [ev.value])[..|evs|] == evs;
      match e
      case Active(inc) =>
        assert Open(evs, inc.id, inc.startedAt);
      case Idle =>
        assert JustStarted(evs + [ev.value], o.newId, o.input.now);
      case Cooldown(_) =>
    }
  }

  /** Every run of a key with non-decreasing time emits (started updated? ended)* and possibly an unfinished tail. */
  lemma {:induction false} StreamShape(k: Key, run: seq<Obs>, n: nat)
    requires n <= |run| && Monotone(run)
    ensures Consistent(After(k, run, n), Emitted(k, run, n), if n > 0 then run[n - 1].input.now else 0)
    ensures n == 0 ==> Emitted(k, run, n) == []
    decreases n
  {
    hide Step, Consistent, Emits;
    if n == 0 {
      ShapeAtStart();
    } else {
      StreamShape(k, run, n - 1);
      assert Emitted(k, run, n - 1) + [] == Emitted(k, run, n - 1);
      var before := if n > 1 then run[n - 2].input.now else 0;
      StepKeepsShape(After(k, run, n - 1), Emitted(k, run, n - 1), k, run[n - 1], before);
    }
  }

  lemma ShapeAtStart()
    ensures Consistent(Idle, [], 0)
  {
  }
}
