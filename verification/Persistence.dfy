/** What the tables say about the incidents of an engine run, when any of its events may have been dropped. */
module Persistence {
  import opened Options
  import opened Words
  import opened Net
  import opened Thresholds
  import opened Lifecycle
  import opened Judgement
  import opened Detection
  import opened Identity
  import opened Channels
  import opened Traffic
  import opened Window
  import opened Visits
  import opened Incidents

  /** What the machine puts into every event. */
  ghost predicate Plausible(ev: AttackEvent) {
    !ev.state.OtherState? && KnownVector(ev.vector) && (ev.state.Ended? ==> ev.endedAt.Some?)
  }

  /** The order in which an incident's events can be delivered: its start once and first, nothing after its end. */
  ghost predicate LifeOrder(d: seq<AttackEvent>) {
    && (forall i :: 0 <= i < |d| ==> Plausible(d[i]))
    && (forall i, j :: 0 <= i < |d| && 0 <= j < |d| && d[i].state.Started? ==>
          i == j || d[i].incidentID != d[j].incidentID || (i < j && !d[j].state.Started?))
    && (forall i, j :: 0 <= i < j < |d| && d[i].state.Ended? ==> d[j].incidentID != d[i].incidentID)
  }

  /** Dropping events from a threaded stream leaves a stream in life order. */
  lemma SubsequenceInLifeOrder(d: seq<AttackEvent>, e: seq<AttackEvent>)
    requires Threaded(e) && Subsequence(d, e) && forall i :: 0 <= i < |e| ==> Plausible(e[i])
    ensures LifeOrder(d)
  {
    hide Plausible;
    var at :| Embeds(d, e, at);
    forall i, j | 0 <= i < |d| && 0 <= j < |d| && i != j && d[i].state.Started? && d[i].incidentID == d[j].incidentID
      ensures i < j && !d[j].state.Started?
    {
      if !d[j].state.Started? {
        var ev := e[at[j]];
        var c :| 0 <= c < at[j] && e[c].state.Started? && e[c].incidentID == ev.incidentID && KeyOf(e[c]) == KeyOf(ev);
        assert c == at[i];
      }
    }
  }

  // ---- One incident's row --------------------------------------------------------------------------

  ghost predicate Delivered(d: seq<AttackEvent>, id: Id, state: State) {
    exists i :: 0 <= i < |d| && d[i].incidentID == id && d[i].state == state
  }

  /** `p` is the greatest delivered packet peak of the incident, as the BIGINT column holds it. */
  ghost predicate IsPeakPps(p: int, d: seq<AttackEvent>, id: Id) {
    && (forall i :: 0 <= i < |d| && d[i].incidentID == id ==> AsInt64(d[i].peakPps) <= p)
    && (exists i :: 0 <= i < |d| && d[i].incidentID == id && AsInt64(d[i].peakPps) == p)
  }

  ghost predicate IsPeakBps(p: int, d: seq<AttackEvent>, id: Id) {
    && (forall i :: 0 <= i < |d| && d[i].incidentID == id ==> AsInt64(d[i].peakBps) <= p)
    && (exists i :: 0 <= i < |d| && d[i].incidentID == id && AsInt64(d[i].peakBps) == p)
  }

  /** The row names the incident that its Started event announced; a hostgroup without an id leaves NULL. */
  ghost predicate Names(row: Row, d: seq<AttackEvent>, groups: map<string, int>, id: Id) {
    exists i :: 0 <= i < |d| && d[i].incidentID == id && d[i].state.Started?
      && row.hostIP == d[i].hostIP && row.vector == d[i].vector && row.startedAt == d[i].startedAt
      && InGroup(row.hostgroupId, d[i].hostgroup, groups)
  }

  predicate InGroup(id: Option<int>, name: string, groups: map<string, int>) {
    && (id.Some? <==> name in groups)
    && (id.Some? ==> groups[name] == id.value)
  }

  /** The attack_updates rows about one incident, in order. */
  function UpdatesAbout(us: seq<UpdateRow>, id: Id): seq<UpdateRow> {
    if us == [] then []
    else UpdatesAbout(us[..|us| - 1], id) + if us[|us| - 1].incidentId == id then [us[|us| - 1]] else []
  }

  /** The events about one incident, in order. */
  function EventsAbout(d: seq<AttackEvent>, id: Id): seq<AttackEvent> {
    if d == [] then []
    else EventsAbout(d[..|d| - 1], id) + if d[|d| - 1].incidentID == id then [d[|d| - 1]] else []
  }

  /** The attack_updates row records what the event said: when, at which rates, how sure, and of which kind. */
  predicate Records(u: UpdateRow, ev: AttackEvent) {
    && u.incidentId == ev.incidentID && u.observedAt == ev.now && u.score == ev.confidence
    && u.pps == AsInt64(ev.pps) && u.bps == AsInt64(ev.bps)
    && (u.kind.KindStarted? <==> ev.state.Started?)
    && (u.kind.KindUpdate? <==> ev.state.Updated?)
    && (u.kind.KindEnded? <==> ev.state.Ended?)
  }

  /** The rows record the events one to one and in order. */
  ghost predicate RecordsAll(us: seq<UpdateRow>, d: seq<AttackEvent>) {
    |us| == |d| && forall i :: 0 <= i < |d| ==> Records(us[i], d[i])
  }

  /** The row's end is the time that its delivered Ended event gave. */
  ghost predicate EndsAsTold(row: Row, d: seq<AttackEvent>, id: Id) {
    forall i :: 0 <= i < |d| && d[i].incidentID == id && d[i].state.Ended? ==> row.endedAt == d[i].endedAt
  }

  /** The score is the confidence of the last delivered event of the incident. */
  ghost predicate IsLastScore(score: real, d: seq<AttackEvent>, id: Id) {
    exists i :: 0 <= i < |d| && d[i].incidentID == id && d[i].confidence == score
      && forall j :: i < j < |d| ==> d[j].incidentID != id
  }

  ghost predicate RowTells(row: Row, d: seq<AttackEvent>, groups: map<string, int>, id: Id) {
    && (row.endedAt.Some? <==> Delivered(d, id, Ended)) && EndsAsTold(row, d, id) && IsLastScore(row.score, d, id)
    && IsPeakPps(row.peakPps, d, id) && IsPeakBps(row.peakBps, d, id) && Names(row, d, groups, id)
  }

  /** Everything the tables say about incident `id` after the events `d`. */
  ghost predicate Tells(t: Tables, d: seq<AttackEvent>, groups: map<string, int>, id: Id) {
    && (id in t.incidents <==> Delivered(d, id, Started))
    && (id in t.incidents ==> RowTells(t.incidents[id], d, groups, id))
    && RecordsAll(UpdatesAbout(t.updates, id), if id in t.incidents then EventsAbout(d, id) else [])
  }

  lemma OneMoreDelivered(d: seq<AttackEvent>, ev: AttackEvent, id: Id, state: State)
    ensures Delivered(d + [ev], id, state) <==> Delivered(d, id, state) || (ev.incidentID == id && ev.state == state)
  {
    assert (d + [ev])[|d|] == ev;
    if Delivered(d, id, state) {
      var i :| 0 <= i < |d| && d[i].incidentID == id && d[i].state == state;
      assert (d + [ev])[i] == d[i];
    }
  }

  lemma OneMorePeak(d: seq<AttackEvent>, ev: AttackEvent, id: Id, p: int, b: int)
    requires IsPeakPps(p, d, id) && IsPeakBps(b, d, id)
    ensures IsPeakPps(if ev.incidentID == id then Max(p, AsInt64(ev.peakPps)) else p, d + [ev], id)
    ensures IsPeakBps(if ev.incidentID == id then Max(b, AsInt64(ev.peakBps)) else b, d + [ev], id)
  {
    hide AsInt64;
    assert (d + [ev])[|d|] == ev;
    var i :| 0 <= i < |d| && d[i].incidentID == id && AsInt64(d[i].peakPps) == p;
    assert (d + [ev])[i] == d[i];
    var j :| 0 <= j < |d| && d[j].incidentID == id && AsInt64(d[j].peakBps) == b;
    assert (d + [ev])[j] == d[j];
  }

  lemma FirstPeak(d: seq<AttackEvent>, ev: AttackEvent)
    requires forall i :: 0 <= i < |d| ==> d[i].incidentID != ev.incidentID
    ensures IsPeakPps(AsInt64(ev.peakPps), d + [ev], ev.incidentID)
    ensures IsPeakBps(AsInt64(ev.peakBps), d + [ev], ev.incidentID)
  {
    hide AsInt64;
    assert (d + [ev])[|d|] == ev;
  }

  lemma OneMoreNamed(row: Row, d: seq<AttackEvent>, ev: AttackEvent, groups: map<string, int>, id: Id)
    requires Names(row, d, groups, id)
    ensures Names(row, d + [ev], groups, id)
  {
    var i :| 0 <= i < |d| && d[i].incidentID == id && d[i].state.Started?
      && row.hostIP == d[i].hostIP && row.vector == d[i].vector && row.startedAt == d[i].startedAt
      && InGroup(row.hostgroupId, d[i].hostgroup, groups);
    assert (d + [ev])[i] == d[i];
  }

  lemma OneMoreScore(d: seq<AttackEvent>, ev: AttackEvent, id: Id, score: real)
    requires ev.incidentID == id || IsLastScore(score, d, id)
    ensures IsLastScore(if ev.incidentID == id then ev.confidence else score, d + [ev], id)
  {
    var more := d + [ev];
    assert more[|d|] == ev;
    if ev.incidentID != id {
      var i :| 0 <= i < |d| && d[i].incidentID == id && d[i].confidence == score
        && forall j :: i < j < |d| ==> d[j].incidentID != id;
      assert more[i] == d[i];
    }
  }

  /** No event of the incident has been delivered after its end. */
  ghost predicate Running(d: seq<AttackEvent>, ev: AttackEvent) {
    forall i :: 0 <= i < |d| && d[i].state.Ended? ==> d[i].incidentID != ev.incidentID
  }

  lemma StillRunning(d: seq<AttackEvent>, ev: AttackEvent)
    requires LifeOrder(d + [ev])
    ensures Running(d, ev)
  {
    hide Plausible;
    assert (d + [ev])[|d|] == ev;
    assert forall i :: 0 <= i < |d| ==> (d + [ev])[i] == d[i];
  }

  lemma OneMoreEnd(row: Row, row': Row, d: seq<AttackEvent>, ev: AttackEvent, id: Id)
    requires EndsAsTold(row, d, id) && Running(d, ev)
    requires row'.endedAt == if ev.incidentID == id && ev.state.Ended? then ev.endedAt else row.endedAt
    ensures EndsAsTold(row', d + [ev], id)
  {
  }

  /** One handled event keeps the account of every incident. */
  lemma HandledTells(t: Tables, d: seq<AttackEvent>, ev: AttackEvent, groups: map<string, int>, id: Id)
    requires LifeOrder(d + [ev]) && Tells(t, d, groups, id)
    ensures Tells(Handled(t, ev, groups), d + [ev], groups, id)
  {
    assert (d + [ev])[|d|] == ev;
    assert Plausible(ev);
    StillRunning(d, ev);
    if ev.state.Started? {
      StartTells(t, d, ev, groups, id);
    } else {
      LaterTells(t, d, ev, groups, id);
    }
    hide *;
  }

  lemma StartTells(t: Tables, d: seq<AttackEvent>, ev: AttackEvent, groups: map<string, int>, id: Id)
    requires LifeOrder(d + [ev]) && Running(d, ev) && Tells(t, d, groups, id) && ev.state.Started? && Plausible(ev)
    ensures Tells(Created(t, ev, groups), d + [ev], groups, id)
  {
    hide AsInt64, UpdatesAbout, EventsAbout;
    OneMoreDelivered(d, ev, id, Started);
    OneMoreDelivered(d, ev, id, Ended);
    OneMoreAbout(t, Created(t, ev, groups), UpdateOf(ev, KindStarted), d, ev, id);
    NotEndedBeforeStart(d, ev);
    assert (d + [ev])[|d|] == ev;
    hide LifeOrder;
    if ev.incidentID == id {
      assert !Delivered(d, id, Started);
      FirstPeak(d, ev);
      OneMoreScore(d, ev, id, 0.0);
      NoneAbout(d, id);
    } else if id in t.incidents {
      RowUntouched(t.incidents[id], d, ev, groups, id);
      hide RowTells;
    }
  }

  lemma LaterTells(t: Tables, d: seq<AttackEvent>, ev: AttackEvent, groups: map<string, int>, id: Id)
    requires Running(d, ev) && Tells(t, d, groups, id) && (ev.state.Updated? || ev.state.Ended?) && Plausible(ev)
    ensures Tells(Handled(t, ev, groups), d + [ev], groups, id)
  {
    hide AsInt64, Raised, Max, UpdatesAbout, EventsAbout, RowTells, Delivered;
    OneMoreDelivered(d, ev, id, Started);
    var kind := if ev.state.Updated? then KindUpdate else KindEnded;
    OneMoreAbout(t, Handled(t, ev, groups), UpdateOf(ev, kind), d, ev, id);
    if id in t.incidents {
      if ev.incidentID == id {
        RowTouched(t.incidents[id], d, ev, groups, id);
      } else {
        RowUntouched(t.incidents[id], d, ev, groups, id);
      }
    }
  }

  lemma RowUntouched(row: Row, d: seq<AttackEvent>, ev: AttackEvent, groups: map<string, int>, id: Id)
    requires RowTells(row, d, groups, id) && Running(d, ev) && ev.incidentID != id
    ensures RowTells(row, d + [ev], groups, id)
  {
    OneMoreEnd(row, row, d, ev, id);
    OneMoreScore(d, ev, id, row.score);
    OneMoreDelivered(d, ev, id, Ended);
    OneMorePeak(d, ev, id, row.peakPps, row.peakBps);
    OneMoreNamed(row, d, ev, groups, id);
    hide Delivered, IsPeakPps, IsPeakBps, Names, EndsAsTold, IsLastScore, Running;
  }

  lemma RowTouched(row: Row, d: seq<AttackEvent>, ev: AttackEvent, groups: map<string, int>, id: Id)
    requires RowTells(row, d, groups, id) && Running(d, ev) && ev.incidentID == id
    requires (ev.state.Updated? || ev.state.Ended?) && Plausible(ev)
    ensures var raised := Raised(row, ev);
            RowTells(if ev.state.Ended? then raised.(endedAt := ev.endedAt) else raised, d + [ev], groups, id)
  {
    var row' := if ev.state.Ended? then Raised(row, ev).(endedAt := ev.endedAt) else Raised(row, ev);
    OneMoreDelivered(d, ev, id, Ended);
    OneMorePeak(d, ev, id, row.peakPps, row.peakBps);
    OneMoreNamed(row', d, ev, groups, id);
    OneMoreEnd(row, row', d, ev, id);
    OneMoreScore(d, ev, id, row.score);
    hide Delivered, IsPeakPps, IsPeakBps, Names, AsInt64, EndsAsTold, IsLastScore, Running, Max;
  }

  lemma {:induction false} NoneAbout(d: seq<AttackEvent>, id: Id)
    requires forall i :: 0 <= i < |d| ==> d[i].incidentID != id
    ensures EventsAbout(d, id) == []
  {
    if d != [] {
      NoneAbout(d[..|d| - 1], id);
    }
  }

  lemma NotEndedBeforeStart(d: seq<AttackEvent>, ev: AttackEvent)
    requires LifeOrder(d + [ev]) && ev.state.Started?
    ensures forall i :: 0 <= i < |d| ==> d[i].incidentID != ev.incidentID
    ensures !Delivered(d, ev.incidentID, Ended)
  {
    hide Plausible;
    assert (d + [ev])[|d|] == ev;
    assert forall i :: 0 <= i < |d| ==> (d + [ev])[i] == d[i];
  }

  lemma OneMoreAbout(t: Tables, t': Tables, u: UpdateRow, d: seq<AttackEvent>, ev: AttackEvent, id: Id)
    requires t'.updates == t.updates || t'.updates == t.updates + [u]
    requires Records(u, ev)
    ensures EventsAbout(d + [ev], id) == EventsAbout(d, id) + if ev.incidentID == id then [ev] else []
    ensures UpdatesAbout(t'.updates, id) == UpdatesAbout(t.updates, id)
              + if ev.incidentID == id && t'.updates != t.updates then [u] else []
  {
    hide AsInt64;
    assert (d + [ev])[..|d|] == d;
    assert (t.updates + [u])[..|t.updates|] == t.updates;
  }

  /** The tables after delivered events in life order tell every incident correctly. */
  lemma {:induction false} PersistTells(d: seq<AttackEvent>, groups: map<string, int>, id: Id)
    requires LifeOrder(d)
    ensures Tells(Persist(d, groups), d, groups, id)
  {
    hide Handled, Plausible;
    if d != [] {
      var n := |d| - 1;
      PersistTells(d[..n], groups, id);
      assert d == d[..n] + [d[n]];
      HandledTells(Persist(d[..n], groups), d[..n], d[n], groups, id);
    }
  }

  // ---- When the int64 columns hold the true peaks --------------------------------------------------

  /** `p` is the greatest delivered packet peak of the incident itself, before the cast to int64. */
  ghost predicate IsTruePeakPps(p: int, d: seq<AttackEvent>, id: Id) {
    && (forall i :: 0 <= i < |d| && d[i].incidentID == id ==> d[i].peakPps <= p)
    && (exists i :: 0 <= i < |d| && d[i].incidentID == id && d[i].peakPps == p)
  }

  ghost predicate IsTruePeakBps(p: int, d: seq<AttackEvent>, id: Id) {
    && (forall i :: 0 <= i < |d| && d[i].incidentID == id ==> d[i].peakBps <= p)
    && (exists i :: 0 <= i < |d| && d[i].incidentID == id && d[i].peakBps == p)
  }

  /** Every delivered peak of the incident fits the column. */
  ghost predicate PpsFit(d: seq<AttackEvent>, id: Id) {
    forall i :: 0 <= i < |d| && d[i].incidentID == id ==> d[i].peakPps < TWO_63
  }

  ghost predicate BpsFit(d: seq<AttackEvent>, id: Id) {
    forall i :: 0 <= i < |d| && d[i].incidentID == id ==> d[i].peakBps < TWO_63
  }

  /** The stored peaks are the greatest delivered peaks, each if and only if every delivered one is below 2^63. */
  ghost predicate PeaksAreTrueIfTheyFit(row: Row, d: seq<AttackEvent>, id: Id) {
    && (IsTruePeakPps(row.peakPps, d, id) <==> PpsFit(d, id))
    && (IsTruePeakBps(row.peakBps, d, id) <==> BpsFit(d, id))
  }

  lemma RowPeaks(row: Row, d: seq<AttackEvent>, groups: map<string, int>, id: Id)
    requires RowTells(row, d, groups, id)
    ensures PeaksAreTrueIfTheyFit(row, d, id)
  {
    assert row.peakPps < TWO_63 && row.peakBps < TWO_63;
  }

  /** One statement of the cast: raising a column with GREATEST gives the greater peak exactly when both fit. */
  lemma PeakColumnsCompareRight(a: U64, b: U64)
    ensures Max(AsInt64(a), AsInt64(b)) == Max(a, b) <==> a < TWO_63 && b < TWO_63
  {
  }

  /** A single start with 2^63 packets is stored with a negative peak, for any groups and any other fields. */
  lemma HugePeakIsStoredNegative(ev: AttackEvent, groups: map<string, int>)
    requires ev.state.Started? && KnownVector(ev.vector) && ev.peakPps == TWO_63
    ensures var t := Persist([ev], groups);
            ev.incidentID in t.incidents && t.incidents[ev.incidentID].peakPps == -TWO_63
    ensures !IsTruePeakPps(-TWO_63, [ev], ev.incidentID)
  {
    assert [ev][..0] == [];
    assert Persist([], groups) == Tables(map[], []);
  }

  // ---- Whole runs ----------------------------------------------------------------------------------

  /** No attack_updates row lacks its incident, whatever events arrive in whatever order. */
  lemma {:induction false} ForeignKeyHolds(d: seq<AttackEvent>, groups: map<string, int>)
    ensures ForeignKey(Persist(d, groups))
  {
    hide AsInt64, Raised, RowOf;
    if d != [] {
      ForeignKeyHolds(d[..|d| - 1], groups);
    }
  }

  ghost predicate KnownVectors(log: seq<Verdict>) {
    forall i :: 0 <= i < |log| ==> KnownVector(log[i].key.vector)
  }

  /** The engine judges only the two vectors that the incidents table accepts. */
  lemma {:induction false} VerdictVectors(cat: seq<Threshold>, history: seq<Op>, visits: seq<Visit>)
    requires Visitable(cat, history, visits)
    ensures KnownVectors(VerdictsOf(cat, history, visits))
  {
    hide Judge, LookupIn;
    if visits != [] {
      var n := |visits| - 1;
      VerdictVectors(cat, history, visits[..n]);
      var last := visits[n];
      JudgeVector(cat, Replay(history[..last.seen]), last.ip, last.sec, last.now);
    }
  }

  lemma JudgeVector(cat: seq<Threshold>, table: Table, ip: Addr, sec: int, now: int)
    requires ValidTable(table) && PositiveWindows(LookupIn(cat, ip))
    ensures var v := Judge(cat, table, ip, sec, now); v.Some? ==> KnownVector(v.value.key.vector)
  {
    hide LookupIn, SnapshotOf, Width, Twice;
    var ts := LookupIn(cat, ip);
    var buckets := SnapshotOf(table, ip, sec, Width(ts));
    var vec := Dominating(Total(buckets));
    if vec.Some? {
      FirstForMembers(ts, vec.value);
    }
  }

  lemma {:induction false} EventsArePlausible(log: seq<Verdict>, score: Score)
    requires KnownVectors(log)
    ensures forall i :: 0 <= i < |Run(log, score).emitted| ==> Plausible(Run(log, score).emitted[i])
  {
    hide InputOf;
    if log != [] {
      var before, v := log[..|log| - 1], log[|log| - 1];
      EventsArePlausible(before, score);
      var s := Run(before, score);
      StepIsPlausible(EntryOf(s, v.key), v.key, InputOf(v, NextStreak(s, v), score), v.t, s.nextId);
      hide Step, Plausible;
    }
  }

  lemma StepIsPlausible(e: Entry, k: Key, input: Input, t: Threshold, id: Id)
    requires KnownVector(k.vector)
    ensures var ev := Step(e, k, input, t, id).1; ev.Some? ==> Plausible(ev.value)
  {
  }

  /** Under any interleaving of any delivered subset of a run's events, the tables tell every incident correctly:
      a row exists iff its start was delivered, it is ended iff its end was too, its peaks are the greatest delivered,
      and it has one attack_updates row per delivered event. */
  lemma DeliveredTells(log: seq<Verdict>, score: Score, d: seq<AttackEvent>, groups: map<string, int>, id: Id)
    requires KnownVectors(log)
    requires Subsequence(d, Run(log, score).emitted)
    ensures Tells(Persist(d, groups), d, groups, id)
  {
    hide Tells, LifeOrder, Threaded, Plausible, Run;
    EventsArePlausible(log, score);
    RunIsThreaded(log, score);
    SubsequenceInLifeOrder(d, Run(log, score).emitted);
    PersistTells(d, groups, id);
  }

  /** On every run and for every delivered subset of its events, every stored peak is the greatest delivered one if and
      only if all delivered ones fit the column. */
  lemma DeliveredPeaks(log: seq<Verdict>, score: Score, d: seq<AttackEvent>, groups: map<string, int>, id: Id)
    requires KnownVectors(log)
    requires Subsequence(d, Run(log, score).emitted)
    requires id in Persist(d, groups).incidents
    ensures PeaksAreTrueIfTheyFit(Persist(d, groups).incidents[id], d, id)
  {
    hide RowTells, PeaksAreTrueIfTheyFit, KnownVectors, Subsequence, Run, Persist;
    DeliveredTells(log, score, d, groups, id);
    RowPeaks(Persist(d, groups).incidents[id], d, groups, id);
  }

  ghost predicate IsOpen(t: Tables, id: Id) {
    id in t.incidents && t.incidents[id].endedAt.None?
  }

  ghost predicate Holds(s: Sys, k: Key, id: Id) {
    EntryOf(s, k).Active? && EntryOf(s, k).inc.id == id
  }

  /** With nothing dropped, the open rows are the active machines: each active key has its own open row, which
      names it, and every open row is that of exactly one active key. */
  lemma OpenRowsAreActiveKeys(log: seq<Verdict>, score: Score, groups: map<string, int>, id: Id)
    requires KnownVectors(log)
    ensures var (s, t) := (Run(log, score), Persist(Run(log, score).emitted, groups));
            && (IsOpen(t, id) <==> exists k :: Holds(s, k, id))
            && (forall k :: Holds(s, k, id) ==> Key(t.incidents[id].hostIP, t.incidents[id].vector) == k)
  {
    var s := Run(log, score);
    var d := s.emitted;
    var t := Persist(d, groups);
    SubsequenceSelf(d);
    DeliveredTells(log, score, d, groups, id);
    RunIsThreaded(log, score);
    hide Run, Persist, EntryOf;
    assert HasEnded(d, id) <==> Delivered(d, id, Ended) by {
      if HasEnded(d, id) {
        var j :| 0 <= j < |d| && d[j].state.Ended? && d[j].incidentID == id;
        assert d[j].state == Ended;
      }
    }
    OpenIsHeld(s, t, groups, id);
  }

  lemma OpenIsHeld(s: Sys, t: Tables, groups: map<string, int>, id: Id)
    requires Threaded(s.emitted) && Matched(s) && Tells(t, s.emitted, groups, id)
    requires HasEnded(s.emitted, id) <==> Delivered(s.emitted, id, Ended)
    ensures IsOpen(t, id) <==> exists k :: Holds(s, k, id)
    ensures forall k :: Holds(s, k, id) ==> Key(t.incidents[id].hostIP, t.incidents[id].vector) == k
  {
    hide EntryOf, IsPeakPps, IsPeakBps;
    var d := s.emitted;
    if IsOpen(t, id) {
      var i :| 0 <= i < |d| && d[i].incidentID == id && d[i].state == Started;
      assert Holds(s, KeyOf(d[i]), id);
    }
    forall k | Holds(s, k, id)
      ensures IsOpen(t, id) && Key(t.incidents[id].hostIP, t.incidents[id].vector) == k
    {
      var j :| 0 <= j < |d| && d[j].state.Started? && d[j].incidentID == id && KeyOf(d[j]) == k;
      assert d[j].state == Started;
      var i :| 0 <= i < |d| && d[i].incidentID == id && d[i].state.Started?
        && t.incidents[id].hostIP == d[i].hostIP && t.incidents[id].vector == d[i].vector;
      assert i == j;
    }
  }
}
