/** The incidents and attack_updates tables under the recorder (incident/store.go, incident/recorder.go). */
module Incidents {
  import opened Options
  import opened Words
  import opened Net
  import opened Thresholds
  import opened Lifecycle

  /** A row of incidents; `hostgroupId` is NULL when no hostgroup has the event's name. */
  datatype Row = Row(
    hostIP: Addr, vector: Vector, hostgroupId: Option<int>, startedAt: int, endedAt: Option<int>,
    peakPps: int, peakBps: int, score: real)

  datatype Kind = KindStarted | KindUpdate | KindEnded

  /** A row of attack_updates. */
  datatype UpdateRow = UpdateRow(incidentId: Id, observedAt: int, pps: int, bps: int, score: real, kind: Kind)

  datatype Tables = Tables(incidents: map<Id, Row>, updates: seq<UpdateRow>)

  /** The schema's CHECK on vector. */
  predicate KnownVector(v: Vector) {
    v.UdpFlood? || v.IcmpFlood?
  }

  /** Where a transaction may break: the pool, a statement, or the commit. */
  datatype Fault = NoFault | BeginFails | FirstFails | SecondFails | CommitFails

  function UpdateOf(ev: AttackEvent, kind: Kind): UpdateRow {
    UpdateRow(ev.incidentID, ev.now, AsInt64(ev.pps), AsInt64(ev.bps), ev.confidence, kind)
  }

  /** The foreign key attack_updates.incident_id -> incidents.id. */
  ghost predicate ForeignKey(t: Tables) {
    forall i :: 0 <= i < |t.updates| ==> t.updates[i].incidentId in t.incidents
  }

  // ---- The committed effect of each operation ----------------------------------------------------

  function RowOf(ev: AttackEvent, groups: map<string, int>): Row {
    Row(ev.hostIP, ev.vector, if ev.hostgroup in groups then Some(groups[ev.hostgroup]) else None,
        ev.startedAt, None, AsInt64(ev.peakPps), AsInt64(ev.peakBps), ev.confidence)
  }

  /** INSERT ... ON CONFLICT DO NOTHING, then the 'started' update. */
  function Created(t: Tables, ev: AttackEvent, groups: map<string, int>): Tables {
    if !KnownVector(ev.vector) then t
    else Tables(if ev.incidentID in t.incidents then t.incidents else t.incidents[ev.incidentID := RowOf(ev, groups)],
                t.updates + [UpdateOf(ev, KindStarted)])
  }

  function Raised(row: Row, ev: AttackEvent): Row {
    row.(peakPps := Max(row.peakPps, AsInt64(ev.peakPps)),
         peakBps := Max(row.peakBps, AsInt64(ev.peakBps)), score := ev.confidence)
  }

  /** An UPDATE that matches no row is no error, but the attack_updates INSERT then breaks the foreign key. */
  function Bumped(t: Tables, ev: AttackEvent): Tables {
    if ev.incidentID !in t.incidents then t
    else Tables(t.incidents[ev.incidentID := Raised(t.incidents[ev.incidentID], ev)],
                t.updates + [UpdateOf(ev, KindUpdate)])
  }

  function Closed(t: Tables, ev: AttackEvent): Tables {
    if ev.incidentID !in t.incidents then t
    else Tables(t.incidents[ev.incidentID := Raised(t.incidents[ev.incidentID], ev).(endedAt := ev.endedAt)],
                t.updates + [UpdateOf(ev, KindEnded)])
  }

  /** What the recorder does to the tables with one event when the database does not fail. */
  function Handled(t: Tables, ev: AttackEvent, groups: map<string, int>): Tables {
    match ev.state
    case Started => Created(t, ev, groups)
    case Updated => Bumped(t, ev)
    case Ended => Closed(t, ev)
    case OtherState(_) => t
  }

  /** The database connection, with the two tables and a transaction that works on copies until it commits. */
  class Store {
    var incidents: map<Id, Row>
    var updates: seq<UpdateRow>
    const groups: map<string, int>

    function Value(): Tables
      reads this
    {
      Tables(incidents, updates)
    }

    constructor (groups: map<string, int>)
      ensures Value() == Tables(map[], []) && this.groups == groups
    {
      incidents, updates := map[], [];
      this.groups := groups;
    }

    /** INSERT INTO attack_updates within a transaction that has `rows` as its incidents. */
    method InsertUpdate(rows: map<Id, Row>, ev: AttackEvent, kind: Kind, fault: Fault) returns (ok: bool)
      requires fault != BeginFails && fault != FirstFails
      modifies this
      ensures ok <==> fault == NoFault && ev.incidentID in rows
      ensures Value() == if ok then Tables(rows, old(updates) + [UpdateOf(ev, kind)]) else old(Value())
    {
      if fault == SecondFails || ev.incidentID !in rows {
        return false;
      }
      if fault == CommitFails {
        return false;
      }
      incidents := rows;
      updates := updates + [UpdateOf(ev, kind)];
      return true;
    }

    method Create(ev: AttackEvent, fault: Fault) returns (ok: bool)
      modifies this
      ensures ok <==> fault == NoFault && KnownVector(ev.vector)
      ensures Value() == if ok then Created(old(Value()), ev, groups) else old(Value())
    {
      if fault == BeginFails || fault == FirstFails || !KnownVector(ev.vector) {
        return false;
      }
      var rows := incidents;
      if ev.incidentID !in rows {
        var group := if ev.hostgroup in groups then Some(groups[ev.hostgroup]) else None;
        rows := rows[ev.incidentID := Row(ev.hostIP, ev.vector, group, ev.startedAt, None,
                                          AsInt64(ev.peakPps), AsInt64(ev.peakBps), ev.confidence)];
      }
      ok := InsertUpdate(rows, ev, KindStarted, fault);
    }

    method Update(ev: AttackEvent, fault: Fault) returns (ok: bool)
      modifies this
      ensures ok <==> fault == NoFault && ev.incidentID in old(incidents)
      ensures Value() == if ok then Bumped(old(Value()), ev) else old(Value())
    {
      if fault == BeginFails || fault == FirstFails {
        return false;
      }
      var rows := incidents;
      if ev.incidentID in rows {
        var row := rows[ev.incidentID];
        rows := rows[ev.incidentID := row.(peakPps := Max(row.peakPps, AsInt64(ev.peakPps)),
                                           peakBps := Max(row.peakBps, AsInt64(ev.peakBps)),
                                           score := ev.confidence)];
      }
      ok := InsertUpdate(rows, ev, KindUpdate, fault);
    }

    method End(ev: AttackEvent, fault: Fault) returns (ok: bool)
      modifies this
      ensures ok <==> fault == NoFault && ev.incidentID in old(incidents)
      ensures Value() == if ok then Closed(old(Value()), ev) else old(Value())
    {
      if fault == BeginFails || fault == FirstFails {
        return false;
      }
      var rows := incidents;
      if ev.incidentID in rows {
        var row := rows[ev.incidentID];
        rows := rows[ev.incidentID := row.(endedAt := ev.endedAt,
                                           peakPps := Max(row.peakPps, AsInt64(ev.peakPps)),
                                           peakBps := Max(row.peakBps, AsInt64(ev.peakBps)),
                                           score := ev.confidence)];
      }
      ok := InsertUpdate(rows, ev, KindEnded, fault);
    }
  }

  /** The recorder, with a log of the events whose transaction committed or that needed none. */
  class Recorder {
    const store: Store
    ghost var persisted: seq<AttackEvent>

    ghost predicate Valid()
      reads this, store
    {
      store.Value() == Persist(persisted, store.groups)
    }

    constructor (store: Store)
      requires store.Value() == Tables(map[], [])
      ensures Valid() && this.store == store && persisted == []
    {
      this.store := store;
      persisted := [];
    }

    /** handle: a failed transaction leaves the tables as if the event had not arrived, and the loop goes on. */
    method Handle(ev: AttackEvent, fault: Fault)
      requires Valid()
      modifies this, store
      ensures Valid()
      ensures persisted == if fault == NoFault then old(persisted) + [ev] else old(persisted)
    {
      PersistStep(persisted, ev, store.groups);
      match ev.state {
        case Started =>
          var _ := store.Create(ev, fault);
        case Updated =>
          var _ := store.Update(ev, fault);
        case Ended =>
          var _ := store.End(ev, fault);
        case OtherState(_) =>
      }
      if fault == NoFault {
        persisted := persisted + [ev];
      }
    }
  }

  /** The tables after a sequence of events, from empty. */
  function Persist(evs: seq<AttackEvent>, groups: map<string, int>): Tables {
    if evs == [] then Tables(map[], [])
    else Handled(Persist(evs[..|evs| - 1], groups), evs[|evs| - 1], groups)
  }

  lemma PersistStep(evs: seq<AttackEvent>, ev: AttackEvent, groups: map<string, int>)
    ensures Persist(evs + [ev], groups) == Handled(Persist(evs, groups), ev, groups)
  {
    assert (evs + [ev])[..|evs|] == evs;
  }
}
