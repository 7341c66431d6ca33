/** The state machine object (detect/state.go): entries and incidents updated in place, refining Lifecycle. */
module StateMachine {
  import opened Options
  import opened Words
  import opened Thresholds
  import L = Lifecycle

  datatype MachineState = StateIdle | StateActive | StateCooldown

  /** Where incident ids come from: every ULID drawn is a new one. */
  class UlidSource {
    var next: nat

    constructor ()
      ensures next == 0
    {
      next := 0;
    }

    method New() returns (id: L.Id)
      modifies this
      ensures id == old(next) && next == old(next) + 1
    {
      id := next;
      next := next + 1;
    }
  }

  /** The `incident` struct. */
  class Incident {
    const id: L.Id
    const startedAt: int
    const initialPeakPps: U64
    const initialPeakBps: U64
    var peakPps: U64
    var peakBps: U64
    var updateEmitted: bool
    var noViolationTicks: nat

    constructor (id: L.Id, input: L.Input)
      ensures var (pps, bps) := (input.currentPps, input.currentBps);
              Value() == L.Incident(id, input.now, pps, bps, pps, bps, false, 0)
    {
      this.id := id;
      startedAt := input.now;
      initialPeakPps, initialPeakBps := input.currentPps, input.currentBps;
      peakPps, peakBps := input.currentPps, input.currentBps;
      updateEmitted, noViolationTicks := false, 0;
    }

    function Value(): L.Incident
      reads this
    {
      L.Incident(id, startedAt, initialPeakPps, initialPeakBps, peakPps, peakBps, updateEmitted, noViolationTicks)
    }
  }

  /** The `machineEntry` struct. */
  class MachineEntry {
    var state: MachineState
    var inc: Incident?
    var cooldownUntil: int

    constructor ()
      ensures Valid() && View() == L.Idle && inc == null
    {
      state, inc, cooldownUntil := StateIdle, null, 0;
    }

    ghost predicate Valid()
      reads this
    {
      state.StateActive? <==> inc != null
    }

    ghost function View(): L.Entry
      requires Valid()
      reads this, inc
    {
      match state
      case StateIdle => L.Idle
      case StateActive => L.Active(inc.Value())
      case StateCooldown => L.Cooldown(cooldownUntil)
    }

    /** The switch of Step. */
    method Advance(k: L.Key, input: L.Input, t: Threshold, rnd: UlidSource) returns (ev: Option<L.AttackEvent>)
      requires Valid()
      modifies this, inc, rnd
      ensures Valid() && (inc == old(inc) || inc == null || fresh(inc))
      ensures (View(), ev) == L.Step(old(View()), k, input, t, old(rnd.next))
      ensures rnd.next == old(rnd.next) + if ev.Some? && ev.value.state.Started? then 1 else 0
    {
      var graceTicks := t.graceSec;
      if graceTicks <= 0 {
        graceTicks := 60;
      }
      match state
      case StateIdle =>
        if !input.violating {
          return None;
        }
        if input.durationViolated < t.minWindowSec {
          return None;
        }
        var id := rnd.New();
        state := StateActive;
        inc := new Incident(id, input);
        return Some(L.EventOf(k, inc.Value(), L.Started, input));

      case StateActive =>
        if input.currentPps > inc.peakPps {
          inc.peakPps := input.currentPps;
        }
        if input.currentBps > inc.peakBps {
          inc.peakBps := input.currentBps;
        }
        if !input.violating {
          inc.noViolationTicks := inc.noViolationTicks + 1;
          if inc.noViolationTicks >= graceTicks {
            ev := Some(L.EventOf(k, inc.Value(), L.Ended, input));
            state := StateCooldown;
            cooldownUntil := input.now + L.COOLDOWN_AFTER_END;
            inc := null;
            return;
          }
          return None;
        }
        inc.noViolationTicks := 0;
        if !inc.updateEmitted {
          if L.UpdateDue(inc.Value(), input.now) {
            inc.updateEmitted := true;
            return Some(L.EventOf(k, inc.Value(), L.Updated, input));
          }
        }
        return None;

      case StateCooldown =>
        if input.now > cooldownUntil {
          state := StateIdle;
        }
        return None;
    }
  }

  class StateMachine {
    var m: map<L.Key, MachineEntry>
    const rnd: UlidSource
    ghost var repr: set<object>

    ghost predicate Valid()
      reads this, repr
    {
      && this in repr && rnd in repr
      && (forall k :: k in m ==> m[k] in repr && m[k].Valid() && (m[k].inc != null ==> m[k].inc in repr))
      && (forall j, k :: j in m && k in m && j != k ==>
            m[j] != m[k] && (m[j].inc == null || m[j].inc != m[k].inc))
    }

    /** The entries as values. */
    ghost function Entries(): map<L.Key, L.Entry>
      requires Valid()
      reads this, repr
    {
      map k | k in m :: m[k].View()
    }

    constructor ()
      ensures Valid() && fresh(repr) && Entries() == map[] && rnd.next == 0
    {
      m := map[];
      rnd := new UlidSource();
      new;
      repr := {this, rnd};
    }

    method EntryFor(k: L.Key) returns (e: MachineEntry)
      requires Valid()
      modifies this
      ensures Valid() && fresh(repr - old(repr)) && k in m && e == m[k] && rnd.next == old(rnd.next)
      ensures var es := old(Entries()); Entries() == es[k := if k in es then es[k] else L.Idle]
    {
      if k !in m {
        var entry := new MachineEntry();
        m := m[k := entry];
        repr := repr + {entry};
      }
      e := m[k];
    }

    /** When only one entry and its incident have changed, every other entry still has its value. */
    twostate lemma OneEntryChanged(k: L.Key)
      requires old(Valid()) && k in m && m == old(m) && m[k].Valid()
      requires m[k].inc == old(m[k].inc) || m[k].inc == null || fresh(m[k].inc)
      requires repr == old(repr) + if m[k].inc == null then {} else {m[k].inc}
      requires forall j :: j in m && j != k ==> unchanged(m[j]) && (m[j].inc != null ==> unchanged(m[j].inc))
      ensures Valid() && Entries() == old(Entries())[k := m[k].View()]
    {
    }

    method AdvanceEntry(k: L.Key, input: L.Input, t: Threshold) returns (ev: Option<L.AttackEvent>)
      requires Valid() && k in m
      modifies this, m[k], m[k].inc, rnd
      ensures Valid() && fresh(repr - old(repr))
      ensures var es := old(Entries()); var r := L.Step(es[k], k, input, t, old(rnd.next));
              Entries() == es[k := r.0] && ev == r.1
      ensures rnd.next == old(rnd.next) + if ev.Some? && ev.value.state.Started? then 1 else 0
    {
      hide L.Step;
      var e := m[k];
      ev := e.Advance(k, input, t, rnd);
      repr := repr + if e.inc == null then {} else {e.inc};
      OneEntryChanged(k);
    }

    /** Step: one key's entry advances, every other entry stays as it is. */
    method Step(k: L.Key, input: L.Input, t: Threshold) returns (ev: Option<L.AttackEvent>)
      requires Valid()
      modifies repr
      ensures Valid() && fresh(repr - old(repr))
      ensures var es := old(Entries());
              var r := L.Step(if k in es then es[k] else L.Idle, k, input, t, old(rnd.next));
              Entries() == es[k := r.0] && ev == r.1
      ensures rnd.next == old(rnd.next) + if ev.Some? && ev.value.state.Started? then 1 else 0
    {
      hide L.Step;
      ghost var es := Entries();
      var e := EntryFor(k);
      ghost var mid := Entries();
      ghost var r := L.Step(mid[k], k, input, t, rnd.next);
      assert mid[k := r.0] == es[k := r.0];
      ev := AdvanceEntry(k, input, t);
    }
  }
}
