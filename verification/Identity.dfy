/** Incident identities over whole engine runs, across all keys. */
module Identity {
  import opened Thresholds
  import opened Lifecycle
  import opened Judgement
  import opened Detection

  function KeyOf(ev: AttackEvent): Key {
    Key(ev.hostIP, ev.vector)
  }

  /** Some Started event of incident `id` of key `k` stands before position `n`. */
  ghost predicate StartedBefore(evs: seq<AttackEvent>, n: nat, id: Id, k: Key)
    requires n <= |evs|
  {
    exists j :: 0 <= j < n && evs[j].state.Started? && evs[j].incidentID == id && KeyOf(evs[j]) == k
  }

  ghost predicate HasEnded(evs: seq<AttackEvent>, id: Id) {
    exists j :: 0 <= j < |evs| && evs[j].state.Ended? && evs[j].incidentID == id
  }

  /** No two incidents share an id; every other event follows the start of its incident; nothing follows its end. */
  ghost predicate Threaded(evs: seq<AttackEvent>) {
    && (forall i, j :: 0 <= i < j < |evs| && evs[i].state.Started? && evs[j].state.Started? ==>
          evs[i].incidentID != evs[j].incidentID)
    && (forall i :: 0 <= i < |evs| && !evs[i].state.Started? ==>
          StartedBefore(evs, i, evs[i].incidentID, KeyOf(evs[i])))
    && (forall i, j :: 0 <= i < j < |evs| && evs[i].state.Ended? ==> evs[j].incidentID != evs[i].incidentID)
    && (forall i :: 0 <= i < |evs| ==> !evs[i].state.OtherState?)
  }

  /** The incidents open in the stream are those the active entries hold, and no id is used up early. */
  ghost predicate Matched(s: Sys) {
    && (forall i :: 0 <= i < |s.emitted| ==> s.emitted[i].incidentID < s.nextId)
    && (forall k :: EntryOf(s, k).Active? ==>
          StartedBefore(s.emitted, |s.emitted|, EntryOf(s, k).inc.id, k) && !HasEnded(s.emitted, EntryOf(s, k).inc.id))
    && (forall i :: 0 <= i < |s.emitted| && s.emitted[i].state.Started? ==>
          HasEnded(s.emitted, s.emitted[i].incidentID)
          || (EntryOf(s, KeyOf(s.emitted[i])).Active?
              && EntryOf(s, KeyOf(s.emitted[i])).inc.id == s.emitted[i].incidentID))
  }

  /** What a step does to ids. */
  lemma StepIds(e: Entry, k: Key, input: Input, t: Threshold, id: Id)
    ensures var (e', ev) := Step(e, k, input, t, id);
            match ev
            case None => (e.Active? <==> e'.Active?) && (e.Active? ==> e'.inc.id == e.inc.id)
            case Some(v) =>
              && KeyOf(v) == k
              && match v.state
                 case Started => !e.Active? && e'.Active? && e'.inc.id == v.incidentID == id
                 case Updated => e.Active? && e'.Active? && e'.inc.id == v.incidentID == e.inc.id
                 case Ended => e.Active? && !e'.Active? && v.incidentID == e.inc.id
                 case OtherState(_) => false
  {
  }

  lemma HasEndedOneMore(evs: seq<AttackEvent>, ev: AttackEvent, id: Id)
    ensures HasEnded(evs + [ev], id) <==> HasEnded(evs, id) || (ev.state.Ended? && ev.incidentID == id)
  {
    if HasEnded(evs, id) {
      var j :| 0 <= j < |evs| && evs[j].state.Ended? && evs[j].incidentID == id;
      assert (evs + [ev])[j] == evs[j];
    }
    assert (evs + [ev])[|evs|] == ev;
  }

  lemma StartedBeforeOneMore(evs: seq<AttackEvent>, ev: AttackEvent, n: nat, id: Id, k: Key)
    requires n <= |evs|
    ensures StartedBefore(evs + [ev], n, id, k) <==> StartedBefore(evs, n, id, k)
    ensures StartedBefore(evs, |evs|, id, k) ==> StartedBefore(evs + [ev], |evs| + 1, id, k)
  {
    forall j | 0 <= j < |evs| ensures (evs + [ev])[j] == evs[j] {
    }
  }

  /** Appending an event of a step keeps the stream threaded. */
  lemma ThreadedOneMore(s: Sys, ev: AttackEvent)
    requires Threaded(s.emitted) && Matched(s) && !ev.state.OtherState?
    requires if ev.state.Started? then ev.incidentID == s.nextId
             else EntryOf(s, KeyOf(ev)).Active? && EntryOf(s, KeyOf(ev)).inc.id == ev.incidentID
    ensures Threaded(s.emitted + [ev])
  {
    var evs := s.emitted;
    var more := evs + [ev];
    forall i | 0 <= i < |more| && !more[i].state.Started?
      ensures StartedBefore(more, i, more[i].incidentID, KeyOf(more[i]))
    {
      StartedBeforeOneMore(evs, ev, i, more[i].incidentID, KeyOf(more[i]));
    }
    forall i | 0 <= i < |evs| && evs[i].state.Ended? ensures ev.incidentID != evs[i].incidentID {
      if ev.incidentID == evs[i].incidentID {
        assert HasEnded(evs, ev.incidentID);
      }
    }
  }

  lemma MatchedEvaluate(s: Sys, v: Verdict, score: Score)
    requires Threaded(s.emitted) && Matched(s)
    ensures Threaded(Evaluate(s, v, score).emitted) && Matched(Evaluate(s, v, score))
  {
    var s' := Evaluate(s, v, score);
    var input := InputOf(v, NextStreak(s, v), score);
    var e := EntryOf(s, v.key);
    var (e', ev) := Step(e, v.key, input, v.t, s.nextId);
    StepIds(e, v.key, input, v.t, s.nextId);
    assert EntryOf(s', v.key) == e' && forall k :: k != v.key ==> EntryOf(s', k) == EntryOf(s, k);
    hide Evaluate, Step, Threaded;
    if ev.Some? {
      ThreadedOneMore(s, ev.value);
      MatchedOneMore(s, s', ev.value);
    }
  }

  lemma MatchedOneMore(s: Sys, s': Sys, ev: AttackEvent)
    requires Threaded(s.emitted) && Matched(s) && s'.emitted == s.emitted + [ev]
    requires s'.nextId == if ev.state.Started? then s.nextId + 1 else s.nextId
    requires forall k :: k != KeyOf(ev) ==> EntryOf(s', k) == EntryOf(s, k)
    requires match ev.state
             case Started => ev.incidentID == s.nextId && !EntryOf(s, KeyOf(ev)).Active?
                             && EntryOf(s', KeyOf(ev)).Active? && EntryOf(s', KeyOf(ev)).inc.id == ev.incidentID
             case Updated => EntryOf(s, KeyOf(ev)).Active? && EntryOf(s, KeyOf(ev)).inc.id == ev.incidentID
                             && EntryOf(s', KeyOf(ev)).Active? && EntryOf(s', KeyOf(ev)).inc.id == ev.incidentID
             case Ended => EntryOf(s, KeyOf(ev)).Active? && EntryOf(s, KeyOf(ev)).inc.id == ev.incidentID
                           && !EntryOf(s', KeyOf(ev)).Active?
             case OtherState(_) => false
    ensures Matched(s')
  {
    var evs, evs' := s.emitted, s'.emitted;
    assert evs'[|evs|] == ev;
    forall i | 0 <= i < |evs| ensures evs'[i] == evs[i] && evs[i].incidentID < s.nextId {
    }
    forall k | EntryOf(s', k).Active?
      ensures StartedBefore(evs', |evs'|, EntryOf(s', k).inc.id, k) && !HasEnded(evs', EntryOf(s', k).inc.id)
    {
      var id := EntryOf(s', k).inc.id;
      HasEndedOneMore(evs, ev, id);
      StartedBeforeOneMore(evs, ev, |evs|, id, k);
      if k == KeyOf(ev) && ev.state.Started? {
        assert !HasEnded(evs, id);
      } else if k != KeyOf(ev) && ev.state.Ended? && ev.incidentID == id {
        OneKeyPerIncident(evs, id, k, KeyOf(ev));
      }
    }
    forall i | 0 <= i < |evs'| && evs'[i].state.Started? && !HasEnded(evs', evs'[i].incidentID)
      ensures EntryOf(s', KeyOf(evs'[i])).Active? && EntryOf(s', KeyOf(evs'[i])).inc.id == evs'[i].incidentID
    {
      HasEndedOneMore(evs, ev, evs'[i].incidentID);
    }
  }

  /** An id belongs to one key. */
  lemma OneKeyPerIncident(evs: seq<AttackEvent>, id: Id, k: Key, k': Key)
    requires Threaded(evs) && StartedBefore(evs, |evs|, id, k) && StartedBefore(evs, |evs|, id, k')
    ensures k == k'
  {
    var i :| 0 <= i < |evs| && evs[i].state.Started? && evs[i].incidentID == id && KeyOf(evs[i]) == k;
    var j :| 0 <= j < |evs| && evs[j].state.Started? && evs[j].incidentID == id && KeyOf(evs[j]) == k';
    assert i == j;
  }

  /** On every run, over all keys together, event streams are threaded and agree with the active entries. */
  lemma {:induction false} RunIsThreaded(log: seq<Verdict>, score: Score)
    ensures Threaded(Run(log, score).emitted) && Matched(Run(log, score))
  {
    hide Evaluate, Threaded, Matched;
    if log == [] {
      StartIsThreaded();
    } else {
      RunIsThreaded(log[..|log| - 1], score);
      MatchedEvaluate(Run(log[..|log| - 1], score), log[|log| - 1], score);
    }
  }

  lemma StartIsThreaded()
    ensures Threaded(START.emitted) && Matched(START)
  {
  }
}
