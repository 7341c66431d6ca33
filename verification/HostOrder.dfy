/** Engine.Tick visits the active hosts in map order: the order is invisible, up to which ULID names which incident. */
module HostOrder {
  import Words
  import opened Net
  import opened Window
  import opened Thresholds
  import opened Lifecycle
  import opened Judgement
  import opened Detection

  /** One engine tick: the counters it reads and the order in which it visits hosts. */
  datatype EngineTick = EngineTick(table: Table, sec: int, now: int, hosts: seq<Addr>)

  ghost predicate Judgeable(cat: seq<Threshold>, tick: EngineTick) {
    ValidTable(tick.table) && forall ip :: PositiveWindows(LookupIn(cat, ip))
  }

  function VerdictsFor(cat: seq<Threshold>, tick: EngineTick, hosts: seq<Addr>): seq<Verdict>
    requires Judgeable(cat, tick)
  {
    if hosts == [] then []
    else
      var v := Judge(cat, tick.table, hosts[|hosts| - 1], tick.sec, tick.now);
      VerdictsFor(cat, tick, hosts[..|hosts| - 1]) + if v.Some? then [v.value] else []
  }

  function VerdictLog(cat: seq<Threshold>, ticks: seq<EngineTick>): seq<Verdict>
    requires forall i :: 0 <= i < |ticks| ==> Judgeable(cat, ticks[i])
  {
    if ticks == [] then []
    else VerdictLog(cat, ticks[..|ticks| - 1])
         + VerdictsFor(cat, ticks[|ticks| - 1], ticks[|ticks| - 1].hosts)
  }

  // ---- Verdicts of one key do not depend on the order -------------------------------------------

  /** The verdict a tick has for key `k`, if it visits `k`'s host. */
  function VerdictOn(cat: seq<Threshold>, tick: EngineTick, k: Key): seq<Verdict>
    requires Judgeable(cat, tick)
  {
    var v := Judge(cat, tick.table, k.hostIP, tick.sec, tick.now);
    if v.Some? && v.value.key == k then [v.value] else []
  }

  lemma {:induction false} ProjectConcat(a: seq<Verdict>, b: seq<Verdict>, k: Key)
    ensures Project(a + b, k) == Project(a, k) + Project(b, k)
    decreases |b|
  {
    if b == [] {
      assert a + b == a;
    } else {
      var n := |b| - 1;
      ProjectConcat(a, b[..n], k);
      assert (a + b)[..|a + b| - 1] == a + b[..n];
    }
  }

  lemma JudgeNamesItsHost(cat: seq<Threshold>, table: Table, ip: Addr, sec: int, now: int)
    requires ValidTable(table) && PositiveWindows(LookupIn(cat, ip))
    ensures var v := Judge(cat, table, ip, sec, now); v.Some? ==> v.value.key.hostIP == ip
  {
    hide LookupIn, SnapshotOf, Dominating, Width;
  }

  lemma {:induction false} ProjectVisits(cat: seq<Threshold>, tick: EngineTick, hosts: seq<Addr>, k: Key)
    requires Judgeable(cat, tick)
    requires forall i, j :: 0 <= i < j < |hosts| ==> hosts[i] != hosts[j]
    ensures Project(VerdictsFor(cat, tick, hosts), k) == if k.hostIP in hosts then VerdictOn(cat, tick, k) else []
  {
    hide Judge;
    if hosts != [] {
      var n := |hosts| - 1;
      ProjectVisits(cat, tick, hosts[..n], k);
      var v := Judge(cat, tick.table, hosts[n], tick.sec, tick.now);
      JudgeNamesItsHost(cat, tick.table, hosts[n], tick.sec, tick.now);
      var more := if v.Some? then [v.value] else [];
      ProjectConcat(VerdictsFor(cat, tick, hosts[..n]), more, k);
      assert v.Some? ==> more[..0] == [];
      assert hosts == hosts[..n] + [hosts[n]];
    }
  }

  /** Two ticks on the same counters that visit the same hosts, each once. */
  ghost predicate SameButOrder(a: EngineTick, b: EngineTick) {
    && a.(hosts := b.hosts) == b
    && (forall ip :: ip in a.hosts <==> ip in b.hosts)
    && (forall i, j :: 0 <= i < j < |a.hosts| ==> a.hosts[i] != a.hosts[j])
    && (forall i, j :: 0 <= i < j < |b.hosts| ==> b.hosts[i] != b.hosts[j])
  }

  lemma {:induction false} OrderKeepsProjections(cat: seq<Threshold>, ticks: seq<EngineTick>,
                                                 ticks': seq<EngineTick>, k: Key)
    requires |ticks| == |ticks'| && forall i :: 0 <= i < |ticks| ==> SameButOrder(ticks[i], ticks'[i])
    requires forall i :: 0 <= i < |ticks| ==> Judgeable(cat, ticks[i]) && Judgeable(cat, ticks'[i])
    ensures Project(VerdictLog(cat, ticks), k) == Project(VerdictLog(cat, ticks'), k)
  {
    hide Judge;
    if ticks != [] {
      var n := |ticks| - 1;
      OrderKeepsProjections(cat, ticks[..n], ticks'[..n], k);
      ProjectConcat(VerdictLog(cat, ticks[..n]), VerdictsFor(cat, ticks[n], ticks[n].hosts), k);
      ProjectConcat(VerdictLog(cat, ticks'[..n]), VerdictsFor(cat, ticks'[n], ticks'[n].hosts), k);
      ProjectVisits(cat, ticks[n], ticks[n].hosts, k);
      ProjectVisits(cat, ticks'[n], ticks'[n].hosts, k);
    }
  }

  // ---- Up to the names of incidents ------------------------------------------------------------

  /** Two runs of a key that differ at most in the ULIDs on offer. */
  predicate SameButIds(run: seq<Obs>, run': seq<Obs>) {
    |run| == |run'| && forall i :: 0 <= i < |run| ==> run[i].(newId := run'[i].newId) == run'[i]
  }

  /** `id'` names in one run the incident that `id` names in the other: opened by the same step of the same key. */
  ghost predicate SameIncident(log: seq<Verdict>, log': seq<Verdict>, score: Score, id: Id, id': Id) {
    exists k: Key, s: nat :: NamedAt(log, score, k, s, id) && NamedAt(log', score, k, s, id')
  }

  ghost predicate NamedAt(log: seq<Verdict>, score: Score, k: Key, s: nat, id: Id) {
    s < |KeyRun(log, k, score)| && Emits(k, KeyRun(log, k, score), s, Started) && KeyRun(log, k, score)[s].newId == id
  }

  /** Entries equal up to the name of the incident, which step `s` opened. */
  predicate EntriesAgree(e: Entry, e': Entry, id: Id, id': Id) {
    if e.Active? then e'.Active? && e.inc.id == id && e'.inc == e.inc.(id := id') else e == e'
  }

  lemma {:induction false} IdsDoNotMatter(k: Key, run: seq<Obs>, run': seq<Obs>, n: nat)
    requires n <= |run| && SameButIds(run, run')
    ensures OpenedAt(k, run, n) == OpenedAt(k, run', n)
    ensures n == 0 ==> After(k, run, n) == After(k, run', n)
    ensures n > 0 ==> var s := OpenedAt(k, run, n);
                      EntriesAgree(After(k, run, n), After(k, run', n), run[s].newId, run'[s].newId)
                      && (After(k, run, n).Active? ==> Emits(k, run, s, Started))
    decreases n
  {
    hide UpdateDue, Words.Max, GraceTicks;
    if n > 0 {
      IdsDoNotMatter(k, run, run', n - 1);
      StepAgrees(k, run, run', n - 1);
    }
  }

  lemma StepAgrees(k: Key, run: seq<Obs>, run': seq<Obs>, i: nat)
    requires i < |run| && SameButIds(run, run')
    requires OpenedAt(k, run, i) == OpenedAt(k, run', i)
    requires i == 0 ==> After(k, run, i) == After(k, run', i)
    requires i > 0 ==>
               var s := OpenedAt(k, run, i);
               EntriesAgree(After(k, run, i), After(k, run', i), run[s].newId, run'[s].newId)
    ensures EventAt(k, run, i).Some? <==> EventAt(k, run', i).Some?
    ensures EventAt(k, run, i).Some? ==>
              var s := if Emits(k, run, i, Started) then i else OpenedAt(k, run, i);
              && EventAt(k, run, i).value.incidentID == run[s].newId
              && EventAt(k, run', i).value == EventAt(k, run, i).value.(incidentID := run'[s].newId)
    ensures var s := if Emits(k, run, i, Started) then i else OpenedAt(k, run, i);
            EntriesAgree(After(k, run, i + 1), After(k, run', i + 1), run[s].newId, run'[s].newId)
  {
    hide Words.Max, GraceTicks;
  }

  /** An event of one run and its counterpart: the same but for the name of the incident, opened by one and the same
      step. */
  ghost predicate EventsAgree(ev: AttackEvent, ev': AttackEvent, k: Key, run: seq<Obs>, run': seq<Obs>)
    requires SameButIds(run, run')
  {
    && ev.(incidentID := ev'.incidentID) == ev'
    && exists s: nat :: s < |run| && Emits(k, run, s, Started) && Emits(k, run', s, Started)
         && run[s].newId == ev.incidentID && run'[s].newId == ev'.incidentID
  }

  lemma StartsAgree(k: Key, run: seq<Obs>, run': seq<Obs>, i: nat)
    requires i < |run| && SameButIds(run, run')
    ensures Emits(k, run, i, Started) <==> Emits(k, run', i, Started)
  {
    IdsDoNotMatter(k, run, run', i);
    StepAgrees(k, run, run', i);
    hide EventAt, OpenedAt, EntriesAgree, SameButIds;
  }

  lemma {:induction false} EmittedAgree(k: Key, run: seq<Obs>, run': seq<Obs>, n: nat)
    requires n <= |run| && SameButIds(run, run')
    ensures |Emitted(k, run, n)| == |Emitted(k, run', n)|
    ensures forall j :: 0 <= j < |Emitted(k, run, n)| ==>
              EventsAgree(Emitted(k, run, n)[j], Emitted(k, run', n)[j], k, run, run')
  {
    hide Step, EventsAgree;
    if n > 0 {
      EmittedAgree(k, run, run', n - 1);
      EventAgrees(k, run, run', n - 1);
    }
  }

  lemma EventAgrees(k: Key, run: seq<Obs>, run': seq<Obs>, i: nat)
    requires i < |run| && SameButIds(run, run')
    ensures EventAt(k, run, i).Some? <==> EventAt(k, run', i).Some?
    ensures EventAt(k, run, i).Some? ==>
              EventsAgree(EventAt(k, run, i).value, EventAt(k, run', i).value, k, run, run')
  {
    IdsDoNotMatter(k, run, run', i);
    StepAgrees(k, run, run', i);
    if EventAt(k, run, i).Some? {
      var s := if Emits(k, run, i, Started) then i else OpenedAt(k, run, i);
      OnlyActiveContinues(k, run, i);
      hide EventAt, OpenedAt, EntriesAgree;
      StartsAgree(k, run, run', s);
    }
  }

  lemma OnlyActiveContinues(k: Key, run: seq<Obs>, i: nat)
    requires i < |run| && EventAt(k, run, i).Some?
    ensures Emits(k, run, i, Started) || After(k, run, i).Active?
  {
  }

  // ---- Names are names -------------------------------------------------------------------------

  lemma {:induction false} NamedBelow(log: seq<Verdict>, score: Score, k: Key, s: nat, id: Id)
    requires NamedAt(log, score, k, s, id)
    ensures id < Run(log, score).nextId
    decreases |log|
  {
    var before, v := log[..|log| - 1], log[|log| - 1];
    LastOrBefore(log, score, k, s, id);
    if NamedAt(before, score, k, s, id) {
      NamedBelow(before, score, k, s, id);
    }
  }

  /** A start of the run is one of the run before its last verdict, or the last verdict's own with the next id. */
  lemma LastOrBefore(log: seq<Verdict>, score: Score, k: Key, s: nat, id: Id)
    requires NamedAt(log, score, k, s, id)
    ensures log != []
    ensures var (before, v) := (log[..|log| - 1], log[|log| - 1]);
            || NamedAt(before, score, k, s, id)
            || (k == v.key && s == |KeyRun(before, k, score)| && id == Run(before, score).nextId
                && Run(log, score).nextId == id + 1)
  {
    hide Step, InputOf;
    var before, v := log[..|log| - 1], log[|log| - 1];
    var run := KeyRun(before, k, score);
    if k == v.key {
      var sys := Run(before, score);
      var o := Obs(InputOf(v, NextStreak(sys, v), score), v.t, sys.nextId);
      RunProjects(before, k, score);
      if s < |run| {
        PrefixRuns(k, run, o, s);
      } else {
        PrefixRuns(k, run, o, |run|);
      }
    }
  }

  lemma {:induction false} NamesAreUnique(log: seq<Verdict>, score: Score, k: Key, s: nat, k': Key, s': nat, id: Id)
    requires NamedAt(log, score, k, s, id) && NamedAt(log, score, k', s', id)
    ensures k == k' && s == s'
    decreases |log|
  {
    hide NamedAt;
    LastOrBefore(log, score, k, s, id);
    LastOrBefore(log, score, k', s', id);
    var before := log[..|log| - 1];
    if NamedAt(before, score, k, s, id) {
      NamedBelow(before, score, k, s, id);
      if NamedAt(before, score, k', s', id) {
        NamesAreUnique(before, score, k, s, k', s', id);
      }
    } else if NamedAt(before, score, k', s', id) {
      NamedBelow(before, score, k', s', id);
    }
  }

  /** The correspondence of incidents is one to one. */
  lemma RenamingIsOneToOne(log: seq<Verdict>, log': seq<Verdict>, score: Score, a: Id, a': Id, b: Id, b': Id)
    requires SameIncident(log, log', score, a, a') && SameIncident(log, log', score, b, b')
    ensures a == b <==> a' == b'
  {
    var k: Key, s: nat :| NamedAt(log, score, k, s, a) && NamedAt(log', score, k, s, a');
    var l: Key, t: nat :| NamedAt(log, score, l, t, b) && NamedAt(log', score, l, t, b');
    if a == b {
      NamesAreUnique(log, score, k, s, l, t, a);
    }
    if a' == b' {
      NamesAreUnique(log', score, k, s, l, t, a');
    }
    hide *;
    assert a == b ==> k == l && s == t;
    assert a' == b' ==> k == l && s == t;
  }

  /** Runs that agree on every key's verdicts differ in nothing but the names of incidents. */
  ghost predicate Indistinguishable(log: seq<Verdict>, log': seq<Verdict>, score: Score, k: Key) {
    var (s, s') := (Run(log, score), Run(log', score));
    var (evs, evs') := (EventsOf(s.emitted, k), EventsOf(s'.emitted, k));
    && StreakOf(s, k) == StreakOf(s', k)
    && (if EntryOf(s, k).Active? then
          EntryOf(s', k).Active? && SameIncident(log, log', score, EntryOf(s, k).inc.id, EntryOf(s', k).inc.id)
          && EntryOf(s', k).inc == EntryOf(s, k).inc.(id := EntryOf(s', k).inc.id)
        else EntryOf(s', k) == EntryOf(s, k))
    && |evs| == |evs'|
    && forall i :: 0 <= i < |evs| ==>
         SameIncident(log, log', score, evs[i].incidentID, evs'[i].incidentID)
         && evs'[i] == evs[i].(incidentID := evs'[i].incidentID)
  }

  lemma ProjectionsDetermine(log: seq<Verdict>, log': seq<Verdict>, score: Score, k: Key)
    requires Project(log, k) == Project(log', k)
    ensures Indistinguishable(log, log', score, k)
  {
    var run, run' := KeyRun(log, k, score), KeyRun(log', k, score);
    KeyRunLength(log, k, score);
    KeyRunLength(log', k, score);
    forall i | 0 <= i < |run| ensures run[i].(newId := run'[i].newId) == run'[i] {
      KeyRunInputs(log, k, score, i);
      KeyRunInputs(log', k, score, i);
    }
    var n := |run|;
    StreakCountsVerdicts(log, k, score);
    StreakCountsVerdicts(log', k, score);
    RunProjects(log, k, score);
    RunProjects(log', k, score);
    hide Step, InputOf, Emits, Emitted, After, OpenedAt, KeyRun, Project, Run;
    IdsDoNotMatter(k, run, run', n);
    EmittedAgree(k, run, run', n);
    if n > 0 && After(k, run, n).Active? {
      var s := OpenedAt(k, run, n);
      StartsAgree(k, run, run', s);
      assert NamedAt(log, score, k, s, run[s].newId) && NamedAt(log', score, k, s, run'[s].newId);
    }
    var evs, evs' := EventsOf(Run(log, score).emitted, k), EventsOf(Run(log', score).emitted, k);
    forall i | 0 <= i < |evs|
      ensures SameIncident(log, log', score, evs[i].incidentID, evs'[i].incidentID)
      ensures evs'[i] == evs[i].(incidentID := evs'[i].incidentID)
    {
      assert EventsAgree(evs[i], evs'[i], k, run, run');
      var s: nat :| s < |run| && Emits(k, run, s, Started) && Emits(k, run', s, Started)
         && run[s].newId == evs[i].incidentID && run'[s].newId == evs'[i].incidentID;
      assert NamedAt(log, score, k, s, evs[i].incidentID) && NamedAt(log', score, k, s, evs'[i].incidentID);
    }
  }

  /** Whatever order each tick visits its hosts in, every key has the same streak, the same machine state and the
      same events, up to a one-to-one renaming of incidents. */
  lemma HostOrderIsInvisible(cat: seq<Threshold>, ticks: seq<EngineTick>, ticks': seq<EngineTick>, score: Score, k: Key)
    requires |ticks| == |ticks'| && forall i :: 0 <= i < |ticks| ==> SameButOrder(ticks[i], ticks'[i])
    requires forall i :: 0 <= i < |ticks| ==> Judgeable(cat, ticks[i]) && Judgeable(cat, ticks'[i])
    ensures Indistinguishable(VerdictLog(cat, ticks), VerdictLog(cat, ticks'), score, k)
  {
    OrderKeepsProjections(cat, ticks, ticks', k);
    ProjectionsDetermine(VerdictLog(cat, ticks), VerdictLog(cat, ticks'), score, k);
  }
}
