/** The detector over whole runs: verdicts in, streaks, machines and events out (detect/engine.go, detect/state.go). */
module Detection {
  import opened Options
  import opened Words
  import opened Thresholds
  import opened Lifecycle
  import opened Judgement

  /** The opaque confidence score (detect/score.go). */
  type Score = (U64, U64, Threshold, int) -> real

  /** The engine's memory, and all events it has emitted. */
  datatype Sys = Sys(streak: map<Key, nat>, entries: map<Key, Entry>, nextId: Id, emitted: seq<AttackEvent>)

  const START: Sys := Sys(map[], map[], 0, [])

  function StreakOf(s: Sys, k: Key): nat {
    if k in s.streak then s.streak[k] else 0
  }

  function EntryOf(s: Sys, k: Key): Entry {
    if k in s.entries then s.entries[k] else Idle
  }

  /** The input handed to the machine for a verdict at a given streak. */
  function InputOf(v: Verdict, streak: nat, score: Score): Input {
    Input(v.now, v.currentPps, v.currentBps, v.avgPps, v.avgBps, v.violating, streak,
          v.t.hostgroupName, score(v.avgPps, v.avgBps, v.t, streak))
  }

  function NextStreak(s: Sys, v: Verdict): nat {
    if v.violating then StreakOf(s, v.key) + 1 else 0
  }

  /** The end of evalHost: streak, input, Step. */
  function Evaluate(s: Sys, v: Verdict, score: Score): Sys {
    var n := NextStreak(s, v);
    var (e, ev) := Step(EntryOf(s, v.key), v.key, InputOf(v, n, score), v.t, s.nextId);
    Sys(s.streak[v.key := n], s.entries[v.key := e],
        if ev.Some? && ev.value.state.Started? then s.nextId + 1 else s.nextId,
        if ev.Some? then s.emitted + [ev.value] else s.emitted)
  }

  /** The engine after a sequence of verdicts, of any keys in any order. */
  function Run(log: seq<Verdict>, score: Score): Sys {
    if log == [] then START else Evaluate(Run(log[..|log| - 1], score), log[|log| - 1], score)
  }

  lemma RunStep(log: seq<Verdict>, v: Verdict, score: Score)
    ensures Run(log + [v], score) == Evaluate(Run(log, score), v, score)
  {
    assert (log + [v])[..|log|] == log;
  }

  /** An evaluation emits at most one event. */
  lemma EvaluateEmits(s: Sys, v: Verdict, score: Score)
    ensures var after := Evaluate(s, v, score).emitted;
            after == s.emitted || (after != [] && after == s.emitted + [after[|after| - 1]])
  {
    hide Step, InputOf;
  }

  // ---- Projection on one key -------------------------------------------------------------------

  function Project(log: seq<Verdict>, k: Key): seq<Verdict> {
    if log == [] then []
    else Project(log[..|log| - 1], k) + if log[|log| - 1].key == k then [log[|log| - 1]] else []
  }

  /** The length of the trailing run of violating verdicts. */
  function Trailing(log: seq<Verdict>): nat {
    if log == [] || !log[|log| - 1].violating then 0 else Trailing(log[..|log| - 1]) + 1
  }

  lemma {:induction false} TrailingIsTrailing(log: seq<Verdict>)
    ensures var n := Trailing(log);
            n <= |log| && (forall i :: |log| - n <= i < |log| ==> log[i].violating)
            && (n < |log| ==> !log[|log| - n - 1].violating)
  {
    if log != [] && log[|log| - 1].violating {
      TrailingIsTrailing(log[..|log| - 1]);
    }
  }

  /** The steps that key `k`'s machine sees in the run. */
  function KeyRun(log: seq<Verdict>, k: Key, score: Score): seq<Obs> {
    if log == [] then []
    else
      var (before, v) := (log[..|log| - 1], log[|log| - 1]);
      if v.key != k then KeyRun(before, k, score)
      else KeyRun(before, k, score)
           + [Obs(InputOf(v, NextStreak(Run(before, score), v), score), v.t, Run(before, score).nextId)]
  }

  function EventsOf(evs: seq<AttackEvent>, k: Key): seq<AttackEvent> {
    if evs == [] then []
    else EventsOf(evs[..|evs| - 1], k)
         + if Key(evs[|evs| - 1].hostIP, evs[|evs| - 1].vector) == k then [evs[|evs| - 1]] else []
  }

  lemma {:induction false} PrefixRuns(k: Key, run: seq<Obs>, o: Obs, n: nat)
    requires n <= |run|
    ensures After(k, run + [o], n) == After(k, run, n)
    ensures Emitted(k, run + [o], n) == Emitted(k, run, n)
  {
    if n > 0 {
      PrefixRuns(k, run, o, n - 1);
    }
  }

  lemma EventsOfOneMore(evs: seq<AttackEvent>, ev: AttackEvent, k: Key)
    ensures EventsOf(evs + [ev], k) == EventsOf(evs, k) + if Key(ev.hostIP, ev.vector) == k then [ev] else []
  {
    assert (evs + [ev])[..|evs|] == evs;
  }

  lemma StepNamesItsKey(e: Entry, k: Key, input: Input, t: Threshold, id: Id)
    ensures var ev := Step(e, k, input, t, id).1; ev.Some? ==> Key(ev.value.hostIP, ev.value.vector) == k
  {
  }

  /** The streak of a key is the length of the trailing run of its violating verdicts, however many other keys and
      skipped seconds lie between them. */
  lemma {:induction false} StreakCountsVerdicts(log: seq<Verdict>, k: Key, score: Score)
    ensures StreakOf(Run(log, score), k) == Trailing(Project(log, k))
  {
    hide Step, InputOf;
    if log != [] {
      var before, v := log[..|log| - 1], log[|log| - 1];
      StreakCountsVerdicts(before, k, score);
      if v.key == k {
        assert (Project(before, k) + [v])[..|Project(before, k)|] == Project(before, k);
      } else {
        assert Project(before, k) + [] == Project(before, k);
      }
    }
  }

  /** A run seen through one key is that key's machine run alone on its own verdicts. */
  lemma {:induction false} RunProjects(log: seq<Verdict>, k: Key, score: Score)
    ensures var (s, run) := (Run(log, score), KeyRun(log, k, score));
            && EntryOf(s, k) == After(k, run, |run|)
            && EventsOf(s.emitted, k) == Emitted(k, run, |run|)
  {
    hide Step, InputOf;
    if log != [] {
      var before, v := log[..|log| - 1], log[|log| - 1];
      RunProjects(before, k, score);
      var s, run := Run(before, score), KeyRun(before, k, score);
      var input := InputOf(v, NextStreak(s, v), score);
      var ev := Step(EntryOf(s, v.key), v.key, input, v.t, s.nextId).1;
      StepNamesItsKey(EntryOf(s, v.key), v.key, input, v.t, s.nextId);
      if ev.Some? {
        EventsOfOneMore(s.emitted, ev.value, k);
      }
      if v.key == k {
        PrefixRuns(k, run, Obs(input, v.t, s.nextId), |run|);
      }
    }
  }

  /** The machine is handed the verdict's own figures, the threshold's hostgroup, and the streak. */
  ghost predicate Hands(x: Input, v: Verdict, streak: nat, score: Score) {
    && x.now == v.now && x.currentPps == v.currentPps && x.currentBps == v.currentBps
    && x.avgPps == v.avgPps && x.avgBps == v.avgBps && x.violating == v.violating
    && x.durationViolated == streak && x.hostgroup == v.t.hostgroupName
    && x.confidence == score(v.avgPps, v.avgBps, v.t, streak)
  }

  lemma InputIsHanded(v: Verdict, streak: nat, score: Score)
    ensures Hands(InputOf(v, streak, score), v, streak, score)
  {
  }

  /** Step `i` of a key is its `i`-th verdict, with the streak of its verdicts up to then. */
  lemma KeyRunInputs(log: seq<Verdict>, k: Key, score: Score, i: nat)
    requires i < |Project(log, k)|
    ensures |KeyRun(log, k, score)| == |Project(log, k)|
    ensures Project(log, k)[i].key == k && KeyRun(log, k, score)[i].t == Project(log, k)[i].t
    ensures Hands(KeyRun(log, k, score)[i].input, Project(log, k)[i], Trailing(Project(log, k)[..i + 1]), score)
  {
    hide KeyRun, Project, Trailing, Hands, InputOf;
    KeyRunStep(log, k, score, i);
    InputIsHanded(Project(log, k)[i], Trailing(Project(log, k)[..i + 1]), score);
  }

  lemma {:induction false} KeyRunStep(log: seq<Verdict>, k: Key, score: Score, i: nat)
    requires i < |Project(log, k)|
    ensures |KeyRun(log, k, score)| == |Project(log, k)|
    ensures var (v, o) := (Project(log, k)[i], KeyRun(log, k, score)[i]);
            v.key == k && o.t == v.t && o.input == InputOf(v, Trailing(Project(log, k)[..i + 1]), score)
  {
    hide Step, InputOf, Evaluate;
    var before, v := log[..|log| - 1], log[|log| - 1];
    KeyRunLength(before, k, score);
    if i < |Project(before, k)| {
      KeyRunStep(before, k, score, i);
      assert Project(log, k)[..i + 1] == Project(before, k)[..i + 1];
    } else {
      StreakCountsVerdicts(before, k, score);
      assert Project(log, k)[..i + 1] == Project(before, k) + [v];
      assert (Project(before, k) + [v])[..i] == Project(before, k);
    }
  }

  lemma {:induction false} KeyRunLength(log: seq<Verdict>, k: Key, score: Score)
    ensures |KeyRun(log, k, score)| == |Project(log, k)|
  {
    if log != [] {
      KeyRunLength(log[..|log| - 1], k, score);
    }
  }

  // ---- What the catalog and the clock guarantee about a run -------------------------------------

  /** All verdicts come from one catalog. */
  ghost predicate FromCatalog(log: seq<Verdict>, cat: seq<Threshold>) {
    forall i :: 0 <= i < |log| ==>
      Some(log[i].t) == FirstFor(LookupIn(cat, log[i].key.hostIP), log[i].key.vector)
  }

  ghost predicate InOrder(log: seq<Verdict>) {
    forall i, j :: 0 <= i < j < |log| ==> log[i].now <= log[j].now
  }

  lemma {:induction false} ProjectKeeps(log: seq<Verdict>, k: Key)
    ensures forall i :: 0 <= i < |Project(log, k)| ==> Project(log, k)[i] in log && Project(log, k)[i].key == k
    ensures InOrder(log) ==> InOrder(Project(log, k))
  {
    if log != [] {
      var n := |log| - 1;
      ProjectKeeps(log[..n], k);
      assert log == log[..n] + [log[n]];
    }
  }

  /** In an engine run every key has one threshold, time does not go back, and a start needs a long enough streak. */
  lemma {:induction false} KeyRunIsRegular(log: seq<Verdict>, k: Key, score: Score, cat: seq<Threshold>)
    requires FromCatalog(log, cat) && InOrder(log)
    ensures Monotone(KeyRun(log, k, score))
    ensures KeyRun(log, k, score) != [] ==>
              FirstFor(LookupIn(cat, k.hostIP), k.vector).Some? &&
              FixedThreshold(KeyRun(log, k, score), FirstFor(LookupIn(cat, k.hostIP), k.vector).value)
  {
    hide LookupIn, Step;
    ProjectKeeps(log, k);
    KeyRunLength(log, k, score);
    var run := KeyRun(log, k, score);
    forall i | 0 <= i < |run|
      ensures run[i].input.now == Project(log, k)[i].now
      ensures Some(run[i].t) == FirstFor(LookupIn(cat, k.hostIP), k.vector)
    {
      KeyRunInputs(log, k, score, i);
      assert Project(log, k)[i] in log && Project(log, k)[i].key == k;
    }
    if run != [] {
      assert Some(run[0].t) == FirstFor(LookupIn(cat, k.hostIP), k.vector);
    }
  }

  /** An incident is opened exactly by a rested key whose streak of violating verdicts reaches MinWindowSec. */
  lemma StartNeedsStreak(log: seq<Verdict>, k: Key, score: Score, i: nat)
    requires i < |Project(log, k)|
    ensures |KeyRun(log, k, score)| == |Project(log, k)|
    ensures Emits(k, KeyRun(log, k, score), i, Started) <==>
              && Rested(k, KeyRun(log, k, score), i)
              && Project(log, k)[i].violating
              && Trailing(Project(log, k)[..i + 1]) >= Project(log, k)[i].t.minWindowSec
  {
    KeyRunInputs(log, k, score, i);
    StartedExactly(k, KeyRun(log, k, score), i);
    hide Emits;
  }
}
