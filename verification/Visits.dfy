/** Engine runs as they really interleave: evaluations of hosts between updates and ticks of the counters. */
module Visits {
  import opened Options
  import opened Net
  import opened Traffic
  import opened Window
  import opened Thresholds
  import opened Lifecycle
  import opened Judgement
  import opened Detection
  import opened HostOrder

  /** One call of evalHost, made when the store had seen the first `seen` operations of its history. */
  datatype Visit = Visit(ip: Addr, sec: int, now: int, seen: nat)

  ghost predicate Visitable(cat: seq<Threshold>, history: seq<Op>, visits: seq<Visit>) {
    && (forall ip :: PositiveWindows(LookupIn(cat, ip)))
    && forall i :: 0 <= i < |visits| ==> visits[i].seen <= |history|
  }

  /** The verdicts the engine reaches, from the counters at the moment of each visit. */
  function VerdictsOf(cat: seq<Threshold>, history: seq<Op>, visits: seq<Visit>): seq<Verdict>
    requires Visitable(cat, history, visits)
  {
    if visits == [] then []
    else
      var last := visits[|visits| - 1];
      var v := Judge(cat, Replay(history[..last.seen]), last.ip, last.sec, last.now);
      VerdictsOf(cat, history, visits[..|visits| - 1]) + if v.Some? then [v.value] else []
  }

  /** The same from the raw flow log. */
  function LogVerdicts(cat: seq<Threshold>, history: seq<Op>, visits: seq<Visit>): seq<Verdict>
    requires Visitable(cat, history, visits)
  {
    if visits == [] then []
    else
      var last := visits[|visits| - 1];
      var v := JudgeLog(cat, history[..last.seen], last.ip, last.sec, last.now);
      LogVerdicts(cat, history, visits[..|visits| - 1]) + if v.Some? then [v.value] else []
  }

  lemma {:induction false} LaterHistory(cat: seq<Threshold>, history: seq<Op>, more: seq<Op>, visits: seq<Visit>)
    requires Visitable(cat, history, visits)
    ensures Visitable(cat, history + more, visits)
    ensures VerdictsOf(cat, history + more, visits) == VerdictsOf(cat, history, visits)
  {
    hide Judge, LookupIn;
    if visits != [] {
      LaterHistory(cat, history, more, visits[..|visits| - 1]);
      var n := visits[|visits| - 1].seen;
      assert (history + more)[..n] == history[..n];
    }
  }

  /** One more evaluation adds its verdict, if it reaches one. */
  lemma OneVisit(cat: seq<Threshold>, history: seq<Op>, visits: seq<Visit>, visit: Visit)
    requires Visitable(cat, history, visits) && visit.seen <= |history|
    ensures Visitable(cat, history, visits + [visit])
    ensures var v := Judge(cat, Replay(history[..visit.seen]), visit.ip, visit.sec, visit.now);
            VerdictsOf(cat, history, visits + [visit])
            == VerdictsOf(cat, history, visits) + if v.Some? then [v.value] else []
  {
    hide Judge, LookupIn, Replay;
    assert (visits + [visit])[..|visits|] == visits;
  }

  lemma OneHost(cat: seq<Threshold>, tick: EngineTick, hosts: seq<Addr>, ip: Addr)
    requires Judgeable(cat, tick)
    ensures var v := Judge(cat, tick.table, ip, tick.sec, tick.now);
            VerdictsFor(cat, tick, hosts + [ip]) == VerdictsFor(cat, tick, hosts) + if v.Some? then [v.value] else []
  {
    hide Judge, LookupIn;
    assert (hosts + [ip])[..|hosts|] == hosts;
  }

  /** The evaluations of one tick, in the order `hosts`. */
  function TickVisits(hosts: seq<Addr>, sec: int, now: int, seen: nat): seq<Visit> {
    seq(|hosts|, i requires 0 <= i < |hosts| => Visit(hosts[i], sec, now, seen))
  }

  /** The counters of the moment, as a tick finds them. */
  function TickAt(history: seq<Op>, sec: int, now: int, seen: nat, hosts: seq<Addr>): EngineTick
    requires seen <= |history|
  {
    EngineTick(Replay(history[..seen]), sec, now, hosts)
  }

  /** An undisturbed tick reaches the verdicts of an EngineTick on the counters as they stand. */
  lemma {:induction false} TickVerdicts(cat: seq<Threshold>, history: seq<Op>, visits: seq<Visit>, hosts: seq<Addr>,
                                        sec: int, now: int, seen: nat)
    requires Visitable(cat, history, visits) && seen <= |history|
    ensures var tick := TickAt(history, sec, now, seen, hosts);
            var more := visits + TickVisits(hosts, sec, now, seen);
            && Judgeable(cat, tick) && Visitable(cat, history, more)
            && VerdictsOf(cat, history, more) == VerdictsOf(cat, history, visits) + VerdictsFor(cat, tick, hosts)
    decreases |hosts|
  {
    hide Judge, LookupIn, PositiveWindows, Replay, VerdictsOf;
    if hosts == [] {
      assert visits + TickVisits(hosts, sec, now, seen) == visits;
    } else {
      hide VerdictsFor, Visitable, Judgeable;
      var n := |hosts| - 1;
      var fewer, ip := hosts[..n], hosts[n];
      var tick := TickAt(history, sec, now, seen, hosts);
      var before := visits + TickVisits(fewer, sec, now, seen);
      TickVerdicts(cat, history, visits, fewer, sec, now, seen);
      SameCounters(cat, TickAt(history, sec, now, seen, fewer), tick, fewer);
      OneVisit(cat, history, before, Visit(ip, sec, now, seen));
      OneHost(cat, tick, fewer, ip);
      assert fewer + [ip] == hosts;
      assert before + [Visit(ip, sec, now, seen)] == visits + TickVisits(hosts, sec, now, seen);
    }
  }

  lemma {:induction false} SameCounters(cat: seq<Threshold>, a: EngineTick, b: EngineTick, hosts: seq<Addr>)
    requires Judgeable(cat, a) && a.(hosts := b.hosts) == b
    ensures Judgeable(cat, b) && VerdictsFor(cat, a, hosts) == VerdictsFor(cat, b, hosts)
  {
    hide Judge, LookupIn;
    if hosts != [] {
      SameCounters(cat, a, b, hosts[..|hosts| - 1]);
    }
  }

  // ---- Order does not matter -----------------------------------------------------------------------

  /** The evaluations of one host. */
  function HostVisits(visits: seq<Visit>, ip: Addr): seq<Visit> {
    if visits == [] then []
    else HostVisits(visits[..|visits| - 1], ip) + if visits[|visits| - 1].ip == ip then [visits[|visits| - 1]] else []
  }

  /** The verdicts on a key are those of its host's evaluations. */
  lemma {:induction false} HostDecidesKey(cat: seq<Threshold>, history: seq<Op>, visits: seq<Visit>, k: Key)
    requires Visitable(cat, history, visits)
    ensures var own := HostVisits(visits, k.hostIP);
            && Visitable(cat, history, own)
            && Project(VerdictsOf(cat, history, visits), k) == Project(VerdictsOf(cat, history, own), k)
  {
    hide Judge, LookupIn, Replay, Project, VerdictsOf;
    if visits != [] {
      var n := |visits| - 1;
      var before, visit := visits[..n], visits[n];
      HostDecidesKey(cat, history, before, k);
      var own := HostVisits(before, k.hostIP);
      var v := Judge(cat, Replay(history[..visit.seen]), visit.ip, visit.sec, visit.now);
      var found := if v.Some? then [v.value] else [];
      assert visits == before + [visit];
      OneVisit(cat, history, before, visit);
      ProjectConcat(VerdictsOf(cat, history, before), found, k);
      if visit.ip == k.hostIP {
        OneVisit(cat, history, own, visit);
        ProjectConcat(VerdictsOf(cat, history, own), found, k);
      } else {
        JudgeNamesItsHost(cat, Replay(history[..visit.seen]), visit.ip, visit.sec, visit.now);
        ProjectOther(found, k);
        assert own + [] == own;
      }
    }
  }

  lemma ProjectOther(found: seq<Verdict>, k: Key)
    requires |found| <= 1 && forall i :: 0 <= i < |found| ==> found[i].key != k
    ensures Project(found, k) == []
  {
    if found != [] {
      assert found[..0] == [];
    }
  }

  /** Two engine runs over one history that evaluate the key's host at the same moments, whatever other hosts they
      evaluate in between and in whatever order, give the key the same streak, machine state and events, up to the
      one-to-one renaming of incidents. */
  lemma VisitOrderIsInvisible(cat: seq<Threshold>, history: seq<Op>, visits: seq<Visit>, visits': seq<Visit>,
                              score: Score, k: Key)
    requires Visitable(cat, history, visits) && Visitable(cat, history, visits')
    requires HostVisits(visits, k.hostIP) == HostVisits(visits', k.hostIP)
    ensures Indistinguishable(VerdictsOf(cat, history, visits), VerdictsOf(cat, history, visits'), score, k)
  {
    hide VerdictsOf, Visitable, Project, Indistinguishable, HostVisits;
    HostDecidesKey(cat, history, visits, k);
    HostDecidesKey(cat, history, visits', k);
    ProjectionsDetermine(VerdictsOf(cat, history, visits), VerdictsOf(cat, history, visits'), score, k);
  }

  // ---- Ticks in another order ----------------------------------------------------------------------

  /** One undisturbed tick of a run: the hosts in their order, the time, and the operations the store had seen. */
  datatype TickRun = TickRun(hosts: seq<Addr>, sec: int, now: int, seen: nat)

  function AllVisits(ticks: seq<TickRun>): seq<Visit> {
    if ticks == [] then []
    else var t := ticks[|ticks| - 1]; AllVisits(ticks[..|ticks| - 1]) + TickVisits(t.hosts, t.sec, t.now, t.seen)
  }

  /** The two ticks visit the same hosts, each once, at the same time and on the same counters. */
  ghost predicate Reordered(a: TickRun, b: TickRun) {
    && a.(hosts := b.hosts) == b
    && (forall ip :: ip in a.hosts <==> ip in b.hosts)
    && Distinct(a.hosts) && Distinct(b.hosts)
  }

  ghost predicate Distinct(hosts: seq<Addr>) {
    forall i, j :: 0 <= i < j < |hosts| ==> hosts[i] != hosts[j]
  }

  function EngineTicks(history: seq<Op>, ticks: seq<TickRun>): (ts: seq<EngineTick>)
    requires forall i :: 0 <= i < |ticks| ==> ticks[i].seen <= |history|
    ensures |ts| == |ticks|
    ensures forall i :: 0 <= i < |ts| ==>
              ts[i] == TickAt(history, ticks[i].sec, ticks[i].now, ticks[i].seen, ticks[i].hosts)
  {
    if ticks == [] then []
    else
      var t := ticks[|ticks| - 1];
      EngineTicks(history, ticks[..|ticks| - 1]) + [TickAt(history, t.sec, t.now, t.seen, t.hosts)]
  }

  /** A run of undisturbed ticks reaches the verdicts of its EngineTicks. */
  lemma {:induction false} TicksReachVerdicts(cat: seq<Threshold>, history: seq<Op>, ticks: seq<TickRun>)
    requires (forall ip :: PositiveWindows(LookupIn(cat, ip)))
    requires forall i :: 0 <= i < |ticks| ==> ticks[i].seen <= |history|
    ensures Visitable(cat, history, AllVisits(ticks))
    ensures forall i :: 0 <= i < |ticks| ==> Judgeable(cat, EngineTicks(history, ticks)[i])
    ensures VerdictsOf(cat, history, AllVisits(ticks)) == VerdictLog(cat, EngineTicks(history, ticks))
  {
    hide Judge, LookupIn, PositiveWindows, Replay, VerdictsFor, TickVisits;
    if ticks != [] {
      var n := |ticks| - 1;
      var t := ticks[n];
      TicksReachVerdicts(cat, history, ticks[..n]);
      TickVerdicts(cat, history, AllVisits(ticks[..n]), t.hosts, t.sec, t.now, t.seen);
      hide VerdictsOf;
      assert EngineTicks(history, ticks)[..n] == EngineTicks(history, ticks[..n]);
    }
  }

  /** Two engine runs over one history that differ only in the order in which their ticks visit the hosts are
      indistinguishable for every key, up to the one-to-one renaming of incidents. */
  lemma TickOrderIsInvisible(cat: seq<Threshold>, history: seq<Op>, ticks: seq<TickRun>, ticks': seq<TickRun>,
                             score: Score, k: Key)
    requires forall ip :: PositiveWindows(LookupIn(cat, ip))
    requires |ticks| == |ticks'|
    requires forall i :: 0 <= i < |ticks| ==> ticks[i].seen <= |history| && Reordered(ticks[i], ticks'[i])
    ensures Visitable(cat, history, AllVisits(ticks)) && Visitable(cat, history, AllVisits(ticks'))
    ensures Indistinguishable(VerdictsOf(cat, history, AllVisits(ticks)), VerdictsOf(cat, history, AllVisits(ticks')),
                              score, k)
  {
    hide Judge, LookupIn, PositiveWindows, Replay, VerdictLog, AllVisits, Indistinguishable, VerdictsOf, Judgeable,
      Visitable;
    TicksReachVerdicts(cat, history, ticks);
    TicksReachVerdicts(cat, history, ticks');
    HostOrderIsInvisible(cat, EngineTicks(history, ticks), EngineTicks(history, ticks'), score, k);
  }

  // ---- Whole runs ------------------------------------------------------------------------------

  /** Every visit is made in the second of the latest tick, on a disciplined history. */
  ghost predicate OnTime(t0: int, history: seq<Op>, visits: seq<Visit>) {
    && (forall i :: 0 <= i < |visits| ==>
          visits[i].seen <= |history| && Disciplined(t0, history[..visits[i].seen])
          && visits[i].sec == Clock(t0, history[..visits[i].seen]))
    && (forall i, j :: 0 <= i < j < |visits| ==> visits[i].now <= visits[j].now)
  }

  /** End to end: the verdicts of a whole disciplined run are those of the raw flow log. */
  lemma {:induction false} VerdictsReadTheLog(cat: seq<Threshold>, t0: int, history: seq<Op>, visits: seq<Visit>)
    requires Visitable(cat, history, visits) && OnTime(t0, history, visits)
    ensures VerdictsOf(cat, history, visits) == LogVerdicts(cat, history, visits)
  {
    hide Judge, JudgeLog, LookupIn;
    if visits != [] {
      var n := |visits| - 1;
      VerdictsReadTheLog(cat, t0, history, visits[..n]);
      var last := visits[n];
      JudgesTheLog(cat, t0, history[..last.seen], last.ip, last.now);
    }
  }

  lemma JudgeNamesItsThreshold(cat: seq<Threshold>, table: Table, ip: Addr, sec: int, now: int)
    requires ValidTable(table) && PositiveWindows(LookupIn(cat, ip))
    ensures var v := Judge(cat, table, ip, sec, now);
            v.Some? ==>
              && v.value.now == now
              && Some(v.value.t) == FirstFor(LookupIn(cat, v.value.key.hostIP), v.value.key.vector)
  {
    hide LookupIn, SnapshotOf, Dominating, Width;
    var ts := LookupIn(cat, ip);
    var buckets := SnapshotOf(table, ip, sec, Width(ts));
    var vec := Dominating(Total(buckets));
    if vec.Some? {
      FirstForMembers(ts, vec.value);
    }
  }

  lemma {:induction false} VerdictsAreRegular(cat: seq<Threshold>, history: seq<Op>, visits: seq<Visit>)
    requires Visitable(cat, history, visits)
    requires forall i, j :: 0 <= i < j < |visits| ==> visits[i].now <= visits[j].now
    ensures var log := VerdictsOf(cat, history, visits);
            FromCatalog(log, cat) && InOrder(log)
            && (visits != [] ==> forall i :: 0 <= i < |log| ==> log[i].now <= visits[|visits| - 1].now)
  {
    hide Judge, LookupIn, FirstFor, Replay, PositiveWindows;
    if visits != [] {
      var n := |visits| - 1;
      VerdictsAreRegular(cat, history, visits[..n]);
      var last := visits[n];
      JudgeNamesItsThreshold(cat, Replay(history[..last.seen]), last.ip, last.sec, last.now);
    }
  }

  /** Every engine run with non-decreasing time gives every key a stream (started updated? ended)* with an optional
      unfinished tail, restarts only after the cooldown, and a machine state that agrees with the stream. */
  lemma EveryKeysStream(cat: seq<Threshold>, history: seq<Op>, visits: seq<Visit>, score: Score, k: Key)
    requires Visitable(cat, history, visits)
    requires forall i, j :: 0 <= i < j < |visits| ==> visits[i].now <= visits[j].now
    ensures var s := Run(VerdictsOf(cat, history, visits), score);
            var evs := EventsOf(s.emitted, k);
            if EntryOf(s, k).Active? then Open(evs, EntryOf(s, k).inc.id, EntryOf(s, k).inc.startedAt)
            else Complete(evs)
  {
    hide EntryOf, EventsOf, LookupIn, Run, VerdictsOf;
    var log := VerdictsOf(cat, history, visits);
    VerdictsAreRegular(cat, history, visits);
    KeyRunIsRegular(log, k, score, cat);
    RunProjects(log, k, score);
    StreamShape(k, KeyRun(log, k, score), |KeyRun(log, k, score)|);
  }
}
