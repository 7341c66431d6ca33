/** The 1 Hz detection engine (detect/engine.go): store, catalog, machines, streaks and the outgoing channel. */
module Engine {
  import opened Options
  import opened Words
  import opened Net
  import opened Traffic
  import opened Window
  import opened Hosts
  import opened Channels
  import Bus
  import S = Store
  import opened Thresholds
  import opened Lifecycle
  import M = StateMachine
  import opened Judgement
  import opened Detection
  import opened Visits

  class Engine {
    const store: S.Store
    const catalog: Catalog
    const out: Channel<AttackEvent>
    const sm: M.StateMachine
    const score: Score
    var streak: map<Key, nat>
    var dropped: nat
    /** Every evaluation so far, the verdicts they reached, and all events emitted, whether or not they fitted
        into the channel. */
    ghost var visits: seq<Visit>
    ghost var verdicts: seq<Verdict>
    ghost var emitted: seq<AttackEvent>

    ghost predicate Apart()
      reads this, store, sm
    {
      && store in store.repr && sm in sm.repr
      && store.repr !! sm.repr
      && {this, out, catalog.entries} !! store.repr + sm.repr
    }

    ghost predicate Parts()
      reads this, store, store.repr, catalog.entries, out, sm, sm.repr
    {
      && Apart()
      && store.Valid() && catalog.Valid() && out.Valid() && sm.Valid() && !out.closed
      && PositiveWindows(catalog.entries[..])
    }

    ghost function Abs(): Sys
      requires sm.Valid()
      reads this, sm, sm.repr
    {
      Sys(streak, sm.Entries(), sm.rnd.next, emitted)
    }

    /** The outgoing channel, with everything emitted as what was offered to it. */
    ghost function Outlet(): Bus.Sub<AttackEvent>
      reads this, out
    {
      Bus.Sub(out.capacity, out.buffer, out.received, emitted, dropped)
    }

    ghost predicate Valid()
      reads this, store, store.repr, catalog.entries, out, sm, sm.repr
    {
      && Parts()
      && Abs() == Run(verdicts, score)
      && Visitable(catalog.entries[..], store.history, visits)
      && verdicts == VerdictsOf(catalog.entries[..], store.history, visits)
      && Bus.Faithful(Outlet())
    }

    constructor (store: S.Store, catalog: Catalog, out: Channel<AttackEvent>, score: Score)
      requires store.Valid() && catalog.Valid() && out.Valid() && !out.closed && out.sent == []
      requires {out, catalog.entries} !! store.repr
      requires PositiveWindows(catalog.entries[..])
      ensures Valid() && this.store == store && this.catalog == catalog && this.out == out && this.score == score
      ensures visits == [] && emitted == [] && fresh(sm.repr) && Apart()
      ensures Abs() == START && Outlet() == Bus.Joined(out.capacity)
    {
      this.store, this.catalog, this.out, this.score := store, catalog, out, score;
      sm := new M.StateMachine();
      streak, dropped := map[], 0;
      visits, verdicts, emitted := [], [], [];
      new;
      AllLookupsKeepWindows(catalog.entries[..]);
      SubsequenceEmpty<AttackEvent>([]);
    }

    /** The part of evalHost that only reads: everything up to the verdict. */
    method Observe(ip: Addr, sec: int, now: int) returns (v: Option<Verdict>)
      requires store.Valid() && catalog.Valid() && PositiveWindows(LookupIn(catalog.entries[..], ip))
      ensures v == Judge(catalog.entries[..], store.contents, ip, sec, now)
    {
      hide Dominating, Total, LookupIn, SnapshotOf, Width, Decide;
      var thresholds := catalog.Lookup(ip);
      if |thresholds| == 0 {
        return None;
      }
      var maxWindow := Widest(thresholds);
      var buckets := store.Snapshot(ip, sec, maxWindow);
      ClampedWindow(store.contents, ip, sec, maxWindow);
      if |buckets| == 0 {
        return None;
      }
      var vec := Classify(buckets);
      if vec.None? {
        return None;
      }
      var found := catalog.LookupByVector(ip, vec.value);
      if found.None? {
        return None;
      }
      WindowFits(thresholds, vec.value);
      FirstForMembers(thresholds, vec.value);
      var decided := Average(ip, found.value, buckets, now);
      return Some(decided);
    }

    method Widest(thresholds: seq<Threshold>) returns (maxWindow: int)
      ensures Width(thresholds) == if maxWindow > WINDOW_SIZE then WINDOW_SIZE else maxWindow
    {
      maxWindow := 0;
      for i := 0 to |thresholds|
        invariant maxWindow == MaxWindow(thresholds[..i])
      {
        assert thresholds[..i + 1][..i] == thresholds[..i];
        if thresholds[i].minWindowSec > maxWindow {
          maxWindow := thresholds[i].minWindowSec;
        }
      }
      assert thresholds[..|thresholds|] == thresholds;
      if maxWindow < 1 {
        maxWindow := 5;
      }
    }

    /** The averages over the threshold's own window, and the verdict. */
    method Average(ip: Addr, t: Threshold, buckets: seq<Bucket>, now: int) returns (v: Verdict)
      requires buckets != [] && t.minWindowSec > 0
      ensures var n := Min(t.minWindowSec, |buckets|);
              v == Decide(ip, t, n, now, Total(buckets[..n]), buckets[0])
    {
      hide Total, Mean;
      var n := t.minWindowSec;
      if n > |buckets| {
        n := |buckets|;
      }
      var sumPps, sumBps := Sums(buckets, n);
      var avgPps, avgBps := Mean(sumPps, n), Mean(sumBps, n);
      var violating := avgPps > t.pps || avgBps > t.bps;
      v := Verdict(Key(ip, t.vector), t, now, buckets[0].pps, buckets[0].bps, avgPps, avgBps, violating);
    }

    method EvalHost(ip: Addr, sec: int, now: int)
      requires Valid()
      modifies this, sm.repr, out
      ensures Valid() && fresh(sm.repr - old(sm.repr))
      ensures visits == old(visits) + [Visit(ip, sec, now, |store.history|)]
      ensures var v := Judge(catalog.entries[..], Replay(store.history), ip, sec, now);
              && Abs() == (if v.Some? then Evaluate(old(Abs()), v.value, score) else old(Abs()))
              && Outlet() == Bus.OfferNew(old(Outlet()), old(Abs()).emitted, Abs().emitted)
    {
      hide Run, Judge, LookupIn, VerdictsOf, Bus.Faithful, Bus.Offer, Evaluate, Replay, PositiveWindows, Catalog.Valid;
      LookupKeepsWindows(catalog.entries[..], ip);
      var v := Observe(ip, sec, now);
      OneVisit(catalog.entries[..], store.history, visits, Visit(ip, sec, now, |store.history|));
      assert store.history[..|store.history|] == store.history;
      visits := visits + [Visit(ip, sec, now, |store.history|)];
      if v.Some? {
        RunStep(verdicts, v.value, score);
        Act(v.value);
      }
    }

    /** What the engine relies on is kept when the store alone moves on. */
    twostate lemma StoreMovedOn(more: seq<Op>)
      requires old(Valid()) && store.Valid() && store.history == old(store.history) + more
      requires fresh(store.repr - old(store.repr))
      requires unchanged(this) && unchanged(out) && unchanged(catalog.entries) && unchanged(sm) && unchanged(sm.repr)
      ensures Valid()
    {
      hide Run, LookupIn, VerdictsOf, Bus.Faithful, Visitable;
      assert catalog.entries[..] == old(catalog.entries[..]);
      LaterHistory(catalog.entries[..], old(store.history), more, visits);
    }

    /** The same when the bus has taken one event from the channel. */
    twostate lemma ChannelRead()
      requires old(Valid()) && out.Valid() && !out.closed && old(out.buffer) != []
      requires out.buffer == old(out.buffer)[1..] && out.received == old(out.received) + [old(out.buffer)[0]]
      requires unchanged(this) && unchanged(store) && unchanged(store.repr) && unchanged(sm) && unchanged(sm.repr)
      requires unchanged(catalog.entries)
      ensures Valid() && Abs() == old(Abs()) && Outlet() == Bus.Read(old(Outlet()))
    {
      hide Run, LookupIn, VerdictsOf, Bus.Faithful, Visitable;
      assert catalog.entries[..] == old(catalog.entries[..]);
      Bus.ReadIsFaithful(old(Outlet()));
    }

    /** The ingest writer adds one record to the store the engine reads. */
    method Ingest(ip: Addr, sec: int, r: Traffic.Record)
      requires Valid()
      modifies store.repr
      ensures Valid() && fresh(store.repr - old(store.repr))
      ensures store.history == old(store.history) + [Op.Update(ip, sec, r)]
      ensures visits == old(visits) && Abs() == old(Abs()) && Outlet() == old(Outlet())
    {
      hide Run, LookupIn, VerdictsOf, Bus.Faithful, Visitable;
      store.Update(ip, sec, r);
      StoreMovedOn([Op.Update(ip, sec, r)]);
    }

    method SlideWindow(sec: int)
      requires Valid()
      modifies store.repr
      ensures Valid() && store.repr == old(store.repr)
      ensures store.history == old(store.history) + [Op.Tick(sec)]
      ensures visits == old(visits) && Abs() == old(Abs()) && Outlet() == old(Outlet())
    {
      hide Run, LookupIn, VerdictsOf, Bus.Faithful, Visitable;
      store.Tick(sec);
      StoreMovedOn([Op.Tick(sec)]);
    }

    /** One tick: the window slides, then every active host is evaluated once, in whatever order it is listed. */
    method Tick(now: int) returns (ghost order: seq<Addr>)
      requires Valid()
      modifies this, store.repr, sm.repr, out
      ensures Valid() && store.repr == old(store.repr) && fresh(sm.repr - old(sm.repr))
      ensures store.history == old(store.history) + [Op.Tick(now / SECOND)]
      ensures Enumerates(order, store.contents.Keys)
      ensures visits == old(visits) + TickVisits(order, now / SECOND, now, |store.history|)
    {
      hide Run, LookupIn, VerdictsOf, Bus.Faithful, Visitable, Enumerates;
      var sec := now / SECOND;
      SlideWindow(sec);
      var hosts := ActiveHosts(sec);
      order := S.Addrs(hosts);
      EvalHosts(hosts, sec, now);
    }

    method EvalHosts(hosts: seq<S.HostInfo>, sec: int, now: int)
      requires Valid()
      modifies this, sm.repr, out
      ensures Valid() && fresh(sm.repr - old(sm.repr))
      ensures visits == old(visits) + TickVisits(S.Addrs(hosts), sec, now, |store.history|)
    {
      hide Run, LookupIn, VerdictsOf, Bus.Faithful, Visitable;
      ghost var ips := S.Addrs(hosts);
      ghost var n := |store.history|;
      for i := 0 to |hosts|
        invariant Valid() && fresh(sm.repr - old(sm.repr))
        invariant visits == old(visits) + TickVisits(ips[..i], sec, now, n)
      {
        EvalHost(hosts[i].ip, sec, now);
        assert TickVisits(ips[..i + 1], sec, now, n)
            == TickVisits(ips[..i], sec, now, n) + [Visit(ips[i], sec, now, n)];
      }
      assert ips[..|hosts|] == ips;
    }

    method ActiveHosts(sec: int) returns (hosts: seq<S.HostInfo>)
      requires Valid()
      requires store.history != [] && store.history[|store.history| - 1] == Op.Tick(sec)
      ensures Enumerates(S.Addrs(hosts), store.contents.Keys)
    {
      hide Run, VerdictsOf, Bus.Faithful, Visitable;
      hosts := store.ActiveHosts(sec);
      EveryoneIsLive(store.history, sec);
    }

    /** The part of evalHost after the verdict: streak, input, Step and the non-blocking send. */
    method Act(v: Verdict)
      requires Parts() && Bus.Faithful(Outlet())
      modifies this, sm.repr, out
      ensures Parts() && fresh(sm.repr - old(sm.repr)) && Bus.Faithful(Outlet())
      ensures Abs() == Evaluate(old(Abs()), v, score)
      ensures Outlet() == Bus.OfferNew(old(Outlet()), old(emitted), emitted)
      ensures verdicts == old(verdicts) + [v] && visits == old(visits)
    {
      hide Evaluate, Bus.Faithful, Bus.Offer, M.StateMachine.Entries;
      var ev := Advance(v);
      if ev.Some? {
        Send(ev.value);
      }
      PartsKept();
      hide *;
    }

    /** The machines and the channel may change; the store and the catalog are then still what they were. */
    twostate lemma PartsKept()
      requires old(Parts()) && sm.Valid() && out.Valid() && !out.closed
      requires fresh(sm.repr - old(sm.repr)) && unchanged(store) && unchanged(store.repr)
      requires unchanged(catalog.entries)
      ensures Parts()
    {
      assert store.Valid();
      assert catalog.entries[..] == old(catalog.entries[..]);
      assert catalog.Valid();
      assert store.repr !! sm.repr;
      assert {this, out, catalog.entries} !! sm.repr;
    }

    /** Streak and machine, without the send. */
    method Advance(v: Verdict) returns (ev: Option<AttackEvent>)
      requires this !in sm.repr && sm.Valid()
      modifies this, sm.repr
      ensures this !in sm.repr && sm.Valid() && fresh(sm.repr - old(sm.repr))
      ensures Abs() == Evaluate(old(Abs()), v, score)
      ensures verdicts == old(verdicts) + [v] && dropped == old(dropped) && visits == old(visits)
      ensures emitted == if ev.Some? then old(emitted) + [ev.value] else old(emitted)
    {
      hide Step, InputOf, Evaluate, M.StateMachine.Valid;
      ghost var s := Abs();
      EvaluateIs(s, v, score);
      var k := v.key;
      var n: nat := if k in streak then streak[k] else 0;
      n := if v.violating then n + 1 else 0;
      streak := streak[k := n];
      assert sm.Valid() && sm.Entries() == s.entries;
      var input := Input(v.now, v.currentPps, v.currentBps, v.avgPps, v.avgBps, v.violating, n,
                         v.t.hostgroupName, score(v.avgPps, v.avgBps, v.t, n));
      ev := sm.Step(k, input, v.t);
      verdicts := verdicts + [v];
      emitted := if ev.Some? then emitted + [ev.value] else emitted;
    }

    /** `select { case e.out <- *ev: default: e.dropped.Add(1) }`. */
    method Send(ev: AttackEvent)
      requires out.Valid() && !out.closed && emitted != [] && emitted[|emitted| - 1] == ev
      requires Bus.Faithful(Outlet().(offered := emitted[..|emitted| - 1]))
      modifies `dropped, out
      ensures out.Valid() && !out.closed && Bus.Faithful(Outlet())
      ensures Outlet() == Bus.Offer(old(Outlet()).(offered := emitted[..|emitted| - 1]), ev)
      ensures dropped == old(dropped) + if |old(out.buffer)| < out.capacity then 0 else 1
    {
      ghost var before := emitted[..|emitted| - 1];
      assert emitted == before + [ev];
      Bus.OfferIsFaithful(Outlet().(offered := before), ev);
      hide Bus.Faithful;
      var ok := out.TrySend(ev);
      if !ok {
        dropped := dropped + 1;
      }
    }

    method Sums(buckets: seq<Bucket>, n: nat) returns (sumPps: U64, sumBps: U64)
      requires n <= |buckets|
      ensures sumPps == Total(buckets[..n]).pps && sumBps == Total(buckets[..n]).bps
    {
      hide Add;
      sumPps, sumBps := 0, 0;
      for i := 0 to n
        invariant sumPps == Total(buckets[..i]).pps && sumBps == Total(buckets[..i]).bps
      {
        assert buckets[..i + 1][..i] == buckets[..i];
        sumPps := Add(sumPps, buckets[i].pps);
        sumBps := Add(sumBps, buckets[i].bps);
      }
    }
  }

  /** A snapshot window beyond the ring is the full ring. */
  lemma ClampedWindow(t: Table, ip: Addr, now: int, window: int)
    requires ValidTable(t)
    ensures SnapshotOf(t, ip, now, window)
         == SnapshotOf(t, ip, now, if window > WINDOW_SIZE then WINDOW_SIZE else window)
  {
    hide Slot;
  }

  /** Right after a tick every remaining host is live: the tick evicts exactly the others. */
  lemma EveryoneIsLive(history: seq<Op>, sec: int)
    requires history != [] && history[|history| - 1] == Op.Tick(sec)
    ensures LiveHosts(Replay(history), sec) == Replay(history).Keys
  {
    hide Slot;
  }

  /** The end of evalHost in one piece. */
  lemma EvaluateIs(s: Sys, v: Verdict, score: Score)
    ensures var n: nat := if v.violating then (if v.key in s.streak then s.streak[v.key] else 0) + 1 else 0;
            var input := Input(v.now, v.currentPps, v.currentBps, v.avgPps, v.avgBps, v.violating, n,
                               v.t.hostgroupName, score(v.avgPps, v.avgBps, v.t, n));
            var r := Step(if v.key in s.entries then s.entries[v.key] else Idle, v.key, input, v.t, s.nextId);
            Evaluate(s, v, score) ==
              Sys(s.streak[v.key := n], s.entries[v.key := r.0],
                  s.nextId + if r.1.Some? && r.1.value.state.Started? then 1 else 0,
                  if r.1.Some? then s.emitted + [r.1.value] else s.emitted)
  {
    hide Step;
  }

  lemma LookupKeepsWindows(cat: seq<Threshold>, ip: Addr)
    requires PositiveWindows(cat)
    ensures PositiveWindows(LookupIn(cat, ip))
  {
    MatchingMembers(cat, ip, BestBits(cat, ip));
  }

  lemma AllLookupsKeepWindows(cat: seq<Threshold>)
    requires PositiveWindows(cat)
    ensures forall ip :: PositiveWindows(LookupIn(cat, ip))
  {
    forall ip ensures PositiveWindows(LookupIn(cat, ip)) {
      LookupKeepsWindows(cat, ip);
    }
  }
}
