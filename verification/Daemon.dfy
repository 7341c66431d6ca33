/** The running daemon (cmd/mitigador/serve.go): the objects wired together, refining the moves of the wired system. */
module Daemon {
  import opened Net
  import opened Words
  import opened Window
  import opened Channels
  import opened Thresholds
  import opened Lifecycle
  import opened Judgement
  import opened Detection
  import opened Pipeline
  import opened Hosts
  import opened Incidents
  import opened Persistence
  import S = Store
  import E = Engine
  import I = Incidents
  import Bus
  import Traffic

  /** The depth of the attack event channel and of every sink's buffer. */
  const DEPTH: nat := 256

  ghost function PartsOf(e: E.Engine): set<object>
    reads e, e.store, e.sm
  {
    {e, e.catalog.entries, e.out} + e.store.repr + e.sm.repr
  }

  /** The parts share no state, but for the channel between the engine and the bus. */
  ghost predicate Unshared(e: E.Engine, b: Bus.Bus<AttackEvent>, r: I.Recorder)
    reads e, e.store, e.sm, b, r
  {
    && b in b.repr && e.Apart()
    && PartsOf(e) !! b.repr
    && {r, r.store} !! PartsOf(e) + b.repr
  }

  /** No record, no event and no row yet. */
  ghost predicate Untouched(e: E.Engine, b: Bus.Bus<AttackEvent>, r: I.Recorder)
    requires e.sm.Valid() && b.Valid()
    reads e, e.store, e.out, e.sm, e.sm.repr, b, b.repr, r, r.store
  {
    var idle := Bus.Joined<AttackEvent>(DEPTH);
    && e.store.history == [] && e.visits == [] && e.Abs() == START && e.Outlet() == idle
    && b.Views() == [idle, idle, idle, idle]
    && r.persisted == [] && r.store.Value() == Tables(map[], [])
  }

  class Daemon {
    const engine: E.Engine
    const bus: Bus.Bus<AttackEvent>
    const recorder: I.Recorder
    /** Which sink records. */
    const mine: nat
    ghost const config: Config
    /** Every step taken so far, by whichever goroutine. */
    ghost var moves: seq<Move>

    ghost predicate Apart()
      reads engine, engine.store, engine.sm, bus, recorder
    {
      Unshared(engine, bus, recorder)
      && this !in PartsOf(engine) + bus.repr + {recorder, recorder.store}
    }

    ghost predicate Parts()
      reads PartsOf(engine), engine, engine.store, engine.sm, bus, bus.repr, recorder, recorder.store
    {
      && Apart()
      && engine.Valid() && engine.sm.Valid() && bus.Valid() && recorder.Valid()
      && ValidConfig(config) && mine == config.mine < |bus.subs|
      && config.cat == engine.catalog.entries[..] && config.score == engine.score
      && config.groups == recorder.store.groups
    }

    ghost function View(): World
      requires Parts()
      reads PartsOf(engine), engine, engine.store, engine.sm, bus, bus.repr, recorder, recorder.store
    {
      World(engine.store.history, engine.visits, engine.Abs(), engine.Outlet(), bus.Views(),
            recorder.persisted, recorder.store.Value())
    }

    ghost predicate Valid()
      reads this, PartsOf(engine), engine, engine.store, engine.sm, bus, bus.repr, recorder, recorder.store
    {
      Parts() && View() == Reached(config, moves)
    }

    /** Freshly built parts, wired together, have made no move. */
    constructor (engine: E.Engine, bus: Bus.Bus<AttackEvent>, recorder: I.Recorder)
      requires engine.Valid() && bus.Valid() && recorder.Valid() && Unshared(engine, bus, recorder)
      requires |bus.subs| == 4 && Untouched(engine, bus, recorder)
      ensures Valid() && moves == [] && this.engine == engine && this.bus == bus && this.recorder == recorder
      ensures config == Config(engine.catalog.entries[..], engine.score, recorder.store.groups,
                               DEPTH, [DEPTH, DEPTH, DEPTH, DEPTH], 3)
    {
      assert engine.Parts();
      hide Bus.Bus.Valid, Bus.Bus.Views, E.Engine.Valid, E.Engine.Abs, E.Engine.Outlet, I.Recorder.Valid, Reached,
        Start,
        ValidConfig, Bus.Joined, I.Store.Value, LookupIn;
      this.engine, this.bus, this.recorder, mine := engine, bus, recorder, 3;
      config := Config(engine.catalog.entries[..], engine.score, recorder.store.groups,
                       DEPTH, [DEPTH, DEPTH, DEPTH, DEPTH], 3);
      moves := [];
      new;
      LookupsKeepWindows(config);
      NothingHasMoved(config);
    }

    /** When only the engine and its parts have moved, the rest is as it was. */
    twostate lemma EngineMoved()
      requires old(Parts()) && engine.Valid()
      requires fresh(engine.store.repr - old(engine.store.repr)) && fresh(engine.sm.repr - old(engine.sm.repr))
      requires unchanged(bus) && unchanged(bus.repr) && unchanged(recorder) && unchanged(recorder.store)
      requires unchanged(engine.catalog.entries)
      ensures Parts()
      ensures View() == old(View()).(history := engine.store.history, visits := engine.visits,
                                     sys := engine.Abs(), out := engine.Outlet())
    {
      hide Bus.Bus.Valid, I.Recorder.Valid, ValidConfig, E.Engine.Abs, E.Engine.Outlet, Bus.Bus.Views;
      assert engine.Parts();
      assert engine.catalog.entries[..] == old(engine.catalog.entries[..]);
      assert bus.Valid() && bus.Views() == old(bus.Views());
      assert recorder.Valid();
    }

    /** When only the bus and the engine's channel have moved, the rest is as it was. */
    twostate lemma SinksMoved()
      requires old(Parts()) && engine.Valid() && bus.Valid()
      requires bus.repr == old(bus.repr) && bus.subs == old(bus.subs)
      requires unchanged(engine) && unchanged(engine.store) && unchanged(engine.store.repr)
      requires unchanged(engine.sm) && unchanged(engine.sm.repr) && unchanged(engine.catalog.entries)
      requires unchanged(recorder) && unchanged(recorder.store)
      ensures Parts()
      ensures View() == old(View()).(out := engine.Outlet(), subs := bus.Views())
    {
      hide Bus.Bus.Valid, I.Recorder.Valid, ValidConfig, E.Engine.Outlet, Bus.Bus.Views;
      assert engine.Parts();
      assert engine.catalog.entries[..] == old(engine.catalog.entries[..]);
      assert recorder.Valid();
    }

    /** A step of the objects that is a move of the wired system is one more move of the run. */
    twostate lemma Moved(m: Move)
      requires old(Valid()) && Parts() && moves == old(moves) + [m]
      requires View() == Next(config, old(View()), m)
      ensures Valid()
    {
      hide Next, Reached, Apart, E.Engine.Valid, Bus.Bus.Valid, I.Recorder.Valid, ValidConfig, View;
      ReachedStep(config, old(moves), m);
    }

    ghost method Note(m: Move)
      requires Parts()
      modifies this`moves
      ensures Parts() && View() == old(View()) && moves == old(moves) + [m]
    {
      hide E.Engine.Valid, Bus.Bus.Valid, I.Recorder.Valid, ValidConfig, E.Engine.Abs, E.Engine.Outlet, Bus.Bus.Views;
      moves := moves + [m];
    }

    method Ingest(ip: Addr, sec: int, r: Traffic.Record)
      requires Valid()
      modifies this`moves, engine.store.repr
      ensures Valid() && moves == old(moves) + [Move.Ingest(ip, sec, r)]
      ensures fresh(engine.store.repr - old(engine.store.repr))
      ensures engine.sm.repr == old(engine.sm.repr) && bus.repr == old(bus.repr)
    {
      hide Reached, E.Engine.Valid, Bus.Bus.Valid, I.Recorder.Valid, ValidConfig, E.Engine.Abs, E.Engine.Outlet,
        Bus.Bus.Views;
      moves := moves + [Move.Ingest(ip, sec, r)];
      engine.Ingest(ip, sec, r);
      EngineMoved();
      Moved(Move.Ingest(ip, sec, r));
    }

    method Slide(sec: int)
      requires Valid()
      modifies this`moves, engine.store.repr
      ensures Valid() && moves == old(moves) + [Move.Slide(sec)]
      ensures engine.store.history == old(engine.store.history) + [Op.Tick(sec)]
      ensures engine.store.repr == old(engine.store.repr) && engine.sm.repr == old(engine.sm.repr)
      ensures bus.repr == old(bus.repr)
    {
      hide Reached, E.Engine.Valid, Bus.Bus.Valid, I.Recorder.Valid, ValidConfig, E.Engine.Abs, E.Engine.Outlet,
        Bus.Bus.Views;
      moves := moves + [Move.Slide(sec)];
      engine.SlideWindow(sec);
      EngineMoved();
      Moved(Move.Slide(sec));
    }

    method Eval(ip: Addr, sec: int, now: int)
      requires Valid()
      modifies this`moves, engine, engine.sm.repr, engine.out
      ensures Valid() && moves == old(moves) + [Move.Eval(ip, sec, now)]
      ensures fresh(engine.sm.repr - old(engine.sm.repr)) && engine.store.contents == old(engine.store.contents)
      ensures engine.store.repr == old(engine.store.repr) && bus.repr == old(bus.repr)
    {
      hide Reached, E.Engine.Valid, Bus.Bus.Valid, I.Recorder.Valid, ValidConfig, E.Engine.Abs, E.Engine.Outlet,
        Bus.Bus.Views, Judge, Evaluate, Bus.Offer, Replay;
      moves := moves + [Move.Eval(ip, sec, now)];
      engine.EvalHost(ip, sec, now);
      EngineMoved();
      Moved(Move.Eval(ip, sec, now));
    }

    /** The engine's tick: the window slides, then every host in the table is evaluated once; the other goroutines'
        steps may come before and after each of these. */
    method Tick(now: int) returns (ghost order: seq<Addr>)
      requires Valid()
      modifies this`moves, engine, engine.store.repr, engine.sm.repr, engine.out
      ensures Valid() && Enumerates(order, engine.store.contents.Keys)
      ensures moves == old(moves) + [Move.Slide(now / SECOND)] + EvalMoves(order, now / SECOND, now)
      ensures fresh(engine.sm.repr - old(engine.sm.repr))
      ensures engine.store.repr == old(engine.store.repr) && bus.repr == old(bus.repr)
    {
      hide Valid, Enumerates;
      var sec := now / SECOND;
      Slide(sec);
      var hosts := ActiveHosts(sec);
      order := S.Addrs(hosts);
      EvalHosts(hosts, sec, now);
    }

    method ActiveHosts(sec: int) returns (hosts: seq<S.HostInfo>)
      requires Valid()
      requires engine.store.history != [] && engine.store.history[|engine.store.history| - 1] == Op.Tick(sec)
      ensures Enumerates(S.Addrs(hosts), engine.store.contents.Keys)
      ensures Valid() && moves == old(moves) && engine.store.contents == old(engine.store.contents)
      ensures engine.store.repr == old(engine.store.repr) && engine.sm.repr == old(engine.sm.repr)
      ensures bus.repr == old(bus.repr)
    {
      hide Reached, E.Engine.Valid, Enumerates;
      hosts := engine.ActiveHosts(sec);
    }

    method EvalHosts(hosts: seq<S.HostInfo>, sec: int, now: int)
      requires Valid()
      modifies this`moves, engine, engine.sm.repr, engine.out
      ensures Valid() && fresh(engine.sm.repr - old(engine.sm.repr))
      ensures engine.store.contents == old(engine.store.contents)
      ensures engine.store.repr == old(engine.store.repr) && bus.repr == old(bus.repr)
      ensures moves == old(moves) + EvalMoves(S.Addrs(hosts), sec, now)
    {
      hide Valid;
      ghost var ips := S.Addrs(hosts);
      for i := 0 to |hosts|
        invariant Valid() && fresh(engine.sm.repr - old(engine.sm.repr))
        invariant engine.store.contents == old(engine.store.contents)
        invariant engine.store.repr == old(engine.store.repr) && bus.repr == old(bus.repr)
        invariant moves == old(moves) + EvalMoves(ips[..i], sec, now)
      {
        Eval(hosts[i].ip, sec, now);
        assert EvalMoves(ips[..i + 1], sec, now) == EvalMoves(ips[..i], sec, now) + [Move.Eval(ips[i], sec, now)];
      }
      assert ips[..|hosts|] == ips;
    }

    /** Whatever the goroutines have done, the tables tell every incident as far as it was delivered. */
    lemma TablesTellTheTruth(id: Id)
      requires Valid()
      ensures Tells(recorder.store.Value(), recorder.persisted, config.groups, id) && ForeignKey(recorder.store.Value())
      ensures Subsequence(recorder.persisted, engine.emitted)
    {
      hide Reached, Tells, ForeignKey, Subsequence, PeaksAreTrueIfTheyFit, ValidConfig, E.Engine.Valid, Bus.Bus.Valid;
      ReachedTablesTellTheTruth(config, moves, id);
    }

    /** The bus takes the oldest event from the engine's channel and offers it to every sink. */
    method Forward()
      requires Valid() && engine.out.buffer != []
      modifies this`moves, engine.out, bus.repr
      ensures Valid() && moves == old(moves) + [Move.Forward]
      ensures engine.store.repr == old(engine.store.repr) && engine.sm.repr == old(engine.sm.repr)
      ensures bus.repr == old(bus.repr)
    {
      hide Valid, Reached, Parts, View, Bus.Read, Bus.Apply, Judged, Recorded, Judge, Replay, ValidConfig;
      Seen();
      Note(Move.Forward);
      var ev := Take();
      Deliver(ev);
      Moved(Move.Forward);
    }

    method Take() returns (ev: AttackEvent)
      requires Parts() && View().out.buffer != []
      modifies engine.out
      ensures Parts() && moves == old(moves) && ev == old(View()).out.buffer[0]
      ensures engine.store.repr == old(engine.store.repr) && engine.sm.repr == old(engine.sm.repr)
      ensures bus.repr == old(bus.repr)
      ensures View() == old(View()).(out := Bus.Read(old(View()).out))
    {
      assert engine.Parts();
      hide E.Engine.Valid, Bus.Bus.Valid, I.Recorder.Valid, ValidConfig, E.Engine.Abs, Bus.Bus.Views, Bus.Read;
      ev := engine.out.Receive();
      engine.ChannelRead();
      EngineMoved();
    }

    method Deliver(ev: AttackEvent)
      requires Parts()
      modifies bus.repr
      ensures Parts() && moves == old(moves)
      ensures engine.store.repr == old(engine.store.repr) && engine.sm.repr == old(engine.sm.repr)
      ensures bus.repr == old(bus.repr)
      ensures View() == old(View()).(subs := Bus.Apply(old(View()).subs, Bus.Publish(ev)))
    {
      hide E.Engine.Valid, Bus.Bus.Valid, I.Recorder.Valid, ValidConfig, E.Engine.Abs, E.Engine.Outlet, Bus.Bus.Views,
        Bus.Apply;
      bus.Deliver(ev);
      SinksMoved();
    }

    /** One of the alert sinks reads an event. */
    method SinkReads(i: nat) returns (ev: AttackEvent)
      requires Valid() && i < |bus.subs| && i != mine && bus.subs[i].ch.buffer != []
      modifies this`moves, bus.repr
      ensures Valid() && moves == old(moves) + [Move.SinkReads(i)]
      ensures engine.store.repr == old(engine.store.repr) && engine.sm.repr == old(engine.sm.repr)
      ensures bus.repr == old(bus.repr)
    {
      hide Valid, Reached, Parts, View, Bus.Apply, Judged, Recorded, Forwarded, Judge, Replay, ValidConfig;
      Seen();
      SeenSink(i);
      Note(Move.SinkReads(i));
      ev := ReadAt(i);
      Moved(Move.SinkReads(i));
    }

    method ReadAt(i: nat) returns (ev: AttackEvent)
      requires Parts() && i < |View().subs| && View().subs[i].buffer != []
      modifies bus.repr
      ensures Parts() && moves == old(moves)
      ensures engine.store.repr == old(engine.store.repr) && engine.sm.repr == old(engine.sm.repr)
      ensures bus.repr == old(bus.repr)
      ensures View() == old(View()).(subs := Bus.Apply(old(View()).subs, Bus.ReadBy(i)))
      ensures ev == old(View()).subs[i].buffer[0]
    {
      hide E.Engine.Valid, I.Recorder.Valid, ValidConfig, E.Engine.Abs, E.Engine.Outlet, Bus.Apply, Bus.Faithful;
      ev := bus.ReadAt(i);
      SinksMoved();
    }

    /** The recorder takes the oldest event of its sink and handles it. */
    method Record(fault: Fault)
      requires Valid() && mine < |bus.subs| && bus.subs[mine].ch.buffer != []
      modifies this`moves, bus.repr, recorder, recorder.store
      ensures Valid() && moves == old(moves) + [Move.Record(fault)]
      ensures engine.store.repr == old(engine.store.repr) && engine.sm.repr == old(engine.sm.repr)
      ensures bus.repr == old(bus.repr)
    {
      hide Valid, Reached, Parts, View, Bus.Apply, Handled, Judged, Forwarded, Judge, Replay, ValidConfig;
      Seen();
      SeenSink(mine);
      Note(Move.Record(fault));
      var ev := ReadAt(mine);
      Handle(ev, fault);
      Moved(Move.Record(fault));
    }

    lemma Seen()
      requires Valid()
      ensures Parts() && View() == Reached(config, moves) && ValidConfig(config)
      ensures View().out.buffer == engine.out.buffer && mine == config.mine < |bus.subs| == |View().subs|
    {
      hide Reached, ValidConfig;
    }

    lemma SeenSink(i: nat)
      requires Parts() && i < |bus.subs|
      ensures i < |View().subs| && View().subs[i].buffer == bus.subs[i].ch.buffer
    {
      hide ValidConfig;
    }

    method Handle(ev: AttackEvent, fault: Fault)
      requires Parts()
      modifies recorder, recorder.store
      ensures Parts() && moves == old(moves)
      ensures engine.store.repr == old(engine.store.repr) && engine.sm.repr == old(engine.sm.repr)
      ensures bus.repr == old(bus.repr)
      ensures var w := old(View());
              View() == if fault != NoFault then w
                        else w.(persisted := w.persisted + [ev], tables := Handled(w.tables, ev, config.groups))
    {
      hide E.Engine.Valid, Bus.Bus.Valid, ValidConfig, E.Engine.Abs, E.Engine.Outlet, Bus.Bus.Views, Handled, Persist,
        I.Store.Value;
      PersistStep(recorder.persisted, ev, recorder.store.groups);
      recorder.Handle(ev, fault);
      RecorderMoved();
    }

    /** When only the recorder and its store have moved, the rest is as it was. */
    twostate lemma RecorderMoved()
      requires old(Parts()) && recorder.Valid()
      requires unchanged(engine) && unchanged(engine.store) && unchanged(engine.store.repr) && unchanged(engine.out)
      requires unchanged(engine.sm) && unchanged(engine.sm.repr) && unchanged(engine.catalog.entries)
      requires unchanged(bus) && unchanged(bus.repr)
      ensures Parts()
      ensures View() == old(View()).(persisted := recorder.persisted, tables := recorder.store.Value())
    {
      hide E.Engine.Valid, Bus.Bus.Valid, I.Recorder.Valid, ValidConfig, Bus.Bus.Views, I.Store.Value;
      assert engine.catalog.entries[..] == old(engine.catalog.entries[..]);
    }
  }

  /** Takes one step of a schedule; a reader of an empty channel waits. */
  method Perform(d: Daemon, m: Move)
    requires d.Valid()
    modifies d`moves, d.engine, d.engine.store.repr, d.engine.sm.repr, d.engine.out
    modifies d.bus.repr, d.recorder, d.recorder.store
    ensures d.Valid() && d.View() == Next(d.config, old(d.View()), m)
    ensures d.moves == old(d.moves) + [m] || (d.moves == old(d.moves) && d.View() == old(d.View()))
    ensures fresh(d.engine.store.repr - old(d.engine.store.repr))
    ensures fresh(d.engine.sm.repr - old(d.engine.sm.repr)) && d.bus.repr == old(d.bus.repr)
  {
    hide Daemon.Valid, Daemon.Parts, Daemon.View, Reached, ValidConfig, Next;
    d.Seen();
    ReachedStep(d.config, d.moves, m);
    match m {
      case Ingest(ip, sec, r) =>
        d.Ingest(ip, sec, r);
      case Slide(sec) =>
        d.Slide(sec);
      case Eval(ip, sec, now) =>
        d.Eval(ip, sec, now);
      case Forward =>
        if d.engine.out.buffer == [] {
          Waiting(d.config, d.View(), m);
        } else {
          d.Forward();
        }
      case SinkReads(i) =>
        if i < |d.bus.subs| {
          d.SeenSink(i);
        }
        if i >= |d.bus.subs| || i == d.mine || d.bus.subs[i].ch.buffer == [] {
          Waiting(d.config, d.View(), m);
        } else {
          var _ := d.SinkReads(i);
        }
      case Record(fault) =>
        d.SeenSink(d.mine);
        if d.bus.subs[d.mine].ch.buffer == [] {
          Waiting(d.config, d.View(), m);
        } else {
          d.Record(fault);
        }
    }
    d.Seen();
  }

  /** The objects can take the steps of any schedule, and end where the wired system ends. */
  method Drive(d: Daemon, schedule: seq<Move>)
    requires d.Valid()
    modifies d`moves, d.engine, d.engine.store.repr, d.engine.sm.repr, d.engine.out
    modifies d.bus.repr, d.recorder, d.recorder.store
    ensures d.Valid() && d.View() == Reached(d.config, old(d.moves) + schedule)
    ensures fresh(d.engine.store.repr - old(d.engine.store.repr))
    ensures fresh(d.engine.sm.repr - old(d.engine.sm.repr)) && d.bus.repr == old(d.bus.repr)
  {
    hide Daemon.Valid, Daemon.Parts, Daemon.View, Reached, ValidConfig, Next;
    d.Seen();
    ghost var before := d.moves;
    assert before + schedule[..0] == before;
    for i := 0 to |schedule|
      invariant d.Valid() && d.Parts() && d.View() == Reached(d.config, before + schedule[..i])
      invariant fresh(d.engine.store.repr - old(d.engine.store.repr))
      invariant fresh(d.engine.sm.repr - old(d.engine.sm.repr)) && d.bus.repr == old(d.bus.repr)
    {
      d.Seen();
      ReachedStep(d.config, before + schedule[..i], schedule[i]);
      assert before + schedule[..i + 1] == before + schedule[..i] + [schedule[i]];
      Perform(d, schedule[i]);
      d.Seen();
    }
    assert before + schedule[..|schedule|] == before + schedule;
  }

  /** From start-up through any schedule: the tables tell every incident as far as it was delivered. */
  method Session(store: S.Store, catalog: Catalog, score: Score, groups: map<string, int>, schedule: seq<Move>)
    returns (d: Daemon)
    requires store.Valid() && store.history == [] && catalog.Valid()
    requires catalog.entries !in store.repr && PositiveWindows(catalog.entries[..])
    modifies store.repr
    ensures d.Valid() && d.View() == Reached(d.config, schedule)
    ensures forall id :: Tells(d.recorder.store.Value(), d.recorder.persisted, groups, id)
    ensures ForeignKey(d.recorder.store.Value())
  {
    hide Daemon.Valid, Daemon.View, Reached, Tells, ForeignKey, S.Store.Valid, Catalog.Valid, PositiveWindows;
    d := Serve(store, catalog, score, groups);
    Drive(d, schedule);
    assert [] + schedule == schedule;
    forall id ensures Tells(d.recorder.store.Value(), d.recorder.persisted, groups, id) {
      d.TablesTellTheTruth(id);
    }
    d.TablesTellTheTruth(0);
  }

  /** The evaluations of a tick as moves. */
  function EvalMoves(hosts: seq<Addr>, sec: int, now: int): seq<Move> {
    seq(|hosts|, i requires 0 <= i < |hosts| => Move.Eval(hosts[i], sec, now))
  }

  lemma LookupsKeepWindows(c: Config)
    requires PositiveWindows(c.cat) && c.mine < |c.sinks|
    ensures ValidConfig(c)
  {
    hide LookupIn;
    E.AllLookupsKeepWindows(c.cat);
  }

  lemma NothingHasMoved(c: Config)
    requires ValidConfig(c) && c.sinks == [DEPTH, DEPTH, DEPTH, DEPTH]
    ensures Reached(c, []) == Start(c)
    ensures var idle := Bus.Joined<AttackEvent>(DEPTH);
            c.capacity == DEPTH ==>
              Start(c) == World([], [], START, idle, [idle, idle, idle, idle], [], Tables(map[], []))
  {
    hide ValidConfig;
  }

  /** The channel, the engine, the bus with its four sinks, of which the last records, and the recorder. */
  method Serve(store: S.Store, catalog: Catalog, score: Score, groups: map<string, int>) returns (d: Daemon)
    requires store.Valid() && store.history == [] && catalog.Valid()
    requires catalog.entries !in store.repr && PositiveWindows(catalog.entries[..])
    ensures d.Valid() && d.moves == [] && d.engine.store == store && d.engine.catalog == catalog
    ensures fresh(d) && fresh(d.engine) && fresh(d.engine.out) && fresh(d.engine.sm.repr) && fresh(d.bus.repr)
    ensures fresh(d.recorder) && fresh(d.recorder.store) && store.repr == old(store.repr)
    ensures d.config == Config(catalog.entries[..], score, groups, DEPTH, [DEPTH, DEPTH, DEPTH, DEPTH], 3)
  {
    hide Bus.Bus.Valid, Bus.Bus.Views, E.Engine.Abs, E.Engine.Outlet, E.Engine.Valid, S.Store.Valid, Catalog.Valid,
      PositiveWindows, Bus.Joined, I.Recorder.Valid, Daemon.Valid;
    var attackEvents := new Channel<AttackEvent>(DEPTH);
    var engine := new E.Engine(store, catalog, attackEvents, score);
    var bus := WireSinks();
    var incidents := new I.Store(groups);
    var recorder := new I.Recorder(incidents);
    assert Unshared(engine, bus, recorder);
    hide Unshared;
    d := new Daemon(engine, bus, recorder);
  }

  method WireSinks() returns (b: Bus.Bus<AttackEvent>)
    ensures b.Valid() && fresh(b.repr) && b in b.repr && |b.subs| == 4
    ensures var idle := Bus.Joined<AttackEvent>(DEPTH); b.Views() == [idle, idle, idle, idle]
  {
    hide Bus.Joined, Bus.Faithful;
    b := new Bus.Bus<AttackEvent>(DEPTH);
    var tgSub := b.Subscribe("telegram");
    var mailSub := b.Subscribe("email");
    var sseSub := b.Subscribe("sse");
    var incSub := b.Subscribe("incident");
  }
}
