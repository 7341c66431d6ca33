/** From flow records to incident rows: the stages put together (cmd/mitigador/serve.go wires them). */
module Pipeline {
  import opened Options
  import opened Net
  import opened Window
  import opened Channels
  import opened Thresholds
  import opened Lifecycle
  import opened Judgement
  import opened Detection
  import opened Visits
  import opened Incidents
  import opened Persistence
  import Bus
  import Traffic

  /** The stages an event passes, each with what it may lose: the engine's full channel, events still in that channel,
      the recorder's full buffer, events still in that buffer, and failed transactions. */
  ghost predicate Connected(emitted: seq<AttackEvent>, sent: seq<AttackEvent>, waiting: seq<AttackEvent>,
                            sub: Bus.Sub<AttackEvent>, persisted: seq<AttackEvent>) {
    && Subsequence(sent, emitted)
    && sent == sub.offered + waiting
    && Bus.Faithful(sub)
    && Subsequence(persisted, sub.received)
  }

  lemma PersistedWereEmitted(emitted: seq<AttackEvent>, sent: seq<AttackEvent>, waiting: seq<AttackEvent>,
                             sub: Bus.Sub<AttackEvent>, persisted: seq<AttackEvent>)
    requires Connected(emitted, sent, waiting, sub, persisted)
    ensures Subsequence(persisted, emitted)
  {
    hide Subsequence;
    SubsequencePrefix(sub.received, sub.buffer, sub.offered);
    SubsequenceSelf(sent);
    SubsequencePrefix(sub.offered, waiting, sent);
    SubsequenceTransitive(persisted, sub.received, sub.offered);
    SubsequenceTransitive(persisted, sub.offered, sent);
    SubsequenceTransitive(persisted, sent, emitted);
  }

  /** End to end, with losses anywhere: whatever the history of flow records and ticks, the evaluations made between
      them, and the events dropped or failed on the way, the tables tell every incident as far as it was delivered. */
  lemma TablesTellTheTruth(cat: seq<Threshold>, history: seq<Op>, visits: seq<Visit>, score: Score,
                           sent: seq<AttackEvent>, waiting: seq<AttackEvent>, sub: Bus.Sub<AttackEvent>,
                           persisted: seq<AttackEvent>, groups: map<string, int>, id: Id)
    requires Visitable(cat, history, visits)
    requires Connected(Run(VerdictsOf(cat, history, visits), score).emitted, sent, waiting, sub, persisted)
    ensures Tells(Persist(persisted, groups), persisted, groups, id) && ForeignKey(Persist(persisted, groups))
  {
    hide Tells, Run, VerdictsOf, Subsequence, KnownVectors, Bus.Faithful, ForeignKey;
    var log := VerdictsOf(cat, history, visits);
    VerdictVectors(cat, history, visits);
    PersistedWereEmitted(Run(log, score).emitted, sent, waiting, sub, persisted);
    DeliveredTells(log, score, persisted, groups, id);
    ForeignKeyHolds(persisted, groups);
  }

  /** Losses are visible in the counters: if they are zero and the queues are empty, every event was persisted. */
  lemma NothingLost(emitted: seq<AttackEvent>, sent: seq<AttackEvent>, waiting: seq<AttackEvent>,
                    sub: Bus.Sub<AttackEvent>, persisted: seq<AttackEvent>)
    requires Connected(emitted, sent, waiting, sub, persisted)
    ensures persisted == emitted <==>
              && |sent| == |emitted| && waiting == [] && sub.dropped == 0 && sub.buffer == []
              && |persisted| == |sub.received|
  {
    hide Subsequence;
    SubsequenceShorter(sent, emitted);
    SubsequenceShorter(sub.received + sub.buffer, sub.offered);
    SubsequenceShorter(persisted, sub.received);
    if |sent| == |emitted| && waiting == [] && sub.dropped == 0 && sub.buffer == [] && |persisted| == |sub.received| {
      FullSubsequence(sent, emitted);
      assert sub.received + [] == sub.received;
      FullSubsequence(sub.received, sub.offered);
      FullSubsequence(persisted, sub.received);
    }
  }

  lemma SubsequenceShorter<T>(d: seq<T>, e: seq<T>)
    requires Subsequence(d, e)
    ensures |d| <= |e|
  {
    var at :| Embeds(d, e, at);
    if d != [] {
      IncreasingToTop(at, |e|, 0);
    }
  }

  /** End to end without losses on a disciplined run: the open rows are exactly the active machines of the run that
      the raw flow log determines. */
  lemma OpenRowsFollowTheLog(cat: seq<Threshold>, t0: int, history: seq<Op>, visits: seq<Visit>, score: Score,
                             persisted: seq<AttackEvent>, groups: map<string, int>, id: Id)
    requires Visitable(cat, history, visits) && OnTime(t0, history, visits)
    requires persisted == Run(VerdictsOf(cat, history, visits), score).emitted
    ensures var (s, t) := (Run(LogVerdicts(cat, history, visits), score), Persist(persisted, groups));
            && (IsOpen(t, id) <==> exists k :: Holds(s, k, id))
            && (forall k :: Holds(s, k, id) ==> Key(t.incidents[id].hostIP, t.incidents[id].vector) == k)
  {
    hide Run, VerdictsOf, LogVerdicts, Persist, IsOpen, Holds, KnownVectors;
    VerdictVectors(cat, history, visits);
    VerdictsReadTheLog(cat, t0, history, visits);
    OpenRowsAreActiveKeys(LogVerdicts(cat, history, visits), score, groups, id);
  }

  // ---- The wired system ----------------------------------------------------------------------------

  /** What serve.go wires together: the catalog, the engine's channel, one buffer per sink, and which sink records. */
  datatype Config = Config(cat: seq<Threshold>, score: Score, groups: map<string, int>,
                           capacity: nat, sinks: seq<nat>, mine: nat)

  ghost predicate ValidConfig(c: Config) {
    c.mine < |c.sinks| && forall ip :: PositiveWindows(LookupIn(c.cat, ip))
  }

  /** Everything the goroutines share: the store's history, the engine, its channel, the sinks and the tables. */
  datatype World = World(history: seq<Op>, visits: seq<Visit>, sys: Sys, out: Bus.Sub<AttackEvent>,
                         subs: seq<Bus.Sub<AttackEvent>>, persisted: seq<AttackEvent>, tables: Tables)

  /** One atomic step of some goroutine: the ingest writer, the engine sliding the window, the engine evaluating one
      host, the bus passing on one event, another sink reading, the recorder handling one event. */
  datatype Move =
    | Ingest(ip: Addr, sec: int, r: Traffic.Record)
    | Slide(sec: int)
    | Eval(ip: Addr, sec: int, now: int)
    | Forward
    | SinkReads(i: nat)
    | Record(fault: Fault)

  function Start(c: Config): World {
    var subs := seq(|c.sinks|, i requires 0 <= i < |c.sinks| => Bus.Joined(c.sinks[i]));
    World([], [], START, Bus.Joined(c.capacity), subs, [], Tables(map[], []))
  }

  function Judged(w: World, visit: Visit, v: Option<Verdict>, score: Score): World {
    var seen := w.(visits := w.visits + [visit]);
    match v
    case None => seen
    case Some(found) =>
      var s := Evaluate(w.sys, found, score);
      seen.(sys := s, out := Bus.OfferNew(w.out, w.sys.emitted, s.emitted))
  }

  function Forwarded(w: World): World {
    if w.out.buffer == [] then w
    else w.(out := Bus.Read(w.out), subs := Bus.Apply(w.subs, Bus.Publish(w.out.buffer[0])))
  }

  function Recorded(w: World, mine: nat, fault: Fault, groups: map<string, int>): World {
    if mine >= |w.subs| || w.subs[mine].buffer == [] then w
    else
      var (ev, subs) := (w.subs[mine].buffer[0], Bus.Apply(w.subs, Bus.ReadBy(mine)));
      if fault != NoFault then w.(subs := subs)
      else w.(subs := subs, persisted := w.persisted + [ev], tables := Handled(w.tables, ev, groups))
  }

  /** A reader of an empty channel waits; a failed transaction loses its event. */
  function Next(c: Config, w: World, m: Move): World
    requires ValidConfig(c)
  {
    match m
    case Ingest(ip, sec, r) => w.(history := w.history + [Op.Update(ip, sec, r)])
    case Slide(sec) => w.(history := w.history + [Op.Tick(sec)])
    case Eval(ip, sec, now) =>
      Judged(w, Visit(ip, sec, now, |w.history|), Judge(c.cat, Replay(w.history), ip, sec, now), c.score)
    case Forward => Forwarded(w)
    case SinkReads(i) => if i == c.mine then w else w.(subs := Bus.Apply(w.subs, Bus.ReadBy(i)))
    case Record(fault) => Recorded(w, c.mine, fault, c.groups)
  }

  /** The state after any interleaving of moves. */
  function Reached(c: Config, moves: seq<Move>): World
    requires ValidConfig(c)
  {
    if moves == [] then Start(c) else Next(c, Reached(c, moves[..|moves| - 1]), moves[|moves| - 1])
  }

  lemma ReachedStep(c: Config, moves: seq<Move>, m: Move)
    requires ValidConfig(c)
    ensures Reached(c, moves + [m]) == Next(c, Reached(c, moves), m)
  {
    hide Next, ValidConfig;
    assert (moves + [m])[..|moves|] == moves;
  }

  /** A reader that finds its channel empty changes nothing. */
  lemma Waiting(c: Config, w: World, m: Move)
    requires ValidConfig(c) && c.mine < |w.subs|
    requires match m
             case Forward => w.out.buffer == []
             case SinkReads(i) => i >= |w.subs| || i == c.mine || w.subs[i].buffer == []
             case Record(_) => w.subs[c.mine].buffer == []
             case _ => false
    ensures Next(c, w, m) == w
  {
    hide ValidConfig;
    if m.SinkReads? && m.i < |w.subs| && m.i != c.mine {
      assert Bus.Apply(w.subs, Bus.ReadBy(m.i)) == w.subs;
    }
  }

  // ---- What every reachable state keeps ------------------------------------------------------------

  /** The engine is the run of its evaluations, and its channel carries what it emitted. */
  ghost predicate EngineHolds(c: Config, w: World) {
    && Visitable(c.cat, w.history, w.visits)
    && w.sys == Run(VerdictsOf(c.cat, w.history, w.visits), c.score)
    && w.out.offered == w.sys.emitted && Bus.Faithful(w.out)
  }

  /** The recorder's sink was offered what the bus took from the engine, and the tables hold what was persisted. */
  ghost predicate RecorderHolds(c: Config, w: World) {
    && c.mine < |w.subs| && Bus.Faithful(w.subs[c.mine]) && w.subs[c.mine].offered == w.out.received
    && Subsequence(w.persisted, w.subs[c.mine].received) && w.tables == Persist(w.persisted, c.groups)
  }

  ghost predicate Wired(c: Config, w: World) {
    EngineHolds(c, w) && RecorderHolds(c, w)
  }

  lemma StartIsWired(c: Config)
    requires ValidConfig(c)
    ensures Wired(c, Start(c))
  {
    hide LookupIn, Subsequence;
    SubsequenceEmpty<AttackEvent>([]);
    var none: seq<AttackEvent> := [];
    assert none + none == none;
    assert Bus.Faithful(Bus.Joined<AttackEvent>(c.capacity));
    assert Bus.Faithful(Bus.Joined<AttackEvent>(c.sinks[c.mine]));
  }

  lemma StoreMoves(c: Config, w: World, op: Op)
    requires Wired(c, w)
    ensures Wired(c, w.(history := w.history + [op]))
  {
    hide Bus.Faithful, Subsequence, Visitable, VerdictsOf, Run, Persist;
    LaterHistory(c.cat, w.history, [op], w.visits);
  }

  lemma EngineMoves(c: Config, w: World, ip: Addr, sec: int, now: int)
    requires ValidConfig(c) && Wired(c, w)
    ensures Wired(c, Next(c, w, Eval(ip, sec, now)))
  {
    hide Bus.Faithful, Bus.Offer, Subsequence, Visitable, VerdictsOf, Run, Persist, Evaluate, Judge, Replay;
    var visit := Visit(ip, sec, now, |w.history|);
    var v := Judge(c.cat, Replay(w.history), ip, sec, now);
    assert w.history[..|w.history|] == w.history;
    OneVisit(c.cat, w.history, w.visits, visit);
    if v.Some? {
      RunStep(VerdictsOf(c.cat, w.history, w.visits), v.value, c.score);
      var s := Evaluate(w.sys, v.value, c.score);
      EvaluateEmits(w.sys, v.value, c.score);
      if |s.emitted| > |w.sys.emitted| {
        var ev := s.emitted[|w.sys.emitted|];
        Bus.OfferIsFaithful(w.out, ev);
        OfferOffers(w.out, ev);
      }
    } else {
      assert VerdictsOf(c.cat, w.history, w.visits) + [] == VerdictsOf(c.cat, w.history, w.visits);
    }
  }

  lemma OfferOffers(s: Bus.Sub<AttackEvent>, ev: AttackEvent)
    ensures Bus.Offer(s, ev).offered == s.offered + [ev] && Bus.Offer(s, ev).received == s.received
  {
  }

  lemma BusMoves(c: Config, w: World)
    requires Wired(c, w)
    ensures Wired(c, Forwarded(w))
  {
    hide Bus.Faithful, Bus.Offer, Subsequence, Visitable, VerdictsOf, Run, Persist;
    if w.out.buffer != [] {
      var ev := w.out.buffer[0];
      Bus.ReadIsFaithful(w.out);
      Bus.OfferIsFaithful(w.subs[c.mine], ev);
      OfferOffers(w.subs[c.mine], ev);
    }
  }

  lemma SinkMoves(c: Config, w: World, i: nat)
    requires Wired(c, w) && i != c.mine
    ensures Wired(c, w.(subs := Bus.Apply(w.subs, Bus.ReadBy(i))))
  {
    hide Bus.Faithful, Bus.Read, Subsequence, Visitable, VerdictsOf, Run, Persist;
  }

  lemma RecorderMoves(c: Config, w: World, fault: Fault)
    requires Wired(c, w)
    ensures Wired(c, Recorded(w, c.mine, fault, c.groups))
  {
    hide Bus.Faithful, Subsequence, Visitable, VerdictsOf, Run, Persist, Handled;
    var sub := w.subs[c.mine];
    if sub.buffer != [] {
      var ev := sub.buffer[0];
      Bus.ReadIsFaithful(sub);
      SubsequenceTake(w.persisted, sub.received, ev);
      SubsequenceSkip(w.persisted, sub.received, ev);
      PersistStep(w.persisted, ev, c.groups);
    }
  }

  /** Every interleaving of the goroutines keeps the stages wired. */
  lemma {:induction false} EveryInterleavingIsWired(c: Config, moves: seq<Move>)
    requires ValidConfig(c)
    ensures Wired(c, Reached(c, moves))
  {
    hide Wired, ValidConfig, Judged, Forwarded, Recorded, Judge, Replay;
    if moves == [] {
      StartIsWired(c);
    } else {
      EveryInterleavingIsWired(c, moves[..|moves| - 1]);
      var w, m := Reached(c, moves[..|moves| - 1]), moves[|moves| - 1];
      match m
      case Ingest(ip, sec, r) => StoreMoves(c, w, Op.Update(ip, sec, r));
      case Slide(sec) => StoreMoves(c, w, Op.Tick(sec));
      case Eval(ip, sec, now) => EngineMoves(c, w, ip, sec, now);
      case Forward => BusMoves(c, w);
      case SinkReads(i) =>
        if i != c.mine {
          SinkMoves(c, w, i);
        }
      case Record(fault) => RecorderMoves(c, w, fault);
    }
  }

  /** The stages of a wired system are connected in the sense above. */
  lemma WiredIsConnected(c: Config, w: World)
    requires Wired(c, w)
    ensures Connected(w.sys.emitted, w.out.received + w.out.buffer, w.out.buffer, w.subs[c.mine], w.persisted)
  {
    hide Subsequence, VerdictsOf, Run, Persist, Visitable;
  }

  // ---- End to end ----------------------------------------------------------------------------------

  /** In every reachable state, whatever was dropped or failed on the way, the tables tell every incident as far as it
      was delivered, with true peaks exactly if they fit, and no attack_updates row lacks its incident. */
  lemma ReachedTablesTellTheTruth(c: Config, moves: seq<Move>, id: Id)
    requires ValidConfig(c)
    ensures var w := Reached(c, moves);
            && Tells(w.tables, w.persisted, c.groups, id) && ForeignKey(w.tables)
            && (id in w.tables.incidents ==> PeaksAreTrueIfTheyFit(w.tables.incidents[id], w.persisted, id))
            && Subsequence(w.persisted, w.sys.emitted)
  {
    hide Tells, Run, VerdictsOf, Subsequence, KnownVectors, Bus.Faithful, ForeignKey, Connected, Persist, Reached,
      PeaksAreTrueIfTheyFit;
    var w := Reached(c, moves);
    EveryInterleavingIsWired(c, moves);
    WiredIsConnected(c, w);
    var sub := w.subs[c.mine];
    var sent := w.out.received + w.out.buffer;
    TablesTellTheTruth(c.cat, w.history, w.visits, c.score, sent, w.out.buffer, sub, w.persisted, c.groups, id);
    PersistedWereEmitted(w.sys.emitted, sent, w.out.buffer, sub, w.persisted);
    VerdictVectors(c.cat, w.history, w.visits);
    if id in w.tables.incidents {
      DeliveredPeaks(VerdictsOf(c.cat, w.history, w.visits), c.score, w.persisted, c.groups, id);
    }
  }

  /** In every reachable state, everything emitted has been persisted exactly when the drop counters are zero, both
      queues are empty and no transaction failed. */
  lemma ReachedNothingLost(c: Config, moves: seq<Move>)
    requires ValidConfig(c)
    ensures var w := Reached(c, moves);
            c.mine < |w.subs| &&
            var sub := w.subs[c.mine];
            w.persisted == w.sys.emitted <==>
              && w.out.dropped == 0 && w.out.buffer == []
              && sub.dropped == 0 && sub.buffer == []
              && |w.persisted| == |sub.received|
  {
    hide Run, VerdictsOf, Subsequence, Connected, Persist, Reached;
    var w := Reached(c, moves);
    EveryInterleavingIsWired(c, moves);
    WiredIsConnected(c, w);
    NothingLost(w.sys.emitted, w.out.received + w.out.buffer, w.out.buffer, w.subs[c.mine], w.persisted);
  }

  /** In every state of a disciplined run in which nothing was lost, the open rows are exactly the active machines of
      the run that the raw flow log determines. */
  lemma ReachedOpenRowsFollowTheLog(c: Config, moves: seq<Move>, t0: int, id: Id)
    requires ValidConfig(c)
    requires var w := Reached(c, moves); OnTime(t0, w.history, w.visits) && w.persisted == w.sys.emitted
    ensures var w := Reached(c, moves);
            && Visitable(c.cat, w.history, w.visits)
            && var s := Run(LogVerdicts(c.cat, w.history, w.visits), c.score);
               && (IsOpen(w.tables, id) <==> exists k :: Holds(s, k, id))
               && (forall k :: Holds(s, k, id) ==>
                     Key(w.tables.incidents[id].hostIP, w.tables.incidents[id].vector) == k)
  {
    hide Run, VerdictsOf, LogVerdicts, Persist, IsOpen, Holds, Reached, OnTime, Visitable;
    var w := Reached(c, moves);
    EveryInterleavingIsWired(c, moves);
    OpenRowsFollowTheLog(c.cat, t0, w.history, w.visits, c.score, w.persisted, c.groups, id);
  }
}
