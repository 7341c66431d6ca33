/** The sliding window of per-host counters on values: what the sharded store does to one flat table. */
module Window {
  import opened Words
  import opened Net
  import opened Traffic

  const WINDOW_SIZE: nat := 60

  /** One host's ring of one-second buckets and the last second it was heard of. */
  datatype Ring = Ring(buckets: seq<Bucket>, lastSec: int)

  type Table = map<Addr, Ring>

  /** `((sec % WindowSize) + WindowSize) % WindowSize` with Go's truncating `%`. */
  function Slot(sec: int): (i: nat)
    ensures i < WINDOW_SIZE
  {
    GoMod(GoMod(sec, WINDOW_SIZE) + WINDOW_SIZE, WINDOW_SIZE)
  }

  /** The slot is the mathematical residue, also for seconds before 1970. */
  lemma SlotIsResidue(s: int)
    ensures Slot(s) == s % WINDOW_SIZE
  {
    var r := s % WINDOW_SIZE;
    if s < 0 {
      var m := (-s) % WINDOW_SIZE;
      assert s == -60 * ((-s) / 60) - m;
      assert r == if m == 0 then 0 else 60 - m;
    }
  }

  /** Two seconds share a slot exactly when they are a multiple of the window apart. */
  lemma SlotsCoincide(s: int, s': int)
    ensures Slot(s) == Slot(s') <==> (s - s') % 60 == 0
  {
    hide Slot;
    SlotIsResidue(s);
    SlotIsResidue(s');
  }

  /** The zero value of a ring. */
  function Blank(): Ring {
    Ring(seq(WINDOW_SIZE, i => EMPTY), 0)
  }

  ghost predicate ValidTable(t: Table) {
    forall ip :: ip in t ==> |t[ip].buckets| == WINDOW_SIZE
  }

  // ---- The operations --------------------------------------------------------------------------

  function Charged(ring: Ring, sec: int, r: Record): Ring
    requires |ring.buckets| == WINDOW_SIZE
  {
    Ring(ring.buckets[Slot(sec) := Charge(ring.buckets[Slot(sec)], r)],
         if sec > ring.lastSec then sec else ring.lastSec)
  }

  function AfterUpdate(t: Table, ip: Addr, sec: int, r: Record): (t': Table)
    requires ValidTable(t)
    ensures ValidTable(t')
  {
    t[ip := Charged(if ip in t then t[ip] else Blank(), sec, r)]
  }

  /** Whether a ring is still within the window at `now`. */
  predicate Live(ring: Ring, now: int) {
    now - ring.lastSec <= WINDOW_SIZE
  }

  function Cleared(ring: Ring, now: int): Ring
    requires |ring.buckets| == WINDOW_SIZE
  {
    ring.(buckets := ring.buckets[Slot(now + 1) := EMPTY])
  }

  function AfterTick(t: Table, now: int): (t': Table)
    requires ValidTable(t)
    ensures ValidTable(t')
  {
    map ip | ip in t && Live(t[ip], now) :: Cleared(t[ip], now)
  }

  /** `Store.Snapshot`; the empty sequence stands for Go's nil. */
  function SnapshotOf(t: Table, ip: Addr, now: int, window: int): (out: seq<Bucket>)
    requires ValidTable(t)
    ensures |out| == if window < 1 || ip !in t then 0 else if window > WINDOW_SIZE then WINDOW_SIZE else window
  {
    if window < 1 || ip !in t then []
    else seq(if window > WINDOW_SIZE then WINDOW_SIZE else window, i => t[ip].buckets[Slot(now - i)])
  }

  // ---- Runs ------------------------------------------------------------------------------------

  datatype Op = Update(ip: Addr, sec: int, r: Record) | Tick(now: int)

  function Apply(t: Table, op: Op): (t': Table)
    requires ValidTable(t)
    ensures ValidTable(t')
  {
    match op
    case Update(ip, sec, r) => AfterUpdate(t, ip, sec, r)
    case Tick(now) => AfterTick(t, now)
  }

  /** The table a store reaches from empty by a history of operations. */
  function Replay(ops: seq<Op>): (t: Table)
    ensures ValidTable(t)
  {
    if ops == [] then map[] else Apply(Replay(ops[..|ops| - 1]), ops[|ops| - 1])
  }

  lemma ReplayStep(ops: seq<Op>, op: Op)
    ensures Replay(ops + [op]) == Apply(Replay(ops), op)
  {
    assert (ops + [op])[..|ops|] == ops;
  }

  /** The raw flow log: everything recorded for `ip` with time stamp `sec`. */
  function Logged(ops: seq<Op>, ip: Addr, sec: int): Tally {
    if ops == [] then NOTHING
    else
      var before := Logged(ops[..|ops| - 1], ip, sec);
      match ops[|ops| - 1]
      case Update(host, s, r) => if host == ip && s == sec then Sum(before, Weigh(r)) else before
      case Tick(_) => before
  }

  /** Everything logged for `ip` from second `lo` to second `hi`, both included. */
  function LoggedBetween(ops: seq<Op>, ip: Addr, lo: int, hi: int): Tally
    decreases hi - lo
  {
    if lo > hi then NOTHING else Sum(LoggedBetween(ops, ip, lo + 1, hi), Logged(ops, ip, lo))
  }

  /** What the records logged for `ip` at second `sec` amount to, by any measure of a record. */
  function Added(ops: seq<Op>, ip: Addr, sec: int, amount: Record -> nat): nat {
    if ops == [] then 0
    else
      var before := Added(ops[..|ops| - 1], ip, sec, amount);
      match ops[|ops| - 1]
      case Update(host, s, r) => if host == ip && s == sec then before + amount(r) else before
      case Tick(_) => before
  }

  function Packets(r: Record): nat { r.packets }

  function Octets(r: Record): nat { r.bytes }

  function UdpPackets(r: Record): nat { if r.proto == 17 then r.packets else 0 }

  function UdpOctets(r: Record): nat { if r.proto == 17 then r.bytes else 0 }

  function IcmpPackets(r: Record): nat { if r.proto == 1 || r.proto == 58 then r.packets else 0 }

  function IcmpOctets(r: Record): nat { if r.proto == 1 || r.proto == 58 then r.bytes else 0 }

  /** The log of a second adds up the packets and bytes of its records, in all and by protocol number. */
  lemma {:induction false} LogAddsRecords(ops: seq<Op>, ip: Addr, sec: int)
    ensures var t := Logged(ops, ip, sec);
            && t.Pkts() == Added(ops, ip, sec, Packets) && t.Bytes() == Added(ops, ip, sec, Octets)
            && t.udpPkts == Added(ops, ip, sec, UdpPackets) && t.udpBytes == Added(ops, ip, sec, UdpOctets)
            && t.icmpPkts == Added(ops, ip, sec, IcmpPackets) && t.icmpBytes == Added(ops, ip, sec, IcmpOctets)
  {
    TotalsAddUp(ops, ip, sec);
    UdpAddsUp(ops, ip, sec);
    IcmpAddsUp(ops, ip, sec);
    hide Logged, Added;
  }

  lemma {:induction false} TotalsAddUp(ops: seq<Op>, ip: Addr, sec: int)
    ensures Logged(ops, ip, sec).Pkts() == Added(ops, ip, sec, Packets)
    ensures Logged(ops, ip, sec).Bytes() == Added(ops, ip, sec, Octets)
  {
    hide Logged, Added, Sum, Weigh, Tally.Pkts, Tally.Bytes, Packets, Octets;
    forall a, b ensures Sum(a, b).Pkts() == a.Pkts() + b.Pkts() && Sum(a, b).Bytes() == a.Bytes() + b.Bytes() {
      SumTotals(a, b);
    }
    forall r ensures Weigh(r).Pkts() == Packets(r) && Weigh(r).Bytes() == Octets(r) {
      WeighTotals(r);
    }
    NothingTotals();
    PartAddsUp(ops, ip, sec, Packets, (t: Tally) => t.Pkts());
    PartAddsUp(ops, ip, sec, Octets, (t: Tally) => t.Bytes());
  }

  lemma SumTotals(a: Tally, b: Tally)
    ensures Sum(a, b).Pkts() == a.Pkts() + b.Pkts() && Sum(a, b).Bytes() == a.Bytes() + b.Bytes()
  {
  }

  lemma WeighTotals(r: Record)
    ensures Weigh(r).Pkts() == Packets(r) && Weigh(r).Bytes() == Octets(r)
  {
  }

  lemma NothingTotals()
    ensures NOTHING.Pkts() == 0 && NOTHING.Bytes() == 0
  {
  }

  lemma {:induction false} UdpAddsUp(ops: seq<Op>, ip: Addr, sec: int)
    ensures Logged(ops, ip, sec).udpPkts == Added(ops, ip, sec, UdpPackets)
    ensures Logged(ops, ip, sec).udpBytes == Added(ops, ip, sec, UdpOctets)
  {
    hide Logged, Added;
    PartAddsUp(ops, ip, sec, UdpPackets, (t: Tally) => t.udpPkts);
    PartAddsUp(ops, ip, sec, UdpOctets, (t: Tally) => t.udpBytes);
  }

  lemma {:induction false} IcmpAddsUp(ops: seq<Op>, ip: Addr, sec: int)
    ensures Logged(ops, ip, sec).icmpPkts == Added(ops, ip, sec, IcmpPackets)
    ensures Logged(ops, ip, sec).icmpBytes == Added(ops, ip, sec, IcmpOctets)
  {
    hide Logged, Added;
    PartAddsUp(ops, ip, sec, IcmpPackets, (t: Tally) => t.icmpPkts);
    PartAddsUp(ops, ip, sec, IcmpOctets, (t: Tally) => t.icmpBytes);
  }

  /** Any additive part of the log adds up what it takes of each record. */
  lemma {:induction false} PartAddsUp(ops: seq<Op>, ip: Addr, sec: int, amount: Record -> nat, part: Tally -> nat)
    requires part(NOTHING) == 0 && forall a, b :: part(Sum(a, b)) == part(a) + part(b)
    requires forall r :: part(Weigh(r)) == amount(r)
    ensures part(Logged(ops, ip, sec)) == Added(ops, ip, sec, amount)
  {
    hide Sum, Weigh;
    if ops != [] {
      PartAddsUp(ops[..|ops| - 1], ip, sec, amount, part);
    }
  }

  /** The second of the last Tick, `t0` before the first. */
  function Clock(t0: int, ops: seq<Op>): int {
    if ops == [] then t0
    else match ops[|ops| - 1]
         case Tick(now) => now
         case Update(_, _, _) => Clock(t0, ops[..|ops| - 1])
  }

  /** The oldest second the ring still distinguishes after `Tick(T)`, and the newest. */
  predicate InWindow(T: int, sec: int) {
    T - 58 <= sec <= T + 1
  }

  /** Ticks come every second, and between two of them only seconds of the current window are updated. */
  predicate Disciplined(t0: int, ops: seq<Op>) {
    ops == [] ||
    (var before := ops[..|ops| - 1];
     var T := Clock(t0, before);
     Disciplined(t0, before) &&
     match ops[|ops| - 1]
     case Tick(now) => now == T + 1
     case Update(_, sec, _) => InWindow(T, sec))
  }

  // ---- The window law --------------------------------------------------------------------------

  /** The bucket that stands for `sec`, empty for a host that has no ring. */
  function BucketAt(t: Table, ip: Addr, sec: int): Bucket
    requires ValidTable(t)
  {
    if ip in t then t[ip].buckets[Slot(sec)] else EMPTY
  }

  /** No record is from the future, and a host's ring or its absence accounts for every record of its. */
  lemma {:induction false} Recency(t0: int, ops: seq<Op>, k: nat)
    requires Disciplined(t0, ops) && k < |ops| && ops[k].Update?
    ensures var t, ip, sec, T := Replay(ops), ops[k].ip, ops[k].sec, Clock(t0, ops);
            sec <= T + 1 && (if ip in t then sec <= t[ip].lastSec || sec < T - WINDOW_SIZE else sec < T - WINDOW_SIZE)
    decreases |ops|
  {
    if k < |ops| - 1 {
      Recency(t0, ops[..|ops| - 1], k);
    }
  }

  lemma {:induction false} LoggedNothing(ops: seq<Op>, ip: Addr, sec: int)
    requires forall k :: 0 <= k < |ops| && ops[k].Update? && ops[k].ip == ip ==> ops[k].sec != sec
    ensures Logged(ops, ip, sec) == NOTHING
  {
    if ops != [] {
      LoggedNothing(ops[..|ops| - 1], ip, sec);
    }
  }

  /** Within the window, every bucket counts exactly the records logged for its second. */
  lemma {:induction false} WindowLaw(t0: int, ops: seq<Op>, ip: Addr, sec: int)
    requires Disciplined(t0, ops) && InWindow(Clock(t0, ops), sec)
    ensures BucketAt(Replay(ops), ip, sec) == Counted(Logged(ops, ip, sec))
    decreases |ops|
  {
    hide Slot, Counted, Charge, Sum, Weigh;
    if ops == [] {
      CountedNothing();
    } else {
      var before, last := ops[..|ops| - 1], ops[|ops| - 1];
      match last
      case Update(host, s, r) =>
        WindowLaw(t0, before, ip, sec);
        SlotsCoincide(s, sec);
        ChargeCounts(Logged(before, ip, sec), r);
      case Tick(now) =>
        if sec == now + 1 || !(ip in Replay(before) && Live(Replay(before)[ip], now)) {
          forall k | 0 <= k < |before| && before[k].Update? && before[k].ip == ip ensures before[k].sec != sec {
            Recency(t0, before, k);
          }
          LoggedNothing(before, ip, sec);
          CountedNothing();
        } else {
          SlotsCoincide(sec, now + 1);
          WindowLaw(t0, before, ip, sec);
        }
    }
  }

  /** Eviction loses nothing live: a host without a ring has no record in the window. */
  lemma AbsentHostsAreSilent(t0: int, ops: seq<Op>, ip: Addr, sec: int)
    requires Disciplined(t0, ops) && ip !in Replay(ops) && Clock(t0, ops) - WINDOW_SIZE <= sec
    ensures Logged(ops, ip, sec) == NOTHING
  {
    forall k | 0 <= k < |ops| && ops[k].Update? && ops[k].ip == ip ensures ops[k].sec != sec {
      Recency(t0, ops, k);
    }
    LoggedNothing(ops, ip, sec);
  }

  // ---- Last-seen seconds and eviction ----------------------------------------------------------

  /** Some record of `ip` was logged at second `from` or later. */
  ghost predicate SeenSince(ops: seq<Op>, ip: Addr, from: int) {
    exists k :: 0 <= k < |ops| && ops[k].Update? && ops[k].ip == ip && ops[k].sec >= from
  }

  /** `sec` is the last second at which a record of `ip` was logged. */
  ghost predicate IsLastSeen(ops: seq<Op>, ip: Addr, sec: int) {
    && (exists k :: 0 <= k < |ops| && ops[k].Update? && ops[k].ip == ip && ops[k].sec == sec)
    && (forall k :: 0 <= k < |ops| && ops[k].Update? && ops[k].ip == ip ==> ops[k].sec <= sec)
  }

  predicate SinceEpoch(ops: seq<Op>) {
    forall k :: 0 <= k < |ops| && ops[k].Update? ==> ops[k].sec >= 0
  }

  lemma {:induction false} LastSecIsLogged(t0: int, ops: seq<Op>, ip: Addr)
    requires Disciplined(t0, ops) && SinceEpoch(ops) && ip in Replay(ops)
    ensures Replay(ops)[ip].lastSec >= Clock(t0, ops) - 60
    ensures exists k :: 0 <= k < |ops| && ops[k].Update? && ops[k].ip == ip && ops[k].sec == Replay(ops)[ip].lastSec
    decreases |ops|
  {
    hide Charge, Slot;
    var before, last := ops[..|ops| - 1], ops[|ops| - 1];
    if ip in Replay(before) {
      LastSecIsLogged(t0, before, ip);
      var k :| 0 <= k < |before| && before[k].Update? && before[k].ip == ip
        && before[k].sec == Replay(before)[ip].lastSec;
      assert ops[k] == before[k];
    }
  }

  /** A ring's last second is the last second logged for its host. */
  lemma LastSecIsLastSeen(t0: int, ops: seq<Op>, ip: Addr)
    requires Disciplined(t0, ops) && SinceEpoch(ops) && ip in Replay(ops)
    ensures IsLastSeen(ops, ip, Replay(ops)[ip].lastSec)
  {
    LastSecIsLogged(t0, ops, ip);
    forall k | 0 <= k < |ops| && ops[k].Update? && ops[k].ip == ip ensures ops[k].sec <= Replay(ops)[ip].lastSec {
      Recency(t0, ops, k);
    }
  }

  /** From the clock's second on, a host is live exactly if it has a record of the last 60 seconds: eviction takes
      neither more nor less. */
  lemma {:induction false} LiveExactly(t0: int, ops: seq<Op>, ip: Addr, now: int)
    requires Disciplined(t0, ops) && SinceEpoch(ops) && now >= Clock(t0, ops)
    ensures ip in Replay(ops) && Live(Replay(ops)[ip], now) <==> SeenSince(ops, ip, now - 60)
  {
    if ip in Replay(ops) {
      LastSecIsLastSeen(t0, ops, ip);
    } else {
      forall k | 0 <= k < |ops| && ops[k].Update? && ops[k].ip == ip ensures ops[k].sec < now - 60 {
        Recency(t0, ops, k);
      }
    }
  }

  /** Right after a tick, a host is in the table exactly if it has a record of the last 60 seconds. */
  lemma PresentExactly(t0: int, ops: seq<Op>, ip: Addr, now: int)
    requires Disciplined(t0, ops + [Tick(now)]) && SinceEpoch(ops)
    ensures ip in Replay(ops + [Tick(now)]) <==> SeenSince(ops, ip, now - 60)
  {
    var more := ops + [Tick(now)];
    assert more[..|ops|] == ops && more[|ops|] == Tick(now);
    LiveExactly(t0, ops, ip, now);
    hide Live, Cleared;
  }

  /** The second that bucket `i` of a snapshot taken at the tick's own second stands for. */
  function SecondOf(T: int, i: nat): int {
    if i < WINDOW_SIZE - 1 then T - i else T + 1
  }

  /** A snapshot read at the tick's second: 59 buckets count the log, the oldest index is already T+1. */
  lemma SnapshotAtTick(t0: int, ops: seq<Op>, ip: Addr, window: int, i: nat)
    requires Disciplined(t0, ops)
    requires var T := Clock(t0, ops); i < |SnapshotOf(Replay(ops), ip, T, window)|
    ensures var T := Clock(t0, ops);
            SnapshotOf(Replay(ops), ip, T, window)[i] == Counted(Logged(ops, ip, SecondOf(T, i)))
  {
    hide Slot, Counted;
    var T := Clock(t0, ops);
    WindowLaw(t0, ops, ip, SecondOf(T, i));
    SlotsCoincide(T - i, SecondOf(T, i));
  }

  /** A snapshot read one second later counts the log in all its buckets. */
  lemma SnapshotAfterTick(t0: int, ops: seq<Op>, ip: Addr, window: int, i: nat)
    requires Disciplined(t0, ops)
    requires var now := Clock(t0, ops) + 1; i < |SnapshotOf(Replay(ops), ip, now, window)|
    ensures var now := Clock(t0, ops) + 1;
            SnapshotOf(Replay(ops), ip, now, window)[i] == Counted(Logged(ops, ip, now - i))
  {
    WindowLaw(t0, ops, ip, Clock(t0, ops) + 1 - i);
  }

  /** What the comment on Snapshot promises, read at second `now`: bucket `i` is second `now - i`. */
  ghost predicate NewestFirst(ops: seq<Op>, ip: Addr, now: int, window: int) {
    forall i :: 0 <= i < |SnapshotOf(Replay(ops), ip, now, window)| ==>
      SnapshotOf(Replay(ops), ip, now, window)[i] == Counted(Logged(ops, ip, now - i))
  }

  /** Read at the tick's second, the promise holds on every disciplined run exactly for windows below the full ring. */
  lemma DocumentedWindow(window: int)
    ensures (forall t0, ops, ip :: Disciplined(t0, ops) ==> NewestFirst(ops, ip, Clock(t0, ops), window))
       <==> window < WINDOW_SIZE
  {
    if window < WINDOW_SIZE {
      forall t0, ops, ip, i | Disciplined(t0, ops) && 0 <= i < |SnapshotOf(Replay(ops), ip, Clock(t0, ops), window)|
        ensures SnapshotOf(Replay(ops), ip, Clock(t0, ops), window)[i] == Counted(Logged(ops, ip, Clock(t0, ops) - i))
      {
        SnapshotAtTick(t0, ops, ip, window, i);
      }
    } else {
      var r :| r == Record(PROTO_UDP, 1, 1);
      var ip, ops := FullWindowMisreads(r, window);
      assert !NewestFirst(ops, ip, Clock(0, ops), window);
    }
  }

  /** A packet of the coming second shows up as the oldest bucket of a full window, where the log of that bucket's
      second is empty: one packet for 0.0.0.0, stamped one second ahead of the clock. */
  lemma FullWindowMisreads(r: Record, window: int) returns (ip: Addr, ops: seq<Op>)
    requires r.proto == PROTO_UDP && r.packets == 1 && window >= WINDOW_SIZE
    ensures Disciplined(0, ops) && Clock(0, ops) == 0 && ip == Addr(V4, seq(32, i => false), "")
    ensures |SnapshotOf(Replay(ops), ip, 0, window)| == WINDOW_SIZE
    ensures SnapshotOf(Replay(ops), ip, 0, window)[WINDOW_SIZE - 1].pps == 1
    ensures Counted(Logged(ops, ip, 0 - (WINDOW_SIZE - 1))).pps == 0
  {
    hide Replay, Disciplined, Logged, Clock, Counted, Weigh, SnapshotOf, Slot;
    ip := Addr(V4, seq(32, i => false), "");
    ops := [Update(ip, 1, r)];
    OneRecord(0, ip, 1, r);
    SnapshotAtTick(0, ops, ip, window, WINDOW_SIZE - 1);
    PacketsOf(r);
  }

  lemma PacketsOf(r: Record)
    ensures Counted(Weigh(r)).pps == r.packets && Counted(NOTHING).pps == 0
  {
    WrapSmall(r.packets);
    hide Wrap;
  }

  lemma OneRecord(t0: int, ip: Addr, sec: int, r: Record)
    requires InWindow(t0, sec)
    ensures var ops := [Update(ip, sec, r)];
            && Disciplined(t0, ops) && Clock(t0, ops) == t0
            && ip in Replay(ops)
            && forall s :: Logged(ops, ip, s) == if s == sec then Weigh(r) else NOTHING
  {
    hide Weigh, Charge, Slot, Blank;
    var ops := [Update(ip, sec, r)];
    assert ops[..0] == [];
    assert Sum(NOTHING, Weigh(r)) == Weigh(r);
  }

  // ---- A whole ring ----------------------------------------------------------------------------

  /** The second of the window after `Tick(T)` that slot `i` stands for. */
  function SecOfSlot(T: int, i: nat): int {
    T + 1 - (T + 1 - i) % WINDOW_SIZE
  }

  lemma SecOfSlotIs(T: int, i: nat, sec: int)
    requires i < WINDOW_SIZE
    ensures SecOfSlot(T, i) == sec <==> InWindow(T, sec) && Slot(sec) == i
  {
    SlotIsResidue(sec);
    hide Slot;
  }

  /** The log of the seconds that the first `n` slots stand for. */
  function SlotLog(ops: seq<Op>, ip: Addr, T: int, n: nat): Tally {
    if n == 0 then NOTHING else Sum(SlotLog(ops, ip, T, n - 1), Logged(ops, ip, SecOfSlot(T, n - 1)))
  }

  lemma {:induction false} SlotsCountTheLog(t0: int, ops: seq<Op>, ip: Addr, n: nat)
    requires Disciplined(t0, ops) && ip in Replay(ops) && n <= WINDOW_SIZE
    ensures Total(Replay(ops)[ip].buckets[..n]) == Counted(SlotLog(ops, ip, Clock(t0, ops), n))
    decreases n
  {
    hide Merge, Counted, Sum, Slot, SecOfSlot;
    var T, bs := Clock(t0, ops), Replay(ops)[ip].buckets;
    if n == 0 {
      CountedNothing();
    } else {
      SlotsCountTheLog(t0, ops, ip, n - 1);
      var sec := SecOfSlot(T, n - 1);
      SecOfSlotIs(T, n - 1, sec);
      WindowLaw(t0, ops, ip, sec);
      MergeCounts(SlotLog(ops, ip, T, n - 1), Logged(ops, ip, sec));
      assert bs[..n][..n - 1] == bs[..n - 1];
    }
  }

  /** What one more operation logs for `ip` between two seconds. */
  function Logs(op: Op, ip: Addr, from: int, to: int): Tally {
    match op
    case Update(host, s, r) => if host == ip && from <= s <= to then Weigh(r) else NOTHING
    case Tick(_) => NOTHING
  }

  lemma LoggedOneMore(ops: seq<Op>, op: Op, ip: Addr, sec: int)
    ensures Logged(ops + [op], ip, sec) == Sum(Logged(ops, ip, sec), Logs(op, ip, sec, sec))
  {
    hide Sum, Weigh;
    assert (ops + [op])[..|ops|] == ops;
    SumNothing(Logged(ops, ip, sec));
  }

  lemma {:induction false} BetweenOneMore(ops: seq<Op>, op: Op, ip: Addr, lo: int, hi: int)
    ensures LoggedBetween(ops + [op], ip, lo, hi) == Sum(LoggedBetween(ops, ip, lo, hi), Logs(op, ip, lo, hi))
    decreases hi - lo
  {
    hide Sum, Weigh, Logged;
    SumNothing(NOTHING);
    if lo <= hi {
      BetweenOneMore(ops, op, ip, lo + 1, hi);
      LoggedOneMore(ops, op, ip, lo);
      var rest, one := LoggedBetween(ops, ip, lo + 1, hi), Logged(ops, ip, lo);
      var more, now := Logs(op, ip, lo + 1, hi), Logs(op, ip, lo, lo);
      SumExchange(rest, more, one, now);
      SumNothing(more);
      SumNothing(now);
      SumCommutes(now, more);
    }
  }

  lemma SumExchange(a: Tally, b: Tally, c: Tally, d: Tally)
    ensures Sum(Sum(a, b), Sum(c, d)) == Sum(Sum(a, c), Sum(b, d))
  {
  }

  lemma SumCommutes(a: Tally, b: Tally)
    ensures Sum(a, b) == Sum(b, a)
  {
  }

  lemma {:induction false} SlotsOneMore(ops: seq<Op>, op: Op, ip: Addr, T: int, n: nat)
    requires n <= WINDOW_SIZE
    ensures SlotLog(ops + [op], ip, T, n)
         == Sum(SlotLog(ops, ip, T, n),
                if op.Update? && InWindow(T, op.sec) && Slot(op.sec) < n then Logs(op, ip, T - 58, T + 1) else NOTHING)
  {
    hide Sum, Weigh, Logged, Slot, SecOfSlot;
    SumNothing(NOTHING);
    if n > 0 {
      var sec := SecOfSlot(T, n - 1);
      SlotsOneMore(ops, op, ip, T, n - 1);
      LoggedOneMore(ops, op, ip, sec);
      if op.Update? {
        SecOfSlotIs(T, n - 1, op.sec);
        SecOfSlotIs(T, n - 1, sec);
      }
      var below := op.Update? && InWindow(T, op.sec) && Slot(op.sec) < n - 1;
      var fewer := if below then Logs(op, ip, T - 58, T + 1) else NOTHING;
      var rest, one, now := SlotLog(ops, ip, T, n - 1), Logged(ops, ip, sec), Logs(op, ip, sec, sec);
      SumExchange(rest, fewer, one, now);
      SumNothing(fewer);
      SumCommutes(fewer, now);
      SumNothing(now);
    }
  }

  /** The sixty slots stand for the sixty seconds from T-58 to T+1. */
  lemma {:induction false} SlotLogIsWindow(ops: seq<Op>, ip: Addr, T: int)
    ensures SlotLog(ops, ip, T, WINDOW_SIZE) == LoggedBetween(ops, ip, T - 58, T + 1)
  {
    hide Sum, Weigh, Slot, SlotLog, LoggedBetween, Logged;
    if ops == [] {
      NothingInSlots(ip, T, WINDOW_SIZE);
      NothingBetween(ip, T - 58, T + 1);
    } else {
      var before, last := ops[..|ops| - 1], ops[|ops| - 1];
      SlotLogIsWindow(before, ip, T);
      assert ops == before + [last];
      SlotsOneMore(before, last, ip, T, WINDOW_SIZE);
      BetweenOneMore(before, last, ip, T - 58, T + 1);
    }
  }

  lemma {:induction false} NothingInSlots(ip: Addr, T: int, n: nat)
    ensures SlotLog([], ip, T, n) == NOTHING
  {
    hide Sum;
    SumNothing(NOTHING);
    if n > 0 {
      NothingInSlots(ip, T, n - 1);
    }
  }

  lemma {:induction false} NothingBetween(ip: Addr, lo: int, hi: int)
    ensures LoggedBetween([], ip, lo, hi) == NOTHING
    decreases hi - lo
  {
    hide Sum;
    SumNothing(NOTHING);
    if lo <= hi {
      NothingBetween(ip, lo + 1, hi);
    }
  }

  /** On every disciplined run the sums of a ring count the host's log of the sixty seconds from T-58 to T+1. */
  lemma RingCountsTheLog(t0: int, ops: seq<Op>, ip: Addr)
    requires Disciplined(t0, ops) && ip in Replay(ops)
    ensures var T := Clock(t0, ops);
            Total(Replay(ops)[ip].buckets) == Counted(LoggedBetween(ops, ip, T - 58, T + 1))
  {
    hide Total, Counted, SlotLog, LoggedBetween, Disciplined, Clock;
    var bs := Replay(ops)[ip].buckets;
    SlotsCountTheLog(t0, ops, ip, WINDOW_SIZE);
    assert bs[..WINDOW_SIZE] == bs;
    SlotLogIsWindow(ops, ip, Clock(t0, ops));
  }

  // ---- Every reachable bucket ------------------------------------------------------------------

  /** The totals are the sum of the protocol counters. */
  predicate Balanced(b: Bucket) {
    && b.pps == Add(Add(b.ppsUDP, b.ppsICMP), b.ppsOther)
    && b.bps == Add(Add(b.bpsUDP, b.bpsICMP), b.bpsOther)
  }

  lemma ChargeBalances(b: Bucket, r: Record)
    requires Balanced(b)
    ensures Balanced(Charge(b, r))
  {
    AddToOne(b.ppsUDP, b.ppsICMP, b.ppsOther, r.packets);
    AddToOne(b.bpsUDP, b.bpsICMP, b.bpsOther, r.bytes);
    hide Add;
  }

  lemma AddToOne(a: U64, b: U64, c: U64, x: U64)
    ensures Add(Add(Add(a, b), c), x) == Add(Add(Add(a, x), b), c)
    ensures Add(Add(Add(a, b), c), x) == Add(Add(a, Add(b, x)), c)
    ensures Add(Add(Add(a, b), c), x) == Add(Add(a, b), Add(c, x))
  {
  }

  lemma MergeBalances(b: Bucket, o: Bucket)
    requires Balanced(b) && Balanced(o)
    ensures Balanced(Merge(b, o))
  {
    AddExchange(b.ppsUDP, o.ppsUDP, b.ppsICMP, o.ppsICMP);
    AddExchange(Add(b.ppsUDP, b.ppsICMP), Add(o.ppsUDP, o.ppsICMP), b.ppsOther, o.ppsOther);
    AddExchange(b.bpsUDP, o.bpsUDP, b.bpsICMP, o.bpsICMP);
    AddExchange(Add(b.bpsUDP, b.bpsICMP), Add(o.bpsUDP, o.bpsICMP), b.bpsOther, o.bpsOther);
    hide Add;
  }

  /** On every run, disciplined or not, every bucket of every ring is balanced. */
  lemma {:induction false} ReachableBucketsBalance(ops: seq<Op>, ip: Addr, i: nat)
    requires ip in Replay(ops) && i < WINDOW_SIZE
    ensures Balanced(Replay(ops)[ip].buckets[i])
    decreases |ops|
  {
    var before, last := ops[..|ops| - 1], ops[|ops| - 1];
    if ip in Replay(before) {
      ReachableBucketsBalance(before, ip, i);
    }
    if last.Update? && last.ip == ip {
      ChargeBalances(if ip in Replay(before) then Replay(before)[ip].buckets[i] else EMPTY, last.r);
    }
  }
}
