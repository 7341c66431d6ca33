/** What one tick decides about one host (detect/classify.go, detect/engine.go), on values and on the raw log. */
module Judgement {
  import opened Options
  import opened Words
  import opened Net
  import opened Traffic
  import opened Window
  import opened Thresholds
  import opened Lifecycle
  import Sorting

  /** The majority vector of summed counters, `2*x` being computed on uint64. */
  function Dominating(sum: Bucket): Option<Vector> {
    if sum.pps == 0 then None
    else if Twice(sum.ppsUDP) > sum.pps then Some(UdpFlood)
    else if Twice(sum.ppsICMP) > sum.pps then Some(IcmpFlood)
    else None
  }

  method Classify(buckets: seq<Bucket>) returns (v: Option<Vector>)
    ensures v == Dominating(Total(buckets))
  {
    var totalPps: U64, udpPps: U64, icmpPps: U64 := 0, 0, 0;
    for i := 0 to |buckets|
      invariant var s := Total(buckets[..i]); totalPps == s.pps && udpPps == s.ppsUDP && icmpPps == s.ppsICMP
    {
      hide Add;
      assert buckets[..i + 1][..i] == buckets[..i];
      var b := buckets[i];
      totalPps := Add(totalPps, b.pps);
      udpPps := Add(udpPps, b.ppsUDP);
      icmpPps := Add(icmpPps, b.ppsICMP);
    }
    assert buckets[..|buckets|] == buckets;
    if totalPps == 0 {
      return None;
    }
    if Twice(udpPps) > totalPps {
      return Some(UdpFlood);
    }
    if Twice(icmpPps) > totalPps {
      return Some(IcmpFlood);
    }
    return None;
  }

  /** What a tick finds for a host whose dominating vector has a threshold. */
  datatype Verdict = Verdict(
    key: Key, t: Threshold, now: int, currentPps: U64, currentBps: U64, avgPps: U64, avgBps: U64, violating: bool)

  function MaxWindow(ts: seq<Threshold>): int {
    if ts == [] then 0
    else
      var before := MaxWindow(ts[..|ts| - 1]);
      if ts[|ts| - 1].minWindowSec > before then ts[|ts| - 1].minWindowSec else before
  }

  /** The schema's CHECK (min_window_sec > 0). */
  ghost predicate PositiveWindows(ts: seq<Threshold>) {
    forall t :: t in ts ==> t.minWindowSec > 0
  }

  /** How many buckets a snapshot for these thresholds holds. */
  function Width(ts: seq<Threshold>): int {
    var w := MaxWindow(ts);
    if w < 1 then 5 else if w > WINDOW_SIZE then WINDOW_SIZE else w
  }

  /** Integer division on uint64. */
  function Mean(sum: U64, n: nat): U64
    requires n > 0
  {
    MeanIsSmaller(sum, n);
    sum / n
  }

  lemma MeanIsSmaller(sum: nat, n: nat)
    requires n > 0
    ensures 0 <= sum / n <= sum
  {
    QuotientBounded(sum, n, sum / n, sum % n);
  }

  lemma QuotientBounded(a: nat, n: nat, q: int, r: nat)
    requires a == n * q + r && r < n
    ensures 0 <= q <= a
  {
    if q < 0 {
      ProductGrows(n, q, -1);
    } else {
      ProductGrows(q, 1, n);
    }
  }

  /** The verdict from the sums over the chosen threshold's window and the current bucket. */
  function Decide(ip: Addr, t: Threshold, n: nat, now: int, sum: Bucket, current: Bucket): Verdict
    requires n > 0
  {
    var avgPps, avgBps := Mean(sum.pps, n), Mean(sum.bps, n);
    Verdict(Key(ip, t.vector), t, now, current.pps, current.bps, avgPps, avgBps, avgPps > t.pps || avgBps > t.bps)
  }

  lemma {:induction false} MaxWindowBounds(ts: seq<Threshold>)
    ensures forall t :: t in ts ==> t.minWindowSec <= MaxWindow(ts)
    ensures MaxWindow(ts) == 0 || exists t :: t in ts && t.minWindowSec == MaxWindow(ts)
    ensures MaxWindow(ts) >= 0
  {
    if ts != [] {
      var n := |ts| - 1;
      assert ts == ts[..n] + [ts[n]];
      MaxWindowBounds(ts[..n]);
    }
  }

  /** The snapshot covers the widest window of the thresholds, up to a minute. */
  lemma WidthIsWidest(ts: seq<Threshold>)
    requires PositiveWindows(ts) && ts != []
    ensures forall t :: t in ts ==> (if t.minWindowSec > 60 then 60 else t.minWindowSec) <= Width(ts)
    ensures exists t :: t in ts && Width(ts) == if t.minWindowSec > 60 then 60 else t.minWindowSec
  {
    MaxWindowBounds(ts);
    assert ts[0] in ts;
  }

  /** The averaging window is never empty, and never longer than the snapshot. */
  lemma WindowFits(ts: seq<Threshold>, v: Vector)
    requires PositiveWindows(ts) && FirstFor(ts, v).Some?
    ensures var n := Min(FirstFor(ts, v).value.minWindowSec, Width(ts)); 1 <= n <= Width(ts) <= WINDOW_SIZE
  {
    FirstForMembers(ts, v);
    MaxWindowBounds(ts);
  }

  /** evalHost up to its verdict, given the thresholds looked up and the snapshot taken. */
  function JudgeSnapshot(ip: Addr, ts: seq<Threshold>, buckets: seq<Bucket>, now: int): Option<Verdict>
    requires PositiveWindows(ts)
    requires |buckets| == 0 || |buckets| == Width(ts)
  {
    if ts == [] || buckets == [] then None
    else
      var v := Dominating(Total(buckets));
      if v.None? then None
      else
        var t := FirstFor(ts, v.value);
        if t.None? then None
        else
          WindowFits(ts, v.value);
          FirstForMembers(ts, v.value);
          var n := Min(t.value.minWindowSec, |buckets|);
          Some(Decide(ip, t.value, n, now, Total(buckets[..n]), buckets[0]))
  }

  /** The verdict on a host from the counters. */
  function Judge(cat: seq<Threshold>, table: Table, ip: Addr, sec: int, now: int): Option<Verdict>
    requires ValidTable(table) && PositiveWindows(LookupIn(cat, ip))
  {
    JudgeSnapshot(ip, LookupIn(cat, ip), SnapshotOf(table, ip, sec, Width(LookupIn(cat, ip))), now)
  }

  /** Neither the order of the configured rows nor that of equals after the sort can change a verdict. */
  lemma CatalogOrderIsInvisible(cat: seq<Threshold>, cat': seq<Threshold>, table: Table, ip: Addr, sec: int, now: int)
    requires multiset(cat) == multiset(cat') && OnePerGroup(cat)
    requires Sorting.Sorted(cat, Before()) && Sorting.Sorted(cat', Before())
    requires ValidTable(table) && PositiveWindows(LookupIn(cat, ip))
    ensures PositiveWindows(LookupIn(cat', ip))
    ensures Judge(cat, table, ip, sec, now) == Judge(cat', table, ip, sec, now)
  {
    var ts, ts' := LookupIn(cat, ip), LookupIn(cat', ip);
    SameLookups(cat, cat', ip);
    MaxWindowBounds(ts);
    MaxWindowBounds(ts');
    assert MaxWindow(ts) == MaxWindow(ts');
    EmptyOrMember(ts);
    EmptyOrMember(ts');
    hide LookupIn, SnapshotOf, Decide, Total, FirstFor, OnePerGroup, Sorting.Sorted, MaxWindow;
    var v := Dominating(Total(SnapshotOf(table, ip, sec, Width(ts))));
    if v.Some? {
      SameChoice(cat, cat', ip, v.value);
    }
  }

  lemma SameLookups(cat: seq<Threshold>, cat': seq<Threshold>, ip: Addr)
    requires multiset(cat) == multiset(cat')
    ensures forall t :: t in LookupIn(cat, ip) <==> t in LookupIn(cat', ip)
  {
    SameMembers(cat, cat');
    forall t ensures t in LookupIn(cat, ip) <==> t in LookupIn(cat', ip) {
      BestAreLookedUp(cat, ip, t);
      BestAreLookedUp(cat', ip, t);
    }
  }

  // ---- The same verdict from the raw flow log --------------------------------------------------

  /** Everything logged for `ip` in the `n` seconds that the first `n` buckets stand for. */
  function LogWindow(ops: seq<Op>, ip: Addr, T: int, n: nat): Tally {
    if n == 0 then NOTHING else Sum(LogWindow(ops, ip, T, n - 1), Logged(ops, ip, SecondOf(T, n - 1)))
  }

  function JudgeLog(cat: seq<Threshold>, ops: seq<Op>, ip: Addr, T: int, now: int): Option<Verdict>
    requires PositiveWindows(LookupIn(cat, ip))
  {
    var ts := LookupIn(cat, ip);
    if ts == [] then None
    else
      var v := Dominating(Counted(LogWindow(ops, ip, T, Width(ts))));
      if v.None? || FirstFor(ts, v.value).None? then None
      else
        WindowFits(ts, v.value);
        var t := FirstFor(ts, v.value).value;
        var n := Min(t.minWindowSec, Width(ts));
        Some(Decide(ip, t, n, now, Counted(LogWindow(ops, ip, T, n)), Counted(Logged(ops, ip, T))))
  }

  lemma {:induction false} SnapshotTotals(t0: int, ops: seq<Op>, ip: Addr, window: int, n: nat)
    requires Disciplined(t0, ops) && ip in Replay(ops)
    requires var T := Clock(t0, ops); n <= |SnapshotOf(Replay(ops), ip, T, window)|
    ensures var T := Clock(t0, ops);
            Total(SnapshotOf(Replay(ops), ip, T, window)[..n]) == Counted(LogWindow(ops, ip, T, n))
    decreases n
  {
    hide Merge, Counted, Sum, SnapshotOf;
    var T := Clock(t0, ops);
    var snap := SnapshotOf(Replay(ops), ip, T, window);
    if n == 0 {
      CountedNothing();
    } else {
      SnapshotTotals(t0, ops, ip, window, n - 1);
      assert snap[..n][..n - 1] == snap[..n - 1];
      SnapshotAtTick(t0, ops, ip, window, n - 1);
      MergeCounts(LogWindow(ops, ip, T, n - 1), Logged(ops, ip, SecondOf(T, n - 1)));
    }
  }

  lemma {:induction false} SilentWindow(t0: int, ops: seq<Op>, ip: Addr, n: nat)
    requires Disciplined(t0, ops) && ip !in Replay(ops) && n <= WINDOW_SIZE
    ensures LogWindow(ops, ip, Clock(t0, ops), n) == NOTHING
  {
    hide Sum;
    if n > 0 {
      SumNothing(NOTHING);
      SilentWindow(t0, ops, ip, n - 1);
      AbsentHostsAreSilent(t0, ops, ip, SecondOf(Clock(t0, ops), n - 1));
    }
  }

  /** On every disciplined run, the engine judges exactly what the raw log says: the ring, its clearing and the
      eviction of cold hosts are invisible. */
  lemma JudgesTheLog(cat: seq<Threshold>, t0: int, ops: seq<Op>, ip: Addr, now: int)
    requires Disciplined(t0, ops) && PositiveWindows(LookupIn(cat, ip))
    ensures var T := Clock(t0, ops);
            Judge(cat, Replay(ops), ip, T, now) == JudgeLog(cat, ops, ip, T, now)
  {
    hide Counted, Merge, Sum, LookupIn, Decide;
    var T, ts := Clock(t0, ops), LookupIn(cat, ip);
    var w := Width(ts);
    var snap := SnapshotOf(Replay(ops), ip, T, w);
    if ip !in Replay(ops) {
      SilentWindow(t0, ops, ip, w);
      CountedNothing();
    } else if ts != [] {
      SnapshotTotals(t0, ops, ip, w, w);
      assert snap[..w] == snap;
      SnapshotAtTick(t0, ops, ip, w, 0);
      var v := Dominating(Total(snap));
      if v.Some? && FirstFor(ts, v.value).Some? {
        WindowFits(ts, v.value);
        SnapshotTotals(t0, ops, ip, w, Min(FirstFor(ts, v.value).value.minWindowSec, w));
      }
    }
  }

  /** The rates of a verdict: the current ones count the tick's own second, the averages divide the sums over the
      threshold's window by its length. */
  ghost predicate RatesTell(v: Verdict, now: int, own: Tally, n: nat, current: Tally) {
    && v.now == now && n > 0
    && v.currentPps == Wrap(current.Pkts()) && v.currentBps == Wrap(current.Bytes())
    && v.avgPps == Wrap(own.Pkts()) / n && v.avgBps == Wrap(own.Bytes()) / n
  }

  /** On every disciplined run the rates of every verdict are those of the raw log, for windows of any length. */
  lemma RatesReadTheLog(cat: seq<Threshold>, t0: int, ops: seq<Op>, ip: Addr, now: int)
    requires Disciplined(t0, ops) && PositiveWindows(LookupIn(cat, ip))
    ensures var T := Clock(t0, ops);
            var r := Judge(cat, Replay(ops), ip, T, now);
            r.Some? ==>
              var n := Min(r.value.t.minWindowSec, Width(LookupIn(cat, ip)));
              n > 0 && RatesTell(r.value, now, LogWindow(ops, ip, T, n), n, Logged(ops, ip, T))
  {
    hide LookupIn, Judge, Replay, RatesTell, Logged, Disciplined;
    var T, ts := Clock(t0, ops), LookupIn(cat, ip);
    JudgesTheLog(cat, t0, ops, ip, now);
    var v := Dominating(Counted(LogWindow(ops, ip, T, Width(ts))));
    hide Clock, Dominating, Counted, LogWindow, Decide;
    if v.Some? && FirstFor(ts, v.value).Some? {
      WindowFits(ts, v.value);
      FirstForMembers(ts, v.value);
      var t := FirstFor(ts, v.value).value;
      var n := Min(t.minWindowSec, Width(ts));
      DecideTells(ip, t, n, now, LogWindow(ops, ip, T, n), Logged(ops, ip, T));
    }
    hide FirstFor, Width;
  }

  lemma DecideTells(ip: Addr, t: Threshold, n: nat, now: int, own: Tally, current: Tally)
    requires n > 0
    ensures var v := Decide(ip, t, n, now, Counted(own), Counted(current));
            RatesTell(v, now, own, n, current) && v.t == t
  {
    hide Wrap;
  }

  // ---- In exact arithmetic ---------------------------------------------------------------------

  /** The protocol with more than half of the packets. */
  function Majority(all: Tally): Option<Vector> {
    if 2 * all.udpPkts > all.Pkts() then Some(UdpFlood)
    else if 2 * all.icmpPkts > all.Pkts() then Some(IcmpFlood)
    else None
  }

  /** `n` seconds of traffic average above a threshold. */
  predicate Exceeds(own: Tally, n: nat, t: Threshold) {
    AveragesAbove(own.Pkts(), n, t.pps) || AveragesAbove(own.Bytes(), n, t.bps)
  }

  /** Without division: at least one more than the limit in each of the `n` seconds, taken together. */
  predicate AveragesAbove(sum: nat, n: nat, limit: nat) {
    sum >= n * (limit + 1)
  }

  /** The verdict the raw log calls for: the exact majority over the widest window picks the threshold, whose own
      window decides. */
  ghost predicate CalledFor(ts: seq<Threshold>, ops: seq<Op>, ip: Addr, T: int, r: Option<Verdict>) {
    var major := Majority(LogWindow(ops, ip, T, Width(ts)));
    if major.None? || FirstFor(ts, major.value).None? then r == None
    else
      && r.Some? && r.value.key == Key(ip, major.value) && Some(r.value.t) == FirstFor(ts, major.value)
      && var n := Min(r.value.t.minWindowSec, Width(ts));
         n > 0 && (r.value.violating <==> Exceeds(LogWindow(ops, ip, T, n), n, r.value.t))
  }

  /** While the counters of the widest window do not wrap, the verdict is the one the raw log calls for in exact
      arithmetic if and only if doubling the packets of UDP or of ICMP does not wrap either, or the majority has no
      threshold anyway. */
  lemma JudgesExactly(cat: seq<Threshold>, ops: seq<Op>, ip: Addr, T: int, now: int)
    requires PositiveWindows(LookupIn(cat, ip))
    requires LogWindow(ops, ip, T, Width(LookupIn(cat, ip))).Pkts() < TWO_64
    requires LogWindow(ops, ip, T, Width(LookupIn(cat, ip))).Bytes() < TWO_64
    ensures var ts := LookupIn(cat, ip);
            var all := LogWindow(ops, ip, T, Width(ts));
            CalledFor(ts, ops, ip, T, JudgeLog(cat, ops, ip, T, now)) <==>
              (Majority(all).Some? && FirstFor(ts, Majority(all).value).Some? ==> DoublesFit(all))
  {
    var ts := LookupIn(cat, ip);
    hide LookupIn;
    var all := LogWindow(ops, ip, T, Width(ts));
    DominatingIsMajority(all);
    var v := Majority(all);
    hide Dominating, Counted, Majority, Exceeds, DoublesFit;
    if v.Some? && FirstFor(ts, v.value).Some? {
      WindowFits(ts, v.value);
      FirstForMembers(ts, v.value);
      var t := FirstFor(ts, v.value).value;
      var n := Min(t.minWindowSec, Width(ts));
      LogWindowGrows(ops, ip, T, n, Width(ts));
      DecidesExactly(ip, t, n, now, LogWindow(ops, ip, T, n), Counted(Logged(ops, ip, T)));
    }
  }

  /** The two counters that Classify doubles stay below 2^63. */
  predicate DoublesFit(all: Tally) {
    all.udpPkts < TWO_63 && all.icmpPkts < TWO_63
  }

  /** Doubling on uint64 makes the majority test blind to huge rates, and to nothing else: it finds the majority
      exactly while the doubles fit, and no vector at all otherwise. */
  lemma DominatingIsMajority(all: Tally)
    requires all.Pkts() < TWO_64
    ensures Dominating(Counted(all)) == Majority(all) <==> DoublesFit(all)
    ensures !DoublesFit(all) ==> Dominating(Counted(all)).None? && Majority(all).Some?
  {
    WrapSmall(all.Pkts());
    WrapSmall(all.udpPkts);
    WrapSmall(all.icmpPkts);
    hide Wrap;
  }

  /** A flood of 2^63 UDP packets in one second that the engine does not see: on a disciplined run of one record, with
      one threshold for the host's address, the log calls for a violating verdict and there is none. */
  lemma HugeFloodIsMissed(t0: int, now: int, bytes: U64, packets: U64)
    returns (cat: seq<Threshold>, ip: Addr, ops: seq<Op>)
    requires packets == TWO_63
    ensures ip == Addr(V4, seq(32, i => false), "")
    ensures ops == [Update(ip, t0, Record(PROTO_UDP, bytes, packets))]
    ensures Disciplined(t0, ops) && Clock(t0, ops) == t0
    ensures LookupIn(cat, ip) == cat && |cat| == 1 && PositiveWindows(cat) && cat[0].vector == UdpFlood
    ensures Majority(LogWindow(ops, ip, t0, 1)) == Some(UdpFlood)
    ensures cat[0].minWindowSec == 1 && Exceeds(LogWindow(ops, ip, t0, 1), 1, cat[0])
    ensures Judge(cat, Replay(ops), ip, t0, now) == None
  {
    ip := Addr(V4, seq(32, i => false), "");
    var r := Record(PROTO_UDP, bytes, packets);
    ops := [Update(ip, t0, r)];
    var t := Threshold(1, "customers", Prefix(ip, 32), UdpFlood, 1000, 1000000, 1, 60);
    cat := [t];
    OnlyOne(t, ip);
    OneRecord(t0, ip, t0, r);
    hide Replay, Disciplined, LookupIn, Logged, Clock;
    OneSecond(ops, ip, t0);
    JudgesTheLog(cat, t0, ops, ip, now);
    var all := Weigh(r);
    WidthOfOne(t);
    DominatingIsMajority(all);
    hide Judge, Dominating, LogWindow, Width, Counted;
  }

  lemma OnlyOne(t: Threshold, ip: Addr)
    requires Contains(t.prefix, ip)
    ensures LookupIn([t], ip) == [t]
  {
    assert [t][..0] == [];
    assert t.prefix.bits >= 0;
    hide Contains;
    assert BestBits([], ip) == -1 && Matching([], ip, t.prefix.bits) == [];
  }

  lemma OneSecond(ops: seq<Op>, ip: Addr, T: int)
    ensures LogWindow(ops, ip, T, 1) == Logged(ops, ip, T)
  {
    hide Logged;
    assert LogWindow(ops, ip, T, 0) == NOTHING;
    assert Sum(NOTHING, Logged(ops, ip, T)) == Logged(ops, ip, T);
  }

  lemma WidthOfOne(t: Threshold)
    requires t.minWindowSec == 1
    ensures Width([t]) == 1
  {
    var ts := [t];
    assert ts[..|ts| - 1] == [];
    assert MaxWindow(ts[..|ts| - 1]) == 0;
    assert MaxWindow(ts) == 1;
  }

  lemma {:induction false} LogWindowGrows(ops: seq<Op>, ip: Addr, T: int, n: nat, m: nat)
    requires n <= m
    ensures LogWindow(ops, ip, T, n).Pkts() <= LogWindow(ops, ip, T, m).Pkts()
    ensures LogWindow(ops, ip, T, n).Bytes() <= LogWindow(ops, ip, T, m).Bytes()
    decreases m
  {
    if n < m {
      LogWindowGrows(ops, ip, T, n, m - 1);
    }
  }

  lemma DecidesExactly(ip: Addr, t: Threshold, n: nat, now: int, own: Tally, current: Bucket)
    requires n > 0 && own.Pkts() < TWO_64 && own.Bytes() < TWO_64
    ensures Decide(ip, t, n, now, Counted(own), current).violating <==> Exceeds(own, n, t)
  {
    hide Mean, AveragesAbove;
    WrapSmall(own.Pkts());
    WrapSmall(own.Bytes());
    hide Wrap;
    MeanExceeds(own.Pkts(), n, t.pps);
    MeanExceeds(own.Bytes(), n, t.bps);
  }

  lemma MeanExceeds(a: U64, n: nat, limit: U64)
    requires n > 0
    ensures Mean(a, n) > limit <==> AveragesAbove(a, n, limit)
  {
    QuotientExceeds(a, n, limit, a / n, a % n);
  }

  lemma QuotientExceeds(a: nat, n: nat, limit: nat, q: nat, r: nat)
    requires a == n * q + r && r < n
    ensures q > limit <==> a >= n * (limit + 1)
  {
    if q > limit {
      ProductGrows(n, limit + 1, q);
    } else {
      ProductGrows(n, q, limit);
    }
    assert n * (limit + 1) == n * limit + n;
  }

  /** The seconds a window up to 59 covers are exactly the last `n`, ending at the tick's own second. */
  lemma {:induction false} LogWindowIsLastSeconds(ops: seq<Op>, ip: Addr, T: int, n: nat)
    requires n < WINDOW_SIZE
    ensures LogWindow(ops, ip, T, n) == LoggedBetween(ops, ip, T - n + 1, T)
  {
    hide Sum;
    if n > 0 {
      LogWindowIsLastSeconds(ops, ip, T, n - 1);
    }
  }

  /** The verdict that the last seconds of the log call for, ending at second `T`: the exact majority over the widest
      window picks the threshold, and the traffic of that threshold's own last seconds decides. */
  ghost predicate LastSecondsCallFor(ts: seq<Threshold>, ops: seq<Op>, ip: Addr, T: int, now: int,
                                     r: Option<Verdict>) {
    var major := Majority(LoggedBetween(ops, ip, T - Width(ts) + 1, T));
    if major.None? || FirstFor(ts, major.value).None? then r == None
    else
      && r.Some? && r.value.key == Key(ip, major.value) && Some(r.value.t) == FirstFor(ts, major.value)
      && var n := r.value.t.minWindowSec;
         n > 0 && RatesFollow(r.value, now, LoggedBetween(ops, ip, T - n + 1, T), n, Logged(ops, ip, T))
  }

  /** In exact arithmetic: rates and violation follow from what was logged. */
  ghost predicate RatesFollow(v: Verdict, now: int, own: Tally, n: nat, current: Tally)
    requires n > 0
  {
    && v.now == now
    && v.currentPps == current.Pkts() && v.currentBps == current.Bytes()
    && v.avgPps == own.Pkts() / n && v.avgBps == own.Bytes() / n
    && (v.violating <==> Exceeds(own, n, v.t))
  }

  /** With windows up to 59 and counters that do not wrap, on every disciplined run the verdict reached from the ring
      is the one that the last seconds of the raw log call for in exact arithmetic, if and only if the doubles fit or
      the majority has no threshold. */
  lemma RingJudgesLastSeconds(cat: seq<Threshold>, t0: int, ops: seq<Op>, ip: Addr, now: int)
    requires Disciplined(t0, ops) && PositiveWindows(LookupIn(cat, ip))
    requires forall t :: t in LookupIn(cat, ip) ==> t.minWindowSec < WINDOW_SIZE
    requires var (T, w) := (Clock(t0, ops), Width(LookupIn(cat, ip)));
             var all := LoggedBetween(ops, ip, T - w + 1, T);
             all.Pkts() < TWO_64 && all.Bytes() < TWO_64
    ensures var (T, ts) := (Clock(t0, ops), LookupIn(cat, ip));
            var all := LoggedBetween(ops, ip, T - Width(ts) + 1, T);
            LastSecondsCallFor(ts, ops, ip, T, now, Judge(cat, Replay(ops), ip, T, now)) <==>
              (Majority(all).Some? && FirstFor(ts, Majority(all).value).Some? ==> DoublesFit(all))
  {
    hide LookupIn, Majority, Judge, JudgeLog, DoublesFit, Replay, Disciplined, CalledFor, LastSecondsCallFor, FirstFor;
    var T, ts := Clock(t0, ops), LookupIn(cat, ip);
    WindowsAreShort(ts);
    LogWindowIsLastSeconds(ops, ip, T, Width(ts));
    hide Clock, Width, LogWindow, LoggedBetween;
    JudgesTheLog(cat, t0, ops, ip, now);
    JudgesExactly(cat, ops, ip, T, now);
    RatesReadTheLog(cat, t0, ops, ip, now);
    SameCall(ts, ops, ip, T, now, JudgeLog(cat, ops, ip, T, now));
  }

  /** With short windows and counters that do not wrap, a verdict with the log's rates is called for by the last
      seconds exactly if it is called for by the window. */
  lemma SameCall(ts: seq<Threshold>, ops: seq<Op>, ip: Addr, T: int, now: int, r: Option<Verdict>)
    requires PositiveWindows(ts) && forall t :: t in ts ==> t.minWindowSec < WINDOW_SIZE
    requires var all := LogWindow(ops, ip, T, Width(ts)); all.Pkts() < TWO_64 && all.Bytes() < TWO_64
    requires r.Some? ==>
               var n := Min(r.value.t.minWindowSec, Width(ts));
               n > 0 && RatesTell(r.value, now, LogWindow(ops, ip, T, n), n, Logged(ops, ip, T))
    ensures CalledFor(ts, ops, ip, T, r) <==> LastSecondsCallFor(ts, ops, ip, T, now, r)
  {
    hide Majority, Exceeds, LogWindow, LoggedBetween, FirstFor, Width, Min, RatesTell, RatesFollow, Logged;
    WindowsAreShort(ts);
    var w := Width(ts);
    LogWindowIsLastSeconds(ops, ip, T, w);
    var major := Majority(LogWindow(ops, ip, T, w));
    if major.Some? && FirstFor(ts, major.value).Some? {
      FirstForMembers(ts, major.value);
      var t := FirstFor(ts, major.value).value;
      var n := t.minWindowSec;
      MaxWindowBounds(ts);
      LogWindowIsLastSeconds(ops, ip, T, n);
      if r.Some? && r.value.t == t {
        WindowShort(ts, t);
        LogWindowGrows(ops, ip, T, n, w);
        LogWindowGrows(ops, ip, T, 1, w);
        OneSecond(ops, ip, T);
        TellIsFollow(r.value, now, LogWindow(ops, ip, T, n), n, Logged(ops, ip, T));
      }
    }
  }

  lemma TellIsFollow(v: Verdict, now: int, own: Tally, n: nat, current: Tally)
    requires n > 0 && RatesTell(v, now, own, n, current)
    requires own.Pkts() < TWO_64 && own.Bytes() < TWO_64 && current.Pkts() < TWO_64 && current.Bytes() < TWO_64
    ensures RatesFollow(v, now, own, n, current) <==> (v.violating <==> Exceeds(own, n, v.t))
  {
    WrapSmall(own.Pkts());
    WrapSmall(own.Bytes());
    WrapSmall(current.Pkts());
    WrapSmall(current.Bytes());
    hide Wrap, Exceeds;
  }

  lemma WindowShort(ts: seq<Threshold>, t: Threshold)
    requires PositiveWindows(ts) && t in ts
    ensures 1 <= t.minWindowSec
    ensures t.minWindowSec < WINDOW_SIZE ==> t.minWindowSec <= Width(ts)
  {
    MaxWindowBounds(ts);
  }

  /** Short positive windows: the widest is short too, and none is cut. */
  lemma WindowsAreShort(ts: seq<Threshold>)
    requires PositiveWindows(ts) && forall t :: t in ts ==> t.minWindowSec < WINDOW_SIZE
    ensures 0 < Width(ts) < WINDOW_SIZE
    ensures forall t :: t in ts ==> Min(t.minWindowSec, Width(ts)) == t.minWindowSec
  {
    MaxWindowBounds(ts);
  }
}
