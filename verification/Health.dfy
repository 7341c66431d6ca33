/** Per-exporter arrival counters (ingest/health.go): a 60-slot ring cleared lazily when the next flow arrives. */
module Health {
  import opened Options
  import opened Words
  import opened Net

  const SLOTS: nat := 60
  const TWO_32: int := 0x1_0000_0000
  type U32 = x: int | 0 <= x < 0x1_0000_0000

  const STALE_AFTER: int := 60 * SECOND
  const OFFLINE_AFTER: int := 300 * SECOND

  datatype Status = Online | Stale | Offline

  // ---- One exporter on values ----------------------------------------------------------------------

  datatype Counts = Counts(buckets: seq<U32>, lastBucketSec: int)

  /** How many of the observations fell into second `sec`. */
  function Observed(secs: seq<int>, sec: int): nat {
    if secs == [] then 0 else Observed(secs[..|secs| - 1], sec) + if secs[|secs| - 1] == sec then 1 else 0
  }

  /** How many fell between `from` and `to`, both included. */
  function ObservedBetween(secs: seq<int>, from: int, to: int): nat {
    if secs == [] then 0
    else ObservedBetween(secs[..|secs| - 1], from, to) + if from <= secs[|secs| - 1] <= to then 1 else 0
  }

  /** Seconds since the epoch, never going back. */
  ghost predicate Clocked(secs: seq<int>) {
    && (forall i :: 0 <= i < |secs| ==> secs[i] >= 0)
    && (forall i, j :: 0 <= i < j < |secs| ==> secs[i] <= secs[j])
  }

  /** The slot of `sec` holds the number of observations of that second, for each of the last 60 seconds. */
  ghost predicate Holds(c: Counts, secs: seq<int>) {
    && |c.buckets| == SLOTS && c.lastBucketSec >= 0
    && (forall i :: 0 <= i < |secs| ==> secs[i] <= c.lastBucketSec)
    && (forall sec :: c.lastBucketSec - SLOTS < sec <= c.lastBucketSec ==>
          c.buckets[sec % SLOTS] == Observed(secs, sec) % TWO_32)
  }

  // ---- The tracker ---------------------------------------------------------------------------------

  class ExporterState {
    var lastSeen: int
    const buckets: array<U32>
    var lastBucketSec: int
    /** The seconds of all observations. */
    ghost var secs: seq<int>

    ghost predicate Valid()
      reads this, buckets
    {
      && buckets.Length == SLOTS && lastBucketSec >= 0
      && (Clocked(secs) ==> Holds(Counts(buckets[..], lastBucketSec), secs))
      && (secs != [] ==> secs[|secs| - 1] == lastBucketSec == lastSeen / SECOND)
      && (secs == [] ==> lastBucketSec == 0)
    }

    constructor ()
      ensures Valid() && fresh(buckets) && secs == [] && lastSeen == 0
    {
      lastSeen, lastBucketSec, secs := 0, 0, [];
      buckets := new U32[SLOTS](i => 0);
      new;
    }

    /** The body of Observe for a known exporter; a negative time would index the ring out of range. */
    method Count(now: int)
      requires Valid() && now >= 0
      modifies this, buckets
      ensures Valid() && secs == old(secs) + [now / SECOND] && lastSeen == now
    {
      hide Holds, Skipped, Clocked;
      lastSeen := now;
      var sec := now / SECOND;
      var idx := sec % SLOTS;
      ghost var before := Counts(buckets[..], lastBucketSec);
      if sec != lastBucketSec {
        var gap := sec - lastBucketSec;
        ClearGap(gap);
        lastBucketSec := sec;
      }
      ghost var slid := Counts(buckets[..], sec);
      buckets[idx] := if buckets[idx] + 1 < TWO_32 then buckets[idx] + 1 else 0;
      if Clocked(secs + [sec]) {
        ClockedPrefix(secs, before.lastBucketSec, sec);
        SlidTo(before, slid, secs, sec);
        OneMore(slid, Counts(buckets[..], sec), secs, sec);
      }
      secs := secs + [sec];
    }

    method Sum() returns (sum: U32)
      ensures sum == Sum32(buckets[..])
    {
      sum := 0;
      for i := 0 to buckets.Length
        invariant sum == Sum32(buckets[..i])
      {
        assert buckets[..i + 1][..i] == buckets[..i];
        sum := Add32(sum, buckets[i]);
      }
      assert buckets[..buckets.Length] == buckets[..];
    }

    /** Clears the slots of the seconds skipped since the last observation. */
    method ClearGap(gap: int)
      requires buckets.Length == SLOTS && lastBucketSec >= 0
      modifies buckets
      ensures forall i :: 0 <= i < SLOTS ==>
        buckets[i] == if Skipped(lastBucketSec, gap, i) then 0 else old(buckets[i])
    {
      if gap >= SLOTS {
        for i := 0 to SLOTS
          invariant forall j :: 0 <= j < SLOTS ==> buckets[j] == if j < i then 0 else old(buckets[j])
        {
          buckets[i] := 0;
        }
        EverySlotSkipped(lastBucketSec, gap);
      } else {
        var g := 1;
        while g <= gap
          invariant g == 1 || 1 <= g <= gap + 1
          invariant forall i :: 0 <= i < SLOTS ==>
            buckets[i] == if Skipped(lastBucketSec, g - 1, i) then 0 else old(buckets[i])
        {
          var slot := (lastBucketSec + g) % SLOTS;
          SkippedOneMore(lastBucketSec, g);
          buckets[slot] := 0;
          g := g + 1;
        }
      }
    }
  }

  /** Slot `i` belongs to one of the `gap` seconds after `last`. */
  ghost predicate Skipped(last: int, gap: int, i: int) {
    exists s :: last < s <= last + gap && s % SLOTS == i
  }

  lemma ClockedPrefix(secs: seq<int>, last: int, sec: int)
    requires Clocked(secs + [sec]) && (secs != [] ==> last == secs[|secs| - 1]) && (secs == [] ==> last == 0)
    ensures Clocked(secs) && last <= sec
  {
    var all := secs + [sec];
    assert all[|secs|] == sec && forall i :: 0 <= i < |secs| ==> all[i] == secs[i];
  }

  lemma SkippedOneMore(last: int, g: int)
    requires g >= 1
    ensures forall i :: Skipped(last, g, i) <==> Skipped(last, g - 1, i) || i == (last + g) % SLOTS
  {
  }

  lemma EverySlotSkipped(last: int, gap: int)
    requires gap >= SLOTS
    ensures forall i :: 0 <= i < SLOTS ==> Skipped(last, gap, i)
  {
    forall i | 0 <= i < SLOTS ensures Skipped(last, gap, i) {
      var s := last + 1 + (i - (last + 1)) % SLOTS;
      assert s % SLOTS == i;
    }
  }

  lemma {:induction false} ObservedNone(secs: seq<int>, sec: int)
    requires forall i :: 0 <= i < |secs| ==> secs[i] != sec
    ensures Observed(secs, sec) == 0
  {
    if secs != [] {
      ObservedNone(secs[..|secs| - 1], sec);
    }
  }

  /** The slots of seconds that stay in the window are not cleared. */
  lemma NotSkipped(last: int, sec: int, s: int)
    requires sec - SLOTS < s <= last < sec
    ensures !Skipped(last, sec - last, s % SLOTS)
  {
    forall u | last < u <= sec ensures u % SLOTS != s % SLOTS {
      assert 0 < u - s < SLOTS;
    }
  }

  /** After the gap is cleared the ring stands for the 60 seconds ending at `sec`. */
  lemma SlidTo(c: Counts, c': Counts, secs: seq<int>, sec: int)
    requires Holds(c, secs) && c.lastBucketSec <= sec == c'.lastBucketSec && |c'.buckets| == SLOTS
    requires sec == c.lastBucketSec ==> c'.buckets == c.buckets
    requires sec > c.lastBucketSec ==> forall i :: 0 <= i < SLOTS ==>
               c'.buckets[i] == if Skipped(c.lastBucketSec, sec - c.lastBucketSec, i) then 0 else c.buckets[i]
    ensures Holds(c', secs)
  {
    forall s | sec - SLOTS < s <= sec ensures c'.buckets[s % SLOTS] == Observed(secs, s) % TWO_32 {
      if s > c.lastBucketSec {
        ObservedNone(secs, s);
        assert Skipped(c.lastBucketSec, sec - c.lastBucketSec, s % SLOTS);
      } else if sec > c.lastBucketSec {
        NotSkipped(c.lastBucketSec, sec, s);
      }
    }
  }

  lemma OneMore(c: Counts, c': Counts, secs: seq<int>, sec: int)
    requires Holds(c, secs) && c.lastBucketSec == sec == c'.lastBucketSec
    requires var b := c.buckets[sec % SLOTS];
             c'.buckets == c.buckets[sec % SLOTS := if b + 1 < TWO_32 then b + 1 else 0]
    ensures Holds(c', secs + [sec])
  {
    assert (secs + [sec])[..|secs|] == secs;
  }

  // ---- The 60-second sum ---------------------------------------------------------------------------

  function Add32(a: U32, b: U32): U32 {
    if a + b < TWO_32 then a + b else a + b - TWO_32
  }

  function Sum32(bs: seq<U32>): U32 {
    if bs == [] then 0 else Add32(Sum32(bs[..|bs| - 1]), bs[|bs| - 1])
  }

  /** The second that slot `i` stands for when the last one is `last`. */
  function SecAt(last: int, i: nat): int {
    last - (last - i) % SLOTS
  }

  function SlotSum(secs: seq<int>, last: int, n: nat): nat {
    if n == 0 then 0 else SlotSum(secs, last, n - 1) + Observed(secs, SecAt(last, n - 1))
  }

  lemma SecAtIs(last: int, i: nat, s: int)
    requires i < SLOTS
    ensures SecAt(last, i) == s <==> last - SLOTS < s <= last && s % SLOTS == i
  {
  }

  lemma {:induction false} SlotSumOneMore(secs: seq<int>, s: int, last: int, n: nat)
    requires n <= SLOTS
    ensures SlotSum(secs + [s], last, n)
         == SlotSum(secs, last, n) + if last - SLOTS < s <= last && s % SLOTS < n then 1 else 0
  {
    hide SecAt;
    assert (secs + [s])[..|secs|] == secs;
    if n > 0 {
      SlotSumOneMore(secs, s, last, n - 1);
      SecAtIs(last, n - 1, s);
    }
  }

  lemma {:induction false} SlotSumEmpty(last: int, n: nat)
    ensures SlotSum([], last, n) == 0
  {
    hide SecAt;
    if n > 0 {
      SlotSumEmpty(last, n - 1);
    }
  }

  lemma {:induction false} SlotSumIsWindow(secs: seq<int>, last: int)
    ensures SlotSum(secs, last, SLOTS) == ObservedBetween(secs, last - SLOTS + 1, last)
  {
    if secs == [] {
      SlotSumEmpty(last, SLOTS);
    } else {
      var n := |secs| - 1;
      SlotSumIsWindow(secs[..n], last);
      SlotSumOneMore(secs[..n], secs[n], last, SLOTS);
      assert secs == secs[..n] + [secs[n]];
      hide SecAt, SlotSum;
    }
  }

  lemma Add32IsMod(m: nat, n: nat)
    ensures Add32(m % TWO_32, n % TWO_32) == (m + n) % TWO_32
  {
    var q := m / TWO_32 + n / TWO_32;
    var r := m % TWO_32 + n % TWO_32;
    assert m + n == TWO_32 * q + r;
    assert (m + n) / TWO_32 == if r < TWO_32 then q else q + 1;
  }

  lemma {:induction false} Sum32IsSlotSum(c: Counts, secs: seq<int>, n: nat)
    requires Holds(c, secs) && n <= SLOTS
    ensures Sum32(c.buckets[..n]) == SlotSum(secs, c.lastBucketSec, n) % TWO_32
  {
    hide SecAt;
    if n > 0 {
      Sum32IsSlotSum(c, secs, n - 1);
      var s := SecAt(c.lastBucketSec, n - 1);
      SecAtIs(c.lastBucketSec, n - 1, s);
      assert c.buckets[..n][..n - 1] == c.buckets[..n - 1];
      Add32IsMod(SlotSum(secs, c.lastBucketSec, n - 1), Observed(secs, s));
      hide Add32;
    }
  }

  /** Across arbitrary gaps, the sum of the ring is the number of flows seen in the 60 seconds that end at the last
      observed second (which is not `now`: nothing is cleared until the next flow arrives). */
  lemma RingSumCountsTheLastMinute(c: Counts, secs: seq<int>)
    requires Holds(c, secs)
    ensures Sum32(c.buckets) == ObservedBetween(secs, c.lastBucketSec - SLOTS + 1, c.lastBucketSec) % TWO_32
  {
    Sum32IsSlotSum(c, secs, SLOTS);
    SlotSumIsWindow(secs, c.lastBucketSec);
    assert c.buckets[..SLOTS] == c.buckets;
    hide *;
  }

  // ---- All exporters -------------------------------------------------------------------------------

  /** `Addr.Unmap`: an IPv4-mapped IPv6 address as plain IPv4. */
  function Unmap(a: Addr): Addr {
    if a.family.V6? && |a.bits| == 128
       && a.bits[..80] == seq(80, i => false) && a.bits[80..96] == seq(16, i => true)
    then Addr(V4, a.bits[96..], "")
    else a
  }

  /** `m` is the IPv4-mapped form of the IPv4 address `a`: 80 zero bits, 16 one bits, and the 32 bits of `a`. */
  ghost predicate MappedForm(m: Addr, a: Addr) {
    && m.family.V6? && m.bits == seq(80, i => false) + seq(16, i => true) + a.bits
    && a.family.V4? && |a.bits| == 32 && a.zone == ""
  }

  /** Unmapping takes an IPv4-mapped address to its IPv4 address and leaves every other address alone. */
  lemma UnmapsExactly(m: Addr, a: Addr)
    ensures Unmap(m) == a <==> MappedForm(m, a) || (m == a && forall v :: !MappedForm(m, v))
  {
    if Unmap(m) != m {
      assert m.bits == m.bits[..80] + m.bits[80..96] + m.bits[96..];
      assert MappedForm(m, Unmap(m));
    }
    forall v | MappedForm(m, v) ensures Unmap(m) == v {
      assert m.bits[..80] == seq(80, i => false) && m.bits[80..96] == seq(16, i => true) && m.bits[96..] == v.bits;
    }
  }

  datatype Exporter = Exporter(sourceIP: Addr, kind: string, sampleRateOverride: U32)

  datatype ExporterHealth = ExporterHealth(
    sourceIP: Addr, kind: string, lastSeen: Option<int>, flowsPerSec: real, status: Status, sampleRateOverride: U32)

  /** Online within a minute of the last arrival, offline from five minutes on, stale in between. */
  predicate StatusOfAge(status: Status, age: int) {
    && (status.Online? <==> age < 60 * SECOND)
    && (status.Stale? <==> 60 * SECOND <= age < 5 * 60 * SECOND)
    && (status.Offline? <==> age >= 5 * 60 * SECOND)
  }

  /** What the log of an exporter's arrivals says about it: the last one, and the sum of the minute up to it. */
  datatype Seen = Seen(lastSeen: int, secs: seq<int>)

  class HealthTracker {
    var state: map<Addr, ExporterState>
    ghost var repr: set<object>

    ghost predicate Valid()
      reads this, repr
    {
      && this in repr
      && (forall a :: a in state ==> state[a] in repr && state[a].buckets in repr && state[a].Valid())
      && (forall a, b :: a in state && b in state && a != b ==>
            state[a] != state[b] && state[a].buckets != state[b].buckets)
    }

    /** The arrivals of every exporter seen so far. */
    ghost function Log(): map<Addr, Seen>
      requires Valid()
      reads this, repr
    {
      map a | a in state :: Seen(state[a].lastSeen, state[a].secs)
    }

    constructor ()
      ensures Valid() && fresh(repr) && Log() == map[]
    {
      state := map[];
      repr := {this};
    }

    method StateFor(exporter: Addr) returns (es: ExporterState)
      requires Valid()
      modifies this
      ensures Valid() && fresh(repr - old(repr)) && exporter in state && es == state[exporter]
      ensures var l := old(Log()); Log() == l[exporter := if exporter in l then l[exporter] else Seen(0, [])]
    {
      hide Holds, Clocked;
      if exporter !in state {
        var made := new ExporterState();
        state := state[exporter := made];
        repr := repr + {made, made.buckets};
      }
      es := state[exporter];
    }

    method Observe(exporter: Addr, now: int)
      requires Valid() && now >= 0
      modifies repr
      ensures Valid() && fresh(repr - old(repr))
      ensures var (l, a) := (old(Log()), Unmap(exporter));
              Log() == l[a := Seen(now, (if a in l then l[a].secs else []) + [now / SECOND])]
    {
      hide Unmap, Holds, Clocked;
      var a := Unmap(exporter);
      ghost var l := Log();
      var es := StateFor(a);
      ghost var mid := Log();
      ghost var seen := Seen(now, mid[a].secs + [now / SECOND]);
      assert mid[a := seen] == l[a := seen];
      CountIn(a, now);
    }

    twostate lemma OneExporterChanged(a: Addr)
      requires old(Valid()) && a in state && state == old(state) && repr == old(repr) && state[a].Valid()
      requires forall b :: b in state && b != a ==> unchanged(state[b]) && unchanged(state[b].buckets)
      ensures Valid() && Log() == old(Log())[a := Seen(state[a].lastSeen, state[a].secs)]
    {
      hide Holds, Clocked;
    }

    method CountIn(a: Addr, now: int)
      requires Valid() && a in state && now >= 0
      modifies state[a], state[a].buckets
      ensures Valid() && repr == old(repr)
      ensures Log() == old(Log())[a := Seen(now, old(Log())[a].secs + [now / SECOND])]
    {
      hide Holds, Clocked;
      state[a].Count(now);
      OneExporterChanged(a);
    }

    /** One row for every exporter of the inventory, in its order. */
    method Snapshot(inv: seq<Exporter>, now: int) returns (out: seq<ExporterHealth>)
      requires Valid()
      ensures |out| == |inv|
      ensures forall i :: 0 <= i < |inv| ==> RowFor(out[i], inv[i], Log(), now)
    {
      hide RowFor, Holds, Clocked;
      out := [];
      for i := 0 to |inv|
        invariant |out| == i
        invariant forall j :: 0 <= j < i ==> RowFor(out[j], inv[j], Log(), now)
      {
        var row := Row(inv[i], now);
        out := out + [row];
      }
    }

    method Row(e: Exporter, now: int) returns (row: ExporterHealth)
      requires Valid()
      ensures RowFor(row, e, Log(), now)
    {
      hide Holds, Clocked, RateFor;
      row := ExporterHealth(e.sourceIP, e.kind, None, 0.0, Offline, e.sampleRateOverride);
      if e.sourceIP !in state {
        return;
      }
      var es := state[e.sourceIP];
      var age := now - es.lastSeen;
      var status := if age < STALE_AFTER then Online else if age < OFFLINE_AFTER then Stale else Offline;
      var sum := es.Sum();
      RateTells(Counts(es.buckets[..], es.lastBucketSec), es.secs, es.lastSeen, now);
      row := row.(lastSeen := Some(es.lastSeen), status := status, flowsPerSec := sum as real / 60.0);
    }
  }

  // ---- The minute before the query -----------------------------------------------------------------

  /** The number of arrivals in the 60 seconds that end at the last of them, as a uint32. */
  function LastMinute(secs: seq<int>): U32
    requires secs != []
  {
    var last := secs[|secs| - 1];
    ObservedBetween(secs, last - 59, last) % TWO_32
  }

  /** The number of arrivals in the 60 seconds that end at second `nowSec`, as a uint32. */
  function MinuteBefore(secs: seq<int>, nowSec: int): U32 {
    ObservedBetween(secs, nowSec - 59, nowSec) % TWO_32
  }

  /** The arrivals that the ring still counts at second `nowSec` although they are 60 seconds old or older. */
  function Overdue(secs: seq<int>, nowSec: int): nat
    requires secs != []
  {
    ObservedBetween(secs, secs[|secs| - 1] - SLOTS + 1, nowSec - SLOTS)
  }

  lemma {:induction false} WindowsOverlap(secs: seq<int>, last: int, nowSec: int)
    requires last <= nowSec && forall i :: 0 <= i < |secs| ==> secs[i] <= last
    ensures ObservedBetween(secs, last - SLOTS + 1, last)
         == ObservedBetween(secs, last - SLOTS + 1, nowSec - SLOTS) + ObservedBetween(secs, nowSec - SLOTS + 1, nowSec)
  {
    if secs != [] {
      WindowsOverlap(secs[..|secs| - 1], last, nowSec);
    }
  }

  lemma SameRemainder(x: nat, y: nat)
    ensures (x + y) % TWO_32 == y % TWO_32 <==> x % TWO_32 == 0
  {
    Add32IsMod(x, y);
  }

  /** The minute up to the last arrival is the minute before the query if and only if nothing in the ring is overdue;
      and so it is for the uint32 counts, up to their wrap-around. */
  lemma RateIsCurrent(secs: seq<int>, nowSec: int)
    requires Clocked(secs) && secs != [] && secs[|secs| - 1] <= nowSec
    ensures var last := secs[|secs| - 1];
            (ObservedBetween(secs, last - SLOTS + 1, last) == ObservedBetween(secs, nowSec - SLOTS + 1, nowSec))
            <==> Overdue(secs, nowSec) == 0
    ensures LastMinute(secs) == MinuteBefore(secs, nowSec) <==> Overdue(secs, nowSec) % TWO_32 == 0
  {
    var last := secs[|secs| - 1];
    WindowsOverlap(secs, last, nowSec);
    SameRemainder(Overdue(secs, nowSec), ObservedBetween(secs, nowSec - SLOTS + 1, nowSec));
    hide ObservedBetween;
  }

  /** The arrivals of an exporter that was last seen at `lastSeen`. */
  ghost predicate SeenUntil(secs: seq<int>, lastSeen: int) {
    Clocked(secs) && secs != [] && secs[|secs| - 1] == lastSeen / SECOND
  }

  /** Whatever arrived before, the rate reported at `now` is that of the last minute, exactly when the last arrival is
      of the same second or the clock has not yet run for a minute. */
  lemma RateIsAlwaysCurrent(lastSeen: int, now: int)
    requires 0 <= lastSeen <= now
    ensures (forall secs | SeenUntil(secs, lastSeen) :: LastMinute(secs) == MinuteBefore(secs, now / SECOND))
       <==> lastSeen / SECOND == now / SECOND || now < STALE_AFTER
  {
    var last, nowSec := lastSeen / SECOND, now / SECOND;
    assert now < STALE_AFTER <==> nowSec < SLOTS;
    if last == nowSec || nowSec < SLOTS {
      forall secs | SeenUntil(secs, lastSeen) ensures LastMinute(secs) == MinuteBefore(secs, nowSec) {
        RateIsCurrent(secs, nowSec);
        NothingBefore(secs, last - SLOTS + 1, nowSec - SLOTS);
      }
    } else {
      var early := if nowSec - SLOTS < last then nowSec - SLOTS else last;
      var secs := [early, last];
      OneIsOverdue(early, last, last - SLOTS + 1, nowSec - SLOTS);
      RateIsCurrent(secs, nowSec);
      assert SeenUntil(secs, lastSeen);
    }
  }

  /** An empty interval, or one before the epoch, counts nothing. */
  lemma {:induction false} NothingBefore(secs: seq<int>, from: int, to: int)
    requires forall i :: 0 <= i < |secs| ==> secs[i] >= 0
    requires to < 0 || to < from
    ensures ObservedBetween(secs, from, to) == 0
  {
    if secs != [] {
      NothingBefore(secs[..|secs| - 1], from, to);
    }
  }

  lemma OneMoreBetween(secs: seq<int>, s: int, from: int, to: int)
    ensures ObservedBetween(secs + [s], from, to) == ObservedBetween(secs, from, to) + if from <= s <= to then 1 else 0
  {
    assert (secs + [s])[..|secs|] == secs;
  }

  lemma OneIsOverdue(first: int, last: int, from: int, to: int)
    requires from <= first <= to
    ensures 1 <= ObservedBetween([first, last], from, to) <= 2
  {
    OneMoreBetween([], first, from, to);
    OneMoreBetween([first], last, from, to);
    assert [] + [first] == [first] && [first] + [last] == [first, last];
  }

  /** One flow at second 0 and a query four minutes later: the exporter is stale and the minute before the query is
      empty, but the rate is still one flow a minute. */
  lemma StaleRate(row: ExporterHealth, e: Exporter)
    requires RowFor(row, e, map[e.sourceIP := Seen(0, [0])], 240 * SECOND)
    ensures row.status == Stale && row.flowsPerSec == 1.0 / 60.0 && MinuteBefore([0], 240) == 0
  {
    var secs: seq<int> := [0];
    assert SeenUntil(secs, 0);
    OneMoreBetween([], 0, -59, 0);
    OneMoreBetween([], 0, 181, 240);
    assert [] + [0] == secs;
    assert LastMinute(secs) == 1;
    hide ObservedBetween;
  }

  /** The rate is that of the minute up to the last arrival, and that of the minute before the query exactly when
      nothing is overdue. */
  ghost predicate RateFor(rate: real, seen: Seen, now: int)
    requires seen.secs != []
  {
    && rate == LastMinute(seen.secs) as real / 60.0
    && (seen.lastSeen <= now ==>
          var nowSec := now / SECOND;
          rate == MinuteBefore(seen.secs, nowSec) as real / 60.0 <==> Overdue(seen.secs, nowSec) % TWO_32 == 0)
  }

  lemma RateTells(c: Counts, secs: seq<int>, lastSeen: int, now: int)
    requires Clocked(secs) ==> Holds(c, secs)
    requires secs != [] ==> c.lastBucketSec == secs[|secs| - 1]
    ensures SeenUntil(secs, lastSeen) ==> RateFor(Sum32(c.buckets) as real / 60.0, Seen(lastSeen, secs), now)
  {
    hide Holds, Clocked, Overdue, MinuteBefore, ObservedBetween;
    if SeenUntil(secs, lastSeen) {
      RingSumCountsTheLastMinute(c, secs);
      if lastSeen <= now {
        RateIsCurrent(secs, now / SECOND);
      }
    }
  }

  ghost predicate RowFor(row: ExporterHealth, e: Exporter, log: map<Addr, Seen>, now: int) {
    && row.sourceIP == e.sourceIP && row.kind == e.kind && row.sampleRateOverride == e.sampleRateOverride
    && (e.sourceIP !in log ==> row.lastSeen == None && row.flowsPerSec == 0.0 && row.status == Offline)
    && (e.sourceIP in log ==>
          var seen := log[e.sourceIP];
          && row.lastSeen == Some(seen.lastSeen)
          && StatusOfAge(row.status, now - seen.lastSeen)
          && (Clocked(seen.secs) && seen.secs != [] ==>
                SeenUntil(seen.secs, seen.lastSeen) && RateFor(row.flowsPerSec, seen, now)))
  }
}
