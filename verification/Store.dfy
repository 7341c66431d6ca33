/** The sharded per-host counter store (aggregate/store.go, shard.go, ring.go), refining one flat table. */
module Store {
  import opened Options
  import opened Words
  import opened Net
  import opened Traffic
  import opened Window
  import opened Hosts
  import opened Overview
  import opened Ranking
  import Sorting

  datatype HostInfo = HostInfo(ip: Addr, lastSec: int)

  function Addrs(out: seq<HostInfo>): (ips: seq<Addr>)
    ensures |ips| == |out| && forall i :: 0 <= i < |out| ==> ips[i] == out[i].ip
  {
    Column(out, (h: HostInfo) => h.ip)
  }

  /** The listing holds every live host once, with the second it was last heard of. */
  ghost predicate ListsActive(out: seq<HostInfo>, t: Table, now: int) {
    && Enumerates(Addrs(out), LiveHosts(t, now))
    && forall i :: 0 <= i < |out| ==> out[i].ip in t && out[i].lastSec == t[out[i].ip].lastSec
  }

  /** The accumulator after one host's ring has been merged into it, newest second first. */
  ghost function Folded(out: seq<Bucket>, ring: Ring, now: int): seq<Bucket>
    requires |out| == |ring.buckets| == WINDOW_SIZE
  {
    seq(WINDOW_SIZE, i requires 0 <= i < WINDOW_SIZE => Merge(out[i], ring.buckets[Slot(now - i)]))
  }

  /** The accumulator holds `was` plus the sums over the hosts in `done`. */
  ghost predicate PiledUp(out: seq<Bucket>, was: seq<Bucket>, t: Table, done: set<Addr>, now: int)
    requires ValidTable(t) && done <= t.Keys && |was| == WINDOW_SIZE
  {
    && |out| == WINDOW_SIZE
    && forall i :: 0 <= i < WINDOW_SIZE ==> out[i] == Merge(Pile(t, done, Slot(now - i)), was[i])
  }

  lemma PiledUpNothing(was: seq<Bucket>, t: Table, now: int)
    requires ValidTable(t) && |was| == WINDOW_SIZE
    ensures PiledUp(was, was, t, {}, now)
  {
    hide Merge, Slot;
    forall i | 0 <= i < WINDOW_SIZE ensures was[i] == Merge(EMPTY, was[i]) {
      MergeEmpty(was[i]);
    }
  }

  /** What one shard has piled on top of the shards before it is the flat table's sum. */
  lemma PiledUpShard(out: seq<Bucket>, mid: seq<Bucket>, was: seq<Bucket>, t: Table, done: set<Addr>, shard: Table,
                     more: set<Addr>, now: int)
    requires ValidTable(t) && ValidTable(shard)
    requires done <= t.Keys && more <= shard.Keys && more <= t.Keys && done !! more
    requires forall ip :: ip in more ==> shard[ip] == t[ip]
    requires |was| == WINDOW_SIZE && PiledUp(mid, was, t, done, now) && PiledUp(out, mid, shard, more, now)
    ensures PiledUp(out, was, t, done + more, now)
  {
    hide Slot, Merge;
    forall i | 0 <= i < WINDOW_SIZE ensures out[i] == Merge(Pile(t, done + more, Slot(now - i)), was[i]) {
      var slot := Slot(now - i);
      PileSame(t, shard, more, slot);
      PileUnion(t, done, more, slot);
      MergeAssociates(Pile(t, more, slot), Pile(t, done, slot), was[i]);
    }
  }

  lemma PiledUpFolded(out: seq<Bucket>, was: seq<Bucket>, t: Table, done: set<Addr>, ip: Addr, now: int)
    requires ValidTable(t) && done <= t.Keys && |was| == WINDOW_SIZE && PiledUp(out, was, t, done, now)
    requires ip in t && ip !in done
    ensures PiledUp(Folded(out, t[ip], now), was, t, done + {ip}, now)
  {
    hide Slot, Merge;
    forall i | 0 <= i < WINDOW_SIZE
      ensures Folded(out, t[ip], now)[i] == Merge(Pile(t, done + {ip}, Slot(now - i)), was[i])
    {
      var slot := Slot(now - i);
      PileTake(t, done + {ip}, slot, ip);
      assert done + {ip} - {ip} == done;
      MergeRotate(Pile(t, done, slot), was[i], t[ip].buckets[slot]);
    }
  }

  class HostRing {
    const buckets: array<Bucket>
    var lastSec: int

    constructor ()
      ensures fresh(buckets) && buckets.Length == WINDOW_SIZE && Value() == Blank()
    {
      buckets := new Bucket[WINDOW_SIZE](i => EMPTY);
      lastSec := 0;
      new;
      assert buckets[..] == Blank().buckets;
    }

    ghost function Value(): Ring
      reads this, buckets
    {
      Ring(buckets[..], lastSec)
    }

    /** The sums and the row of Top for one host, if it is live and has any bytes. */
    method Row(ip: Addr, now: int) returns (row: Option<TopEntry>)
      requires buckets.Length == WINDOW_SIZE
      ensures row.Some? <==> Live(Value(), now) && Total(Value().buckets).bps != 0
      ensures row.Some? ==> row.value == RowOf(ip, Value()) && row.value.ip == ip
    {
      if now - lastSec > WINDOW_SIZE {
        return None;
      }
      var totalBps: U64, totalPps: U64 := 0, 0;
      var udpBps: U64, icmpBps: U64, otherBps: U64 := 0, 0, 0;
      for i := 0 to WINDOW_SIZE
        invariant var s := Total(buckets[..i]);
                  totalBps == s.bps && totalPps == s.pps &&
                  udpBps == s.bpsUDP && icmpBps == s.bpsICMP && otherBps == s.bpsOther
      {
        hide Add;
        var b := buckets[i];
        assert buckets[..i + 1][..i] == buckets[..i];
        totalBps := Add(totalBps, b.bps);
        totalPps := Add(totalPps, b.pps);
        udpBps := Add(udpBps, b.bpsUDP);
        icmpBps := Add(icmpBps, b.bpsICMP);
        otherBps := Add(otherBps, b.bpsOther);
      }
      assert buckets[..WINDOW_SIZE] == buckets[..];
      if totalBps == 0 {
        return None;
      }
      var proto := "udp";
      var best := udpBps;
      if icmpBps > best {
        proto := "icmp";
        best := icmpBps;
      }
      if otherBps > best {
        proto := "other";
      }
      return Some(TopEntry(ip, totalBps, totalPps, proto));
    }

    /** Overview's inner loop for one host. */
    method MergeInto(out: array<Bucket>, now: int)
      requires buckets.Length == WINDOW_SIZE == out.Length && out != buckets
      modifies out
      ensures out[..] == Folded(old(out[..]), Value(), now)
    {
      hide Slot, Merge;
      for i := 0 to WINDOW_SIZE
        invariant forall j :: 0 <= j < i ==> out[j] == Merge(old(out[j]), Value().buckets[Slot(now - j)])
        invariant forall j :: i <= j < WINDOW_SIZE ==> out[j] == old(out[j])
      {
        var idx := Slot(now - i);
        out[i] := Merge(out[i], buckets[idx]);
      }
    }

    /** The writes of Store.Update to one ring. */
    method Record(sec: int, r: Traffic.Record)
      requires buckets.Length == WINDOW_SIZE
      modifies this, buckets
      ensures Value() == Charged(old(Value()), sec, r)
    {
      hide Add;
      if sec > lastSec {
        lastSec := sec;
      }
      var idx := Slot(sec);
      hide Slot;
      var b := buckets[idx];
      b := b.(pps := Add(b.pps, r.packets), bps := Add(b.bps, r.bytes));
      if r.proto == PROTO_UDP {
        b := b.(ppsUDP := Add(b.ppsUDP, r.packets), bpsUDP := Add(b.bpsUDP, r.bytes));
      } else if r.proto == PROTO_ICMP || r.proto == PROTO_ICMP_V6 {
        b := b.(ppsICMP := Add(b.ppsICMP, r.packets), bpsICMP := Add(b.bpsICMP, r.bytes));
      } else {
        b := b.(ppsOther := Add(b.ppsOther, r.packets), bpsOther := Add(b.bpsOther, r.bytes));
      }
      buckets[idx] := b;
    }
  }

  ghost function AfterTickHost(t: Table, ip: Addr, now: int): Table
    requires ValidTable(t) && ip in t
  {
    if Live(t[ip], now) then t[ip := Cleared(t[ip], now)] else t - {ip}
  }

  /** A tick of `before` that still has to visit the hosts in `todo`. */
  ghost predicate TickedExcept(before: Table, t: Table, todo: set<Addr>, now: int)
    requires ValidTable(before)
  {
    && todo <= t.Keys <= before.Keys
    && forall ip :: ip in before ==>
         if ip in todo then t[ip] == before[ip]
         else (ip in t <==> Live(before[ip], now)) && (ip in t ==> t[ip] == Cleared(before[ip], now))
  }

  lemma TickHostLaw(before: Table, t: Table, todo: set<Addr>, ip: Addr, now: int)
    requires ValidTable(before) && ValidTable(t) && TickedExcept(before, t, todo, now) && ip in todo
    ensures TickedExcept(before, AfterTickHost(t, ip, now), todo - {ip}, now)
  {
    hide Cleared;
  }

  lemma TickLaw(before: Table, t: Table, now: int)
    requires ValidTable(before) && TickedExcept(before, t, {}, now)
    ensures t == AfterTick(before, now)
  {
    hide Cleared;
  }

  class Shard {
    var hosts: map<Addr, HostRing>
    ghost var repr: set<object>

    ghost predicate Valid()
      reads this, repr
      ensures Valid() ==> this in repr
    {
      && this in repr
      && (forall ip :: ip in hosts ==>
            hosts[ip] in repr && hosts[ip].buckets in repr && hosts[ip].buckets.Length == WINDOW_SIZE)
      && (forall ip, iq :: ip in hosts && iq in hosts && ip != iq ==>
            hosts[ip] != hosts[iq] && hosts[ip].buckets != hosts[iq].buckets)
    }

    ghost function Contents(): (t: Table)
      requires Valid()
      reads this, repr
      ensures t.Keys == hosts.Keys && ValidTable(t)
    {
      map ip | ip in hosts :: hosts[ip].Value()
    }

    constructor ()
      ensures Valid() && fresh(repr) && Contents() == map[] && repr == {this}
    {
      hosts := map[];
      repr := {this};
    }

    /** The get-or-create of Store.Update. */
    method RingFor(ip: Addr) returns (hr: HostRing)
      requires Valid()
      modifies this
      ensures Valid() && fresh(repr - old(repr)) && ip in hosts && hr == hosts[ip]
      ensures var t := old(Contents()); Contents() == t[ip := if ip in t then t[ip] else Blank()]
    {
      hide Blank;
      if ip !in hosts {
        var ring := new HostRing();
        hosts := hosts[ip := ring];
        repr := repr + {ring, ring.buckets};
      }
      hr := hosts[ip];
    }

    method Update(ip: Addr, sec: int, r: Traffic.Record)
      requires Valid()
      modifies repr
      ensures Valid() && fresh(repr - old(repr))
      ensures Contents() == AfterUpdate(old(Contents()), ip, sec, r)
    {
      hide Blank, Charged;
      ghost var t := Contents();
      var hr := RingFor(ip);
      ghost var u := Contents();
      assert t[ip := Charged(u[ip], sec, r)] == u[ip := Charged(u[ip], sec, r)];
      RecordIn(ip, hr, sec, r);
    }

    method RecordIn(ip: Addr, hr: HostRing, sec: int, r: Traffic.Record)
      requires Valid() && ip in hosts && hr == hosts[ip]
      modifies hr, hr.buckets
      ensures Valid()
      ensures var t := old(Contents()); Contents() == t[ip := Charged(t[ip], sec, r)]
    {
      hide Charged;
      ghost var t := Contents();
      hr.Record(sec, r);
      assert forall iq :: iq in hosts && iq != ip ==> hosts[iq].Value() == t[iq];
    }

    method Snapshot(ip: Addr, now: int, window: int) returns (out: seq<Bucket>)
      requires Valid()
      ensures out == SnapshotOf(Contents(), ip, now, window)
    {
      if window < 1 || ip !in hosts {
        return [];
      }
      var w := if window > WINDOW_SIZE then WINDOW_SIZE else window;
      var hr := hosts[ip];
      out := [];
      for i := 0 to w
        invariant |out| == i
        invariant forall j :: 0 <= j < i ==> out[j] == hr.Value().buckets[Slot(now - j)]
      {
        out := out + [hr.buckets[Slot(now - i)]];
      }
    }

    /** What Store.Tick does to one host: cold eviction, or clearing the next slot. */
    method TickHost(ip: Addr, now: int)
      requires Valid() && ip in hosts
      modifies repr
      ensures Valid() && repr == old(repr)
      ensures Contents() == AfterTickHost(old(Contents()), ip, now)
    {
      var nextIdx := Slot(now + 1);
      hide Slot;
      var hr := hosts[ip];
      ghost var t := Contents();
      if now - hr.lastSec > WINDOW_SIZE {
        hosts := hosts - {ip};
      } else {
        hr.buckets[nextIdx] := EMPTY;
        assert hr.Value().buckets == t[ip].buckets[nextIdx := EMPTY];
      }
    }

    /** One shard's turn of Store.Tick: the hosts are visited in any order. */
    method Tick(now: int)
      requires Valid()
      modifies repr
      ensures Valid() && repr == old(repr)
      ensures Contents() == AfterTick(old(Contents()), now)
    {
      ghost var before := Contents();
      var todo := hosts.Keys;
      while todo != {}
        invariant Valid() && repr == old(repr)
        invariant TickedExcept(before, Contents(), todo, now)
        decreases todo
      {
        var ip :| ip in todo;
        TickHostLaw(before, Contents(), todo, ip, now);
        todo := todo - {ip};
        TickHost(ip, now);
      }
      TickLaw(before, Contents(), now);
    }

    /** One shard's part of ActiveHosts. */
    method ActiveHosts(now: int) returns (out: seq<HostInfo>)
      requires Valid()
      ensures ListsActive(out, Contents(), now)
    {
      out := [];
      ghost var t := Contents();
      var todo := hosts.Keys;
      while todo != {}
        invariant todo <= hosts.Keys
        invariant Enumerates(Addrs(out), LiveHosts(t, now) - todo)
        invariant forall i :: 0 <= i < |out| ==> out[i].ip in t && out[i].lastSec == t[out[i].ip].lastSec
        decreases todo
      {
        var ip :| ip in todo;
        ghost var listed := LiveHosts(t, now) - todo;
        var hr := hosts[ip];
        todo := todo - {ip};
        if now - hr.lastSec <= WINDOW_SIZE {
          EnumeratesAdd(Addrs(out), listed, ip);
          assert Addrs(out + [HostInfo(ip, hr.lastSec)]) == Addrs(out) + [ip];
          out := out + [HostInfo(ip, hr.lastSec)];
          assert listed + {ip} == LiveHosts(t, now) - todo;
        } else {
          assert listed == LiveHosts(t, now) - todo;
        }
      }
      assert LiveHosts(t, now) - todo == LiveHosts(t, now);
    }

    /** One shard's part of Top. */
    method TopRows(now: int) returns (rows: seq<TopEntry>)
      requires Valid()
      ensures Lists(rows, Contents(), now)
    {
      hide RowOf, Total;
      rows := [];
      ghost var t := Contents();
      var todo := hosts.Keys;
      while todo != {}
        invariant todo <= hosts.Keys
        invariant Enumerates(Ips(rows), Candidates(t, now) - todo)
        invariant forall i :: 0 <= i < |rows| ==> rows[i].ip in t && rows[i] == RowOf(rows[i].ip, t[rows[i].ip])
        decreases todo
      {
        var ip :| ip in todo;
        ghost var listed := Candidates(t, now) - todo;
        var row := hosts[ip].Row(ip, now);
        todo := todo - {ip};
        if row.Some? {
          EnumeratesAdd(Ips(rows), listed, ip);
          assert Ips(rows + [row.value]) == Ips(rows) + [ip];
          rows := rows + [row.value];
          assert listed + {ip} == Candidates(t, now) - todo;
        } else {
          assert listed == Candidates(t, now) - todo;
        }
      }
      assert Candidates(t, now) - todo == Candidates(t, now);
    }

    method AddHost(out: array<Bucket>, ip: Addr, now: int)
      requires Valid() && out.Length == WINDOW_SIZE && out !in repr && ip in hosts
      modifies out
      ensures Valid() && Contents() == old(Contents())
      ensures out[..] == Folded(old(out[..]), Contents()[ip], now)
    {
      hide Folded;
      hosts[ip].MergeInto(out, now);
    }

    /** One shard's part of Overview: every live host's ring is merged into `out`. */
    method AddTo(out: array<Bucket>, now: int) returns (active: nat)
      requires Valid() && out.Length == WINDOW_SIZE && out !in repr
      modifies out
      ensures active == Size(LiveHosts(Contents(), now))
      ensures PiledUp(out[..], old(out[..]), Contents(), LiveHosts(Contents(), now), now)
    {
      hide PiledUp, Folded, Size;
      active := 0;
      ghost var t := Contents();
      ghost var was := out[..];
      var todo := hosts.Keys;
      ghost var done: set<Addr> := {};
      PiledUpNothing(was, t, now);
      SizeNone();
      while todo != {}
        invariant Valid() && Contents() == t
        invariant todo <= t.Keys && done == LiveHosts(t, now) - todo
        invariant active == Size(done)
        invariant PiledUp(out[..], was, t, done, now)
        decreases todo
      {
        var ip :| ip in todo;
        var hr := hosts[ip];
        if now - hr.lastSec <= WINDOW_SIZE {
          active := active + 1;
          PiledUpFolded(out[..], was, t, done, ip, now);
          SizeAdd(done, ip);
          AddHost(out, ip, now);
          done := done + {ip};
        }
        todo := todo - {ip};
      }
      assert done == LiveHosts(t, now);
    }
  }

  /** The listing so far holds the live hosts of the first `i` shards. */
  ghost predicate ActiveBelow(out: seq<HostInfo>, tables: seq<Table>, t: Table, i: nat, now: int)
    requires i <= |tables|
  {
    && Enumerates(Addrs(out), LiveBelow(tables, i, now))
    && forall k :: 0 <= k < |out| ==> out[k].ip in t && out[k].lastSec == t[out[k].ip].lastSec
  }

  lemma ActiveNone(tables: seq<Table>, t: Table, now: int)
    ensures ActiveBelow([], tables, t, 0, now)
  {
  }

  lemma ActiveConcat(tables: seq<Table>, hash: Addr -> nat, t: Table, i: nat, out: seq<HostInfo>, part: seq<HostInfo>,
                     now: int)
    requires i < |tables| && Merged(tables, hash, t)
    requires ActiveBelow(out, tables, t, i, now) && ListsActive(part, tables[i], now)
    ensures ActiveBelow(out + part, tables, t, i + 1, now)
  {
    hide ShardOf, Enumerates, LiveBelow;
    MergedLive(tables, hash, t, now);
    EnumeratesConcat(Addrs(out), LiveBelow(tables, i, now), Addrs(part), LiveHosts(tables[i], now));
    assert Addrs(out + part) == Addrs(out) + Addrs(part);
    LiveBelowNext(tables, i, now);
  }

  lemma ActiveDone(tables: seq<Table>, hash: Addr -> nat, t: Table, out: seq<HostInfo>, now: int)
    requires |tables| > 0 && Merged(tables, hash, t) && ActiveBelow(out, tables, t, |tables|, now)
    ensures ListsActive(out, t, now)
  {
    MergedLive(tables, hash, t, now);
  }

  lemma OverviewShard(out: seq<Bucket>, mid: seq<Bucket>, was: seq<Bucket>, tables: seq<Table>, hash: Addr -> nat,
                      t: Table, i: nat, now: int)
    requires i < |tables| && Merged(tables, hash, t) && ValidTable(t) && ValidTable(tables[i]) && |was| == WINDOW_SIZE
    requires LiveBelow(tables, i, now) <= t.Keys && PiledUp(mid, was, t, LiveBelow(tables, i, now), now)
    requires PiledUp(out, mid, tables[i], LiveHosts(tables[i], now), now)
    ensures LiveBelow(tables, i + 1, now) <= t.Keys && PiledUp(out, was, t, LiveBelow(tables, i + 1, now), now)
    ensures Size(LiveBelow(tables, i + 1, now)) == Size(LiveBelow(tables, i, now)) + Size(LiveHosts(tables[i], now))
  {
    MergedLive(tables, hash, t, now);
    hide PiledUp, Size, ShardOf;
    SizeUnion(LiveBelow(tables, i, now), LiveHosts(tables[i], now));
    PiledUpShard(out, mid, was, t, LiveBelow(tables, i, now), tables[i], LiveHosts(tables[i], now), now);
  }

  lemma OverviewDone(out: seq<Bucket>, was: seq<Bucket>, t: Table, now: int)
    requires ValidTable(t) && was == seq(WINDOW_SIZE, i => EMPTY) && PiledUp(out, was, t, LiveHosts(t, now), now)
    ensures forall i :: 0 <= i < WINDOW_SIZE ==> out[i] == Pile(t, LiveHosts(t, now), Slot(now - i))
    ensures Size(LiveHosts(t, now)) == |LiveHosts(t, now)|
  {
    hide Merge, Slot;
    forall i | 0 <= i < WINDOW_SIZE ensures out[i] == Pile(t, LiveHosts(t, now), Slot(now - i)) {
      MergeEmpty(Pile(t, LiveHosts(t, now), Slot(now - i)));
    }
  }

  /** The end of Top, over the rows met in the shards as each stood when it was visited: with Updates and Ticks
      between the visits, `seen` is the table made of the shards at those moments. */
  method Rank(parts: seq<seq<TopEntry>>, ghost tables: seq<Table>, ghost hash: Addr -> nat, ghost seen: Table,
              now: int, n: int, text: Addr -> string) returns (r: seq<TopEntry>)
    requires |parts| == |tables| > 0 && Merged(tables, hash, seen)
    requires forall i :: 0 <= i < |parts| ==> Lists(parts[i], tables[i], now)
    ensures IsTop(r, n, seen, now, text)
  {
    hide Merged, Lists, RankBefore, RowOf;
    if n <= 0 {
      return [];
    }
    ScanListsCandidates(tables, parts, hash, seen, now);
    hide IsTop;
    var all := Concat(parts);
    var a := new TopEntry[|all|](i requires 0 <= i < |all| => all[i]);
    assert a[..] == all;
    RankBeforeIsComparator(text);
    Sorting.InsertionSort(a, RankBefore(text));
    ListsPermuted(all, a[..], seen, now);
    SortedPrefixIsTop(a[..], n, seen, now, text);
    r := a[..];
    if |r| > n {
      r := r[..n];
    }
  }

  /** The end of a Top whose walk visited shard `i` after the first `at[i]` operations of the history: a top-n of the
      table in which every host stands as it did when its own shard was visited. */
  method RankMet(parts: seq<seq<TopEntry>>, ghost ops: seq<Op>, ghost at: seq<nat>, ghost hash: Addr -> nat,
                 now: int, n: int, text: Addr -> string) returns (r: seq<TopEntry>, ghost seen: Table)
    requires |parts| == |at| > 0 && forall i :: 0 <= i < |at| ==> at[i] <= |ops|
    requires forall i :: 0 <= i < |at| ==> Lists(parts[i], Met(ops, at, hash)[i], now)
    ensures IsTop(r, n, seen, now, text) && forall ip :: AsVisited(seen, ops, at, hash, ip)
  {
    hide Met, Merged, Lists, AsVisited, IsTop;
    seen := MetAreMerged(ops, at, hash);
    r := Rank(parts, Met(ops, at, hash), hash, seen, now, n, text);
  }

  class Store {
    const shards: seq<Shard>
    const hash: Addr -> nat
    const text: Addr -> string
    ghost var repr: set<object>
    /** The flat table the shards stand for. */
    ghost var contents: Table
    /** Every Update and Tick so far. */
    ghost var history: seq<Op>

    ghost predicate Shaped()
      reads this, repr
    {
      && this in repr
      && |shards| > 0
      && (forall i :: 0 <= i < |shards| ==>
            shards[i] in repr && shards[i].repr <= repr && this !in shards[i].repr && shards[i].Valid())
      && (forall i, j :: 0 <= i < j < |shards| ==> shards[i].repr !! shards[j].repr)
    }

    ghost function Tables(): (ts: seq<Table>)
      requires Shaped()
      reads this, repr
      ensures |ts| == |shards|
      ensures forall i :: 0 <= i < |ts| ==> ValidTable(ts[i]) && ts[i] == shards[i].Contents()
    {
      seq(|shards|, i requires 0 <= i < |shards| && Shaped() reads this, repr => shards[i].Contents())
    }

    ghost predicate Valid()
      reads this, repr
    {
      && Shaped()
      && Merged(Tables(), hash, contents)
      && contents == Replay(history)
    }

    /** New; `cores` is runtime.NumCPU(). */
    constructor (numShards: int, cores: int, hash: Addr -> nat, text: Addr -> string)
      ensures Valid() && fresh(repr) && history == [] && this.hash == hash && this.text == text
      ensures |shards| == if numShards >= 1 then numShards else if cores >= 1 then cores else 1
    {
      var n := if numShards < 1 then cores else numShards;
      if n < 1 {
        n := 1;
      }
      var made: seq<Shard> := [];
      while |made| < n
        invariant |made| <= n
        invariant forall i :: 0 <= i < |made| ==>
          && fresh(made[i]) && fresh(made[i].repr) && made[i].Valid()
          && made[i].Contents() == map[] && made[i].repr == {made[i]}
        invariant forall i, j :: 0 <= i < j < |made| ==> made[i] != made[j]
      {
        var sh := new Shard();
        made := made + [sh];
      }
      shards := made;
      this.hash := hash;
      this.text := text;
      contents := map[];
      history := [];
      repr := {this} + set i | 0 <= i < |made| :: made[i];
    }

    /** After one shard has changed within itself and freshly allocated objects, the store is as before around it. */
    twostate lemma OneShardChanged(k: nat)
      requires old(Shaped()) && k < |shards|
      requires shards[k].Valid() && fresh(shards[k].repr - old(shards[k].repr))
      requires repr == old(repr) + shards[k].repr
      requires forall o :: o in old(repr) && o !in old(shards[k].repr) && o != this ==> unchanged(o)
      ensures Shaped()
      ensures Tables() == old(Tables())[k := shards[k].Contents()] && old(Tables())[k] == old(shards[k].Contents())
    {
    }

    method UpdateShard(k: nat, ip: Addr, sec: int, r: Traffic.Record)
      requires Shaped() && k < |shards| && ValidTable(contents)
      modifies repr
      ensures Shaped() && fresh(repr - old(repr))
      ensures Tables() == old(Tables())[k := AfterUpdate(old(Tables())[k], ip, sec, r)]
      ensures contents == AfterUpdate(old(contents), ip, sec, r)
      ensures history == old(history) + [Op.Update(ip, sec, r)]
    {
      hide AfterUpdate, Tables;
      var sh := shards[k];
      ghost var t := sh.Contents();
      sh.Update(ip, sec, r);
      repr := repr + sh.repr;
      contents := AfterUpdate(contents, ip, sec, r);
      history := history + [Op.Update(ip, sec, r)];
      OneShardChanged(k);
    }

    method Update(ip: Addr, sec: int, r: Traffic.Record)
      requires Valid()
      modifies repr
      ensures Valid() && fresh(repr - old(repr))
      ensures history == old(history) + [Op.Update(ip, sec, r)]
    {
      hide ShardOf, Merged, Replay, AfterUpdate;
      var k := ShardOf(hash, |shards|, ip);
      MergedAfterUpdate(Tables(), hash, contents, ip, sec, r);
      ReplayStep(history, Op.Update(ip, sec, r));
      UpdateShard(k, ip, sec, r);
    }

    method TickShard(k: nat, now: int)
      requires Shaped() && k < |shards|
      modifies shards[k].repr
      ensures Shaped() && repr == old(repr) && contents == old(contents) && history == old(history)
      ensures Tables() == old(Tables())[k := AfterTick(old(Tables())[k], now)]
    {
      hide AfterTick, Tables;
      var sh := shards[k];
      ghost var t := sh.Contents();
      sh.Tick(now);
      assert repr == old(repr) + sh.repr;
      OneShardChanged(k);
    }

    ghost method Note(op: Op)
      requires Shaped() && ValidTable(contents)
      modifies `contents, `history
      ensures Shaped() && repr == old(repr) && Tables() == old(Tables())
      ensures contents == Apply(old(contents), op) && history == old(history) + [op]
    {
      hide Apply;
      contents := Apply(contents, op);
      history := history + [op];
    }

    /** The shards are ticked one after the other, each under its own lock. */
    method Tick(now: int)
      requires Valid()
      modifies repr
      ensures Valid() && repr == old(repr)
      ensures history == old(history) + [Op.Tick(now)]
    {
      hide Merged, Replay, AfterTick, Tables;
      ghost var tables := Tables();
      for i := 0 to |shards|
        invariant Shaped() && repr == old(repr) && contents == old(contents) && history == old(history)
        invariant forall j :: 0 <= j < |shards| ==>
                    Tables()[j] == if j < i then AfterTick(tables[j], now) else tables[j]
      {
        TickShard(i, now);
      }
      MergedTick(tables, Tables(), hash, contents, now);
      ReplayStep(history, Op.Tick(now));
      Note(Op.Tick(now));
    }

    method Snapshot(ip: Addr, now: int, window: int) returns (out: seq<Bucket>)
      requires Valid()
      ensures out == SnapshotOf(contents, ip, now, window)
    {
      hide Replay;
      if window < 1 {
        return [];
      }
      var k := ShardOf(hash, |shards|, ip);
      out := shards[k].Snapshot(ip, now, window);
    }

    method ActiveHosts(now: int) returns (out: seq<HostInfo>)
      requires Valid()
      ensures ListsActive(out, contents, now)
    {
      hide Replay, Merged, Tables, ActiveBelow, ListsActive;
      ghost var tables := Tables();
      out := [];
      ActiveNone(tables, contents, now);
      for i := 0 to |shards|
        invariant ActiveBelow(out, tables, contents, i, now)
      {
        var part := shards[i].ActiveHosts(now);
        ActiveConcat(tables, hash, contents, i, out, part, now);
        out := out + part;
      }
      ActiveDone(tables, hash, contents, out, now);
    }

    method Top(now: int, n: int) returns (r: seq<TopEntry>)
      requires Valid()
      ensures IsTop(r, n, contents, now, text)
    {
      hide Replay, Merged, Tables, Lists, IsTop;
      ghost var tables := Tables();
      var parts: seq<seq<TopEntry>> := [];
      for i := 0 to |shards|
        invariant |parts| == i
        invariant forall j :: 0 <= j < i ==> Lists(parts[j], tables[j], now)
      {
        var part := shards[i].TopRows(now);
        parts := parts + [part];
      }
      r := Rank(parts, tables, hash, contents, now, n, text);
    }

    method AddShard(k: nat, out: array<Bucket>, now: int) returns (count: nat)
      requires Shaped() && k < |shards| && out.Length == WINDOW_SIZE && out !in repr
      modifies out
      ensures Shaped() && Tables() == old(Tables())
      ensures count == Size(LiveHosts(Tables()[k], now))
      ensures PiledUp(out[..], old(out[..]), Tables()[k], LiveHosts(Tables()[k], now), now)
    {
      hide PiledUp, Size;
      count := shards[k].AddTo(out, now);
    }

    method Overview(now: int) returns (buckets: seq<Bucket>, active: nat)
      requires Valid()
      ensures |buckets| == WINDOW_SIZE && active == |LiveHosts(contents, now)|
      ensures forall i :: 0 <= i < WINDOW_SIZE ==> buckets[i] == Pile(contents, LiveHosts(contents, now), Slot(now - i))
    {
      hide Replay, Merged, Tables, PiledUp, Size;
      var out := new Bucket[WINDOW_SIZE](i => EMPTY);
      active := 0;
      ghost var tables, was := Tables(), out[..];
      MergedLive(tables, hash, contents, now);
      PiledUpNothing(was, contents, now);
      SizeNone();
      for i := 0 to |shards|
        invariant Valid() && Tables() == tables
        invariant LiveBelow(tables, i, now) <= contents.Keys
        invariant active == Size(LiveBelow(tables, i, now))
        invariant PiledUp(out[..], was, contents, LiveBelow(tables, i, now), now)
      {
        ghost var mid := out[..];
        var count := AddShard(i, out, now);
        OverviewShard(out[..], mid, was, tables, hash, contents, i, now);
        active := active + count;
      }
      buckets := out[..];
      OverviewDone(buckets, was, contents, now);
    }
  }
}
