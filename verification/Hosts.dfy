/** Sets of hosts and their enumerations: Go visits a map in any order, each key once. */
module Hosts {
  import opened Net
  import opened Traffic
  import opened Window

  ghost function LiveHosts(t: Table, now: int): set<Addr> {
    set ip | ip in t && Live(t[ip], now)
  }

  /** From the clock's second on, the live hosts are those with a record of the last 60 seconds. */
  lemma LiveHostsFollowTheLog(t0: int, ops: seq<Op>, now: int)
    requires Disciplined(t0, ops) && SinceEpoch(ops) && now >= Clock(t0, ops)
    ensures forall ip :: ip in LiveHosts(Replay(ops), now) <==> SeenSince(ops, ip, now - 60)
    ensures forall ip :: ip in LiveHosts(Replay(ops), now) ==> IsLastSeen(ops, ip, Replay(ops)[ip].lastSec)
  {
    hide Replay, Live, SeenSince, IsLastSeen;
    forall ip
      ensures ip in LiveHosts(Replay(ops), now) <==> SeenSince(ops, ip, now - 60)
      ensures ip in LiveHosts(Replay(ops), now) ==> IsLastSeen(ops, ip, Replay(ops)[ip].lastSec)
    {
      LiveExactly(t0, ops, ip, now);
      if ip in Replay(ops) {
        LastSecIsLastSeen(t0, ops, ip);
      }
    }
  }

  ghost function Size(hosts: set<Addr>): nat {
    |hosts|
  }

  lemma SizeNone()
    ensures Size({}) == 0
  {
  }

  lemma SizeAdd(hosts: set<Addr>, ip: Addr)
    requires ip !in hosts
    ensures Size(hosts + {ip}) == Size(hosts) + 1
  {
  }

  lemma SizeUnion(a: set<Addr>, b: set<Addr>)
    requires a !! b
    ensures Size(a + b) == Size(a) + Size(b)
  {
  }

  /** The address column of a listing. */
  function Column<T>(rows: seq<T>, ip: T -> Addr): (ips: seq<Addr>)
    ensures |ips| == |rows|
  {
    seq(|rows|, i requires 0 <= i < |rows| => ip(rows[i]))
  }

  /** `ips` lists exactly the hosts of `hosts`, each once. */
  ghost predicate Enumerates(ips: seq<Addr>, hosts: set<Addr>) {
    && (forall i :: 0 <= i < |ips| ==> ips[i] in hosts)
    && (forall ip :: ip in hosts ==> ip in ips)
    && (forall i, j :: 0 <= i < j < |ips| ==> ips[i] != ips[j])
  }

  lemma EnumeratesAdd(ips: seq<Addr>, hosts: set<Addr>, ip: Addr)
    requires Enumerates(ips, hosts) && ip !in hosts
    ensures Enumerates(ips + [ip], hosts + {ip})
  {
  }

  lemma EnumeratesConcat(a: seq<Addr>, s: set<Addr>, b: seq<Addr>, t: set<Addr>)
    requires Enumerates(a, s) && Enumerates(b, t) && s !! t
    ensures Enumerates(a + b, s + t)
  {
    forall i, j | 0 <= i < j < |a + b| ensures (a + b)[i] != (a + b)[j] {
      if i < |a| <= j {
        assert (a + b)[i] in s && (a + b)[j] in t;
      }
    }
  }

  lemma {:induction false} EnumeratesSize(ips: seq<Addr>, hosts: set<Addr>)
    requires Enumerates(ips, hosts)
    ensures |ips| == |hosts|
    decreases |ips|
  {
    if ips == [] {
      assert hosts == {};
    } else {
      var n := |ips| - 1;
      EnumeratesSize(ips[..n], hosts - {ips[n]});
    }
  }

  /** The shard a host belongs to. */
  function ShardOf(hash: Addr -> nat, n: nat, ip: Addr): (i: nat)
    requires n > 0
    ensures i < n
  {
    hash(ip) % n
  }

  /** The tables of the shards, put together, are the flat table `t`. */
  ghost predicate Merged(tables: seq<Table>, hash: Addr -> nat, t: Table)
    requires |tables| > 0
  {
    && (forall i, ip :: 0 <= i < |tables| && ip in tables[i] ==> ShardOf(hash, |tables|, ip) == i)
    && (forall ip :: ip in t <==> ip in tables[ShardOf(hash, |tables|, ip)])
    && (forall ip :: ip in t ==> t[ip] == tables[ShardOf(hash, |tables|, ip)][ip])
  }

  /** Updating the owning shard updates the flat table. */
  lemma MergedUpdate(tables: seq<Table>, tables': seq<Table>, hash: Addr -> nat, t: Table, ip: Addr, ring: Ring)
    requires 0 < |tables| == |tables'| && Merged(tables, hash, t)
    requires var k := ShardOf(hash, |tables|, ip); tables' == tables[k := tables[k][ip := ring]]
    ensures Merged(tables', hash, t[ip := ring])
  {
    hide ShardOf;
  }

  lemma MergedAfterUpdate(tables: seq<Table>, hash: Addr -> nat, t: Table, ip: Addr, sec: int, r: Record)
    requires |tables| > 0 && Merged(tables, hash, t) && ValidTable(t)
    requires forall i :: 0 <= i < |tables| ==> ValidTable(tables[i])
    ensures var k := ShardOf(hash, |tables|, ip);
            Merged(tables[k := AfterUpdate(tables[k], ip, sec, r)], hash, AfterUpdate(t, ip, sec, r))
  {
    hide ShardOf, Charged;
    var k := ShardOf(hash, |tables|, ip);
    MergedUpdate(tables, tables[k := AfterUpdate(tables[k], ip, sec, r)], hash, t, ip, AfterUpdate(t, ip, sec, r)[ip]);
  }

  /** Ticking every shard ticks the flat table. */
  lemma MergedTick(tables: seq<Table>, tables': seq<Table>, hash: Addr -> nat, t: Table, now: int)
    requires 0 < |tables| == |tables'| && Merged(tables, hash, t) && ValidTable(t)
    requires forall i :: 0 <= i < |tables| ==> ValidTable(tables[i]) && tables'[i] == AfterTick(tables[i], now)
    ensures Merged(tables', hash, AfterTick(t, now))
  {
    hide ShardOf, Cleared, Live;
  }

  /** A walk that has visited the first `n` shards has met exactly the live hosts of those. */
  ghost function LiveBelow(tables: seq<Table>, n: nat, now: int): set<Addr>
    requires n <= |tables|
  {
    if n == 0 then {} else LiveBelow(tables, n - 1, now) + LiveHosts(tables[n - 1], now)
  }

  lemma LiveBelowNext(tables: seq<Table>, n: nat, now: int)
    requires n < |tables|
    ensures LiveBelow(tables, n + 1, now) == LiveBelow(tables, n, now) + LiveHosts(tables[n], now)
  {
  }

  lemma {:induction false} LiveBelowMembers(tables: seq<Table>, n: nat, now: int, ip: Addr)
    requires n <= |tables|
    ensures ip in LiveBelow(tables, n, now) <==> exists i :: 0 <= i < n && ip in LiveHosts(tables[i], now)
  {
    if n > 0 {
      LiveBelowMembers(tables, n - 1, now, ip);
    }
  }

  lemma MergedLive(tables: seq<Table>, hash: Addr -> nat, t: Table, now: int)
    requires |tables| > 0 && Merged(tables, hash, t)
    ensures LiveBelow(tables, |tables|, now) == LiveHosts(t, now)
    ensures forall i :: 0 <= i < |tables| ==> LiveBelow(tables, i, now) !! LiveHosts(tables[i], now)
  {
    forall ip ensures ip in LiveBelow(tables, |tables|, now) <==> ip in LiveHosts(t, now) {
      LiveBelowMembers(tables, |tables|, now, ip);
      assert ip in t ==> ip in tables[ShardOf(hash, |tables|, ip)];
    }
    forall i, ip | 0 <= i < |tables| && ip in LiveHosts(tables[i], now) ensures ip !in LiveBelow(tables, i, now) {
      LiveBelowMembers(tables, i, now, ip);
      assert ShardOf(hash, |tables|, ip) == i;
      forall j | 0 <= j < i ensures ip !in LiveHosts(tables[j], now) {
        var here := ip in tables[j];
      }
    }
  }
}
