/** The Top(N) ranking on values (aggregate/store.go, Top). */
module Ranking {
  import opened Words
  import opened Net
  import opened Traffic
  import opened Window
  import opened Hosts
  import Sorting

  datatype TopEntry = TopEntry(ip: Addr, bps: U64, pps: U64, dominantProto: string)

  /** The protocol name Top attaches to a host's sums. */
  function Dominant(s: Bucket): string {
    var best := if s.bpsICMP > s.bpsUDP then s.bpsICMP else s.bpsUDP;
    if s.bpsOther > best then "other" else if s.bpsICMP > s.bpsUDP then "icmp" else "udp"
  }

  /** The dominant protocol carries the most bytes; ties go to udp, then icmp, then other. */
  lemma DominantIsLargest(s: Bucket)
    ensures Dominant(s) == "udp" <==> s.bpsUDP >= s.bpsICMP && s.bpsUDP >= s.bpsOther
    ensures Dominant(s) == "icmp" <==> s.bpsICMP > s.bpsUDP && s.bpsICMP >= s.bpsOther
    ensures Dominant(s) == "other" <==> s.bpsOther > s.bpsUDP && s.bpsOther > s.bpsICMP
  {
    assert "udp"[0] == 'u' && "icmp"[0] == 'i' && "other"[0] == 'o';
  }

  function RowOf(ip: Addr, ring: Ring): TopEntry {
    var s := Total(ring.buckets);
    TopEntry(ip, s.bps, s.pps, Dominant(s))
  }

  ghost function Candidates(t: Table, now: int): set<Addr> {
    set ip | ip in t && Live(t[ip], now) && Total(t[ip].buckets).bps != 0
  }

  function Ips(rows: seq<TopEntry>): (ips: seq<Addr>)
    ensures |ips| == |rows| && forall i :: 0 <= i < |rows| ==> ips[i] == rows[i].ip
  {
    Column(rows, (r: TopEntry) => r.ip)
  }

  /** The rows are those of the candidates of `t`, each once, with the sums of its ring in `t`. */
  ghost predicate Lists(rows: seq<TopEntry>, t: Table, now: int) {
    Enumerates(Ips(rows), Candidates(t, now)) && RowsOf(rows, t)
  }

  /** Each row is its host's row in `t`. */
  ghost predicate RowsOf(rows: seq<TopEntry>, t: Table) {
    forall i :: 0 <= i < |rows| ==> rows[i].ip in t && rows[i] == RowOf(rows[i].ip, t[rows[i].ip])
  }

  /** Bytes descending, then address text ascending. */
  function RankBefore(text: Addr -> string): (TopEntry, TopEntry) -> bool {
    (a: TopEntry, b: TopEntry) =>
      if a.bps != b.bps then a.bps > b.bps else StringLess(text(a.ip), text(b.ip))
  }

  lemma RankBeforeIsComparator(text: Addr -> string)
    ensures Sorting.Comparator(RankBefore(text))
  {
    var less := RankBefore(text);
    forall a, b | less(a, b) ensures !less(b, a) {
      StringLessTotal(text(a.ip), text(b.ip));
    }
    forall a, b, c | !less(b, a) && !less(c, b) ensures !less(c, a) {
      StringLessTotal(text(a.ip), text(b.ip));
      StringLessTotal(text(b.ip), text(c.ip));
      StringLessTotal(text(a.ip), text(c.ip));
      if less(c, a) {
        if text(a.ip) != text(b.ip) && text(b.ip) != text(c.ip) {
          StringLessTransitive(text(a.ip), text(b.ip), text(c.ip));
        }
      }
    }
  }

  /** The rows met in the shards, each at the moment it was visited. */
  function Concat(parts: seq<seq<TopEntry>>): seq<TopEntry> {
    if parts == [] then [] else Concat(parts[..|parts| - 1]) + parts[|parts| - 1]
  }

  ghost function CandidatesBelow(tables: seq<Table>, n: nat, now: int): set<Addr>
    requires n <= |tables|
  {
    if n == 0 then {} else CandidatesBelow(tables, n - 1, now) + Candidates(tables[n - 1], now)
  }

  lemma {:induction false} CandidatesBelowMembers(tables: seq<Table>, n: nat, now: int, ip: Addr)
    requires n <= |tables|
    ensures ip in CandidatesBelow(tables, n, now) <==> exists i :: 0 <= i < n && ip in Candidates(tables[i], now)
  {
    if n > 0 {
      CandidatesBelowMembers(tables, n - 1, now, ip);
    }
  }

  lemma ShardsAreDisjoint(tables: seq<Table>, hash: Addr -> nat, seen: Table, now: int, n: nat)
    requires n < |tables| && Merged(tables, hash, seen)
    ensures CandidatesBelow(tables, n, now) !! Candidates(tables[n], now)
  {
    hide ShardOf, Total;
    forall ip | ip in Candidates(tables[n], now) ensures ip !in CandidatesBelow(tables, n, now) {
      CandidatesBelowMembers(tables, n, now, ip);
      assert ip in tables[n] && ShardOf(hash, |tables|, ip) == n;
      forall i | 0 <= i < n ensures ip !in Candidates(tables[i], now) {
        var here := ip in tables[i];
      }
    }
    hide CandidatesBelow;
  }

  /** The rows met in shard `n` are those hosts' rows in the merged table. */
  lemma RowsSeen(tables: seq<Table>, rows: seq<TopEntry>, hash: Addr -> nat, seen: Table, n: nat)
    requires n < |tables| && Merged(tables, hash, seen) && RowsOf(rows, tables[n])
    ensures RowsOf(rows, seen)
  {
    hide RowOf, ShardOf;
  }

  lemma RowsConcat(a: seq<TopEntry>, b: seq<TopEntry>, t: Table)
    requires RowsOf(a, t) && RowsOf(b, t)
    ensures RowsOf(a + b, t) && Ips(a + b) == Ips(a) + Ips(b)
  {
    hide RowOf;
  }

  lemma {:induction false} ScanPrefix(tables: seq<Table>, parts: seq<seq<TopEntry>>, hash: Addr -> nat,
                                      seen: Table, now: int, n: nat)
    requires n <= |parts| == |tables| && |tables| > 0 && Merged(tables, hash, seen)
    requires forall i :: 0 <= i < n ==> Lists(parts[i], tables[i], now)
    ensures Enumerates(Ips(Concat(parts[..n])), CandidatesBelow(tables, n, now)) && RowsOf(Concat(parts[..n]), seen)
  {
    hide RowOf, Candidates, Enumerates, Merged, Ips, RowsOf;
    if n == 0 {
      NoRows(seen);
    } else {
      ScanPrefix(tables, parts, hash, seen, now, n - 1);
      assert parts[..n][..n - 1] == parts[..n - 1];
      var rows := Concat(parts[..n - 1]);
      assert Lists(parts[n - 1], tables[n - 1], now);
      ShardsAreDisjoint(tables, hash, seen, now, n - 1);
      EnumeratesConcat(Ips(rows), CandidatesBelow(tables, n - 1, now),
                       Ips(parts[n - 1]), Candidates(tables[n - 1], now));
      RowsSeen(tables, parts[n - 1], hash, seen, n - 1);
      RowsConcat(rows, parts[n - 1], seen);
    }
  }

  lemma NoRows(t: Table)
    ensures Enumerates(Ips([]), {}) && RowsOf([], t)
  {
  }

  lemma CandidatesCovered(tables: seq<Table>, hash: Addr -> nat, seen: Table, now: int)
    requires |tables| > 0 && Merged(tables, hash, seen)
    ensures CandidatesBelow(tables, |tables|, now) == Candidates(seen, now)
  {
    hide ShardOf, Total;
    forall ip ensures ip in CandidatesBelow(tables, |tables|, now) <==> ip in Candidates(seen, now) {
      CandidatesBelowMembers(tables, |tables|, now, ip);
    }
    hide CandidatesBelow, Candidates, Merged;
  }

  /** The rows collected are those of the candidates of the table that the visited shards make up. */
  lemma ScanListsCandidates(tables: seq<Table>, parts: seq<seq<TopEntry>>, hash: Addr -> nat, seen: Table, now: int)
    requires |parts| == |tables| > 0 && Merged(tables, hash, seen)
    requires forall i :: 0 <= i < |parts| ==> Lists(parts[i], tables[i], now)
    ensures Lists(Concat(parts), seen, now)
  {
    hide RowOf, Enumerates, Merged, Candidates, CandidatesBelow, RowsOf;
    ScanPrefix(tables, parts, hash, seen, now, |parts|);
    assert parts[..|parts|] == parts;
    CandidatesCovered(tables, hash, seen, now);
  }

  // ---- Updates and Ticks between the visits --------------------------------------------------------

  /** Shard `i`'s share of the flat table. */
  function ShareOf(t: Table, hash: Addr -> nat, n: nat, i: nat): Table
    requires n > 0
  {
    map ip | ip in t && ShardOf(hash, n, ip) == i :: t[ip]
  }

  /** The shards as a walk meets them that visits shard `i` after the first `at[i]` operations of the history. */
  ghost function Met(ops: seq<Op>, at: seq<nat>, hash: Addr -> nat): (tables: seq<Table>)
    requires at != [] && forall i :: 0 <= i < |at| ==> at[i] <= |ops|
    ensures |tables| == |at|
  {
    seq(|at|, i requires 0 <= i < |at| => ShareOf(Replay(ops[..at[i]]), hash, |at|, i))
  }

  ghost function HostsBelow(tables: seq<Table>, n: nat): set<Addr>
    requires n <= |tables|
  {
    if n == 0 then {} else HostsBelow(tables, n - 1) + tables[n - 1].Keys
  }

  lemma {:induction false} HostsBelowMembers(tables: seq<Table>, n: nat, ip: Addr)
    requires n <= |tables|
    ensures ip in HostsBelow(tables, n) <==> exists i :: 0 <= i < n && ip in tables[i]
  {
    if n > 0 {
      HostsBelowMembers(tables, n - 1, ip);
    }
  }

  /** The host stands in `seen` as it did when its own shard was visited. */
  ghost predicate AsVisited(seen: Table, ops: seq<Op>, at: seq<nat>, hash: Addr -> nat, ip: Addr)
    requires at != [] && forall i :: 0 <= i < |at| ==> at[i] <= |ops|
  {
    var t := Replay(ops[..at[ShardOf(hash, |at|, ip)]]);
    (ip in seen <==> ip in t) && (ip in seen ==> seen[ip] == t[ip])
  }

  /** The shards met at different moments still make up one table, since a host never changes its shard. */
  lemma MetAreMerged(ops: seq<Op>, at: seq<nat>, hash: Addr -> nat) returns (seen: Table)
    requires at != [] && forall i :: 0 <= i < |at| ==> at[i] <= |ops|
    ensures Merged(Met(ops, at, hash), hash, seen) && forall ip :: AsVisited(seen, ops, at, hash, ip)
  {
    hide Replay, ShardOf;
    var tables := Met(ops, at, hash);
    forall ip ensures ip in HostsBelow(tables, |tables|) <==> ip in tables[ShardOf(hash, |at|, ip)] {
      HostsBelowMembers(tables, |tables|, ip);
    }
    hide HostsBelow;
    seen := map ip | ip in HostsBelow(tables, |tables|) :: tables[ShardOf(hash, |at|, ip)][ip];
  }

  /** Whatever Updates and Ticks fall between the visits, the rows a walk collects are those of the table in which
      every host stands as it did when its own shard was visited. */
  lemma InterleavedScan(ops: seq<Op>, at: seq<nat>, hash: Addr -> nat, parts: seq<seq<TopEntry>>, now: int)
    returns (seen: Table)
    requires |parts| == |at| > 0 && forall i :: 0 <= i < |at| ==> at[i] <= |ops|
    requires forall i :: 0 <= i < |at| ==> Lists(parts[i], Met(ops, at, hash)[i], now)
    ensures Lists(Concat(parts), seen, now) && forall ip :: AsVisited(seen, ops, at, hash, ip)
  {
    hide Met, Merged, Lists, AsVisited;
    seen := MetAreMerged(ops, at, hash);
    ScanListsCandidates(Met(ops, at, hash), parts, hash, seen, now);
  }

  lemma {:induction false} MultisetOfDistinct<T>(s: seq<T>, x: T)
    requires forall i, j :: 0 <= i < j < |s| ==> s[i] != s[j]
    ensures multiset(s)[x] <= 1
  {
    if s != [] {
      var n := |s| - 1;
      MultisetOfDistinct(s[..n], x);
      assert s == s[..n] + [s[n]];
    }
  }

  lemma DistinctFromMultiset<T>(s: seq<T>, i: nat, j: nat)
    requires i < j < |s| && s[i] == s[j]
    ensures multiset(s)[s[i]] >= 2
  {
    assert s == s[..i] + [s[i]] + s[i + 1..j] + [s[j]] + s[j + 1..];
  }

  lemma SameRows(rows: seq<TopEntry>, rows': seq<TopEntry>)
    requires multiset(rows) == multiset(rows')
    ensures forall r :: r in rows <==> r in rows'
  {
    forall r ensures r in rows <==> r in rows' {
      assert r in rows <==> r in multiset(rows);
      assert r in rows' <==> r in multiset(rows');
    }
  }

  lemma DistinctPermuted(rows: seq<TopEntry>, rows': seq<TopEntry>, i: nat, j: nat)
    requires multiset(rows) == multiset(rows') && i < j < |rows'|
    requires forall k, l :: 0 <= k < l < |rows| ==> rows[k] != rows[l]
    ensures rows'[i] != rows'[j]
  {
    MultisetOfDistinct(rows, rows'[i]);
    if rows'[i] == rows'[j] {
      DistinctFromMultiset(rows', i, j);
    }
  }

  /** Reordering rows keeps what they list. */
  lemma ListsPermuted(rows: seq<TopEntry>, rows': seq<TopEntry>, t: Table, now: int)
    requires Lists(rows, t, now) && multiset(rows) == multiset(rows')
    ensures Lists(rows', t, now)
  {
    hide RowOf, Candidates, Ips;
    SameRows(rows, rows');
    forall i | 0 <= i < |rows'| ensures rows'[i] in rows {
      assert rows'[i] in rows';
    }
    assert RowsOf(rows', t);
    forall i | 0 <= i < |rows'| ensures Ips(rows')[i] in Candidates(t, now) {
      var k :| 0 <= k < |rows| && rows[k] == rows'[i];
      assert Ips(rows)[k] == rows[k].ip;
    }
    forall ip | ip in Candidates(t, now) ensures ip in Ips(rows') {
      var i :| 0 <= i < |rows| && Ips(rows)[i] == ip;
      assert rows[i] in rows';
      var j :| 0 <= j < |rows'| && rows'[j] == rows[i];
      assert Ips(rows')[j] == ip;
    }
    forall k, l | 0 <= k < l < |rows| ensures rows[k] != rows[l] {
      assert Ips(rows)[k] != Ips(rows)[l];
    }
    forall i, j | 0 <= i < j < |rows'| ensures Ips(rows')[i] != Ips(rows')[j] {
      DistinctPermuted(rows, rows', i, j);
    }
  }

  /** What Top promises about the hosts of `t`. */
  ghost predicate IsTop(r: seq<TopEntry>, n: int, t: Table, now: int, text: Addr -> string) {
    && |r| == (if n <= 0 then 0 else if n < |Candidates(t, now)| then n else |Candidates(t, now)|)
    && Sorting.Sorted(r, RankBefore(text))
    && (forall i :: 0 <= i < |r| ==> r[i].ip in Candidates(t, now) && r[i] == RowOf(r[i].ip, t[r[i].ip]))
    && (forall i, j :: 0 <= i < j < |r| ==> r[i].ip != r[j].ip)
    && (forall ip, i :: ip in Candidates(t, now) && ip !in Ips(r) && 0 <= i < |r| ==>
          !RankBefore(text)(RowOf(ip, t[ip]), r[i]))
  }

  lemma SortedPrefixIsTop(rows: seq<TopEntry>, n: nat, t: Table, now: int, text: Addr -> string)
    requires Lists(rows, t, now) && Sorting.Sorted(rows, RankBefore(text)) && n > 0
    ensures IsTop(if |rows| > n then rows[..n] else rows, n, t, now, text)
  {
    hide RowOf, Candidates, RankBefore;
    var r := if |rows| > n then rows[..n] else rows;
    EnumeratesSize(Ips(rows), Candidates(t, now));
    forall i | 0 <= i < |rows| ensures rows[i].ip in Candidates(t, now) {
      assert Ips(rows)[i] == rows[i].ip;
    }
    forall i, j | 0 <= i < j < |r| ensures r[i].ip != r[j].ip {
      assert Ips(rows)[i] != Ips(rows)[j];
    }
    assert forall j :: 0 <= j < |r| ==> Ips(r)[j] == Ips(rows)[j];
    forall ip, i | ip in Candidates(t, now) && ip !in Ips(r) && 0 <= i < |r|
      ensures !RankBefore(text)(RowOf(ip, t[ip]), r[i])
    {
      var j :| 0 <= j < |rows| && Ips(rows)[j] == ip;
    }
  }

  // ---- What the rows say -----------------------------------------------------------------------

  /** A counter added up over buckets, unbounded. */
  function AddedUp(bs: seq<Bucket>, counter: Bucket -> nat): nat {
    if bs == [] then 0 else AddedUp(bs[..|bs| - 1], counter) + counter(bs[|bs| - 1])
  }

  function Pps(b: Bucket): nat { b.pps }

  function Bps(b: Bucket): nat { b.bps }

  function BpsUdp(b: Bucket): nat { b.bpsUDP }

  function BpsIcmp(b: Bucket): nat { b.bpsICMP }

  function BpsOther(b: Bucket): nat { b.bpsOther }

  /** A row gives these packets and bytes on `uint64`, and the protocol with the most bytes; ties go to udp, then icmp,
      then other. */
  ghost predicate RowSays(row: TopEntry, packets: nat, bytes: nat, udp: nat, icmp: nat, other: nat) {
    && row.pps == Wrap(packets) && row.bps == Wrap(bytes)
    && (row.dominantProto == "udp" <==> Wrap(udp) >= Wrap(icmp) && Wrap(udp) >= Wrap(other))
    && (row.dominantProto == "icmp" <==> Wrap(icmp) > Wrap(udp) && Wrap(icmp) >= Wrap(other))
    && (row.dominantProto == "other" <==> Wrap(other) > Wrap(udp) && Wrap(other) > Wrap(icmp))
  }

  lemma {:induction false} TotalAddsUp(bs: seq<Bucket>)
    ensures var s := Total(bs);
            && s.pps == Wrap(AddedUp(bs, Pps)) && s.bps == Wrap(AddedUp(bs, Bps))
            && s.bpsUDP == Wrap(AddedUp(bs, BpsUdp)) && s.bpsICMP == Wrap(AddedUp(bs, BpsIcmp))
            && s.bpsOther == Wrap(AddedUp(bs, BpsOther))
  {
    hide Wrap, Add;
    WrapSmall(0);
    if bs != [] {
      var before, last := bs[..|bs| - 1], bs[|bs| - 1];
      TotalAddsUp(before);
      CounterAddsUp(before, last.pps, Pps);
      CounterAddsUp(before, last.bps, Bps);
      CounterAddsUp(before, last.bpsUDP, BpsUdp);
      CounterAddsUp(before, last.bpsICMP, BpsIcmp);
      CounterAddsUp(before, last.bpsOther, BpsOther);
    }
  }

  lemma CounterAddsUp(before: seq<Bucket>, x: U64, counter: Bucket -> nat)
    ensures Add(Wrap(AddedUp(before, counter)), x) == Wrap(AddedUp(before, counter) + x)
  {
    WrapSmall(x);
    WrapAdd(AddedUp(before, counter), x);
  }

  /** Every row of a top list gives the sums of its host's buckets. */
  lemma TopAddsRings(r: seq<TopEntry>, n: int, t: Table, now: int, text: Addr -> string, i: nat)
    requires IsTop(r, n, t, now, text) && i < |r|
    ensures r[i].ip in t
    ensures var bs := t[r[i].ip].buckets;
            RowSays(r[i], AddedUp(bs, Pps), AddedUp(bs, Bps), AddedUp(bs, BpsUdp), AddedUp(bs, BpsIcmp),
                    AddedUp(bs, BpsOther))
  {
    hide RankBefore, Sorting.Sorted, Total, Dominant, AddedUp, Wrap;
    var bs := t[r[i].ip].buckets;
    TotalAddsUp(bs);
    DominantIsLargest(Total(bs));
  }

  /** A row gives what the host's log counts from T-58 to T+1. */
  ghost predicate RowTells(row: TopEntry, ops: seq<Op>, T: int) {
    var seen := LoggedBetween(ops, row.ip, T - 58, T + 1);
    RowSays(row, seen.Pkts(), seen.Bytes(), seen.udpBytes, seen.icmpBytes, seen.otherBytes)
  }

  /** Whether a host belongs in the ranking: a record of the last 60 seconds, and bytes on `uint64`. */
  ghost predicate Deserves(ops: seq<Op>, ip: Addr, T: int, now: int) {
    SeenSince(ops, ip, now - 60) && Wrap(LoggedBetween(ops, ip, T - 58, T + 1).Bytes()) != 0
  }

  /** The ranking read off the flow log: at most `n` deserving hosts, each once, by bytes and then by address text, and
      nobody left out while there is room or while ranking above a listed one. */
  ghost predicate RanksTheLog(r: seq<TopEntry>, n: int, ops: seq<Op>, T: int, now: int, text: Addr -> string) {
    && |r| <= Max(n, 0)
    && (forall i :: 0 <= i < |r| ==> Deserves(ops, r[i].ip, T, now) && RowTells(r[i], ops, T))
    && (forall i, j :: 0 <= i < j < |r| ==> r[i].ip != r[j].ip)
    && (forall i, j :: 0 <= i < j < |r| ==>
          r[i].bps > r[j].bps || (r[i].bps == r[j].bps && !StringLess(text(r[j].ip), text(r[i].ip))))
    && (forall ip :: Deserves(ops, ip, T, now) && ip !in Ips(r) ==> |r| == Max(n, 0))
    && (forall ip, i :: Deserves(ops, ip, T, now) && ip !in Ips(r) && 0 <= i < |r| ==>
          var bytes := Wrap(LoggedBetween(ops, ip, T - 58, T + 1).Bytes());
          r[i].bps > bytes || (r[i].bps == bytes && !StringLess(text(ip), text(r[i].ip))))
  }

  lemma CandidatesDeserve(t0: int, ops: seq<Op>, now: int, ip: Addr)
    requires Disciplined(t0, ops) && SinceEpoch(ops) && now >= Clock(t0, ops)
    ensures var T := Clock(t0, ops);
            && (ip in Candidates(Replay(ops), now) <==> Deserves(ops, ip, T, now))
            && (ip in Replay(ops) ==>
                  RowOf(ip, Replay(ops)[ip]).bps == Wrap(LoggedBetween(ops, ip, T - 58, T + 1).Bytes())
                  && RowTells(RowOf(ip, Replay(ops)[ip]), ops, T))
  {
    hide Disciplined, SinceEpoch, Clock, Replay, Live, Total, LoggedBetween, Dominant, Wrap, SeenSince;
    LiveExactly(t0, ops, ip, now);
    if ip in Replay(ops) {
      RingCountsTheLog(t0, ops, ip);
      DominantIsLargest(Total(Replay(ops)[ip].buckets));
    }
  }

  /** From the clock's second on, the top list of a disciplined run is the ranking of the flow log. */
  lemma TopReadsTheLog(t0: int, ops: seq<Op>, r: seq<TopEntry>, n: int, now: int, text: Addr -> string)
    requires Disciplined(t0, ops) && SinceEpoch(ops) && now >= Clock(t0, ops)
    requires IsTop(r, n, Replay(ops), now, text)
    ensures RanksTheLog(r, n, ops, Clock(t0, ops), now, text)
  {
    hide Disciplined, SinceEpoch, Clock, Replay, RowOf, RowTells, Candidates, Deserves, LoggedBetween, Wrap;
    var t, T := Replay(ops), Clock(t0, ops);
    forall ip
      ensures ip in Candidates(t, now) <==> Deserves(ops, ip, T, now)
      ensures ip in Candidates(t, now) ==> ip in t && RowOf(ip, t[ip]).ip == ip && RowTells(RowOf(ip, t[ip]), ops, T)
      ensures ip in Candidates(t, now) ==>
                RowOf(ip, t[ip]).bps == Wrap(LoggedBetween(ops, ip, T - 58, T + 1).Bytes())
    {
      CandidatesDeserve(t0, ops, now, ip);
      if ip in Candidates(t, now) {
        CandidateHasRow(t, now, ip);
      }
    }
    forall ip | Deserves(ops, ip, T, now) && ip !in Ips(r) ensures |r| == Max(n, 0) {
      if |r| == |Candidates(t, now)| {
        EveryCandidateListed(r, Candidates(t, now), ip);
      }
    }
  }

  lemma CandidateHasRow(t: Table, now: int, ip: Addr)
    requires ip in Candidates(t, now)
    ensures ip in t && RowOf(ip, t[ip]).ip == ip
  {
    hide Total;
  }

  /** A list of as many different hosts as there are lists them all. */
  lemma EveryCandidateListed(r: seq<TopEntry>, hosts: set<Addr>, ip: Addr)
    requires |r| == |hosts| && ip in hosts
    requires forall i :: 0 <= i < |r| ==> r[i].ip in hosts
    requires forall i, j :: 0 <= i < j < |r| ==> r[i].ip != r[j].ip
    ensures ip in Ips(r)
  {
    if ip !in Ips(r) {
      var listed := set i | 0 <= i < |r| :: r[i].ip;
      assert Enumerates(Ips(r), listed);
      EnumeratesSize(Ips(r), listed);
      assert ip !in listed && listed <= hosts - {ip};
      SubsetSize(listed, hosts - {ip});
    }
  }

  lemma {:induction false} SubsetSize(a: set<Addr>, b: set<Addr>)
    requires a <= b
    ensures |a| <= |b|
  {
    if a != {} {
      var x :| x in a;
      SubsetSize(a - {x}, b - {x});
    }
  }
}
