/** The whole-network view (aggregate/overview.go): sums of buckets over hosts, whatever the visiting order. */
module Overview {
  import opened Words
  import opened Net
  import opened Traffic
  import opened Window
  import opened Hosts

  lemma MergeSwap(a: Bucket, b: Bucket, c: Bucket)
    ensures Merge(a, Merge(b, c)) == Merge(b, Merge(a, c))
  {
    AddSwap(a.pps, b.pps, c.pps);
    AddSwap(a.bps, b.bps, c.bps);
    AddSwap(a.ppsUDP, b.ppsUDP, c.ppsUDP);
    AddSwap(a.bpsUDP, b.bpsUDP, c.bpsUDP);
    AddSwap(a.ppsICMP, b.ppsICMP, c.ppsICMP);
    AddSwap(a.bpsICMP, b.bpsICMP, c.bpsICMP);
    AddSwap(a.ppsOther, b.ppsOther, c.ppsOther);
    AddSwap(a.bpsOther, b.bpsOther, c.bpsOther);
    hide Add;
  }

  lemma MergeRotate(a: Bucket, b: Bucket, c: Bucket)
    ensures Merge(Merge(a, b), c) == Merge(Merge(c, a), b)
  {
    MergeSwap(a, b, c);
    MergeCommutes(a, b);
    MergeCommutes(Merge(a, b), c);
    MergeSwap(b, c, a);
    MergeCommutes(c, a);
    MergeCommutes(Merge(c, a), b);
    hide Merge;
  }

  lemma MergeCommutes(a: Bucket, b: Bucket)
    ensures Merge(a, b) == Merge(b, a)
  {
  }

  lemma AddSwap(a: U64, b: U64, c: U64)
    ensures Add(a, Add(b, c)) == Add(b, Add(a, c))
  {
  }

  /** The sum of one slot over a set of hosts. */
  ghost function Pile(t: Table, hosts: set<Addr>, slot: nat): Bucket
    requires ValidTable(t) && hosts <= t.Keys && slot < WINDOW_SIZE
  {
    if hosts == {} then EMPTY
    else var ip :| ip in hosts; Merge(t[ip].buckets[slot], Pile(t, hosts - {ip}, slot))
  }

  /** The sum does not depend on which host is taken out first. */
  lemma {:induction false} PileTake(t: Table, hosts: set<Addr>, slot: nat, ip: Addr)
    requires ValidTable(t) && hosts <= t.Keys && slot < WINDOW_SIZE && ip in hosts
    ensures Pile(t, hosts, slot) == Merge(t[ip].buckets[slot], Pile(t, hosts - {ip}, slot))
    decreases hosts
  {
    hide Merge;
    var iq :| iq in hosts && Pile(t, hosts, slot) == Merge(t[iq].buckets[slot], Pile(t, hosts - {iq}, slot));
    if iq != ip {
      PileTake(t, hosts - {iq}, slot, ip);
      PileTake(t, hosts - {ip}, slot, iq);
      assert hosts - {iq} - {ip} == hosts - {ip} - {iq};
      MergeSwap(t[ip].buckets[slot], t[iq].buckets[slot], Pile(t, hosts - {ip} - {iq}, slot));
    }
  }

  lemma {:induction false} PileSame(t: Table, u: Table, hosts: set<Addr>, slot: nat)
    requires ValidTable(t) && ValidTable(u) && hosts <= t.Keys && hosts <= u.Keys && slot < WINDOW_SIZE
    requires forall ip :: ip in hosts ==> t[ip] == u[ip]
    ensures Pile(t, hosts, slot) == Pile(u, hosts, slot)
    decreases hosts
  {
    hide Merge;
    if hosts != {} {
      var ip :| ip in hosts;
      PileTake(t, hosts, slot, ip);
      PileTake(u, hosts, slot, ip);
      PileSame(t, u, hosts - {ip}, slot);
    }
  }

  lemma {:induction false} PileUnion(t: Table, a: set<Addr>, b: set<Addr>, slot: nat)
    requires ValidTable(t) && a <= t.Keys && b <= t.Keys && a !! b && slot < WINDOW_SIZE
    ensures Pile(t, a + b, slot) == Merge(Pile(t, b, slot), Pile(t, a, slot))
    decreases b
  {
    if b == {} {
      assert a + b == a;
      MergeEmpty(Pile(t, a, slot));
    } else {
      var ip :| ip in b;
      PileTake(t, b, slot, ip);
      PileTake(t, a + b, slot, ip);
      assert a + b - {ip} == a + (b - {ip});
      PileUnion(t, a, b - {ip}, slot);
      MergeAssociates(t[ip].buckets[slot], Pile(t, b - {ip}, slot), Pile(t, a, slot));
    }
    hide Merge;
  }

  lemma MergeEmpty(b: Bucket)
    ensures Merge(EMPTY, b) == b == Merge(b, EMPTY)
  {
  }

  lemma MergeAssociates(a: Bucket, b: Bucket, c: Bucket)
    ensures Merge(Merge(a, b), c) == Merge(a, Merge(b, c))
  {
    MergeSwap(a, b, c);
    MergeCommutes(Merge(a, b), c);
    MergeSwap(c, a, b);
    MergeCommutes(c, b);
    hide Merge;
  }

  /** The sum of one index of the hosts' full snapshots, in the order of `ips`. */
  ghost function SnapshotSum(t: Table, ips: seq<Addr>, now: int, i: nat): Bucket
    requires ValidTable(t) && i < WINDOW_SIZE && forall j :: 0 <= j < |ips| ==> ips[j] in t
  {
    if ips == [] then EMPTY
    else Merge(SnapshotOf(t, ips[|ips| - 1], now, WINDOW_SIZE)[i], SnapshotSum(t, ips[..|ips| - 1], now, i))
  }

  /** Overview is the pointwise sum of the hosts' snapshots, in whatever order they are listed. */
  lemma {:induction false} PileIsSnapshotSum(t: Table, hosts: set<Addr>, ips: seq<Addr>, now: int, i: nat)
    requires ValidTable(t) && hosts <= t.Keys && Enumerates(ips, hosts) && i < WINDOW_SIZE
    ensures Pile(t, hosts, Slot(now - i)) == SnapshotSum(t, ips, now, i)
    decreases |ips|
  {
    hide Merge, Slot;
    if ips == [] {
      assert hosts == {};
    } else {
      var n := |ips| - 1;
      PileIsSnapshotSum(t, hosts - {ips[n]}, ips[..n], now, i);
      PileTake(t, hosts, Slot(now - i), ips[n]);
    }
  }

  /** Everything recorded for second `sec`, for any host. */
  function LoggedAll(ops: seq<Op>, sec: int): Tally {
    if ops == [] then NOTHING
    else
      var before := LoggedAll(ops[..|ops| - 1], sec);
      match ops[|ops| - 1]
      case Update(_, s, r) => if s == sec then Sum(before, Weigh(r)) else before
      case Tick(_) => before
  }

  /** The log of one second restricted to a set of hosts. */
  function LoggedFor(ops: seq<Op>, hosts: set<Addr>, sec: int): Tally {
    if ops == [] then NOTHING
    else
      var before := LoggedFor(ops[..|ops| - 1], hosts, sec);
      match ops[|ops| - 1]
      case Update(ip, s, r) => if ip in hosts && s == sec then Sum(before, Weigh(r)) else before
      case Tick(_) => before
  }

  lemma {:induction false} LoggedForNobody(ops: seq<Op>, sec: int)
    ensures LoggedFor(ops, {}, sec) == NOTHING
  {
    if ops != [] {
      LoggedForNobody(ops[..|ops| - 1], sec);
    }
  }

  lemma {:induction false} LoggedForSplit(ops: seq<Op>, hosts: set<Addr>, ip: Addr, sec: int)
    requires ip in hosts
    ensures LoggedFor(ops, hosts, sec) == Sum(Logged(ops, ip, sec), LoggedFor(ops, hosts - {ip}, sec))
  {
    hide Sum, Weigh;
    if ops == [] {
      SumNothing(NOTHING);
    } else {
      var before, last := ops[..|ops| - 1], ops[|ops| - 1];
      LoggedForSplit(before, hosts, ip, sec);
      if last.Update? && last.sec == sec && last.ip in hosts {
        SumSwap(Logged(before, ip, sec), LoggedFor(before, hosts - {ip}, sec), Weigh(last.r));
      }
    }
  }

  lemma {:induction false} LoggedForEveryone(ops: seq<Op>, hosts: set<Addr>, sec: int)
    requires forall k :: 0 <= k < |ops| && ops[k].Update? && ops[k].sec == sec ==> ops[k].ip in hosts
    ensures LoggedFor(ops, hosts, sec) == LoggedAll(ops, sec)
  {
    if ops != [] {
      LoggedForEveryone(ops[..|ops| - 1], hosts, sec);
    }
  }

  /** On a disciplined run, a pile of hosts counts the log restricted to those hosts. */
  lemma {:induction false} PileCounts(t0: int, ops: seq<Op>, hosts: set<Addr>, sec: int)
    requires Disciplined(t0, ops) && InWindow(Clock(t0, ops), sec) && hosts <= Replay(ops).Keys
    ensures Pile(Replay(ops), hosts, Slot(sec)) == Counted(LoggedFor(ops, hosts, sec))
    decreases hosts
  {
    hide Merge, Slot, Counted, Sum;
    if hosts == {} {
      LoggedForNobody(ops, sec);
      CountedNothing();
    } else {
      var ip :| ip in hosts;
      PileTake(Replay(ops), hosts, Slot(sec), ip);
      PileCounts(t0, ops, hosts - {ip}, sec);
      LoggedForSplit(ops, hosts, ip, sec);
      WindowLaw(t0, ops, ip, sec);
      MergeCounts(Logged(ops, ip, sec), LoggedFor(ops, hosts - {ip}, sec));
    }
  }

  /** On a disciplined run the overview counts all traffic of the network, second by second:
      hosts that were evicted or never seen have nothing in the window. */
  lemma OverviewCountsTheNetwork(t0: int, ops: seq<Op>, now: int, i: nat)
    requires Disciplined(t0, ops) && i < WINDOW_SIZE
    requires var T := Clock(t0, ops); now == T || now == T + 1
    ensures var T := Clock(t0, ops); var t := Replay(ops);
            Pile(t, LiveHosts(t, now), Slot(now - i))
            == Counted(LoggedAll(ops, if now == T then SecondOf(T, i) else now - i))
  {
    hide Slot, Counted, Merge;
    var T, t := Clock(t0, ops), Replay(ops);
    var hosts := LiveHosts(t, now);
    var sec := if now == T then SecondOf(T, i) else now - i;
    SlotsCoincide(now - i, sec);
    PileCounts(t0, ops, hosts, sec);
    forall k | 0 <= k < |ops| && ops[k].Update? && ops[k].sec == sec ensures ops[k].ip in hosts {
      Recency(t0, ops, k);
    }
    LoggedForEveryone(ops, hosts, sec);
  }

  /** Every bucket of an overview is balanced, on every run. */
  lemma {:induction false} PileBalances(ops: seq<Op>, hosts: set<Addr>, slot: nat)
    requires hosts <= Replay(ops).Keys && slot < WINDOW_SIZE
    ensures Balanced(Pile(Replay(ops), hosts, slot))
    decreases hosts
  {
    assert Balanced(EMPTY);
    hide Merge, Balanced;
    if hosts != {} {
      var ip :| ip in hosts;
      PileTake(Replay(ops), hosts, slot, ip);
      PileBalances(ops, hosts - {ip}, slot);
      ReachableBucketsBalance(ops, ip, slot);
      MergeBalances(Replay(ops)[ip].buckets[slot], Pile(Replay(ops), hosts - {ip}, slot));
    }
  }
}
