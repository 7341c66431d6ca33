/** One lock per shard (aggregate/store.go, Tick): updates may fall between the shards' turns, and the sharded store
    still stands for one flat table with one atomic tick. */
module Locks {
  import opened Words
  import opened Net
  import opened Traffic
  import opened Window
  import opened Hosts
  import opened Ranking

  /** What shard `k` of `n` does in a history: the updates of its own hosts, and every tick. */
  function Own(ops: seq<Op>, hash: Addr -> nat, n: nat, k: nat): seq<Op>
    requires n > 0
  {
    if ops == [] then []
    else
      var last := ops[|ops| - 1];
      Own(ops[..|ops| - 1], hash, n, k) + if last.Tick? || ShardOf(hash, n, last.ip) == k then [last] else []
  }

  lemma {:induction false} OwnConcat(a: seq<Op>, b: seq<Op>, hash: Addr -> nat, n: nat, k: nat)
    requires n > 0
    ensures Own(a + b, hash, n, k) == Own(a, hash, n, k) + Own(b, hash, n, k)
    decreases |b|
  {
    hide ShardOf;
    if b == [] {
      assert a + b == a;
    } else {
      OwnConcat(a, b[..|b| - 1], hash, n, k);
      assert (a + b)[..|a + b| - 1] == a + b[..|b| - 1];
    }
  }

  lemma OwnUpdate(t: Table, hash: Addr -> nat, n: nat, k: nat, ip: Addr, sec: int, r: Record)
    requires n > 0 && ValidTable(t)
    ensures var t' := AfterUpdate(t, ip, sec, r);
            ShareOf(t', hash, n, k)
            == if ShardOf(hash, n, ip) == k then AfterUpdate(ShareOf(t, hash, n, k), ip, sec, r)
               else ShareOf(t, hash, n, k)
  {
    hide ShardOf, Charged, Blank;
  }

  lemma OwnTick(t: Table, hash: Addr -> nat, n: nat, k: nat, now: int)
    requires n > 0 && ValidTable(t)
    ensures ShareOf(AfterTick(t, now), hash, n, k) == AfterTick(ShareOf(t, hash, n, k), now)
  {
    hide ShardOf, Cleared, Live;
  }

  /** A shard's share of the flat table is the replay of its own history. */
  lemma {:induction false} ShareReplays(ops: seq<Op>, hash: Addr -> nat, n: nat, k: nat)
    requires n > 0
    ensures ShareOf(Replay(ops), hash, n, k) == Replay(Own(ops, hash, n, k))
  {
    hide ShardOf, ShareOf, AfterUpdate, AfterTick;
    if ops == [] {
      NothingShared(hash, n, k);
    } else {
      var before, last := ops[..|ops| - 1], ops[|ops| - 1];
      var own := Own(before, hash, n, k);
      ShareReplays(before, hash, n, k);
      ReplayStep(own, last);
      match last
      case Update(ip, sec, r) => OwnUpdate(Replay(before), hash, n, k, ip, sec, r); assert own + [] == own;
      case Tick(now) => OwnTick(Replay(before), hash, n, k, now);
    }
  }

  lemma NothingShared(hash: Addr -> nat, n: nat, k: nat)
    requires n > 0
    ensures ShareOf(Replay([]), hash, n, k) == Replay([])
  {
  }

  // ---- A tick with updates between the shards' turns -------------------------------------------------

  /** Updates made while a tick goes from shard to shard, of which shard `k` was ticked after the first `at[k]`. */
  ghost predicate Amid(updates: seq<Op>, at: seq<nat>) {
    at != [] && forall i :: 0 <= i < |updates| ==> updates[i].Update?
  }

  /** The updates that found their shard not yet ticked. */
  function Early(updates: seq<Op>, at: seq<nat>, hash: Addr -> nat): seq<Op>
    requires Amid(updates, at)
  {
    if updates == [] then []
    else
      var (n, last) := (|updates| - 1, updates[|updates| - 1]);
      Early(updates[..n], at, hash) + if n < at[ShardOf(hash, |at|, last.ip)] then [last] else []
  }

  /** The updates that found their shard ticked. */
  function Late(updates: seq<Op>, at: seq<nat>, hash: Addr -> nat): seq<Op>
    requires Amid(updates, at)
  {
    if updates == [] then []
    else
      var (n, last) := (|updates| - 1, updates[|updates| - 1]);
      Late(updates[..n], at, hash) + if n < at[ShardOf(hash, |at|, last.ip)] then [] else [last]
  }

  /** What shard `k` really did: its updates up to its turn, its tick, and its updates after. */
  function Turn(before: seq<Op>, updates: seq<Op>, at: seq<nat>, hash: Addr -> nat, now: int, k: nat): seq<Op>
    requires Amid(updates, at) && k < |at|
  {
    var (n, i) := (|at|, Min(at[k], |updates|));
    Own(before, hash, n, k) + Own(updates[..i], hash, n, k) + [Op.Tick(now)] + Own(updates[i..], hash, n, k)
  }

  /** The history in which the tick is one step: the same operations, every shard's in the order it made them. */
  function AsOneTick(before: seq<Op>, updates: seq<Op>, at: seq<nat>, hash: Addr -> nat, now: int): seq<Op>
    requires Amid(updates, at)
  {
    before + Early(updates, at, hash) + [Op.Tick(now)] + Late(updates, at, hash)
  }

  lemma OwnOneMore(ops: seq<Op>, op: Op, hash: Addr -> nat, n: nat, k: nat)
    requires n > 0
    ensures Own(ops + [op], hash, n, k)
         == if op.Tick? || ShardOf(hash, n, op.ip) == k then Own(ops, hash, n, k) + [op] else Own(ops, hash, n, k)
  {
    OwnConcat(ops, [op], hash, n, k);
    OneOwn(op, hash, n, k);
    hide Own, ShardOf;
  }

  lemma {:induction false} OwnEarly(updates: seq<Op>, at: seq<nat>, hash: Addr -> nat, k: nat)
    requires Amid(updates, at) && k < |at|
    ensures Own(Early(updates, at, hash), hash, |at|, k) == Own(updates[..Min(at[k], |updates|)], hash, |at|, k)
  {
    hide ShardOf, Own;
    if updates == [] {
      assert updates[..0] == updates;
    } else {
      var m := |updates| - 1;
      var fewer, last := updates[..m], updates[m];
      OwnEarly(fewer, at, hash, k);
      EarlyStep(updates, at, hash);
      hide Early;
      OwnOneMore(Early(fewer, at, hash), last, hash, |at|, k);
      if at[k] <= m {
        assert updates[..at[k]] == fewer[..at[k]];
      } else {
        assert fewer[..m] == fewer && updates[..m + 1] == fewer + [last];
        OwnOneMore(fewer, last, hash, |at|, k);
      }
    }
  }

  lemma EarlyStep(updates: seq<Op>, at: seq<nat>, hash: Addr -> nat)
    requires Amid(updates, at) && updates != []
    ensures var (m, last) := (|updates| - 1, updates[|updates| - 1]);
            var early := m < at[ShardOf(hash, |at|, last.ip)];
            && Early(updates, at, hash) == (var e := Early(updates[..m], at, hash); if early then e + [last] else e)
            && Late(updates, at, hash) == (var l := Late(updates[..m], at, hash); if early then l else l + [last])
  {
    hide ShardOf;
    assert Early(updates[..|updates| - 1], at, hash) + [] == Early(updates[..|updates| - 1], at, hash);
  }

  lemma {:induction false} OwnLate(updates: seq<Op>, at: seq<nat>, hash: Addr -> nat, k: nat)
    requires Amid(updates, at) && k < |at|
    ensures Own(Late(updates, at, hash), hash, |at|, k) == Own(updates[Min(at[k], |updates|)..], hash, |at|, k)
  {
    hide ShardOf, Own;
    if updates == [] {
      assert updates[0..] == updates;
    } else {
      var m := |updates| - 1;
      var fewer, last := updates[..m], updates[m];
      OwnLate(fewer, at, hash, k);
      EarlyStep(updates, at, hash);
      hide Late;
      OwnOneMore(Late(fewer, at, hash), last, hash, |at|, k);
      if at[k] <= m {
        assert updates[at[k]..] == fewer[at[k]..] + [last];
        OwnOneMore(fewer[at[k]..], last, hash, |at|, k);
      } else {
        assert fewer[m..] == [] && updates[m + 1..] == [];
      }
    }
  }

  lemma {:induction false} SameOperations(updates: seq<Op>, at: seq<nat>, hash: Addr -> nat)
    requires Amid(updates, at)
    ensures multiset(Early(updates, at, hash)) + multiset(Late(updates, at, hash)) == multiset(updates)
  {
    hide ShardOf, Early, Late;
    if updates == [] {
      NoOperations(at, hash);
    } else {
      var m := |updates| - 1;
      var fewer, last := updates[..m], updates[m];
      SameOperations(fewer, at, hash);
      EarlyStep(updates, at, hash);
      var early, late := Early(fewer, at, hash), Late(fewer, at, hash);
      OneMore(fewer, last);
      OneMore(early, last);
      OneMore(late, last);
      assert updates == fewer + [last];
      hide *;
    }
  }

  lemma NoOperations(at: seq<nat>, hash: Addr -> nat)
    requires Amid([], at)
    ensures Early([], at, hash) == [] && Late([], at, hash) == []
  {
  }

  lemma OneMore(ops: seq<Op>, op: Op)
    ensures multiset(ops + [op]) == multiset(ops) + multiset{op}
  {
  }

  lemma OneOwn(op: Op, hash: Addr -> nat, n: nat, k: nat)
    requires n > 0
    ensures Own([op], hash, n, k) == if op.Tick? || ShardOf(hash, n, op.ip) == k then [op] else []
  {
    assert [op][..0] == [];
  }

  lemma TurnIsOwn(before: seq<Op>, updates: seq<Op>, at: seq<nat>, hash: Addr -> nat, now: int, k: nat)
    requires Amid(updates, at) && k < |at|
    ensures Own(AsOneTick(before, updates, at, hash, now), hash, |at|, k) == Turn(before, updates, at, hash, now, k)
  {
    hide Own, Early, Late, ShardOf;
    var n, early, late, tick := |at|, Early(updates, at, hash), Late(updates, at, hash), [Op.Tick(now)];
    OwnEarly(updates, at, hash, k);
    OwnLate(updates, at, hash, k);
    OwnConcat(before + early + tick, late, hash, n, k);
    OwnConcat(before + early, tick, hash, n, k);
    OwnConcat(before, early, hash, n, k);
    OneOwn(Op.Tick(now), hash, n, k);
  }

  /** The shards after such a tick are together the flat table of a history in which the tick is one step. */
  lemma TickIsAtomic(before: seq<Op>, updates: seq<Op>, at: seq<nat>, hash: Addr -> nat, now: int,
                     tables: seq<Table>)
    requires Amid(updates, at) && |tables| == |at|
    requires forall k :: 0 <= k < |at| ==> tables[k] == Replay(Turn(before, updates, at, hash, now, k))
    ensures var h := AsOneTick(before, updates, at, hash, now);
            && Merged(tables, hash, Replay(h))
            && multiset(h) == multiset(before + updates + [Op.Tick(now)])
            && forall k :: 0 <= k < |at| ==> Own(h, hash, |at|, k) == Turn(before, updates, at, hash, now, k)
  {
    var h := AsOneTick(before, updates, at, hash, now);
    forall k | 0 <= k < |at|
      ensures tables[k] == ShareOf(Replay(h), hash, |at|, k)
      ensures Own(h, hash, |at|, k) == Turn(before, updates, at, hash, now, k)
    {
      TurnIsOwn(before, updates, at, hash, now, k);
      ShareReplays(h, hash, |at|, k);
    }
    SameOperations(updates, at, hash);
    hide Replay, Turn, ShardOf, Early, Late, Own;
    SharesMerge(tables, hash, Replay(h));
  }

  lemma SharesMerge(tables: seq<Table>, hash: Addr -> nat, t: Table)
    requires tables != [] && forall k :: 0 <= k < |tables| ==> tables[k] == ShareOf(t, hash, |tables|, k)
    ensures Merged(tables, hash, t)
  {
    hide ShardOf;
  }
}
