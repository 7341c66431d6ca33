/** The alert bus (alert/bus.go): one input fanned out to subscribers, dropping what a full buffer cannot take. */
module Bus {
  import opened Channels

  // ---- One subscriber, and all of them under any interleaving --------------------------------------

  /** What a subscriber has buffered and read, what was published since it subscribed, and how much it missed. */
  datatype Sub<T> = Sub(capacity: nat, buffer: seq<T>, received: seq<T>, offered: seq<T>, dropped: nat)

  function Joined<T>(capacity: nat): Sub<T> {
    Sub(capacity, [], [], [], 0)
  }

  function Offer<T>(s: Sub<T>, ev: T): Sub<T> {
    if |s.buffer| < s.capacity then s.(buffer := s.buffer + [ev], offered := s.offered + [ev])
    else s.(offered := s.offered + [ev], dropped := s.dropped + 1)
  }

  /** The offer of what a growing log has gained, if it has gained an entry. */
  function OfferNew<T>(s: Sub<T>, before: seq<T>, after: seq<T>): Sub<T> {
    if |after| > |before| then Offer(s, after[|after| - 1]) else s
  }

  /** A receive; on an empty buffer the reader waits. */
  function Read<T>(s: Sub<T>): Sub<T> {
    if s.buffer == [] then s else s.(buffer := s.buffer[1..], received := s.received + [s.buffer[0]])
  }

  datatype Op<T> = Publish(ev: T) | ReadBy(i: nat)

  function Apply<T>(subs: seq<Sub<T>>, op: Op<T>): (r: seq<Sub<T>>)
    ensures |r| == |subs|
  {
    match op
    case Publish(ev) => seq(|subs|, i requires 0 <= i < |subs| => Offer(subs[i], ev))
    case ReadBy(i) => if i < |subs| then subs[i := Read(subs[i])] else subs
  }

  function Run<T>(subs: seq<Sub<T>>, ops: seq<Op<T>>): (r: seq<Sub<T>>)
    ensures |r| == |subs|
  {
    if ops == [] then subs else Apply(Run(subs, ops[..|ops| - 1]), ops[|ops| - 1])
  }

  /** In order, nothing invented, nothing lost without being counted. */
  ghost predicate Faithful<T>(s: Sub<T>) {
    && |s.buffer| <= s.capacity
    && Subsequence(s.received + s.buffer, s.offered)
    && |s.received| + |s.buffer| + s.dropped == |s.offered|
  }

  lemma OfferIsFaithful<T>(s: Sub<T>, ev: T)
    requires Faithful(s)
    ensures Faithful(Offer(s, ev))
  {
    SubsequenceTake(s.received + s.buffer, s.offered, ev);
    SubsequenceSkip(s.received + s.buffer, s.offered, ev);
    assert s.received + (s.buffer + [ev]) == s.received + s.buffer + [ev];
  }

  lemma ReadIsFaithful<T>(s: Sub<T>)
    requires Faithful(s)
    ensures Faithful(Read(s))
  {
    if s.buffer != [] {
      assert s.received + [s.buffer[0]] + s.buffer[1..] == s.received + s.buffer;
    }
  }

  /** What has been published during a run. */
  function Published<T>(ops: seq<Op<T>>): seq<T> {
    if ops == [] then []
    else Published(ops[..|ops| - 1]) + match ops[|ops| - 1] case Publish(ev) => [ev] case ReadBy(_) => []
  }

  /** Under every interleaving of publishes and reads, every subscriber stays faithful to what was published. */
  lemma {:induction false} EveryInterleavingIsFaithful<T>(subs: seq<Sub<T>>, ops: seq<Op<T>>, i: nat)
    requires i < |subs| && Faithful(subs[i])
    ensures Faithful(Run(subs, ops)[i])
    ensures Run(subs, ops)[i].offered == subs[i].offered + Published(ops)
    ensures Run(subs, ops)[i].capacity == subs[i].capacity
  {
    hide Faithful;
    if ops != [] {
      var before, op := ops[..|ops| - 1], ops[|ops| - 1];
      EveryInterleavingIsFaithful(subs, before, i);
      var s := Run(subs, before)[i];
      if op.Publish? {
        OfferIsFaithful(s, op.ev);
      } else {
        ReadIsFaithful(s);
        assert Published(before) + [] == Published(before);
      }
    }
  }

  /** On every run, a subscriber misses an event exactly if it has as many unread ones as its buffer holds. */
  lemma {:induction false} DropsExactly<T>(subs: seq<Sub<T>>, ops: seq<Op<T>>, ev: T, i: nat)
    requires i < |subs| && Faithful(subs[i])
    ensures var (s, s') := (Run(subs, ops)[i], Run(subs, ops + [Publish(ev)])[i]);
            var unread := |s.offered| - s.dropped - |s.received|;
            && s'.dropped == s.dropped + (if unread == s.capacity then 1 else 0)
            && s'.offered == s.offered + [ev] && s'.received == s.received
  {
    assert (ops + [Publish(ev)])[..|ops|] == ops;
    EveryInterleavingIsFaithful(subs, ops, i);
  }

  /** A subscriber whose buffer holds all that is published misses nothing, however seldom it reads. */
  lemma {:induction false} NothingDroppedWithRoom<T>(subs: seq<Sub<T>>, ops: seq<Op<T>>, i: nat)
    requires i < |subs| && subs[i] == Joined(subs[i].capacity) && |Published(ops)| <= subs[i].capacity
    ensures var s := Run(subs, ops)[i]; s.dropped == 0 && s.received + s.buffer == Published(ops)
  {
    SubsequenceEmpty<T>([]);
    assert subs[i].received + subs[i].buffer == [];
    EveryInterleavingIsFaithful(subs, ops, i);
    if ops != [] {
      var before := ops[..|ops| - 1];
      NothingDroppedWithRoom(subs, before, i);
      EveryInterleavingIsFaithful(subs, before, i);
      hide Faithful, Joined, Subsequence;
    }
    var s := Run(subs, ops)[i];
    FullSubsequence(s.received + s.buffer, s.offered);
  }

  /** The operations that concern subscriber `i`: all publishes and its own reads. */
  function Concerning<T>(ops: seq<Op<T>>, i: nat): seq<Op<T>> {
    if ops == [] then []
    else
      var last := ops[|ops| - 1];
      Concerning(ops[..|ops| - 1], i) + if last == ReadBy(i) || last.Publish? then [last] else []
  }

  /** No subscriber's reads change what another receives: each one's state depends on its own operations alone. */
  lemma {:induction false} SubscribersAreIndependent<T>(subs: seq<Sub<T>>, ops: seq<Op<T>>, i: nat)
    requires i < |subs|
    ensures Run(subs, ops)[i] == Run(subs, Concerning(ops, i))[i]
  {
    if ops != [] {
      var before, op := ops[..|ops| - 1], ops[|ops| - 1];
      SubscribersAreIndependent(subs, before, i);
      if op == ReadBy(i) || op.Publish? {
        assert (Concerning(before, i) + [op])[..|Concerning(before, i)|] == Concerning(before, i);
      } else {
        assert Concerning(before, i) + [] == Concerning(before, i);
      }
    }
  }

  // ---- The bus object ------------------------------------------------------------------------------

  class Subscriber<T> {
    const name: string
    const ch: Channel<T>
    ghost var offered: seq<T>
    ghost var dropped: nat

    ghost predicate Valid()
      reads this, ch
    {
      ch.Valid() && Faithful(View())
    }

    ghost function View(): Sub<T>
      reads this, ch
    {
      Sub(ch.capacity, ch.buffer, ch.received, offered, dropped)
    }

    constructor (name: string, capacity: nat)
      ensures Valid() && fresh(ch) && !ch.closed && View() == Joined(capacity) && this.name == name
    {
      this.name := name;
      ch := new Channel(capacity);
      offered, dropped := [], 0;
      new;
      SubsequenceEmpty<T>([]);
    }

    /** One subscriber's turn in the fan-out. */
    method Take(ev: T)
      requires Valid() && !ch.closed
      modifies this, ch
      ensures Valid() && !ch.closed && View() == Offer(old(View()), ev)
    {
      OfferIsFaithful(View(), ev);
      hide Faithful;
      var ok := ch.TrySend(ev);
      offered := offered + [ev];
      if !ok {
        dropped := dropped + 1;
      }
    }
  }

  class Bus<T> {
    const perSinkBuffer: nat
    var subs: seq<Subscriber<T>>
    ghost var repr: set<object>

    ghost predicate Valid()
      reads this, repr
    {
      && this in repr
      && (forall i :: 0 <= i < |subs| ==>
            subs[i] in repr && subs[i].ch in repr && subs[i].Valid() && !subs[i].ch.closed)
      && (forall i, j :: 0 <= i < j < |subs| ==> subs[i] != subs[j] && subs[i].ch != subs[j].ch)
    }

    ghost function Views(): (vs: seq<Sub<T>>)
      requires Valid()
      reads this, repr
      ensures |vs| == |subs|
    {
      seq(|subs|, i requires 0 <= i < |subs| && Valid() reads this, repr => subs[i].View())
    }

    constructor (perSinkBuffer: int)
      ensures Valid() && fresh(repr) && subs == []
      ensures this.perSinkBuffer == if perSinkBuffer < 1 then 256 else perSinkBuffer
    {
      this.perSinkBuffer := if perSinkBuffer < 1 then 256 else perSinkBuffer;
      subs := [];
      repr := {this};
    }

    method Subscribe(name: string) returns (sub: Subscriber<T>)
      requires Valid()
      modifies this
      ensures Valid() && fresh(repr - old(repr)) && subs == old(subs) + [sub]
      ensures Views() == old(Views()) + [Joined(perSinkBuffer)]
    {
      hide Faithful;
      sub := new Subscriber(name, perSinkBuffer);
      subs := subs + [sub];
      repr := repr + {sub, sub.ch};
    }

    /** One event of Run's loop: every subscriber is offered it, none is waited for. */
    method Deliver(ev: T)
      requires Valid()
      modifies repr
      ensures Valid() && repr == old(repr) && subs == old(subs)
      ensures Views() == Apply(old(Views()), Publish(ev))
    {
      hide Faithful, Offer;
      ghost var before := Views();
      for i := 0 to |subs|
        invariant Valid() && repr == old(repr) && subs == old(subs)
        invariant forall j :: 0 <= j < |subs| ==> Views()[j] == if j < i then Offer(before[j], ev) else before[j]
      {
        TakeAt(i, ev);
      }
    }

    method TakeAt(i: nat, ev: T)
      requires Valid() && i < |subs|
      modifies subs[i], subs[i].ch
      ensures Valid() && repr == old(repr) && subs == old(subs)
      ensures Views() == old(Views())[i := Offer(old(Views())[i], ev)]
    {
      hide Faithful, Offer;
      subs[i].Take(ev);
    }

    /** A subscriber reads from its channel. */
    method ReadAt(i: nat) returns (ev: T)
      requires Valid() && i < |subs| && subs[i].ch.buffer != []
      modifies subs[i].ch
      ensures Valid() && repr == old(repr) && subs == old(subs)
      ensures Views() == Apply(old(Views()), ReadBy(i)) && ev == old(subs[i].ch.buffer)[0]
    {
      ReadIsFaithful(subs[i].View());
      hide Faithful;
      ev := subs[i].ch.Receive();
    }

    /** The end of Run: all channels are closed, with whatever they still hold. */
    method Shutdown()
      requires Valid()
      modifies repr
      ensures Valid() && repr == old(repr) && subs == []
      ensures forall i :: 0 <= i < |old(subs)| ==>
                old(subs)[i].ch.closed && old(subs)[i].ch.buffer == old(subs[i].ch.buffer)
    {
      hide Faithful;
      for i := 0 to |subs|
        invariant this in repr && repr == old(repr) && subs == old(subs)
        invariant forall j :: 0 <= j < |subs| ==> subs[j].ch.Valid() && subs[j].ch.buffer == old(subs[j].ch.buffer)
        invariant forall j :: 0 <= j < i ==> subs[j].ch.closed
      {
        subs[i].ch.Close();
      }
      subs := [];
    }
  }
}
