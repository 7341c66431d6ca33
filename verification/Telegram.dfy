/** The Telegram sender's bounded queue with bounded retry (alert/telegram/sender.go). */
module Telegram {
  const QUEUE_SIZE: nat := 1000
  const MAX_RETRIES: nat := 3

  /** A pending message; `ticket` numbers the accepted messages and stands for its identity. */
  datatype Outbound = Outbound(chatID: int, text: string, attempts: nat, ticket: nat)

  /** How an attempt to send ends: the context may end before the call, or during the back-off after a 429. */
  datatype Answer = NotCalled | Delivered | TooMany | TooManyThenStopped | Failed

  predicate Called(a: Answer) {
    !a.NotCalled?
  }

  // ---- The queue on values -------------------------------------------------------------------------

  /** The queue, the message the worker holds, and how often each accepted message has been sent. */
  datatype Box = Box(queue: seq<Outbound>, held: seq<Outbound>, sends: seq<nat>, uncalled: set<nat>)

  const EMPTY: Box := Box([], [], [], {})

  datatype Step = Enqueue(chatID: int, text: string) | Take | Reply(a: Answer)

  function Accept(b: Box, chatID: int, text: string): Box {
    if |b.queue| < QUEUE_SIZE
    then b.(queue := b.queue + [Outbound(chatID, text, 0, |b.sends|)], sends := b.sends + [0])
    else b
  }

  function TakeOne(b: Box): Box {
    if b.held == [] && b.queue != [] then b.(queue := b.queue[1..], held := [b.queue[0]]) else b
  }

  /** Whether a rate-limited message is put back. */
  predicate Requeues(b: Box, out: Outbound, a: Answer) {
    a.TooMany? && out.attempts + 1 < MAX_RETRIES && |b.queue| < QUEUE_SIZE
  }

  function Answered(b: Box, a: Answer): Box {
    if b.held == [] || b.held[0].ticket >= |b.sends| then b
    else
      var out := b.held[0];
      Box(if Requeues(b, out, a) then b.queue + [out.(attempts := out.attempts + 1)] else b.queue,
          [],
          if Called(a) then b.sends[out.ticket := b.sends[out.ticket] + 1] else b.sends,
          if Called(a) then b.uncalled else b.uncalled + {out.ticket})
  }

  function After(b: Box, s: Step): Box {
    match s
    case Enqueue(chatID, text) => Accept(b, chatID, text)
    case Take => TakeOne(b)
    case Reply(a) => Answered(b, a)
  }

  function Run(steps: seq<Step>): Box {
    if steps == [] then EMPTY else After(Run(steps[..|steps| - 1]), steps[|steps| - 1])
  }

  /** Everything still to be sent. */
  function Pending(b: Box): seq<Outbound> {
    b.held + b.queue
  }

  ghost predicate Among(outs: seq<Outbound>, ticket: nat) {
    exists i :: 0 <= i < |outs| && outs[i].ticket == ticket
  }

  /** A message pending in `outs` has made its `attempts` and may make another; no message is pending twice or has
      been sent more than three times; one that is no longer pending was sent, unless the context ended first. */
  ghost predicate Sound(outs: seq<Outbound>, sends: seq<nat>, uncalled: set<nat>) {
    && (forall i :: 0 <= i < |outs| ==>
          outs[i].attempts < MAX_RETRIES && outs[i].ticket < |sends| && sends[outs[i].ticket] == outs[i].attempts)
    && (forall i, j :: 0 <= i < j < |outs| ==> outs[i].ticket != outs[j].ticket)
    && (forall t :: 0 <= t < |sends| ==>
          sends[t] <= MAX_RETRIES && (Among(outs, t) || sends[t] >= 1 || t in uncalled))
  }

  ghost predicate Orderly(b: Box) {
    |b.queue| <= QUEUE_SIZE && |b.held| <= 1 && Sound(Pending(b), b.sends, b.uncalled)
  }

  /** Only configured chats are ever written to. */
  ghost predicate OnlyTo(b: Box, chats: seq<int>) {
    AllTo(b.held, chats) && AllTo(b.queue, chats)
  }

  ghost predicate AllTo(outs: seq<Outbound>, chats: seq<int>) {
    forall i :: 0 <= i < |outs| ==> outs[i].chatID in chats
  }

  lemma AmongOneMore(outs: seq<Outbound>, out: Outbound, t: nat)
    ensures Among(outs + [out], t) <==> Among(outs, t) || out.ticket == t
  {
    assert (outs + [out])[|outs|] == out;
    if Among(outs, t) {
      var i :| 0 <= i < |outs| && outs[i].ticket == t;
      assert (outs + [out])[i] == outs[i];
    }
  }

  lemma AmongOneLess(out: Outbound, outs: seq<Outbound>, t: nat)
    ensures Among([out] + outs, t) <==> Among(outs, t) || out.ticket == t
  {
    assert ([out] + outs)[0] == out;
    forall i | 0 <= i < |outs| ensures ([out] + outs)[i + 1] == outs[i] {
    }
    if Among(outs, t) {
      var i :| 0 <= i < |outs| && outs[i].ticket == t;
      assert ([out] + outs)[i + 1] == outs[i];
    }
  }

  /** A message leaves for good, after being sent once more or never having reached the API. */
  lemma SoundWithout(out: Outbound, outs: seq<Outbound>, sends: seq<nat>, uncalled: set<nat>)
    requires Sound([out] + outs, sends, uncalled)
    ensures out.ticket < |sends| && sends[out.ticket] == out.attempts < MAX_RETRIES
    ensures Sound(outs, sends[out.ticket := sends[out.ticket] + 1], uncalled)
    ensures Sound(outs, sends, uncalled + {out.ticket})
    ensures !Among(outs, out.ticket)
  {
    var all := [out] + outs;
    assert all[0] == out && forall i :: 0 <= i < |outs| ==> all[i + 1] == outs[i];
    forall t: nat ensures Among(all, t) <==> Among(outs, t) || out.ticket == t {
      AmongOneLess(out, outs, t);
    }
    assert !Among(outs, out.ticket);
    hide Among;
  }

  /** A message of a ticket that is not pending joins the queue. */
  lemma SoundWith(outs: seq<Outbound>, out: Outbound, sends: seq<nat>, uncalled: set<nat>)
    requires Sound(outs, sends, uncalled) && !Among(outs, out.ticket)
    requires out.attempts < MAX_RETRIES && out.ticket < |sends| && sends[out.ticket] == out.attempts
    ensures Sound(outs + [out], sends, uncalled)
  {
    forall t: nat ensures Among(outs + [out], t) <==> Among(outs, t) || out.ticket == t {
      AmongOneMore(outs, out, t);
    }
  }

  lemma SoundAccept(outs: seq<Outbound>, out: Outbound, sends: seq<nat>, uncalled: set<nat>)
    requires Sound(outs, sends, uncalled) && out.ticket == |sends| && out.attempts == 0
    ensures Sound(outs + [out], sends + [0], uncalled)
  {
    forall t: nat ensures Among(outs + [out], t) <==> Among(outs, t) || out.ticket == t {
      AmongOneMore(outs, out, t);
    }
  }

  lemma AcceptKeepsOrder(b: Box, chatID: int, text: string)
    requires Orderly(b)
    ensures Orderly(Accept(b, chatID, text))
    ensures forall chats :: OnlyTo(b, chats) && chatID in chats ==> OnlyTo(Accept(b, chatID, text), chats)
  {
    hide Sound;
    var b' := Accept(b, chatID, text);
    if b' != b {
      var out := Outbound(chatID, text, 0, |b.sends|);
      SoundAccept(Pending(b), out, b.sends, b.uncalled);
      assert Pending(b') == Pending(b) + [out];
    }
  }

  lemma TakeKeepsOrder(b: Box)
    requires Orderly(b)
    ensures Orderly(TakeOne(b))
    ensures Pending(TakeOne(b)) == Pending(b) && (Pending(b) != [] ==> TakeOne(b).held == [Pending(b)[0]])
    ensures forall chats :: OnlyTo(b, chats) ==> OnlyTo(TakeOne(b), chats)
  {
    hide Sound;
    assert Pending(TakeOne(b)) == Pending(b);
  }

  lemma AnswerKeepsOrder(b: Box, a: Answer)
    requires Orderly(b)
    ensures Orderly(Answered(b, a))
    ensures b.held != [] ==> b.held[0].ticket < |b.sends|
  {
    hide Sound, Among;
    if b.held != [] {
      var out := b.held[0];
      assert b.held == [out];
      var b' := Answered(b, a);
      SoundWithout(out, b.queue, b.sends, b.uncalled);
      assert Pending(b') == b'.queue;
      if Requeues(b, out, a) {
        SoundWith(b.queue, out.(attempts := out.attempts + 1), b'.sends, b.uncalled);
      }
    }
  }

  lemma AnswerKeepsChats(b: Box, a: Answer, chats: seq<int>)
    requires |b.held| <= 1 && OnlyTo(b, chats)
    ensures OnlyTo(Answered(b, a), chats)
  {
    hide Requeues;
  }

  /** For every sequence of arrivals and API answers, at every interleaving of the two goroutines. */
  lemma {:induction false} EveryRunIsOrderly(steps: seq<Step>)
    ensures Orderly(Run(steps))
    ensures |Run(steps).queue| <= 1000 && forall t :: 0 <= t < |Run(steps).sends| ==> Run(steps).sends[t] <= 3
  {
    OrderlyBounds(Run(steps));
    hide Orderly;
    if steps == [] {
      EmptyIsOrderly();
    } else {
      EveryRunIsOrderly(steps[..|steps| - 1]);
      var b, s := Run(steps[..|steps| - 1]), steps[|steps| - 1];
      match s
      case Enqueue(chatID, text) => AcceptKeepsOrder(b, chatID, text);
      case Take => TakeKeepsOrder(b);
      case Reply(a) => AnswerKeepsOrder(b, a);
    }
  }

  lemma OrderlyBounds(b: Box)
    ensures Orderly(b) ==> |b.queue| <= 1000 && forall t :: 0 <= t < |b.sends| ==> b.sends[t] <= 3
  {
  }

  lemma EmptyIsOrderly()
    ensures Orderly(EMPTY)
  {
  }

  // ---- What is sent again, and what is dropped -----------------------------------------------------

  /** On every run: a message goes back to the end of the queue, for the same chat, exactly if the API answered 429,
      the back-off ran out, it had been sent less than twice before, and fewer than 1000 messages wait. */
  lemma {:induction false} RetriedExactly(steps: seq<Step>, a: Answer)
    requires Run(steps).held != []
    ensures var (b, b') := (Run(steps), Run(steps + [Reply(a)]));
            var out := b.held[0];
            var again := a.TooMany? && |b.queue| < 1000 && out.ticket < |b.sends| && b.sends[out.ticket] < 2;
            && b'.held == [] && |b'.queue| == |b.queue| + (if again then 1 else 0)
            && b.queue <= b'.queue && (again ==> SameMessage(b'.queue[|b.queue|], out))
  {
    hide Sound, SameMessage;
    var b := Run(steps);
    assert (steps + [Reply(a)])[..|steps|] == steps;
    EveryRunIsOrderly(steps);
    HeldMayTry(b);
    Renumbered(b.held[0]);
  }

  predicate SameMessage(m: Outbound, m': Outbound) {
    m.chatID == m'.chatID && m.text == m'.text && m.ticket == m'.ticket
  }

  lemma Renumbered(out: Outbound)
    ensures forall n: nat :: SameMessage(out.(attempts := n), out)
  {
  }

  /** A text goes to the chats in turn, each getting one message, until 1000 wait; the others are dropped. */
  lemma {:induction false} FannedExactly(b: Box, chats: seq<int>, text: string)
    requires |b.queue| <= 1000 && text != ""
    ensures var b' := Fanned(b, chats, text);
            && b'.held == b.held && b.queue <= b'.queue
            && |b'.queue| == (if |b.queue| + |chats| <= 1000 then |b.queue| + |chats| else 1000)
            && forall i :: |b.queue| <= i < |b'.queue| ==>
                 b'.queue[i].chatID == chats[i - |b.queue|] && b'.queue[i].text == text
  {
    if chats != [] {
      FannedExactly(b, chats[..|chats| - 1], text);
    }
  }

  // ---- Termination ---------------------------------------------------------------------------------

  /** The attempts the pending messages may still make. */
  function Budget(outs: seq<Outbound>): nat {
    if outs == [] then 0
    else
      var made := outs[|outs| - 1].attempts;
      Budget(outs[..|outs| - 1]) + if made < MAX_RETRIES then MAX_RETRIES - made else 0
  }

  lemma {:induction false} BudgetConcat(a: seq<Outbound>, b: seq<Outbound>)
    ensures Budget(a + b) == Budget(a) + Budget(b)
    decreases |b|
  {
    if b == [] {
      assert a + b == a;
    } else {
      BudgetConcat(a, b[..|b| - 1]);
      assert (a + b)[..|a + b| - 1] == a + b[..|b| - 1];
    }
  }

  lemma BudgetOne(out: Outbound)
    ensures Budget([out]) == if out.attempts < MAX_RETRIES then MAX_RETRIES - out.attempts else 0
  {
    assert [out][..0] == [];
  }

  /** Every answer uses up budget; taking a message does not change it. */
  lemma AnswersUseBudget(b: Box, a: Answer)
    requires Orderly(b)
    ensures Budget(Pending(TakeOne(b))) == Budget(Pending(b))
    ensures b.held != [] ==> Budget(Pending(Answered(b, a))) < Budget(Pending(b))
  {
    hide Requeues, Budget, Sound;
    assert Pending(TakeOne(b)) == Pending(b);
    if b.held != [] {
      var out := b.held[0];
      assert b.held == [out];
      HeldMayTry(b);
      BudgetConcat([out], b.queue);
      BudgetOne(out);
      BudgetOne(out.(attempts := out.attempts + 1));
      BudgetConcat(b.queue, [out.(attempts := out.attempts + 1)]);
      assert Pending(Answered(b, a)) == Answered(b, a).queue;
    }
  }

  lemma HeldMayTry(b: Box)
    requires Orderly(b) && b.held != []
    ensures b.held[0].attempts < MAX_RETRIES && b.held[0].ticket < |b.sends|
    ensures b.sends[b.held[0].ticket] == b.held[0].attempts
  {
    assert Pending(b)[0] == b.held[0];
  }

  // ---- The sender object ---------------------------------------------------------------------------

  class Sender {
    const chatIDs: seq<int>
    var queue: seq<Outbound>
    var held: seq<Outbound>
    /** How often each accepted message has been sent: kept for the proof, but it also numbers the messages. */
    var sends: seq<nat>
    ghost var uncalled: set<nat>

    ghost function View(): Box
      reads this
    {
      Box(queue, held, sends, uncalled)
    }

    ghost predicate Valid()
      reads this
    {
      Orderly(View()) && OnlyTo(View(), chatIDs)
    }

    constructor (chatIDs: seq<int>)
      ensures Valid() && View() == EMPTY && this.chatIDs == chatIDs
    {
      this.chatIDs := chatIDs;
      queue, held, sends, uncalled := [], [], [], {};
    }

    /** Run's fan-out of one event's text to all allowed chats; an empty text is skipped. */
    method FanOut(text: string)
      requires Valid()
      modifies this
      ensures Valid() && held == old(held)
      ensures View() == Fanned(old(View()), chatIDs, text)
    {
      hide Orderly, OnlyTo;
      if text == "" {
        return;
      }
      for i := 0 to |chatIDs|
        invariant Valid() && held == old(held)
        invariant View() == Fanned(old(View()), chatIDs[..i], text)
      {
        assert chatIDs[..i + 1][..i] == chatIDs[..i];
        Push(chatIDs[i], text);
      }
      assert chatIDs[..|chatIDs|] == chatIDs;
    }

    method Push(chatID: int, text: string)
      requires Valid() && chatID in chatIDs
      modifies this
      ensures Valid() && View() == Accept(old(View()), chatID, text) && held == old(held)
    {
      AcceptKeepsOrder(View(), chatID, text);
      hide Orderly, OnlyTo;
      if |queue| < QUEUE_SIZE {
        queue := queue + [Outbound(chatID, text, 0, |sends|)];
        sends := sends + [0];
      }
    }

    /** The worker takes the next message. */
    method TakeNext()
      requires Valid() && held == [] && queue != []
      modifies this
      ensures Valid() && View() == TakeOne(old(View())) && held != []
    {
      TakeKeepsOrder(View());
      hide Orderly, OnlyTo;
      held, queue := [queue[0]], queue[1..];
    }

    /** The rest of send, from the API's answer on. */
    method Send(a: Answer)
      requires Valid() && held != []
      modifies this
      ensures Valid() && View() == Answered(old(View()), a) && held == []
    {
      AnswerKeepsOrder(View(), a);
      AnswerKeepsChats(View(), a, chatIDs);
      hide Orderly, OnlyTo;
      var out := held[0];
      held := [];
      if a.NotCalled? {
        uncalled := uncalled + {out.ticket};
        return;
      }
      sends := sends[out.ticket := sends[out.ticket] + 1];
      if a.TooMany? {
        if out.attempts + 1 >= MAX_RETRIES {
          return;
        }
        out := out.(attempts := out.attempts + 1);
        if |queue| < QUEUE_SIZE {
          queue := queue + [out];
        }
      }
    }

    /** Without new arrivals the worker empties the queue, whatever the API answers. */
    method Drain(answers: nat -> Answer) returns (calls: nat)
      requires Valid() && held == []
      modifies this
      ensures Valid() && queue == [] && held == []
      ensures calls <= Budget(old(queue))
      ensures AllSettled(sends, uncalled)
    {
      hide Orderly, OnlyTo, Budget, Answered, TakeOne, AllSettled;
      calls := 0;
      assert Pending(View()) == queue;
      while queue != []
        invariant Valid() && held == []
        invariant calls + Budget(Pending(View())) <= Budget(old(queue))
        decreases Budget(Pending(View()))
      {
        AnswersUseBudget(View(), answers(calls));
        TakeNext();
        AnswersUseBudget(View(), answers(calls));
        Send(answers(calls));
        calls := calls + 1;
      }
      NothingPending(View());
    }
  }

  /** Every accepted message was sent one to three times, or the context ended before its call. */
  ghost predicate AllSettled(sends: seq<nat>, uncalled: set<nat>) {
    forall t :: 0 <= t < |sends| ==> sends[t] <= MAX_RETRIES && (sends[t] >= 1 || t in uncalled)
  }

  lemma NothingPending(b: Box)
    requires Orderly(b) && b.queue == [] && b.held == []
    ensures AllSettled(b.sends, b.uncalled)
  {
    assert Pending(b) == [];
  }

  /** One event's message offered to every chat in turn. */
  function Fanned(b: Box, chats: seq<int>, text: string): Box {
    if chats == [] || text == "" then b else Accept(Fanned(b, chats[..|chats| - 1], text), chats[|chats| - 1], text)
  }
}
