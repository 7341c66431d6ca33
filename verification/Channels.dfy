/** Go's buffered channels with non-blocking sends, and the subsequences that drop-on-full leaves. */
module Channels {
  // ---- Subsequences ----------------------------------------------------------------------------

  /** `at` places the elements of `d`, in order, within `e`. */
  ghost predicate Embeds<T>(d: seq<T>, e: seq<T>, at: seq<nat>) {
    && |at| == |d|
    && (forall i :: 0 <= i < |at| ==> at[i] < |e| && e[at[i]] == d[i])
    && (forall i, j :: 0 <= i < j < |at| ==> at[i] < at[j])
  }

  /** `d` is `e` with some elements left out. */
  ghost predicate Subsequence<T>(d: seq<T>, e: seq<T>) {
    exists at :: Embeds(d, e, at)
  }

  lemma SubsequenceEmpty<T>(e: seq<T>)
    ensures Subsequence([], e)
  {
    var at: seq<nat> := [];
    assert Embeds([], e, at);
  }

  lemma SubsequenceSelf<T>(e: seq<T>)
    ensures Subsequence(e, e)
  {
    var at: seq<nat> := seq(|e|, i => i);
    assert Embeds(e, e, at);
  }

  lemma SubsequenceTake<T>(d: seq<T>, e: seq<T>, x: T)
    requires Subsequence(d, e)
    ensures Subsequence(d + [x], e + [x])
  {
    var at :| Embeds(d, e, at);
    var at': seq<nat> := seq(|d| + 1, i requires 0 <= i <= |d| => if i < |d| then at[i] else |e|);
    assert Embeds(d + [x], e + [x], at');
  }

  lemma SubsequenceSkip<T>(d: seq<T>, e: seq<T>, x: T)
    requires Subsequence(d, e)
    ensures Subsequence(d, e + [x])
  {
    var at :| Embeds(d, e, at);
    assert Embeds(d, e + [x], at);
  }

  lemma SubsequencePrefix<T>(d: seq<T>, more: seq<T>, e: seq<T>)
    requires Subsequence(d + more, e)
    ensures Subsequence(d, e)
  {
    var at :| Embeds(d + more, e, at);
    assert forall i :: 0 <= i < |d| ==> (d + more)[i] == d[i];
    assert Embeds(d, e, at[..|d|]);
  }

  lemma SubsequenceTransitive<T>(c: seq<T>, d: seq<T>, e: seq<T>)
    requires Subsequence(c, d) && Subsequence(d, e)
    ensures Subsequence(c, e)
  {
    var at :| Embeds(c, d, at);
    var to :| Embeds(d, e, to);
    var both: seq<nat> := seq(|c|, i requires 0 <= i < |c| => to[at[i]]);
    assert Embeds(c, e, both);
  }

  /** A subsequence as long as the whole is the whole: counting losses is enough. */
  lemma FullSubsequence<T>(d: seq<T>, e: seq<T>)
    requires Subsequence(d, e) && |d| == |e|
    ensures d == e
  {
    var at :| Embeds(d, e, at);
    FullEmbedding(d, e, at);
  }

  lemma FullEmbedding<T>(d: seq<T>, e: seq<T>, at: seq<nat>)
    requires Embeds(d, e, at) && |d| == |e|
    ensures d == e
  {
    forall i | 0 <= i < |d| ensures d[i] == e[i] {
      IncreasingFromBelow(at, i);
      IncreasingToTop(at, |e|, i);
      hide *;
      assert at[i] == i;
    }
  }

  lemma {:induction false} IncreasingFromBelow(at: seq<nat>, i: nat)
    requires i < |at| && forall j, k :: 0 <= j < k < |at| ==> at[j] < at[k]
    ensures at[i] >= i
  {
    if i > 0 {
      IncreasingFromBelow(at, i - 1);
    }
  }

  lemma {:induction false} IncreasingToTop(at: seq<nat>, n: nat, i: nat)
    requires i < |at| && forall j, k :: 0 <= j < k < |at| ==> at[j] < at[k]
    requires forall j :: 0 <= j < |at| ==> at[j] < n
    ensures at[i] <= n - (|at| - i)
    decreases |at| - i
  {
    if i < |at| - 1 {
      IncreasingToTop(at, n, i + 1);
    }
  }

  // ---- Channels --------------------------------------------------------------------------------

  class Channel<T> {
    const capacity: nat
    var buffer: seq<T>
    var closed: bool
    /** Everything accepted so far, and everything read so far. */
    ghost var sent: seq<T>
    ghost var received: seq<T>

    ghost predicate Valid()
      reads this
    {
      |buffer| <= capacity && sent == received + buffer
    }

    constructor (capacity: nat)
      ensures Valid() && this.capacity == capacity && buffer == [] && !closed && sent == [] && received == []
    {
      this.capacity := capacity;
      buffer, closed, sent, received := [], false, [], [];
    }

    /** `select { case ch <- x: default: }`; sending on a closed channel would panic. */
    method TrySend(x: T) returns (ok: bool)
      requires Valid() && !closed
      modifies this
      ensures Valid() && !closed && received == old(received)
      ensures ok <==> |old(buffer)| < capacity
      ensures buffer == if ok then old(buffer) + [x] else old(buffer)
      ensures sent == if ok then old(sent) + [x] else old(sent)
    {
      ok := |buffer| < capacity;
      if ok {
        buffer := buffer + [x];
        sent := sent + [x];
      }
    }

    /** A receive that finds something buffered. */
    method Receive() returns (x: T)
      requires Valid() && buffer != []
      modifies this
      ensures Valid() && closed == old(closed) && sent == old(sent)
      ensures x == old(buffer)[0] && buffer == old(buffer)[1..] && received == old(received) + [x]
    {
      x := buffer[0];
      buffer := buffer[1..];
      received := received + [x];
    }

    method Close()
      requires Valid()
      modifies this
      ensures Valid() && closed && buffer == old(buffer) && sent == old(sent) && received == old(received)
    {
      closed := true;
    }
  }
}
