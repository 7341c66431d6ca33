/** The overwrite-oldest buffer of recent flow records (flow/recent.go). */
module Recent {
  import Words

  /** The last `n` elements of a history, newest first. */
  function NewestFirst<T>(pushed: seq<T>, n: nat): seq<T>
    requires n <= |pushed|
  {
    seq(n, i requires 0 <= i < n => pushed[|pushed| - 1 - i])
  }

  /** Where the `k`-th record ever pushed goes in a ring of `n`. */
  function SlotFor(k: nat, n: nat): (i: nat)
    requires n > 0
    ensures i < n
  {
    k % n
  }

  class RecentBuffer<T(0)> {
    const ring: array<T>
    var head: nat
    var full: bool
    /** Everything ever pushed. */
    ghost var pushed: seq<T>

    /** The number of records still retained. */
    ghost function Retained(): nat
      reads this
    {
      Words.Min(|pushed|, ring.Length)
    }

    ghost predicate Valid()
      reads this, ring
    {
      && ring.Length > 0
      && head == SlotFor(|pushed|, ring.Length)
      && (full <==> |pushed| >= ring.Length)
      && forall k :: |pushed| - Retained() <= k < |pushed| ==> ring[SlotFor(k, ring.Length)] == pushed[k]
    }

    constructor (capacity: int)
      ensures Valid() && fresh(ring) && pushed == []
      ensures ring.Length == if capacity < 1 then 1 else capacity
    {
      ring := new T[if capacity < 1 then 1 else capacity];
      head, full, pushed := 0, false, [];
    }

    method Push(r: T)
      requires Valid()
      modifies this, ring
      ensures Valid() && pushed == old(pushed) + [r]
    {
      hide SlotFor;
      ghost var n, count := ring.Length, |pushed|;
      ghost var before := ring[..];
      NextSlot(count, n);
      SizeIsRetained(count, n);
      ring[head] := r;
      head := head + 1;
      if head >= ring.Length {
        head := 0;
        full := true;
      }
      pushed := pushed + [r];
      forall k | |pushed| - Retained() <= k < |pushed| ensures ring[SlotFor(k, n)] == pushed[k] {
        if k < count {
          SlotsApart(k, count, n);
          assert before[SlotFor(k, n)] == pushed[k];
        }
      }
    }

    method Snapshot(n: int) returns (out: seq<T>)
      requires Valid()
      ensures out == NewestFirst(pushed, if n <= 0 || n > Retained() then Retained() else n)
    {
      hide SlotFor;
      var size := head;
      if full {
        size := ring.Length;
      }
      SizeIsRetained(|pushed|, ring.Length);
      var want := n;
      if want <= 0 || want > size {
        want := size;
      }
      if want == 0 {
        return [];
      }
      var a := new T[want];
      var pos: int := head - 1;
      if pos < 0 {
        pos := ring.Length - 1;
      }
      PreviousSlot(|pushed|, ring.Length);
      for i := 0 to want
        invariant i < |pushed| ==> pos == SlotFor(|pushed| - 1 - i, ring.Length)
        invariant 0 <= pos < ring.Length
        invariant forall j :: 0 <= j < i ==> a[j] == pushed[|pushed| - 1 - j]
      {
        a[i] := ring[pos];
        if i + 1 < |pushed| {
          PreviousSlot(|pushed| - 1 - i, ring.Length);
        }
        pos := pos - 1;
        if pos < 0 {
          pos := ring.Length - 1;
        }
      }
      out := a[..];
    }
  }

  lemma NextSlot(k: nat, n: nat)
    requires n > 0
    ensures SlotFor(k + 1, n) == if SlotFor(k, n) + 1 == n then 0 else SlotFor(k, n) + 1
  {
    var q, r := k / n, k % n;
    assert k == n * q + r;
    if r + 1 == n {
      assert n * (q + 1) == n * q + n;
      ModUnique(k + 1, n, q + 1, 0);
    } else {
      ModUnique(k + 1, n, q, r + 1);
    }
  }

  lemma ModUnique(k: int, n: nat, q: int, r: nat)
    requires n > 0 && k == n * q + r && r < n
    ensures k % n == r
  {
    QuotientUnique(n, k / n, k % n, q, r);
  }

  lemma QuotientUnique(n: nat, p: int, s: nat, q: int, r: nat)
    requires n > 0 && n * p + s == n * q + r && s < n && r < n
    ensures s == r
  {
    assert n * (q + 1) == n * q + n && n * (p + 1) == n * p + n;
    if p > q {
      Words.ProductGrows(n, q + 1, p);
    } else if p < q {
      Words.ProductGrows(n, p + 1, q);
    }
  }

  lemma PreviousSlot(k: nat, n: nat)
    requires n > 0 && k > 0
    ensures SlotFor(k - 1, n) == if SlotFor(k, n) == 0 then n - 1 else SlotFor(k, n) - 1
  {
    hide SlotFor;
    NextSlot(k - 1, n);
  }

  lemma SlotsApart(k: nat, m: nat, n: nat)
    requires n > 0 && k < m < k + n
    ensures SlotFor(k, n) != SlotFor(m, n)
  {
    var q, r := k / n, k % n;
    assert k == n * q + r;
    if m - k + r < n {
      ModUnique(m, n, q, m - k + r);
    } else {
      assert n * (q + 1) == n * q + n;
      ModUnique(m, n, q + 1, m - k + r - n);
    }
  }

  lemma SizeIsRetained(k: nat, n: nat)
    requires n > 0
    ensures k < n ==> SlotFor(k, n) == k
  {
    if k < n {
      ModUnique(k, n, 0, k);
    }
  }
}
