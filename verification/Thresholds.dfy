/** Thresholds and longest-prefix match (detect/thresholds.go). */
module Thresholds {
  import opened Options
  import opened Words
  import opened Net
  import Sorting

  datatype Vector = UdpFlood | IcmpFlood | OtherVector(name: string)

  datatype Threshold = Threshold(
    hostgroupId: int, hostgroupName: string, prefix: Prefix, vector: Vector,
    pps: U64, bps: U64, minWindowSec: int, graceSec: int)

  // ---- Prefixes --------------------------------------------------------------------------------

  /** Two prefixes are nested or disjoint, and those of equal length that meet are one network. */
  lemma PrefixesNest(p: Prefix, q: Prefix, ip: Addr)
    requires Contains(p, ip) && Contains(q, ip) && p.bits <= q.bits
    ensures forall x :: Contains(q, x) ==> Contains(p, x)
    ensures p.bits == q.bits ==> forall x :: Contains(p, x) <==> Contains(q, x)
  {
    assert ip.bits[..q.bits][..p.bits] == ip.bits[..p.bits];
    forall x | Contains(q, x) ensures Contains(p, x) {
      assert x.bits[..q.bits][..p.bits] == x.bits[..p.bits];
    }
  }

  // ---- The best matches ------------------------------------------------------------------------

  /** The prefix of `t` contains `ip` and no longer prefix of `ts` does. */
  ghost predicate Best(ts: seq<Threshold>, ip: Addr, t: Threshold) {
    && t in ts && Contains(t.prefix, ip)
    && forall u :: u in ts && Contains(u.prefix, ip) ==> u.prefix.bits <= t.prefix.bits
  }

  /** The entries that match with `bits` bits, in catalog order. */
  function Matching(ts: seq<Threshold>, ip: Addr, bits: int): seq<Threshold> {
    if ts == [] then []
    else
      var before := Matching(ts[..|ts| - 1], ip, bits);
      var t := ts[|ts| - 1];
      if Contains(t.prefix, ip) && t.prefix.bits == bits then before + [t] else before
  }

  /** The greatest length among the prefixes that contain `ip`, -1 if there is none. */
  function BestBits(ts: seq<Threshold>, ip: Addr): int {
    if ts == [] then -1
    else
      var before := BestBits(ts[..|ts| - 1], ip);
      var t := ts[|ts| - 1];
      if Contains(t.prefix, ip) && t.prefix.bits > before then t.prefix.bits else before
  }

  function LookupIn(ts: seq<Threshold>, ip: Addr): seq<Threshold> {
    Matching(ts, ip, BestBits(ts, ip))
  }

  lemma {:induction false} BestBitsIsGreatest(ts: seq<Threshold>, ip: Addr)
    ensures forall t :: t in ts && Contains(t.prefix, ip) ==> t.prefix.bits <= BestBits(ts, ip)
    ensures BestBits(ts, ip) == -1 || exists t :: t in ts && Contains(t.prefix, ip) && t.prefix.bits == BestBits(ts, ip)
    ensures BestBits(ts, ip) >= -1
  {
    hide Contains;
    if ts != [] {
      var n := |ts| - 1;
      assert ts == ts[..n] + [ts[n]];
      BestBitsIsGreatest(ts[..n], ip);
    }
  }

  lemma {:induction false} MatchingCounts(ts: seq<Threshold>, ip: Addr, bits: int, t: Threshold)
    ensures multiset(Matching(ts, ip, bits))[t]
         == if Contains(t.prefix, ip) && t.prefix.bits == bits then multiset(ts)[t] else 0
  {
    hide Contains;
    if ts != [] {
      var n := |ts| - 1;
      assert ts == ts[..n] + [ts[n]];
      MatchingCounts(ts[..n], ip, bits, t);
    }
  }

  /** A lookup returns exactly the thresholds of the longest matching prefix, each as often as it was configured. */
  lemma LookupIsLongestMatch(configured: seq<Threshold>, entries: seq<Threshold>, ip: Addr, t: Threshold)
    requires multiset(configured) == multiset(entries)
    ensures multiset(LookupIn(entries, ip))[t] == if Best(configured, ip, t) then multiset(configured)[t] else 0
  {
    assert Contains(t.prefix, ip) ==> t.prefix.bits >= 0;
    assert t in entries <==> multiset(entries)[t] > 0;
    hide Contains;
    BestBitsIsGreatest(entries, ip);
    MatchingCounts(entries, ip, BestBits(entries, ip), t);
    SameMembers(configured, entries);
  }

  lemma SameMembers<T>(a: seq<T>, b: seq<T>)
    requires multiset(a) == multiset(b)
    ensures forall x :: x in a <==> x in b
  {
    forall x ensures x in a <==> x in b {
      assert x in a <==> x in multiset(a);
      assert x in b <==> x in multiset(b);
    }
  }

  lemma {:induction false} MatchingMembers(ts: seq<Threshold>, ip: Addr, bits: int)
    ensures forall t :: t in Matching(ts, ip, bits) <==> t in ts && Contains(t.prefix, ip) && t.prefix.bits == bits
  {
    hide Contains;
    if ts != [] {
      var n := |ts| - 1;
      assert ts == ts[..n] + [ts[n]];
      MatchingMembers(ts[..n], ip, bits);
    }
  }

  /** All thresholds a lookup returns are for one network. */
  lemma LookupNamesOneNetwork(ts: seq<Threshold>, ip: Addr, t: Threshold, u: Threshold)
    requires t in LookupIn(ts, ip) && u in LookupIn(ts, ip)
    ensures t.prefix.bits == u.prefix.bits && forall x :: Contains(t.prefix, x) <==> Contains(u.prefix, x)
  {
    MatchingMembers(ts, ip, BestBits(ts, ip));
    PrefixesNest(t.prefix, u.prefix, ip);
  }

  // ---- The catalog -----------------------------------------------------------------------------

  /** The catalog's order: longer prefixes first, then by hostgroup name. */
  function Before(): (Threshold, Threshold) -> bool {
    (a: Threshold, b: Threshold) =>
      if a.prefix.bits != b.prefix.bits then a.prefix.bits > b.prefix.bits
      else StringLess(a.hostgroupName, b.hostgroupName)
  }

  lemma BeforeIsComparator()
    ensures Sorting.Comparator(Before())
  {
    var less := Before();
    forall a, b | less(a, b) ensures !less(b, a) {
      StringLessTotal(a.hostgroupName, b.hostgroupName);
    }
    forall a, b, c | !less(b, a) && !less(c, b) ensures !less(c, a) {
      StringLessTotal(a.hostgroupName, b.hostgroupName);
      StringLessTotal(b.hostgroupName, c.hostgroupName);
      StringLessTotal(a.hostgroupName, c.hostgroupName);
      if less(c, a) && a.hostgroupName != b.hostgroupName && b.hostgroupName != c.hostgroupName {
        StringLessTransitive(a.hostgroupName, b.hostgroupName, c.hostgroupName);
      }
    }
  }

  /** The first of `ts` for vector `v`. */
  function FirstFor(ts: seq<Threshold>, v: Vector): Option<Threshold> {
    if ts == [] then None
    else if ts[0].vector == v then Some(ts[0])
    else FirstFor(ts[1..], v)
  }

  /** The threshold chosen for a host and a vector is one of the lookup's results, and the one whose
      hostgroup name comes first if several hostgroups share the network. */
  lemma {:induction false} FirstForMembers(ts: seq<Threshold>, v: Vector)
    ensures FirstFor(ts, v).Some? <==> exists t :: t in ts && t.vector == v
    ensures FirstFor(ts, v).Some? ==> FirstFor(ts, v).value in ts && FirstFor(ts, v).value.vector == v
    ensures Sorting.Sorted(ts, Before()) && FirstFor(ts, v).Some? ==>
      forall t :: t in ts && t.vector == v ==> t == FirstFor(ts, v).value || !Before()(t, FirstFor(ts, v).value)
  {
    hide Before;
    if ts != [] {
      FirstForMembers(ts[1..], v);
      assert ts == [ts[0]] + ts[1..];
    }
  }

  /** A lookup keeps the catalog's order. */
  lemma {:induction false} MatchingIsSorted(ts: seq<Threshold>, ip: Addr, bits: int)
    requires Sorting.Sorted(ts, Before())
    ensures Sorting.Sorted(Matching(ts, ip, bits), Before())
  {
    hide Contains, Before;
    if ts != [] {
      var n := |ts| - 1;
      MatchingIsSorted(ts[..n], ip, bits);
      MatchingMembers(ts[..n], ip, bits);
      var before := Matching(ts[..n], ip, bits);
      forall i | 0 <= i < |before| ensures !Before()(ts[n], before[i]) {
        assert before[i] in ts[..n];
      }
    }
  }

  /** Of the thresholds for `v` on the longest prefix containing `ip`, `t` is one whose hostgroup name comes first. */
  ghost predicate Chosen(ts: seq<Threshold>, ip: Addr, v: Vector, t: Threshold) {
    && Best(ts, ip, t) && t.vector == v
    && forall u :: Best(ts, ip, u) && u.vector == v ==> !StringLess(u.hostgroupName, t.hostgroupName)
  }

  lemma BestAreLookedUp(ts: seq<Threshold>, ip: Addr, t: Threshold)
    ensures t in LookupIn(ts, ip) <==> Best(ts, ip, t)
  {
    assert Contains(t.prefix, ip) ==> t.prefix.bits >= 0;
    hide Contains;
    BestBitsIsGreatest(ts, ip);
    MatchingMembers(ts, ip, BestBits(ts, ip));
  }

  /** On a sorted catalog, the first result for the vector is the chosen threshold, and there is one if any exists. */
  lemma FirstIsChosen(ts: seq<Threshold>, ip: Addr, v: Vector)
    requires Sorting.Sorted(ts, Before())
    ensures var r := FirstFor(LookupIn(ts, ip), v);
            if r.Some? then Chosen(ts, ip, v, r.value) else forall t :: Best(ts, ip, t) ==> t.vector != v
  {
    var found := LookupIn(ts, ip);
    MatchingIsSorted(ts, ip, BestBits(ts, ip));
    FirstForMembers(found, v);
    forall t ensures t in found <==> Best(ts, ip, t) {
      BestAreLookedUp(ts, ip, t);
    }
    hide FirstFor, LookupIn, Contains, Sorting.Sorted;
    var r := FirstFor(found, v);
    if r.Some? {
      forall u | Best(ts, ip, u) && u.vector == v ensures !StringLess(u.hostgroupName, r.value.hostgroupName) {
        StringLessTotal(u.hostgroupName, u.hostgroupName);
        assert u in found && u.prefix.bits == r.value.prefix.bits;
      }
    }
  }

  /** The schema: hostgroup names are unique, and a hostgroup has at most one threshold for a vector. */
  ghost predicate OnePerGroup(ts: seq<Threshold>) {
    forall i, j :: 0 <= i < j < |ts| ==> ts[i].hostgroupName != ts[j].hostgroupName || ts[i].vector != ts[j].vector
  }

  /** Then the chosen threshold does not depend on the order of the rows or of the sort. */
  lemma ChosenIsUnique(ts: seq<Threshold>, ts': seq<Threshold>, ip: Addr, v: Vector, t: Threshold, u: Threshold)
    requires multiset(ts) == multiset(ts') && OnePerGroup(ts)
    requires Chosen(ts, ip, v, t) && Chosen(ts', ip, v, u)
    ensures t == u
  {
    hide Contains, StringLess;
    SameMembers(ts, ts');
    assert Best(ts, ip, u) && Best(ts', ip, t);
    StringLessTotal(t.hostgroupName, u.hostgroupName);
    var i :| 0 <= i < |ts| && ts[i] == t;
    var j :| 0 <= j < |ts| && ts[j] == u;
    assert i == j;
  }

  /** Two catalogs of the same thresholds, sorted, make the same choice for every host and vector. */
  lemma SameChoice(ts: seq<Threshold>, ts': seq<Threshold>, ip: Addr, v: Vector)
    requires multiset(ts) == multiset(ts') && OnePerGroup(ts)
    requires Sorting.Sorted(ts, Before()) && Sorting.Sorted(ts', Before())
    ensures FirstFor(LookupIn(ts, ip), v) == FirstFor(LookupIn(ts', ip), v)
  {
    hide Contains, OnePerGroup, Sorting.Sorted, FirstFor, LookupIn;
    FirstIsChosen(ts, ip, v);
    FirstIsChosen(ts', ip, v);
    SameMembers(ts, ts');
    var r, r' := FirstFor(LookupIn(ts, ip), v), FirstFor(LookupIn(ts', ip), v);
    if r.Some? {
      assert Best(ts', ip, r.value);
    }
    if r'.Some? {
      assert Best(ts, ip, r'.value);
    }
    if r.Some? && r'.Some? {
      ChosenIsUnique(ts, ts', ip, v, r.value, r'.value);
    }
  }

  lemma SortedBits(ts: seq<Threshold>)
    requires Sorting.Sorted(ts, Before())
    ensures forall i, j :: 0 <= i < j < |ts| ==> ts[i].prefix.bits >= ts[j].prefix.bits
  {
    forall i, j | 0 <= i < j < |ts| ensures ts[i].prefix.bits >= ts[j].prefix.bits {
      assert !Before()(ts[j], ts[i]);
    }
  }

  /** What the next entry does to the result of the scan. */
  lemma ScanStep(ts: seq<Threshold>, i: nat, ip: Addr)
    requires i < |ts| && forall j, k :: 0 <= j < k < |ts| ==> ts[j].prefix.bits >= ts[k].prefix.bits
    ensures Contains(ts[i].prefix, ip) ==> ts[i].prefix.bits >= 0
    ensures var (t, best) := (ts[i], BestBits(ts[..i], ip));
            if !Contains(t.prefix, ip) || t.prefix.bits < best then
              BestBits(ts[..i + 1], ip) == best && LookupIn(ts[..i + 1], ip) == LookupIn(ts[..i], ip)
            else
              && (best == -1 || best == t.prefix.bits)
              && BestBits(ts[..i + 1], ip) == t.prefix.bits
              && LookupIn(ts[..i + 1], ip) == LookupIn(ts[..i], ip) + [t]
  {
    assert ts[..i + 1][..i] == ts[..i];
    var t, best := ts[i], BestBits(ts[..i], ip);
    assert Contains(t.prefix, ip) ==> t.prefix.bits >= 0;
    hide Contains;
    BestBitsIsGreatest(ts[..i], ip);
    if Contains(t.prefix, ip) && best == -1 {
      MatchingMembers(ts[..i], ip, t.prefix.bits);
      MatchingMembers(ts[..i], ip, best);
      assert forall u :: u !in Matching(ts[..i], ip, t.prefix.bits);
      EmptyOrMember(Matching(ts[..i], ip, t.prefix.bits));
      EmptyOrMember(Matching(ts[..i], ip, best));
    }
  }

  lemma EmptyOrMember<T>(s: seq<T>)
    ensures s == [] || exists x :: x in s
  {
    if s != [] {
      assert s[0] in s;
    }
  }

  lemma {:induction false} StopEarly(ts: seq<Threshold>, i: nat, ip: Addr)
    requires i <= |ts| && forall j :: i <= j < |ts| ==> ts[j].prefix.bits < BestBits(ts[..i], ip)
    ensures BestBits(ts, ip) == BestBits(ts[..i], ip) && LookupIn(ts, ip) == LookupIn(ts[..i], ip)
    decreases |ts|
  {
    hide Contains;
    if i == |ts| {
      assert ts[..i] == ts;
    } else {
      var n := |ts| - 1;
      assert ts[..n][..i] == ts[..i];
      StopEarly(ts[..n], i, ip);
    }
  }

  class Catalog {
    const entries: array<Threshold>

    ghost predicate Valid()
      reads entries
    {
      Sorting.Sorted(entries[..], Before())
    }

    /** NewCatalogFromThresholds. */
    constructor (thresholds: seq<Threshold>)
      ensures Valid() && fresh(entries) && multiset(entries[..]) == multiset(thresholds)
    {
      entries := new Threshold[|thresholds|](i requires 0 <= i < |thresholds| => thresholds[i]);
      new;
      assert entries[..] == thresholds;
      BeforeIsComparator();
      Sorting.InsertionSort(entries, Before());
    }

    /** The scan stops at the first shorter match; that loses nothing because the entries are sorted. */
    method Lookup(ip: Addr) returns (out: seq<Threshold>)
      requires Valid()
      ensures out == LookupIn(entries[..], ip)
    {
      hide Contains, Before;
      ghost var ts := entries[..];
      SortedBits(ts);
      var bestBits := -1;
      out := [];
      for i := 0 to entries.Length
        invariant bestBits == BestBits(ts[..i], ip)
        invariant out == LookupIn(ts[..i], ip)
      {
        var t := entries[i];
        ScanStep(ts, i, ip);
        if !Contains(t.prefix, ip) {
          continue;
        }
        var bits := t.prefix.bits;
        if bestBits == -1 {
          // First match: this is the longest matching prefix.
          bestBits := bits;
        }
        if bits < bestBits {
          StopEarly(ts, i, ip);
          return;
        }
        out := out + [t];
      }
      assert ts[..|ts|] == ts;
    }

    method LookupByVector(ip: Addr, v: Vector) returns (r: Option<Threshold>)
      requires Valid()
      ensures r == FirstFor(LookupIn(entries[..], ip), v)
      ensures if r.Some? then Chosen(entries[..], ip, v, r.value)
              else forall t :: Best(entries[..], ip, t) ==> t.vector != v
    {
      FirstIsChosen(entries[..], ip, v);
      hide Best, Before, LookupIn;
      var ts := Lookup(ip);
      for i := 0 to |ts|
        invariant FirstFor(ts, v) == FirstFor(ts[i..], v)
      {
        if ts[i].vector == v {
          return Some(ts[i]);
        }
        assert ts[i..][1..] == ts[i + 1..];
      }
      return None;
    }
  }
}
