/** Flow records and the one-second counters they are added to (flow/record.go, aggregate/bucket.go). */
module Traffic {
  import opened Words

  const PROTO_ICMP: nat := 1
  const PROTO_UDP: nat := 17
  const PROTO_ICMP_V6: nat := 58

  /** The part of a flow record that the counters use. */
  datatype Record = Record(proto: nat, bytes: U64, packets: U64)

  /** One second of one host. */
  datatype Bucket = Bucket(
    pps: U64, bps: U64,
    ppsUDP: U64, bpsUDP: U64,
    ppsICMP: U64, bpsICMP: U64,
    ppsOther: U64, bpsOther: U64)

  const EMPTY: Bucket := Bucket(0, 0, 0, 0, 0, 0, 0, 0)

  /** `Bucket.Add`: the receiver after merging `o` into it. */
  function Merge(b: Bucket, o: Bucket): Bucket {
    Bucket(Add(b.pps, o.pps), Add(b.bps, o.bps),
           Add(b.ppsUDP, o.ppsUDP), Add(b.bpsUDP, o.bpsUDP),
           Add(b.ppsICMP, o.ppsICMP), Add(b.bpsICMP, o.bpsICMP),
           Add(b.ppsOther, o.ppsOther), Add(b.bpsOther, o.bpsOther))
  }

  /** The bucket after one record has been added to it: the total, and the protocol's own pair. */
  function Charge(b: Bucket, r: Record): Bucket {
    var c := b.(pps := Add(b.pps, r.packets), bps := Add(b.bps, r.bytes));
    if r.proto == PROTO_UDP then
      c.(ppsUDP := Add(b.ppsUDP, r.packets), bpsUDP := Add(b.bpsUDP, r.bytes))
    else if r.proto == PROTO_ICMP || r.proto == PROTO_ICMP_V6 then
      c.(ppsICMP := Add(b.ppsICMP, r.packets), bpsICMP := Add(b.bpsICMP, r.bytes))
    else
      c.(ppsOther := Add(b.ppsOther, r.packets), bpsOther := Add(b.bpsOther, r.bytes))
  }

  /** Exact traffic totals, the unbounded reference for a bucket. */
  datatype Tally = Tally(udpPkts: nat, udpBytes: nat, icmpPkts: nat, icmpBytes: nat, otherPkts: nat, otherBytes: nat) {
    function Pkts(): nat { udpPkts + icmpPkts + otherPkts }
    function Bytes(): nat { udpBytes + icmpBytes + otherBytes }
  }

  const NOTHING: Tally := Tally(0, 0, 0, 0, 0, 0)

  function Sum(a: Tally, b: Tally): Tally {
    Tally(a.udpPkts + b.udpPkts, a.udpBytes + b.udpBytes,
          a.icmpPkts + b.icmpPkts, a.icmpBytes + b.icmpBytes,
          a.otherPkts + b.otherPkts, a.otherBytes + b.otherBytes)
  }

  lemma SumNothing(a: Tally)
    ensures Sum(a, NOTHING) == a
  {
  }

  lemma SumSwap(a: Tally, b: Tally, c: Tally)
    ensures Sum(Sum(a, b), c) == Sum(Sum(a, c), b) && Sum(Sum(a, b), c) == Sum(a, Sum(b, c))
  {
  }

  /** What one record carries, filed under its protocol. */
  function Weigh(r: Record): Tally {
    if r.proto == PROTO_UDP then Tally(r.packets, r.bytes, 0, 0, 0, 0)
    else if r.proto == PROTO_ICMP || r.proto == PROTO_ICMP_V6 then Tally(0, 0, r.packets, r.bytes, 0, 0)
    else Tally(0, 0, 0, 0, r.packets, r.bytes)
  }

  /** The bucket that counts a tally exactly, up to `uint64` wrap-around. */
  function Counted(t: Tally): Bucket {
    Bucket(Wrap(t.Pkts()), Wrap(t.Bytes()),
           Wrap(t.udpPkts), Wrap(t.udpBytes),
           Wrap(t.icmpPkts), Wrap(t.icmpBytes),
           Wrap(t.otherPkts), Wrap(t.otherBytes))
  }

  lemma CountedNothing()
    ensures Counted(NOTHING) == EMPTY
  {
  }

  lemma ChargeCounts(t: Tally, r: Record)
    ensures Charge(Counted(t), r) == Counted(Sum(t, Weigh(r)))
  {
    WrapSmall(r.packets);
    WrapSmall(r.bytes);
    WrapAdd(t.Pkts(), r.packets);
    WrapAdd(t.Bytes(), r.bytes);
    WrapAdd(t.udpPkts, r.packets);
    WrapAdd(t.udpBytes, r.bytes);
    WrapAdd(t.icmpPkts, r.packets);
    WrapAdd(t.icmpBytes, r.bytes);
    WrapAdd(t.otherPkts, r.packets);
    WrapAdd(t.otherBytes, r.bytes);
  }

  lemma MergeCounts(a: Tally, b: Tally)
    ensures Merge(Counted(a), Counted(b)) == Counted(Sum(a, b))
  {
    WrapAdd(a.Pkts(), b.Pkts());
    WrapAdd(a.Bytes(), b.Bytes());
    WrapAdd(a.udpPkts, b.udpPkts);
    WrapAdd(a.udpBytes, b.udpBytes);
    WrapAdd(a.icmpPkts, b.icmpPkts);
    WrapAdd(a.icmpBytes, b.icmpBytes);
    WrapAdd(a.otherPkts, b.otherPkts);
    WrapAdd(a.otherBytes, b.otherBytes);
  }

  /** The running sum of a window of buckets. */
  function Total(bs: seq<Bucket>): Bucket {
    if bs == [] then EMPTY else Merge(Total(bs[..|bs| - 1]), bs[|bs| - 1])
  }
}
