/** Addresses and prefixes, as `net/netip` gives them. */
module Net {
  datatype Family = V4 | V6

  /** An address: its family, its bits from the most significant on, and an IPv6 zone. */
  datatype Addr = Addr(family: Family, bits: seq<bool>, zone: string)

  /** A prefix; `bits` is -1 for the zero (invalid) prefix. */
  datatype Prefix = Prefix(addr: Addr, bits: int)

  /** `Prefix.Contains`: same family, no zone, equal leading bits; the invalid prefix contains nothing. */
  predicate Contains(p: Prefix, ip: Addr) {
    && 0 <= p.bits <= |p.addr.bits|
    && p.bits <= |ip.bits|
    && p.addr.family == ip.family
    && ip.zone == ""
    && ip.bits[..p.bits] == p.addr.bits[..p.bits]
  }

  /** Byte-wise string order, Go's `<` on strings. */
  predicate StringLess(a: string, b: string) {
    if a == [] then b != []
    else b != [] && (a[0] < b[0] || (a[0] == b[0] && StringLess(a[1..], b[1..])))
  }

  lemma {:induction false} StringLessTotal(a: string, b: string)
    ensures StringLess(a, b) || StringLess(b, a) || a == b
    ensures !(StringLess(a, b) && StringLess(b, a))
    ensures !StringLess(a, a)
    decreases |a|
  {
    if a != [] {
      if b != [] {
        StringLessTotal(a[1..], b[1..]);
        assert a == [a[0]] + a[1..] && b == [b[0]] + b[1..];
      }
      StringLessTotal(a[1..], a[1..]);
    }
  }

  lemma {:induction false} StringLessTransitive(a: string, b: string, c: string)
    requires StringLess(a, b) && StringLess(b, c)
    ensures StringLess(a, c)
    decreases |a|
  {
    if a != [] && a[0] == b[0] == c[0] {
      StringLessTransitive(a[1..], b[1..], c[1..]);
    }
  }
}
