/** Go's fixed-width integers, as far as the modelled code depends on their width, and its unit of time. */
module Words {
  const TWO_63: int := 0x8000_0000_0000_0000
  const TWO_64: int := 0x1_0000_0000_0000_0000

  /** `time.Second`, in nanoseconds. */
  const SECOND: int := 1_000_000_000

  function Min(a: int, b: int): int {
    if a < b then a else b
  }

  function Max(a: int, b: int): int {
    if b > a then b else a
  }

  /** A Go `uint64`. */
  type U64 = x: int | 0 <= x < 0x1_0000_0000_0000_0000

  /** The value an unbounded count leaves in a `uint64`. */
  function Wrap(n: nat): U64 {
    n % TWO_64
  }

  /** `a + b` on `uint64`. */
  function Add(a: U64, b: U64): U64 {
    if a + b < TWO_64 then a + b else a + b - TWO_64
  }

  /** `2*a` on `uint64`. */
  function Twice(a: U64): U64 {
    Add(a, a)
  }

  /** The conversion `int64(a)`. */
  function AsInt64(a: U64): (r: int)
    ensures -0x8000_0000_0000_0000 <= r < 0x8000_0000_0000_0000
    ensures r == a || r == a - 0x1_0000_0000_0000_0000
  {
    if a < TWO_63 then a else a - TWO_64
  }

  /** Wrapping is a homomorphism: adding wrapped counts is wrapping the added counts. */
  lemma WrapAdd(m: nat, n: nat)
    ensures Add(Wrap(m), Wrap(n)) == Wrap(m + n)
  {
    var a, b := m % TWO_64, n % TWO_64;
    assert m == TWO_64 * (m / TWO_64) + a && n == TWO_64 * (n / TWO_64) + b;
    WrapUnique(m + n, m / TWO_64 + n / TWO_64, a + b);
  }

  lemma WrapUnique(n: nat, q: nat, r: nat)
    requires n == TWO_64 * q + r && r < 2 * TWO_64
    ensures Wrap(n) == if r < TWO_64 then r else r - TWO_64
  {
    assert n / TWO_64 == if r < TWO_64 then q else q + 1;
  }

  lemma AddExchange(a: U64, b: U64, c: U64, d: U64)
    ensures Add(Add(a, b), Add(c, d)) == Add(Add(a, c), Add(b, d))
  {
  }

  lemma WrapSmall(n: nat)
    requires n < TWO_64
    ensures Wrap(n) == n
  {
  }

  lemma {:induction false} ProductGrows(n: nat, a: int, b: int)
    requires a <= b
    ensures n * a <= n * b
  {
    if n > 0 {
      ProductGrows(n - 1, a, b);
      assert n * a == (n - 1) * a + a && n * b == (n - 1) * b + b;
    }
  }

  /** Go's `%`, which truncates toward zero. */
  function GoMod(a: int, b: int): int
    requires b > 0
  {
    if a >= 0 then a % b else -((-a) % b)
  }
}
