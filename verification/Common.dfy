/** What several modules need: fixed-width numbers, options, and a little arithmetic. */
module Common {

  type U8 = n: int | 0 <= n < 0x100
  type U16 = n: int | 0 <= n < 0x1_0000
  type U32 = n: int | 0 <= n < 0x1_0000_0000

  datatype Option<T> = None | Some(value: T)

  function Min(a: int, b: int): int {
    if a <= b then a else b
  }

  function Max(a: int, b: int): int {
    if a <= b then b else a
  }

  function CeilDiv(a: nat, b: nat): nat
    requires b > 0
  {
    (a + b - 1) / b
  }

  lemma MulMono(a: int, b: int, c: nat)
    requires a <= b
    ensures a * c <= b * c && c * a <= c * b
  {
  }

  lemma FloorBounds(a: int, b: int)
    requires b > 0
    ensures a / b * b <= a < (a / b + 1) * b
  {
  }

  /** The quotient is the only q with q b <= a < (q + 1) b. */
  lemma QuotientUnique(a: int, b: int, q: int)
    requires b > 0 && q * b <= a < (q + 1) * b
    ensures a / b == q
  {
    FloorBounds(a, b);
    if a / b < q {
      MulMono(a / b + 1, q, b);
    } else if a / b > q {
      MulMono(q + 1, a / b, b);
    }
  }

  /** The remainder is the only r below b with a = q b + r. */
  lemma RemainderUnique(a: int, q: int, r: int, b: int)
    requires 0 <= r < b && a == q * b + r
    ensures a % b == r
  {
    OneMoreTime(q, b);
    QuotientUnique(a, b, q);
    Division(a, b);
  }

  lemma OneMoreTime(q: int, b: int)
    ensures (q + 1) * b == q * b + b
  {
  }

  lemma Division(a: int, b: int)
    requires b > 0
    ensures a == a / b * b + a % b && 0 <= a % b < b
  {
  }

  lemma FloorMono(a: int, b: int, c: int)
    requires c > 0 && a <= b
    ensures a / c <= b / c
  {
    FloorBounds(a, c);
    FloorBounds(b, c);
    if b / c + 1 <= a / c {
      MulMono(b / c + 1, a / c, c);
    }
  }

  /** One b less takes one off the rounded-up quotient. */
  lemma CeilDivDrops(a: nat, b: nat)
    requires 0 < b <= a
    ensures CeilDiv(a, b) == CeilDiv(a - b, b) + 1
  {
    var q := CeilDiv(a - b, b);
    FloorBounds(a - b + b - 1, b);
    QuotientUnique(a + b - 1, b, q + 1);
  }

  /** Fewer to divide, or more to divide by, never gives more. */
  lemma CeilDivMono(a: nat, b: nat, c: nat)
    requires a <= b && c > 0
    ensures CeilDiv(a, c) <= CeilDiv(b, c)
  {
    FloorMono(a + c - 1, b + c - 1, c);
  }
}
