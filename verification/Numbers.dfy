/** The integer arithmetic of Python's round() and math.ceil() on exact quotients. */
module Numbers {
  function Min(a: int, b: int): int { if a <= b then a else b }

  function Max(a: int, b: int): int { if a >= b then a else b }

  /** r is the nearest integer to n / d, and the even one of two that are equally near. */
  predicate Nearest(n: int, d: int, r: int) {
    -d <= 2 * (r * d - n) <= d && (2 * (r * d - n) == d || 2 * (n - r * d) == d ==> r % 2 == 0)
  }

  function RoundHalfEven(n: int, d: int): (r: int)
    requires d > 0
    ensures Nearest(n, d, r)
    ensures n >= 0 ==> r >= 0
  {
    var q, rest := n / d, n % d;
    assert n == q * d + rest;
    assert (q + 1) * d == q * d + d;
    if 2 * rest < d || (2 * rest == d && q % 2 == 0) then q else q + 1
  }

  /** The least integer not below n / d. */
  function Ceiling(n: int, d: int): (r: int)
    requires d > 0
    ensures (r - 1) * d < n <= r * d
  {
    var q := -((-n) / d);
    assert -n == -q * d + (-n) % d;
    assert (q - 1) * d == q * d - d;
    q
  }

  lemma ScaleAscends(a: int, b: int, factor: int)
    requires a <= b && factor >= 0
    ensures a * factor <= b * factor
  {
  }

  /** m is at most n / d, rounded down, exactly when d times it is at most n. */
  lemma FloorIff(n: int, d: int, m: int)
    requires d > 0
    ensures m <= n / d <==> m * d <= n
  {
    var q := n / d;
    assert n == q * d + n % d;
    if m <= q {
      ScaleAscends(m, q, d);
    } else {
      ScaleAscends(q + 1, m, d);
    }
  }

  lemma CeilingIff(n: int, d: int, m: int)
    requires d > 0
    ensures Ceiling(n, d) <= m <==> n <= m * d
  {
    var r := Ceiling(n, d);
    if r <= m {
      ScaleAscends(r, m, d);
    } else {
      ScaleAscends(m, r - 1, d);
    }
  }

  /** Scaling keeps the order of two counts and tells them apart. */
  lemma ScaleOrder(a: int, b: int, factor: int)
    requires a <= b && factor > 0
    ensures a * factor <= b * factor
    ensures a * factor == b * factor <==> a == b
  {
    if a < b {
      ScaleAscends(a + 1, b, factor);
    }
  }

  lemma ScaleSplits(a: int, b: int, c: int, factor: int)
    ensures (a + b - c) * factor == a * factor + b * factor - c * factor
  {
  }

  lemma Split(n: nat, q: nat, r: nat, piece: nat, f: nat)
    requires n == q * piece + r && r < piece
    ensures q < f <==> n < f * piece
  {
    if q < f {
      ScaleAscends(q + 1, f, piece);
    } else {
      ScaleAscends(f, q, piece);
    }
  }

  /** Cell n belongs to a piece before piece f exactly when it comes before f's first cell. */
  lemma PieceOf(n: nat, piece: nat, f: nat)
    requires piece > 0
    ensures n / piece < f <==> n < f * piece
  {
    Split(n, n / piece, n % piece, piece, f);
  }

  lemma MinScales(a: nat, b: nat, factor: nat)
    ensures Min(a * factor, b * factor) == Min(a, b) * factor
  {
    if a <= b {
      ScaleAscends(a, b, factor);
    } else {
      ScaleAscends(b, a, factor);
    }
  }
}
