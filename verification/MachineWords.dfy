/** The unsigned machine integers that the library computes with. */
module MachineWords {
  const TWO64: int := 0x1_0000_0000_0000_0000
  const TWO63: int := 0x8000_0000_0000_0000
  const TWO32: int := 0x1_0000_0000

  /** `uint64_t` */
  type Word = x: int | 0 <= x < TWO64

  /** `uint32_t` */
  type Word32 = x: int | 0 <= x < TWO32

  /** What a `uint32_t` keeps of a number. */
  function Wrap32(n: int): Word32 {
    n % TWO32
  }

  lemma Wrap32Step(n: int, d: int)
    ensures Wrap32(Wrap32(n) + d) == Wrap32(n + d)
  {
    var q := n / TWO32;
    assert n + d == Wrap32(n) + d + q * TWO32;
  }

  /** What a `uint64_t` keeps of a number. */
  function Wrap64(n: int): Word {
    n % TWO64
  }

  /** Addition to a `uint64_t`, and subtraction from one. */
  function Plus(n: Word, d: nat): Word {
    Wrap64(n + d)
  }

  function Minus(n: Word, d: nat): Word {
    Wrap64(n - d)
  }

  lemma Wrap64Step(n: int, d: int)
    ensures Wrap64(Wrap64(n) + d) == Wrap64(n + d)
  {
    var q := n / TWO64;
    assert n + d == Wrap64(n) + d + q * TWO64;
  }

  function Min(a: int, b: int): int {
    if a < b then a else b
  }

  function Max(a: int, b: int): int {
    if a < b then b else a
  }

  // Indices that wrap round

  lemma WholeMultiple(e: int, c: int)
    requires -c < e * c < c
    ensures e == 0
  {
  }

  lemma QuotientAndRest(q: int, c: nat, r: nat)
    requires r < c
    ensures (q * c + r) % c == r
  {
    var n := q * c + r;
    var d, e := n / c, n / c - q;
    assert n == d * c + n % c;
    assert e * c == d * c - q * c;
    WholeMultiple(e, c);
  }

  /** The index after that of claim `n` is that of claim `n + 1`. */
  lemma NextIndex(n: nat, c: nat)
    requires c > 0
    ensures (n % c + 1) % c == (n + 1) % c
  {
    var q, r := n / c, n % c;
    var x := q * c;
    assert n == x + r;
    if r + 1 == c {
      assert (q + 1) * c == x + c;
      QuotientAndRest(q + 1, c, 0);
      QuotientAndRest(1, c, 0);
    } else {
      QuotientAndRest(q, c, r + 1);
      QuotientAndRest(0, c, r + 1);
    }
  }

  /** Two numbers have the same remainder exactly if their distance is a whole number of laps. */
  lemma SameRest(a: nat, b: nat, c: nat)
    requires a <= b && c > 0
    ensures a % c == b % c <==> (b - a) % c == 0
  {
    var q, r, e, d := a / c, a % c, (b - a) / c, (b - a) % c;
    assert a == q * c + r && b - a == e * c + d;
    if d == 0 {
      assert b == (q + e) * c + r;
      QuotientAndRest(q + e, c, r);
    } else if a % c == b % c {
      var f := b / c - q;
      assert b == (b / c) * c + r;
      assert b - a == f * c;
      QuotientAndRest(f, c, 0);
    }
  }

  /** Two numbers less than `c` apart with the same remainder are one. */
  lemma SameRemainder(a: nat, b: nat, c: nat)
    requires a <= b < a + c && a % c == b % c
    ensures a == b
  {
    var e := b / c - a / c;
    assert a == (a / c) * c + a % c && b == (b / c) * c + b % c;
    assert e * c == (b / c) * c - (a / c) * c;
    WholeMultiple(e, c);
  }
}
