/** Machine words and C arithmetic shared by the other modules. */
module Words {
  const WIDTH: nat := 32
  const U32: int := 0x1_0000_0000

  /** A 32-bit word, bit k at index k. */
  type Word = w: seq<bool> | |w| == WIDTH witness seq(WIDTH, _ => false)

  const ZERO: Word := seq(WIDTH, _ => false)

  predicate IsZero(x: Word)
  {
    forall k :: 0 <= k < WIDTH ==> !x[k]
  }

  /** `(1 << n) - 1`: the lowest n bits. */
  function Mask(n: nat): Word
  {
    seq(WIDTH, k => k < n)
  }

  /** `x << n`; bits pushed past the word width are lost. */
  function Shl(x: Word, n: nat): Word
  {
    seq(WIDTH, k requires 0 <= k < WIDTH => n <= k && x[k - n])
  }

  /** `x >> n`. */
  function Shr(x: Word, n: nat): Word
  {
    seq(WIDTH, k requires 0 <= k < WIDTH => k + n < WIDTH && x[k + n])
  }

  lemma ShrStep(x: Word, n: nat)
    ensures Shr(Shr(x, n), 1) == Shr(x, n + 1)
  {
  }

  /** `x | y`. */
  function Or(x: Word, y: Word): Word
  {
    seq(WIDTH, k requires 0 <= k < WIDTH => x[k] || y[k])
  }

  /** `x & y`. */
  function And(x: Word, y: Word): Word
  {
    seq(WIDTH, k requires 0 <= k < WIDTH => x[k] && y[k])
  }

  /** `~x`. */
  function Not(x: Word): Word
  {
    seq(WIDTH, k requires 0 <= k < WIDTH => !x[k])
  }

  /** C integer division by two: truncates toward zero. */
  function Half(a: int): int
  {
    if a >= 0 then a / 2 else -((-a) / 2)
  }

  /** Reduction to an unsigned 32-bit value. */
  function ToU32(a: int): int
  {
    a % U32
  }

  function Min(a: int, b: int): int { if a <= b then a else b }

  function Max(a: int, b: int): int { if a >= b then a else b }

  function Clamp(a: int, lo: int, hi: int): int
    requires lo <= hi
  {
    if a > hi then hi else if a < lo then lo else a
  }

  lemma MulAtLeast(d: int, w: int)
    requires d >= 1 && w >= 0
    ensures d * w >= w
  {
    assert d * w == (d - 1) * w + w;
    assert (d - 1) * w >= 0;
  }

  /** Quotient and remainder are determined by what they add up to. */
  lemma QuotientUnique(w: int, q: int, r: int, q': int, r': int)
    requires 0 <= r < w && 0 <= r' < w && q * w + r == q' * w + r'
    ensures q == q' && r == r'
  {
    var d := q' - q;
    assert d * w == q' * w - q * w;
    assert (-d) * w == q * w - q' * w;
    if d >= 1 {
      MulAtLeast(d, w);
    } else if d <= -1 {
      MulAtLeast(-d, w);
    }
  }

  lemma DivMod(a: int, w: int, q: int, r: int)
    requires 0 <= r < w && a == q * w + r
    ensures a / w == q && a % w == r
  {
    QuotientUnique(w, q, r, a / w, a % w);
  }

  lemma SmallQuotient(v: nat, p: nat)
    requires 1 <= p
    ensures v / p == 0 <==> v < p
    ensures v < p ==> v % p == v
  {
    if v < p {
      DivMod(v, p, 0, v);
    }
    assert v == p * (v / p) + v % p;
  }

  /** n steps of x each. */
  function Times(n: int, x: int): int
    decreases if n <= 0 then 0 else n
  {
    if n <= 0 then 0 else Times(n - 1, x) + x
  }

  lemma {:induction false} TimesIsProduct(n: nat, x: int)
    ensures Times(n, x) == n * x
  {
    if n > 0 {
      TimesIsProduct(n - 1, x);
    }
  }

  lemma {:induction false} TimesMono(a: int, b: int, x: int)
    requires a <= b && 0 <= x
    ensures 0 <= Times(a, x) <= Times(b, x)
    decreases if b <= 0 then 0 else b
  {
    if 0 < b {
      if a < b {
        TimesMono(a, b - 1, x);
      } else {
        TimesMono(b - 1, b - 1, x);
      }
    }
  }

  lemma {:induction false} TimesAtLeast(n: nat, x: int)
    requires 1 <= x
    ensures n <= Times(n, x)
  {
    if n > 0 {
      TimesAtLeast(n - 1, x);
    }
  }
}
