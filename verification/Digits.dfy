/** Positional notation, shared by the two printers. */
module Digits {
  import opened Words

  predicate IsBase(base: int)
  {
    base == 8 || base == 10 || base == 16
  }

  function Div(v: nat, base: int): (q: nat)
    requires IsBase(base)
    ensures q <= v && (v > 0 ==> q < v)
  {
    if base == 8 then v / 8 else if base == 10 then v / 10 else v / 16
  }

  function Mod(v: nat, base: int): (r: nat)
    requires IsBase(base)
    ensures r < base && v == Mul(base, Div(v, base)) + r
  {
    if base == 8 then v % 8 else if base == 10 then v % 10 else v % 16
  }

  function Mul(base: int, n: nat): (r: nat)
    requires IsBase(base)
    ensures n <= r
  {
    if base == 8 then 8 * n else if base == 10 then 10 * n else 16 * n
  }

  function Pow(base: int, n: nat): (r: nat)
    requires IsBase(base)
    ensures 1 <= r
  {
    if n == 0 then 1 else Mul(base, Pow(base, n - 1))
  }

  /** The n lowest digits of v, most significant first. */
  function Low(v: nat, base: int, n: nat): (r: seq<nat>)
    requires IsBase(base)
    ensures |r| == n
  {
    if n == 0 then [] else Low(Div(v, base), base, n - 1) + [Mod(v, base)]
  }

  /** How many digits v has; zero has one. */
  function Count(v: nat, base: int): (n: nat)
    requires IsBase(base)
    ensures n >= 1
  {
    if Div(v, base) == 0 then 1 else 1 + Count(Div(v, base), base)
  }

  function Value(digits: seq<nat>, base: int): nat
    requires IsBase(base)
  {
    if digits == [] then 0 else Mul(base, Value(digits[..|digits| - 1], base)) + digits[|digits| - 1]
  }

  /** The count is exact: v has a digit at that place, and none beyond. */
  lemma {:induction false} CountIsExact(v: nat, base: int)
    requires IsBase(base)
    ensures v < Pow(base, Count(v, base))
    ensures v > 0 ==> Pow(base, Count(v, base) - 1) <= v
  {
    if Div(v, base) == 0 {
      assert Pow(base, 1) == Mul(base, Pow(base, 0));
    } else {
      CountIsExact(Div(v, base), base);
    }
  }

  /** Reading the digits back gives the number. */
  lemma {:induction false} ValueOfLow(v: nat, base: int, n: nat)
    requires IsBase(base) && v < Pow(base, n)
    ensures Value(Low(v, base, n), base) == v
  {
    if n > 0 {
      ValueOfLow(Div(v, base), base, n - 1);
      assert Low(v, base, n)[..n - 1] == Low(Div(v, base), base, n - 1);
    }
  }

  lemma {:induction false} LowIsDigits(v: nat, base: int, n: nat)
    requires IsBase(base)
    ensures forall k :: 0 <= k < n ==> Low(v, base, n)[k] < base
  {
    if n > 0 {
      LowIsDigits(Div(v, base), base, n - 1);
    }
  }

  /** The top digit can be taken off the front. */
  lemma {:induction false} TopDigit(v: nat, base: int, n: nat)
    requires IsBase(base) && n >= 1 && v < Pow(base, n)
    ensures 0 <= v / Pow(base, n - 1) < base && 0 <= v % Pow(base, n - 1) < Pow(base, n - 1)
    ensures Low(v, base, n) == [v / Pow(base, n - 1)] + Low(v % Pow(base, n - 1), base, n - 1)
  {
    if n == 1 {
      assert Pow(base, 1) == Mul(base, Pow(base, 0));
      DivMod(v, 1, v, 0);
      assert Low(v, base, 1) == [v];
    } else {
      var w, r := Div(v, base), Mod(v, base);
      var p := Pow(base, n - 2);
      TopDigit(w, base, n - 1);
      SplitScaled(v, base, p);
      assert Low(v % Mul(base, p), base, n - 1) == Low(w % p, base, n - 2) + [r];
    }
  }

  /** Dividing by a scaled power and by the power after the base. */
  lemma SplitScaled(v: nat, base: int, p: nat)
    requires IsBase(base) && 1 <= p
    ensures v / Mul(base, p) == Div(v, base) / p
    ensures Div(v % Mul(base, p), base) == Div(v, base) % p && Mod(v % Mul(base, p), base) == Mod(v, base)
  {
    var w, r := Div(v, base), Mod(v, base);
    var q, s := w / p, w % p;
    assert w == q * p + s;
    Scale(q, base, p);
    ScaleSum(w, q * p, s, base, p, r);
    DivMod(v, Mul(base, p), q, Mul(base, s) + r);
  }

  lemma ScaleSum(w: nat, x: nat, s: nat, base: int, p: nat, r: nat)
    requires IsBase(base) && w == x + s && s < p && r < base
    ensures Mul(base, w) == Mul(base, x) + Mul(base, s) && Mul(base, s) + r < Mul(base, p)
    ensures Div(Mul(base, s) + r, base) == s && Mod(Mul(base, s) + r, base) == r
  {
  }

  lemma Scale(q: nat, base: int, p: nat)
    requires IsBase(base)
    ensures 0 <= q * p && q * Mul(base, p) == Mul(base, q * p)
  {
  }

  lemma {:induction false} PowMono(base: int, a: nat, b: nat)
    requires IsBase(base) && a <= b
    ensures Pow(base, a) <= Pow(base, b)
    decreases b
  {
    if a < b {
      PowMono(base, a, b - 1);
    }
  }

  /** The number of digits is determined by the two powers around the number. */
  lemma CountUnique(v: nat, base: int, n: nat)
    requires IsBase(base) && n >= 1 && v > 0 && Pow(base, n - 1) <= v < Pow(base, n)
    ensures Count(v, base) == n
  {
    var c := Count(v, base);
    CountIsExact(v, base);
    if c < n {
      PowMono(base, c, n - 1);
    } else {
      PowMono(base, n, if c > n then c - 1 else n);
    }
  }

  lemma DivOfPow(base: int, n: nat)
    requires IsBase(base)
    ensures Div(Pow(base, n), base) == if n == 0 then 0 else Pow(base, n - 1)
  {
  }

  /** The hexadecimal digit of v at place k. */
  function Nibble(v: nat, k: nat): nat
  {
    (v / Pow(16, k)) % 16
  }

  /** The digit at a place and the places below it. */
  lemma NibbleSplits(v: nat, k: nat)
    ensures (v % Pow(16, k + 1)) / Pow(16, k) == Nibble(v, k)
    ensures (v % Pow(16, k + 1)) % Pow(16, k) == v % Pow(16, k)
  {
    var p := Pow(16, k);
    var q, s := v / p, v % p;
    var q1, r := q / 16, q % 16;
    assert v == q * p + s;
    assert q * p == q1 * (16 * p) + r * p by { assert q == 16 * q1 + r; SixteenTimes(q1, r, p); }
    assert r * p + s < 16 * p by { SixteenTimes(0, 15 - r, p); }
    DivMod(v, 16 * p, q1, r * p + s);
    DivMod(r * p + s, p, r, s);
  }

  lemma SixteenTimes(q: nat, r: nat, p: nat)
    ensures (16 * q + r) * p == q * (16 * p) + r * p && 0 <= r * p
    ensures (15 - r) * p + r * p == 15 * p
  {
  }

  // Hexadecimal digits by masks and shifts.

  /** The n lowest bits of v, lowest first. */
  function Bits(v: nat, n: nat): (b: seq<bool>)
    ensures |b| == n
  {
    if n == 0 then [] else [v % 2 == 1] + Bits(v / 2, n - 1)
  }

  /** The number with these bits. */
  function Number(b: seq<bool>): nat
  {
    if b == [] then 0 else (if b[0] then 1 else 0) + 2 * Number(b[1..])
  }

  /** `v & (0xF << digit_shift)` with a shift of k digits. */
  function Masked(w: Word, k: nat): Word
  {
    And(w, Shl(Mask(4), 4 * k))
  }

  lemma FourBits(q: nat)
    ensures Bits(q, 4) == [q % 2 == 1, q / 2 % 2 == 1, q / 4 % 2 == 1, q / 8 % 2 == 1]
  {
    assert Bits(q / 8, 1) == [q / 8 % 2 == 1] + Bits(q / 16, 0);
    assert Bits(q / 4, 2) == [q / 4 % 2 == 1] + Bits(q / 8, 1);
    assert Bits(q / 2, 3) == [q / 2 % 2 == 1] + Bits(q / 4, 2);
  }

  lemma BitsDropFour(v: nat, n: nat)
    requires 4 <= n
    ensures Bits(v, n)[4..] == Bits(v / 16, n - 4)
    ensures Bits(v, n)[..4] == Bits(v, 4)
  {
    assert Bits(v, n) == [v % 2 == 1] + Bits(v / 2, n - 1);
    assert Bits(v / 2, n - 1) == [v / 2 % 2 == 1] + Bits(v / 4, n - 2);
    assert Bits(v / 4, n - 2) == [v / 4 % 2 == 1] + Bits(v / 8, n - 3);
    assert Bits(v / 8, n - 3) == [v / 8 % 2 == 1] + Bits(v / 16, n - 4);
    FourBits(v);
  }

  /** Four bits up from place k are the bits of the digit there. */
  lemma {:induction false} BitsOfNibble(v: nat, k: nat, n: nat)
    requires 4 * k + 4 <= n
    ensures Bits(v, n)[4 * k..4 * k + 4] == Bits(v / Pow(16, k), 4)
    decreases k
  {
    BitsDropFour(v, n);
    if k > 0 {
      BitsOfNibble(v / 16, k - 1, n - 4);
      SplitScaled(v, 16, Pow(16, k - 1));
      var high := Bits(v, n)[4..];
      assert Bits(v, n)[4 * k..4 * k + 4] == high[4 * (k - 1)..4 * (k - 1) + 4];
    }
  }

  lemma {:induction false} NumberPadded(b: seq<bool>, zeros: seq<bool>)
    requires forall i :: 0 <= i < |zeros| ==> !zeros[i]
    ensures Number(b + zeros) == Number(b)
    decreases |b| + |zeros|
  {
    if b != [] {
      assert (b + zeros)[1..] == b[1..] + zeros;
      NumberPadded(b[1..], zeros);
    } else if zeros != [] {
      assert b + zeros == zeros && zeros[1..] == [] + zeros[1..];
      NumberPadded([], zeros[1..]);
    }
  }

  lemma NumberOfBits(b0: bool, b1: bool, b2: bool, b3: bool)
    ensures Number([b0, b1, b2, b3])
         == (if b0 then 1 else 0) + (if b1 then 2 else 0) + (if b2 then 4 else 0) + (if b3 then 8 else 0)
  {
    assert [b0, b1, b2, b3][1..] == [b1, b2, b3] && [b1, b2, b3][1..] == [b2, b3] && [b2, b3][1..] == [b3];
    assert Number([b3]) == if b3 then 1 else 0;
    assert Number([b2, b3]) == (if b2 then 1 else 0) + 2 * Number([b3]);
    assert Number([b1, b2, b3]) == (if b1 then 1 else 0) + 2 * Number([b2, b3]);
  }

  lemma Halves(q: nat)
    ensures q % 16 == 8 * (q / 8 % 2) + 4 * (q / 4 % 2) + 2 * (q / 2 % 2) + q % 2
  {
    var r1, r2, r3 := q / 2, q / 2 / 2, q / 2 / 2 / 2;
    assert r2 == q / 4;
    assert r3 == q / 8;
    var low := 8 * (r3 % 2) + 4 * (r2 % 2) + 2 * (r1 % 2) + q % 2;
    assert q == r3 / 2 * 16 + low;
    DivMod(q, 16, r3 / 2, low);
  }

  lemma NumberOfFour(q: nat)
    ensures Number(Bits(q, 4)) == q % 16
    ensures (forall j :: 0 <= j < 4 ==> !Bits(q, 4)[j]) <==> q % 16 == 0
  {
    FourBits(q);
    NumberOfBits(q % 2 == 1, q / 2 % 2 == 1, q / 4 % 2 == 1, q / 8 % 2 == 1);
    Halves(q);
    var b := Bits(q, 4);
    assert q % 16 == 0 <==> !b[0] && !b[1] && !b[2] && !b[3];
  }

  /** Masking and shifting a word gives the digit at that place, and the mask alone decides whether it is zero. */
  lemma MaskedIsNibble(v: nat, k: nat)
    requires k < 8
    ensures Number(Shr(Masked(Bits(v, WIDTH), k), 4 * k)) == Nibble(v, k)
    ensures IsZero(Masked(Bits(v, WIDTH), k)) <==> Nibble(v, k) == 0
  {
    var w, q := Bits(v, WIDTH), v / Pow(16, k);
    var four := Bits(q, 4);
    BitsOfNibble(v, k, WIDTH);
    NumberOfFour(q);
    var zeros := seq(28, _ => false);
    var x := Masked(w, k);
    assert forall j :: 0 <= j < 4 ==> four[j] == w[4 * k..4 * k + 4][j] == w[4 * k + j] == x[4 * k + j];
    assert forall i :: 0 <= i < WIDTH && !(4 * k <= i < 4 * k + 4) ==> !x[i];
    assert Shr(x, 4 * k) == four + zeros;
    NumberPadded(four, zeros);
    if IsZero(x) {
      assert forall j :: 0 <= j < 4 ==> !four[j];
    } else {
      var i :| 0 <= i < WIDTH && x[i];
      assert four[i - 4 * k];
    }
  }
}
