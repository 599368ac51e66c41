/** Bitwise operators on unsigned integers of a given width, defined bit by bit. */
module Bits {

  function Pow2(n: nat): (r: nat)
    ensures r > 0
  {
    if n == 0 then 1 else 2 * Pow2(n - 1)
  }

  lemma {:induction false} Pow2Add(a: nat, b: nat)
    ensures Pow2(a + b) == Pow2(a) * Pow2(b)
  {
    if a > 0 {
      Pow2Add(a - 1, b);
    }
  }

  predicate Bit(x: nat, i: nat)
  {
    if i == 0 then x % 2 == 1 else Bit(x / 2, i - 1)
  }

  type BitOp = (bool, bool) -> bool

  /** Applies `op` to the low `width` bits of `a` and `b`, position by position. */
  function Bitwise(op: BitOp, a: nat, b: nat, width: nat): (r: nat)
  {
    if width == 0 then 0
    else (if op(a % 2 == 1, b % 2 == 1) then 1 else 0) + 2 * Bitwise(op, a / 2, b / 2, width - 1)
  }

  lemma {:induction false} BitwiseBound(op: BitOp, a: nat, b: nat, width: nat)
    ensures Bitwise(op, a, b, width) < Pow2(width)
  {
    if width > 0 {
      BitwiseBound(op, a / 2, b / 2, width - 1);
    }
  }

  lemma {:induction false} BitwiseBit(op: BitOp, a: nat, b: nat, width: nat, i: nat)
    requires i < width
    ensures Bit(Bitwise(op, a, b, width), i) <==> op(Bit(a, i), Bit(b, i))
  {
    var rest := Bitwise(op, a / 2, b / 2, width - 1);
    assert Bitwise(op, a, b, width) / 2 == rest;
    if i > 0 {
      BitwiseBit(op, a / 2, b / 2, width - 1, i - 1);
    }
  }

  const Xor: BitOp := (p, q) => p != q
  const And: BitOp := (p, q) => p && q
  const Or: BitOp := (p, q) => p || q
  /** `a & !b` */
  const AndNot: BitOp := (p, q) => p && !q

  /** Masking twice with the same value gives the value back. */
  lemma {:induction false} XorCancels(a: nat, b: nat, width: nat)
    requires b < Pow2(width)
    ensures Bitwise(Xor, a, Bitwise(Xor, a, b, width), width) == b
  {
    if width > 0 {
      var x := Bitwise(Xor, a, b, width);
      assert x % 2 == (if a % 2 != b % 2 then 1 else 0) && x / 2 == Bitwise(Xor, a / 2, b / 2, width - 1);
      XorCancels(a / 2, b / 2, width - 1);
    }
  }

  lemma {:induction false} BitOfPow2(k: nat, i: nat)
    ensures Bit(Pow2(k), i) <==> i == k
  {
    if k == 0 {
      BitOfZero(i);
    } else {
      assert Pow2(k) / 2 == Pow2(k - 1) && Pow2(k) % 2 == 0;
      if i > 0 {
        BitOfPow2(k - 1, i - 1);
      }
    }
  }

  lemma {:induction false} BitOfZero(i: nat)
    ensures !Bit(0, i)
    ensures i > 0 ==> !Bit(1, i)
  {
    if i > 0 {
      BitOfZero(i - 1);
    }
  }

  /** `x & (2^bits - 1)` and `x & !(2^bits - 1)` are the remainder of `x` by `2^bits` and the rest. */
  lemma {:induction false} LowAndHighBits(x: nat, bits: nat, width: nat)
    requires bits <= width && x < Pow2(width)
    ensures Bitwise(And, x, Pow2(bits) - 1, width) == x % Pow2(bits)
    ensures Bitwise(AndNot, x, Pow2(bits) - 1, width) == x - x % Pow2(bits)
  {
    if bits == 0 {
      AndZero(x, width);
    } else {
      var m := Pow2(bits) - 1;
      assert m % 2 == 1 && m / 2 == Pow2(bits - 1) - 1;
      var low, high := Bitwise(And, x / 2, m / 2, width - 1), Bitwise(AndNot, x / 2, m / 2, width - 1);
      assert Bitwise(And, x, m, width) == x % 2 + 2 * low && Bitwise(AndNot, x, m, width) == 2 * high;
      LowAndHighBits(x / 2, bits - 1, width - 1);
      HalveMod(x, Pow2(bits - 1));
      hide Bitwise;
    }
  }

  lemma {:induction false} AndZero(x: nat, width: nat)
    requires x < Pow2(width)
    ensures Bitwise(And, x, 0, width) == 0
    ensures Bitwise(AndNot, x, 0, width) == x
  {
    if width > 0 {
      AndZero(x / 2, width - 1);
    }
  }

  lemma HalveMod(x: nat, p: nat)
    requires p > 0
    ensures x % (2 * p) == 2 * (x / 2 % p) + x % 2
  {
    var q, r := x / 2 / p, x / 2 % p;
    assert x / 2 == q * p + r;
    assert x == q * (2 * p) + (2 * r + x % 2);
    ModIs(x, q, 2 * r + x % 2, 2 * p);
  }

  lemma ModIs(a: int, q: int, r: int, w: int)
    requires w > 0 && a == q * w + r && 0 <= r < w
    ensures a % w == r && a / w == q
  {
    var d := q - a / w;
    assert d * w == a % w - r;
    if d != 0 {
      BigMultiple(d, w);
      assert false;
    }
  }

  lemma BigMultiple(d: int, w: int)
    requires w > 0 && d != 0
    ensures d * w >= w || d * w <= -w
  {}

  /** Or-ing values without a common bit adds them: the high bits of one number with the low bits of another. */
  lemma {:induction false} JoinHighAndLow(high: nat, low: nat, bits: nat, width: nat)
    requires bits <= width && high < Pow2(width) && high % Pow2(bits) == 0 && low < Pow2(bits)
    ensures Bitwise(Or, high, low, width) == high + low
  {
    if bits == 0 {
      OrZero(high, width);
    } else {
      HalveMod(high, Pow2(bits - 1));
      JoinHighAndLow(high / 2, low / 2, bits - 1, width - 1);
    }
  }

  lemma {:induction false} OrZero(x: nat, width: nat)
    requires x < Pow2(width)
    ensures Bitwise(Or, x, 0, width) == x
  {
    if width > 0 {
      OrZero(x / 2, width - 1);
    }
  }

  /** The low `d` bits of a number. */
  function Low(a: nat, d: nat): nat
  {
    if d == 0 then 0 else a % 2 + 2 * Low(a / 2, d - 1)
  }

  /** The number without its low `m` bits. */
  function Shifted(a: nat, m: nat): nat
  {
    if m == 0 then a else Shifted(a / 2, m - 1)
  }

  lemma TwoBits(a: nat, n: nat)
    ensures Low(a, n + 2) == a % 4 + 4 * Low(a / 4, n)
    ensures Shifted(a, n + 2) == Shifted(a / 4, n)
  {}

  lemma FourBits(a: nat)
    ensures Low(a, 4) == a % 16 && Shifted(a, 4) == a / 16
  {
    TwoBits(a, 2);
    TwoBits(a / 4, 0);
    assert a / 4 / 4 == a / 16;
  }

  lemma EightBits(a: nat)
    ensures Low(a, 8) == a % 256 && Shifted(a, 8) == a / 256
  {
    TwoBits(a, 6);
    TwoBits(a / 4, 4);
    FourBits(a / 16);
    assert a / 4 / 4 == a / 16 && a / 16 / 16 == a / 256;
  }

  lemma Digits(a: nat)
    ensures a / 4 / 4 == a / 16 && a / 16 / 4 == a / 64 && a / 64 / 4 == a / 256
    ensures a % 256 == a % 4 + 4 * (a / 4 % 4) + 16 * (a / 16 % 4) + 64 * (a / 64 % 4)
  {}

  lemma EightMore(a: nat, n: nat)
    ensures Low(a, n + 8) == a % 256 + 256 * Low(a / 256, n) && Shifted(a, n + 8) == Shifted(a / 256, n)
  {
    Digits(a);
    TwoBits(a, n + 6);
    TwoBits(a / 4, n + 4);
    TwoBits(a / 16, n + 2);
    TwoBits(a / 64, n);
    hide Low, Shifted;
  }

  lemma Bytewise(a: nat)
    ensures a / 256 / 256 == a / 0x1_0000 && a % 0x1_0000 == a % 256 + 256 * (a / 256 % 256)
  {}

  lemma SixteenBits(a: nat)
    ensures Low(a, 16) == a % 0x1_0000 && Shifted(a, 16) == a / 0x1_0000
  {
    hide Low, Shifted;
    Bytewise(a);
    EightMore(a, 8);
    EightBits(a / 256);
  }

  lemma Wordwise(a: nat)
    ensures a / 0x1_0000 / 0x1_0000 == a / 0x1_0000_0000
    ensures a % 0x1_0000_0000 == a % 0x1_0000 + 0x1_0000 * (a / 0x1_0000 % 0x1_0000)
  {}

  lemma ThirtyTwoBits(a: nat)
    ensures Low(a, 32) == a % 0x1_0000_0000 && Shifted(a, 32) == a / 0x1_0000_0000
  {
    hide Low, Shifted;
    Bytewise(a);
    Wordwise(a);
    EightMore(a, 24);
    EightMore(a / 256, 16);
    SixteenBits(a / 0x1_0000);
  }

  lemma {:induction false} BitOfShifted(x: nat, k: nat, b: nat)
    ensures Bit(Shifted(x, k), b) <==> Bit(x, k + b)
  {
    if k > 0 {
      BitOfShifted(x / 2, k - 1, b);
    }
  }

  lemma {:induction false} BitOfLow(x: nat, k: nat, b: nat)
    requires b < k
    ensures Bit(Low(x, k), b) <==> Bit(x, b)
  {
    if b > 0 {
      BitOfLow(x / 2, k - 1, b - 1);
    }
  }
}
