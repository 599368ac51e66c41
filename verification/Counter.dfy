/** Counter truncation and reconstruction (`engine/src/nrxp/datagram.rs`, lines 60-98). */
module Counter {
  import opened Bytes
  import opened Bits

  function TruncateCounter(full: u64, bits: nat): (r: u64)
    requires 1 <= bits < 64
  {
    BitwiseBound(And, full, Pow2(bits) - 1, 64);
    SixtyFourBits();
    Bitwise(And, full, Pow2(bits) - 1, 64)
  }

  function ExpandCounter(highest: u64, truncated: u64, bits: nat): (r: nat)
    requires 1 <= bits < 64
  {
    var window := Pow2(bits);
    var mask := window - 1;
    var half := window / 2;
    var candidate := Bitwise(Or, Bitwise(AndNot, highest, mask, 64), Bitwise(And, truncated, mask, 64), 64);
    if candidate + half <= highest then
      candidate + window
    else if candidate > highest + half && candidate >= window then
      candidate - window
    else
      candidate
  }

  // ------------------------------------------- the masks, as arithmetic

  function Mod(n: nat, w: int): (r: nat)
    requires w > 0
    ensures r < w && r <= n
  {
    n % w
  }

  /** The low `bits` bits of `n`. */
  function LowBits(n: nat, bits: nat): (r: nat)
    ensures r < Pow2(bits) && r <= n
  {
    Mod(n, Pow2(bits))
  }

  lemma SixtyFourBits()
    ensures Pow2(64) == U64_SIZE
  {
    assert Pow2(8) == 0x100;
    Pow2Add(8, 8);
    Pow2Add(16, 16);
    Pow2Add(32, 32);
  }

  lemma TruncateIsMod(full: u64, bits: nat)
    requires 1 <= bits < 64
    ensures TruncateCounter(full, bits) == LowBits(full, bits)
  {
    SixtyFourBits();
    LowAndHighBits(full, bits, 64);
  }

  /** The candidate: the high bits of `highest` over the low bits of the wire value. */
  lemma CandidateBits(highest: u64, truncated: u64, bits: nat)
    requires 1 <= bits < 64
    ensures Bitwise(Or, Bitwise(AndNot, highest, Pow2(bits) - 1, 64), Bitwise(And, truncated, Pow2(bits) - 1, 64), 64)
            == highest - LowBits(highest, bits) + LowBits(truncated, bits)
  {
    SixtyFourBits();
    LowAndHighBits(highest, bits, 64);
    LowAndHighBits(truncated, bits, 64);
    var w := Pow2(bits);
    DivMod(highest, w);
    ModIs(highest - highest % w, highest / w, 0, w);
    JoinHighAndLow(highest - highest % w, truncated % w, bits, 64);
  }

  ghost predicate Congruent(a: int, b: int, window: int)
    requires window > 0
  {
    a % window == b % window
  }

  lemma DivMod(a: int, w: int)
    requires w > 0
    ensures a == (a / w) * w + a % w && 0 <= a % w < w
  {}

  lemma ModShift(a: int, k: int, w: int)
    requires w > 0
    ensures (a + k * w) % w == a % w
  {
    DivMod(a, w);
    assert a + k * w == (a / w + k) * w + a % w;
    ModIs(a + k * w, a / w + k, a % w, w);
  }

  /** Values with the same residue are equal or at least one window apart. */
  lemma CongruentGap(a: int, b: int, w: int)
    requires w > 0 && Congruent(a, b, w)
    ensures a == b || a - b >= w || b - a >= w
  {
    DivMod(a, w);
    DivMod(b, w);
    assert a - b == (a / w - b / w) * w;
    if a / w != b / w {
      BigMultiple(a / w - b / w, w);
    }
  }

  lemma HalfWindow(bits: nat)
    requires bits >= 1
    ensures Pow2(bits) == 2 * Pow2(bits - 1) && Pow2(bits) / 2 == Pow2(bits - 1)
  {}

  /** The candidate shares its residue with the wire value and lies within one window of `highest`. */
  lemma CandidateIsNear(highest: nat, truncated: nat, bits: nat)
    ensures var c := highest - LowBits(highest, bits) + LowBits(truncated, bits);
            var w: int := Pow2(bits);
            && 0 <= c && -w < c - highest < w
            && Congruent(c, truncated, w)
            && Congruent(c + w, truncated, w)
            && Congruent(c - w, truncated, w)
  {
    CandidateModulo(highest, truncated, Pow2(bits));
  }

  lemma CandidateModulo(highest: nat, truncated: nat, w: int)
    requires w > 0
    ensures var c := highest - Mod(highest, w) + Mod(truncated, w);
            && 0 <= c && -w < c - highest < w
            && Congruent(c, truncated, w)
            && Congruent(c + w, truncated, w)
            && Congruent(c - w, truncated, w)
  {
    DivMod(highest, w);
    DivMod(truncated, w);
    var c := highest - Mod(highest, w) + Mod(truncated, w);
    var k := highest / w - truncated / w;
    assert c == truncated + k * w;
    ModShift(truncated, k, w);
    ModShift(c, 1, w);
    ModShift(c, -1, w);
  }

  /** `r` lies in the window centred on `centre`, or in the first window with nothing nearer below. */
  ghost predicate Centred(r: nat, centre: nat, w: int)
  {
    centre < r + w / 2 && (r <= centre + w / 2 || r < w)
  }

  lemma ExpandIsCentred(highest: u64, truncated: u64, bits: nat)
    requires 1 <= bits < 64
    ensures Congruent(ExpandCounter(highest, truncated, bits), truncated, Pow2(bits))
    ensures Centred(ExpandCounter(highest, truncated, bits), highest, Pow2(bits))
    ensures ExpandCounter(highest, truncated, bits) <= highest + Pow2(bits)
  {
    HalfWindow(bits);
    CandidateBits(highest, truncated, bits);
    CandidateIsNear(highest, truncated, bits);
  }

  /** What the reconstruction returns: of all the non-negative counters with the residue on the wire
      the one nearest to `highest`, and of two equally near ones the larger. */
  lemma ExpandIsNearest(highest: u64, truncated: u64, bits: nat)
    requires 1 <= bits < 64
    ensures Congruent(ExpandCounter(highest, truncated, bits), truncated, Pow2(bits))
    ensures forall f: nat :: Congruent(f, truncated, Pow2(bits)) && f != ExpandCounter(highest, truncated, bits) ==>
              Nearer(ExpandCounter(highest, truncated, bits), f, highest)
  {
    var w := Pow2(bits);
    var r := ExpandCounter(highest, truncated, bits);
    HalfWindow(bits);
    ExpandIsCentred(highest, truncated, bits);
    forall f: nat | Congruent(f, truncated, w) && f != r
      ensures Nearer(r, f, highest)
    {
      CongruentGap(f, r, w);
    }
  }

  /** `a` is strictly preferred to `b`: it is nearer to `centre`, or as near and larger. */
  ghost predicate Nearer(a: nat, b: nat, centre: nat)
  {
    Distance(a, centre) < Distance(b, centre) || (Distance(a, centre) == Distance(b, centre) && a > b)
  }

  function Distance(a: nat, b: nat): nat
  {
    if a >= b then a - b else b - a
  }

  /** Exactly which counters survive truncation and reconstruction: those less than half a window
      behind `highest` and at most half a window ahead, or anywhere in the very first window when
      there is nothing nearer below it. */
  lemma ExpandInvertsTruncate(highest: u64, full: u64, bits: nat)
    requires 1 <= bits < 64
    ensures ExpandCounter(highest, TruncateCounter(full, bits), bits) == full <==>
            highest < full + Pow2(bits - 1) && (full <= highest + Pow2(bits - 1) || full < Pow2(bits))
  {
    var w := Pow2(bits);
    var t := TruncateCounter(full, bits);
    HalfWindow(bits);
    TruncateIsMod(full, bits);
    ModOfMod(full, w);
    ExpandIsCentred(highest, t, bits);
    CongruentGap(full, ExpandCounter(highest, t, bits), w);
  }

  lemma ModOfMod(n: nat, w: int)
    requires w > 0
    ensures Congruent(Mod(n, w), n, w)
  {}

  /** Nothing overflows: while `highest` is two windows below 2^64, every intermediate value fits `u64`. */
  lemma ExpandFitsU64(highest: u64, truncated: u64, bits: nat)
    requires 1 <= bits < 64
    requires highest + 2 * Pow2(bits) <= U64_SIZE
    ensures Bitwise(Or, Bitwise(AndNot, highest, Pow2(bits) - 1, 64), Bitwise(And, truncated, Pow2(bits) - 1, 64), 64)
            + Pow2(bits) < U64_SIZE
    ensures highest + Pow2(bits) / 2 < U64_SIZE
    ensures ExpandCounter(highest, truncated, bits) < U64_SIZE
  {
    CandidateBits(highest, truncated, bits);
    CandidateIsNear(highest, truncated, bits);
    HalfWindow(bits);
  }

  // ------------------------------------------------- Appendix A.3 of RFC 9000

  const TWO_TO_THE_62: nat := 0x4000_0000_0000_0000

  /** The sample packet number decoding algorithm of Appendix A.3 of RFC 9000. */
  function DecodePacketNumber(largest: nat, truncated: nat, bits: nat): (r: nat)
    requires 1 <= bits < 62
  {
    var expected := largest + 1;
    var window := Pow2(bits);
    var half := window / 2;
    var candidate := expected - LowBits(expected, bits) + LowBits(truncated, bits);
    if candidate <= expected - half && candidate < TWO_TO_THE_62 - window then
      candidate + window
    else if candidate > expected + half && candidate >= window then
      candidate - window
    else
      candidate
  }

  lemma DecodeIsCentred(largest: nat, truncated: nat, bits: nat)
    requires 1 <= bits < 62
    requires largest + 1 + Pow2(bits) < TWO_TO_THE_62
    ensures Congruent(DecodePacketNumber(largest, truncated, bits), truncated, Pow2(bits))
    ensures Centred(DecodePacketNumber(largest, truncated, bits), largest + 1, Pow2(bits))
  {
    HalfWindow(bits);
    CandidateIsNear(largest + 1, truncated, bits);
  }

  lemma CentresOneApart(r: nat, d: nat, highest: nat, truncated: nat, w: int, half: int)
    requires w == 2 * half && half > 0
    requires Congruent(r, truncated, w) && Centred(r, highest, w)
    requires Congruent(d, truncated, w) && Centred(d, highest + 1, w)
    ensures r == d <==> !(Congruent(truncated, highest + 1 + half, w) && highest + 1 >= half)
  {
    CongruentGap(r, d, w);
    var edge := highest + 1 + half;
    if Congruent(truncated, edge, w) {
      CongruentGap(r, edge, w);
      CongruentGap(d, edge, w);
    } else if r != d {
      ModShift(r, 1, w);
    }
  }

  /** The reconstruction is centred on `highest`, the RFC's on `highest + 1`: they differ for exactly
      one residue, that of `highest + 1 + window / 2`, and only once a full half window lies below. */
  lemma ExpandVersusRfc9000(highest: u64, truncated: u64, bits: nat)
    requires 1 <= bits < 62
    requires highest + 1 + Pow2(bits) < TWO_TO_THE_62
    ensures ExpandCounter(highest, truncated, bits) == DecodePacketNumber(highest, truncated, bits) <==>
            !(Congruent(truncated, highest + 1 + Pow2(bits - 1), Pow2(bits)) && highest + 1 >= Pow2(bits - 1))
  {
    HalfWindow(bits);
    ExpandIsCentred(highest, truncated, bits);
    DecodeIsCentred(highest, truncated, bits);
    CentresOneApart(ExpandCounter(highest, truncated, bits), DecodePacketNumber(highest, truncated, bits),
                    highest, truncated, Pow2(bits), Pow2(bits - 1));
  }
}
