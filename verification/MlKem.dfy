/** The structurally valid share of the hybrid group (`engine/src/tlseng/mlkem.rs`). */
module MlKem {
  import opened Wrappers
  import opened Bytes
  import opened Bits

  const Q: nat := 3329
  const COEFFS: nat := 768
  const T_HAT_LEN: nat := 1152
  const RHO_LEN: nat := 32
  const X25519_PK_LEN: nat := 32
  const SHARE_LEN: nat := T_HAT_LEN + RHO_LEN + X25519_PK_LEN

  // ------------------------------------------- ByteEncode of FIPS 203, bit by bit

  /** The low `d` bits of a coefficient, least significant first. */
  function CoeffBits(a: nat, d: nat): (s: seq<bool>)
    ensures |s| == d
  {
    if d == 0 then [] else [a % 2 == 1] + CoeffBits(a / 2, d - 1)
  }

  /** The bit string of ByteEncode (section 4.2.1 of FIPS 203): the bits of all coefficients in order. */
  function AllBits(coeffs: seq<nat>): (s: seq<bool>)
  {
    if coeffs == [] then [] else CoeffBits(coeffs[0], 12) + AllBits(coeffs[1..])
  }

  function BitValue(bits: seq<bool>): nat
  {
    if bits == [] then 0 else (if bits[0] then 1 else 0) + 2 * BitValue(bits[1..])
  }

  /** BitsToBytes (section 4.2.1 of FIPS 203): eight bits to a byte. */
  function BitsToBytes(bits: seq<bool>): seq<nat>
  {
    if |bits| < 8 then [] else [BitValue(bits[..8])] + BitsToBytes(bits[8..])
  }

  function ByteEncode(coeffs: seq<nat>): seq<nat>
  {
    BitsToBytes(AllBits(coeffs))
  }

  // ------------------------------------------------------------ packing pairs

  /** Three bytes for two coefficients. */
  function PackPair(a: nat, b: nat): (s: bytes)
    ensures |s| == 3
  {
    [a % 256, (a / 256) % 16 + 16 * (b % 16), (b / 16) % 256]
  }

  function Packed(coeffs: seq<nat>): (s: bytes)
    requires |coeffs| % 2 == 0
    ensures 2 * |s| == 3 * |coeffs|
  {
    if coeffs == [] then [] else PackPair(coeffs[0], coeffs[1]) + Packed(coeffs[2..])
  }

  function Unpacked(s: bytes): (coeffs: seq<nat>)
    requires |s| % 3 == 0
    ensures |coeffs| == |s| / 3 * 2
  {
    if s == [] then []
    else [s[0] as int + 256 * (s[1] as int % 16), s[1] as int / 16 + 16 * s[2] as int] + Unpacked(s[3..])
  }

  lemma {:induction false} ValueOfCoeffBits(a: nat, d: nat)
    ensures BitValue(CoeffBits(a, d)) == Low(a, d)
  {
    if d > 0 {
      ValueOfCoeffBits(a / 2, d - 1);
      assert CoeffBits(a, d)[1..] == CoeffBits(a / 2, d - 1);
    }
  }

  lemma {:induction false} SplitCoeffBits(a: nat, m: nat, n: nat)
    ensures CoeffBits(a, m + n) == CoeffBits(a, m) + CoeffBits(Shifted(a, m), n)
  {
    if m > 0 {
      SplitCoeffBits(a / 2, m - 1, n);
    }
  }

  lemma {:induction false} PrependBit(p: bool, y: seq<bool>)
    ensures BitValue([p] + y) == (if p then 1 else 0) + 2 * BitValue(y)
  {}

  lemma NoBits()
    ensures BitValue([]) == 0
  {}

  lemma ValueOfFourMore(x: seq<bool>, y: seq<bool>)
    requires |x| == 4
    ensures BitValue(x + y) == BitValue(x) + 16 * BitValue(y)
  {
    hide BitValue;
    PrependBit(x[3], y);
    PrependBit(x[2], [x[3]] + y);
    PrependBit(x[1], [x[2]] + ([x[3]] + y));
    PrependBit(x[0], [x[1]] + ([x[2]] + ([x[3]] + y)));
    assert x + y == [x[0]] + ([x[1]] + ([x[2]] + ([x[3]] + y)));
    PrependBit(x[3], []);
    PrependBit(x[2], [x[3]] + []);
    PrependBit(x[1], [x[2]] + ([x[3]] + []));
    PrependBit(x[0], [x[1]] + ([x[2]] + ([x[3]] + [])));
    assert x == [x[0]] + ([x[1]] + ([x[2]] + ([x[3]] + [])));
    NoBits();
  }

  /** The 24 bits of a pair make exactly its three bytes. */
  lemma PairBits(a: nat, b: nat, rest: seq<bool>)
    ensures BitsToBytes(CoeffBits(a, 12) + CoeffBits(b, 12) + rest) == PackPair(a, b) + BitsToBytes(rest)
  {
    hide BitsToBytes, BitValue, CoeffBits, Low, Shifted;
    SplitCoeffBits(a, 8, 4);
    SplitCoeffBits(b, 4, 8);
    EightBits(a);
    FourBits(b);
    var a0, a1 := CoeffBits(a, 8), CoeffBits(a / 256, 4);
    var b0, b1 := CoeffBits(b, 4), CoeffBits(b / 16, 8);
    ValueOfCoeffBits(a, 8);
    ValueOfCoeffBits(a / 256, 4);
    FourBits(a / 256);
    ValueOfCoeffBits(b, 4);
    ValueOfCoeffBits(b / 16, 8);
    EightBits(b / 16);
    ValueOfFourMore(a1, b0);
    ThreeBytes(a0, a1 + b0, b1, rest);
    assert CoeffBits(a, 12) + CoeffBits(b, 12) + rest == a0 + (a1 + b0) + b1 + rest;
  }

  lemma ThreeBytes(x: seq<bool>, y: seq<bool>, z: seq<bool>, rest: seq<bool>)
    requires |x| == |y| == |z| == 8
    ensures BitsToBytes(x + y + z + rest) == [BitValue(x), BitValue(y), BitValue(z)] + BitsToBytes(rest)
  {
    OneByte(x, y + z + rest);
    OneByte(y, z + rest);
    OneByte(z, rest);
    assert x + y + z + rest == x + (y + z + rest) && y + z + rest == y + (z + rest);
  }

  lemma OneByte(x: seq<bool>, rest: seq<bool>)
    requires |x| == 8
    ensures BitsToBytes(x + rest) == [BitValue(x)] + BitsToBytes(rest)
  {}

  /** Packing pair by pair is ByteEncode with twelve bits, for every even number of coefficients; of
      larger values it encodes the low twelve bits. */
  lemma {:induction false} PackedIsByteEncode(coeffs: seq<nat>)
    requires |coeffs| % 2 == 0
    ensures Packed(coeffs) == ByteEncode(coeffs)
    decreases |coeffs|
  {
    if coeffs != [] {
      var rest := coeffs[2..];
      PackedIsByteEncode(rest);
      assert coeffs[1..][1..] == rest;
      assert AllBits(coeffs) == CoeffBits(coeffs[0], 12) + CoeffBits(coeffs[1], 12) + AllBits(rest);
      PairBits(coeffs[0], coeffs[1], AllBits(rest));
    }
  }

  /** Unpacking recovers every coefficient, modulo 2^12. */
  lemma {:induction false} UnpackInvertsPack(coeffs: seq<nat>)
    requires |coeffs| % 2 == 0
    ensures |Unpacked(Packed(coeffs))| == |coeffs|
    ensures forall i :: 0 <= i < |coeffs| ==> Unpacked(Packed(coeffs))[i] == coeffs[i] % 4096
    decreases |coeffs|
  {
    if coeffs != [] {
      var s, back := Packed(coeffs), Unpacked(Packed(coeffs));
      UnpackInvertsPack(coeffs[2..]);
      assert s[3..] == Packed(coeffs[2..]);
      PairRoundTrip(coeffs[0], coeffs[1]);
      assert back[2..] == Unpacked(Packed(coeffs[2..]));
      forall i | 0 <= i < |coeffs|
        ensures back[i] == coeffs[i] % 4096
      {
        if i >= 2 {
          assert back[i] == back[2..][i - 2];
        }
      }
    }
  }

  lemma PairRoundTrip(a: nat, b: nat)
    ensures var s := PackPair(a, b);
            && s[0] as int + 256 * (s[1] as int % 16) == a % 4096
            && s[1] as int / 16 + 16 * s[2] as int == b % 4096
  {
    Nibbles((a / 256) % 16, b % 16);
  }

  lemma Nibbles(low: nat, high: nat)
    requires low < 16 && high < 16
    ensures (low + 16 * high) % 16 == low && (low + 16 * high) / 16 == high
  {}

  lemma PairBack(x: byte, y: byte, z: byte)
    ensures PackPair(x as int + 256 * (y as int % 16), y as int / 16 + 16 * z as int) == [x, y, z]
  {
    var a, b := x as int + 256 * (y as int % 16), y as int / 16 + 16 * z as int;
    assert a / 256 == y as int % 16 && b / 16 == z as int;
  }

  /** The other direction: every byte string of the right length is the packing of what it unpacks to. */
  lemma {:induction false} PackInvertsUnpack(s: bytes)
    requires |s| % 3 == 0
    ensures |Unpacked(s)| % 2 == 0 && Packed(Unpacked(s)) == s
    decreases |s|
  {
    if s != [] {
      PackInvertsUnpack(s[3..]);
      PairBack(s[0], s[1], s[2]);
      hide PackPair;
      assert Unpacked(s)[2..] == Unpacked(s[3..]);
      assert s == [s[0], s[1], s[2]] + s[3..];
    }
  }

  method PutPair(out: array<byte>, at: nat, a: u16, b: u16)
    requires at + 3 <= out.Length
    modifies out
    ensures out[..at + 3] == old(out[..at]) + PackPair(a, b)
    ensures forall i :: at + 3 <= i < out.Length ==> out[i] == old(out[i])
  {
    out[at] := a % 256;
    out[at + 1] := (a / 256) % 16 + 16 * (b % 16);
    out[at + 2] := (b / 16) % 256;
  }

  /** Packs into the front of `out`, pair by pair. */
  method ByteEncode12(coeffs: array<u16>, out: array<byte>)
    requires coeffs.Length % 2 == 0 && coeffs.Length * 3 / 2 <= out.Length
    modifies out
    ensures out[..coeffs.Length * 3 / 2] == Packed(coeffs[..])
    ensures out[coeffs.Length * 3 / 2..] == old(out[coeffs.Length * 3 / 2..])
  {
    var pairs := coeffs.Length / 2;
    for k := 0 to pairs
      invariant out[..3 * k] == Packed(coeffs[..2 * k])
      invariant forall i :: 3 * pairs <= i < out.Length ==> out[i] == old(out[i])
    {
      hide PackPair, Packed;
      var a, b := coeffs[2 * k], coeffs[2 * k + 1];
      PutPair(out, 3 * k, a, b);
      PackedAppend(coeffs[..2 * k], a, b);
      assert coeffs[..2 * (k + 1)] == coeffs[..2 * k] + [a, b];
    }
    assert coeffs[..2 * pairs] == coeffs[..];
  }

  lemma {:induction false} PackedAppend(coeffs: seq<nat>, a: nat, b: nat)
    requires |coeffs| % 2 == 0
    ensures |coeffs + [a, b]| % 2 == 0 && Packed(coeffs + [a, b]) == Packed(coeffs) + PackPair(a, b)
    decreases |coeffs|
  {
    hide PackPair;
    if coeffs == [] {
      assert coeffs + [a, b] == [a, b];
      assert Packed([a, b]) == PackPair(a, b) + Packed([]);
    } else {
      var more := coeffs + [a, b];
      assert more[2..] == coeffs[2..] + [a, b] && more[0] == coeffs[0] && more[1] == coeffs[1];
      PackedAppend(coeffs[2..], a, b);
      assert Packed(more) == PackPair(coeffs[0], coeffs[1]) + Packed(more[2..]);
    }
  }

  // --------------------------------------------------------------- sampling

  /** The 12-bit candidates on an entropy tape, two little-endian bytes each. */
  function Candidates(tape: bytes): seq<nat>
  {
    if |tape| < 2 then []
    else [(tape[0] as int + 256 * tape[1] as int) % 4096] + Candidates(tape[2..])
  }

  /** The candidates that rejection lets through. */
  function Accepted(candidates: seq<nat>): seq<nat>
  {
    if candidates == [] then []
    else (if candidates[0] < Q then [candidates[0]] else []) + Accepted(candidates[1..])
  }

  /** Draws from the tape until a coefficient is in range; fails only if the tape runs out. */
  method SampleCoefficient(tape: bytes, cursor: nat) returns (r: Option<nat>, next: nat)
    requires cursor <= |tape|
    ensures cursor <= next <= |tape|
    ensures r.Some? ==> r.value < Q && Accepted(Candidates(tape[cursor..])) == [r.value] + Accepted(Candidates(tape[next..]))
    ensures r.None? ==> Accepted(Candidates(tape[cursor..])) == []
  {
    next := cursor;
    while next + 2 <= |tape|
      invariant cursor <= next <= |tape|
      invariant Accepted(Candidates(tape[cursor..])) == Accepted(Candidates(tape[next..]))
      decreases |tape| - next
    {
      var v := (tape[next] as int + 256 * tape[next + 1] as int) % 4096;
      assert tape[next..][2..] == tape[next + 2..];
      next := next + 2;
      if v < Q {
        return Some(v), next;
      }
    }
    r := None;
  }

  /** The first 768 accepted candidates of the tape. */
  method SampleCoefficients(tape: bytes) returns (coeffs: array<u16>, ok: bool)
    ensures fresh(coeffs) && coeffs.Length == COEFFS
    ensures ok <==> |Accepted(Candidates(tape))| >= COEFFS
    ensures ok ==> coeffs[..] == Accepted(Candidates(tape))[..COEFFS]
    ensures ok ==> forall k :: 0 <= k < COEFFS ==> coeffs[k] < Q
  {
    hide Accepted, Candidates;
    coeffs := new u16[COEFFS](_ => 0);
    var cursor := 0;
    ghost var all := Accepted(Candidates(tape));
    assert tape[0..] == tape;
    for i := 0 to COEFFS
      invariant cursor <= |tape|
      invariant all == coeffs[..i] + Accepted(Candidates(tape[cursor..]))
      invariant forall k :: 0 <= k < i ==> coeffs[k] < Q
    {
      var c, next := SampleCoefficient(tape, cursor);
      if c.None? {
        return coeffs, false;
      }
      ghost var before := coeffs[..i];
      coeffs[i] := c.value;
      assert coeffs[..i + 1] == before + [c.value];
      cursor := next;
    }
    assert coeffs[..COEFFS] == coeffs[..];
    ok := true;
  }

  /** A share built from an entropy tape: the coefficients are the first 768 accepted candidates, and
      whoever decodes the share finds exactly these, every one below the modulus. */
  method SampleShare(tape: bytes) returns (r: Option<bytes>)
    ensures r.None? <==> |Accepted(Candidates(tape))| < COEFFS
    ensures r.Some? ==>
              && |r.value| == SHARE_LEN
              && Unpacked(r.value[..T_HAT_LEN]) == Accepted(Candidates(tape))[..COEFFS]
              && forall c :: c in Unpacked(r.value[..T_HAT_LEN]) ==> c < Q
  {
    hide Accepted, Candidates, Packed, Unpacked;
    var coeffs, ok := SampleCoefficients(tape);
    if !ok {
      return None;
    }
    var share := new byte[SHARE_LEN](_ => 0);
    ByteEncode12(coeffs, share);
    var noise := RandomBytes(RHO_LEN + X25519_PK_LEN);
    r := Some(share[..T_HAT_LEN] + noise);
    UnpackInvertsPack(coeffs[..]);
    assert r.value[..T_HAT_LEN] == Packed(coeffs[..]);
    assert Unpacked(Packed(coeffs[..])) == coeffs[..];
  }
}
