/** Idealised cryptography: derived secrets are free terms, nonces are bytes, and the AEAD is an
    ideal functionality that opens exactly what was sealed. */
module Crypto {
  import opened Wrappers
  import opened Bytes
  import opened Bits

  // ------------------------------------------------------------------- HKDF

  /** HKDF without collisions: an extraction remembers its salt and input, an expansion its label. */
  datatype Secret =
    | Prk(salt: bytes, ikm: bytes)
    | Expand(prk: Secret, mark: string)

  type Iv = s: bytes | |s| == 12 witness [0, 0, 0, 0, 0, 0, 0, 0, 0, 0, 0, 0]

  /** The twelve bytes a derived secret is used as when it serves as a nonce salt. Nothing is assumed
      about it. */
  type IvOf = Secret -> Iv

  // ------------------------------------------------------------------ nonce

  /** The salt with the big-endian counter XOR-ed into its last eight bytes. */
  function NonceOf(salt: Iv, counter: nat): (nonce: Iv)
  {
    salt[..4] + XorBytes(salt[4..], U64(counter))
  }

  function XorByte(a: byte, b: byte): (r: byte)
  {
    BitwiseBound(Xor, a, b, 8);
    assert Pow2(8) == 256;
    Bitwise(Xor, a, b, 8)
  }

  function XorBytes(a: bytes, b: bytes): (r: bytes)
    requires |a| == |b|
    ensures |r| == |a|
  {
    seq(|a|, i requires 0 <= i < |a| => XorByte(a[i], b[i]))
  }

  lemma XorBytesCancels(a: bytes, b: bytes)
    requires |a| == |b|
    ensures XorBytes(a, XorBytes(a, b)) == b
  {
    forall i | 0 <= i < |a|
      ensures XorByte(a[i], XorByte(a[i], b[i])) == b[i]
    {
      assert Pow2(8) == 256;
      XorCancels(a[i], b[i], 8);
    }
  }

  /** For a fixed salt, different counters give different nonces. */
  lemma NonceInjective(salt: Iv, a: u64, b: u64)
    ensures NonceOf(salt, a) == NonceOf(salt, b) <==> a == b
  {
    if NonceOf(salt, a) == NonceOf(salt, b) {
      var x, y := XorBytes(salt[4..], U64(a)), XorBytes(salt[4..], U64(b));
      assert x == NonceOf(salt, a)[4..] && y == NonceOf(salt, b)[4..];
      XorBytesCancels(salt[4..], U64(a));
      XorBytesCancels(salt[4..], U64(b));
      U64RoundTrip(a, []);
      U64RoundTrip(b, []);
      assert U64(a) + [] == U64(a) && U64(b) + [] == U64(b);
    }
  }

  lemma BitOfU16(n: nat, j: nat, b: nat)
    requires j < 2 && b < 8
    ensures Bit(U16(n)[j], b) <==> Bit(n, 8 * (1 - j) + b)
  {
    if j == 0 {
      EightBits(n);
      EightBits(n / 256);
      BitOfLow(n / 256, 8, b);
      BitOfShifted(n, 8, b);
    } else {
      EightBits(n);
      BitOfLow(n, 8, b);
    }
  }

  lemma BitOfU32(n: nat, j: nat, b: nat)
    requires j < 4 && b < 8
    ensures Bit(U32(n)[j], b) <==> Bit(n, 8 * (3 - j) + b)
  {
    SixteenBits(n);
    if j < 2 {
      BitOfU16(n / U16_SIZE, j, b);
      BitOfShifted(n, 16, 8 * (1 - j) + b);
    } else {
      BitOfU16(n % U16_SIZE, j - 2, b);
      BitOfLow(n, 16, 8 * (3 - j) + b);
    }
  }

  /** Big-endian: byte `j` of eight holds the bits from `8 * (7 - j)` on. */
  lemma BitOfU64(n: nat, j: nat, b: nat)
    requires j < 8 && b < 8
    ensures Bit(U64(n)[j], b) <==> Bit(n, 8 * (7 - j) + b)
  {
    ThirtyTwoBits(n);
    if j < 4 {
      BitOfU32(n / U32_SIZE, j, b);
      BitOfShifted(n, 32, 8 * (3 - j) + b);
    } else {
      BitOfU32(n % U32_SIZE, j - 4, b);
      BitOfLow(n, 32, 8 * (7 - j) + b);
    }
  }

  /** Bit by bit: the first four bytes of the nonce are the salt's; in the other eight, each bit of the salt is
      flipped exactly where the counter, most significant byte first, has a one. */
  lemma NonceBit(salt: Iv, counter: u64, i: nat, b: nat)
    requires i < 12 && b < 8
    ensures Bit(NonceOf(salt, counter)[i], b)
            <==> if i < 4 then Bit(salt[i], b) else Bit(salt[i], b) != Bit(counter, 8 * (11 - i) + b)
  {
    if i >= 4 {
      var masked := XorBytes(salt[4..], U64(counter));
      assert NonceOf(salt, counter)[i] == masked[i - 4] == XorByte(salt[i], U64(counter)[i - 4]);
      BitwiseBit(Xor, salt[i], U64(counter)[i - 4], 8, b);
      BitOfU64(counter, i - 4, b);
    }
  }

  /** The loop both legs use: XOR the counter into a copy of the salt, byte by byte. */
  method BuildNonce(salt: Iv, counter: u64) returns (nonce: Iv)
    ensures nonce == NonceOf(salt, counter)
  {
    var iv: bytes := salt;
    var counterBytes := U64(counter);
    for i := 0 to 8
      invariant |iv| == 12
      invariant forall k :: 0 <= k < 12 ==>
                  iv[k] == if 4 <= k < i + 4 then XorByte(salt[k], counterBytes[k - 4]) else salt[k]
    {
      iv := iv[i + 4 := XorByte(iv[i + 4], counterBytes[i])];
    }
    assert iv == NonceOf(salt, counter);
    nonce := iv;
  }

  // ------------------------------------------------------------------- AEAD

  const TAG_LEN: nat := 16

  datatype Entry = Entry(key: Secret, nonce: Iv, aad: bytes, plain: bytes, ct: bytes)

  predicate Matches(e: Entry, key: Secret, nonce: Iv, aad: bytes, ct: bytes)
  {
    e.key == key && e.nonce == nonce && e.aad == aad && e.ct == ct
  }

  /** The first sealing of this ciphertext under this key, nonce and associated data. */
  function FindEntry(log: seq<Entry>, key: Secret, nonce: Iv, aad: bytes, ct: bytes): (r: Option<nat>)
    ensures r.Some? ==> r.value < |log| && Matches(log[r.value], key, nonce, aad, ct)
    ensures r.None? ==> forall e :: e in log ==> !Matches(e, key, nonce, aad, ct)
  {
    if log == [] then None
    else
      var earlier := FindEntry(log[..|log| - 1], key, nonce, aad, ct);
      if earlier.Some? then earlier
      else if Matches(log[|log| - 1], key, nonce, aad, ct) then Some(|log| - 1)
      else None
  }

  /** Opening succeeds exactly on what has been sealed, and gives the plaintext that was sealed. */
  function OpenIn(log: seq<Entry>, key: Secret, nonce: Iv, aad: bytes, ct: bytes): Option<bytes>
  {
    match FindEntry(log, key, nonce, aad, ct)
    case Some(i) => Some(log[i].plain)
    case None => None
  }

  /** The ideal functionality both ends call. */
  class IdealAead {
    var log: seq<Entry>

    constructor ()
      ensures log == []
    {
      log := [];
    }

    /** The ciphertext is any byte string of the right length. */
    method Seal(key: Secret, nonce: Iv, aad: bytes, plain: bytes) returns (ct: bytes)
      modifies this
      ensures |ct| == |plain| + TAG_LEN
      ensures log == old(log) + [Entry(key, nonce, aad, plain, ct)]
    {
      var noise := RandomBytes(TAG_LEN);
      ct := plain + noise;
      log := log + [Entry(key, nonce, aad, plain, ct)];
    }

    method Open(key: Secret, nonce: Iv, aad: bytes, ct: bytes) returns (plain: Option<bytes>)
      ensures plain == OpenIn(log, key, nonce, aad, ct)
    {
      plain := OpenIn(log, key, nonce, aad, ct);
    }
  }
}
