/** The per-connection quantiser of record lengths (`engine/src/nrxp/codec.rs`, lines 40-169 and 283-296).

    The floating-point ratio is a real number; all that is used of a draw is its range. */
module PadShapers {
  import opened Frames

  const AEAD_TAG_LEN: nat := 16
  const MAX_RECORD_LEN: nat := MAX_RECORD_PLAINTEXT + AEAD_TAG_LEN
  const FLOOR_LOW: nat := 64
  const FLOOR_HIGH: nat := 256
  const MIN_GAP: nat := 16
  const GAP_RATIO_LOW: real := 0.05
  const GAP_RATIO_HIGH: real := 0.25
  const GAP_CAP_LOW: nat := 128
  const GAP_CAP_HIGH: nat := 320

  method RandomNat(low: nat, high: nat) returns (r: nat)
    requires low <= high
    ensures low <= r <= high
  {
    r := low;
  }

  method RandomRatio(low: real, high: real) returns (r: real)
    requires low <= high
    ensures low <= r <= high
  {
    r := low;
  }

  /** Strictly increasing, from a low floor up to the longest record there is, without large gaps. */
  ghost predicate ValidBoundaries(b: seq<nat>)
  {
    && |b| > 0 && FLOOR_LOW <= b[0] <= FLOOR_HIGH && b[|b| - 1] == MAX_RECORD_LEN
    && forall i :: 0 <= i < |b| - 1 ==> b[i] < b[i + 1] <= b[i] + GAP_CAP_HIGH
  }

  function Clamp(x: int, low: int, high: int): (r: int)
    requires low <= high
    ensures low <= r <= high
  {
    if x < low then low else if x > high then high else x
  }

  /** A gap lies between a twentieth and a quarter of the boundary before it, except that it is never below
      the minimum, and that a cap of 128 to 320 bytes may cut it. */
  predicate GapInRange(boundary: nat, next: nat)
  {
    && boundary + MIN_GAP <= next <= boundary + GAP_CAP_HIGH
    && (next > boundary + MIN_GAP ==> 4 * next <= 5 * boundary)
    && (next < boundary + GAP_CAP_LOW ==> 21 * boundary < 20 * (next + 1))
  }

  function Share(boundary: nat, ratio: real): (x: real)
    requires GAP_RATIO_LOW <= ratio <= GAP_RATIO_HIGH
    ensures boundary as real * 0.05 <= x <= boundary as real * 0.25
  {
    var b := boundary as real;
    assert b * 0.05 <= b * ratio;
    assert b * ratio <= b * 0.25;
    b * ratio
  }

  lemma DrawnGap(boundary: nat, x: real, cap: nat)
    requires boundary as real * 0.05 <= x <= boundary as real * 0.25 && GAP_CAP_LOW <= cap <= GAP_CAP_HIGH
    ensures GapInRange(boundary, boundary + Clamp(x.Floor, MIN_GAP, cap))
  {
    FloorBounds(boundary, x);
  }

  lemma FloorBounds(boundary: nat, x: real)
    requires boundary as real * 0.05 <= x <= boundary as real * 0.25
    ensures x.Floor >= 0 && 4 * x.Floor <= boundary < 20 * (x.Floor + 1)
  {
    var low, high: real := x.Floor as real, (x.Floor + 1) as real;
    assert low <= x < high;
    var b: real := boundary as real;
    assert 4.0 * low <= b && b < 20.0 * high;
    assert (4 * x.Floor) as real == 4.0 * low && (20 * (x.Floor + 1)) as real == 20.0 * high;
  }

  method DrawGap(current: nat) returns (gap: nat)
    ensures GapInRange(current, current + gap)
  {
    var ratio := RandomRatio(GAP_RATIO_LOW, GAP_RATIO_HIGH);
    var cap := RandomNat(GAP_CAP_LOW, GAP_CAP_HIGH);
    var share := Share(current, ratio);
    DrawnGap(current, share, cap);
    gap := Clamp(share.Floor, MIN_GAP, cap);
  }

  /** Draws the boundaries of one connection. */
  method NewBoundaries() returns (boundaries: seq<nat>)
    ensures ValidBoundaries(boundaries)
    ensures forall i :: 0 <= i < |boundaries| - 2 ==> GapInRange(boundaries[i], boundaries[i + 1])
  {
    var current := RandomNat(FLOOR_LOW, FLOOR_HIGH);
    boundaries := [];
    while current < MAX_RECORD_LEN
      invariant FLOOR_LOW <= current
      invariant boundaries == [] ==> FLOOR_LOW <= current <= FLOOR_HIGH
      invariant boundaries != [] ==>
                  && FLOOR_LOW <= boundaries[0] <= FLOOR_HIGH
                  && boundaries[|boundaries| - 1] < MAX_RECORD_LEN
                  && GapInRange(boundaries[|boundaries| - 1], current)
      invariant forall i :: 0 <= i < |boundaries| - 1 ==> GapInRange(boundaries[i], boundaries[i + 1])
      decreases MAX_RECORD_LEN - current
    {
      boundaries := boundaries + [current];
      var gap := DrawGap(current);
      current := current + gap;
    }
    boundaries := boundaries + [MAX_RECORD_LEN];
  }

  // ------------------------------------------------------------- quantising

  ghost predicate Sorted(b: seq<nat>)
  {
    forall i, j :: 0 <= i < j < |b| ==> b[i] < b[j]
  }

  lemma {:induction false} StepsAreSorted(b: seq<nat>, i: nat, j: nat)
    requires forall k :: 0 <= k < |b| - 1 ==> b[k] < b[k + 1]
    requires i < j < |b|
    ensures b[i] < b[j]
    decreases j - i
  {
    if i + 1 < j {
      StepsAreSorted(b, i + 1, j);
    }
  }

  lemma BoundariesAreSorted(b: seq<nat>)
    requires ValidBoundaries(b)
    ensures Sorted(b)
  {
    forall i, j | 0 <= i < j < |b| ensures b[i] < b[j] {
      StepsAreSorted(b, i, j);
    }
  }

  /** The first boundary not below `x`; `x` itself if there is none. */
  function Ceiling(b: seq<nat>, x: nat): nat
  {
    if b == [] then x else if b[0] >= x then b[0] else Ceiling(b[1..], x)
  }

  function TargetRecordLen(b: seq<nat>, plainLen: nat): nat
  {
    if plainLen + AEAD_TAG_LEN >= MAX_RECORD_LEN then plainLen + AEAD_TAG_LEN
    else Ceiling(b, plainLen + AEAD_TAG_LEN)
  }

  /** The position of `x`, or the one where it would be inserted. */
  method BinarySearch(b: seq<nat>, x: nat) returns (found: bool, idx: nat)
    requires Sorted(b)
    ensures idx <= |b|
    ensures found ==> idx < |b| && b[idx] == x
    ensures !found ==> (forall i :: 0 <= i < idx ==> b[i] < x) && (forall i :: idx <= i < |b| ==> b[i] > x)
  {
    var low, high := 0, |b|;
    while low < high
      invariant 0 <= low <= high <= |b|
      invariant forall i :: 0 <= i < low ==> b[i] < x
      invariant forall i :: high <= i < |b| ==> b[i] > x
    {
      var mid := (low + high) / 2;
      if b[mid] < x {
        low := mid + 1;
      } else if b[mid] > x {
        high := mid;
      } else {
        return true, mid;
      }
    }
    return false, low;
  }

  /** The search finds the least boundary at or above the record's length. */
  method ComputeTargetRecordLen(b: seq<nat>, plainLen: nat) returns (target: nat)
    requires ValidBoundaries(b)
    ensures target == TargetRecordLen(b, plainLen)
  {
    var recordLen := plainLen + AEAD_TAG_LEN;
    if recordLen >= MAX_RECORD_LEN {
      return recordLen;
    }
    BoundariesAreSorted(b);
    var found, idx := BinarySearch(b, recordLen);
    assert idx < |b|;
    CeilingIs(b, recordLen, idx);
    target := b[idx];
  }

  lemma {:induction false} CeilingIs(b: seq<nat>, x: nat, idx: nat)
    requires idx < |b| && b[idx] >= x && forall i :: 0 <= i < idx ==> b[i] < x
    ensures Ceiling(b, x) == b[idx]
  {
    if idx > 0 {
      CeilingIs(b[1..], x, idx - 1);
    }
  }

  /** Where the target comes from: a boundary, with every smaller boundary below the record. */
  lemma CeilingWitness(b: seq<nat>, x: nat) returns (idx: nat)
    requires ValidBoundaries(b) && x <= MAX_RECORD_LEN
    ensures idx < |b| && Ceiling(b, x) == b[idx] >= x
    ensures forall i :: 0 <= i < idx ==> b[i] < x
  {
    idx := 0;
    while b[idx] < x
      invariant idx < |b|
      invariant forall i :: 0 <= i < idx ==> b[i] < x
      decreases |b| - idx
    {
      idx := idx + 1;
    }
    CeilingIs(b, x, idx);
  }

  /** The quantiser: the target is never shorter than the record, is the least boundary not below it,
      grows with the record, is its own target, and adds less than the bound on gaps and floor. */
  lemma TargetIsQuantised(b: seq<nat>, plainLen: nat, longer: nat)
    requires ValidBoundaries(b) && plainLen <= longer && plainLen <= MAX_RECORD_PLAINTEXT
    ensures var t := TargetRecordLen(b, plainLen);
            && plainLen + AEAD_TAG_LEN <= t <= MAX_RECORD_LEN
            && t in b
            && (forall c :: c in b && c >= plainLen + AEAD_TAG_LEN ==> t <= c)
            && t <= TargetRecordLen(b, longer)
            && TargetRecordLen(b, t - AEAD_TAG_LEN) == t
            && t - (plainLen + AEAD_TAG_LEN) < GAP_CAP_HIGH
  {
    BoundariesAreSorted(b);
    var x := plainLen + AEAD_TAG_LEN;
    var idx := CeilingWitness(b, x);
    assert b[idx] <= MAX_RECORD_LEN;
    assert x == MAX_RECORD_LEN ==> b[|b| - 1] == x;
    if x < MAX_RECORD_LEN {
      CeilingIs(b, b[idx], idx);
      if idx > 0 {
        assert b[idx] <= b[idx - 1] + GAP_CAP_HIGH;
      }
      if longer + AEAD_TAG_LEN < MAX_RECORD_LEN {
        var idx2 := CeilingWitness(b, longer + AEAD_TAG_LEN);
        assert idx <= idx2;
      }
    }
  }

  /** The padding the codec asks for, guards included. */
  function PadFor(b: seq<nat>, plainLen: nat): (pad: nat)
    requires plainLen <= MAX_RECORD_PLAINTEXT
  {
    var target := TargetRecordLen(b, plainLen);
    var wanted := if target >= plainLen + AEAD_TAG_LEN then target - (plainLen + AEAD_TAG_LEN) else 0;
    if wanted <= MAX_RECORD_PLAINTEXT - plainLen then wanted else MAX_RECORD_PLAINTEXT - plainLen
  }

  /** Neither guard ever bites: the padded record is exactly as long as its target. */
  lemma PaddedRecordHitsTarget(b: seq<nat>, plainLen: nat)
    requires ValidBoundaries(b) && plainLen <= MAX_RECORD_PLAINTEXT
    ensures plainLen + PadFor(b, plainLen) + AEAD_TAG_LEN == TargetRecordLen(b, plainLen) <= MAX_RECORD_LEN
    ensures PadFor(b, plainLen) < GAP_CAP_HIGH
  {
    TargetIsQuantised(b, plainLen, plainLen);
  }
}
