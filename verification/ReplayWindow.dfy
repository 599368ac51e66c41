/** The anti-replay window of one epoch (`engine/src/nrxp/datagram.rs`, lines 106-192).

    `Window` is the abstract value: one Boolean per slot. `ReplayWindow` is the circular bitmap of
    64-bit words itself, proved to implement it. `Refines` says what either means: a plain set of
    counters seen so far. The number of words is a parameter. */
module ReplayWindows {
  import opened Bytes
  import opened Bits
  import C = Counter

  // ---------------------------------------------------------- abstract value

  datatype Window = Window(initialized: bool, highest: u64, bits: seq<bool>)

  function EmptyWindow(size: nat): Window
  {
    Window(false, 0, seq(size, _ => false))
  }

  function Slot(counter: int, size: int): (s: nat)
    requires size > 0
    ensures s < size
  {
    counter % size
  }

  /** Clears the slots of the counters `from..=last`, one after the other. */
  function Cleared(bits: seq<bool>, from: nat, last: nat): (r: seq<bool>)
    requires |bits| > 0
    ensures |r| == |bits|
    decreases last + 1 - from
  {
    if from > last then bits else Cleared(bits[Slot(from, |bits|) := false], from + 1, last)
  }

  function Advanced(w: Window, shift: nat): (r: seq<bool>)
    requires |w.bits| > 0
    ensures |r| == |w.bits|
  {
    if shift >= |w.bits| then seq(|w.bits|, _ => false)
    else Cleared(w.bits, w.highest + 1, w.highest + shift)
  }

  function AcceptIn(w: Window, counter: u64): (r: (Window, bool))
    requires |w.bits| > 0
    ensures |r.0.bits| == |w.bits|
  {
    var slot := Slot(counter, |w.bits|);
    if !w.initialized then
      (Window(true, counter, w.bits[slot := true]), true)
    else if counter > w.highest then
      (Window(true, counter, Advanced(w, counter - w.highest)[slot := true]), true)
    else if w.highest - counter >= |w.bits| then
      (w, false)
    else
      (w.(bits := w.bits[slot := true]), !w.bits[slot])
  }

  // -------------------------------------------------- the set it stands for

  /** The window is a faithful summary of the set of counters accepted so far. */
  ghost predicate Refines(w: Window, seen: set<nat>)
  {
    && |w.bits| > 0
    && (w.initialized <==> seen != {})
    && (!w.initialized ==> w.highest == 0 && forall i :: 0 <= i < |w.bits| ==> !w.bits[i])
    && (w.initialized ==> w.highest in seen && forall c :: c in seen ==> c <= w.highest)
    && (w.initialized ==> SlotsMatch(w.bits, w.highest, seen))
  }

  /** The slots of the last `|bits|` counters up to `highest` say which of them are in `seen`;
      counters below zero count as absent. */
  ghost predicate SlotsMatch(bits: seq<bool>, highest: nat, seen: set<nat>)
    requires |bits| > 0
  {
    forall c: int {:trigger Slot(c, |bits|)} :: highest - |bits| < c <= highest ==>
      (bits[Slot(c, |bits|)] <==> c >= 0 && c in seen)
  }

  /** Counters less than one window apart have slots of their own. */
  lemma SlotsDistinct(a: int, b: int, size: int)
    requires size > 0 && -size < a - b < size
    ensures Slot(a, size) == Slot(b, size) <==> a == b
  {
    if Slot(a, size) == Slot(b, size) {
      C.CongruentGap(a, b, size);
    }
  }

  /** Moving the window clears exactly the slots of the counters that enter it. */
  lemma {:induction false} ClearsExactlyWhatEnters(bits: seq<bool>, from: nat, last: nat, c: int)
    requires |bits| > 0 && from <= last + 1 && last + 1 - from < |bits|
    requires last - |bits| < c <= last
    ensures Cleared(bits, from, last)[Slot(c, |bits|)] <==> c < from && bits[Slot(c, |bits|)]
    decreases last + 1 - from
  {
    if from <= last {
      SlotsDistinct(from, c, |bits|);
      ClearsExactlyWhatEnters(bits[Slot(from, |bits|) := false], from + 1, last, c);
    }
  }

  lemma AdvanceMatches(w: Window, counter: u64, seen: set<nat>)
    requires Refines(w, seen) && w.initialized && counter > w.highest
    ensures SlotsMatch(Advanced(w, counter - w.highest), counter, seen)
  {
    var size := |w.bits|;
    var bits := Advanced(w, counter - w.highest);
    forall c: int | counter - size < c <= counter
      ensures bits[Slot(c, size)] <==> c >= 0 && c in seen
    {
      if counter - w.highest < size {
        ClearsExactlyWhatEnters(w.bits, w.highest + 1, counter, c);
      }
    }
  }

  lemma SetMatches(bits: seq<bool>, highest: nat, seen: set<nat>, counter: nat)
    requires |bits| > 0 && SlotsMatch(bits, highest, seen)
    requires highest - |bits| < counter <= highest
    ensures SlotsMatch(bits[Slot(counter, |bits|) := true], highest, seen + {counter})
  {
    forall c: int | highest - |bits| < c <= highest
      ensures bits[Slot(counter, |bits|) := true][Slot(c, |bits|)] <==> c >= 0 && c in seen + {counter}
    {
      SlotsDistinct(c, counter, |bits|);
    }
  }

  lemma FirstMatches(w: Window, counter: u64)
    requires Refines(w, {}) && !w.initialized
    ensures SlotsMatch(w.bits[Slot(counter, |w.bits|) := true], counter, {counter})
  {
    forall c: int | counter - |w.bits| < c <= counter
      ensures w.bits[Slot(counter, |w.bits|) := true][Slot(c, |w.bits|)] <==> c >= 0 && c in {counter}
    {
      SlotsDistinct(c, counter, |w.bits|);
    }
  }

  /** The refinement: `AcceptIn` says yes exactly to a new counter that is not a whole window old, the
      window it leaves stands for the enlarged set, and saying no changes nothing. */
  lemma AcceptRefines(w: Window, seen: set<nat>, counter: u64)
    requires Refines(w, seen)
    ensures AcceptIn(w, counter).1 <==>
            counter !in seen && (seen == {} || counter + |w.bits| > w.highest)
    ensures Refines(AcceptIn(w, counter).0, if AcceptIn(w, counter).1 then seen + {counter} else seen)
    ensures !AcceptIn(w, counter).1 ==> AcceptIn(w, counter).0 == w
    ensures AcceptIn(w, counter).1 ==> AcceptIn(w, counter).0.highest == if counter > w.highest then counter else w.highest
  {
    if !w.initialized {
      FirstMatches(w, counter);
      assert {} + {counter} == {counter};
    } else if counter > w.highest {
      AdvanceMatches(w, counter, seen);
      SetMatches(Advanced(w, counter - w.highest), counter, seen, counter);
    } else if w.highest - counter < |w.bits| {
      SetMatches(w.bits, w.highest, seen, counter);
      var slot := Slot(counter, |w.bits|);
      assert w.bits[slot] <==> counter in seen;
      if w.bits[slot] {
        assert w.bits[slot := true] == w.bits;
      }
    }
  }

  lemma EmptyRefines(size: nat)
    requires size > 0
    ensures Refines(EmptyWindow(size), {})
  {}

  // ------------------------------------------------------------ one word

  /** `word |= 1 << k` */
  function SetInWord(word: u64, k: nat): (r: u64)
    requires k < 64
    ensures forall j: nat :: j < 64 ==> (Bit(r, j) <==> j == k || Bit(word, j))
  {
    WordOp(Or, word, k);
    Bitwise(Or, word, Pow2(k), 64)
  }

  /** `word &= !(1 << k)` */
  function ClearInWord(word: u64, k: nat): (r: u64)
    requires k < 64
    ensures forall j: nat :: j < 64 ==> (Bit(r, j) <==> j != k && Bit(word, j))
  {
    WordOp(AndNot, word, k);
    Bitwise(AndNot, word, Pow2(k), 64)
  }

  lemma WordOp(op: BitOp, word: u64, k: nat)
    requires k < 64
    ensures Bitwise(op, word, Pow2(k), 64) < U64_SIZE
    ensures forall j: nat :: j < 64 ==> (Bit(Bitwise(op, word, Pow2(k), 64), j) <==> op(Bit(word, j), j == k))
  {
    C.SixtyFourBits();
    BitwiseBound(op, word, Pow2(k), 64);
    forall j: nat | j < 64
      ensures Bit(Bitwise(op, word, Pow2(k), 64), j) <==> op(Bit(word, j), j == k)
    {
      BitwiseBit(op, word, Pow2(k), 64, j);
      BitOfPow2(k, j);
    }
  }

  /** The words read as one sequence of bits. */
  ghost function BitsOf(words: seq<u64>): (r: seq<bool>)
    ensures |r| == 64 * |words|
  {
    seq(64 * |words|, i requires 0 <= i < 64 * |words| => Bit(words[i / 64], i % 64))
  }

  /** Replacing a word changes the one bit in which the new word may differ. */
  lemma UpdateWord(words: seq<u64>, i: nat, word: u64)
    requires i < 64 * |words|
    requires forall k: nat :: k < 64 && k != i % 64 ==> Bit(word, k) == Bit(words[i / 64], k)
    ensures BitsOf(words[i / 64 := word]) == BitsOf(words)[i := Bit(word, i % 64)]
  {}

  lemma NoBits(words: seq<u64>)
    requires forall i :: 0 <= i < |words| ==> words[i] == 0
    ensures BitsOf(words) == seq(64 * |words|, _ => false)
  {
    var bits := BitsOf(words);
    forall i: nat | i < |bits|
      ensures !bits[i]
    {
      BitOfZero(i % 64);
    }
  }

  // ------------------------------------------------------- the bitmap itself

  class ReplayWindow {
    var initialized: bool
    var highest: u64
    const bitmap: array<u64>

    ghost predicate Valid()
    {
      bitmap.Length > 0
    }

    ghost function Value(): (w: Window)
      reads this, bitmap
      requires Valid()
      ensures |w.bits| == 64 * bitmap.Length
    {
      Window(initialized, highest, BitsOf(bitmap[..]))
    }

    constructor (words: nat)
      requires words > 0
      ensures Valid() && fresh(bitmap) && bitmap.Length == words
      ensures Value() == EmptyWindow(64 * words)
    {
      initialized := false;
      highest := 0;
      bitmap := new u64[words](_ => 0);
      new;
      NoBits(bitmap[..]);
    }

    method SetBit(counter: u64)
      requires Valid()
      modifies bitmap
      ensures Value() == old(Value()).(bits := old(Value()).bits[Slot(counter, 64 * bitmap.Length) := true])
    {
      var idx := Slot(counter, 64 * bitmap.Length);
      ghost var before := bitmap[..];
      bitmap[idx / 64] := SetInWord(bitmap[idx / 64], idx % 64);
      assert bitmap[..] == before[idx / 64 := bitmap[idx / 64]];
      UpdateWord(before, idx, bitmap[idx / 64]);
    }

    method TestAndSetBit(counter: u64) returns (already: bool)
      requires Valid()
      modifies bitmap
      ensures already == old(Value()).bits[Slot(counter, 64 * bitmap.Length)]
      ensures Value() == old(Value()).(bits := old(Value()).bits[Slot(counter, 64 * bitmap.Length) := true])
    {
      var idx := Slot(counter, 64 * bitmap.Length);
      ghost var before := bitmap[..];
      already := Bit(bitmap[idx / 64], idx % 64);
      bitmap[idx / 64] := SetInWord(bitmap[idx / 64], idx % 64);
      assert bitmap[..] == before[idx / 64 := bitmap[idx / 64]];
      UpdateWord(before, idx, bitmap[idx / 64]);
    }

    method Advance(shift: u64)
      requires Valid()
      requires highest + shift + 1 < U64_SIZE
      modifies bitmap
      ensures Value() == old(Value()).(bits := Advanced(old(Value()), shift))
    {
      if shift >= 64 * bitmap.Length {
        for i := 0 to bitmap.Length
          invariant forall j :: 0 <= j < i ==> bitmap[j] == 0
        {
          bitmap[i] := 0;
        }
        NoBits(bitmap[..]);
        return;
      }
      var s: u64 := highest + 1;
      var end: u64 := highest + shift;
      while s <= end
        invariant s <= end + 1
        invariant Cleared(BitsOf(bitmap[..]), s, end) == Advanced(old(Value()), shift)
      {
        var idx := Slot(s, 64 * bitmap.Length);
        ghost var before := bitmap[..];
        bitmap[idx / 64] := ClearInWord(bitmap[idx / 64], idx % 64);
        assert bitmap[..] == before[idx / 64 := bitmap[idx / 64]];
        UpdateWord(before, idx, bitmap[idx / 64]);
        s := s + 1;
      }
    }

    method Accept(counter: u64) returns (isNew: bool)
      requires Valid()
      requires counter + 1 < U64_SIZE
      modifies this, bitmap
      ensures (Value(), isNew) == AcceptIn(old(Value()), counter)
    {
      if !initialized {
        initialized := true;
        highest := counter;
        SetBit(counter);
        return true;
      }
      if counter > highest {
        var shift := counter - highest;
        Advance(shift);
        highest := counter;
        SetBit(counter);
        return true;
      }
      var behind := highest - counter;
      if behind >= 64 * bitmap.Length {
        return false;
      }
      var already := TestAndSetBit(counter);
      return !already;
    }
  }
}
