/** The shuffle of a profile's extension order (`engine/src/tlseng/extension.rs`, lines 424-444). */
module Shuffles {
  import opened Bytes

  function Swapped(s: seq<u16>, i: nat, j: nat): (t: seq<u16>)
    requires j <= i < |s|
    ensures |t| == |s|
  {
    s[i := s[j]][j := s[i]]
  }

  /** Fisher-Yates from the last draw down to the second; the first draw is not used. */
  function FisherYates(s: seq<u16>, draws: seq<u16>): (t: seq<u16>)
    requires |draws| <= |s|
    ensures |t| == |s|
    decreases |draws|
  {
    if |draws| <= 1 then s
    else
      var i := |draws| - 1;
      FisherYates(Swapped(s, i, draws[i] % (i + 1)), draws[..i])
  }

  lemma LastDraw(s: seq<u16>, draws: seq<u16>)
    requires 1 < |draws| <= |s|
    ensures var i := |draws| - 1; FisherYates(s, draws) == FisherYates(Swapped(s, i, draws[i] % (i + 1)), draws[..i])
  {}

  lemma NoMoreDraws(s: seq<u16>, draws: seq<u16>)
    requires |draws| <= 1 && |draws| <= |s|
    ensures FisherYates(s, draws) == s
  {}

  /** Everything but both ends is shuffled, and nothing at all in an order shorter than four. */
  function Shuffled(order: seq<u16>, draws: seq<u16>): (t: seq<u16>)
    requires |draws| + 2 == |order| || |order| < 4
    ensures |t| == |order|
  {
    var n := |order|;
    if n < 4 then order else [order[0]] + FisherYates(order[1..n - 1], draws) + [order[n - 1]]
  }

  /** Two random bytes a draw, the low one first. */
  function DrawAt(rnd: bytes, i: nat): u16
    requires 2 * i + 1 < |rnd|
  {
    rnd[2 * i] as int + 256 * rnd[2 * i + 1] as int
  }

  function Draws(rnd: bytes): (draws: seq<u16>)
    ensures |draws| == |rnd| / 2
  {
    seq(|rnd| / 2, i requires 0 <= i < |rnd| / 2 => DrawAt(rnd, i))
  }

  method ShuffleMiddle(order: array<u16>) returns (ghost draws: seq<u16>)
    modifies order
    ensures |draws| + 2 == order.Length || order.Length < 4
    ensures order[..] == Shuffled(old(order[..]), draws)
  {
    hide FisherYates, DrawAt;
    var len := order.Length;
    if len < 4 {
      return [];
    }
    ghost var before := order[..];
    var m := len - 2;
    var rnd := RandomBytes(m * 2);
    draws := Draws(rnd);
    var i := m - 1;
    assert draws[..m] == draws;
    while i >= 1
      invariant 0 <= i < m
      invariant order[0] == before[0] && order[len - 1] == before[len - 1]
      invariant FisherYates(order[1..len - 1], draws[..i + 1]) == FisherYates(before[1..len - 1], draws)
      decreases i
    {
      ghost var s := order[1..len - 1];
      LastDraw(s, draws[..i + 1]);
      var j := DrawAt(rnd, i) % (i + 1);
      order[1 + i], order[1 + j] := order[1 + j], order[1 + i];
      assert order[1..len - 1] == Swapped(s, i, j);
      assert draws[..i + 1][..i] == draws[..i];
      i := i - 1;
    }
    NoMoreDraws(order[1..len - 1], draws[..1]);
    assert order[..] == [before[0]] + order[1..len - 1] + [before[len - 1]];
  }

  /** The orders a shuffle is meant to produce: any arrangement that keeps both ends. */
  ghost predicate KeepsEnds(before: seq<u16>, after: seq<u16>)
  {
    && multiset(after) == multiset(before)
    && (before != [] ==> |after| == |before| && after[0] == before[0] && after[|after| - 1] == before[|before| - 1])
    && (|before| < 4 ==> after == before)
  }

  lemma SwapKeepsElements(s: seq<u16>, i: nat, j: nat)
    requires j <= i < |s|
    ensures multiset(Swapped(s, i, j)) == multiset(s)
  {}

  lemma {:induction false} FisherYatesPermutes(s: seq<u16>, draws: seq<u16>)
    requires |draws| <= |s|
    ensures multiset(FisherYates(s, draws)) == multiset(s)
    decreases |draws|
  {
    if |draws| > 1 {
      var i := |draws| - 1;
      SwapKeepsElements(s, i, draws[i] % (i + 1));
      FisherYatesPermutes(Swapped(s, i, draws[i] % (i + 1)), draws[..i]);
    }
  }

  lemma Parts(s: seq<u16>)
    requires |s| >= 2
    ensures s == [s[0]] + s[1..|s| - 1] + [s[|s| - 1]]
    ensures multiset(s) == multiset{s[0]} + multiset(s[1..|s| - 1]) + multiset{s[|s| - 1]}
  {}

  lemma ShuffledKeepsEnds(order: seq<u16>, draws: seq<u16>)
    requires |draws| + 2 == |order| || |order| < 4
    ensures KeepsEnds(order, Shuffled(order, draws))
  {
    var n := |order|;
    if n >= 4 {
      var middle := FisherYates(order[1..n - 1], draws);
      FisherYatesPermutes(order[1..n - 1], draws);
      Parts(order);
      Parts(Shuffled(order, draws));
      assert Shuffled(order, draws)[1..n - 1] == middle;
    }
  }

  lemma DropLast(x: seq<u16>, y: seq<u16>, e: u16)
    requires multiset(x + [e]) == multiset(y + [e])
    ensures multiset(x) == multiset(y)
  {
    assert multiset(x) == multiset(x + [e]) - multiset{e};
    assert multiset(y) == multiset(y + [e]) - multiset{e};
  }

  lemma SwapParts(s: seq<u16>, i: nat, j: nat)
    requires j <= i < |s|
    ensures Swapped(s, i, j)[i] == s[j] && Swapped(s, i, j)[i + 1..] == s[i + 1..]
    ensures Swapped(s, i, j)[..i + 1] == Swapped(s[..i + 1], i, j)
  {}

  lemma CutAt(s: seq<u16>, i: nat)
    requires i < |s|
    ensures s[..i + 1] == s[..i] + [s[i]] && s[i..] == [s[i]] + s[i + 1..]
  {}

  /** After the right swap one element less is out of place. */
  lemma SwapFront(s: seq<u16>, t: seq<u16>, i: nat, j: nat)
    requires j <= i < |s| == |t| && s[j] == t[i]
    requires s[i + 1..] == t[i + 1..] && multiset(s[..i + 1]) == multiset(t[..i + 1])
    ensures Swapped(s, i, j)[i..] == t[i..] && multiset(Swapped(s, i, j)[..i]) == multiset(t[..i])
  {
    hide Swapped;
    var s' := Swapped(s, i, j);
    SwapParts(s, i, j);
    SwapKeepsElements(s[..i + 1], i, j);
    CutAt(s', i);
    CutAt(t, i);
    DropLast(s'[..i], t[..i], t[i]);
  }

  lemma {:induction false} OneLeft(s: seq<u16>, t: seq<u16>)
    requires 1 <= |s| == |t| && s[1..] == t[1..] && multiset(s[..1]) == multiset(t[..1])
    ensures FisherYates(s, [0]) == t
  {
    assert s[..1] == [s[0]] && t[..1] == [t[0]];
    assert multiset(s[..1])[s[0]] == 1;
    assert s == s[..1] + s[1..] && t == t[..1] + t[1..];
  }

  lemma OneMoreDraw(s: seq<u16>, draws: seq<u16>, i: nat, j: nat)
    requires 1 <= i == |draws| < |s| && j <= i < U16_SIZE
    ensures FisherYates(s, draws + [j]) == FisherYates(Swapped(s, i, j), draws)
  {
    hide FisherYates, Swapped;
    var more := draws + [j];
    assert more[..i] == draws && more[i] == j;
    SmallMod(j, i + 1);
    LastDraw(s, more);
  }

  lemma SmallMod(j: nat, m: nat)
    requires j < m
    ensures j % m == j
  {}

  lemma Occurs(s: seq<u16>, t: seq<u16>, n: nat) returns (j: nat)
    requires 1 <= n <= |s| == |t| && multiset(s[..n]) == multiset(t[..n])
    ensures j < n && s[j] == t[n - 1]
  {
    assert t[..n][n - 1] in multiset(t[..n]);
    assert t[n - 1] in s[..n];
    j :| 0 <= j < n && s[..n][j] == t[n - 1];
  }

  /** Any arrangement of the first elements can be drawn. */
  lemma {:induction false} DrawsFor(s: seq<u16>, t: seq<u16>, n: nat) returns (draws: seq<u16>)
    requires 1 <= n <= |s| == |t| && n <= U16_SIZE
    requires s[n..] == t[n..] && multiset(s[..n]) == multiset(t[..n])
    ensures |draws| == n && FisherYates(s, draws) == t
    decreases n
  {
    hide FisherYates, Swapped;
    if n == 1 {
      draws := [0];
      OneLeft(s, t);
    } else {
      var i := n - 1;
      var j := Occurs(s, t, n);
      SwapFront(s, t, i, j);
      draws := DrawsFor(Swapped(s, i, j), t, i);
      OneMoreDraw(s, draws, i, j);
      draws := draws + [j];
    }
  }

  /** An arrangement that keeps both ends is shuffled into by some draws. */
  lemma DrawsForMiddle(before: seq<u16>, after: seq<u16>) returns (draws: seq<u16>)
    requires 4 <= |before| <= U16_SIZE && KeepsEnds(before, after)
    ensures |draws| + 2 == |before| && after == Shuffled(before, draws)
  {
    hide FisherYates;
    var n := |before|;
    var s, t := before[1..n - 1], after[1..n - 1];
    Parts(before);
    Parts(after);
    SameMiddle(multiset(s), multiset(t), before[0], before[n - 1]);
    assert s[..n - 2] == s && t[..n - 2] == t;
    draws := DrawsFor(s, t, n - 2);
  }

  lemma SameMiddle(s: multiset<u16>, t: multiset<u16>, x: u16, y: u16)
    requires multiset{x} + s + multiset{y} == multiset{x} + t + multiset{y}
    ensures s == t
  {
    assert s == multiset{x} + s + multiset{y} - multiset{x} - multiset{y};
    assert t == multiset{x} + t + multiset{y} - multiset{x} - multiset{y};
  }

  lemma ShortStays(before: seq<u16>)
    requires |before| < 4
    ensures Shuffled(before, []) == before
  {}

  /** The shuffle yields exactly the arrangements that keep both ends: no other, and each of them for
      some draws. */
  lemma ShuffleReaches(before: seq<u16>, after: seq<u16>)
    requires |before| <= U16_SIZE
    ensures KeepsEnds(before, after)
            <==> exists draws: seq<u16> :: (|draws| + 2 == |before| || |before| < 4) && after == Shuffled(before, draws)
  {
    hide Shuffled;
    if KeepsEnds(before, after) {
      if |before| < 4 {
        ShortStays(before);
      } else {
        var draws := DrawsForMiddle(before, after);
      }
    }
    forall draws: seq<u16> | (|draws| + 2 == |before| || |before| < 4) && after == Shuffled(before, draws)
      ensures KeepsEnds(before, after)
    {
      ShuffledKeepsEnds(before, draws);
    }
  }

  // ------------------------------------------------- sums over a shuffled order

  function Sum(size: u16 -> nat, ids: seq<u16>): nat
  {
    if ids == [] then 0 else Sum(size, ids[..|ids| - 1]) + size(ids[|ids| - 1])
  }

  lemma {:induction false} SumWithout(size: u16 -> nat, ids: seq<u16>, k: nat)
    requires k < |ids|
    ensures Sum(size, ids) == Sum(size, ids[..k] + ids[k + 1..]) + size(ids[k])
    decreases |ids|
  {
    var last := |ids| - 1;
    if k == last {
      assert ids[..k] + ids[k + 1..] == ids[..last];
    } else {
      SumWithout(size, ids[..last], k);
      var less := ids[..k] + ids[k + 1..];
      assert less[..|less| - 1] == ids[..last][..k] + ids[..last][k + 1..];
      assert less[|less| - 1] == ids[last];
    }
  }

  /** A sum does not depend on the order. */
  lemma {:induction false} SumOfPermuted(size: u16 -> nat, a: seq<u16>, b: seq<u16>)
    requires multiset(a) == multiset(b)
    ensures Sum(size, a) == Sum(size, b)
    decreases |a|
  {
    assert |a| == |multiset(a)| == |b|;
    if a != [] {
      var last := a[|a| - 1];
      assert last in multiset(a);
      assert last in b;
      var k: nat :| k < |b| && b[k] == last;
      var a', b' := a[..|a| - 1], b[..k] + b[k + 1..];
      assert a == a' + [last];
      assert b == b[..k] + [last] + b[k + 1..];
      assert multiset(a') == multiset(a) - multiset{last};
      assert multiset(b') == multiset(b) - multiset{last};
      SumWithout(size, b, k);
      SumOfPermuted(size, a', b');
    }
  }
}
