/** What a peer finds in a block the builder wrote, and how long the block is
    (`engine/src/tlseng/extension.rs`, lines 262-287, 414-422 and 453-524). */
module HelloSizes {
  import opened Wrappers
  import opened Bytes
  import opened Extensions
  import opened Sessions
  import opened Shuffles
  import opened HelloBuilders

  // ------------------------------------------------------------------- lookup

  lemma {:induction false} FindAppend(a: seq<Extension>, b: seq<Extension>, etype: u16)
    ensures FindByType(a + b, etype) == if FindByType(a, etype).Some? then FindByType(a, etype) else FindByType(b, etype)
  {
    if a == [] {
      assert a + b == b;
    } else {
      assert (a + b)[1..] == a[1..] + b;
      FindAppend(a[1..], b, etype);
    }
  }

  /** What a slot of a type of its own says, if anything. */
  function ContentsOf(c: Setup, slot: Slot): Option<bytes>
    requires |slot.random| == RandomLen(c, slot.id)
  {
    if slot.id == KEY_SHARE then Some(ShareData(c, slot.random))
    else if slot.id == ECH then Some(EchData(slot.random))
    else PlainData(c, slot.id)
  }

  /** Types that are neither GREASE nor padding come from their own slots only. */
  lemma EmittedType(c: Setup, slot: Slot, written: nat, etype: u16)
    requires AllGrease(c.grease) && |slot.random| == RandomLen(c, slot.id)
    requires !IsGrease(etype) && etype != PADDING
    ensures FindByType(Emitted(c, slot, written), etype) == if slot.id != etype then None else ContentsOf(c, slot)
  {
    hide PlainData, ShareData, EchData, PaddingFor;
    assert IsGrease(GREASE_SLOT_FIRST) && IsGrease(GREASE_SLOT_LAST);
    PaddingType(c.profile.targetPaddingLen, written + c.overhead, etype);
    var es := Emitted(c, slot, written);
    if slot.id != PADDING && es != [] {
      assert es == [es[0]];
      OneFound(es[0], etype);
    }
    NoneFound(etype);
  }

  lemma NoneFound(etype: u16)
    ensures FindByType([], etype) == None
  {}

  lemma OneFound(e: Extension, etype: u16)
    ensures FindByType([e], etype) == if e.etype == etype then Some(e.data) else None
  {}

  lemma PaddingType(target: nat, current: nat, etype: u16)
    requires etype != PADDING
    ensures FindByType(PaddingFor(target, current), etype) == None
  {}

  lemma NothingFound(c: Setup, etype: u16)
    ensures FindByType(Built(c, []), etype) == None
  {}

  lemma SameSilence(c: Setup, slot: Slot, other: Slot)
    requires slot.id == other.id && |slot.random| == RandomLen(c, slot.id) && |other.random| == RandomLen(c, other.id)
    ensures ContentsOf(c, slot).None? <==> ContentsOf(c, other).None?
  {
    hide PlainData;
  }

  /** Whatever the shuffle and the draws, the first slot of the type decides what is found. */
  lemma {:induction false} Found(c: Setup, slots: seq<Slot>, etype: u16) returns (k: nat)
    requires AllGrease(c.grease) && Drawn(c, slots) && !IsGrease(etype) && etype != PADDING
    ensures etype !in Ids(slots) ==> FindByType(Built(c, slots), etype) == None
    ensures etype in Ids(slots) ==>
              && k < |slots| && slots[k].id == etype && (forall j :: 0 <= j < k ==> slots[j].id != etype)
              && FindByType(Built(c, slots), etype) == ContentsOf(c, slots[k])
    decreases |slots|
  {
    hide AllGrease, IsGrease, RandomLen, Built, Emitted, StackBytes, FindByType, ContentsOf;
    k := 0;
    NothingFound(c, etype);
    if slots != [] {
      var last := |slots| - 1;
      var fewer := slots[..last];
      k := Found(c, fewer, etype);
      var es, more := Built(c, fewer), Emitted(c, slots[last], |StackBytes(Built(c, fewer))|);
      assert fewer + [slots[last]] == slots;
      BuiltMore(c, fewer, slots[last]);
      FindAppend(es, more, etype);
      EmittedType(c, slots[last], |StackBytes(es)|, etype);
      assert Ids(slots) == Ids(fewer) + [slots[last].id];
      if etype !in Ids(fewer) {
        k := last;
        assert forall j :: 0 <= j < last ==> Ids(fewer)[j] == slots[j].id;
      } else if slots[last].id == etype {
        SameSilence(c, slots[k], slots[last]);
      }
    }
  }

  lemma ShareEntriesFit(c: Setup, ballast: bytes)
    requires X25519_MLKEM768 in c.profile.groups ==> |ballast| == BALLAST_LEN
    ensures forall e :: e in ShareEntries(c, ballast) ==> |e.key| < U16_SIZE
    ensures |KeyListBytes(ShareEntries(c, ballast))|
            == (if c.profile.hasGrease then 5 else 0) + (if X25519_MLKEM768 in c.profile.groups then 4 + BALLAST_LEN else 0) + 36
  {
    var a := if c.profile.hasGrease then [KeyEntry(c.grease.group, [0])] else [];
    var b := if X25519_MLKEM768 in c.profile.groups then [KeyEntry(X25519_MLKEM768, ballast)] else [];
    var own := KeyEntry(GROUP_X25519, c.publicKey);
    KeyListAppend(a + b, own);
    if b != [] {
      KeyListAppend(a, b[0]);
    } else {
      assert a + b == a;
    }
    if a != [] {
      OneEntry(a[0]);
    }
    assert KeyListBytes([]) == [];
  }

  /** The grease entry and the ballast come first, and neither is an X25519 entry. */
  lemma ShareHoldsKey(c: Setup, ballast: bytes)
    requires AllGrease(c.grease) && (X25519_MLKEM768 in c.profile.groups ==> |ballast| == BALLAST_LEN)
    ensures FirstX25519(ShareEntries(c, ballast)) == Some(c.publicKey)
    ensures ScanKeyList(KeyListBytes(ShareEntries(c, ballast))) == Some(c.publicKey)
  {
    ShareEntriesFit(c, ballast);
    KeyFoundByStructure(ShareEntries(c, ballast), []);
    assert KeyListBytes(ShareEntries(c, ballast)) + [] == KeyListBytes(ShareEntries(c, ballast));
    assert c.grease.group != GROUP_X25519;
    var a := if c.profile.hasGrease then [KeyEntry(c.grease.group, [0])] else [];
    var b := if X25519_MLKEM768 in c.profile.groups then [KeyEntry(X25519_MLKEM768, ballast)] else [];
    var own := [KeyEntry(GROUP_X25519, c.publicKey)];
    assert ShareEntries(c, ballast) == a + (b + own);
    assert FirstX25519(own) == Some(c.publicKey);
    SkipEntry(b, own);
    SkipEntry(a, b + own);
  }

  lemma SkipEntry(a: seq<KeyEntry>, b: seq<KeyEntry>)
    requires |a| <= 1 && (a != [] ==> a[0].group != GROUP_X25519)
    ensures FirstX25519(a + b) == FirstX25519(b)
  {
    if a != [] {
      assert (a + b)[1..] == b;
    } else {
      assert a + b == b;
    }
  }

  /** Whatever was drawn, a server reads back the client's key, unless it is zero or the profile has no
      slot for it. */
  lemma KeyRecovered(c: Setup, slots: seq<Slot>)
    requires AllGrease(c.grease) && Drawn(c, slots)
    ensures PeerPublic(Built(c, slots), true)
            == if KEY_SHARE !in Ids(slots) then Err(NoKeyShare) else if AllZero(c.publicKey) then Err(ZeroKey) else Ok(c.publicKey)
  {
    hide Built, KeyListBytes, ShareEntries, AllZero, FindByType, ScanKeyList, Slice, U16, ReadU16, AllGrease;
    var k := Found(c, slots, KEY_SHARE);
    if KEY_SHARE in Ids(slots) {
      var ballast := slots[k].random;
      ShareEntriesFit(c, ballast);
      ShareHoldsKey(c, ballast);
      CountedList(KeyListBytes(ShareEntries(c, ballast)));
    }
  }

  lemma CountedList(list: bytes)
    requires |list| < U16_SIZE
    ensures var data := U16(|list|) + list; Slice(data, 2, 2 + ReadU16(data)) == Some(list)
  {
    U16RoundTrip(|list|, list);
    assert (U16(|list|) + list)[2..2 + |list|] == list;
  }

  /** The host name is found exactly when the profile has a slot for it. */
  lemma HostRecovered(c: Setup, slots: seq<Slot>)
    requires AllGrease(c.grease) && Drawn(c, slots) && |c.host| + 3 < U16_SIZE
    ensures ServerName(Built(c, slots)) == if SNI in Ids(slots) then Some(c.host) else None
  {
    var k := Found(c, slots, SNI);
    ServerNameRoundTrip(c.host);
  }

  /** Which shares there are: the GREASE one first, empty but for a zero byte, if the profile greases; one of the
      hybrid group exactly if the profile lists it, with the ballast for a key; the client's own last. */
  lemma SharesAre(c: Setup, ballast: bytes)
    requires AllGrease(c.grease)
    ensures var es := ShareEntries(c, ballast);
            && es[|es| - 1] == KeyEntry(GROUP_X25519, c.publicKey)
            && (c.profile.hasGrease ==> es[0] == KeyEntry(c.grease.group, [0]))
            && (KeyEntry(X25519_MLKEM768, ballast) in es <==> X25519_MLKEM768 in c.profile.groups)
            && (forall e :: e in es ==> e.group in [c.grease.group, X25519_MLKEM768, GROUP_X25519])
            && (!c.profile.hasGrease ==> forall e :: e in es ==> !IsGrease(e.group))
            && |es| == 1 + (if c.profile.hasGrease then 1 else 0) + if X25519_MLKEM768 in c.profile.groups then 1 else 0
  {
    assert c.grease.group != X25519_MLKEM768;
    if X25519_MLKEM768 in c.profile.groups {
      var at := if c.profile.hasGrease then 1 else 0;
      assert ShareEntries(c, ballast)[at] == KeyEntry(X25519_MLKEM768, ballast);
    }
  }

  /** No share is sent for a group that is not on offer, if and only if X25519 is on offer: the GREASE group
      is the same draw in both places, and the hybrid group is shared only if the profile lists it. */
  lemma SharesAreOffered(c: Setup, ballast: bytes)
    ensures (forall e :: e in ShareEntries(c, ballast) ==> e.group in Greased(c, c.grease.group) + c.profile.groups)
            <==> GROUP_X25519 in Greased(c, c.grease.group) + c.profile.groups
  {}

  // --------------------------------------------------------------------- size

  /** Any setup will do to measure with: no drawn value has any influence on a length. */
  function Canonical(p: Profile, host: bytes): Setup
  {
    Setup(p, GreaseSet(0x0a0a, 0x0a0a, 0x0a0a, 0x0a0a, 0x0a0a), host, ZERO_KEY, 0)
  }

  /** Bytes that a position other than padding adds. */
  function SlotLen(p: Profile, host: bytes, id: u16): nat
  {
    var c := Canonical(p, host);
    if id == PADDING then 0 else |StackBytes(Emitted(c, Slot(id, seq(RandomLen(c, id), _ => 0)), 0))|
  }

  function Sizes(p: Profile, host: bytes): u16 -> nat
  {
    id => SlotLen(p, host, id)
  }

  lemma PlainLen(c: Setup, c': Setup, id: u16)
    requires c.profile == c'.profile && c.host == c'.host
    ensures PlainData(c, id).Some? == PlainData(c', id).Some?
    ensures PlainData(c, id).Some? ==> |PlainData(c, id).value| == |PlainData(c', id).value|
  {}

  lemma SameLen(c: Setup, c': Setup, slot: Slot, slot': Slot, written: nat, written': nat)
    requires c.profile == c'.profile && c.host == c'.host && slot.id == slot'.id != PADDING
    requires |slot.random| == RandomLen(c, slot.id) && |slot'.random| == RandomLen(c', slot'.id)
    ensures |StackBytes(Emitted(c, slot, written))| == |StackBytes(Emitted(c', slot', written'))|
  {
    hide KeyListBytes, ShareEntries, PlainData, StackBytes, IsGrease;
    PlainLen(c, c', slot.id);
    if slot.id == KEY_SHARE {
      ShareEntriesFit(c, slot.random);
      ShareEntriesFit(c', slot'.random);
    }
    var es, es' := Emitted(c, slot, written), Emitted(c', slot', written');
    assert |es| == |es'| <= 1 && (es != [] ==> |es[0].data| == |es'[0].data|);
    if es != [] {
      OneExtension(es[0]);
      OneExtension(es'[0]);
      assert es == [es[0]] && es' == [es'[0]];
    } else {
      assert es == es';
    }
  }

  lemma {:induction false} BlockLen(c: Setup, slots: seq<Slot>)
    requires Drawn(c, slots) && PADDING !in Ids(slots)
    ensures |StackBytes(Built(c, slots))| == Sum(Sizes(c.profile, c.host), Ids(slots))
    decreases |slots|
  {
    hide Emitted, SlotLen;
    NoExtensions();
    if slots != [] {
      var last := |slots| - 1;
      var fewer := slots[..last];
      assert Ids(slots)[..last] == Ids(fewer);
      BlockLen(c, fewer);
      MeasuredLen(c, slots[last], |StackBytes(Built(c, fewer))|);
      StackAppend(Built(c, fewer), Emitted(c, slots[last], |StackBytes(Built(c, fewer))|));
    }
  }

  lemma MeasuredLen(c: Setup, slot: Slot, written: nat)
    requires |slot.random| == RandomLen(c, slot.id) && slot.id != PADDING
    ensures |StackBytes(Emitted(c, slot, written))| == SlotLen(c.profile, c.host, slot.id)
  {
    hide Emitted, StackBytes;
    var c' := Canonical(c.profile, c.host);
    SameLen(c, c', slot, Slot(slot.id, seq(RandomLen(c', slot.id), _ => 0)), written, 0);
  }

  ghost predicate PaddingLast(order: seq<u16>)
  {
    order != [] && order[|order| - 1] == PADDING && PADDING !in order[..|order| - 1]
  }

  lemma PaddingStaysLast(p: Profile, ids: seq<u16>)
    requires PaddingLast(p.extensionOrder) && OrderedBy(p, ids)
    ensures PaddingLast(ids) && |ids| == |p.extensionOrder|
  {
    var order := p.extensionOrder;
    var last := |order| - 1;
    assert order == order[..last] + [PADDING] && ids == ids[..last] + [PADDING];
    assert multiset(order)[PADDING] == multiset(order[..last])[PADDING] + 1;
    assert multiset(ids)[PADDING] == multiset(ids[..last])[PADDING] + 1;
  }

  /** The block before padding: the same for every arrangement and every draw. */
  function UnpaddedBlock(p: Profile, host: bytes): nat
  {
    Sum(Sizes(p, host), p.extensionOrder)
  }

  /** With padding last, the block ends exactly at the target whenever more than four bytes were missing,
      and is not padded at all otherwise. */
  lemma BlockSize(c: Setup, slots: seq<Slot>)
    requires Drawn(c, slots) && OrderedBy(c.profile, Ids(slots)) && PaddingLast(c.profile.extensionOrder)
    ensures var plain := c.overhead + UnpaddedBlock(c.profile, c.host);
            c.overhead + |StackBytes(Built(c, slots))| == if c.profile.targetPaddingLen > plain + 4 then c.profile.targetPaddingLen else plain
  {
    hide SlotLen;
    var p, ids := c.profile, Ids(slots);
    var last := |slots| - 1;
    var fewer := slots[..last];
    PaddingStaysLast(p, ids);
    assert Ids(fewer) == ids[..last];
    BlockLen(c, fewer);
    SumOfPermuted(Sizes(p, c.host), ids, p.extensionOrder);
    PaddingAddsNothing(p, c.host);
    var before := |StackBytes(Built(c, fewer))|;
    assert before == UnpaddedBlock(p, c.host);
    PaddedLen(c, slots[last], before);
    StackAppend(Built(c, fewer), Emitted(c, slots[last], before));
  }

  lemma PaddingAddsNothing(p: Profile, host: bytes)
    ensures SlotLen(p, host, PADDING) == 0
  {}

  lemma PaddedLen(c: Setup, slot: Slot, written: nat)
    requires slot.id == PADDING && |slot.random| == RandomLen(c, slot.id)
    ensures var total := written + c.overhead;
            |StackBytes(Emitted(c, slot, written))|
            == if c.profile.targetPaddingLen > total + 4 then c.profile.targetPaddingLen - total else 0
  {}

  /** Without a padding slot the block has its plain size. */
  lemma BlockSizeUnpadded(c: Setup, slots: seq<Slot>)
    requires Drawn(c, slots) && OrderedBy(c.profile, Ids(slots)) && PADDING !in c.profile.extensionOrder
    ensures |StackBytes(Built(c, slots))| == UnpaddedBlock(c.profile, c.host)
  {
    assert multiset(Ids(slots))[PADDING] == multiset(c.profile.extensionOrder)[PADDING] == 0;
    BlockLen(c, slots);
    SumOfPermuted(Sizes(c.profile, c.host), Ids(slots), c.profile.extensionOrder);
  }
}
