/** Building the extension block of a client's hello from a browser profile
    (`engine/src/tlseng/extension.rs`, lines 146-530; `engine/src/tlseng/grease.rs`, lines 37-74). */
module HelloBuilders {
  import opened Wrappers
  import opened Bytes
  import opened TlsRecords
  import opened Extensions
  import opened Sessions
  import opened Shuffles
  import Hellos

  // ------------------------------------------------------------------ GREASE

  /** Both bytes are equal and end in the nibble `a`. */
  predicate IsGrease(id: u16)
  {
    id / 256 % 16 == 10 && id % 16 == 10 && id % 256 == id / 256
  }

  const GREASE_VALUES: seq<u16> := [
    0x0a0a, 0x1a1a, 0x2a2a, 0x3a3a, 0x4a4a, 0x5a5a, 0x6a6a, 0x7a7a, 0x8a8a, 0x9a9a, 0xaaaa, 0xbaba,
    0xcaca, 0xdada, 0xeaea, 0xfafa]

  datatype GreaseSet = GreaseSet(cipher: u16, group: u16, extFirst: u16, extLast: u16, version: u16)

  predicate AllGrease(g: GreaseSet)
  {
    IsGrease(g.cipher) && IsGrease(g.group) && IsGrease(g.extFirst) && IsGrease(g.extLast) && IsGrease(g.version)
  }

  function Pick(b: byte): (id: u16)
    ensures IsGrease(id)
  {
    PickIsGrease(b);
    GREASE_VALUES[b % 16]
  }

  lemma PickIsGrease(b: byte)
    ensures IsGrease(GREASE_VALUES[b % 16])
  {}

  lemma GreaseShape(k: nat)
    requires k < 16
    ensures IsGrease((16 * k + 10) * 257)
  {}

  /** The values of that shape are the sixteen in the table and no others. */
  lemma GreaseExactly(id: u16)
    ensures IsGrease(id) <==> id in GREASE_VALUES
  {
    if IsGrease(id) {
      var k := id / 256 / 16;
      assert id == (16 * k + 10) * 257;
      assert id == GREASE_VALUES[k];
    }
    if id in GREASE_VALUES {
      var k :| 0 <= k < 16 && id == GREASE_VALUES[k];
      assert id == (16 * k + 10) * 257;
      GreaseShape(k);
    }
  }

  method RandomGrease() returns (g: GreaseSet)
    ensures AllGrease(g)
  {
    var b := RandomBytes(5);
    g := GreaseSet(Pick(b[0]), Pick(b[1]), Pick(b[2]), Pick(b[3]), Pick(b[4]));
  }

  // ----------------------------------------------------------------- profile

  datatype Profile = Profile(
    groups: seq<u16>, signatures: seq<u16>, delegatedSignatures: seq<u16>, versions: seq<u16>,
    alpn: seq<bytes>, extensionOrder: seq<u16>, cipherSuites: seq<u16>, recordVersion: ProtocolVersion,
    targetPaddingLen: u16, alpsProtocols: seq<bytes>, hasGrease: bool, shuffleExtensions: bool)

  const STATUS_REQUEST: u16 := 0x0005
  const SUPPORTED_GROUPS: u16 := 0x000a
  const EC_POINT_FORMATS: u16 := 0x000b
  const SIGNATURE_ALGORITHMS: u16 := 0x000d
  const ALPN: u16 := 0x0010
  const SCT: u16 := 0x0012
  const PADDING: u16 := 0x0015
  const EMS: u16 := 0x0017
  const COMPRESS_CERT: u16 := 0x001b
  const DELEGATED_CREDENTIAL: u16 := 0x0022
  const SESSION_TICKET: u16 := 0x0023
  const SUPPORTED_VERSIONS: u16 := 0x002b
  const PSK_MODES: u16 := 0x002d
  const ALPS: u16 := 0x44cd
  const ECH: u16 := 0xfe0d
  const RENEGOTIATION_INFO: u16 := 0xff01
  const GREASE_SLOT_FIRST: u16 := 0x0a0a
  const GREASE_SLOT_LAST: u16 := 0x2a2a

  const CERT_COMPRESSION_BROTLI: u16 := 2
  const X25519_MLKEM768: u16 := 0x11ec
  const BALLAST_LEN: nat := 1216
  const ECH_ENC_LEN: nat := 32
  const ECH_PAYLOAD_LEN: nat := 144

  /** All that decides the block besides the randomness drawn while it is built. */
  datatype Setup = Setup(profile: Profile, grease: GreaseSet, host: bytes, publicKey: Key32, overhead: nat)

  /** One position of the order, with the random bytes drawn for it if it needs any. */
  datatype Slot = Slot(id: u16, random: bytes)

  function Ids(slots: seq<Slot>): (ids: seq<u16>)
    ensures |ids| == |slots| && forall k :: 0 <= k < |slots| ==> ids[k] == slots[k].id
  {
    seq(|slots|, k requires 0 <= k < |slots| => slots[k].id)
  }

  function RandomLen(c: Setup, id: u16): nat
  {
    if id == KEY_SHARE && X25519_MLKEM768 in c.profile.groups then BALLAST_LEN
    else if id == ECH then 1 + ECH_ENC_LEN + ECH_PAYLOAD_LEN
    else 0
  }

  predicate Drawn(c: Setup, slots: seq<Slot>)
  {
    forall k :: 0 <= k < |slots| ==> |slots[k].random| == RandomLen(c, slots[k].id)
  }

  // ----------------------------------------------------------- what is written

  function Greased(c: Setup, id: u16): seq<u16>
  {
    if c.profile.hasGrease then [id] else []
  }

  function CodeList(codes: seq<u16>): bytes
  {
    U16(2 * |codes|) + Hellos.SuiteBytes(codes)
  }

  function ShortCodeList(codes: seq<u16>): bytes
  {
    [2 * |codes| % 256] + Hellos.SuiteBytes(codes)
  }

  function NameBytes(name: bytes): bytes
  {
    [|name| % 256] + name
  }

  function ProtocolBytes(names: seq<bytes>): bytes
  {
    if names == [] then [] else NameBytes(names[0]) + ProtocolBytes(names[1..])
  }

  lemma {:induction false} NamesAppend(names: seq<bytes>, name: bytes)
    ensures ProtocolBytes(names + [name]) == ProtocolBytes(names) + NameBytes(name)
  {
    hide NameBytes;
    if names == [] {
      assert names + [name] == [name];
      assert ProtocolBytes([name]) == NameBytes(name) + ProtocolBytes([]);
    } else {
      assert (names + [name])[1..] == names[1..] + [name];
      NamesAppend(names[1..], name);
    }
  }

  function ProtocolList(names: seq<bytes>): bytes
  {
    U16(|ProtocolBytes(names)|) + ProtocolBytes(names)
  }

  /** The key share: a GREASE group, 1216 bytes of ballast for a profile that offers the hybrid group,
      and the one entry that means something. */
  function ShareEntries(c: Setup, ballast: bytes): seq<KeyEntry>
  {
    (if c.profile.hasGrease then [KeyEntry(c.grease.group, [0])] else [])
    + (if X25519_MLKEM768 in c.profile.groups then [KeyEntry(X25519_MLKEM768, ballast)] else [])
    + [KeyEntry(GROUP_X25519, c.publicKey)]
  }

  function ShareData(c: Setup, ballast: bytes): bytes
  {
    U16(|KeyListBytes(ShareEntries(c, ballast))|) + KeyListBytes(ShareEntries(c, ballast))
  }

  function EchData(random: bytes): bytes
    requires |random| == 1 + ECH_ENC_LEN + ECH_PAYLOAD_LEN
  {
    [0, 0, 1, 0, 1] + [random[0]] + U16(ECH_ENC_LEN) + random[1..1 + ECH_ENC_LEN]
    + U16(ECH_PAYLOAD_LEN) + random[1 + ECH_ENC_LEN..]
  }

  /** Contents of the extensions that need no randomness and do not depend on what came before. */
  function PlainData(c: Setup, id: u16): Option<bytes>
  {
    var p := c.profile;
    if id == SNI then Some(ServerNameData(c.host))
    else if id == SUPPORTED_GROUPS then Some(CodeList(Greased(c, c.grease.group) + p.groups))
    else if id == SIGNATURE_ALGORITHMS then Some(CodeList(p.signatures))
    else if id == ALPN then Some(ProtocolList(p.alpn))
    else if id == SCT || id == EMS || id == SESSION_TICKET then Some([])
    else if id == COMPRESS_CERT then Some(ShortCodeList([CERT_COMPRESSION_BROTLI]))
    else if id == DELEGATED_CREDENTIAL then Some(CodeList(p.delegatedSignatures))
    else if id == SUPPORTED_VERSIONS then Some(ShortCodeList(Greased(c, c.grease.version) + p.versions))
    else if id == PSK_MODES then Some([1, 1])
    else if id == ALPS && p.alpsProtocols != [] then Some(ProtocolList(p.alpsProtocols))
    else if id == STATUS_REQUEST then Some([1, 0, 0, 0, 0])
    else if id == EC_POINT_FORMATS then Some([1, 0])
    else if id == RENEGOTIATION_INFO then Some([0])
    else None
  }

  /** Zeros up to the target, if there is room for the four bytes of their own header and one more. */
  function PaddingFor(target: nat, current: nat): seq<Extension>
  {
    if target > current + 4 then [Extension(PADDING, seq(target - current - 4, _ => 0))] else []
  }

  /** What one position of the order adds to a block of `written` bytes. */
  function Emitted(c: Setup, slot: Slot, written: nat): seq<Extension>
    requires |slot.random| == RandomLen(c, slot.id)
  {
    if slot.id == GREASE_SLOT_FIRST then (if c.profile.hasGrease then [Extension(c.grease.extFirst, [])] else [])
    else if slot.id == GREASE_SLOT_LAST then (if c.profile.hasGrease then [Extension(c.grease.extLast, [0])] else [])
    else if slot.id == KEY_SHARE then [Extension(KEY_SHARE, ShareData(c, slot.random))]
    else if slot.id == ECH then [Extension(ECH, EchData(slot.random))]
    else if slot.id == PADDING then PaddingFor(c.profile.targetPaddingLen, written + c.overhead)
    else
      match PlainData(c, slot.id)
      case Some(data) => [Extension(slot.id, data)]
      case None => if IsGrease(slot.id) && c.profile.hasGrease then [Extension(slot.id, [])] else []
  }

  function Built(c: Setup, slots: seq<Slot>): seq<Extension>
    requires Drawn(c, slots)
  {
    if slots == [] then []
    else
      var es := Built(c, slots[..|slots| - 1]);
      es + Emitted(c, slots[|slots| - 1], |StackBytes(es)|)
  }

  // -------------------------------------------------------------- the builder

  class ExtensionBuilder {
    var payload: bytes
    const grease: GreaseSet
    ghost var extensions: seq<Extension>

    ghost predicate Valid()
      reads this
    {
      payload == StackBytes(extensions)
    }

    constructor (grease: GreaseSet)
      ensures Valid() && this.grease == grease && extensions == []
    {
      this.grease := grease;
      payload, extensions := [], [];
    }

    method AddExtension(etype: u16, data: bytes)
      requires Valid()
      modifies this
      ensures Valid() && extensions == old(extensions) + [Extension(etype, data)]
    {
      var header := U16(etype) + U16(|data|);
      StackAppend(extensions, [Extension(etype, data)]);
      OneExtension(Extension(etype, data));
      payload := payload + (header + data);
      extensions := extensions + [Extension(etype, data)];
    }

    method Codes(etype: u16, codes: seq<u16>, short: bool)
      requires Valid()
      modifies this
      ensures Valid()
      ensures extensions == old(extensions) + [Extension(etype, if short then ShortCodeList(codes) else CodeList(codes))]
    {
      var data := new BytesMut(if short then [2 * |codes| % 256] else U16(2 * |codes|));
      Hellos.PutSuites(data, codes);
      AddExtension(etype, data.data);
    }

    method Protocols(etype: u16, names: seq<bytes>)
      requires Valid()
      modifies this
      ensures Valid() && extensions == old(extensions) + [Extension(etype, ProtocolList(names))]
    {
      var list: bytes := [];
      for i := 0 to |names|
        invariant Valid() && extensions == old(extensions) && list == ProtocolBytes(names[..i])
      {
        NamesAppend(names[..i], names[i]);
        assert names[..i] + [names[i]] == names[..i + 1];
        list := list + ([|names[i]| % 256] + names[i]);
      }
      assert names[..|names|] == names;
      AddExtension(etype, U16(|list|) + list);
    }

    method ServerName(host: bytes)
      requires Valid()
      modifies this
      ensures Valid() && extensions == old(extensions) + [Extension(SNI, ServerNameData(host))]
    {
      var data := U16(1 + 2 + |host|);
      data := data + [TYPE_HOST_NAME];
      data := data + U16(|host|);
      data := data + host;
      AddExtension(SNI, data);
    }

    method KeyShare(p: Profile, host: bytes, publicKey: Key32, overhead: nat) returns (ghost random: bytes)
      requires Valid()
      modifies this
      ensures var c := Setup(p, grease, host, publicKey, overhead);
              && Valid() && |random| == RandomLen(c, KEY_SHARE)
              && extensions == old(extensions) + [Extension(KEY_SHARE, ShareData(c, random))]
    {
      ghost var c := Setup(p, grease, host, publicKey, overhead);
      ghost var entries: seq<KeyEntry> := [];
      var list: bytes := [];
      random := [];
      if p.hasGrease {
        list := list + (U16(grease.group) + U16(1) + [0]);
        entries := entries + [KeyEntry(grease.group, [0])];
        assert list == KeyListBytes(entries) by { OneEntry(KeyEntry(grease.group, [0])); }
      }
      if X25519_MLKEM768 in p.groups {
        var share := RandomBytes(BALLAST_LEN);
        random := share;
        list := AppendEntry(list, KeyEntry(X25519_MLKEM768, share), entries);
        entries := entries + [KeyEntry(X25519_MLKEM768, share)];
      }
      list := AppendEntry(list, KeyEntry(GROUP_X25519, publicKey), entries);
      entries := entries + [KeyEntry(GROUP_X25519, publicKey)];
      assert entries == ShareEntries(c, random);
      AddExtension(KEY_SHARE, U16(|list|) + list);
    }

    method EchGrease() returns (ghost random: bytes)
      requires Valid()
      modifies this
      ensures |random| == 1 + ECH_ENC_LEN + ECH_PAYLOAD_LEN
      ensures Valid() && extensions == old(extensions) + [Extension(ECH, EchData(random))]
    {
      var rnd := RandomBytes(1 + ECH_ENC_LEN + ECH_PAYLOAD_LEN);
      random := rnd;
      var data: bytes := [0x00] + U16(0x0001) + U16(0x0001);
      data := data + [rnd[0]] + U16(ECH_ENC_LEN) + rnd[1..1 + ECH_ENC_LEN];
      data := data + U16(ECH_PAYLOAD_LEN) + rnd[1 + ECH_ENC_LEN..];
      assert data == EchData(rnd);
      AddExtension(ECH, data);
    }

    method Padding(targetSize: nat, overhead: nat)
      requires Valid()
      modifies this
      ensures Valid() && extensions == old(extensions) + PaddingFor(targetSize, |old(payload)| + overhead)
    {
      var currentTotal := |payload| + overhead;
      if targetSize > currentTotal + 4 {
        var padLen := targetSize - currentTotal - 4;
        AddExtension(PADDING, seq(padLen, _ => 0));
      }
    }

    /** One position of the order. */
    method ApplySlot(p: Profile, host: bytes, publicKey: Key32, overhead: nat, id: u16) returns (ghost slot: Slot)
      requires Valid()
      modifies this
      ensures var c := Setup(p, grease, host, publicKey, overhead);
              && Valid() && slot.id == id && |slot.random| == RandomLen(c, id)
              && extensions == old(extensions) + Emitted(c, slot, |old(payload)|)
    {
      hide StackBytes, ShareData, EchData, CodeList, ShortCodeList, ProtocolList, ServerNameData;
      ghost var random: bytes := [];
      if id == GREASE_SLOT_FIRST {
        if p.hasGrease {
          AddExtension(grease.extFirst, []);
        }
      } else if id == GREASE_SLOT_LAST {
        if p.hasGrease {
          AddExtension(grease.extLast, [0x00]);
        }
      } else if id == KEY_SHARE {
        random := KeyShare(p, host, publicKey, overhead);
      } else if id == ECH {
        random := EchGrease();
      } else if id == PADDING {
        if p.targetPaddingLen > 0 {
          Padding(p.targetPaddingLen, overhead);
        }
      } else {
        ApplyPlain(p, host, publicKey, overhead, id);
      }
      slot := Slot(id, random);
    }

    method ApplyPlain(p: Profile, host: bytes, publicKey: Key32, overhead: nat, id: u16)
      requires Valid()
      modifies this
      ensures var c := Setup(p, grease, host, publicKey, overhead);
              && Valid()
              && extensions == old(extensions) +
                   match PlainData(c, id)
                   case Some(data) => [Extension(id, data)]
                   case None => if IsGrease(id) && p.hasGrease then [Extension(id, [])] else []
    {
      hide StackBytes, CodeList, ShortCodeList, ProtocolList, ServerNameData;
      if id == SNI {
        ServerName(host);
      } else if id == SUPPORTED_GROUPS {
        Codes(id, (if p.hasGrease then [grease.group] else []) + p.groups, false);
      } else if id == SIGNATURE_ALGORITHMS {
        Codes(id, p.signatures, false);
      } else if id == ALPN {
        Protocols(id, p.alpn);
      } else if id == SCT || id == EMS || id == SESSION_TICKET {
        AddExtension(id, []);
      } else if id == COMPRESS_CERT {
        Codes(id, [CERT_COMPRESSION_BROTLI], true);
      } else if id == DELEGATED_CREDENTIAL {
        Codes(id, p.delegatedSignatures, false);
      } else if id == SUPPORTED_VERSIONS {
        Codes(id, (if p.hasGrease then [grease.version] else []) + p.versions, true);
      } else if id == PSK_MODES {
        AddExtension(id, [1, 1]);
      } else if id == ALPS {
        if p.alpsProtocols != [] {
          Protocols(id, p.alpsProtocols);
        }
      } else if id == STATUS_REQUEST {
        AddExtension(id, [1, 0, 0, 0, 0]);
      } else if id == EC_POINT_FORMATS {
        AddExtension(id, [1, 0]);
      } else if id == RENEGOTIATION_INFO {
        AddExtension(id, [0x00]);
      } else if IsGrease(id) && p.hasGrease {
        AddExtension(id, []);
      }
    }

    method ApplyProfile(p: Profile, host: bytes, publicKey: Key32, overhead: nat) returns (ghost slots: seq<Slot>)
      requires Valid() && extensions == []
      modifies this
      ensures var c := Setup(p, grease, host, publicKey, overhead);
              && Valid() && Drawn(c, slots) && extensions == Built(c, slots)
              && OrderedBy(p, Ids(slots))
    {
      hide StackBytes, Emitted, RandomLen;
      ghost var c := Setup(p, grease, host, publicKey, overhead);
      var order := new u16[|p.extensionOrder|](i requires 0 <= i < |p.extensionOrder| => p.extensionOrder[i]);
      assert order[..] == p.extensionOrder;
      if p.shuffleExtensions {
        ghost var draws := ShuffleMiddle(order);
        ShuffledKeepsEnds(p.extensionOrder, draws);
      }
      ghost var ids := order[..];
      assert OrderedBy(p, ids);
      slots := [];
      for i := 0 to order.Length
        invariant Valid() && Drawn(c, slots) && extensions == Built(c, slots)
        invariant order[..] == ids && |slots| == i && Ids(slots) == ids[..i]
      {
        ghost var slot := ApplySlot(p, host, publicKey, overhead, order[i]);
        BuiltMore(c, slots, slot);
        slots := slots + [slot];
        assert Ids(slots) == ids[..i + 1];
      }
      assert ids[..order.Length] == ids;
    }
  }

  lemma OneExtension(e: Extension)
    ensures StackBytes([e]) == ExtensionBytes(e)
  {}

  lemma OneEntry(e: KeyEntry)
    ensures KeyListBytes([e]) == KeyEntryBytes(e)
  {}

  lemma {:induction false} KeyListAppend(es: seq<KeyEntry>, e: KeyEntry)
    ensures KeyListBytes(es + [e]) == KeyListBytes(es) + KeyEntryBytes(e)
  {
    if es == [] {
      assert es + [e] == [e];
      OneEntry(e);
    } else {
      assert (es + [e])[1..] == es[1..] + [e];
      KeyListAppend(es[1..], e);
    }
  }

  method AppendEntry(list: bytes, e: KeyEntry, ghost es: seq<KeyEntry>) returns (more: bytes)
    requires list == KeyListBytes(es)
    ensures more == KeyListBytes(es + [e])
  {
    hide KeyListBytes;
    KeyListAppend(es, e);
    var entry := U16(e.group) + U16(|e.key|) + e.key;
    assert entry == KeyEntryBytes(e);
    more := list + entry;
  }

  lemma BuiltMore(c: Setup, slots: seq<Slot>, slot: Slot)
    requires Drawn(c, slots) && |slot.random| == RandomLen(c, slot.id)
    ensures Drawn(c, slots + [slot])
    ensures Built(c, slots + [slot]) == Built(c, slots) + Emitted(c, slot, |StackBytes(Built(c, slots))|)
  {}

  /** The orders that a profile allows. */
  ghost predicate OrderedBy(p: Profile, ids: seq<u16>)
  {
    if p.shuffleExtensions then KeepsEnds(p.extensionOrder, ids) else ids == p.extensionOrder
  }
}
