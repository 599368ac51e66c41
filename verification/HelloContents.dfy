/** What any parser reads out of the other extensions of a built block
    (`engine/src/tlseng/extension.rs`, lines 178-412 and 453-524). */
module HelloContents {
  import opened Wrappers
  import opened Bytes
  import opened Extensions
  import opened HelloBuilders
  import opened HelloSizes
  import Hellos

  // ------------------------------------------------- parsers of the list formats

  /** 16-bit codes behind a 16-bit length (sections 4.2.3 and 4.2.7 of RFC 8446). */
  function ReadCodes(s: bytes): Option<seq<u16>>
  {
    if |s| < 2 || ReadU16(s) != |s| - 2 || |s| % 2 != 0 then None else Some(Hellos.SuitesIn(s[2..]))
  }

  /** 16-bit codes behind an 8-bit length (section 4.2.1 of RFC 8446). */
  function ReadShortCodes(s: bytes): Option<seq<u16>>
  {
    if |s| < 1 || s[0] as int != |s| - 1 || |s| % 2 != 1 then None else Some(Hellos.SuitesIn(s[1..]))
  }

  function NamesIn(s: bytes): Option<seq<bytes>>
    decreases |s|
  {
    if s == [] then Some([])
    else if 1 + s[0] as int > |s| then None
    else
      match NamesIn(s[1 + s[0] as int..])
      case None => None
      case Some(more) => Some([s[1..1 + s[0] as int]] + more)
  }

  /** Names behind 8-bit lengths, behind a 16-bit length (section 3.1 of RFC 7301). */
  function ReadNames(s: bytes): Option<seq<bytes>>
  {
    if |s| < 2 || ReadU16(s) != |s| - 2 then None else NamesIn(s[2..])
  }

  lemma CodesReadBack(codes: seq<u16>)
    requires 2 * |codes| < U16_SIZE
    ensures ReadCodes(CodeList(codes)) == Some(codes)
  {
    hide U16, ReadU16;
    U16RoundTrip(2 * |codes|, Hellos.SuiteBytes(codes));
    assert CodeList(codes)[2..] == Hellos.SuiteBytes(codes);
    Hellos.SuitesRoundTrip(codes);
  }

  lemma ShortCodesReadBack(codes: seq<u16>)
    requires 2 * |codes| < 256
    ensures ReadShortCodes(ShortCodeList(codes)) == Some(codes)
  {
    hide U16, ReadU16;
    assert ShortCodeList(codes)[1..] == Hellos.SuiteBytes(codes);
    Hellos.SuitesRoundTrip(codes);
  }

  predicate NamesFit(names: seq<bytes>)
  {
    (forall n :: n in names ==> |n| < 256) && |ProtocolBytes(names)| < U16_SIZE
  }

  lemma NameHead(name: bytes, more: bytes)
    requires |name| < 256
    ensures var s := NameBytes(name) + more;
            s != [] && s[0] == |name| && 1 + |name| <= |s| && s[1..1 + |name|] == name && s[1 + |name|..] == more
  {}

  lemma {:induction false} NamesAgain(names: seq<bytes>)
    requires forall n :: n in names ==> |n| < 256
    ensures NamesIn(ProtocolBytes(names)) == Some(names)
  {
    hide NameBytes;
    if names != [] {
      assert names[0] in names;
      NameHead(names[0], ProtocolBytes(names[1..]));
      NamesAgain(names[1..]);
      assert [names[0]] + names[1..] == names;
    }
  }

  lemma NamesReadBack(names: seq<bytes>)
    requires NamesFit(names)
    ensures ReadNames(ProtocolList(names)) == Some(names)
  {
    hide U16, ReadU16;
    var list := ProtocolBytes(names);
    U16RoundTrip(|list|, list);
    assert ProtocolList(names)[2..] == list;
    NamesAgain(names);
  }

  // -------------------------------------------------------------- the whole block

  /** The lists of a profile fit the length fields in front of them. */
  predicate ListsFit(p: Profile)
  {
    && 2 * (|p.groups| + 1) < U16_SIZE && 2 * |p.signatures| < U16_SIZE && 2 * |p.delegatedSignatures| < U16_SIZE
    && 2 * (|p.versions| + 1) < 256 && NamesFit(p.alpn) && NamesFit(p.alpsProtocols)
  }

  /** The data of an ECH extension that is GREASE: outer type, suite, any id, 32 bytes, 144 bytes. */
  predicate LooksLikeEch(s: bytes)
  {
    |s| == 186 && s[..5] == [0, 0, 1, 0, 1] && s[6..8] == [0, 32] && s[40..42] == [0, 144]
  }

  /** What the extension of a type has to say for this setup, in terms of what a parser reads. */
  ghost predicate Says(c: Setup, etype: u16, found: Option<bytes>)
  {
    var p := c.profile;
    var greased := (v: u16) => if p.hasGrease then [v] else [];
    && (etype == SUPPORTED_GROUPS ==> found.Some? && ReadCodes(found.value) == Some(greased(c.grease.group) + p.groups))
    && (etype == SUPPORTED_VERSIONS ==> found.Some? && ReadShortCodes(found.value) == Some(greased(c.grease.version) + p.versions))
    && (etype == SIGNATURE_ALGORITHMS ==> found.Some? && ReadCodes(found.value) == Some(p.signatures))
    && (etype == DELEGATED_CREDENTIAL ==> found.Some? && ReadCodes(found.value) == Some(p.delegatedSignatures))
    && (etype == ALPN ==> found.Some? && ReadNames(found.value) == Some(p.alpn))
    && (etype == ALPS ==> if p.alpsProtocols == [] then found == None
                          else found.Some? && ReadNames(found.value) == Some(p.alpsProtocols))
    && (etype == COMPRESS_CERT ==> found.Some? && ReadShortCodes(found.value) == Some([2]))
    && (etype == ECH ==> found.Some? && LooksLikeEch(found.value))
    && (etype in [SCT, EMS, SESSION_TICKET] ==> found == Some([]))
    && (etype == PSK_MODES ==> found == Some([1, 1]))
    && (etype == STATUS_REQUEST ==> found == Some([1, 0, 0, 0, 0]))
    && (etype == EC_POINT_FORMATS ==> found == Some([1, 0]))
    && (etype == RENEGOTIATION_INFO ==> found == Some([0]))
  }

  lemma EchLooksRight(random: bytes)
    requires |random| == 1 + ECH_ENC_LEN + ECH_PAYLOAD_LEN
    ensures LooksLikeEch(EchData(random))
  {
    var s := EchData(random);
    assert s[6..8] == U16(ECH_ENC_LEN);
    assert s[40..42] == U16(ECH_PAYLOAD_LEN);
  }

  lemma ListsSay(c: Setup, etype: u16)
    requires ListsFit(c.profile) && etype != ECH
    ensures Says(c, etype, PlainData(c, etype))
  {
    hide CodeList, ShortCodeList, ProtocolList, ReadCodes, ReadShortCodes, ReadNames, ServerNameData, LooksLikeEch;
    var p := c.profile;
    CodesReadBack(Greased(c, c.grease.group) + p.groups);
    ShortCodesReadBack(Greased(c, c.grease.version) + p.versions);
    CodesReadBack(p.signatures);
    CodesReadBack(p.delegatedSignatures);
    NamesReadBack(p.alpn);
    NamesReadBack(p.alpsProtocols);
    ShortCodesReadBack([CERT_COMPRESSION_BROTLI]);
  }

  /** For any shuffle and draws, every extension the profile asks for is there and parses to what the profile
      lists, behind the GREASE value of this connection where it takes one; types not asked for are absent. */
  lemma BlockSaysProfile(c: Setup, slots: seq<Slot>, etype: u16)
    requires AllGrease(c.grease) && Drawn(c, slots) && ListsFit(c.profile)
    requires !IsGrease(etype) && etype !in [PADDING, KEY_SHARE]
    ensures etype in Ids(slots) ==> Says(c, etype, FindByType(Built(c, slots), etype))
    ensures etype !in Ids(slots) ==> FindByType(Built(c, slots), etype) == None
  {
    hide Says, PlainData, EchData, FindByType, Built, AllGrease, IsGrease;
    var k := Found(c, slots, etype);
    if etype in Ids(slots) {
      if etype == ECH {
        EchLooksRight(slots[k].random);
        EchSays(c, FindByType(Built(c, slots), etype));
      } else {
        ListsSay(c, etype);
      }
    }
  }

  lemma EchSays(c: Setup, found: Option<bytes>)
    requires found.Some? && LooksLikeEch(found.value)
    ensures Says(c, ECH, found)
  {
    hide LooksLikeEch;
  }

  // ------------------------------------------------------------------- GREASE

  lemma {:induction false} FirstStays(c: Setup, slots: seq<Slot>, n: nat)
    requires Drawn(c, slots) && 1 <= n <= |slots| && Emitted(c, slots[0], 0) != []
    ensures Built(c, slots[..n]) != [] && Built(c, slots[..n])[0] == Emitted(c, slots[0], 0)[0]
  {
    hide Emitted;
    NoExtensions();
    assert slots[..n][..n - 1] == slots[..n - 1];
    if n == 1 {
      assert slots[..0] == [];
      assert Built(c, []) == [];
      assert slots[..1][0] == slots[0];
    } else {
      FirstStays(c, slots, n - 1);
    }
  }

  /** A profile that greases puts its two values at the ends it reserves for them, one empty and one with a
      single zero byte; a profile that does not grease sends no such type at all. */
  lemma GreaseAtTheEnds(c: Setup, slots: seq<Slot>)
    requires Drawn(c, slots) && slots != []
    ensures var es := Built(c, slots);
            && (c.profile.hasGrease && slots[0].id == GREASE_SLOT_FIRST ==> es != [] && es[0] == Extension(c.grease.extFirst, []))
            && (c.profile.hasGrease && slots[|slots| - 1].id == GREASE_SLOT_LAST ==>
                  es != [] && es[|es| - 1] == Extension(c.grease.extLast, [0]))
  {
    assert slots[..|slots|] == slots;
    if c.profile.hasGrease && slots[0].id == GREASE_SLOT_FIRST {
      FirstStays(c, slots, |slots|);
    }
  }

  lemma {:induction false} NoGreaseWithout(c: Setup, slots: seq<Slot>)
    requires Drawn(c, slots) && !c.profile.hasGrease
    ensures forall e :: e in Built(c, slots) ==> !IsGrease(e.etype)
    decreases |slots|
  {
    hide StackBytes, IsGrease;
    if slots != [] {
      var last := |slots| - 1;
      NoGreaseWithout(c, slots[..last]);
      NotGreased(c, slots[last], |StackBytes(Built(c, slots[..last]))|);
    }
  }

  lemma NotGreased(c: Setup, slot: Slot, written: nat)
    requires |slot.random| == RandomLen(c, slot.id) && !c.profile.hasGrease
    ensures forall e :: e in Emitted(c, slot, written) ==> !IsGrease(e.etype)
  {
    hide ShareData, EchData, ServerNameData, CodeList, ShortCodeList, ProtocolList;
  }
}
