/** The handshake on the wire, from profile and keys to mirrored keys on both sides
    (`engine/src/tlseng/handshake.rs`, lines 130-200 and 306-378; `engine/src/bridge.rs`, lines 192-285). */
module Handshakes {
  import opened Wrappers
  import opened Bytes
  import opened TlsRecords
  import opened Extensions
  import opened Sessions
  import opened Authentications
  import opened Shuffles
  import opened Hellos
  import opened HelloBuilders
  import opened HelloSizes

  // ------------------------------------------------------------ client's hello

  /** All that is drawn for one hello. */
  datatype HelloDraws = HelloDraws(grease: GreaseSet, filler: bytes, slots: seq<Slot>)

  function Suites(p: Profile, grease: GreaseSet): seq<u16>
  {
    (if p.hasGrease then [grease.cipher] else []) + p.cipherSuites
  }

  /** Everything in the record's payload but the extensions. */
  function Overhead(suites: nat): nat
  {
    4 + (2 + 32 + 1 + 32 + 2 + suites * 2 + 2 + 2)
  }

  function SetupOf(p: Profile, host: bytes, c: Session, d: HelloDraws): Setup
  {
    Setup(p, d.grease, host, c.publicKey, Overhead(|Suites(p, d.grease)|))
  }

  /** The draws that can occur. */
  ghost predicate Possible(p: Profile, host: bytes, c: Session, d: HelloDraws)
  {
    && AllGrease(d.grease) && |d.filler| == 15
    && Drawn(SetupOf(p, host, c, d), d.slots) && OrderedBy(p, Ids(d.slots))
  }

  function ExtensionsOf(p: Profile, host: bytes, c: Session, d: HelloDraws): seq<Extension>
    requires Possible(p, host, c, d)
  {
    Built(SetupOf(p, host, c, d), d.slots)
  }

  function ClientHelloOf(mac: Mac, p: Profile, host: bytes, c: Session, d: HelloDraws, step: u64): ClientHello
    requires Possible(p, host, c, d)
  {
    ClientHello(Tls12, c.localSalt, SessionId(mac, c, d.filler, step), Suites(p, d.grease), StackBytes(ExtensionsOf(p, host, c, d)))
  }

  function ClientRecord(p: Profile, h: ClientHello): TlsRecord
  {
    TlsRecord(Handshake, p.recordVersion, HelloBytes(CLIENT_HELLO, ClientBody(h)))
  }

  method MakeClientHello(mac: Mac, p: Profile, host: bytes, keys: SessionKeys, step: u64)
      returns (wire: bytes, ghost d: HelloDraws)
    ensures Possible(p, host, keys.Value(), d)
    ensures wire == RecordBytes(ClientRecord(p, ClientHelloOf(mac, p, host, keys.Value(), d, step)))
    ensures PaddingLast(p.extensionOrder) ==>
              |wire| == RECORD_HEADER_SIZE + if p.targetPaddingLen > PlainSize(p, host) + 4 then p.targetPaddingLen else PlainSize(p, host)
  {
    hide ClientBody, HelloBytes, RecordBytes, StackBytes, Built, PlainSize, ComputeTag, ComputeHandshakeTag, Drawn, OrderedBy, AllGrease;
    ghost var c := keys.Value();
    var random := keys.localSalt;
    var filler := RandomBytes(15);
    var claimed := if keys.identity.Some? then PROTOCOL_VERSION else PROTOCOL_VERSION_ANONYMOUS;
    var tag := HandshakeTag(mac, keys.Value(), random, step);
    var sessionId := [claimed] + filler + tag;
    var grease := RandomGrease();
    var suites: seq<u16> := [];
    if p.hasGrease {
      suites := [grease.cipher];
    }
    suites := suites + p.cipherSuites;
    var overhead := 4 + (2 + 32 + 1 + 32 + 2 + (|suites| * 2) + 2 + 2);
    var builder := new ExtensionBuilder(grease);
    ghost var slots := builder.ApplyProfile(p, host, keys.publicKey, overhead);
    d := HelloDraws(grease, filler, slots);
    var body := SerializeClientHello(ClientHello(Tls12, random, sessionId, suites, builder.payload));
    wire := Serialize(TlsRecord(Handshake, p.recordVersion, body));
    if PaddingLast(p.extensionOrder) {
      ClientHelloSize(mac, p, host, c, d, step);
    }
  }

  lemma BodyLen(h: ClientHello)
    requires |h.sessionId| == 32
    ensures |HelloBytes(CLIENT_HELLO, ClientBody(h))| == 4 + |ClientBody(h)| == Overhead(|h.cipherSuites|) + |h.extensions|
  {}

  /** Size without padding, whatever is drawn. */
  function PlainSize(p: Profile, host: bytes): nat
  {
    Overhead(|p.cipherSuites| + if p.hasGrease then 1 else 0) + UnpaddedBlock(p, host)
  }

  /** The record's payload has the target size for every shuffle and every draw when more than four bytes
      are missing, and the plain size when not: the size of a hello is decided by profile and host. */
  lemma ClientHelloSize(mac: Mac, p: Profile, host: bytes, c: Session, d: HelloDraws, step: u64)
    requires Possible(p, host, c, d) && PaddingLast(p.extensionOrder)
    ensures |ClientRecord(p, ClientHelloOf(mac, p, host, c, d, step)).payload|
            == if p.targetPaddingLen > PlainSize(p, host) + 4 then p.targetPaddingLen else PlainSize(p, host)
  {
    hide ClientBody, HelloBytes, StackBytes, Built, UnpaddedBlock;
    BlockSize(SetupOf(p, host, c, d), d.slots);
    BodyLen(ClientHelloOf(mac, p, host, c, d, step));
  }

  /** The comment at the call promises a payload of at least the target. That holds exactly when the plain
      size reaches the target by itself or lies more than four bytes below it. */
  lemma TargetIsReachedIff(mac: Mac, p: Profile, host: bytes, c: Session, d: HelloDraws, step: u64)
    requires Possible(p, host, c, d) && PaddingLast(p.extensionOrder)
    ensures |ClientRecord(p, ClientHelloOf(mac, p, host, c, d, step)).payload| >= p.targetPaddingLen
            <==> PlainSize(p, host) >= p.targetPaddingLen || PlainSize(p, host) + 4 < p.targetPaddingLen
  {
    hide UnpaddedBlock;
    ClientHelloSize(mac, p, host, c, d, step);
  }

  /** One of the profiles that pad. With a host name of 322 bytes its payload falls within the range of
      256 to 511 bytes that padding is there to avoid. */
  const CHROME_131: Profile := Profile(
    [GROUP_X25519, 0x0017], [0x0403, 0x0804, 0x0401, 0x0503, 0x0805, 0x0501, 0x0806],
    [0x0403, 0x0804, 0x0401, 0x0503, 0x0805, 0x0501, 0x0806], [0x0304],
    [[0x68, 0x32], [0x68, 0x74, 0x74, 0x70, 0x2f, 0x31, 0x2e, 0x31]],
    [0xaaaa, SNI, SUPPORTED_GROUPS, SIGNATURE_ALGORITHMS, KEY_SHARE, SUPPORTED_VERSIONS, PADDING],
    [0x1301, 0x1302, 0x1303], Tls10, 512, [[0x68, 0x32]], true, true)

  lemma SizeOfOne(p: Profile, host: bytes, id: u16, e: Extension)
    requires Emitted(Canonical(p, host), Slot(id, seq(RandomLen(Canonical(p, host), id), _ => 0)), 0) == [e] && id != PADDING
    ensures Sizes(p, host)(id) == 4 + |e.data|
  {
    OneExtension(e);
  }

  lemma {:induction false} SumStep(size: u16 -> nat, ids: seq<u16>, id: u16)
    ensures Sum(size, ids + [id]) == Sum(size, ids) + size(id)
  {}

  lemma ChromeSlots(host: bytes)
    ensures var size := Sizes(CHROME_131, host);
            && size(0xaaaa) == 4 && size(SNI) == 9 + |host| && size(SUPPORTED_GROUPS) == 12
            && size(SIGNATURE_ALGORITHMS) == 20 && size(KEY_SHARE) == 47 && size(SUPPORTED_VERSIONS) == 9 && size(PADDING) == 0
  {
    var p := CHROME_131;
    var c := Canonical(p, host);
    hide SuiteBytes, KeyListBytes, StackBytes, IsGrease;
    assert IsGrease(0xaaaa) by { GreaseExactly(0xaaaa); assert GREASE_VALUES[10] == 0xaaaa; }
    SizeOfOne(p, host, 0xaaaa, Extension(0xaaaa, []));
    SizeOfOne(p, host, SNI, Extension(SNI, ServerNameData(host)));
    SizeOfOne(p, host, SUPPORTED_GROUPS, Extension(SUPPORTED_GROUPS, PlainData(c, SUPPORTED_GROUPS).value));
    SizeOfOne(p, host, SIGNATURE_ALGORITHMS, Extension(SIGNATURE_ALGORITHMS, PlainData(c, SIGNATURE_ALGORITHMS).value));
    SizeOfOne(p, host, SUPPORTED_VERSIONS, Extension(SUPPORTED_VERSIONS, PlainData(c, SUPPORTED_VERSIONS).value));
    SizeOfOne(p, host, KEY_SHARE, Extension(KEY_SHARE, ShareData(c, [])));
    ShareEntriesFit(c, []);
  }

  /** For every draw the payload has 508 bytes. The name is longer than a DNS name may be, but the builder
      takes any string and does not look at its length. */
  lemma PaddingCanMissTarget(mac: Mac, c: Session, d: HelloDraws, host: bytes, step: u64)
    requires Possible(CHROME_131, host, c, d) && |host| == 322
    ensures |ClientRecord(CHROME_131, ClientHelloOf(mac, CHROME_131, host, c, d, step)).payload| == 508
  {
    hide Possible, ClientHelloOf, ClientRecord, Sizes, Sum;
    ClientHelloSize(mac, CHROME_131, host, c, d, step);
    ChromeSize(host);
  }

  lemma ChromeSize(host: bytes)
    ensures PlainSize(CHROME_131, host) == 186 + |host| && PaddingLast(CHROME_131.extensionOrder)
  {
    hide Sizes;
    ChromeSlots(host);
    var size := Sizes(CHROME_131, host);
    assert Sum(size, []) == 0;
    var a := [0xaaaa, SNI];
    var b := a + [SUPPORTED_GROUPS];
    var c := b + [SIGNATURE_ALGORITHMS];
    var d := c + [KEY_SHARE];
    var e := d + [SUPPORTED_VERSIONS];
    SumStep(size, [], 0xaaaa);
    assert [] + [0xaaaa] == [0xaaaa] && [0xaaaa] + [SNI] == a;
    SumStep(size, [0xaaaa], SNI);
    SumStep(size, a, SUPPORTED_GROUPS);
    SumStep(size, b, SIGNATURE_ALGORITHMS);
    SumStep(size, c, KEY_SHARE);
    SumStep(size, d, SUPPORTED_VERSIONS);
    SumStep(size, e, PADDING);
    assert e + [PADDING] == CHROME_131.extensionOrder;
  }

  /** The bound that everything here asks for: the message fits one record. */
  predicate FitsRecord(p: Profile, h: ClientHello)
  {
    |ClientRecord(p, h).payload| < U16_SIZE
  }

  lemma {:induction false} FitsBySize(es: seq<Extension>)
    requires |StackBytes(es)| < U16_SIZE
    ensures Fits(es)
  {
    if es != [] {
      FitsBySize(es[1..]);
      assert forall e :: e in es ==> e == es[0] || e in es[1..];
    }
  }

  lemma {:induction false} FoundFits(es: seq<Extension>, etype: u16)
    ensures FindByType(es, etype).Some? ==> |FindByType(es, etype).value| <= |StackBytes(es)|
  {
    if es != [] {
      FoundFits(es[1..], etype);
    }
  }

  /** What a client puts into the session id: the version it claims, and the tag over what it sends. */
  lemma TagInHello(mac: Mac, c: Session, filler: bytes, step: u64)
    requires |filler| == 15
    ensures var id := SessionId(mac, c, filler, step);
            && |id| == 32 && id[0] == (if c.identity.Some? then 3 else 2)
            && id[16..] == (if c.identity.Some? then mac(Raw(c.identity.value.secret), HandshakeMessage(step, c.localSalt, c.publicKey))
                            else mac(c.authKey, U64(step)))
  {
    hide U64;
  }

  /** Parsing undoes building: from the wire the server gets the client's random, session id and cipher
      list, the host, and the key, for every profile, shuffle and draw. */
  lemma ClientHelloRecovered(mac: Mac, p: Profile, host: bytes, c: Session, d: HelloDraws, step: u64, rest: bytes)
    requires Possible(p, host, c, d) && FitsRecord(p, ClientHelloOf(mac, p, host, c, d, step))
    ensures var h, es := ClientHelloOf(mac, p, host, c, d, step), ExtensionsOf(p, host, c, d);
            && MessageOnWire(RecordBytes(ClientRecord(p, h)) + rest) == Some((Ok(Client(h, es)), rest))
            && ParseRecord(RecordBytes(ClientRecord(p, h)) + rest).Parsed?
            && ParseRecord(RecordBytes(ClientRecord(p, h)) + rest).record.version == p.recordVersion
            && h.random == c.localSalt && |h.sessionId| == 32 && h.sessionId[0] == (if c.identity.Some? then 3 else 2)
            && h.sessionId[16..] == (if c.identity.Some? then mac(Raw(c.identity.value.secret), HandshakeMessage(step, c.localSalt, c.publicKey))
                                     else mac(c.authKey, U64(step)))
            && h.cipherSuites == (if p.hasGrease then [d.grease.cipher] else []) + p.cipherSuites
            && PeerPublic(es, true) == (if KEY_SHARE !in p.extensionOrder then Err(NoKeyShare)
                                        else if AllZero(c.publicKey) then Err(ZeroKey) else Ok(c.publicKey))
            && ServerName(es) == (if SNI in p.extensionOrder then Some(host) else None)
  {
    hide ClientBody, HelloBytes, RecordBytes, ParseRecord, StackBytes, Built, MessageOnWire, PeerPublic, ServerName, AllZero, FindByType;
    var h, es := ClientHelloOf(mac, p, host, c, d, step), ExtensionsOf(p, host, c, d);
    TagInHello(mac, c, d.filler, step);
    BodyLen(h);
    FitsBySize(es);
    ClientPipeline(p.recordVersion, h, es, rest);
    RecordRoundTrip(ClientRecord(p, h), rest);
    SameIds(p, Ids(d.slots), KEY_SHARE);
    SameIds(p, Ids(d.slots), SNI);
    KeyRecovered(SetupOf(p, host, c, d), d.slots);
    HostFound(p, host, c, d);
  }

  lemma SameIds(p: Profile, ids: seq<u16>, id: u16)
    requires OrderedBy(p, ids)
    ensures id in ids <==> id in p.extensionOrder
  {
    assert id in ids <==> id in multiset(ids);
    assert id in p.extensionOrder <==> id in multiset(p.extensionOrder);
  }

  lemma HostFound(p: Profile, host: bytes, c: Session, d: HelloDraws)
    requires Possible(p, host, c, d) && |StackBytes(ExtensionsOf(p, host, c, d))| + 60 < U16_SIZE
    ensures ServerName(ExtensionsOf(p, host, c, d)) == if SNI in Ids(d.slots) then Some(host) else None
  {
    hide Built, StackBytes, FindByType, HostIn;
    var es := ExtensionsOf(p, host, c, d);
    var k := Found(SetupOf(p, host, c, d), d.slots, SNI);
    if SNI in Ids(d.slots) {
      FoundFits(es, SNI);
      ServerNameRoundTrip(host);
    }
  }

  // ------------------------------------------------------------ server's hello

  datatype ServerProfile = ServerProfile(
    versions: seq<u16>, recordVersion: ProtocolVersion, cipherSuites: seq<u16>, honorCipherOrder: bool)

  const FALLBACK_SUITE: u16 := 0x1301

  function MaxVersion(versions: seq<u16>): ProtocolVersion
  {
    if 0x0304 in versions then Tls13 else if 0x0303 in versions then Tls12 else Tls10
  }

  /** The first of the preferences that is on offer. */
  function FirstOffered(preferences: seq<u16>, offer: seq<u16>): u16
  {
    if preferences == [] then FALLBACK_SUITE
    else if preferences[0] in offer then preferences[0]
    else FirstOffered(preferences[1..], offer)
  }

  function SelectSuite(p: ServerProfile, offered: seq<u16>): u16
  {
    if p.honorCipherOrder then FirstOffered(p.cipherSuites, offered) else FirstOffered(offered, p.cipherSuites)
  }

  /** The choice is common to both sides if anything is, and nothing common is preferred to it by the side whose
      order counts; the fallback is answered when there is nothing else. */
  ghost predicate IsBest(preferences: seq<u16>, offer: seq<u16>, choice: u16)
  {
    if exists suite :: suite in preferences && suite in offer then
      exists k: nat :: k < |preferences| && choice == preferences[k] && choice in offer
        && forall i :: 0 <= i < k ==> preferences[i] !in offer
    else choice == 0x1301
  }

  lemma {:induction false} FirstOfferedIsBest(preferences: seq<u16>, offer: seq<u16>)
    ensures IsBest(preferences, offer, FirstOffered(preferences, offer))
  {
    if preferences != [] && preferences[0] !in offer {
      var less := preferences[1..];
      FirstOfferedIsBest(less, offer);
      if suite :| suite in preferences && suite in offer {
        assert suite in less;
        var choice := FirstOffered(less, offer);
        var k: nat :| k < |less| && choice == less[k] && choice in offer && forall i :: 0 <= i < k ==> less[i] !in offer;
        assert preferences[k + 1] == choice;
        assert forall i :: 1 <= i < k + 1 ==> preferences[i] == less[i - 1];
      }
    } else if preferences != [] {
      assert preferences[0] in offer;
    }
  }

  /** Whose order counts: the server's own if its profile says so, else the client's. */
  lemma SuiteIsPreferred(p: ServerProfile, offered: seq<u16>)
    ensures p.honorCipherOrder ==> IsBest(p.cipherSuites, offered, SelectSuite(p, offered))
    ensures !p.honorCipherOrder ==> IsBest(offered, p.cipherSuites, SelectSuite(p, offered))
  {
    hide IsBest, FirstOffered;
    FirstOfferedIsBest(p.cipherSuites, offered);
    FirstOfferedIsBest(offered, p.cipherSuites);
  }

  function AnswerShare(publicKey: Key32): bytes
  {
    U16(GROUP_X25519) + U16(|publicKey|) + publicKey
  }

  function AnswerExtensions(p: ServerProfile, publicKey: Key32): seq<Extension>
  {
    [Extension(SUPPORTED_VERSIONS, U16(VersionCode(MaxVersion(p.versions)))), Extension(KEY_SHARE, AnswerShare(publicKey))]
  }

  function ServerHelloOf(p: ServerProfile, h: ClientHello, publicKey: Key32, salt: Key32): ServerHello
  {
    ServerHello(Tls12, salt, h.sessionId, SelectSuite(p, h.cipherSuites), StackBytes(AnswerExtensions(p, publicKey)))
  }

  function ServerRecord(p: ServerProfile, h: ServerHello): TlsRecord
  {
    TlsRecord(Handshake, p.recordVersion, HelloBytes(SERVER_HELLO, ServerBody(h)))
  }

  lemma TwoExtensions(a: Extension, b: Extension)
    ensures StackBytes([a, b]) == ExtensionBytes(a) + ExtensionBytes(b)
  {
    OneExtension(b);
    assert [a, b][1..] == [b];
  }

  method FromClientHello(h: ClientHello, publicKey: Key32, salt: Key32, p: ServerProfile) returns (r: ServerHello)
    ensures r == ServerHelloOf(p, h, publicKey, salt)
  {
    var suite := SelectSuite(p, h.cipherSuites);
    var selectedVersion := MaxVersion(p.versions);
    var keyLen := |publicKey|;
    var versions := U16(0x002b) + U16(2) + U16(VersionCode(selectedVersion));
    var share := U16(0x0033) + U16(keyLen + 4) + (U16(0x001d) + U16(keyLen) + publicKey);
    TwoExtensions(AnswerExtensions(p, publicKey)[0], AnswerExtensions(p, publicKey)[1]);
    r := ServerHello(Tls12, salt, h.sessionId, suite, versions + share);
  }

  method MakeServerHello(h: ClientHello, publicKey: Key32, salt: Key32, p: ServerProfile) returns (wire: bytes)
    ensures wire == RecordBytes(ServerRecord(p, ServerHelloOf(p, h, publicKey, salt)))
  {
    hide HelloBytes, ServerBody, RecordBytes;
    var hello := FromClientHello(h, publicKey, salt, p);
    var body := SerializeServerHello(hello);
    wire := Serialize(TlsRecord(Handshake, p.recordVersion, body));
  }

  /** The client finds the server's key in the only entry. */
  lemma AnswerKeyRecovered(p: ServerProfile, publicKey: Key32)
    requires !AllZero(publicKey)
    ensures PeerPublic(AnswerExtensions(p, publicKey), false) == Ok(publicKey)
  {
    var es, data := AnswerExtensions(p, publicKey), AnswerShare(publicKey);
    assert es[1..] == [Extension(KEY_SHARE, data)];
    assert FindByType(es[1..], KEY_SHARE) == Some(data);
    assert FindByType(es, KEY_SHARE) == Some(data);
    assert data[2..4] == U16(32) + [];
    U16RoundTrip(32, []);
    assert data[4..36] == publicKey;
  }

  /** What the answer says, byte by byte: the client's session id echoed, the server's salt as random, the
      highest version of the profile, and the key as an X25519 share. */
  lemma AnswerSays(p: ServerProfile, h: ClientHello, publicKey: Key32, salt: Key32)
    ensures var sh, es := ServerHelloOf(p, h, publicKey, salt), AnswerExtensions(p, publicKey);
            && sh.version.Tls12? && sh.random == salt && sh.sessionId == h.sessionId && sh.extensions == StackBytes(es)
            && FindByType(es, 0x002b) == Some(if 0x0304 in p.versions then [3, 4] else if 0x0303 in p.versions then [3, 3] else [3, 1])
            && FindByType(es, 0x0033) == Some([0x00, 0x1d, 0, 32] + publicKey)
            && |es| == 2
  {
    var es := AnswerExtensions(p, publicKey);
    assert es[1..] == [es[1]];
    assert FindByType(es[1..], 0x0033) == Some(es[1].data);
    assert es[1].data == [0x00, 0x1d, 0, 32] + publicKey;
  }

  /** Parsing undoes building on the server's side as well. */
  lemma ServerHelloRecovered(p: ServerProfile, h: ClientHello, publicKey: Key32, salt: Key32, rest: bytes)
    requires |h.sessionId| == 32 && !AllZero(publicKey)
    ensures var sh, es := ServerHelloOf(p, h, publicKey, salt), AnswerExtensions(p, publicKey);
            && MessageOnWire(RecordBytes(ServerRecord(p, sh)) + rest) == Some((Ok(Server(sh, es)), rest))
            && PeerPublic(es, false) == Ok(publicKey)
            && ParseRecord(RecordBytes(ServerRecord(p, sh)) + rest).Parsed?
            && ParseRecord(RecordBytes(ServerRecord(p, sh)) + rest).record.version == p.recordVersion
  {
    hide HelloBytes, RecordBytes, ParseRecord, MessageOnWire, PeerPublic, AllZero, StackBytes, SelectSuite;
    var sh, es := ServerHelloOf(p, h, publicKey, salt), AnswerExtensions(p, publicKey);
    AnswerKeyRecovered(p, publicKey);
    TwoExtensions(es[0], es[1]);
    assert Fits(es);
    assert |ServerBody(sh)| == 2 + 32 + 1 + 32 + 2 + 1 + 2 + |sh.extensions|;
    ServerPipeline(p.recordVersion, sh, es, rest);
    HelloHeader(SERVER_HELLO, ServerBody(sh));
    RecordRoundTrip(ServerRecord(p, sh), rest);
  }

  // ------------------------------------------------------------------ both

  datatype BridgeError = ExpectedClientHello | HandshakeFailed(error: HandshakeError)

  /** The server's answer to a message, and the version the client claims. */
  method WrapServerHello(g: Group, mac: Mac, msg: Message, keys: SessionKeys, p: ServerProfile, step: u64)
      returns (r: Result<(bytes, byte), BridgeError>)
    modifies keys
    ensures match msg
            case Server(_, _) => r == Err(ExpectedClientHello) && keys.Value() == old(keys.Value())
            case Client(h, es) =>
              var (s', answer) := AnswerHello(g, mac, old(keys.Value()), h.random, h.sessionId, es, step);
              && keys.Value() == s'
              && r == match answer
                      case Err(e) => Err(HandshakeFailed(e))
                      case Ok(version) => Ok((RecordBytes(ServerRecord(p, ServerHelloOf(p, h, keys.publicKey, keys.localSalt))), version))
  {
    hide RecordBytes, ServerHelloOf, ServerRecord, AnswerHello;
    match msg
    case Server(_, _) => return Err(ExpectedClientHello);
    case Client(h, es) =>
      var answer := keys.WrapServerHello(g, mac, h.random, h.sessionId, es, step);
      match answer
      case Err(e) => r := Err(HandshakeFailed(e));
      case Ok(version) =>
        var wire := MakeServerHello(h, keys.publicKey, keys.localSalt, p);
        r := Ok((wire, version));
  }

  /** The whole exchange over the wire: for every profile with a key share, every shuffle and draw, two
      salts, two ephemeral keys, matching credentials and clocks within the window, the server reads the
      hello and answers it, the client reads the answer, and both hold mirrored keys. */
  lemma WholeHandshake(
      g: Group, mac: Mac, p: Profile, sp: ServerProfile, host: bytes, d: HelloDraws,
      clientSalt: Key32, serverSalt: Key32, a: nat, b: nat, clientId: Option<Identity>, serverId: Option<Identity>,
      clientStep: u64, serverStep: u64, restC: bytes, restS: bytes)
    requires Commutes(g) && Matching(g, clientId, serverId) && ClocksAgree(clientStep, serverStep)
    requires !AllZero(g.pub(a)) && !AllZero(g.pub(b)) && KEY_SHARE in p.extensionOrder
    requires Possible(p, host, NewSession(g, true, clientSalt, a, clientId), d)
    requires FitsRecord(p, ClientHelloOf(mac, p, host, NewSession(g, true, clientSalt, a, clientId), d, clientStep))
    ensures var c, s := NewSession(g, true, clientSalt, a, clientId), NewSession(g, false, serverSalt, b, serverId);
            var h, es := ClientHelloOf(mac, p, host, c, d, clientStep), ExtensionsOf(p, host, c, d);
            var sh, answerEs := ServerHelloOf(sp, h, s.publicKey, s.localSalt), AnswerExtensions(sp, s.publicKey);
            var (s', answer) := AnswerHello(g, mac, s, h.random, h.sessionId, es, serverStep);
            var (c', keys) := UpdateKeysIn(g, c, sh.random, answerEs, false);
            && MessageOnWire(RecordBytes(ClientRecord(p, h)) + restC) == Some((Ok(Client(h, es)), restC))
            && answer == Ok(ClaimedVersion(clientId))
            && MessageOnWire(RecordBytes(ServerRecord(sp, sh)) + restS) == Some((Ok(Server(sh, answerEs)), restS))
            && keys.Ok? && Mirrored(c', s')
  {
    hide MessageOnWire, RecordBytes, ClientRecord, ServerRecord, AnswerHello, UpdateKeysIn, ExtensionsOf, AnswerExtensions,
         FitsRecord, Mirrored, StackBytes, PeerPublic, AllZero, SelectSuite, Possible;
    var c := NewSession(g, true, clientSalt, a, clientId);
    var h := ClientHelloOf(mac, p, host, c, d, clientStep);
    ClientHelloRecovered(mac, p, host, c, d, clientStep, restC);
    assert |d.filler| == 15 by { FillerLen(p, host, c, d); }
    ServerHelloRecovered(sp, h, g.pub(b), serverSalt, restS);
    HandshakeAgreement(g, mac, clientSalt, serverSalt, a, b, clientId, serverId, d.filler,
                       ExtensionsOf(p, host, c, d), AnswerExtensions(sp, g.pub(b)), clientStep, serverStep);
  }

  lemma FillerLen(p: Profile, host: bytes, c: Session, d: HelloDraws)
    requires Possible(p, host, c, d)
    ensures |d.filler| == 15
  {}
}
