/** Key agreement and time-based authentication (`engine/src/crypto/session.rs`,
    `engine/src/crypto/identity.rs`, lines 66-192, and `engine/src/bridge.rs`, lines 203-285). */
module Sessions {
  import opened Wrappers
  import opened Bytes
  import opened Crypto
  import opened Frames
  import opened Extensions
  import KeyRatchets

  type Key32 = s: bytes | |s| == 32 witness ZERO_KEY

  const ZERO_KEY: bytes := [
    0, 0, 0, 0, 0, 0, 0, 0, 0, 0, 0, 0, 0, 0, 0, 0, 0, 0, 0, 0, 0, 0, 0, 0, 0, 0, 0, 0, 0, 0, 0, 0]

  // -------------------------------------------------------- cryptography

  /** Diffie-Hellman as two functions of which only commutativity is ever assumed. */
  datatype Group = Group(pub: nat -> Key32, dh: (nat, Key32) -> Key32)

  ghost predicate Commutes(g: Group)
  {
    forall a, b :: g.dh(a, g.pub(b)) == g.dh(b, g.pub(a))
  }

  datatype MacKey = Raw(bytes: bytes) | Derived(secret: Secret)

  /** The first sixteen bytes of an HMAC: any function of key and message. */
  type Mac = (MacKey, bytes) -> Tag

  // --------------------------------------------------------- tags by time step

  const AUTH_WINDOW_SIZE: u64 := 2
  const U64_MAX: u64 := 0xFFFF_FFFF_FFFF_FFFF

  /** "nrxp-handshake-v3" */
  const HANDSHAKE_DOMAIN: bytes := [
    0x6e, 0x72, 0x78, 0x70, 0x2d, 0x68, 0x61, 0x6e, 0x64, 0x73, 0x68, 0x61, 0x6b, 0x65, 0x2d, 0x76, 0x33]

  /** "nrxp-v3-static-dh" */
  const IKM_DOMAIN_V3: bytes := [
    0x6e, 0x72, 0x78, 0x70, 0x2d, 0x76, 0x33, 0x2d, 0x73, 0x74, 0x61, 0x74, 0x69, 0x63, 0x2d, 0x64, 0x68]

  function ComputeTag(mac: Mac, key: MacKey, step: u64): Tag
  {
    mac(key, U64(step))
  }

  function ComputeHandshakeTag(mac: Mac, secret: Key32, step: u64, random: Key32, peerPublic: Key32): Tag
  {
    mac(Raw(secret), HANDSHAKE_DOMAIN + U64(step) + random + peerPublic)
  }

  function WindowLow(current: u64): u64
  {
    if current >= AUTH_WINDOW_SIZE then current - AUTH_WINDOW_SIZE else 0
  }

  function WindowHigh(current: u64): u64
  {
    if current <= U64_MAX - AUTH_WINDOW_SIZE then current + AUTH_WINDOW_SIZE else U64_MAX
  }

  /** The tag of some step in the window, by whatever rule tags are made. */
  ghost predicate InWindow(tagAt: u64 -> Tag, current: u64, received: Tag)
  {
    exists step: u64 :: WindowLow(current) <= step <= WindowHigh(current) && tagAt(step) == received
  }

  /** The constant-time loop: every step of the window is tried, `matched` and the first matching step
      are accumulated without leaving early. */
  method VerifyTag(tagAt: u64 -> Tag, current: u64, received: Tag) returns (ok: bool, matchedStep: u64, ghost tried: nat)
    ensures ok <==> InWindow(tagAt, current, received)
    ensures ok ==> WindowLow(current) <= matchedStep <= WindowHigh(current) && tagAt(matchedStep) == received
    ensures ok ==> forall step: u64 :: WindowLow(current) <= step < matchedStep ==> tagAt(step) != received
    ensures tried == WindowHigh(current) as int - WindowLow(current) as int + 1
  {
    ok, matchedStep, tried := false, 0, 0;
    var low: u64, high: u64 := WindowLow(current), WindowHigh(current);
    var next: nat := low;
    while next <= high
      invariant low <= next <= high + 1 && tried == next - low
      invariant !ok ==> forall step: u64 :: low <= step < next ==> tagAt(step) != received
      invariant ok ==> low <= matchedStep < next && tagAt(matchedStep) == received
      invariant ok ==> forall step: u64 :: low <= step < matchedStep ==> tagAt(step) != received
    {
      var step: u64 := next;
      var candidate := tagAt(step);
      var eq := candidate == received;
      var take := eq && !ok;
      matchedStep := if take then step else matchedStep;
      ok := ok || eq;
      tried := tried + 1;
      next := next + 1;
    }
  }

  // ------------------------------------------------------------ credentials

  datatype Identity =
    | Peer(secret: Key32, staticPublic: Key32)
    | Local(secret: Key32, staticPrivate: nat, strict: bool)

  predicate RejectsAnonymous(id: Option<Identity>)
  {
    match id
    case None => false
    case Some(Peer(_, _)) => true
    case Some(Local(_, _, strict)) => strict
  }

  const PROTOCOL_VERSION: byte := 3
  const PROTOCOL_VERSION_ANONYMOUS: byte := 2
  const MIN_VERSION_FOR_STATIC_DH: byte := 3

  // ------------------------------------------------------------ session state

  datatype AeadKeys = AeadKeys(txKey: Secret, txIv: Secret, rxKey: Secret, rxIv: Secret)

  datatype Session = Session(
    localSalt: Key32, remoteSalt: Key32, isInitiator: bool,
    privateKey: Option<nat>, publicKey: Key32,
    authKey: MacKey, aead: Option<AeadKeys>,
    identity: Option<Identity>, peerVersion: byte, datagramRoot: Option<Secret>)

  function ClaimedVersion(identity: Option<Identity>): byte
  {
    if identity.Some? then PROTOCOL_VERSION else PROTOCOL_VERSION_ANONYMOUS
  }

  function NewSession(g: Group, isInitiator: bool, salt: Key32, privateKey: nat, identity: Option<Identity>): Session
  {
    Session(salt, ZERO_KEY, isInitiator, Some(privateKey), g.pub(privateKey),
            Raw(ZERO_KEY), None, identity, ClaimedVersion(identity), None)
  }

  /** The initiator's salt first, on either side. */
  function TotalSalt(s: Session): bytes
  {
    if s.isInitiator then s.localSalt + s.remoteSalt else s.remoteSalt + s.localSalt
  }

  predicate UsesStaticDh(s: Session)
  {
    s.identity.Some? && s.peerVersion >= MIN_VERSION_FOR_STATIC_DH
  }

  datatype SessionError = Tampered(error: TamperError) | NoSharedSecret | NoStaticSecret

  function StaticDh(g: Group, id: Identity, privateKey: Option<nat>, peerPublic: Key32): Option<Key32>
  {
    match id
    case Peer(_, staticPublic) => if privateKey.Some? then Some(g.dh(privateKey.value, staticPublic)) else None
    case Local(_, staticPrivate, _) => Some(g.dh(staticPrivate, peerPublic))
  }

  /** The key material: one exchange, or two and a domain label. */
  function InputKeyMaterial(g: Group, s: Session, peerPublic: Key32): Result<bytes, SessionError>
  {
    if s.privateKey.None? then Err(NoSharedSecret)
    else
      var ephemeral := g.dh(s.privateKey.value, peerPublic);
      if !UsesStaticDh(s) then Ok(ephemeral)
      else
        match StaticDh(g, s.identity.value, s.privateKey, peerPublic)
        case None => Err(NoStaticSecret)
        case Some(second) => Ok(ephemeral + second + IKM_DOMAIN_V3)
  }

  function KeysFrom(prk: Secret, isServer: bool): AeadKeys
  {
    var cKey, cIv := Expand(prk, "client_aead"), Expand(prk, "client_iv");
    var sKey, sIv := Expand(prk, "server_aead"), Expand(prk, "server_iv");
    if isServer then AeadKeys(sKey, sIv, cKey, cIv) else AeadKeys(cKey, cIv, sKey, sIv)
  }

  function GenerateKeysIn(g: Group, s: Session, peerPublic: Key32, isServer: bool): (Session, Result<AeadKeys, SessionError>)
  {
    match InputKeyMaterial(g, s, peerPublic)
    case Err(e) => (s, Err(e))
    case Ok(ikm) =>
      var prk := Prk(TotalSalt(s), ikm);
      var keys := KeysFrom(prk, isServer);
      (s.(privateKey := None, datagramRoot := Some(prk), authKey := Derived(Expand(prk, "auth_key")), aead := Some(keys)), Ok(keys))
  }

  function UpdateKeysIn(g: Group, s: Session, salt: Key32, es: seq<Extension>, isServer: bool): (Session, Result<AeadKeys, SessionError>)
  {
    var s' := s.(remoteSalt := salt);
    KeyLength(es, isServer);
    match PeerPublic(es, isServer)
    case Err(e) => (s', Err(Tampered(e)))
    case Ok(peerPublic) => GenerateKeysIn(g, s', peerPublic, isServer)
  }

  /** The tag a client puts into its hello. */
  function HandshakeTag(mac: Mac, s: Session, random: Key32, step: u64): Tag
  {
    match s.identity
    case Some(id) => ComputeHandshakeTag(mac, id.secret, step, random, s.publicKey)
    case None => ComputeTag(mac, s.authKey, step)
  }

  /** Whether a server accepts a tag. */
  ghost predicate AcceptsTag(mac: Mac, s: Session, received: Tag, random: Key32, peerPublic: Key32, step: u64)
  {
    if UsesStaticDh(s) then
      InWindow(t => ComputeHandshakeTag(mac, s.identity.value.secret, t, random, peerPublic), step, received)
    else if RejectsAnonymous(s.identity) then false
    else InWindow(t => ComputeTag(mac, s.authKey, t), step, received)
  }

  datatype HandshakeError = InvalidSessionId | BadKeyShare | AuthFailed | KeyExchangeFailed

  /** The server's side of a hello: version first, then the tag, only then the keys. */
  ghost function AnswerHello(g: Group, mac: Mac, s: Session, random: Key32, sessionId: bytes, es: seq<Extension>, step: u64)
    : (Session, Result<byte, HandshakeError>)
  {
    if |sessionId| != 32 then (s, Err(InvalidSessionId))
    else
      var s' := s.(peerVersion := sessionId[0]);
      KeyLength(es, true);
      match PeerPublic(es, true)
      case Err(_) => (s', Err(BadKeyShare))
      case Ok(peerPublic) =>
        if !AcceptsTag(mac, s', sessionId[16..32], random, peerPublic, step) then (s', Err(AuthFailed))
        else
          var (s'', keys) := UpdateKeysIn(g, s', random, es, true);
          (s'', if keys.Err? then Err(KeyExchangeFailed) else Ok(sessionId[0]))
  }

  // ---------------------------------------------------------------- the object

  class SessionKeys {
    const localSalt: Key32
    const isInitiator: bool
    const publicKey: Key32
    const identity: Option<Identity>
    var remoteSalt: Key32
    var privateKey: Option<nat>
    var authKey: MacKey
    var aead: Option<AeadKeys>
    var peerVersion: byte
    var datagramRoot: Option<Secret>

    function Value(): Session
      reads this
    {
      Session(localSalt, remoteSalt, isInitiator, privateKey, publicKey, authKey, aead, identity, peerVersion, datagramRoot)
    }

    constructor (g: Group, isInitiator: bool, salt: Key32, ephemeral: nat, identity: Option<Identity>)
      ensures Value() == NewSession(g, isInitiator, salt, ephemeral, identity)
    {
      this.localSalt, this.isInitiator, this.identity := salt, isInitiator, identity;
      publicKey := g.pub(ephemeral);
      remoteSalt := ZERO_KEY;
      privateKey := Some(ephemeral);
      authKey := Raw(ZERO_KEY);
      aead := None;
      peerVersion := if identity.Some? then PROTOCOL_VERSION else PROTOCOL_VERSION_ANONYMOUS;
      datagramRoot := None;
    }

    method GenerateKeys(g: Group, peerPublic: Key32, isServer: bool) returns (r: Result<AeadKeys, SessionError>)
      modifies this
      ensures (Value(), r) == GenerateKeysIn(g, old(Value()), peerPublic, isServer)
    {
      if privateKey.None? {
        return Err(NoSharedSecret);
      }
      var ikm: bytes := g.dh(privateKey.value, peerPublic);
      if UsesStaticDh(Value()) {
        var staticDh := StaticDh(g, identity.value, privateKey, peerPublic);
        if staticDh.None? {
          return Err(NoStaticSecret);
        }
        ikm := ikm + staticDh.value;
        ikm := ikm + IKM_DOMAIN_V3;
      }
      privateKey := None;
      var prk := Prk(TotalSalt(Value()), ikm);
      datagramRoot := Some(prk);
      var cKey, cIv := Expand(prk, "client_aead"), Expand(prk, "client_iv");
      var sKey, sIv := Expand(prk, "server_aead"), Expand(prk, "server_iv");
      authKey := Derived(Expand(prk, "auth_key"));
      var keys := if isServer then AeadKeys(sKey, sIv, cKey, cIv) else AeadKeys(cKey, cIv, sKey, sIv);
      aead := Some(keys);
      r := Ok(keys);
    }

    method UpdateKeys(g: Group, salt: Key32, es: seq<Extension>, isServer: bool) returns (r: Result<AeadKeys, SessionError>)
      modifies this
      ensures (Value(), r) == UpdateKeysIn(g, old(Value()), salt, es, isServer)
    {
      remoteSalt := salt;
      var peerPublic := ExtractPeerPublic(es, isServer);
      match peerPublic
      case Err(e) => r := Err(Tampered(e));
      case Ok(key) => r := GenerateKeys(g, key, isServer);
    }

    method VerifyHandshakeTag(mac: Mac, received: Tag, random: Key32, peerPublic: Key32, step: u64) returns (ok: bool)
      ensures ok <==> AcceptsTag(mac, Value(), received, random, peerPublic, step)
    {
      if UsesStaticDh(Value()) {
        var secret := identity.value.secret;
        var matchedStep: u64;
        ghost var tried;
        ok, matchedStep, tried := VerifyTag(t => ComputeHandshakeTag(mac, secret, t, random, peerPublic), step, received);
      } else if RejectsAnonymous(identity) {
        ok := false;
      } else {
        var key := authKey;
        var matchedStep: u64;
        ghost var tried;
        ok, matchedStep, tried := VerifyTag(t => ComputeTag(mac, key, t), step, received);
      }
    }

    method WrapServerHello(g: Group, mac: Mac, random: Key32, sessionId: bytes, es: seq<Extension>, step: u64)
        returns (r: Result<byte, HandshakeError>)
      modifies this
      ensures (Value(), r) == AnswerHello(g, mac, old(Value()), random, sessionId, es, step)
    {
      if |sessionId| != 32 {
        return Err(InvalidSessionId);
      }
      peerVersion := sessionId[0];
      var receivedTag := sessionId[16..32];
      var peerPublic := ExtractPeerPublic(es, true);
      if peerPublic.Err? {
        return Err(BadKeyShare);
      }
      var ok := VerifyHandshakeTag(mac, receivedTag, random, peerPublic.value, step);
      if !ok {
        return Err(AuthFailed);
      }
      var keys := UpdateKeys(g, random, es, true);
      if keys.Err? {
        return Err(KeyExchangeFailed);
      }
      r := Ok(sessionId[0]);
    }
  }

  // ---------------------------------------------------------------- agreement

  /** Credentials that belong together: the node's own half, or none on a client of a lenient node. */
  ghost predicate Matching(g: Group, client: Option<Identity>, server: Option<Identity>)
  {
    match client
    case None => !RejectsAnonymous(server)
    case Some(c) =>
      && c.Peer? && server.Some? && server.value.Local?
      && c.secret == server.value.secret && c.staticPublic == g.pub(server.value.staticPrivate)
  }

  /** Clocks close enough: the client's step lies in the server's window. */
  predicate ClocksAgree(client: u64, server: u64)
  {
    WindowLow(server) <= client <= WindowHigh(server)
  }

  /** What both sides hold after a handshake that worked. */
  ghost predicate Mirrored(c: Session, s: Session)
  {
    && c.aead.Some? && s.aead.Some? && c.datagramRoot.Some?
    && c.aead.value.txKey == s.aead.value.rxKey && c.aead.value.txIv == s.aead.value.rxIv
    && c.aead.value.rxKey == s.aead.value.txKey && c.aead.value.rxIv == s.aead.value.txIv
    && c.aead.value.txKey != c.aead.value.rxKey
    && c.authKey == s.authKey && c.datagramRoot == s.datagramRoot
  }

  /** The session id of a client's hello: claimed version, filler, tag. */
  function SessionId(mac: Mac, c: Session, filler: bytes, step: u64): bytes
  {
    [ClaimedVersion(c.identity)] + filler + HandshakeTag(mac, c, c.localSalt, step)
  }

  lemma TagIsAccepted(mac: Mac, c: Session, s: Session, received: Tag, clientStep: u64, serverStep: u64)
    requires ClocksAgree(clientStep, serverStep)
    requires received == HandshakeTag(mac, c, c.localSalt, clientStep)
    requires c.identity.Some? ==> UsesStaticDh(s) && s.identity.value.secret == c.identity.value.secret
    requires c.identity.None? ==> !UsesStaticDh(s) && !RejectsAnonymous(s.identity) && s.authKey == c.authKey
    ensures AcceptsTag(mac, s, received, c.localSalt, c.publicKey, serverStep)
  {
    if c.identity.Some? {
      var tagAt := t => ComputeHandshakeTag(mac, s.identity.value.secret, t, c.localSalt, c.publicKey);
      assert tagAt(clientStep) == received;
      assert InWindow(tagAt, serverStep, received);
    } else {
      var tagAt := t => ComputeTag(mac, s.authKey, t);
      assert tagAt(clientStep) == received;
      assert InWindow(tagAt, serverStep, received);
    }
  }

  /** Handshake agreement: any two salts and ephemeral keys, matching credentials, and clocks within
      the window give mirror-image keys, one authentication key and one root for the UDP leg. */
  lemma HandshakeAgreement(
      g: Group, mac: Mac, clientSalt: Key32, serverSalt: Key32, a: nat, b: nat,
      clientId: Option<Identity>, serverId: Option<Identity>, filler: bytes,
      clientEs: seq<Extension>, serverEs: seq<Extension>, clientStep: u64, serverStep: u64)
    requires Commutes(g) && Matching(g, clientId, serverId) && ClocksAgree(clientStep, serverStep) && |filler| == 15
    requires PeerPublic(clientEs, true) == Ok(g.pub(a)) && PeerPublic(serverEs, false) == Ok(g.pub(b))
    ensures var c, s := NewSession(g, true, clientSalt, a, clientId), NewSession(g, false, serverSalt, b, serverId);
            var (s', answer) := AnswerHello(g, mac, s, clientSalt, SessionId(mac, c, filler, clientStep), clientEs, serverStep);
            var (c', keys) := UpdateKeysIn(g, c, serverSalt, serverEs, false);
            && answer == Ok(ClaimedVersion(clientId)) && keys.Ok? && Mirrored(c', s')
  {
    var c, s := NewSession(g, true, clientSalt, a, clientId), NewSession(g, false, serverSalt, b, serverId);
    var sessionId := SessionId(mac, c, filler, clientStep);
    var received := HandshakeTag(mac, c, clientSalt, clientStep);
    assert sessionId[16..32] == received;
    var s1 := s.(peerVersion := sessionId[0]);
    TagIsAccepted(mac, c, s1, received, clientStep, serverStep);
    SameMaterial(g, c.(remoteSalt := serverSalt), s1.(remoteSalt := clientSalt), a, b);
  }

  /** Both sides feed the same salt and the same key material into the extraction. */
  lemma SameMaterial(g: Group, c: Session, s: Session, a: nat, b: nat)
    requires Commutes(g) && Matching(g, c.identity, s.identity)
    requires c.isInitiator && !s.isInitiator && c.privateKey == Some(a) && s.privateKey == Some(b)
    requires c.localSalt == s.remoteSalt && c.remoteSalt == s.localSalt
    requires c.peerVersion == ClaimedVersion(c.identity) == s.peerVersion
    ensures TotalSalt(c) == TotalSalt(s)
    ensures InputKeyMaterial(g, c, g.pub(b)).Ok? && InputKeyMaterial(g, c, g.pub(b)) == InputKeyMaterial(g, s, g.pub(a))
  {}

  /** The ephemeral key is burned: a second derivation on the same state always fails and leaves the
      keys of the first in place. */
  lemma SecondDerivationFails(g: Group, s: Session, salt: Key32, es: seq<Extension>, isServer: bool, salt2: Key32, es2: seq<Extension>, isServer2: bool)
    requires UpdateKeysIn(g, s, salt, es, isServer).1.Ok?
    ensures var s' := UpdateKeysIn(g, s, salt, es, isServer).0;
            var (s'', again) := UpdateKeysIn(g, s', salt2, es2, isServer2);
            again.Err? && s''.aead == s'.aead && s''.authKey == s'.authKey && s''.datagramRoot == s'.datagramRoot
  {}

  /** Two derivations agree on the root exactly when they agree on both salts in order and on the key
      material; in particular a side that authenticates the node never agrees with one that does not,
      whatever ephemeral keys were used: a claimed version rewritten on the way cannot go unnoticed. */
  lemma RootsAgreeIff(g: Group, x: Session, y: Session, px: Key32, py: Key32)
    requires InputKeyMaterial(g, x, px).Ok? && InputKeyMaterial(g, y, py).Ok?
    ensures var x', y' := GenerateKeysIn(g, x, px, false).0, GenerateKeysIn(g, y, py, true).0;
            && (x'.datagramRoot == y'.datagramRoot <==>
                TotalSalt(x) == TotalSalt(y) && InputKeyMaterial(g, x, px) == InputKeyMaterial(g, y, py))
            && (x'.datagramRoot == y'.datagramRoot <==> Mirrored(x', y'))
            && (UsesStaticDh(x) != UsesStaticDh(y) ==> x'.datagramRoot != y'.datagramRoot)
  {}

  lemma SaltsSplit(a: Key32, b: Key32, x: Key32, y: Key32)
    ensures a + b == x + y <==> a == x && b == y
  {
    assert (a + b)[..32] == a && (a + b)[32..] == b && (x + y)[..32] == x && (x + y)[32..] == y;
  }

  /** The exchange that only the holder of the node's key can repeat, on either side of it. */
  function StaticProduct(g: Group, id: Identity, ephemeral: nat, received: Key32): Key32
  {
    match id
    case Peer(_, staticPublic) => g.dh(ephemeral, staticPublic)
    case Local(_, staticPrivate, _) => g.dh(staticPrivate, received)
  }

  lemma MaterialSplits(a: Key32, b: Key32, x: Key32, y: Key32, domain: bytes)
    ensures a + b + domain == x + y + domain <==> a == x && b == y
    ensures |a + b + domain| >= 64 && |x| == 32
  {
    var l, r := a + b + domain, x + y + domain;
    assert l[..32] == a && r[..32] == x && l[32..64] == b && r[32..64] == y;
  }

  /** Two sides arrive at the same material exactly if both or neither add the static exchange, and each
      exchange gives both the same. */
  lemma MaterialAgreesIff(g: Group, x: Session, y: Session, px: Key32, py: Key32)
    requires x.privateKey.Some? && y.privateKey.Some?
    ensures InputKeyMaterial(g, x, px).Ok? && InputKeyMaterial(g, y, py).Ok?
    ensures var a, b := x.privateKey.value, y.privateKey.value;
            InputKeyMaterial(g, x, px) == InputKeyMaterial(g, y, py) <==>
              && (UsesStaticDh(x) <==> UsesStaticDh(y))
              && g.dh(a, px) == g.dh(b, py)
              && (UsesStaticDh(x) && UsesStaticDh(y) ==>
                    StaticProduct(g, x.identity.value, a, px) == StaticProduct(g, y.identity.value, b, py))
  {
    var a, b := x.privateKey.value, y.privateKey.value;
    if UsesStaticDh(x) && UsesStaticDh(y) {
      MaterialSplits(g.dh(a, px), StaticProduct(g, x.identity.value, a, px),
                     g.dh(b, py), StaticProduct(g, y.identity.value, b, py), IKM_DOMAIN_V3);
    } else if UsesStaticDh(x) {
      MaterialSplits(g.dh(a, px), StaticProduct(g, x.identity.value, a, px), g.dh(b, py), ZERO_KEY, IKM_DOMAIN_V3);
    } else if UsesStaticDh(y) {
      MaterialSplits(g.dh(b, py), StaticProduct(g, y.identity.value, b, py), g.dh(a, px), ZERO_KEY, IKM_DOMAIN_V3);
    }
  }

  /** Whatever hellos the two sides were given and accepted, they end up with mirrored keys if and only if each
      got the salt the other one sent, both or neither authenticate the node, and the exchanges with what each
      got as the other's key have the same results, the ephemeral one and, with authentication, the static one.
      A rewritten salt or version, or a replaced key that changes a result, leaves the sides apart. */
  lemma TamperingIsNoticed(
      g: Group, mac: Mac, clientSalt: Key32, serverSalt: Key32, a: nat, b: nat, clientId: Option<Identity>, serverId: Option<Identity>,
      random: Key32, sessionId: bytes, clientEs: seq<Extension>, step: u64, salt: Key32, serverEs: seq<Extension>)
    requires AnswerHello(g, mac, NewSession(g, false, serverSalt, b, serverId), random, sessionId, clientEs, step).1.Ok?
    requires UpdateKeysIn(g, NewSession(g, true, clientSalt, a, clientId), salt, serverEs, false).1.Ok?
    ensures PeerPublic(serverEs, false).Ok? && |PeerPublic(serverEs, false).value| == 32
    ensures PeerPublic(clientEs, true).Ok? && |PeerPublic(clientEs, true).value| == 32 && |sessionId| == 32
    ensures var c, s := NewSession(g, true, clientSalt, a, clientId), NewSession(g, false, serverSalt, b, serverId);
            var c', s' := UpdateKeysIn(g, c, salt, serverEs, false).0, AnswerHello(g, mac, s, random, sessionId, clientEs, step).0;
            var gotByClient, gotByServer := PeerPublic(serverEs, false).value, PeerPublic(clientEs, true).value;
            Mirrored(c', s') <==>
              && random == clientSalt && salt == serverSalt
              && (clientId.Some? <==> serverId.Some? && sessionId[0] >= 3)
              && g.dh(a, gotByClient) == g.dh(b, gotByServer)
              && (clientId.Some? && serverId.Some? ==>
                    StaticProduct(g, clientId.value, a, gotByClient) == StaticProduct(g, serverId.value, b, gotByServer))
  {
    hide AcceptsTag, PeerPublic, InputKeyMaterial;
    KeyLength(serverEs, false);
    KeyLength(clientEs, true);
    var c := NewSession(g, true, clientSalt, a, clientId).(remoteSalt := salt);
    var s := NewSession(g, false, serverSalt, b, serverId).(peerVersion := sessionId[0], remoteSalt := random);
    MaterialAgreesIff(g, c, s, PeerPublic(serverEs, false).value, PeerPublic(clientEs, true).value);
    RootsAgreeIff(g, c, s, PeerPublic(serverEs, false).value, PeerPublic(clientEs, true).value);
    SaltsSplit(clientSalt, salt, random, serverSalt);
  }

  /** After the handshake the UDP legs of both sides mirror each other as well. */
  lemma DatagramLegsMirror(ivOf: IvOf, c: Session, s: Session, m: nat, n: nat)
    requires Mirrored(c, s)
    ensures var cm, sm := KeyRatchets.MaterialFrom(c.datagramRoot.value, true), KeyRatchets.MaterialFrom(s.datagramRoot.value, false);
            && cm.legToken == sm.legToken && cm.tx == sm.rx && cm.rx == sm.tx
            && cm.hpKeyTx == sm.hpKeyRx && cm.hpKeyRx == sm.hpKeyTx
            && KeyRatchets.KeysAt(ivOf, cm.tx.chain, m).key != KeyRatchets.KeysAt(ivOf, cm.rx.chain, n).key
  {
    KeyRatchets.RolesMirror(ivOf, c.datagramRoot.value, m, n);
  }
}
