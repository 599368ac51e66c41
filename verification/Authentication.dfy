/** Whom a server answers (`engine/src/bridge.rs`, lines 213-285; `engine/src/crypto/session.rs`, lines 226-242
    and 611-764). */
module Authentications {
  import opened Wrappers
  import opened Bytes
  import opened Frames
  import opened Extensions
  import opened Sessions

  // ---------------------------------------------------------- what a tag covers

  /** The two domain labels, as text. */
  lemma DomainsAreLabels()
    ensures |HANDSHAKE_DOMAIN| == 17 && forall i :: 0 <= i < 17 ==> HANDSHAKE_DOMAIN[i] == "nrxp-handshake-v3"[i] as int
    ensures |IKM_DOMAIN_V3| == 17 && forall i :: 0 <= i < 17 ==> IKM_DOMAIN_V3[i] == "nrxp-v3-static-dh"[i] as int
  {}

  lemma U64Splits(m: u64, n: u64)
    ensures U64(m) == U64(n) <==> m == n
  {
    U64RoundTrip(m, []);
    U64RoundTrip(n, []);
    assert U64(m) + [] == U64(m) && U64(n) + [] == U64(n);
  }

  function HandshakeMessage(step: u64, random: Key32, peerPublic: Key32): bytes
  {
    HANDSHAKE_DOMAIN + U64(step) + random + peerPublic
  }

  /** A handshake tag covers its time step, the client's random and the client's key: change any of them and
      something else is authenticated. A tag of the keyless kind never covers the same message. */
  lemma MessageBinds(step: u64, random: Key32, peerPublic: Key32, step': u64, random': Key32, peerPublic': Key32)
    ensures HandshakeMessage(step, random, peerPublic) == HandshakeMessage(step', random', peerPublic')
            <==> step == step' && random == random' && peerPublic == peerPublic'
    ensures HandshakeMessage(step, random, peerPublic) != U64(step')
  {
    hide U64;
    var m, n := HandshakeMessage(step, random, peerPublic), HandshakeMessage(step', random', peerPublic');
    assert m[17..25] == U64(step) && m[25..57] == random && m[57..] == peerPublic;
    assert n[17..25] == U64(step') && n[25..57] == random' && n[57..] == peerPublic';
    U64Splits(step, step');
  }

  /** At most two time steps apart. */
  predicate Near(t: u64, step: u64)
  {
    -2 <= t - step <= 2
  }

  lemma WindowIsNear(t: u64, step: u64)
    ensures WindowLow(step) <= t <= WindowHigh(step) <==> Near(t, step)
  {}

  // -------------------------------------------------------------- who is let in

  /** The tag is one that the holder of the node's secret makes for this hello at about this time, or, where
      that is not asked for, the one anybody can make. */
  ghost predicate RightTag(mac: Mac, s: Session, claimed: byte, tag: Tag, random: Key32, peerPublic: Key32, step: u64)
  {
    if s.identity.Some? && claimed >= 3 then
      exists t: u64 :: Near(t, step) && tag == mac(Raw(s.identity.value.secret), HandshakeMessage(t, random, peerPublic))
    else
      && (s.identity.Some? ==> s.identity.value.Local? && !s.identity.value.strict)
      && exists t: u64 :: Near(t, step) && tag == mac(s.authKey, U64(t))
  }

  lemma AcceptsExactly(mac: Mac, s: Session, claimed: byte, tag: Tag, random: Key32, peerPublic: Key32, step: u64)
    ensures AcceptsTag(mac, s.(peerVersion := claimed), tag, random, peerPublic, step)
            <==> RightTag(mac, s, claimed, tag, random, peerPublic, step)
  {
    forall t: u64 ensures WindowLow(step) <= t <= WindowHigh(step) <==> Near(t, step) {
      WindowIsNear(t, step);
    }
    if s.identity.Some? && claimed >= 3 {
      KeyedWindow(mac, s.identity.value.secret, tag, random, peerPublic, step);
    } else {
      KeylessWindow(mac, s.authKey, tag, step);
    }
  }

  lemma KeyedWindow(mac: Mac, secret: Key32, tag: Tag, random: Key32, peerPublic: Key32, step: u64)
    ensures InWindow(t => ComputeHandshakeTag(mac, secret, t, random, peerPublic), step, tag)
            <==> exists t: u64 :: Near(t, step) && tag == mac(Raw(secret), HandshakeMessage(t, random, peerPublic))
  {
    var tagAt := t => ComputeHandshakeTag(mac, secret, t, random, peerPublic);
    forall t: u64
      ensures WindowLow(step) <= t <= WindowHigh(step) && tagAt(t) == tag
              <==> Near(t, step) && tag == mac(Raw(secret), HandshakeMessage(t, random, peerPublic))
    {
      WindowIsNear(t, step);
    }
    if InWindow(tagAt, step, tag) {
      var t: u64 :| WindowLow(step) <= t <= WindowHigh(step) && tagAt(t) == tag;
      assert Near(t, step) && tag == mac(Raw(secret), HandshakeMessage(t, random, peerPublic));
    }
  }

  lemma KeylessWindow(mac: Mac, key: MacKey, tag: Tag, step: u64)
    ensures InWindow(t => ComputeTag(mac, key, t), step, tag)
            <==> exists t: u64 :: Near(t, step) && tag == mac(key, U64(t))
  {
    var tagAt := t => ComputeTag(mac, key, t);
    forall t: u64
      ensures WindowLow(step) <= t <= WindowHigh(step) && tagAt(t) == tag <==> Near(t, step) && tag == mac(key, U64(t))
    {
      WindowIsNear(t, step);
    }
    if InWindow(tagAt, step, tag) {
      var t: u64 :| WindowLow(step) <= t <= WindowHigh(step) && tagAt(t) == tag;
      assert Near(t, step) && tag == mac(key, U64(t));
    }
  }

  /** A server answers a hello if and only if the session id has its length, the key share is good, the tag in
      it is right, and no keys have been derived yet; every refusal has its own cause, checked in this order,
      and derives nothing. */
  lemma AnsweredIff(g: Group, mac: Mac, s: Session, random: Key32, sessionId: bytes, es: seq<Extension>, step: u64)
    ensures PeerPublic(es, true).Ok? ==> |PeerPublic(es, true).value| == 32
    ensures var (s', answer) := AnswerHello(g, mac, s, random, sessionId, es, step);
            && (answer == Err(InvalidSessionId) <==> |sessionId| != 32)
            && (answer == Err(BadKeyShare) <==> |sessionId| == 32 && PeerPublic(es, true).Err?)
            && (answer == Err(AuthFailed) <==>
                |sessionId| == 32 && PeerPublic(es, true).Ok?
                && !RightTag(mac, s, sessionId[0], sessionId[16..32], random, PeerPublic(es, true).value, step))
            && (answer.Ok? <==>
                |sessionId| == 32 && PeerPublic(es, true).Ok? && s.privateKey.Some?
                && RightTag(mac, s, sessionId[0], sessionId[16..32], random, PeerPublic(es, true).value, step))
            && (answer.Ok? ==> answer.value == sessionId[0] && s'.privateKey.None? && s'.aead.Some? && s'.remoteSalt == random)
            && (answer.Err? ==> Unchanged(s, s'))
  {
    hide PeerPublic, AcceptsTag, RightTag;
    KeyLength(es, true);
    if |sessionId| == 32 && PeerPublic(es, true).Ok? {
      AcceptsExactly(mac, s, sessionId[0], sessionId[16..32], random, PeerPublic(es, true).value, step);
    }
  }

  /** A client derives its keys if and only if the answer holds a good key share and it has not done so before. */
  lemma ClientDerivesIff(g: Group, c: Session, salt: Key32, es: seq<Extension>)
    ensures var (c', keys) := UpdateKeysIn(g, c, salt, es, false);
            && (keys.Ok? <==> PeerPublic(es, false).Ok? && c.privateKey.Some?)
            && (keys.Ok? ==> c'.privateKey.None? && c'.aead == Some(keys.value) && c'.remoteSalt == salt)
            && (keys.Err? ==> Unchanged(c, c'))
  {
    hide PeerPublic;
    KeyLength(es, false);
  }

  /** No keys have come or gone. */
  predicate Unchanged(s: Session, s': Session)
  {
    && s'.aead == s.aead && s'.authKey == s.authKey && s'.privateKey == s.privateKey
    && s'.datagramRoot == s.datagramRoot && s'.identity == s.identity
  }
}
