/** What knowing one derived secret tells about the others (`engine/src/crypto/datagram_keys.rs`, lines 56-181;
    `engine/src/crypto/session.rs`, lines 446-524). */
module KeySeparations {
  import opened Crypto
  import opened KeyRatchets
  import opened Sessions

  /** Whoever knows `known` can compute `s`: expanding it zero or more times leads there. */
  predicate Derivable(s: Secret, known: Secret)
  {
    s == known || (s.Expand? && Derivable(s.prk, known))
  }

  lemma {:induction false} DerivableIsDeeper(s: Secret, known: Secret)
    ensures Derivable(s, known) ==> Depth(known) <= Depth(s) && (Depth(known) == Depth(s) ==> known == s)
  {
    if s != known && s.Expand? {
      DerivableIsDeeper(s.prk, known);
    }
  }

  /** A secret is none of the values a chain runs through, nor above one of them. */
  ghost predicate OffChain(s: Secret, chain0: Secret)
  {
    forall n: nat :: !Derivable(ChainAt(chain0, n), s)
  }

  lemma {:induction false} NotOnChain(s: Secret, chain0: Secret, n: nat)
    requires Depth(s) > Depth(chain0) && (s.Expand? ==> s.mark != "dgram-epoch-next")
    ensures !Derivable(ChainAt(chain0, n), s)
  {
    if n == 0 {
      DerivableIsDeeper(chain0, s);
    } else {
      NotOnChain(s, chain0, n - 1);
    }
  }

  lemma Labels()
    ensures "dgram-epoch-key" != "dgram-epoch-next" && "dgram-epoch-salt" != "dgram-epoch-next"
    ensures "dgram-epoch-key" != "dgram-epoch-salt"
  {
    assert |"dgram-epoch-key"| == 15 && |"dgram-epoch-salt"| == 16 && |"dgram-epoch-next"| == 16;
    assert "dgram-epoch-salt"[12] == 's' && "dgram-epoch-next"[12] == 'n';
  }

  /** The secret behind the nonce salt of a step. */
  lemma SaltSecret(chain0: Secret, n: nat) returns (s: Secret)
    ensures forall ivOf: IvOf :: KeysAt(ivOf, chain0, n).salt == ivOf(s)
    ensures s == Expand(ChainAt(chain0, n), "dgram-epoch-salt")
  {
    s := Expand(ChainAt(chain0, n), "dgram-epoch-salt");
  }

  /** Key and salt of a step lie beside the chain: neither is, or leads to, any value of either direction's
      chain, at an earlier step, the same or a later one; and neither leads to any other key or salt. */
  lemma EpochSecretsAreLeaves(ivOf: IvOf, a: Secret, b: Secret, m: nat, n: nat) returns (saltA: Secret, saltB: Secret)
    requires Depth(a) == Depth(b)
    ensures forall ivs: IvOf :: KeysAt(ivs, a, m).salt == ivs(saltA) && KeysAt(ivs, b, n).salt == ivs(saltB)
    ensures var keyA, keyB := KeysAt(ivOf, a, m).key, KeysAt(ivOf, b, n).key;
            && OffChain(keyA, b) && OffChain(saltA, b)
            && !Derivable(saltB, keyA) && !Derivable(keyB, saltA)
            && (Derivable(keyB, keyA) <==> a == b && m == n)
            && (Derivable(saltB, saltA) <==> a == b && m == n)
  {
    Labels();
    saltA := SaltSecret(a, m);
    saltB := SaltSecret(b, n);
    var keyA, keyB := KeysAt(ivOf, a, m).key, KeysAt(ivOf, b, n).key;
    DepthOfChain(a, m);
    DepthOfChain(b, n);
    OffAllOf(keyA, b);
    OffAllOf(saltA, b);
    assert !Derivable(ChainAt(b, n), keyA) && !Derivable(ChainAt(b, n), saltA);
    if ChainAt(a, m) == ChainAt(b, n) {
      SameChainValue(a, b, m, n);
    }
  }

  lemma OffAllOf(s: Secret, chain0: Secret)
    requires Depth(s) > Depth(chain0) && (s.Expand? ==> s.mark != "dgram-epoch-next")
    ensures OffChain(s, chain0)
  {
    forall n: nat ensures !Derivable(ChainAt(chain0, n), s) {
      NotOnChain(s, chain0, n);
    }
  }

  lemma SameChainValue(a: Secret, b: Secret, m: nat, n: nat)
    requires Depth(a) == Depth(b) && ChainAt(a, m) == ChainAt(b, n)
    ensures a == b && m == n
  {
    DepthOfChain(a, m);
    DepthOfChain(b, n);
    if a != b {
      DifferentChainsNeverMeet(a, b, m, n);
    }
  }

  lemma {:induction false} LaterIsDerivable(chain0: Secret, m: nat, n: nat)
    requires m <= n
    ensures Derivable(ChainAt(chain0, n), ChainAt(chain0, m))
  {
    if m < n {
      LaterIsDerivable(chain0, m, n - 1);
    }
  }

  /** The ratchet turns one way: a chain value leads to the keys of its own and all later steps of its own
      direction, and to no key of an earlier step or of the other direction. */
  lemma RatchetIsOneWay(ivOf: IvOf, a: Secret, b: Secret, m: nat, n: nat)
    requires Depth(a) == Depth(b)
    ensures Derivable(KeysAt(ivOf, b, n).key, ChainAt(a, m)) <==> a == b && m <= n
    ensures Derivable(ChainAt(b, n), ChainAt(a, m)) <==> a == b && m <= n
  {
    Labels();
    ChainLeadsToChain(a, b, m, n);
    if Derivable(KeysAt(ivOf, b, n).key, ChainAt(a, m)) && KeysAt(ivOf, b, n).key == ChainAt(a, m) {
      DepthOfChain(a, m);
      DepthOfChain(b, n);
      NotOnChain(KeysAt(ivOf, b, n).key, a, m);
    }
  }

  lemma {:induction false} ChainLeadsToChain(a: Secret, b: Secret, m: nat, n: nat)
    requires Depth(a) == Depth(b)
    ensures Derivable(ChainAt(b, n), ChainAt(a, m)) <==> a == b && m <= n
  {
    if ChainAt(b, n) == ChainAt(a, m) {
      SameChainValue(a, b, m, n);
    } else if a == b && m <= n {
      LaterIsDerivable(a, m, n);
    } else if n == 0 {
      DepthOfChain(a, m);
      DerivableIsDeeper(b, ChainAt(a, m));
    } else {
      ChainLeadsToChain(a, b, m, n - 1);
    }
  }

  // --------------------------------------------------------- one handshake

  /** All that a side expands from the root of its handshake. */
  function Handed(s: Session): (all: seq<Secret>)
    requires s.aead.Some? && s.authKey.Derived? && s.datagramRoot.Some?
    ensures |all| == 10
  {
    var k, m := s.aead.value, MaterialFrom(s.datagramRoot.value, s.isInitiator);
    [k.txKey, k.txIv, k.rxKey, k.rxIv, s.authKey.secret, m.legToken, m.tx.chain, m.rx.chain, m.hpKeyTx, m.hpKeyRx]
  }

  const LABELS: seq<string> := [
    "client_aead", "client_iv", "server_aead", "server_iv", "auth_key",
    "dgram-leg-token", "dgram-chain-c2s", "dgram-chain-s2c", "dgram-hp-c2s", "dgram-hp-s2c"]

  lemma LabelsDiffer(i: nat, j: nat)
    requires i < j < |LABELS|
    ensures LABELS[i] != LABELS[j]
  {}

  /** The positions of a side's secrets among the labels. */
  function LabelOf(initiator: bool, i: nat): (k: nat)
    requires i < 10
    ensures k < |LABELS|
  {
    if initiator || i == 4 || i == 5 then i
    else if i < 4 then (i + 2) % 4
    else if i == 6 then 7 else if i == 7 then 6 else if i == 8 then 9 else 8
  }

  lemma HandedByLabel(g: Group, s: Session, peerPublic: Key32, isServer: bool, i: nat)
    requires GenerateKeysIn(g, s, peerPublic, isServer).1.Ok? && isServer == !s.isInitiator && i < 10
    ensures var s' := GenerateKeysIn(g, s, peerPublic, isServer).0;
            Handed(s')[i] == Expand(s'.datagramRoot.value, LABELS[LabelOf(s.isInitiator, i)])
  {
    hide InputKeyMaterial;
  }

  /** No two secrets of a handshake are the same, none leads to another or back to the root, and only the
      two chain values lead to the keys of any datagram epoch, each to those of its own direction. */
  lemma HandshakeSecretsApart(g: Group, s: Session, peerPublic: Key32, isServer: bool, ivOf: IvOf, i: nat, j: nat, n: nat)
    requires GenerateKeysIn(g, s, peerPublic, isServer).1.Ok? && isServer == !s.isInitiator && i < 10 && j < 10
    ensures var s' := GenerateKeysIn(g, s, peerPublic, isServer).0;
            var all := Handed(s');
            && (Derivable(all[j], all[i]) <==> i == j)
            && !Derivable(s'.datagramRoot.value, all[i]) && Derivable(all[i], s'.datagramRoot.value)
            && (Derivable(KeysAt(ivOf, all[6], n).key, all[i]) <==> i == 6)
            && (Derivable(KeysAt(ivOf, all[7], n).key, all[i]) <==> i == 7)
  {
    hide InputKeyMaterial, Handed, LABELS;
    var s' := GenerateKeysIn(g, s, peerPublic, isServer).0;
    var all, root := Handed(s'), s'.datagramRoot.value;
    forall k | 0 <= k < 10 ensures all[k] == Expand(root, LABELS[LabelOf(s.isInitiator, k)]) {
      HandedByLabel(g, s, peerPublic, isServer, k);
    }
    DifferentPlaces(s.isInitiator, i, j);
    DifferentPlaces(s.isInitiator, i, 6);
    DifferentPlaces(s.isInitiator, i, 7);
    DerivableIsDeeper(root, all[i]);
    DerivableIsDeeper(all[j], all[i]);
    RootsOfKeys(ivOf, all[6], all[i], n);
    RootsOfKeys(ivOf, all[7], all[i], n);
  }

  lemma DifferentPlaces(initiator: bool, i: nat, j: nat)
    requires i < 10 && j < 10
    ensures LABELS[LabelOf(initiator, i)] == LABELS[LabelOf(initiator, j)] <==> i == j
  {
    hide LABELS;
    var a, b := LabelOf(initiator, i), LabelOf(initiator, j);
    if a < b {
      LabelsDiffer(a, b);
    } else if b < a {
      LabelsDiffer(b, a);
    }
  }

  lemma RootsOfKeys(ivOf: IvOf, chain0: Secret, s: Secret, n: nat)
    requires Depth(chain0) == Depth(s)
    ensures Derivable(KeysAt(ivOf, chain0, n).key, s) <==> s == chain0
  {
    RatchetIsOneWay(ivOf, s, chain0, 0, n);
  }
}
