/** The one-way key chain of the UDP leg (`engine/src/crypto/datagram_keys.rs`). */
module KeyRatchets {
  import opened Bytes
  import opened Crypto

  datatype EpochKeys = EpochKeys(epochId: byte, key: Secret, salt: Iv)

  /** The value of a ratchet: where its chain stands and the wrapping epoch id. */
  datatype Ratchet = Ratchet(chain: Secret, epochId: byte)

  function WrappingNext(epochId: byte): (r: byte)
  {
    (epochId + 1) % 256
  }

  function StepChain(chain: Secret): Secret
  {
    Expand(chain, "dgram-epoch-next")
  }

  function DeriveEpoch(ivOf: IvOf, chain: Secret, epochId: byte): EpochKeys
  {
    EpochKeys(epochId, Expand(chain, "dgram-epoch-key"), ivOf(Expand(chain, "dgram-epoch-salt")))
  }

  function CurrentKeys(ivOf: IvOf, r: Ratchet): EpochKeys
  {
    DeriveEpoch(ivOf, r.chain, r.epochId)
  }

  function PeekNextKeys(ivOf: IvOf, r: Ratchet): EpochKeys
  {
    DeriveEpoch(ivOf, StepChain(r.chain), WrappingNext(r.epochId))
  }

  function NextRatchet(r: Ratchet): Ratchet
  {
    Ratchet(StepChain(r.chain), WrappingNext(r.epochId))
  }

  // ------------------------------------------------- the chain by step number

  /** The chain value of step `n`. */
  function ChainAt(chain0: Secret, n: nat): Secret
  {
    if n == 0 then chain0 else StepChain(ChainAt(chain0, n - 1))
  }

  function RatchetAt(chain0: Secret, n: nat): Ratchet
  {
    Ratchet(ChainAt(chain0, n), n % 256)
  }

  function KeysAt(ivOf: IvOf, chain0: Secret, n: nat): EpochKeys
  {
    CurrentKeys(ivOf, RatchetAt(chain0, n))
  }

  /** Length of a derivation; it tells the steps of one chain apart. */
  function Depth(s: Secret): nat
  {
    match s
    case Prk(_, _) => 0
    case Expand(prk, _) => 1 + Depth(prk)
  }

  lemma {:induction false} DepthOfChain(chain0: Secret, n: nat)
    ensures Depth(ChainAt(chain0, n)) == Depth(chain0) + n
  {
    if n > 0 {
      DepthOfChain(chain0, n - 1);
    }
  }

  /** Advancing from step `n` gives step `n + 1`, and what a peek sees at step `n` is what the peer
      uses at step `n + 1`: the receiver's candidate keys are the sender's next keys. */
  lemma AdvanceIsNextStep(ivOf: IvOf, chain0: Secret, n: nat)
    ensures NextRatchet(RatchetAt(chain0, n)) == RatchetAt(chain0, n + 1)
    ensures PeekNextKeys(ivOf, RatchetAt(chain0, n)) == KeysAt(ivOf, chain0, n + 1)
  {}

  /** The epoch id wraps after 256 steps, the key never repeats. */
  lemma EpochKeysNeverRepeat(ivOf: IvOf, chain0: Secret, m: nat, n: nat)
    ensures KeysAt(ivOf, chain0, m).key == KeysAt(ivOf, chain0, n).key <==> m == n
    ensures KeysAt(ivOf, chain0, m).epochId == KeysAt(ivOf, chain0, n).epochId <==> m % 256 == n % 256
  {
    DepthOfChain(chain0, m);
    DepthOfChain(chain0, n);
  }

  /** The ids of the previous, the current and the next step are pairwise different. */
  lemma NeighbouringIdsDiffer(n: nat)
    ensures n % 256 != (n + 1) % 256
    ensures n > 0 ==> (n - 1) % 256 != n % 256 && (n - 1) % 256 != (n + 1) % 256
    ensures WrappingNext(n % 256) == (n + 1) % 256
  {}

  class KeyRatchet {
    var chain: Secret
    var epochId: byte

    function Value(): Ratchet
      reads this
    {
      Ratchet(chain, epochId)
    }

    constructor FromRoot(chain0: Secret)
      ensures Value() == RatchetAt(chain0, 0)
    {
      chain := chain0;
      epochId := 0;
    }

    method Current(ivOf: IvOf) returns (keys: EpochKeys)
      ensures keys == CurrentKeys(ivOf, Value())
    {
      keys := DeriveEpoch(ivOf, chain, epochId);
    }

    method PeekNext(ivOf: IvOf) returns (keys: EpochKeys)
      ensures keys == PeekNextKeys(ivOf, Value())
    {
      var nextChain := StepChain(chain);
      keys := DeriveEpoch(ivOf, nextChain, WrappingNext(epochId));
    }

    method Advance(ivOf: IvOf) returns (keys: EpochKeys)
      modifies this
      ensures Value() == NextRatchet(old(Value()))
      ensures keys == PeekNextKeys(ivOf, old(Value()))
    {
      var nextChain := StepChain(chain);
      epochId := WrappingNext(epochId);
      chain := nextChain;
      keys := Current(ivOf);
    }
  }

  // ---------------------------------------------------- both directions

  /** All that a side derives for its UDP leg from the root it shares with its peer. */
  datatype Material = Material(legToken: Secret, tx: Ratchet, rx: Ratchet, hpKeyTx: Secret, hpKeyRx: Secret)

  function MaterialFrom(root: Secret, isInitiator: bool): Material
  {
    var c2s, s2c := Expand(root, "dgram-chain-c2s"), Expand(root, "dgram-chain-s2c");
    var hpC2s, hpS2c := Expand(root, "dgram-hp-c2s"), Expand(root, "dgram-hp-s2c");
    var token := Expand(root, "dgram-leg-token");
    if isInitiator then
      Material(token, RatchetAt(c2s, 0), RatchetAt(s2c, 0), hpC2s, hpS2c)
    else
      Material(token, RatchetAt(s2c, 0), RatchetAt(c2s, 0), hpS2c, hpC2s)
  }

  /** Two sides with the same root and opposite roles hold mirror images of each other's material,
      and the two directions never share a key, at any step of either chain. */
  lemma RolesMirror(ivOf: IvOf, root: Secret, m: nat, n: nat)
    ensures var c, s := MaterialFrom(root, true), MaterialFrom(root, false);
            && c.legToken == s.legToken
            && c.tx == s.rx && c.rx == s.tx
            && c.hpKeyTx == s.hpKeyRx && c.hpKeyRx == s.hpKeyTx && c.hpKeyTx != c.hpKeyRx
            && KeysAt(ivOf, c.tx.chain, m).key != KeysAt(ivOf, c.rx.chain, n).key
  {
    var c, s := MaterialFrom(root, true), MaterialFrom(root, false);
    DifferentChainsNeverMeet(c.tx.chain, c.rx.chain, m, n);
  }

  lemma {:induction false} DifferentChainsNeverMeet(a: Secret, b: Secret, m: nat, n: nat)
    requires Depth(a) == Depth(b) && a != b
    ensures ChainAt(a, m) != ChainAt(b, n)
  {
    DepthOfChain(a, m);
    DepthOfChain(b, n);
    if m == n && m > 0 {
      DifferentChainsNeverMeet(a, b, m - 1, n - 1);
    }
  }

  class DatagramKeyMaterial {
    const legToken: Secret
    const tx: KeyRatchet
    const rx: KeyRatchet
    const hpKeyTx: Secret
    const hpKeyRx: Secret

    function Value(): Material
      reads tx, rx
    {
      Material(legToken, tx.Value(), rx.Value(), hpKeyTx, hpKeyRx)
    }

    constructor DeriveFromRoot(root: Secret, isInitiator: bool)
      ensures fresh(tx) && fresh(rx) && tx != rx
      ensures Value() == MaterialFrom(root, isInitiator)
    {
      legToken := Expand(root, "dgram-leg-token");
      var c2s0 := Expand(root, "dgram-chain-c2s");
      var s2c0 := Expand(root, "dgram-chain-s2c");
      var hpC2s := Expand(root, "dgram-hp-c2s");
      var hpS2c := Expand(root, "dgram-hp-s2c");
      var tx0, rx0 := if isInitiator then c2s0 else s2c0, if isInitiator then s2c0 else c2s0;
      tx := new KeyRatchet.FromRoot(tx0);
      rx := new KeyRatchet.FromRoot(rx0);
      hpKeyTx := if isInitiator then hpC2s else hpS2c;
      hpKeyRx := if isInitiator then hpS2c else hpC2s;
    }
  }
}
