/** What the handshake hands over to the two transports (`engine/src/crypto/chacha.rs`, lines 187-212;
    `engine/src/nrxp/datagram.rs`, lines 231-236 and 378-388). */
module Traffic {
  import opened Bytes
  import opened Crypto
  import opened PadShapers
  import opened Codecs
  import opened CodecRuns
  import opened Packing
  import opened Sessions
  import KeyRatchets
  import DatagramRuns

  function WritesTo(ivOf: IvOf, s: Session): Conn
    requires s.aead.Some?
  {
    Conn(s.aead.value.txKey, ivOf(s.aead.value.txIv))
  }

  function ReadsFrom(ivOf: IvOf, s: Session): Conn
    requires s.aead.Some?
  {
    Conn(s.aead.value.rxKey, ivOf(s.aead.value.rxIv))
  }

  /** After a handshake, all that one side encodes, cover records included, comes out at the other, however
      the bytes are cut, while the records of the opposite direction share the ciphers' log; payloads too
      long for a record are the only exception. */
  lemma StreamAfterHandshake(
      ivOf: IvOf, c: Session, s: Session, ours: seq<nat>, theirs: seq<nat>, up: seq<Call>, down: seq<Call>, chunks: seq<bytes>)
    requires Mirrored(c, s) && ValidBoundaries(ours)
    requires CallsFrom(WritesTo(ivOf, c), ours, 0, up) && CallsFrom(WritesTo(ivOf, s), theirs, 0, down)
    requires |AllEntries(up)| < U64_SIZE
    requires Concat(chunks) == WireOf(AllEntries(up))
    ensures var result := FeedAll(AllEntries(up) + AllEntries(down), ReadsFrom(ivOf, s), Decoder(0, []), [], chunks);
            && (Sendable(AllItems(up)) ==> result == Drained(Decoder(|AllEntries(up)|, []), [], AllItems(up), false))
            && (result.items == AllItems(up) <==> Sendable(AllItems(up)))
  {
    KeysOf(WritesTo(ivOf, s), theirs, 0, down);
    hide CallsFrom, AllEntries, AllItems, Sendable, Concat, WireOf, FeedAll, ValidBoundaries;
    EncodeDecodeRoundTrip(WritesTo(ivOf, c), ours, up, AllEntries(up) + AllEntries(down), chunks);
  }

  lemma KeysOfOne(conn: Conn, boundaries: seq<nat>, counter: nat, c: Call)
    requires Made(conn, boundaries, counter, c)
    ensures forall e :: e in EntriesOf(c) ==> e.key == conn.key
  {
    hide Pack, PlainOf;
  }

  lemma {:induction false} KeysOf(conn: Conn, boundaries: seq<nat>, counter: nat, calls: seq<Call>)
    requires CallsFrom(conn, boundaries, counter, calls)
    ensures forall e :: e in AllEntries(calls) ==> e.key == conn.key
    decreases |calls|
  {
    hide SealsAll, Pack, Made;
    if calls != [] {
      KeysOfOne(conn, boundaries, counter, calls[0]);
      KeysOf(conn, boundaries, counter + |EntriesOf(calls[0])|, calls[1..]);
    }
  }

  /** After a handshake, a run of the UDP leg starts from exactly what the two sides derive, in either
      direction, and no step of one direction shares a key with any step of the other. */
  lemma DatagramsAfterHandshake(ivOf: IvOf, c: Session, s: Session, rekeyAfter: u64, windowSize: nat, bits: nat, m: nat, n: nat)
    requires Mirrored(c, s)
    ensures var cm, sm := KeyRatchets.MaterialFrom(c.datagramRoot.value, true), KeyRatchets.MaterialFrom(s.datagramRoot.value, false);
            var up, down := DatagramRuns.Leg(ivOf, cm.tx.chain, rekeyAfter, windowSize, bits), DatagramRuns.Leg(ivOf, sm.tx.chain, rekeyAfter, windowSize, bits);
            && DatagramRuns.Start(up).tx.ratchet == cm.tx && DatagramRuns.Start(up).rx.ratchet == sm.rx
            && DatagramRuns.Start(down).tx.ratchet == sm.tx && DatagramRuns.Start(down).rx.ratchet == cm.rx
            && KeyRatchets.KeysAt(ivOf, up.chain0, m).key != KeyRatchets.KeysAt(ivOf, down.chain0, n).key
  {
    DatagramLegsMirror(ivOf, c, s, m, n);
  }
}
