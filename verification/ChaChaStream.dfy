/** One direction of the TCP leg's cipher (`engine/src/crypto/chacha.rs`). */
module ChaChaStreams {
  import opened Bytes
  import opened Wrappers
  import opened Crypto

  datatype Stream = Stream(key: Secret, iv: Iv, counter: nat)

  /** What sealing adds to the AEAD's log: the nonce doubles as associated data. */
  function StreamEntry(key: Secret, iv: Iv, counter: nat, plain: bytes, ct: bytes): Entry
  {
    Entry(key, NonceOf(iv, counter), NonceOf(iv, counter), plain, ct)
  }

  function OpenAt(log: seq<Entry>, key: Secret, iv: Iv, counter: nat, ct: bytes): Option<bytes>
  {
    OpenIn(log, key, NonceOf(iv, counter), NonceOf(iv, counter), ct)
  }

  class ChaChaStream {
    const key: Secret
    const baseIv: Iv
    const aead: IdealAead
    var counter: u64

    function Value(): Stream
      reads this
    {
      Stream(key, baseIv, counter)
    }

    constructor (key: Secret, iv: Iv, aead: IdealAead)
      ensures this.aead == aead && Value() == Stream(key, iv, 0)
    {
      this.key, this.baseIv, this.aead := key, iv, aead;
      counter := 0;
    }

    method NextNonce() returns (nonce: Iv)
      requires counter + 1 < U64_SIZE
      modifies this
      ensures nonce == NonceOf(baseIv, old(counter)) && counter == old(counter) + 1
    {
      nonce := BuildNonce(baseIv, counter);
      counter := counter + 1;
    }

    method Encrypt(data: BytesMut)
      requires counter + 1 < U64_SIZE
      modifies this, data, aead
      ensures counter == old(counter) + 1
      ensures |data.data| == |old(data.data)| + TAG_LEN
      ensures aead.log == old(aead.log) + [StreamEntry(key, baseIv, old(counter), old(data.data), data.data)]
      ensures var nonce := NonceOf(baseIv, old(counter));
              aead.log[|old(aead.log)|] == Entry(key, nonce, nonce, old(data.data), data.data)
    {
      var nonce := NextNonce();
      var ct := aead.Seal(key, nonce, nonce, data.data);
      data.data := ct;
    }

    /** On failure the counter is rolled back: the same nonce is tried again next time. */
    method Decrypt(data: BytesMut) returns (ok: bool)
      requires counter + 1 < U64_SIZE
      modifies this, data
      ensures match OpenAt(aead.log, key, baseIv, old(counter), old(data.data))
              case None => !ok && counter == old(counter) && data.data == old(data.data)
              case Some(plain) => ok && counter == old(counter) + 1 && data.data == plain
    {
      var savedCounter := counter;
      var nonce := NextNonce();
      var plain := aead.Open(key, nonce, nonce, data.data);
      match plain
      case Some(p) =>
        data.data := p;
        ok := true;
      case None =>
        counter := savedCounter;
        ok := false;
    }
  }
}
