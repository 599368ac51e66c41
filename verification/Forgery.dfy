/** What the receiver of the TCP leg answers to bytes that are not its peer's
    (`engine/src/nrxp/codec.rs`, lines 362-421). */
module Forgeries {
  import opened Wrappers
  import opened Bytes
  import opened Crypto
  import opened Frames
  import opened TlsRecords
  import opened ChaChaStreams
  import opened Codecs
  import opened CodecRuns

  /** The payload is the peer's record number `n`. */
  predicate IsNext(sent: seq<Sent>, n: nat, payload: bytes)
  {
    n < |sent| && payload == sent[n].ct
  }

  /** The answer to any input at all: a staged frame if there is one; nothing yet exactly if the input is no
      whole record; and an error exactly for a whole record that is not the next one of the peer's, told
      apart by what is wrong with it. */
  lemma AnswersExactly(conn: Conn, sent: seq<Sent>, log: seq<Entry>, rx: Decoder, input: bytes, returned: seq<Item>)
    requires LogHolds(conn, sent, log) && DecoderInv(sent, rx, returned)
    ensures var d, p := DecodeInboundOf(log, conn.key, conn.iv, rx, input), ParseRecord(input);
            && (d.answer == Ok(None) <==> rx.staging == [] && p == Pending)
            && (d.answer == Err(RecordRefused) <==>
                rx.staging == [] && (p.BadVersion? || (p.Parsed? && !p.record.contentType.ApplicationData?)))
            && (d.answer == Err(AeadFailed) <==>
                rx.staging == [] && p.Parsed? && p.record.contentType.ApplicationData? && !IsNext(sent, rx.counter, p.record.payload))
            && d.answer != Err(FrameRefused)
            && d.input == (if rx.staging != [] || p == Pending then input else p.rest)
  {
    hide ParseFrame, ParseRecord, OpenAt, Items, PlainOf;
    if rx.staging != [] {
      StagedFrameIsTaken(conn, sent, log, rx, input, returned);
    } else {
      match ParseRecord(input)
      case Pending =>
      case BadVersion(_) =>
      case Parsed(record, rest) =>
        if record.contentType.ApplicationData? {
          OnlyNextRecordOpens(conn, sent, log, rx.counter, record.payload);
          if IsNext(sent, rx.counter, record.payload) {
            RecordIsOpened(conn, sent, log, rx.counter, input);
          }
        }
    }
  }

  /** A whole record that the peer did not send at this place. */
  predicate Foreign(sent: seq<Sent>, k: nat, t: ContentType, version: u16, payload: bytes)
  {
    && Sized(t, payload)
    && (t.ApplicationData? && VersionOf(version).Some? ==> !IsNext(sent, k, payload))
  }

  lemma ForeignIsRefused(conn: Conn, sent: seq<Sent>, log: seq<Entry>, k: nat, t: ContentType, version: u16, payload: bytes, rest: bytes)
    requires LogHolds(conn, sent, log) && k <= |sent| && Foreign(sent, k, t, version, payload)
    ensures var d := Drain(log, conn, Decoder(k, []), RawRecord(t, version, payload) + rest);
            d.failed && d.items == [] && d.rx == Decoder(k, [])
  {
    hide RawRecord, ParseRecord, DecodeInboundOf, Items;
    var input := RawRecord(t, version, payload) + rest;
    RawParses(t, version, payload, rest);
    AllReturned(sent, k);
    AnswersExactly(conn, sent, log, Decoder(k, []), input, Items(sent[..k]));
    DecodeKeepsInv(conn, sent, log, Decoder(k, []), input, Items(sent[..k]));
  }

  lemma AllReturned(sent: seq<Sent>, k: nat)
    requires GoodRecords(sent) && k <= |sent|
    ensures DecoderInv(sent, Decoder(k, []), Items(sent[..k]))
  {}

  lemma RawArrives(t: ContentType, version: u16, payload: bytes, input: bytes, later: bytes, more: bytes) returns (rest: bytes)
    requires input + later == RawRecord(t, version, payload) + more && |input| >= |RawRecord(t, version, payload)|
    ensures input == RawRecord(t, version, payload) + rest
  {
    hide RawRecord;
    var front := RawRecord(t, version, payload);
    rest := input[|front|..];
    assert input[..|front|] == (input + later)[..|front|] == (front + more)[..|front|] == front;
  }

  lemma RawWaits(log: seq<Entry>, conn: Conn, k: nat, t: ContentType, version: u16, payload: bytes, input: bytes, later: bytes, more: bytes)
    requires Sized(t, payload)
    requires input + later == RawRecord(t, version, payload) + more && |input| < |RawRecord(t, version, payload)|
    ensures Drain(log, conn, Decoder(k, []), input) == Drained(Decoder(k, []), input, [], false)
  {
    hide RawRecord, ParseRecord, Drain;
    var front := RawRecord(t, version, payload);
    assert input == (input + later)[..|input|] == (front + more)[..|input|] == front[..|input|];
    RawPrefix(t, version, payload, input);
    NothingUnpacks(input);
    DrainStops(log, conn, Decoder(k, []), input);
  }

  /** The place where the stream departs has not been reached yet. */
  ghost predicate NotThere(sent: seq<Sent>, n: nat, k: nat, input: bytes, front: bytes)
    requires k <= |sent|
  {
    if n < k then Short(sent, n, k, input) else |input| < |front|
  }

  lemma NotAllThere(sent: seq<Sent>, n: nat, k: nat, input: bytes, front: bytes, more: bytes)
    requires n <= k <= |sent| && NotThere(sent, n, k, input, front)
    ensures input != Wire(sent[n..k]) + (front + more)
  {
    hide Wire, RecordBytes;
    EmptyWire();
    if n < k {
      WireFirst(sent, n, k, front + more);
    } else {
      assert sent[n..k] == [];
    }
  }

  lemma {:induction false} FeedForeign(
      conn: Conn, sent: seq<Sent>, log: seq<Entry>, k: nat, t: ContentType, version: u16, payload: bytes, more: bytes,
      n: nat, input: bytes, chunks: seq<bytes>)
    requires LogHolds(conn, sent, log) && DeliverableTo(sent, k) && Foreign(sent, k, t, version, payload)
    requires n <= k && NotThere(sent, n, k, input, RawRecord(t, version, payload))
    requires input + Concat(chunks) == Wire(sent[n..k]) + (RawRecord(t, version, payload) + more)
    ensures var d := FeedAll(log, conn, Decoder(n, []), input, chunks);
            d.failed && d.items == Items(sent[n..k]) && d.rx == Decoder(k, [])
    decreases |chunks|
  {
    hide Drain, FeedAll, Items, LogHolds, Deliverable, RecordBytes, RawRecord, Wire, Short, Foreign;
    var front := RawRecord(t, version, payload);
    if chunks == [] {
      assert input + [] == input;
      NotAllThere(sent, n, k, input, front, more);
    } else {
      var later := Concat(chunks[1..]);
      Regroup(input, chunks[0], later);
      var m, rest := DrainHonest(conn, sent, log, k, n, input + chunks[0], later, front + more);
      var d := FeedStep(log, conn, Decoder(n, []), input, chunks);
      NoItems();
      assert sent[n..m] + sent[m..k] == sent[n..k];
      ItemsAppend(sent[n..m], sent[m..k]);
      if m == k {
        AtFork(sent, k, rest, later, front, more);
      }
      if m == k && |rest| >= |front| {
        var behind := RawArrives(t, version, payload, rest, later, more);
        ForeignIsRefused(conn, sent, log, k, t, version, payload, behind);
        assert sent[m..k] == [];
      } else {
        if m == k {
          FitsForeign(sent, k, t, version, payload);
          RawWaits(log, conn, k, t, version, payload, rest, later, more);
        }
        FeedForeign(conn, sent, log, k, t, version, payload, more, m, rest, chunks[1..]);
      }
    }
  }

  lemma AtFork(sent: seq<Sent>, k: nat, rest: bytes, later: bytes, front: bytes, more: bytes)
    requires k <= |sent| && rest + later == Wire(sent[k..k]) + (front + more)
    ensures rest + later == front + more
  {
    assert sent[k..k] == [];
  }

  lemma FitsForeign(sent: seq<Sent>, k: nat, t: ContentType, version: u16, payload: bytes)
    requires Foreign(sent, k, t, version, payload)
    ensures Sized(t, payload)
  {}

  /** Tampering is noticed: a stream that follows the peer's for some records and then holds any whole record
      that is not the peer's next one ends the connection with an error, however it is cut into reads, and
      exactly the items before that place have come out. */
  lemma DepartureEndsConnection(
      conn: Conn, sent: seq<Sent>, log: seq<Entry>, k: nat, t: ContentType, version: u16, payload: bytes, more: bytes,
      chunks: seq<bytes>)
    requires LogHolds(conn, sent, log) && DeliverableTo(sent, k) && Foreign(sent, k, t, version, payload)
    requires Concat(chunks) == Wire(sent[..k]) + (RawRecord(t, version, payload) + more)
    ensures var d := FeedAll(log, conn, Decoder(0, []), [], chunks);
            d.failed && d.items == Items(sent[..k]) && d.rx == Decoder(k, [])
  {
    hide Wire, RawRecord, FeedAll, Concat, LogHolds, Foreign, Deliverable, Items, RecordBytes;
    assert sent[0..k] == sent[..k] && [] + Concat(chunks) == Concat(chunks);
    FeedForeign(conn, sent, log, k, t, version, payload, more, 0, [], chunks);
  }

  // ------------------------------------------------------- whatever the peer seals

  /** A peer with the keys may seal what it likes. Still, no error of the cipher or of a frame leaves anything
      staged, and a call that is content to wait has taken no more than whole records. */
  lemma {:induction false} RecordErrorsClear(log: seq<Entry>, key: Secret, iv: Iv, rx: Decoder, input: bytes)
    ensures var d := DecodeRecords(log, key, iv, rx, input);
            && (d.answer == Err(AeadFailed) || d.answer == Err(FrameRefused) ==> d.rx.staging == [])
            && (d.answer == Ok(None) ==> ParseRecord(d.input) == Pending)
            && d.rx.counter >= rx.counter
    decreases |input|
  {
    hide ParseRecord, ParseFrame, OpenAt;
    match UnpackAppData(input)
    case Payload(ct, rest) =>
      match OpenAt(log, key, iv, rx.counter, ct) {
        case Some(plain) => RecordErrorsClear(log, key, iv, TakeFrame(Decoder(rx.counter + 1, rx.staging + plain)).0, rest);
        case None =>
      }
    case _ => UnpackWaits(input);
  }

  lemma UnpackWaits(input: bytes)
    ensures UnpackAppData(input) == NothingYet <==> ParseRecord(input) == Pending
  {}

  lemma ErrorsClearStaging(log: seq<Entry>, key: Secret, iv: Iv, rx: Decoder, input: bytes)
    ensures var d := DecodeInboundOf(log, key, iv, rx, input);
            && (d.answer == Err(AeadFailed) || d.answer == Err(FrameRefused) ==> d.rx.staging == [])
            && (d.answer == Ok(None) ==> ParseRecord(d.input) == Pending)
  {
    hide DecodeRecords, ParseFrame, ParseRecord;
    RecordErrorsClear(log, key, iv, rx, input);
  }

  /** These ciphertexts open, one after the other, to these plaintexts. */
  ghost predicate Opens(log: seq<Entry>, key: Secret, iv: Iv, n: nat, cts: seq<bytes>, plains: seq<bytes>)
  {
    |cts| == |plains| && forall i :: 0 <= i < |cts| ==>
      Representable(AppDataRecord(cts[i])) && OpenAt(log, key, iv, n + i, cts[i]) == Some(plains[i])
  }

  function Records(cts: seq<bytes>): bytes
  {
    if cts == [] then [] else RecordBytes(AppDataRecord(cts[0])) + Records(cts[1..])
  }

  /** No frame is whole before the last of these pieces. */
  ghost predicate GrowsTo(staging: bytes, plains: seq<bytes>, whole: bytes)
    decreases |plains|
  {
    if plains == [] then staging == whole
    else
      && GrowsTo(staging + plains[0], plains[1..], whole)
      && (|plains| > 1 ==> ParseFrame(staging + plains[0]) == NeedMore)
  }

  lemma OneRecord(log: seq<Entry>, key: Secret, iv: Iv, n: nat, staging: bytes, input: bytes, ct: bytes, rest: bytes, plain: bytes)
    requires UnpackAppData(input) == Payload(ct, rest) && OpenAt(log, key, iv, n, ct) == Some(plain)
    ensures DecodeRecords(log, key, iv, Decoder(n, staging), input)
            == match ParseFrame(staging + plain)
               case NeedMore => DecodeRecords(log, key, iv, Decoder(n + 1, staging + plain), rest)
               case Bad(_) => Decoded(Decoder(n + 1, []), rest, Err(FrameRefused))
               case Got(f, left) => Decoded(Decoder(n + 1, left), rest, Ok(Some(f)))
  {
    hide ParseFrame, OpenAt, UnpackAppData;
  }

  /** A frame may be spread over any number of records: the call goes from record to record until the frame is
      whole, returns it, and stages what is left of the last plaintext. A bad type byte is an error instead. */
  lemma {:induction false} Reassembles(
      log: seq<Entry>, key: Secret, iv: Iv, n: nat, staging: bytes, cts: seq<bytes>, plains: seq<bytes>, whole: bytes, after: bytes)
    requires cts != [] && Opens(log, key, iv, n, cts, plains) && GrowsTo(staging, plains, whole)
    requires ParseFrame(whole) != NeedMore
    ensures var d := DecodeRecords(log, key, iv, Decoder(n, staging), Records(cts) + after);
            && (ParseFrame(whole).Got? ==>
                  d == Decoded(Decoder(n + |cts|, ParseFrame(whole).rest), after, Ok(Some(ParseFrame(whole).value))))
            && (ParseFrame(whole).Bad? ==> d == Decoded(Decoder(n + |cts|, []), after, Err(FrameRefused)))
    decreases |cts|
  {
    hide ParseFrame, OpenAt, ParseRecord, RecordBytes, UnpackAppData, DecodeRecords;
    var behind := Records(cts[1..]) + after;
    Regroup(RecordBytes(AppDataRecord(cts[0])), Records(cts[1..]), after);
    RecordRoundTrip(AppDataRecord(cts[0]), behind);
    AppDataUnpacks(cts[0], Records(cts) + after, behind);
    OneRecord(log, key, iv, n, staging, Records(cts) + after, cts[0], behind, plains[0]);
    if |cts| > 1 {
      Reassembles(log, key, iv, n + 1, staging + plains[0], cts[1..], plains[1..], whole, after);
    } else {
      assert plains[1..] == [] && cts[1..] == [];
      assert [] + after == after;
    }
  }
}
