/** TLS records and the bridge that unwraps them (`engine/src/tlseng/tls_record.rs`,
    `engine/src/bridge.rs`, lines 33-41, 145-196 and 287-306). */
module TlsRecords {
  import opened Wrappers
  import opened Bytes

  datatype ContentType = ChangeCipherSpec | Alert | Handshake | ApplicationData

  datatype ProtocolVersion = Tls10 | Tls12 | Tls13

  function ContentCode(t: ContentType): (c: byte)
  {
    match t
    case ChangeCipherSpec => 0x14
    case Alert => 0x15
    case Handshake => 0x16
    case ApplicationData => 0x17
  }

  function ContentOf(c: byte): Option<ContentType>
  {
    match c
    case 0x14 => Some(ChangeCipherSpec)
    case 0x15 => Some(Alert)
    case 0x16 => Some(Handshake)
    case 0x17 => Some(ApplicationData)
    case _ => None
  }

  function VersionCode(v: ProtocolVersion): (n: nat)
    ensures n < U16_SIZE
  {
    match v
    case Tls10 => 0x0301
    case Tls12 => 0x0303
    case Tls13 => 0x0304
  }

  function VersionOf(n: nat): Option<ProtocolVersion>
  {
    match n
    case 0x0301 => Some(Tls10)
    case 0x0303 => Some(Tls12)
    case 0x0304 => Some(Tls13)
    case _ => None
  }

  datatype TlsRecord = TlsRecord(contentType: ContentType, version: ProtocolVersion, payload: bytes)

  const RECORD_HEADER_SIZE: nat := 5
  const MIN_APPLICATION_DATA: nat := 17

  /** A record on the wire with any version field, known or not. */
  function RawRecord(t: ContentType, version: u16, payload: bytes): (s: bytes)
    ensures |s| == RECORD_HEADER_SIZE + |payload|
  {
    [ContentCode(t)] + U16(version) + U16(|payload|) + payload
  }

  function RecordBytes(r: TlsRecord): (s: bytes)
    ensures |s| == RECORD_HEADER_SIZE + |r.payload|
  {
    RawRecord(r.contentType, VersionCode(r.version), r.payload)
  }

  method Serialize(r: TlsRecord) returns (wire: bytes)
    ensures wire == RecordBytes(r)
  {
    var buffer := new BytesMut([]);
    buffer.PutSlice([ContentCode(r.contentType)]);
    buffer.PutSlice(U16(VersionCode(r.version)));
    buffer.PutSlice(U16(|r.payload|));
    buffer.PutSlice(r.payload);
    wire := buffer.data;
  }

  predicate CanParseRecord(s: bytes)
  {
    && |s| >= RECORD_HEADER_SIZE
    && ContentOf(s[0]).Some?
    && var len := ReadU16(s[3..5]);
    && !(s[0] == ContentCode(ApplicationData) && len < MIN_APPLICATION_DATA)
    && |s| >= RECORD_HEADER_SIZE + len
  }

  /** An unknown version is noticed only after the header has been taken from the buffer. */
  datatype ParsedRecord = Pending | BadVersion(rest: bytes) | Parsed(record: TlsRecord, rest: bytes)

  function ParseRecord(s: bytes): ParsedRecord
  {
    if !CanParseRecord(s) then Pending
    else
      var len := ReadU16(s[3..5]);
      match VersionOf(ReadU16(s[1..3]))
      case None => BadVersion(s[5..])
      case Some(v) => Parsed(TlsRecord(ContentOf(s[0]).value, v, s[5..5 + len]), s[5 + len..])
  }

  datatype RecordError = UnknownVersion | WrongContentType

  method ParseRecordFrom(buffer: BytesMut) returns (r: Result<Option<TlsRecord>, RecordError>)
    modifies buffer
    ensures match ParseRecord(old(buffer.data))
            case Pending => r == Ok(None) && buffer.data == old(buffer.data)
            case BadVersion(rest) => r == Err(UnknownVersion) && buffer.data == rest
            case Parsed(record, rest) => r == Ok(Some(record)) && buffer.data == rest
  {
    if !CanParseRecord(buffer.data) {
      return Ok(None);
    }
    ghost var s := buffer.data;
    var rawType := buffer.GetU8();
    assert s[1..][..2] == s[1..3];
    var rawVersion := buffer.GetU16();
    assert buffer.data == s[3..] && s[3..][..2] == s[3..5];
    var len := buffer.GetU16();
    assert buffer.data == s[5..];
    var contentType := ContentOf(rawType).value;
    var version := VersionOf(rawVersion);
    if version.None? {
      return Err(UnknownVersion);
    }
    var payload := buffer.SplitTo(len);
    assert payload == s[5..5 + len] && buffer.data == s[5 + len..];
    r := Ok(Some(TlsRecord(contentType, version.value, payload)));
  }

  // ------------------------------------------------------------- round trip

  predicate Sized(t: ContentType, payload: bytes)
  {
    |payload| < U16_SIZE && (t.ApplicationData? ==> |payload| >= 17)
  }

  /** Serialising and parsing are inverse exactly for payloads whose length fits 16 bits, and which for
      application data hold more than an AEAD tag. */
  predicate Representable(r: TlsRecord)
  {
    Sized(r.contentType, r.payload)
  }

  lemma RecordRoundTrip(r: TlsRecord, rest: bytes)
    ensures ParseRecord(RecordBytes(r) + rest) == Parsed(r, rest) <==> Representable(r)
  {
    RawFields(r.contentType, VersionCode(r.version), r.payload, rest);
    var s := RecordBytes(r) + rest;
    var len := |r.payload| % U16_SIZE;
    if Representable(r) {
      assert s[5..5 + len] == s[5..][..len] == r.payload;
      assert s[5 + len..] == s[5..][len..] == rest;
    }
  }

  // ------------------------------------------------------------ the grammar

  /** Codes stand for one type or version each, and all others for none. */
  lemma RecordCodes(t: ContentType, c: byte, v: ProtocolVersion, n: nat)
    ensures ContentOf(c) == Some(t) <==> ContentCode(t) == c
    ensures VersionOf(n) == Some(v) <==> VersionCode(v) == n
  {}

  lemma RawFields(t: ContentType, version: u16, payload: bytes, rest: bytes)
    ensures var s := RawRecord(t, version, payload) + rest;
            && s[0] == ContentCode(t) && ReadU16(s[1..3]) == version
            && ReadU16(s[3..5]) == |payload| % U16_SIZE && s[5..] == payload + rest
  {
    var s := RawRecord(t, version, payload) + rest;
    assert s[1..3] == U16(version) + [];
    assert s[3..5] == U16(|payload|) + [];
    U16RoundTrip(version, []);
    U16RoundTrip(|payload|, []);
  }

  /** What a whole record parses to: itself, or a complaint about its version. */
  lemma RawParses(t: ContentType, version: u16, payload: bytes, rest: bytes)
    requires Sized(t, payload)
    ensures ParseRecord(RawRecord(t, version, payload) + rest)
            == match VersionOf(version)
               case None => BadVersion(payload + rest)
               case Some(v) => Parsed(TlsRecord(t, v, payload), rest)
  {
    hide RawRecord, ReadU16;
    RawFields(t, version, payload, rest);
    var s := RawRecord(t, version, payload) + rest;
    assert s[5..5 + |payload|] == s[5..][..|payload|] == payload;
    assert s[5 + |payload|..] == s[5..][|payload|..] == rest;
  }

  lemma RawPrefix(t: ContentType, version: u16, payload: bytes, prefix: bytes)
    requires Sized(t, payload) && prefix < RawRecord(t, version, payload)
    ensures ParseRecord(prefix) == Pending
  {
    hide RawRecord, ReadU16;
    RawFields(t, version, payload, []);
    var s := RawRecord(t, version, payload);
    assert s + [] == s;
    if |prefix| >= RECORD_HEADER_SIZE {
      assert prefix[3..5] == s[3..5] && prefix[0] == s[0];
    }
  }

  /** A record that is still incomplete leaves the buffer alone, whatever part of it has arrived. */
  lemma PrefixIsPending(r: TlsRecord, prefix: bytes)
    requires Representable(r) && prefix < RecordBytes(r)
    ensures ParseRecord(prefix) == Pending
  {
    RawPrefix(r.contentType, VersionCode(r.version), r.payload, prefix);
  }

  /** Whatever is not left pending begins with a whole record. */
  lemma NotPendingIsRaw(s: bytes) returns (t: ContentType, version: u16, payload: bytes, rest: bytes)
    requires ParseRecord(s) != Pending
    ensures Sized(t, payload) && s == RawRecord(t, version, payload) + rest
  {
    var len := ReadU16(s[3..5]);
    t, version, payload, rest := ContentOf(s[0]).value, ReadU16(s[1..3]), s[5..5 + len], s[5 + len..];
    U16Back(s[1..3]);
    U16Back(s[3..5]);
    assert s[..1] == [ContentCode(t)];
    assert s == s[..1] + s[1..3] + s[3..5] + payload + rest;
  }

  /** The parser waits exactly while the buffer does not begin with a whole record. */
  lemma PendingIff(s: bytes)
    ensures ParseRecord(s) == Pending
            <==> !exists t, version: u16, payload, rest :: Sized(t, payload) && s == RawRecord(t, version, payload) + rest
  {
    hide ParseRecord, RawRecord;
    if ParseRecord(s) != Pending {
      var t, version, payload, rest := NotPendingIsRaw(s);
    }
    forall t, version: u16, payload, rest | Sized(t, payload) && s == RawRecord(t, version, payload) + rest
      ensures ParseRecord(s) != Pending
    {
      RawParses(t, version, payload, rest);
    }
  }

  // ------------------------------------------------------------- the bridge

  datatype Unpacked = NothingYet | Refused(rest: bytes) | Payload(payload: bytes, rest: bytes)

  function UnpackAppData(s: bytes): (u: Unpacked)
    ensures u.Refused? || u.Payload? ==> |u.rest| + RECORD_HEADER_SIZE <= |s|
    ensures u.Payload? ==> |u.payload| < U16_SIZE
  {
    match ParseRecord(s)
    case Pending => NothingYet
    case BadVersion(rest) => Refused(rest)
    case Parsed(r, rest) => if r.contentType.ApplicationData? then Payload(r.payload, rest) else Refused(rest)
  }

  method UnpackAppDataFrom(buffer: BytesMut) returns (r: Result<Option<bytes>, RecordError>)
    modifies buffer
    ensures match UnpackAppData(old(buffer.data))
            case NothingYet => r == Ok(None) && buffer.data == old(buffer.data)
            case Refused(rest) => r.Err? && buffer.data == rest
            case Payload(p, rest) => r == Ok(Some(p)) && buffer.data == rest
  {
    var record := ParseRecordFrom(buffer);
    match record
    case Err(e) => r := Err(e);
    case Ok(None) => r := Ok(None);
    case Ok(Some(rec)) =>
      if !rec.contentType.ApplicationData? {
        return Err(WrongContentType);
      }
      r := Ok(Some(rec.payload));
  }

  function AppDataRecord(ct: bytes): TlsRecord
  {
    TlsRecord(ApplicationData, Tls12, ct)
  }

  method PackAppData(ct: bytes) returns (wire: bytes)
    ensures wire == RecordBytes(AppDataRecord(ct)) && wire[..3] == [0x17, 0x03, 0x03] && wire[5..] == ct
  {
    wire := Serialize(TlsRecord(ApplicationData, Tls12, ct));
  }

  /** The constant record both sides send after their hello. */
  method BuildChangeCipherSpec() returns (wire: bytes)
    ensures wire == [0x14, 0x03, 0x03, 0x00, 0x01, 0x01]
    ensures ParseRecord(wire) == Parsed(TlsRecord(ChangeCipherSpec, Tls12, [0x01]), [])
  {
    wire := Serialize(TlsRecord(ChangeCipherSpec, Tls12, [0x01]));
    RecordRoundTrip(TlsRecord(ChangeCipherSpec, Tls12, [0x01]), []);
    assert wire + [] == wire;
  }
}
