/** Hello messages and the pipeline that takes a record apart (`engine/src/tlseng/handshake.rs`,
    lines 34-489, and `engine/src/bridge.rs`, lines 60-143). */
module Hellos {
  import opened Wrappers
  import opened Bytes
  import opened Frames
  import opened TlsRecords
  import opened Extensions
  import opened Sessions

  const CLIENT_HELLO: byte := 0x01
  const SERVER_HELLO: byte := 0x02
  const HELLO_HEADER_SIZE: nat := 4

  datatype ClientHello = ClientHello(version: ProtocolVersion, random: Key32, sessionId: bytes, cipherSuites: seq<u16>, extensions: bytes)

  datatype ServerHello = ServerHello(version: ProtocolVersion, random: Key32, sessionId: bytes, cipherSuite: u16, extensions: bytes)

  // ----------------------------------------------------------------- writing

  function SuiteBytes(suites: seq<u16>): (s: bytes)
    ensures |s| == 2 * |suites|
  {
    if suites == [] then [] else U16(suites[0]) + SuiteBytes(suites[1..])
  }

  function ClientBody(h: ClientHello): bytes
  {
    U16(0x0303) + (h.random + ClientTail(h))
  }

  function ClientTail(h: ClientHello): bytes
  {
    [|h.sessionId| % 256] + (h.sessionId + ClientLists(h))
  }

  function ClientLists(h: ClientHello): bytes
  {
    U16(2 * |h.cipherSuites|) + (SuiteBytes(h.cipherSuites) + ([1, 0x00] + Counted(h.extensions)))
  }

  function ServerBody(h: ServerHello): bytes
  {
    U16(VersionCode(h.version)) + (h.random + ServerTail(h))
  }

  function ServerTail(h: ServerHello): bytes
  {
    [|h.sessionId| % 256] + (h.sessionId + (U16(h.cipherSuite) + ([0x00] + Counted(h.extensions))))
  }

  /** A block behind its 16-bit length. */
  function Counted(block: bytes): bytes
  {
    U16(|block|) + block
  }

  function HelloBytes(kind: byte, body: bytes): bytes
  {
    [kind] + U24(|body|) + body
  }

  /** The length is filled in last, over the three zeros left for it. */
  method BackPatch(buffer: array<byte>, lengthPos: nat)
    requires lengthPos + 3 <= buffer.Length
    modifies buffer
    ensures buffer[..] == old(buffer[..lengthPos]) + U24(buffer.Length - lengthPos - 3) + old(buffer[lengthPos + 3..])
  {
    var len := U24(buffer.Length - lengthPos - 3);
    CopyInto(buffer, lengthPos, len);
  }

  method Finish(kind: byte, body: bytes) returns (wire: bytes)
    ensures wire == HelloBytes(kind, body)
  {
    var start := [kind, 0, 0, 0] + body;
    var buffer := new byte[|start|](i requires 0 <= i < |start| => start[i]);
    assert buffer[..1] == [kind] && buffer[4..] == body;
    BackPatch(buffer, 1);
    wire := buffer[..];
  }

  lemma Assoc(a: bytes, b: bytes, c: bytes)
    ensures a + b + c == a + (b + c)
  {}

  /** Appends `front` of what is still to be written. */
  method Put(buffer: BytesMut, front: bytes, ghost back: bytes)
    modifies buffer
    ensures buffer.data == old(buffer.data) + front
    ensures buffer.data + back == old(buffer.data) + (front + back)
  {
    Assoc(buffer.data, front, back);
    buffer.PutSlice(front);
  }

  method SerializeClientHello(h: ClientHello) returns (wire: bytes)
    ensures wire == HelloBytes(CLIENT_HELLO, ClientBody(h))
  {
    hide U16, SuiteBytes;
    var buffer := new BytesMut([]);
    ghost var block := Counted(h.extensions);
    ghost var t4 := SuiteBytes(h.cipherSuites) + ([1, 0x00] + block);
    ghost var t3 := U16(2 * |h.cipherSuites|) + t4;
    ghost var t2 := h.sessionId + t3;
    ghost var t1 := [|h.sessionId| % 256] + t2;
    Put(buffer, U16(0x0303), h.random + t1);
    Put(buffer, h.random, t1);
    Put(buffer, [|h.sessionId| % 256], t2);
    Put(buffer, h.sessionId, t3);
    Put(buffer, U16(2 * |h.cipherSuites|), t4);
    Assoc(buffer.data, SuiteBytes(h.cipherSuites), [1, 0x00] + block);
    PutSuites(buffer, h.cipherSuites);
    Put(buffer, [1, 0x00], block);
    Put(buffer, U16(|h.extensions|), h.extensions);
    buffer.PutSlice(h.extensions);
    assert buffer.data == [] + ClientBody(h);
    wire := Finish(CLIENT_HELLO, buffer.data);
  }

  method PutSuites(buffer: BytesMut, suites: seq<u16>)
    modifies buffer
    ensures buffer.data == old(buffer.data) + SuiteBytes(suites)
  {
    for i := 0 to |suites|
      invariant buffer.data == old(buffer.data) + SuiteBytes(suites[..i])
    {
      SuiteAppend(suites[..i], suites[i]);
      assert suites[..i] + [suites[i]] == suites[..i + 1];
      buffer.PutSlice(U16(suites[i]));
    }
    assert suites[..|suites|] == suites;
  }

  lemma {:induction false} SuiteAppend(suites: seq<u16>, last: u16)
    ensures SuiteBytes(suites + [last]) == SuiteBytes(suites) + U16(last)
  {
    if suites == [] {
      assert suites + [last] == [last];
      assert SuiteBytes([last]) == U16(last) + SuiteBytes([]);
    } else {
      assert (suites + [last])[1..] == suites[1..] + [last];
      SuiteAppend(suites[1..], last);
    }
  }

  method SerializeServerHello(h: ServerHello) returns (wire: bytes)
    ensures wire == HelloBytes(SERVER_HELLO, ServerBody(h))
  {
    hide U16;
    var buffer := new BytesMut([]);
    ghost var block := Counted(h.extensions);
    ghost var t3 := U16(h.cipherSuite) + ([0x00] + block);
    ghost var t2 := h.sessionId + t3;
    ghost var t1 := [|h.sessionId| % 256] + t2;
    Put(buffer, U16(VersionCode(h.version)), h.random + t1);
    Put(buffer, h.random, t1);
    Put(buffer, [|h.sessionId| % 256], t2);
    Put(buffer, h.sessionId, t3);
    Put(buffer, U16(h.cipherSuite), [0x00] + block);
    Put(buffer, [0x00], block);
    if h.extensions != [] {
      Put(buffer, U16(|h.extensions|), h.extensions);
      buffer.PutSlice(h.extensions);
    } else {
      buffer.PutSlice(U16(0));
      assert block == U16(0);
    }
    assert buffer.data == [] + ServerBody(h);
    wire := Finish(SERVER_HELLO, buffer.data);
  }

  // ----------------------------------------------------------------- reading

  /** `ReadsPastEnd` stands for the reader's abort: it asks for a byte that is not there. */
  datatype ParsedHello<T> = NotWhole | UnknownVersionIn | ReadsPastEnd | Hello(hello: T)

  /** Offsets of the fields of variable length in a client's hello. */
  datatype ClientLayout = ClientLayout(afterSid: nat, afterCiphers: nat, afterCompression: nat)

  /** Hops over the fields, checking that each is all there. */
  function LayoutOf(s: bytes): (r: Option<ClientLayout>)
    ensures r.Some? ==> 35 <= r.value.afterSid && r.value.afterSid + 3 <= r.value.afterCiphers + 1 <= r.value.afterCompression <= |s|
  {
    if |s| < 35 then None
    else
      var afterSid := 35 + s[34] as int;
      if |s| < afterSid + 2 then None
      else
        var afterCiphers := afterSid + 2 + At16(s, afterSid);
        if |s| < afterCiphers + 1 then None
        else
          var afterCompression := afterCiphers + 1 + s[afterCiphers] as int;
          if |s| < afterCompression then None
          else if |s| >= afterCompression + 2 && |s| < afterCompression + 2 + At16(s, afterCompression) then None
          else Some(ClientLayout(afterSid, afterCiphers, afterCompression))
  }

  function CiphersAt(s: bytes, l: ClientLayout): bytes
    requires LayoutOf(s) == Some(l)
  {
    s[l.afterSid + 2..l.afterCiphers]
  }

  function ExtensionsAt(s: bytes, p: nat): bytes
    requires p <= |s| && (|s| >= p + 2 ==> |s| >= p + 2 + At16(s, p))
  {
    if |s| >= p + 2 then s[p + 2..p + 2 + At16(s, p)] else []
  }

  function SuitesIn(s: bytes): seq<u16>
  {
    if |s| < 2 then [] else [ReadU16(s)] + SuitesIn(s[2..])
  }

  function ParseClientHello(s: bytes): ParsedHello<ClientHello>
  {
    match LayoutOf(s)
    case None => NotWhole
    case Some(l) =>
      match VersionOf(At16(s, 0))
      case None => UnknownVersionIn
      case Some(v) =>
        if |CiphersAt(s, l)| % 2 == 1 then ReadsPastEnd
        else Hello(ClientHello(v, s[2..34], s[35..l.afterSid], SuitesIn(CiphersAt(s, l)), ExtensionsAt(s, l.afterCompression)))
  }

  function EndOf(s: bytes, p: nat): nat
  {
    if |s| >= p + 2 then p + 2 + At16(s, p) else p
  }

  /** What a reader of a client's hello that did not abort has left in the buffer. */
  function ClientRest(s: bytes): bytes
  {
    match LayoutOf(s)
    case None => s
    case Some(l) => if VersionOf(At16(s, 0)).None? then s[2..] else s[EndOf(s, l.afterCompression)..]
  }

  function ParseServerHello(s: bytes): ParsedHello<ServerHello>
  {
    if |s| < 35 then NotWhole
    else
      var afterSid := 35 + s[34] as int;
      if |s| < EndOf(s, afterSid + 3) then NotWhole
      else
        match VersionOf(At16(s, 0))
        case None => UnknownVersionIn
        case Some(v) =>
          Hello(ServerHello(v, s[2..34], s[35..afterSid], At16(s, afterSid), ExtensionsAt(s, afterSid + 3)))
  }

  /** A server's hello is taken off whole or not at all. */
  function ServerRest(s: bytes): bytes
  {
    if |s| < 35 || |s| < EndOf(s, 38 + s[34] as int) then s else s[EndOf(s, 38 + s[34] as int)..]
  }

  /** The reader aborts exactly when all fields are there, the version is known and the cipher list is
      declared with an odd length, which the idle pass does not look at. */
  lemma AbortsIff(s: bytes)
    ensures ParseClientHello(s) == ReadsPastEnd
            <==> LayoutOf(s).Some? && VersionOf(At16(s, 0)).Some? && At16(s, 35 + s[34] as int) % 2 == 1
  {
    hide At16, SuitesIn, ExtensionsAt;
  }

  /** No session id, a cipher list of one byte, no compression method, no extensions. */
  const ODD_TAIL: bytes := [0, 0, 1, 0x13, 0]

  const ODD_LIST: bytes := [0x03, 0x03] + ZERO_KEY + ODD_TAIL

  /** The reader of a client's hello, field by field. */
  method ParseClientHelloFrom(buffer: BytesMut) returns (r: ParsedHello<ClientHello>)
    modifies buffer
    ensures r == ParseClientHello(old(buffer.data))
    ensures !r.ReadsPastEnd? ==> buffer.data == ClientRest(old(buffer.data))
  {
    hide At16, SuitesIn, LayoutOf, CiphersAt, ExtensionsAt, EndOf;
    ghost var s := buffer.data;
    assert s[0..] == s;
    LayoutFacts(s);
    if LayoutOf(buffer.data).None? {
      return NotWhole;
    }
    var rawVersion := TakeU16At(buffer, s, 0);
    var version := VersionOf(rawVersion);
    if version.None? {
      return UnknownVersionIn;
    }
    var random := TakeAt(buffer, 32, s, 2);
    var sidLen := TakeU8At(buffer, s, 34);
    var sessionId := TakeAt(buffer, sidLen, s, 35);
    ghost var l := LayoutOf(s).value;
    var suites, extensions := ReadLists(buffer, s, l);
    if suites.None? {
      return ReadsPastEnd;
    }
    r := Hello(ClientHello(version.value, random, sessionId, suites.value, extensions));
  }

  /** Cipher list, compression and extensions, from behind the session id on. */
  method ReadLists(buffer: BytesMut, ghost s: bytes, ghost l: ClientLayout)
      returns (suites: Option<seq<u16>>, extensions: bytes)
    requires LayoutOf(s) == Some(l) && buffer.data == s[l.afterSid..]
    modifies buffer
    ensures suites == if |CiphersAt(s, l)| % 2 == 1 then None else Some(SuitesIn(CiphersAt(s, l)))
    ensures suites.Some? ==>
              extensions == ExtensionsAt(s, l.afterCompression) && EndOf(s, l.afterCompression) <= |s|
              && buffer.data == s[EndOf(s, l.afterCompression)..]
  {
    hide At16, SuitesIn, LayoutOf, CiphersAt, ExtensionsAt;
    LayoutFacts(s);
    var ciphersLen := TakeU16At(buffer, s, l.afterSid);
    var ciphers := TakeAt(buffer, ciphersLen, s, l.afterSid + 2);
    extensions := [];
    suites := ReadSuites(ciphers);
    if suites.None? {
      return;
    }
    var compLen := TakeU8At(buffer, s, l.afterCiphers);
    var compression := TakeAt(buffer, compLen, s, l.afterCiphers + 1);
    if |buffer.data| >= 2 {
      var extLen := TakeU16At(buffer, s, l.afterCompression);
      extensions := TakeAt(buffer, extLen, s, l.afterCompression + 2);
    }
  }

  lemma LayoutFacts(s: bytes)
    ensures LayoutOf(s).Some? ==>
              var l := LayoutOf(s).value;
              && l.afterSid + 2 <= l.afterCiphers < l.afterCompression <= |s| && l.afterSid == 35 + s[34] as int
              && l.afterCiphers == l.afterSid + 2 + At16(s, l.afterSid)
              && l.afterCompression == l.afterCiphers + 1 + s[l.afterCiphers] as int
              && CiphersAt(s, l) == s[l.afterSid + 2..l.afterCiphers]
              && (|s| >= l.afterCompression + 2 ==> |s| >= l.afterCompression + 2 + At16(s, l.afterCompression))
              && ExtensionsAt(s, l.afterCompression)
                 == if |s| >= l.afterCompression + 2 then s[l.afterCompression + 2..l.afterCompression + 2 + At16(s, l.afterCompression)] else []
  {}

  method ReadSuites(ciphers: bytes) returns (suites: Option<seq<u16>>)
    ensures suites == if |ciphers| % 2 == 1 then None else Some(SuitesIn(ciphers))
  {
    var read: seq<u16> := [];
    var rest := ciphers;
    while rest != []
      invariant |rest| % 2 == |ciphers| % 2 && read + SuitesIn(rest) == SuitesIn(ciphers)
      decreases |rest|
    {
      if |rest| < 2 {
        return None;
      }
      var suite := ReadU16(rest);
      read := read + [suite];
      rest := rest[2..];
    }
    assert read + [] == read;
    suites := Some(read);
  }

  method ParseServerHelloFrom(buffer: BytesMut) returns (r: ParsedHello<ServerHello>)
    modifies buffer
    ensures r == ParseServerHello(old(buffer.data)) && buffer.data == ServerRest(old(buffer.data))
  {
    hide At16;
    ghost var s := buffer.data;
    var offset: nat := 34;
    if |buffer.data| < offset + 1 {
      return NotWhole;
    }
    var sessionIdLen := buffer.data[offset];
    offset := offset + 1 + sessionIdLen;
    ghost var afterSid := offset;
    offset := offset + 3;
    if |buffer.data| >= offset + 2 {
      var extLen := At16(buffer.data, offset);
      offset := offset + 2 + extLen;
    }
    if |buffer.data| < offset {
      return NotWhole;
    }
    var msg := new BytesMut(buffer.data[..offset]);
    buffer.Advance(offset);
    r := ReadServerHello(msg, s);
  }

  /** Reads the fields of a server's hello that has been cut off whole. */
  method ReadServerHello(msg: BytesMut, ghost s: bytes) returns (r: ParsedHello<ServerHello>)
    requires |s| >= 35 && |s| >= EndOf(s, 38 + s[34] as int) && msg.data == s[..EndOf(s, 38 + s[34] as int)]
    modifies msg
    ensures r == ParseServerHello(s)
  {
    ghost var m, afterSid := msg.data, 35 + s[34] as int;
    assert m[0..] == m;
    Same16(s, |m|, 0);
    Same16(s, |m|, afterSid);
    if |m| >= afterSid + 5 {
      Same16(s, |m|, afterSid + 3);
    }
    SameSlice(s, |m|, 2, 34);
    SameSlice(s, |m|, 35, afterSid);
    if |m| >= afterSid + 5 {
      SameSlice(s, |m|, afterSid + 5, afterSid + 5 + At16(s, afterSid + 3));
    }
    hide At16;
    var rawVersion := TakeU16At(msg, m, 0);
    var version := VersionOf(rawVersion);
    if version.None? {
      return UnknownVersionIn;
    }
    var random := TakeAt(msg, 32, m, 2);
    var sidLen := TakeU8At(msg, m, 34);
    var sessionId := TakeAt(msg, sidLen, m, 35);
    var cipherSuite := TakeU16At(msg, m, afterSid);
    var compression := TakeU8At(msg, m, afterSid + 2);
    var extensions: bytes := [];
    if |msg.data| >= 2 {
      var extLen := TakeU16At(msg, m, afterSid + 3);
      extensions := TakeAt(msg, extLen, m, afterSid + 5);
    }
    r := Hello(ServerHello(version.value, random, sessionId, cipherSuite, extensions));
  }

  lemma SameSlice(s: bytes, end: nat, i: nat, j: nat)
    requires i <= j <= end <= |s|
    ensures s[..end][i..j] == s[i..j]
  {}

  lemma Same16(s: bytes, end: nat, p: nat)
    requires p + 2 <= end <= |s|
    ensures At16(s[..end], p) == At16(s, p)
  {}

  // -------------------------------------------------------------- round trips

  ghost predicate FieldsFit(sessionId: bytes, extensions: bytes)
  {
    |sessionId| < 256 && |extensions| < U16_SIZE
  }

  /** The next field of what follows an offset. */
  lemma NextField(s: bytes, p: nat, front: bytes, back: bytes)
    requires p <= |s| && s[p..] == front + back
    ensures p + |front| <= |s| && s[p..p + |front|] == front && s[p + |front|..] == back
  {}

  lemma NextNumber(s: bytes, p: nat, n: nat, back: bytes)
    requires p <= |s| && s[p..] == U16(n) + back
    ensures p + 2 <= |s| && At16(s, p) == n % U16_SIZE && s[p + 2..] == back
  {}

  /** A counted block at the end. */
  lemma LastBlock(s: bytes, p: nat, block: bytes)
    requires p <= |s| && s[p..] == Counted(block)
    ensures |s| == p + 2 + |block| && At16(s, p) == |block| % U16_SIZE && s[p + 2..] == block
  {
    NextNumber(s, p, |block|, block);
  }

  lemma {:induction false} SuitesRoundTrip(suites: seq<u16>)
    ensures SuitesIn(SuiteBytes(suites)) == suites
  {
    if suites != [] {
      var s := SuiteBytes(suites);
      U16RoundTrip(suites[0], SuiteBytes(suites[1..]));
      assert s[2..] == SuiteBytes(suites[1..]);
      SuitesRoundTrip(suites[1..]);
    }
  }

  /** Version, random and session id of a client's hello. */
  lemma ClientFront(h: ClientHello)
    requires |h.sessionId| < 256
    ensures var s, afterSid := ClientBody(h), 35 + |h.sessionId|;
            && afterSid <= |s| && At16(s, 0) == 0x0303 && s[2..34] == h.random
            && s[34] == |h.sessionId| && s[35..afterSid] == h.sessionId && s[afterSid..] == ClientLists(h)
  {}

  /** Cipher list, compression and extensions. */
  lemma ClientBack(s: bytes, p: nat, h: ClientHello)
    requires |h.extensions| < U16_SIZE && 2 * |h.cipherSuites| < U16_SIZE
    requires p <= |s| && s[p..] == ClientLists(h)
    ensures var q := p + 2 + 2 * |h.cipherSuites|;
            && |s| == q + 4 + |h.extensions|
            && At16(s, p) == 2 * |h.cipherSuites| && s[p + 2..q] == SuiteBytes(h.cipherSuites)
            && s[q] == 1 && At16(s, q + 2) == |h.extensions| && s[q + 4..] == h.extensions
  {
    hide U16, At16, SuiteBytes, Counted;
    var block := Counted(h.extensions);
    var t4 := SuiteBytes(h.cipherSuites) + ([1, 0x00] + block);
    var q := p + 2 + 2 * |h.cipherSuites|;
    NextNumber(s, p, 2 * |h.cipherSuites|, t4);
    NextField(s, p + 2, SuiteBytes(h.cipherSuites), [1, 0x00] + block);
    NextField(s, q, [1, 0x00], block);
    assert s[q..q + 2] == [1, 0x00];
    LastBlock(s, q + 2, h.extensions);
  }

  lemma LayoutFrom(s: bytes, sid: nat, n: nat, len: nat)
    requires |s| == 41 + sid + n + len && s[34] == sid && At16(s, 35 + sid) == n
    requires s[37 + sid + n] == 1 && At16(s, 39 + sid + n) == len
    ensures LayoutOf(s) == Some(ClientLayout(35 + sid, 37 + sid + n, 39 + sid + n))
    ensures ExtensionsAt(s, 39 + sid + n) == s[41 + sid + n..]
    ensures CiphersAt(s, ClientLayout(35 + sid, 37 + sid + n, 39 + sid + n)) == s[37 + sid..37 + sid + n]
  {
    hide At16;
  }

  /** A client's hello parses back to itself. */
  lemma ClientHelloRoundTrip(h: ClientHello)
    requires h.version.Tls12? && FieldsFit(h.sessionId, h.extensions) && 2 * |h.cipherSuites| < U16_SIZE
    ensures LayoutOf(ClientBody(h)).Some? && |CiphersAt(ClientBody(h), LayoutOf(ClientBody(h)).value)| % 2 == 0
    ensures ParseClientHello(ClientBody(h)) == Hello(h)
  {
    hide ClientBody, ClientLists, At16, SuiteBytes, SuitesIn, LayoutOf, CiphersAt, ExtensionsAt, U16;
    ClientFront(h);
    ClientBack(ClientBody(h), 35 + |h.sessionId|, h);
    SuitesRoundTrip(h.cipherSuites);
    LayoutFrom(ClientBody(h), |h.sessionId|, 2 * |h.cipherSuites|, |h.extensions|);
  }

  lemma ServerFields(h: ServerHello)
    requires FieldsFit(h.sessionId, h.extensions)
    ensures var s, afterSid := ServerBody(h), 35 + |h.sessionId|;
            && |s| == afterSid + 5 + |h.extensions|
            && At16(s, 0) == VersionCode(h.version) && s[2..34] == h.random && s[34] == |h.sessionId|
            && s[35..afterSid] == h.sessionId && At16(s, afterSid) == h.cipherSuite
            && At16(s, afterSid + 3) == |h.extensions| && s[afterSid + 5..] == h.extensions
  {
    hide U16, At16, Counted;
    var block := Counted(h.extensions);
    var t3 := U16(h.cipherSuite) + ([0x00] + block);
    var t2 := h.sessionId + t3;
    var t1 := [|h.sessionId| % 256] + t2;
    var s, afterSid := ServerBody(h), 35 + |h.sessionId|;
    assert s[0..] == U16(VersionCode(h.version)) + (h.random + t1);
    NextNumber(s, 0, VersionCode(h.version), h.random + t1);
    NextField(s, 2, h.random, t1);
    NextField(s, 34, [|h.sessionId| % 256], t2);
    NextField(s, 35, h.sessionId, t3);
    NextNumber(s, afterSid, h.cipherSuite, [0x00] + block);
    NextField(s, afterSid + 2, [0x00], block);
    LastBlock(s, afterSid + 3, h.extensions);
  }

  /** A server's hello parses back to itself. */
  lemma ServerHelloRoundTrip(h: ServerHello)
    requires FieldsFit(h.sessionId, h.extensions)
    ensures ParseServerHello(ServerBody(h)) == Hello(h)
  {
    ServerFields(h);
    hide ServerBody, At16;
    var s := ServerBody(h);
    assert s[40 + |h.sessionId|..40 + |h.sessionId| + |h.extensions|] == h.extensions;
  }

  // ---------------------------------------------------------- whole pipeline

  datatype Message =
    | Client(clientHello: ClientHello, clientExtensions: seq<Extension>)
    | Server(serverHello: ServerHello, serverExtensions: seq<Extension>)

  datatype MessageError = NotHandshake | Malformed | BadVersionField | BadExtensions | Aborted

  function MessageIn(record: TlsRecord): Result<Message, MessageError>
  {
    var s := record.payload;
    if !record.contentType.Handshake? then Err(NotHandshake)
    else if |s| < HELLO_HEADER_SIZE || (s[0] != CLIENT_HELLO && s[0] != SERVER_HELLO) then Err(Malformed)
    else if s[0] == CLIENT_HELLO then
      match ParseClientHello(s[4..])
      case NotWhole => Err(Malformed)
      case UnknownVersionIn => Err(BadVersionField)
      case ReadsPastEnd => Err(Aborted)
      case Hello(h) =>
        (match ParseStack(h.extensions)
         case Stack(es) => Ok(Client(h, es))
         case _ => Err(BadExtensions))
    else
      match ParseServerHello(s[4..])
      case NotWhole => Err(Malformed)
      case UnknownVersionIn => Err(BadVersionField)
      case ReadsPastEnd => Err(Aborted)
      case Hello(h) =>
        (match ParseStack(h.extensions)
         case Stack(es) => Ok(Server(h, es))
         case _ => Err(BadExtensions))
  }

  /** A handshake record of 43 bytes that makes the reader abort. */
  lemma OddListAborts()
    ensures MessageIn(TlsRecord(Handshake, Tls12, [CLIENT_HELLO, 0, 0, 39] + ODD_LIST)) == Err(Aborted)
  {
    hide SuitesIn, ParseClientHello, ParseStack;
    var s, payload := ODD_LIST, [CLIENT_HELLO, 0, 0, 39] + ODD_LIST;
    assert |s| == 39 && payload[4..] == s;
    assert s[..2] == [0x03, 0x03] && s[34..] == ODD_TAIL;
    assert s[0..2] == s[..2] && s[35..37] == ODD_TAIL[1..3] && s[38] == ODD_TAIL[4];
    AbortsIff(s);
  }

  method HandleRecord(record: TlsRecord) returns (r: Result<Message, MessageError>)
    ensures r == MessageIn(record)
  {
    hide ParseClientHello, ParseServerHello, ParseStack, LayoutOf, CiphersAt;
    if !record.contentType.Handshake? {
      return Err(NotHandshake);
    }
    var payload := new BytesMut(record.payload);
    if |payload.data| < HELLO_HEADER_SIZE {
      return Err(Malformed);
    }
    var kind := payload.data[0];
    if kind != CLIENT_HELLO && kind != SERVER_HELLO {
      return Err(Malformed);
    }
    payload.Advance(HELLO_HEADER_SIZE);
    var block: BytesMut;
    if kind == CLIENT_HELLO {
      var hello := ParseClientHelloFrom(payload);
      match hello
      case NotWhole => return Err(Malformed);
      case UnknownVersionIn => return Err(BadVersionField);
      case ReadsPastEnd => return Err(Aborted);
      case Hello(h) =>
        block := new BytesMut(h.extensions);
        var stack := ParseStackFrom(block);
        match stack
        case Ok(Some(es)) => return Ok(Client(h, es));
        case _ => return Err(BadExtensions);
    } else {
      var hello := ParseServerHelloFrom(payload);
      match hello
      case NotWhole => return Err(Malformed);
      case UnknownVersionIn => return Err(BadVersionField);
      case ReadsPastEnd => return Err(Aborted);
      case Hello(h) =>
        block := new BytesMut(h.extensions);
        var stack := ParseStackFrom(block);
        match stack
        case Ok(Some(es)) => return Ok(Server(h, es));
        case _ => return Err(BadExtensions);
    }
  }

  /** What the bridge reads from the wire: one record, then the message in it. */
  function MessageOnWire(wire: bytes): Option<(Result<Message, MessageError>, bytes)>
  {
    match ParseRecord(wire)
    case Parsed(record, rest) => Some((MessageIn(record), rest))
    case _ => None
  }

  lemma HelloHeader(kind: byte, body: bytes)
    ensures var s := HelloBytes(kind, body); |s| == 4 + |body| && s[0] == kind && s[4..] == body
    ensures |body| < U24_SIZE ==> ReadU24(HelloBytes(kind, body)[1..]) == |body|
  {}

  /** Record, header, hello and extension block undo one another on the client's side ... */
  lemma ClientPipeline(version: ProtocolVersion, h: ClientHello, es: seq<Extension>, rest: bytes)
    requires h.version.Tls12? && FieldsFit(h.sessionId, h.extensions) && 2 * |h.cipherSuites| < U16_SIZE
    requires Fits(es) && h.extensions == StackBytes(es)
    requires 4 + |ClientBody(h)| < U16_SIZE
    ensures MessageOnWire(RecordBytes(TlsRecord(Handshake, version, HelloBytes(CLIENT_HELLO, ClientBody(h)))) + rest)
            == Some((Ok(Client(h, es)), rest))
  {
    hide ClientBody, HelloBytes, RecordBytes, ParseRecord, ParseStack, ParseClientHello, StackBytes;
    var record := TlsRecord(Handshake, version, HelloBytes(CLIENT_HELLO, ClientBody(h)));
    HelloHeader(CLIENT_HELLO, ClientBody(h));
    RecordRoundTrip(record, rest);
    ClientHelloRoundTrip(h);
    ParseStackIff(h.extensions, es);
  }

  /** ... and on the server's. */
  lemma ServerPipeline(version: ProtocolVersion, h: ServerHello, es: seq<Extension>, rest: bytes)
    requires FieldsFit(h.sessionId, h.extensions) && Fits(es) && h.extensions == StackBytes(es)
    requires 4 + |ServerBody(h)| < U16_SIZE
    ensures MessageOnWire(RecordBytes(TlsRecord(Handshake, version, HelloBytes(SERVER_HELLO, ServerBody(h)))) + rest)
            == Some((Ok(Server(h, es)), rest))
  {
    hide ServerBody, HelloBytes, RecordBytes, ParseRecord, ParseStack, ParseServerHello, StackBytes;
    var record := TlsRecord(Handshake, version, HelloBytes(SERVER_HELLO, ServerBody(h)));
    HelloHeader(SERVER_HELLO, ServerBody(h));
    RecordRoundTrip(record, rest);
    ServerHelloRoundTrip(h);
    ParseStackIff(h.extensions, es);
  }
}
