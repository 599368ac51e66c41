/** Which bytes are a hello, and what each of them means (`engine/src/tlseng/handshake.rs`, lines 34-70, 207-289
    and 418-488; `engine/src/bridge.rs`, lines 90-142). */
module HelloGrammars {
  import opened Wrappers
  import opened Bytes
  import opened TlsRecords
  import opened Extensions
  import opened Sessions
  import opened Hellos

  // ------------------------------------------------------------ client's hello

  /** A client's hello with any version field, any bytes for a cipher list and for compression. */
  function RawClient(version: u16, random: Key32, sessionId: bytes, ciphers: bytes, compression: bytes, ending: bytes): bytes
  {
    U16(version) + (random + ([|sessionId| % 256] + (sessionId + RawLists(ciphers, compression, ending))))
  }

  function RawLists(ciphers: bytes, compression: bytes, ending: bytes): bytes
  {
    U16(|ciphers|) + (ciphers + ([|compression| % 256] + (compression + ending)))
  }

  /** How a hello may end: with a whole counted block and anything after it, or with too little for a length. */
  ghost predicate EndsIn(ending: bytes, extensions: bytes)
  {
    if |ending| < 2 then extensions == []
    else |extensions| < U16_SIZE && exists after :: ending == Counted(extensions) + after
  }

  lemma EndingIs(s: bytes, p: nat, ending: bytes, extensions: bytes)
    requires p <= |s| && s[p..] == ending
    ensures EndsIn(ending, extensions)
            <==> EndOf(s, p) <= |s| && ExtensionsOrNone(s, p) == Some(extensions)
  {
    if |ending| >= 2 {
      assert s[p..p + 2] == ending[..2];
      var n := At16(s, p);
      if p + 2 + n <= |s| && s[p + 2..p + 2 + n] == extensions {
        U16Back(s[p..p + 2]);
        assert ending == Counted(extensions) + s[p + 2 + n..];
      }
      if EndsIn(ending, extensions) {
        var after :| ending == Counted(extensions) + after;
        CountedFront(extensions, after);
        assert s[p + 2..p + 2 + |extensions|] == ending[2..2 + |extensions|];
      }
    }
  }

  lemma CountedFront(block: bytes, after: bytes)
    requires |block| < U16_SIZE
    ensures var s := Counted(block) + after;
            ReadU16(s[..2]) == |block| && s[2..2 + |block|] == block
  {
    var s := Counted(block) + after;
    assert s[..2] == U16(|block|) + [];
    U16RoundTrip(|block|, []);
  }

  function ExtensionsOrNone(s: bytes, p: nat): Option<bytes>
  {
    if p > |s| then None
    else if |s| < p + 2 then Some([])
    else if |s| < p + 2 + At16(s, p) then None
    else Some(s[p + 2..p + 2 + At16(s, p)])
  }

  lemma RawFront(version: u16, random: Key32, sessionId: bytes, lists: bytes, s: bytes)
    requires |sessionId| < 256
    requires s == U16(version) + (random + ([|sessionId| % 256] + (sessionId + lists)))
    ensures var afterSid := 35 + |sessionId|;
            && afterSid <= |s| && At16(s, 0) == version && s[2..34] == random
            && s[34] == |sessionId| && s[35..afterSid] == sessionId && s[afterSid..] == lists
  {
    hide U16, At16;
    assert s[0..] == s;
    NextNumber(s, 0, version, random + ([|sessionId| % 256] + (sessionId + lists)));
    NextField(s, 2, random, [|sessionId| % 256] + (sessionId + lists));
    NextField(s, 34, [|sessionId| % 256], sessionId + lists);
    NextField(s, 35, sessionId, lists);
  }

  lemma RawBack(s: bytes, p: nat, ciphers: bytes, compression: bytes, ending: bytes)
    requires |ciphers| < U16_SIZE && |compression| < 256
    requires p <= |s| && s[p..] == RawLists(ciphers, compression, ending)
    ensures var q := p + 2 + |ciphers|;
            && q + 1 + |compression| <= |s| && At16(s, p) == |ciphers| && s[p + 2..q] == ciphers
            && s[q] == |compression| && s[q + 1..q + 1 + |compression|] == compression && s[q + 1 + |compression|..] == ending
  {
    hide U16, At16;
    var q := p + 2 + |ciphers|;
    var t := [|compression| % 256] + (compression + ending);
    NextNumber(s, p, |ciphers|, ciphers + t);
    NextField(s, p + 2, ciphers, t);
    NextField(s, q, [|compression| % 256], compression + ending);
    NextField(s, q + 1, compression, ending);
  }

  lemma LayoutIs(s: bytes, sid: nat, n: nat, comp: nat, extensions: bytes)
    requires |s| >= 38 + sid + n + comp && s[34] == sid && At16(s, 35 + sid) == n && s[37 + sid + n] == comp
    requires EndOf(s, 38 + sid + n + comp) <= |s| && ExtensionsOrNone(s, 38 + sid + n + comp) == Some(extensions)
    ensures LayoutOf(s) == Some(ClientLayout(35 + sid, 37 + sid + n, 38 + sid + n + comp))
    ensures ExtensionsAt(s, 38 + sid + n + comp) == extensions
    ensures CiphersAt(s, ClientLayout(35 + sid, 37 + sid + n, 38 + sid + n + comp)) == s[37 + sid..37 + sid + n]
  {
    hide At16;
  }

  lemma FieldsRead(s: bytes, version: u16, sid: nat, n: nat, comp: nat, extensions: bytes)
    requires |s| >= 38 + sid + n + comp && At16(s, 0) == version
    requires LayoutOf(s) == Some(ClientLayout(35 + sid, 37 + sid + n, 38 + sid + n + comp))
    requires ExtensionsAt(s, 38 + sid + n + comp) == extensions
    requires CiphersAt(s, ClientLayout(35 + sid, 37 + sid + n, 38 + sid + n + comp)) == s[37 + sid..37 + sid + n]
    ensures ParseClientHello(s)
            == match VersionOf(version)
               case None => UnknownVersionIn
               case Some(v) =>
                 if n % 2 == 1 then ReadsPastEnd
                 else Hello(ClientHello(v, s[2..34], s[35..35 + sid], SuitesIn(s[37 + sid..37 + sid + n]), extensions))
  {
    hide At16, SuitesIn, LayoutOf, CiphersAt, ExtensionsAt;
  }

  /** What a whole client's hello reads as. */
  lemma RawClientReads(
      version: u16, random: Key32, sessionId: bytes, ciphers: bytes, compression: bytes, ending: bytes, extensions: bytes)
    requires |sessionId| < 256 && |ciphers| < U16_SIZE && |compression| < 256 && EndsIn(ending, extensions)
    ensures ParseClientHello(RawClient(version, random, sessionId, ciphers, compression, ending))
            == match VersionOf(version)
               case None => UnknownVersionIn
               case Some(v) =>
                 if |ciphers| % 2 == 1 then ReadsPastEnd
                 else Hello(ClientHello(v, random, sessionId, SuitesIn(ciphers), extensions))
  {
    hide At16, U16, SuitesIn, LayoutOf, CiphersAt, ExtensionsAt, RawLists, EndsIn, ExtensionsOrNone, EndOf, ParseClientHello;
    var s := RawClient(version, random, sessionId, ciphers, compression, ending);
    RawFront(version, random, sessionId, RawLists(ciphers, compression, ending), s);
    hide RawClient;
    RawBack(s, 35 + |sessionId|, ciphers, compression, ending);
    EndingIs(s, 38 + |sessionId| + |ciphers| + |compression|, ending, extensions);
    LayoutIs(s, |sessionId|, |ciphers|, |compression|, extensions);
    FieldsRead(s, version, |sessionId|, |ciphers|, |compression|, extensions);
  }

  /** Whatever has all its fields is a whole client's hello. */
  lemma ClientDecomposes(s: bytes) returns (
      version: u16, random: Key32, sessionId: bytes, ciphers: bytes, compression: bytes, ending: bytes, extensions: bytes)
    requires ParseClientHello(s) != NotWhole
    ensures |sessionId| < 256 && |ciphers| < U16_SIZE && |compression| < 256 && EndsIn(ending, extensions)
    ensures s == RawClient(version, random, sessionId, ciphers, compression, ending)
  {
    hide SuitesIn, CiphersAt, ExtensionsAt, RawLists, EndsIn, At16, U16;
    var l := LayoutOf(s).value;
    version, random, sessionId := At16(s, 0), s[2..34], s[35..l.afterSid];
    ciphers, compression, ending := s[l.afterSid + 2..l.afterCiphers], s[l.afterCiphers + 1..l.afterCompression], s[l.afterCompression..];
    extensions := ExtensionsOrNone(s, l.afterCompression).value;
    EndingIs(s, l.afterCompression, ending, extensions);
    ListsAgain(s, l.afterSid, l.afterCiphers, l.afterCompression);
    FrontAgain(s, l.afterSid);
  }

  lemma ListsAgain(s: bytes, p: nat, q: nat, r: nat)
    requires p + 2 <= q < r <= |s| && q == p + 2 + At16(s, p) && r == q + 1 + s[q] as int
    ensures s[p..] == RawLists(s[p + 2..q], s[q + 1..r], s[r..])
  {
    U16Back(s[p..p + 2]);
    hide U16, ReadU16;
    var comp, ending := s[q + 1..r], s[r..];
    assert s[q + 1..] == comp + ending;
    assert s[q..] == [s[q]] + (comp + ending);
    assert s[p + 2..] == s[p + 2..q] + s[q..];
    assert s[p..] == s[p..p + 2] + s[p + 2..];
  }

  lemma FrontAgain(s: bytes, p: nat)
    requires 35 <= p <= |s| && p == 35 + s[34] as int
    ensures s == U16(At16(s, 0)) + (s[2..34] + ([|s[35..p]| % 256] + (s[35..p] + s[p..])))
  {
    U16Back(s[0..2]);
    hide U16, ReadU16;
    assert s[35..] == s[35..p] + s[p..];
    assert s[34..] == [s[34]] + s[35..];
    assert s[2..] == s[2..34] + s[34..];
    assert s == s[0..2] + s[2..];
  }

  /** The reader finds a hello incomplete exactly if it is none with all its fields. */
  lemma ClientIncompleteIff(s: bytes)
    ensures ParseClientHello(s) == NotWhole
            <==> !exists version: u16, random: Key32, sessionId, ciphers, compression, ending, extensions ::
                   && |sessionId| < 256 && |ciphers| < U16_SIZE && |compression| < 256 && EndsIn(ending, extensions)
                   && s == RawClient(version, random, sessionId, ciphers, compression, ending)
  {
    hide ParseClientHello, RawClient, EndsIn;
    if ParseClientHello(s) != NotWhole {
      var version, random, sessionId, ciphers, compression, ending, extensions := ClientDecomposes(s);
    }
    forall version: u16, random: Key32, sessionId, ciphers, compression, ending, extensions
      | && |sessionId| < 256 && |ciphers| < U16_SIZE && |compression| < 256 && EndsIn(ending, extensions)
        && s == RawClient(version, random, sessionId, ciphers, compression, ending)
      ensures ParseClientHello(s) != NotWhole
    {
      RawClientReads(version, random, sessionId, ciphers, compression, ending, extensions);
    }
  }

  /** What a client writes, field by field: one compression method, the null one. */
  lemma ClientBodyIs(h: ClientHello)
    ensures ClientBody(h) == RawClient(0x0303, h.random, h.sessionId, SuiteBytes(h.cipherSuites), [0x00], Counted(h.extensions))
  {
    hide U16, SuiteBytes, Counted;
    assert [1, 0x00] + Counted(h.extensions) == [1] + ([0x00] + Counted(h.extensions));
  }

  // ------------------------------------------------------------ server's hello

  function RawServer(version: u16, random: Key32, sessionId: bytes, suite: u16, compression: byte, ending: bytes): bytes
  {
    U16(version) + (random + ([|sessionId| % 256] + (sessionId + RawChoice(suite, compression, ending))))
  }

  function RawChoice(suite: u16, compression: byte, ending: bytes): bytes
  {
    U16(suite) + ([compression] + ending)
  }

  lemma RawChoiceFields(s: bytes, p: nat, suite: u16, compression: byte, ending: bytes)
    requires p <= |s| && s[p..] == RawChoice(suite, compression, ending)
    ensures p + 3 <= |s| && At16(s, p) == suite && s[p + 2] == compression && s[p + 3..] == ending
  {
    hide U16, At16;
    NextNumber(s, p, suite, [compression] + ending);
    NextField(s, p + 2, [compression], ending);
    assert s[p + 2..p + 3] == [compression];
  }

  /** What a whole server's hello reads as, whatever its compression byte. */
  lemma RawServerReads(version: u16, random: Key32, sessionId: bytes, suite: u16, compression: byte, ending: bytes, extensions: bytes)
    requires |sessionId| < 256 && EndsIn(ending, extensions)
    ensures ParseServerHello(RawServer(version, random, sessionId, suite, compression, ending))
            == match VersionOf(version)
               case None => UnknownVersionIn
               case Some(v) => Hello(ServerHello(v, random, sessionId, suite, extensions))
  {
    hide At16, U16, RawChoice, EndsIn;
    var s := RawServer(version, random, sessionId, suite, compression, ending);
    RawFront(version, random, sessionId, RawChoice(suite, compression, ending), s);
    RawChoiceFields(s, 35 + |sessionId|, suite, compression, ending);
    EndingIs(s, 38 + |sessionId|, ending, extensions);
  }

  lemma ServerDecomposes(s: bytes) returns (
      version: u16, random: Key32, sessionId: bytes, suite: u16, compression: byte, ending: bytes, extensions: bytes)
    requires ParseServerHello(s) != NotWhole
    ensures |sessionId| < 256 && EndsIn(ending, extensions)
    ensures s == RawServer(version, random, sessionId, suite, compression, ending)
  {
    hide RawChoice, EndsIn;
    var p := 35 + s[34] as int;
    version, random, sessionId, suite, compression, ending := At16(s, 0), s[2..34], s[35..p], At16(s, p), s[p + 2], s[p + 3..];
    extensions := ExtensionsOrNone(s, p + 3).value;
    EndingIs(s, p + 3, ending, extensions);
    ChoiceAgain(s, p);
    FrontAgain(s, p);
  }

  lemma ChoiceAgain(s: bytes, p: nat)
    requires p + 3 <= |s|
    ensures s[p..] == RawChoice(At16(s, p), s[p + 2], s[p + 3..])
  {
    U16Back(s[p..p + 2]);
    hide U16, ReadU16;
    assert s[p + 2..] == [s[p + 2]] + s[p + 3..];
    assert s[p..] == s[p..p + 2] + s[p + 2..];
  }

  lemma ServerIncompleteIff(s: bytes)
    ensures ParseServerHello(s) == NotWhole
            <==> !exists version: u16, random: Key32, sessionId, suite: u16, compression: byte, ending, extensions ::
                   && |sessionId| < 256 && EndsIn(ending, extensions)
                   && s == RawServer(version, random, sessionId, suite, compression, ending)
  {
    hide ParseServerHello, RawServer, EndsIn;
    if ParseServerHello(s) != NotWhole {
      var version, random, sessionId, suite, compression, ending, extensions := ServerDecomposes(s);
    }
    forall version: u16, random: Key32, sessionId, suite: u16, compression: byte, ending, extensions
      | |sessionId| < 256 && EndsIn(ending, extensions) && s == RawServer(version, random, sessionId, suite, compression, ending)
      ensures ParseServerHello(s) != NotWhole
    {
      RawServerReads(version, random, sessionId, suite, compression, ending, extensions);
    }
  }

  /** What a server writes, field by field. */
  lemma ServerBodyIs(h: ServerHello)
    ensures ServerBody(h) == RawServer(VersionCode(h.version), h.random, h.sessionId, h.cipherSuite, 0x00, Counted(h.extensions))
  {}

  // -------------------------------------------------------------- the message

  /** A client's message comes out of a record exactly if the record is of the handshake type, begins with the
      type byte 1 and three more, then holds a client's hello that reads, and its extension block is exactly
      the extensions returned. */
  lemma ClientMessageIff(record: TlsRecord, h: ClientHello, es: seq<Extension>)
    ensures MessageIn(record) == Ok(Client(h, es))
            <==> && record.contentType.Handshake? && |record.payload| >= 4 && record.payload[0] == 1
                 && ParseClientHello(record.payload[4..]) == Hello(h)
                 && Fits(es) && h.extensions == StackBytes(es)
  {
    hide ParseClientHello, ParseServerHello, ParseStack, Fits, StackBytes;
    ParseStackIff(h.extensions, es);
  }

  lemma ServerMessageIff(record: TlsRecord, h: ServerHello, es: seq<Extension>)
    ensures MessageIn(record) == Ok(Server(h, es))
            <==> && record.contentType.Handshake? && |record.payload| >= 4 && record.payload[0] == 2
                 && ParseServerHello(record.payload[4..]) == Hello(h)
                 && Fits(es) && h.extensions == StackBytes(es)
  {
    hide ParseClientHello, ParseServerHello, ParseStack, Fits, StackBytes;
    ParseStackIff(h.extensions, es);
  }

  /** A block that is the concatenation of some extensions. */
  ghost predicate IsStack(s: bytes)
  {
    exists es :: Fits(es) && s == StackBytes(es)
  }

  lemma StackIffIsStack(s: bytes)
    ensures ParseStack(s).Stack? <==> IsStack(s)
  {
    hide ParseStack, Fits, StackBytes;
    if ParseStack(s).Stack? {
      ParseStackIff(s, ParseStack(s).extensions);
    }
    forall es | Fits(es) && s == StackBytes(es) ensures ParseStack(s).Stack? {
      ParseStackIff(s, es);
    }
  }

  datatype Reading = CutShort | OddVersion | Overran | NoStack | Good

  ghost function ReadingOf<T>(p: ParsedHello<T>, blockOf: T -> bytes): Reading
  {
    match p
    case NotWhole => CutShort
    case UnknownVersionIn => OddVersion
    case ReadsPastEnd => Overran
    case Hello(h) => if IsStack(blockOf(h)) then Good else NoStack
  }

  ghost function ReadAs(kind: byte, body: bytes): Reading
  {
    if kind == 1 then ReadingOf(ParseClientHello(body), (h: ClientHello) => h.extensions)
    else ReadingOf(ParseServerHello(body), (h: ServerHello) => h.extensions)
  }

  /** Every refusal has its own cause. */
  lemma MessageErrors(record: TlsRecord)
    ensures var p, m := record.payload, MessageIn(record);
            var known := |p| >= 4 && p[0] in [1, 2];
            && (m == Err(NotHandshake) <==> !record.contentType.Handshake?)
            && (m == Err(Malformed) <==> record.contentType.Handshake? && !(known && !ReadAs(p[0], p[4..]).CutShort?))
            && (m == Err(BadVersionField) <==> record.contentType.Handshake? && known && ReadAs(p[0], p[4..]).OddVersion?)
            && (m == Err(Aborted) <==> record.contentType.Handshake? && known && ReadAs(p[0], p[4..]).Overran?)
            && (m == Err(BadExtensions) <==> record.contentType.Handshake? && known && ReadAs(p[0], p[4..]).NoStack?)
            && (m.Ok? <==> record.contentType.Handshake? && known && ReadAs(p[0], p[4..]).Good?)
  {
    hide ParseClientHello, ParseStack, IsStack;
    var p := record.payload;
    if |p| >= 4 && p[0] == 1 && ParseClientHello(p[4..]).Hello? {
      StackIffIsStack(ParseClientHello(p[4..]).hello.extensions);
    }
    if |p| >= 4 && p[0] == 2 && ParseServerHello(p[4..]).Hello? {
      StackIffIsStack(ParseServerHello(p[4..]).hello.extensions);
    }
  }
}
