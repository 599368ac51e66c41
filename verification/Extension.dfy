/** Reading the extension block of a hello, and the key share in it (`engine/src/tlseng/extension.rs`,
    lines 39-144; `engine/src/crypto/session.rs`, lines 303-419). */
module Extensions {
  import opened Wrappers
  import opened Bytes

  datatype Extension = Extension(etype: u16, data: bytes)

  function ExtensionBytes(e: Extension): (s: bytes)
    ensures |s| == 4 + |e.data|
  {
    U16(e.etype) + U16(|e.data|) + e.data
  }

  function StackBytes(es: seq<Extension>): bytes
  {
    if es == [] then [] else ExtensionBytes(es[0]) + StackBytes(es[1..])
  }

  lemma {:induction false} StackAppend(a: seq<Extension>, b: seq<Extension>)
    ensures StackBytes(a + b) == StackBytes(a) + StackBytes(b)
  {
    if a == [] {
      assert a + b == b;
    } else {
      assert (a + b)[1..] == a[1..] + b;
      StackAppend(a[1..], b);
    }
  }

  ghost predicate Fits(es: seq<Extension>)
  {
    forall e :: e in es ==> |e.data| < U16_SIZE
  }

  // ------------------------------------------------------------------ parsing

  /** Length declared by the extension that starts at `offset`. */
  function DeclaredLen(s: bytes, offset: nat): (n: nat)
    requires offset + 4 <= |s|
  {
    ReadU16(s[offset + 2..offset + 4])
  }

  /** Where hopping from extension to extension ends. */
  function ScanEnd(s: bytes, offset: nat): (end: nat)
    requires offset <= |s|
    ensures end >= offset
    decreases |s| - offset
  {
    if offset + 4 > |s| then offset
    else
      var next := offset + 4 + DeclaredLen(s, offset);
      if next > |s| then next else ScanEnd(s, next)
  }

  /** The extensions from `offset` on; the scan has made sure that none of them overruns. */
  function Extract(s: bytes, offset: nat): seq<Extension>
    requires offset <= |s| && ScanEnd(s, offset) == |s|
    decreases |s| - offset
  {
    if offset + 4 > |s| then []
    else
      var next := offset + 4 + DeclaredLen(s, offset);
      [Extension(ReadU16(s[offset..offset + 2]), s[offset + 4..next])] + Extract(s, next)
  }

  datatype StackParse = Incomplete | TrailingData | Stack(extensions: seq<Extension>)

  function ParseStack(s: bytes): StackParse
  {
    var end := ScanEnd(s, 0);
    if end > |s| then Incomplete
    else if end != |s| then TrailingData
    else Stack(Extract(s, 0))
  }

  datatype ExtensionError = MalformedStack

  /** The idle pass over the block. */
  method Prescan(s: bytes) returns (offset: nat)
    ensures offset == ScanEnd(s, 0)
  {
    offset := 0;
    while offset + 4 <= |s|
      invariant offset <= |s| ==> ScanEnd(s, offset) == ScanEnd(s, 0)
      invariant offset > |s| ==> offset == ScanEnd(s, 0)
      decreases |s| - offset
    {
      var elen := ReadU16(s[offset + 2..offset + 4]);
      offset := offset + 4 + elen;
    }
  }

  /** Takes one extension off the front of the buffer. */
  method TakeExtension(buffer: BytesMut, ghost s: bytes, ghost done: nat) returns (e: Extension)
    requires done + 4 <= |s| && buffer.data == s[done..] && ScanEnd(s, done) == |s|
    modifies buffer
    ensures var next := done + 4 + DeclaredLen(s, done);
            && next <= |s| && ScanEnd(s, next) == |s| && buffer.data == s[next..]
            && Extract(s, done) == [e] + Extract(s, next)
  {
    hide ScanEnd, Extract;
    TakeOne(s, done);
    assert s[done..][..2] == s[done..done + 2] && s[done..][2..][..2] == s[done + 2..done + 4];
    var etype := buffer.GetU16();
    var elen := buffer.GetU16();
    assert buffer.data == s[done + 4..];
    var data := buffer.SplitTo(elen);
    assert data == s[done + 4..done + 4 + elen] && buffer.data == s[done + 4 + elen..];
    e := Extension(etype, data);
  }

  lemma TakeOne(s: bytes, done: nat)
    requires done + 4 <= |s| && ScanEnd(s, done) == |s|
    ensures var next := done + 4 + DeclaredLen(s, done);
            && next <= |s| && ScanEnd(s, next) == |s|
            && Extract(s, done) == [Extension(ReadU16(s[done..done + 2]), s[done + 4..next])] + Extract(s, next)
  {}

  /** Takes all extensions out of a block that the idle pass has found whole. */
  method ExtractFrom(buffer: BytesMut) returns (extensions: seq<Extension>)
    requires ScanEnd(buffer.data, 0) == |buffer.data|
    modifies buffer
    ensures extensions == Extract(old(buffer.data), 0) && buffer.data == []
  {
    hide ScanEnd, Extract;
    ghost var s := buffer.data;
    extensions := [];
    ghost var done: nat := 0;
    assert s[0..] == s;
    while |buffer.data| >= 4
      invariant done <= |s| && buffer.data == s[done..] && ScanEnd(s, done) == |s|
      invariant extensions + Extract(s, done) == Extract(s, 0)
      decreases |buffer.data|
    {
      ghost var next := done + 4 + DeclaredLen(s, done);
      var e := TakeExtension(buffer, s, done);
      extensions := extensions + [e];
      done := next;
    }
    TakeNone(s, done);
  }

  lemma TakeNone(s: bytes, done: nat)
    requires done <= |s| < done + 4 && ScanEnd(s, done) == |s|
    ensures done == |s| && Extract(s, done) == []
  {}

  method ParseStackFrom(buffer: BytesMut) returns (r: Result<Option<seq<Extension>>, ExtensionError>)
    modifies buffer
    ensures match ParseStack(old(buffer.data))
            case Incomplete => r == Ok(None) && buffer.data == old(buffer.data)
            case TrailingData => r == Err(MalformedStack) && buffer.data == old(buffer.data)
            case Stack(es) => r == Ok(Some(es)) && buffer.data == []
  {
    var offset := Prescan(buffer.data);
    if offset > |buffer.data| {
      return Ok(None);
    }
    if offset != |buffer.data| {
      return Err(MalformedStack);
    }
    var extensions := ExtractFrom(buffer);
    r := Ok(Some(extensions));
  }

  /** A part of the block that is not one more extension: too short for a header, or overrun by the
      length it declares. */
  ghost predicate Stuck(tail: bytes)
  {
    |tail| < 4 || 4 + DeclaredLen(tail, 0) > |tail|
  }

  lemma SliceOfSlice(s: bytes, from: nat, end: nat, i: nat, j: nat)
    requires from <= end <= |s| && i <= j <= end - from
    ensures s[from..end][i..j] == s[from + i..from + j]
  {
    var a, b := s[from..end][i..j], s[from + i..from + j];
    assert forall k :: 0 <= k < j - i ==> a[k] == b[k];
  }

  /** An extension found at an offset reads back. */
  lemma HeadAt(s: bytes, at: nat, e: Extension)
    requires |e.data| < U16_SIZE
    requires at + 4 + |e.data| <= |s| && s[at..at + 4 + |e.data|] == ExtensionBytes(e)
    ensures DeclaredLen(s, at) == |e.data|
    ensures ReadU16(s[at..at + 2]) == e.etype && s[at + 4..at + 4 + |e.data|] == e.data
  {
    var head := s[at..at + 4 + |e.data|];
    assert head == U16(e.etype) + U16(|e.data|) + e.data;
    SliceOfSlice(s, at, at + |head|, 0, 2);
    SliceOfSlice(s, at, at + |head|, 2, 4);
    SliceOfSlice(s, at, at + |head|, 4, |head|);
    assert head[0..2] == U16(e.etype) + [] && head[2..4] == U16(|e.data|) + [] && head[4..|head|] == e.data;
    U16RoundTrip(e.etype, []);
    U16RoundTrip(|e.data|, []);
  }

  function TailEnd(tail: bytes): nat
  {
    if |tail| < 4 then 0 else 4 + DeclaredLen(tail, 0)
  }

  lemma ScanStops(s: bytes, at: nat, tail: bytes)
    requires at <= |s| && s[at..] == tail && Stuck(tail)
    ensures ScanEnd(s, at) == at + TailEnd(tail)
    ensures tail == [] ==> Extract(s, at) == []
  {
    if |tail| >= 4 {
      assert s[at + 2..at + 4] == tail[2..4];
    }
  }

  lemma ScanHops(s: bytes, at: nat, e: Extension)
    requires |e.data| < U16_SIZE
    requires at + 4 + |e.data| <= |s| && s[at..at + 4 + |e.data|] == ExtensionBytes(e)
    ensures var next := at + 4 + |e.data|;
            && ScanEnd(s, at) == ScanEnd(s, next)
            && (ScanEnd(s, at) == |s| ==> Extract(s, at) == [e] + Extract(s, next))
  {
    HeadAt(s, at, e);
  }

  lemma {:induction false} ScanTail(s: bytes, at: nat, es: seq<Extension>, tail: bytes)
    requires Fits(es) && Stuck(tail) && at <= |s| && s[at..] == StackBytes(es) + tail
    ensures ScanEnd(s, at) == at + |StackBytes(es)| + TailEnd(tail)
    ensures tail == [] ==> Extract(s, at) == es
    decreases |es|
  {
    hide *;
    NoExtensions();
    if es == [] {
      assert s[at..] == tail;
      ScanStops(s, at, tail);
    } else {
      FitsParts(es);
      var next := OneLess(s, at, es, tail);
      ScanHops(s, at, es[0]);
      ScanTail(s, next, es[1..], tail);
      assert [es[0]] + es[1..] == es;
    }
  }

  lemma NoExtensions()
    ensures StackBytes([]) == [] && TailEnd([]) == 0
  {}

  lemma FitsParts(es: seq<Extension>)
    requires Fits(es) && es != []
    ensures |es[0].data| < U16_SIZE && Fits(es[1..])
  {}

  lemma OneLess(s: bytes, at: nat, es: seq<Extension>, tail: bytes) returns (next: nat)
    requires at <= |s| && s[at..] == StackBytes(es) + tail && es != []
    ensures next == at + 4 + |es[0].data| <= |s| && s[at..next] == ExtensionBytes(es[0])
    ensures s[next..] == StackBytes(es[1..]) + tail
    ensures |StackBytes(es)| == next - at + |StackBytes(es[1..])|
  {
    var head, more := ExtensionBytes(es[0]), StackBytes(es[1..]);
    next := at + |head|;
    assert s[at..] == head + (more + tail);
    assert s[at..next] == s[at..][..|head|];
    assert s[next..] == s[at..][|head|..];
  }

  /** Every block is some extensions followed by a tail that is not one. */
  lemma {:induction false} Decompose(s: bytes) returns (es: seq<Extension>, tail: bytes)
    ensures Fits(es) && Stuck(tail) && s == StackBytes(es) + tail
    decreases |s|
  {
    if Stuck(s) {
      es, tail := [], s;
    } else {
      var n := 4 + DeclaredLen(s, 0);
      var e := Extension(ReadU16(s[..2]), s[4..n]);
      assert ExtensionBytes(e) == s[..n] by {
        U16Back(s[..2]);
        U16Back(s[2..4]);
        assert s[0 + 2..0 + 4] == s[2..4];
        assert s[..n] == s[..2] + s[2..4] + s[4..n];
      }
      var more;
      more, tail := Decompose(s[n..]);
      es := [e] + more;
      assert s == s[..n] + s[n..];
    }
  }

  /** The parser is a bijection: it returns extensions exactly when the block is their concatenation,
      reports trailing data exactly when one to three bytes are left over, and reports an incomplete
      block exactly when a declared length overruns. */
  lemma ParseStackExactly(s: bytes, es: seq<Extension>, tail: bytes)
    requires Fits(es) && Stuck(tail) && s == StackBytes(es) + tail
    ensures ParseStack(s) == if tail == [] then Stack(es) else if |tail| < 4 then TrailingData else Incomplete
  {
    assert s[0..] == s;
    ScanTail(s, 0, es, tail);
  }

  lemma ParseStackIff(s: bytes, es: seq<Extension>)
    ensures ParseStack(s) == Stack(es) <==> Fits(es) && s == StackBytes(es)
  {
    var es', tail := Decompose(s);
    ParseStackExactly(s, es', tail);
    if ParseStack(s) == Stack(es) {
      assert s == StackBytes(es);
    }
    if Fits(es) && s == StackBytes(es) {
      assert s == StackBytes(es) + [];
      ParseStackExactly(s, es, []);
    }
  }

  // ------------------------------------------------------------------ lookup

  const SNI: u16 := 0x0000
  const KEY_SHARE: u16 := 0x0033
  const TYPE_HOST_NAME: byte := 0x00

  function FindByType(es: seq<Extension>, etype: u16): Option<bytes>
  {
    if es == [] then None else if es[0].etype == etype then Some(es[0].data) else FindByType(es[1..], etype)
  }

  /** `s.get(from..to)` */
  function Slice(s: bytes, from: nat, to: nat): Option<bytes>
  {
    if from <= to <= |s| then Some(s[from..to]) else None
  }

  function HostIn(data: bytes): Option<bytes>
  {
    if |data| < 2 then None
    else
      match Slice(data, 2, 2 + ReadU16(data))
      case None => None
      case Some(list) =>
        if |list| < 3 || list[0] != TYPE_HOST_NAME then None
        else Slice(list, 3, 3 + ReadU16(list[1..3]))
  }

  function ServerName(es: seq<Extension>): Option<bytes>
  {
    match FindByType(es, SNI)
    case None => None
    case Some(data) => HostIn(data)
  }

  function ServerNameData(host: bytes): bytes
  {
    U16(3 + |host|) + [TYPE_HOST_NAME] + U16(|host|) + host
  }

  /** A name list whose first entry is a host name. Other entries and trailing bytes may follow. */
  function NameList(host: bytes, others: bytes, tail: bytes): bytes
  {
    U16(3 + |host| + |others|) + ([0x00] + U16(|host|) + host + others) + tail
  }

  lemma NameListFields(host: bytes, others: bytes, tail: bytes)
    requires 3 + |host| + |others| < U16_SIZE
    ensures var data, list := NameList(host, others, tail), [TYPE_HOST_NAME] + U16(|host|) + host + others;
            && |data| >= 2 && ReadU16(data) == |list| && Slice(data, 2, 2 + |list|) == Some(list)
            && list[0] == TYPE_HOST_NAME && ReadU16(list[1..3]) == |host| && list[3..3 + |host|] == host
  {
    var list := [TYPE_HOST_NAME] + U16(|host|) + host + others;
    hide U16, ReadU16;
    assert NameList(host, others, tail) == U16(|list|) + (list + tail);
    U16RoundTrip(|list|, list + tail);
    assert (U16(|list|) + (list + tail))[2..2 + |list|] == list;
    assert list[1..3] == U16(|host|) + [];
    U16RoundTrip(|host|, []);
  }

  /** A host is found exactly in a list that begins with it as an entry of the host name type. */
  lemma HostFoundIff(data: bytes, host: bytes)
    ensures HostIn(data) == Some(host)
            <==> exists others, tail :: 3 + |host| + |others| < U16_SIZE && data == NameList(host, others, tail)
  {
    hide NameList, U16, ReadU16;
    forall others, tail | 3 + |host| + |others| < U16_SIZE && data == NameList(host, others, tail)
      ensures HostIn(data) == Some(host)
    {
      NameListFields(host, others, tail);
    }
    if HostIn(data) == Some(host) {
      var others, tail := FoundIsNameList(data, host);
    }
  }

  lemma FoundIsNameList(data: bytes, host: bytes) returns (others: bytes, tail: bytes)
    requires HostIn(data) == Some(host)
    ensures 3 + |host| + |others| < U16_SIZE && data == NameList(host, others, tail)
  {
    hide U16, ReadU16;
    var n := ReadU16(data);
    var list := data[2..2 + n];
    others, tail := list[3 + |host|..], data[2 + n..];
    FrontIsLength(data);
    U16Back(list[1..3]);
    assert list == list[..1] + list[1..3] + host + others;
    assert data == data[..2] + list + tail;
  }

  lemma FrontIsLength(data: bytes)
    requires |data| >= 2
    ensures U16(ReadU16(data)) == data[..2]
  {
    U16Back(data[..2]);
  }

  lemma ServerNameRoundTrip(host: bytes)
    requires |host| + 3 < U16_SIZE
    ensures HostIn(ServerNameData(host)) == Some(host)
  {
    hide U16, ReadU16, HostIn;
    assert ServerNameData(host) == NameList(host, [], []);
    HostFoundIff(ServerNameData(host), host);
  }

  // --------------------------------------------------------------- key share

  const GROUP_X25519: u16 := 0x001d
  const X25519_LEN: nat := 32

  datatype KeyEntry = KeyEntry(group: u16, key: bytes)

  function KeyEntryBytes(e: KeyEntry): (s: bytes)
    ensures |s| == 4 + |e.key|
  {
    U16(e.group) + U16(|e.key|) + e.key
  }

  function KeyListBytes(es: seq<KeyEntry>): bytes
  {
    if es == [] then [] else KeyEntryBytes(es[0]) + KeyListBytes(es[1..])
  }

  /** The first X25519 key of the right length met by hopping over whole entries. */
  function ScanKeyList(list: bytes): Option<bytes>
    decreases |list|
  {
    if |list| < 4 then None
    else
      var n := ReadU16(list[2..4]);
      if 4 + n > |list| then None
      else if ReadU16(list) == GROUP_X25519 && n == X25519_LEN then Some(list[4..4 + n])
      else ScanKeyList(list[4 + n..])
  }

  function FirstX25519(es: seq<KeyEntry>): Option<bytes>
  {
    if es == [] then None
    else if es[0].group == GROUP_X25519 && |es[0].key| == X25519_LEN then Some(es[0].key)
    else FirstX25519(es[1..])
  }

  /** Whatever bytes the other entries hold, and whatever is left behind the last whole entry, what is found is
      the key of the first X25519 entry, and nothing if there is none: no part of another entry and no part of
      a broken one is ever taken for it. */
  lemma {:induction false} KeyFoundByStructure(es: seq<KeyEntry>, tail: bytes)
    requires (forall e :: e in es ==> |e.key| < U16_SIZE) && Stuck(tail)
    ensures ScanKeyList(KeyListBytes(es) + tail) == FirstX25519(es)
    decreases |es|
  {
    if es == [] {
      assert KeyListBytes(es) + tail == tail;
      assert |tail| >= 4 ==> tail[0 + 2..0 + 4] == tail[2..4];
    } else {
      assert es[0] in es;
      var more := KeyListBytes(es[1..]) + tail;
      assert KeyListBytes(es) + tail == KeyEntryBytes(es[0]) + more;
      KeyHead(es[0], more);
      KeyFoundByStructure(es[1..], tail);
      hide KeyEntryBytes, ReadU16, Stuck;
    }
  }

  /** Every list is some whole entries and a rest that is none, so this says what is found in any bytes. */
  lemma {:induction false} KeyListDecomposes(list: bytes) returns (es: seq<KeyEntry>, tail: bytes)
    ensures (forall e :: e in es ==> |e.key| < U16_SIZE) && Stuck(tail) && list == KeyListBytes(es) + tail
    decreases |list|
  {
    if Stuck(list) {
      es, tail := [], list;
    } else {
      var n := 4 + DeclaredLen(list, 0);
      var e := KeyEntry(ReadU16(list[..2]), list[4..n]);
      assert KeyEntryBytes(e) == list[..n] by {
        U16Back(list[..2]);
        U16Back(list[2..4]);
        assert list[0 + 2..0 + 4] == list[2..4];
        assert list[..n] == list[..2] + list[2..4] + list[4..n];
      }
      var more;
      more, tail := KeyListDecomposes(list[n..]);
      es := [e] + more;
      assert list == list[..n] + list[n..];
    }
  }

  lemma KeyHead(e: KeyEntry, tail: bytes)
    requires |e.key| < U16_SIZE
    ensures var list := KeyEntryBytes(e) + tail;
            && ReadU16(list) == e.group && ReadU16(list[2..4]) == |e.key|
            && list[4..4 + |e.key|] == e.key && list[4 + |e.key|..] == tail
  {}

  datatype TamperError = NoKeyShare | KeyShareTooShort | ListOverruns | NoX25519 | BadKeyLength | ZeroKey

  function AllZero(key: bytes): bool
  {
    forall i :: 0 <= i < |key| ==> key[i] == 0
  }

  function NonZero(key: bytes): Result<bytes, TamperError>
  {
    if AllZero(key) then Err(ZeroKey) else Ok(key)
  }

  /** The peer's key: from the list of a client's hello, or the single entry of a server's. */
  function PeerPublic(es: seq<Extension>, isServer: bool): Result<bytes, TamperError>
  {
    match FindByType(es, KEY_SHARE)
    case None => Err(NoKeyShare)
    case Some(data) =>
      if isServer then
        if |data| < 2 then Err(KeyShareTooShort)
        else
          match Slice(data, 2, 2 + ReadU16(data))
          case None => Err(ListOverruns)
          case Some(list) =>
            match ScanKeyList(list)
            case None => Err(NoX25519)
            case Some(key) => NonZero(key)
      else
        if |data| < 4 + X25519_LEN then Err(KeyShareTooShort)
        else if ReadU16(data[2..4]) != X25519_LEN then Err(BadKeyLength)
        else NonZero(data[4..4 + X25519_LEN])
  }

  /** The first extension of the type, and none exactly if there is no such extension. */
  lemma {:induction false} FindsFirst(es: seq<Extension>, etype: u16, data: bytes)
    ensures FindByType(es, etype) == Some(data)
            <==> exists i: nat :: i < |es| && es[i] == Extension(etype, data) && forall j :: 0 <= j < i ==> es[j].etype != etype
  {
    if es != [] {
      FindsFirst(es[1..], etype, data);
      if es[0].etype != etype {
        if i: nat :| i < |es[1..]| && es[1..][i] == Extension(etype, data) && forall j :: 0 <= j < i ==> es[1..][j].etype != etype {
          assert es[i + 1] == Extension(etype, data);
          assert forall j :: 1 <= j < i + 1 ==> es[j] == es[1..][j - 1];
        }
        if i: nat :| i < |es| && es[i] == Extension(etype, data) && forall j :: 0 <= j < i ==> es[j].etype != etype {
          assert es[1..][i - 1] == Extension(etype, data);
          assert forall j :: 0 <= j < i - 1 ==> es[1..][j] == es[j + 1];
        }
      } else {
        assert es[0] == Extension(etype, es[0].data);
      }
    }
  }

  /** What a server takes as the client's key. */
  ghost predicate ClientShare(data: bytes, key: bytes)
  {
    exists entries: seq<KeyEntry>, broken, tail ::
      && (forall e :: e in entries ==> |e.key| < U16_SIZE) && Stuck(broken) && |KeyListBytes(entries) + broken| < U16_SIZE
      && data == U16(|KeyListBytes(entries) + broken|) + (KeyListBytes(entries) + broken) + tail
      && FirstX25519(entries) == Some(key)
  }

  /** What a client takes as the server's key; the group is not looked at. */
  ghost predicate ServerShare(data: bytes, key: bytes)
  {
    |key| == X25519_LEN && exists group: u16, tail :: data == U16(group) + U16(X25519_LEN) + key + tail
  }

  /** The key a side accepts is the one in the first key share extension, if it has the form that side expects
      and is not zero. */
  lemma PeerPublicIff(es: seq<Extension>, isServer: bool, key: bytes)
    ensures PeerPublic(es, isServer) == Ok(key)
            <==> && FindByType(es, KEY_SHARE).Some? && !AllZero(key)
                 && if isServer then ClientShare(FindByType(es, KEY_SHARE).value, key) else ServerShare(FindByType(es, KEY_SHARE).value, key)
  {
    hide FindByType, AllZero, ClientShare, ServerShare, ScanKeyList, U16, ReadU16;
    if FindByType(es, KEY_SHARE).Some? {
      var data := FindByType(es, KEY_SHARE).value;
      if isServer {
        ClientShareIff(data, key);
      } else {
        ServerShareIff(data, key);
      }
    }
  }

  function CountedIn(data: bytes): Option<bytes>
  {
    if |data| < 2 then None else Slice(data, 2, 2 + ReadU16(data))
  }

  lemma CountedInIff(data: bytes, list: bytes)
    ensures CountedIn(data) == Some(list) <==> |list| < U16_SIZE && exists tail :: data == U16(|list|) + list + tail
  {
    if CountedIn(data) == Some(list) {
      FrontIsLength(data);
      assert data == U16(|list|) + list + data[2 + |list|..];
    }
    forall tail | |list| < U16_SIZE && data == U16(|list|) + list + tail
      ensures CountedIn(data) == Some(list)
    {
      assert data == U16(|list|) + (list + tail);
      U16RoundTrip(|list|, list + tail);
      assert data[2..2 + |list|] == list;
    }
  }

  lemma ClientShareIff(data: bytes, key: bytes)
    ensures ClientShare(data, key) <==> CountedIn(data).Some? && ScanKeyList(CountedIn(data).value) == Some(key)
  {
    hide U16, ScanKeyList, FirstX25519, KeyListBytes, Stuck, CountedIn;
    if CountedIn(data).Some? {
      var list := CountedIn(data).value;
      CountedInIff(data, list);
      var tail :| data == U16(|list|) + list + tail;
      var entries, broken := KeyListDecomposes(list);
      KeyFoundByStructure(entries, broken);
      if ScanKeyList(list) == Some(key) {
        assert ClientShare(data, key);
      }
    }
    if ClientShare(data, key) {
      var entries: seq<KeyEntry>, broken, tail :|
        && (forall e :: e in entries ==> |e.key| < U16_SIZE) && Stuck(broken) && |KeyListBytes(entries) + broken| < U16_SIZE
        && data == U16(|KeyListBytes(entries) + broken|) + (KeyListBytes(entries) + broken) + tail
        && FirstX25519(entries) == Some(key);
      KeyFoundByStructure(entries, broken);
      CountedInIff(data, KeyListBytes(entries) + broken);
    }
  }

  lemma ServerShareIff(data: bytes, key: bytes)
    ensures ServerShare(data, key) <==> |data| >= 36 && ReadU16(data[2..4]) == X25519_LEN && key == data[4..36]
  {
    if |data| >= 36 && ReadU16(data[2..4]) == X25519_LEN && key == data[4..36] {
      U16Back(data[..2]);
      U16Back(data[2..4]);
      hide U16, ReadU16;
      assert data == U16(ReadU16(data[..2])) + U16(X25519_LEN) + key + data[36..];
    }
    if ServerShare(data, key) {
      var group: u16, tail :| data == U16(group) + U16(X25519_LEN) + key + tail;
      assert data[2..4] == U16(X25519_LEN) + [];
      U16RoundTrip(X25519_LEN, []);
      assert data[4..36] == key;
    }
  }

  method ScanKeys(list: bytes) returns (found: bool, key: bytes)
    ensures match ScanKeyList(list)
            case None => !found
            case Some(k) => found && key == k
  {
    var off := 0;
    found, key := false, [];
    while off + 4 <= |list|
      invariant off <= |list| && !found
      invariant ScanKeyList(list[off..]) == ScanKeyList(list)
      decreases |list| - off
    {
      var rest := list[off..];
      var group := ReadU16(rest);
      var keyLen := ReadU16(rest[2..4]);
      off := off + 4;
      if off + keyLen > |list| {
        return false, [];
      }
      var entry := list[off..off + keyLen];
      assert rest[4..4 + keyLen] == entry && rest[4 + keyLen..] == list[off + keyLen..];
      if group == GROUP_X25519 && keyLen == X25519_LEN {
        return true, entry;
      }
      off := off + keyLen;
    }
  }

  method ExtractPeerPublic(es: seq<Extension>, isServer: bool) returns (r: Result<bytes, TamperError>)
    ensures r == PeerPublic(es, isServer)
    ensures r.Ok? ==> |r.value| == X25519_LEN && !AllZero(r.value)
  {
    KeyLength(es, isServer);
    var found := FindByType(es, KEY_SHARE);
    if found.None? {
      return Err(NoKeyShare);
    }
    var data := found.value;
    var key: bytes;
    if isServer {
      if |data| < 2 {
        return Err(KeyShareTooShort);
      }
      var list := Slice(data, 2, 2 + ReadU16(data));
      if list.None? {
        return Err(ListOverruns);
      }
      var ok;
      ok, key := ScanKeys(list.value);
      if !ok {
        return Err(NoX25519);
      }
    } else {
      if |data| < 4 + X25519_LEN {
        return Err(KeyShareTooShort);
      }
      if ReadU16(data[2..4]) != X25519_LEN {
        return Err(BadKeyLength);
      }
      key := data[4..4 + X25519_LEN];
    }
    if AllZero(key) {
      return Err(ZeroKey);
    }
    r := Ok(key);
  }

  lemma {:induction false} ScannedKeyLength(list: bytes)
    ensures ScanKeyList(list).Some? ==> |ScanKeyList(list).value| == X25519_LEN
    decreases |list|
  {
    if |list| >= 4 && 4 + ReadU16(list[2..4]) <= |list| {
      ScannedKeyLength(list[4 + ReadU16(list[2..4])..]);
    }
  }

  lemma KeyLength(es: seq<Extension>, isServer: bool)
    ensures PeerPublic(es, isServer).Ok? ==>
              |PeerPublic(es, isServer).value| == X25519_LEN && !AllZero(PeerPublic(es, isServer).value)
  {
    var found := FindByType(es, KEY_SHARE);
    if found.Some? && |found.value| >= 2 && 2 + ReadU16(found.value) <= |found.value| {
      ScannedKeyLength(found.value[2..2 + ReadU16(found.value)]);
    }
  }
}
