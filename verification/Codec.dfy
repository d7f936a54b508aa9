/** VarInt, block headers and the nine message payloads on the wire (src/network/message.cpp, src/chain/block.cpp). */
module Codec {
  import opened Types
  import opened Formats
  import opened Protocol

  const HEADER_SIZE := 100

  // ---------- VarInt ----------

  /** The shortest of the four forms. */
  function EncodeVarInt(v: int): (b: seq<Byte>)
    ensures 1 <= |b| <= 9
  {
    if v < 0xfd then LE(v, 1)
    else if v <= 0xffff then [0xfd] + LE(v, 2)
    else if v <= 0xffff_ffff then [0xfe] + LE(v, 4)
    else [0xff] + LE(v, 8)
  }

  /** A value in n bytes after the first, which must not fit in a shorter form. */
  function DecodeWide(b: seq<Byte>, n: nat, least: nat): Option<(int, seq<Byte>)>
    requires |b| >= 1
  {
    if |b| < n + 1 then None
    else
      var v := ReadLE(b[1..n + 1]);
      if v < least then None else Some((v, b[n + 1..]))
  }

  function DecodeVarInt(b: seq<Byte>): Option<(int, seq<Byte>)>
  {
    if |b| < 1 then None
    else if b[0] < 0xfd then Some((b[0], b[1..]))
    else if b[0] == 0xfd then DecodeWide(b, 2, 0xfd)
    else if b[0] == 0xfe then DecodeWide(b, 4, 0x1_0000)
    else DecodeWide(b, 8, 0x1_0000_0000)
  }

  function VarInt(): Format<int>
  {
    Format((v: int) => 0 <= v < Limit(8), (v: int) => EncodeVarInt(v), (b: seq<Byte>) => DecodeVarInt(b))
  }

  lemma Limits()
    ensures Limit(1) == 0x100 && Limit(2) == 0x1_0000 && Limit(4) == 0x1_0000_0000
    ensures Limit(8) == 0x1_0000_0000_0000_0000
  {
    assert Limit(3) == 0x100_0000 && Limit(5) == 0x100_0000_0000 && Limit(6) == 0x1_0000_0000_0000;
    assert Limit(7) == 0x100_0000_0000_0000;
  }

  lemma WideUndoes(tag: Byte, v: int, n: nat, least: nat, rest: seq<Byte>)
    requires least <= v < Limit(n)
    ensures DecodeWide([tag] + LE(v, n) + rest, n, least) == Some((v, rest))
  {
    var b := [tag] + LE(v, n) + rest;
    ReadLEOfLE(v, n);
    assert b[1..n + 1] == LE(v, n) && b[n + 1..] == rest;
  }

  lemma WideCanonical(b: seq<Byte>, n: nat, least: nat)
    requires |b| >= 1 && DecodeWide(b, n, least).Some?
    ensures var r := DecodeWide(b, n, least).value;
            least <= r.0 < Limit(n) && b == [b[0]] + LE(r.0, n) + r.1
  {
    LEOfReadLE(b[1..n + 1]);
    assert b == [b[0]] + b[1..n + 1] + b[n + 1..];
  }

  lemma VarIntUndoes(v: int, rest: seq<Byte>)
    requires 0 <= v < Limit(8)
    ensures DecodeVarInt(EncodeVarInt(v) + rest) == Some((v, rest))
  {
    Limits();
    if v < 0xfd {
      assert LE(v, 1) == [v];
      assert ([v] + rest)[1..] == rest;
    } else if v <= 0xffff {
      WideUndoes(0xfd, v, 2, 0xfd, rest);
    } else if v <= 0xffff_ffff {
      WideUndoes(0xfe, v, 4, 0x1_0000, rest);
    } else {
      WideUndoes(0xff, v, 8, 0x1_0000_0000, rest);
    }
  }

  lemma VarIntCanonical(b: seq<Byte>)
    requires DecodeVarInt(b).Some?
    ensures var r := DecodeVarInt(b).value; 0 <= r.0 < Limit(8) && b == EncodeVarInt(r.0) + r.1
  {
    Limits();
    if b[0] < 0xfd {
      assert LE(b[0], 1) == [b[0]];
    } else if b[0] == 0xfd {
      WideCanonical(b, 2, 0xfd);
    } else if b[0] == 0xfe {
      WideCanonical(b, 4, 0x1_0000);
    } else {
      WideCanonical(b, 8, 0x1_0000_0000);
    }
  }

  /** Every 64-bit value has exactly one accepted encoding. */
  lemma VarIntGood()
    ensures Good(VarInt())
  {
    var f := VarInt();
    forall v: int, rest: seq<Byte> | f.valid(v) ensures f.parse(f.show(v) + rest) == Some((v, rest)) {
      VarIntUndoes(v, rest);
    }
    forall b: seq<Byte> | f.parse(b).Some?
      ensures f.valid(f.parse(b).value.0) && b == f.show(f.parse(b).value.0) + f.parse(b).value.1
    {
      VarIntCanonical(b);
    }
  }

  /** read_varint refuses values above MAX_SIZE. */
  function Count(): Format<int>
  {
    Where(VarInt(), (v: int) => v <= MAX_SIZE)
  }

  lemma CountGood()
    ensures Good(Count())
  {
    VarIntGood();
    WhereGood(VarInt(), (v: int) => v <= MAX_SIZE);
  }

  // ---------- signed integers, hashes ----------

  /** The unsigned reading of an n-byte two's complement number; -1 when it is out of range. */
  function ToUnsigned(v: int, n: nat): int
  {
    if 0 <= 2 * v < Limit(n) then v else if 0 - Limit(n) <= 2 * v < 0 then v + Limit(n) else -1
  }

  function ToSigned(u: int, n: nat): int
  {
    if 2 * u < Limit(n) then u else u - Limit(n)
  }

  function Signed(n: nat): Format<int>
  {
    As(Unsigned(n), (u: int) => ToSigned(u, n), (v: int) => ToUnsigned(v, n))
  }

  lemma SignedGood(n: nat)
    ensures Good(Signed(n))
  {
    UnsignedGood(n);
    AsGood(Unsigned(n), (u: int) => ToSigned(u, n), (v: int) => ToUnsigned(v, n));
  }

  // ---------- block headers ----------

  /** The fields in the order of the wire; hashes are numbers in the order in which base_blob compares bytes. */
  type HeaderFields = (int, (int, (int, (int, (int, (int, int))))))

  function HeaderTuple(): Format<HeaderFields>
  {
    Pair(Signed(4), Pair(BigEndian(32), Pair(BigEndian(20),
      Pair(Unsigned(4), Pair(Unsigned(4), Pair(Unsigned(4), BigEndian(32)))))))
  }

  function NatOf(v: int): nat { if v < 0 then 0 else v }

  function MakeHeader(t: HeaderFields): Header
  {
    Header(t.0, NatOf(t.1.0), NatOf(t.1.1.0), NatOf(t.1.1.1.0), NatOf(t.1.1.1.1.0), NatOf(t.1.1.1.1.1.0),
           NatOf(t.1.1.1.1.1.1))
  }

  function TakeHeader(h: Header): HeaderFields
  {
    (h.version, (h.prev, (h.miner, (h.time, (h.bits, (h.nonce, h.randomX))))))
  }

  function BlockHeader(): Format<Header>
  {
    As(HeaderTuple(), MakeHeader, TakeHeader)
  }

  lemma HeaderGood()
    ensures Good(BlockHeader())
  {
    SignedGood(4);
    BigEndianGood(32);
    BigEndianGood(20);
    UnsignedGood(4);
    PairGood(Unsigned(4), BigEndian(32));
    PairGood(Unsigned(4), Pair(Unsigned(4), BigEndian(32)));
    PairGood(Unsigned(4), Pair(Unsigned(4), Pair(Unsigned(4), BigEndian(32))));
    PairGood(BigEndian(20), Pair(Unsigned(4), Pair(Unsigned(4), Pair(Unsigned(4), BigEndian(32)))));
    PairGood(BigEndian(32), Pair(BigEndian(20), Pair(Unsigned(4), Pair(Unsigned(4), Pair(Unsigned(4),
                                                                                         BigEndian(32))))));
    PairGood(Signed(4), Pair(BigEndian(32), Pair(BigEndian(20),
      Pair(Unsigned(4), Pair(Unsigned(4), Pair(Unsigned(4), BigEndian(32)))))));
    AsGood(HeaderTuple(), MakeHeader, TakeHeader);
  }

  // ---------- message payloads ----------

  datatype NetworkAddress = NetworkAddress(services: int, ip: seq<Byte>, port: int)
  datatype TimestampedAddress = TimestampedAddress(timestamp: int, address: NetworkAddress)
  datatype InventoryVector = InventoryVector(kind: int, hash: seq<Byte>)

  function Address(): Format<NetworkAddress>
  {
    As(Pair(Unsigned(8), Pair(Raw(16), BigEndian(2))),
       (t: (int, (seq<Byte>, int))) => NetworkAddress(t.0, t.1.0, t.1.1),
       (a: NetworkAddress) => (a.services, (a.ip, a.port)))
  }

  lemma AddressGood()
    ensures Good(Address())
  {
    UnsignedGood(8);
    RawGood(16);
    BigEndianGood(2);
    PairGood(Raw(16), BigEndian(2));
    PairGood(Unsigned(8), Pair(Raw(16), BigEndian(2)));
    AsGood(Pair(Unsigned(8), Pair(Raw(16), BigEndian(2))),
           (t: (int, (seq<Byte>, int))) => NetworkAddress(t.0, t.1.0, t.1.1),
           (a: NetworkAddress) => (a.services, (a.ip, a.port)));
  }

  function Timestamped(): Format<TimestampedAddress>
  {
    As(Pair(Unsigned(4), Address()),
       (t: (int, NetworkAddress)) => TimestampedAddress(t.0, t.1),
       (a: TimestampedAddress) => (a.timestamp, a.address))
  }

  lemma TimestampedGood()
    ensures Good(Timestamped())
  {
    UnsignedGood(4);
    AddressGood();
    PairGood(Unsigned(4), Address());
    AsGood(Pair(Unsigned(4), Address()),
           (t: (int, NetworkAddress)) => TimestampedAddress(t.0, t.1),
           (a: TimestampedAddress) => (a.timestamp, a.address));
  }

  function Inventory(): Format<InventoryVector>
  {
    As(Pair(Unsigned(4), Raw(32)),
       (t: (int, seq<Byte>)) => InventoryVector(t.0, t.1),
       (v: InventoryVector) => (v.kind, v.hash))
  }

  lemma InventoryGood()
    ensures Good(Inventory())
  {
    UnsignedGood(4);
    RawGood(32);
    PairGood(Unsigned(4), Raw(32));
    AsGood(Pair(Unsigned(4), Raw(32)),
           (t: (int, seq<Byte>)) => InventoryVector(t.0, t.1),
           (v: InventoryVector) => (v.kind, v.hash));
  }

  datatype VersionPayload = VersionPayload(
    version: int, services: int, timestamp: int, addrRecv: NetworkAddress, addrFrom: NetworkAddress,
    nonce: int, userAgent: seq<Byte>, startHeight: int)

  type VersionFields = (int, (int, (int, (NetworkAddress, (NetworkAddress, (int, (seq<Byte>, int)))))))

  /** The fields from the first address on. */
  function VersionTail(): Format<(NetworkAddress, (NetworkAddress, (int, (seq<Byte>, int))))>
  {
    Pair(Address(), Pair(Address(), Pair(Unsigned(8), Pair(Text(Count(), MAX_SUBVERSION_LENGTH), Signed(4)))))
  }

  function VersionTuple(): Format<VersionFields>
  {
    Pair(Signed(4), Pair(Unsigned(8), Pair(Signed(8), VersionTail())))
  }

  function MakeVersion(t: VersionFields): VersionPayload
  {
    var u := t.1.1.1;
    VersionPayload(t.0, t.1.0, t.1.1.0, u.0, u.1.0, u.1.1.0, u.1.1.1.0, u.1.1.1.1)
  }

  function TakeVersion(v: VersionPayload): VersionFields
  {
    (v.version, (v.services, (v.timestamp, (v.addrRecv, (v.addrFrom, (v.nonce, (v.userAgent, v.startHeight)))))))
  }

  function Version(): Format<VersionPayload>
  {
    As(VersionTuple(), MakeVersion, TakeVersion)
  }

  lemma VersionTailGood()
    ensures Good(VersionTail())
  {
    SignedGood(4);
    CountGood();
    TextGood(Count(), MAX_SUBVERSION_LENGTH);
    PairGood(Text(Count(), MAX_SUBVERSION_LENGTH), Signed(4));
    UnsignedGood(8);
    PairGood(Unsigned(8), Pair(Text(Count(), MAX_SUBVERSION_LENGTH), Signed(4)));
    AddressGood();
    PairGood(Address(), Pair(Unsigned(8), Pair(Text(Count(), MAX_SUBVERSION_LENGTH), Signed(4))));
    PairGood(Address(), Pair(Address(), Pair(Unsigned(8), Pair(Text(Count(), MAX_SUBVERSION_LENGTH), Signed(4)))));
  }

  lemma VersionGood()
    ensures Good(Version())
  {
    SignedGood(4);
    SignedGood(8);
    UnsignedGood(8);
    VersionTailGood();
    PairGood(Signed(8), VersionTail());
    PairGood(Unsigned(8), Pair(Signed(8), VersionTail()));
    PairGood(Signed(4), Pair(Unsigned(8), Pair(Signed(8), VersionTail())));
    AsGood(VersionTuple(), MakeVersion, TakeVersion);
  }

  datatype GetHeadersPayload = GetHeadersPayload(version: int, locator: seq<seq<Byte>>, stop: seq<Byte>)

  function GetHeadersTuple(): Format<(int, (seq<seq<Byte>>, seq<Byte>))>
  {
    Pair(Unsigned(4), Pair(Counted(Count(), Raw(32), MAX_LOCATOR_SZ), Raw(32)))
  }

  function MakeGetHeaders(t: (int, (seq<seq<Byte>>, seq<Byte>))): GetHeadersPayload
  {
    GetHeadersPayload(t.0, t.1.0, t.1.1)
  }

  function TakeGetHeaders(m: GetHeadersPayload): (int, (seq<seq<Byte>>, seq<Byte>))
  {
    (m.version, (m.locator, m.stop))
  }

  function GetHeaders(): Format<GetHeadersPayload>
  {
    As(GetHeadersTuple(), MakeGetHeaders, TakeGetHeaders)
  }

  lemma GetHeadersGood()
    ensures Good(GetHeaders())
  {
    UnsignedGood(4);
    CountGood();
    RawGood(32);
    CountedGood(Count(), Raw(32), MAX_LOCATOR_SZ);
    PairGood(Counted(Count(), Raw(32), MAX_LOCATOR_SZ), Raw(32));
    PairGood(Unsigned(4), Pair(Counted(Count(), Raw(32), MAX_LOCATOR_SZ), Raw(32)));
    AsGood(GetHeadersTuple(), MakeGetHeaders, TakeGetHeaders);
  }

  function Addresses(): Format<seq<TimestampedAddress>> { Counted(Count(), Timestamped(), MAX_ADDR_SIZE) }
  function Inventories(): Format<seq<InventoryVector>> { Counted(Count(), Inventory(), MAX_INV_SIZE) }
  function Headers(): Format<seq<Header>> { Counted(Count(), BlockHeader(), MAX_HEADERS_SIZE) }

  lemma AddressesGood()
    ensures Good(Addresses())
  {
    CountGood();
    TimestampedGood();
    CountedGood(Count(), Timestamped(), MAX_ADDR_SIZE);
  }

  lemma InventoriesGood()
    ensures Good(Inventories())
  {
    CountGood();
    InventoryGood();
    CountedGood(Count(), Inventory(), MAX_INV_SIZE);
  }

  lemma HeadersGood()
    ensures Good(Headers())
  {
    CountGood();
    HeaderGood();
    CountedGood(Count(), BlockHeader(), MAX_HEADERS_SIZE);
  }

  // ---------- messages ----------

  datatype Command = VERSION | VERACK | PING | PONG | ADDR | GETADDR | INV | GETHEADERS | HEADERS

  datatype Message =
    | VersionMessage(version: VersionPayload)
    | VerackMessage
    | PingMessage(nonce: int)
    | PongMessage(nonce: int)
    | AddrMessage(addresses: seq<TimestampedAddress>)
    | GetAddrMessage
    | InvMessage(inventory: seq<InventoryVector>)
    | GetHeadersMessage(request: GetHeadersPayload)
    | HeadersMessage(headers: seq<Header>)

  function CommandOf(m: Message): Command
  {
    match m
    case VersionMessage(_) => VERSION
    case VerackMessage => VERACK
    case PingMessage(_) => PING
    case PongMessage(_) => PONG
    case AddrMessage(_) => ADDR
    case GetAddrMessage => GETADDR
    case InvMessage(_) => INV
    case GetHeadersMessage(_) => GETHEADERS
    case HeadersMessage(_) => HEADERS
  }

  /** One kind of message in the format of its payload. */
  function Kind<T>(f: Format<T>, wrap: T -> Message, unwrap: Message -> Option<T>): Format<Message>
  {
    Format((m: Message) => unwrap(m).Some? && f.valid(unwrap(m).value),
           (m: Message) => if unwrap(m).Some? then f.show(unwrap(m).value) else [],
           (b: seq<Byte>) => ParseAs(f, wrap, b))
  }

  lemma KindGood<T(!new)>(f: Format<T>, wrap: T -> Message, unwrap: Message -> Option<T>)
    requires Good(f)
    requires forall x: T {:trigger wrap(x)} :: unwrap(wrap(x)) == Some(x)
    requires forall m: Message {:trigger unwrap(m)} :: unwrap(m).Some? ==> wrap(unwrap(m).value) == m
    ensures Good(Kind(f, wrap, unwrap))
  {
    var h := Kind(f, wrap, unwrap);
    forall m: Message, rest: seq<Byte> | h.valid(m) ensures h.parse(h.show(m) + rest) == Some((m, rest)) {
      assert f.parse(f.show(unwrap(m).value) + rest) == Some((unwrap(m).value, rest));
    }
    forall b: seq<Byte> | h.parse(b).Some?
      ensures h.valid(h.parse(b).value.0) && b == h.show(h.parse(b).value.0) + h.parse(b).value.1
    {
      assert f.parse(b).Some?;
    }
  }

  function WrapVersion(x: VersionPayload): Message { VersionMessage(x) }
  function UnwrapVersion(m: Message): Option<VersionPayload> { if m.VersionMessage? then Some(m.version) else None }
  function WrapPing(x: int): Message { PingMessage(x) }
  function UnwrapPing(m: Message): Option<int> { if m.PingMessage? then Some(m.nonce) else None }
  function WrapPong(x: int): Message { PongMessage(x) }
  function UnwrapPong(m: Message): Option<int> { if m.PongMessage? then Some(m.nonce) else None }
  function WrapAddr(x: seq<TimestampedAddress>): Message { AddrMessage(x) }
  function UnwrapAddr(m: Message): Option<seq<TimestampedAddress>>
  {
    if m.AddrMessage? then Some(m.addresses) else None
  }
  function WrapInv(x: seq<InventoryVector>): Message { InvMessage(x) }
  function UnwrapInv(m: Message): Option<seq<InventoryVector>> { if m.InvMessage? then Some(m.inventory) else None }
  function WrapGetHeaders(x: GetHeadersPayload): Message { GetHeadersMessage(x) }
  function UnwrapGetHeaders(m: Message): Option<GetHeadersPayload>
  {
    if m.GetHeadersMessage? then Some(m.request) else None
  }
  function WrapHeaders(x: seq<Header>): Message { HeadersMessage(x) }
  function UnwrapHeaders(m: Message): Option<seq<Header>> { if m.HeadersMessage? then Some(m.headers) else None }

  /** The payload format of a command that has a payload. */
  function WireFormat(c: Command): Format<Message>
    requires c != VERACK && c != GETADDR
  {
    match c
    case VERSION => Kind(Version(), WrapVersion, UnwrapVersion)
    case PING => Kind(Unsigned(8), WrapPing, UnwrapPing)
    case PONG => Kind(Unsigned(8), WrapPong, UnwrapPong)
    case ADDR => Kind(Addresses(), WrapAddr, UnwrapAddr)
    case INV => Kind(Inventories(), WrapInv, UnwrapInv)
    case GETHEADERS => Kind(GetHeaders(), WrapGetHeaders, UnwrapGetHeaders)
    case HEADERS => Kind(Headers(), WrapHeaders, UnwrapHeaders)
  }

  /** The messages that keep the connection. */
  lemma ControlGood(c: Command)
    requires c == VERSION || c == PING || c == PONG || c == ADDR
    ensures Good(WireFormat(c))
  {
    match c
    case VERSION =>
      VersionGood();
      KindGood(Version(), WrapVersion, UnwrapVersion);
    case PING =>
      UnsignedGood(8);
      KindGood(Unsigned(8), WrapPing, UnwrapPing);
    case PONG =>
      UnsignedGood(8);
      KindGood(Unsigned(8), WrapPong, UnwrapPong);
    case ADDR =>
      AddressesGood();
      KindGood(Addresses(), WrapAddr, UnwrapAddr);
  }

  /** The messages about the chain. */
  lemma ChainGood(c: Command)
    requires c == INV || c == GETHEADERS || c == HEADERS
    ensures Good(WireFormat(c))
  {
    match c
    case INV =>
      InventoriesGood();
      KindGood(Inventories(), WrapInv, UnwrapInv);
    case GETHEADERS =>
      GetHeadersGood();
      KindGood(GetHeaders(), WrapGetHeaders, UnwrapGetHeaders);
    case HEADERS =>
      HeadersGood();
      KindGood(Headers(), WrapHeaders, UnwrapHeaders);
  }

  lemma WireGood(c: Command)
    requires c != VERACK && c != GETADDR
    ensures Good(WireFormat(c))
  {
    if c == VERSION || c == PING || c == PONG || c == ADDR {
      ControlGood(c);
    } else {
      ChainGood(c);
    }
  }

  /** Fields within their widths and lists within their limits. */
  predicate WithinLimits(m: Message)
  {
    m.VerackMessage? || m.GetAddrMessage? || WireFormat(CommandOf(m)).valid(m)
  }

  function Serialize(m: Message): seq<Byte>
  {
    if m.VerackMessage? || m.GetAddrMessage? then [] else WireFormat(CommandOf(m)).show(m)
  }

  /** What a parser makes of a payload, trailing bytes ignored. */
  function Payload<T>(f: Format<T>, b: seq<Byte>): Option<T>
  {
    match f.parse(b)
    case None => None
    case Some((x, _)) => Some(x)
  }

  /** create_message and deserialize. */
  function Deserialize(c: Command, b: seq<Byte>): Option<Message>
  {
    if c == VERACK then (if b == [] then Some(VerackMessage) else None)
    else if c == GETADDR then (if b == [] then Some(GetAddrMessage) else None)
    else Payload(WireFormat(c), b)
  }

  lemma PayloadUndoes<T(!new)>(f: Format<T>, x: T)
    requires Good(f) && f.valid(x)
    ensures Payload(f, f.show(x)) == Some(x)
  {
    assert f.show(x) + [] == f.show(x);
    assert f.parse(f.show(x) + []) == Some((x, []));
  }

  lemma PayloadCanonical<T(!new)>(f: Format<T>, b: seq<Byte>)
    requires Good(f) && Payload(f, b).Some?
    ensures f.valid(Payload(f, b).value) && f.show(Payload(f, b).value) <= b
  {
    assert f.parse(b).Some?;
  }

  lemma ValidKind(c: Command, m: Message)
    requires c != VERACK && c != GETADDR && WireFormat(c).valid(m)
    ensures CommandOf(m) == c
  {
    match c
    case VERSION => assert UnwrapVersion(m).Some?;
    case PING => assert UnwrapPing(m).Some?;
    case PONG => assert UnwrapPong(m).Some?;
    case ADDR => assert UnwrapAddr(m).Some?;
    case INV => assert UnwrapInv(m).Some?;
    case GETHEADERS => assert UnwrapGetHeaders(m).Some?;
    case HEADERS => assert UnwrapHeaders(m).Some?;
  }

  /** Every message within its limits comes back from the wire as it was sent. */
  lemma {:induction false} MessageRoundTrip(m: Message)
    requires WithinLimits(m)
    ensures Deserialize(CommandOf(m), Serialize(m)) == Some(m)
  {
    if !m.VerackMessage? && !m.GetAddrMessage? {
      WireGood(CommandOf(m));
      PayloadUndoes(WireFormat(CommandOf(m)), m);
    }
  }

  /** Whatever a command accepts starts with the one encoding of the message it is read as. */
  lemma {:induction false} OneEncoding(c: Command, b: seq<Byte>)
    requires Deserialize(c, b).Some?
    ensures var m := Deserialize(c, b).value;
            WithinLimits(m) && CommandOf(m) == c && Serialize(m) <= b
  {
    if c != VERACK && c != GETADDR {
      WireGood(c);
      PayloadCanonical(WireFormat(c), b);
      ValidKind(c, Deserialize(c, b).value);
    }
  }
}
