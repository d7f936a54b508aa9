/**
 MessageSerializer, MessageDeserializer and the messages' serialize and deserialize
 (src/network/message.cpp), proved to perform the formats of module `Codec`.
 */
module MessageIO {
  import opened Types
  import opened Formats
  import opened Codec
  import opened Protocol

  // ---------- writing ----------

  class MessageSerializer {
    var buffer: seq<Byte>

    constructor ()
      ensures buffer == []
    {
      buffer := [];
    }

    method WriteBytes(b: seq<Byte>)
      modifies this
      ensures buffer == old(buffer) + b
    {
      buffer := buffer + b;
    }

    /** write_uint8, write_uint16, write_uint32 and write_uint64: n bytes, little-endian. */
    method WriteUint(v: int, n: nat)
      modifies this
      ensures buffer == old(buffer) + Unsigned(n).show(v)
    {
      WriteBytes(LE(v, n));
    }

    /** write_int32 and write_int64. */
    method WriteInt(v: int, n: nat)
      modifies this
      ensures buffer == old(buffer) + Signed(n).show(v)
    {
      WriteUint(ToUnsigned(v, n), n);
    }

    method WriteVarInt(v: int)
      modifies this
      ensures buffer == old(buffer) + Count().show(v)
    {
      WriteBytes(EncodeVarInt(v));
    }

    method WriteString(s: seq<Byte>, ghost max: nat)
      modifies this
      ensures buffer == old(buffer) + Text(Count(), max).show(s)
    {
      WriteVarInt(|s|);
      WriteBytes(s);
    }

    method WriteNetworkAddress(a: NetworkAddress)
      modifies this
      ensures buffer == old(buffer) + Address().show(a)
    {
      WriteUint(a.services, 8);
      WriteBytes(a.ip);
      WriteBytes(BE(a.port, 2));
    }

    method WriteInventoryVector(v: InventoryVector)
      modifies this
      ensures buffer == old(buffer) + Inventory().show(v)
    {
      WriteUint(v.kind, 4);
      WriteBytes(v.hash);
    }
  }

  // ---------- block headers in a fixed buffer ----------

  /** Copy bytes into the buffer at an offset. */
  method Put(data: array<Byte>, off: nat, b: seq<Byte>)
    requires off + |b| <= data.Length
    modifies data
    ensures data[..off + |b|] == old(data[..off]) + b
  {
    for i := 0 to |b|
      invariant data[..off + i] == old(data[..off]) + b[..i]
    {
      data[off + i] := b[i];
    }
  }

  /** CBlockHeader::SerializeFixed: every field at its offset in 100 bytes. */
  method SerializeFixed(h: Header) returns (data: array<Byte>)
    ensures fresh(data) && data.Length == HEADER_SIZE && data[..] == BlockHeader().show(h)
  {
    data := WriteFields(FieldsOf(h));
    FieldsShown(h);
  }

  method WriteFields(w: Written) returns (data: array<Byte>)
    requires w.Sized()
    ensures fresh(data) && data.Length == HEADER_SIZE && data[..] == w.Bytes()
  {
    data := new Byte[HEADER_SIZE](_ => 0);
    Put(data, 0, w.version);
    Put(data, 4, w.prev);
    Put(data, 36, w.miner);
    Put(data, 56, w.time);
    Put(data, 60, w.bits);
    Put(data, 64, w.nonce);
    Put(data, 68, w.randomX);
    w.InOrder();
    assert data[..] == data[..68 + |w.randomX|];
  }

  /** The seven fields of a header as they are written. */
  datatype Written = Written(version: seq<Byte>, prev: seq<Byte>, miner: seq<Byte>, time: seq<Byte>,
                             bits: seq<Byte>, nonce: seq<Byte>, randomX: seq<Byte>)
  {
    function Bytes(): seq<Byte> { version + (prev + (miner + (time + (bits + (nonce + randomX))))) }

    predicate Sized()
    {
      && |version| == 4 && |prev| == 32 && |miner| == 20 && |time| == 4 && |bits| == 4 && |nonce| == 4
      && |randomX| == 32
    }

    lemma InOrder()
      ensures Bytes() == version + prev + miner + time + bits + nonce + randomX
    {
    }
  }

  function FieldsOf(h: Header): (w: Written)
    ensures w.Sized()
  {
    Written(LE(ToUnsigned(h.version, 4), 4), BE(h.prev, 32), BE(h.miner, 20), LE(h.time, 4),
            LE(h.bits, 4), LE(h.nonce, 4), BE(h.randomX, 32))
  }

  lemma PairShows<S, T>(f: Format<S>, g: Format<T>, p: (S, T))
    ensures Pair(f, g).show(p) == f.show(p.0) + g.show(p.1)
  {
  }

  lemma FieldsShown(h: Header)
    ensures BlockHeader().show(h) == FieldsOf(h).Bytes()
  {
    var t := TakeHeader(h);
    var words := Pair(Unsigned(4), Pair(Unsigned(4), Pair(Unsigned(4), BigEndian(32))));
    PairShows(Unsigned(4), BigEndian(32), t.1.1.1.1.1);
    PairShows(Unsigned(4), Pair(Unsigned(4), BigEndian(32)), t.1.1.1.1);
    PairShows(Unsigned(4), Pair(Unsigned(4), Pair(Unsigned(4), BigEndian(32))), t.1.1.1);
    PairShows(BigEndian(20), words, t.1.1);
    PairShows(BigEndian(32), Pair(BigEndian(20), words), t.1);
    PairShows(Signed(4), Pair(BigEndian(32), Pair(BigEndian(20), words)), t);
    assert BlockHeader().show(h) == HeaderTuple().show(t);
  }

  // ---------- reading ----------

  /** Where a deserializer stands: its sticky error, and the bytes it has not read. */
  datatype Reader = Reader(error: bool, rest: seq<Byte>)

  /** One read: it fails if an earlier one did or the format does not parse. */
  ghost predicate Got<T>(f: Format<T>, d: Reader, r: T, d': Reader)
  {
    if d.error || f.parse(d.rest).None? then d'.error else !d'.error && f.parse(d.rest) == Some((r, d'.rest))
  }

  lemma GotPair<S, T>(f: Format<S>, g: Format<T>, d: Reader, x: S, d1: Reader, y: T, d2: Reader)
    requires Got(f, d, x, d1) && Got(g, d1, y, d2)
    ensures Got(Pair(f, g), d, (x, y), d2)
  {
  }

  lemma GotAs<S, T>(f: Format<S>, make: S -> T, take: T -> S, d: Reader, x: S, d1: Reader)
    requires Got(f, d, x, d1)
    ensures Got(As(f, make, take), d, make(x), d1)
  {
  }

  /** The outcome of a deserialize method. */
  lemma GotPayload<T>(f: Format<T>, b: seq<Byte>, x: T, d: Reader)
    requires Got(f, Reader(false, b), x, d)
    ensures Payload(f, b) == if d.error then None else Some(x)
  {
  }

  class MessageDeserializer {
    const data: seq<Byte>
    var position: nat
    var error: bool

    /** Every read stays in bounds. */
    ghost predicate Valid()
      reads this
    {
      position <= |data|
    }

    ghost function Now(): Reader
      requires Valid()
      reads this
    {
      Reader(error, data[position..])
    }

    constructor (b: seq<Byte>)
      ensures Valid() && data == b && Now() == Reader(false, b)
    {
      data := b;
      position := 0;
      error := false;
    }

    function BytesRemaining(): nat
      requires Valid()
      reads this
    {
      |data| - position
    }

    method CheckAvailable(n: nat)
      requires Valid()
      modifies this`error
      ensures error == (old(error) || |data| - position < n)
    {
      if BytesRemaining() < n {
        error := true;
      }
    }

    method ReadBytes(n: nat) returns (r: seq<Byte>)
      requires Valid()
      modifies this
      ensures Valid() && Got(Raw(n), old(Now()), r, Now())
      ensures error ==> r == []
    {
      CheckAvailable(n);
      if error {
        return [];
      }
      r := data[position..position + n];
      assert Now().rest[..n] == r;
      position := position + n;
    }

    method ReadUint(n: nat) returns (r: nat)
      requires Valid()
      modifies this
      ensures Valid() && Got(Unsigned(n), old(Now()), r, Now())
      ensures error ==> r == 0
    {
      CheckAvailable(n);
      if error {
        return 0;
      }
      r := ReadLE(data[position..position + n]);
      assert Now().rest[..n] == data[position..position + n];
      position := position + n;
    }

    method ReadInt(n: nat) returns (r: int)
      requires Valid()
      modifies this
      ensures Valid() && Got(Signed(n), old(Now()), r, Now())
    {
      var u := ReadUint(n);
      r := ToSigned(u, n);
    }

    method ReadVarInt() returns (r: nat)
      requires Valid()
      modifies this
      ensures Valid() && Got(Count(), old(Now()), r, Now())
      ensures error ==> r == 0
    {
      CheckAvailable(1);
      if error {
        return 0;
      }
      var decoded := DecodeVarInt(data[position..]);
      if decoded.None? {
        error := true;
        return 0;
      }
      VarIntCanonical(data[position..]);
      if decoded.value.0 > MAX_SIZE {
        error := true;
        return 0;
      }
      position := |data| - |decoded.value.1|;
      r := decoded.value.0;
    }

    method ReadString(max: nat) returns (r: seq<Byte>)
      requires Valid()
      modifies this
      ensures Valid() && Got(Text(Count(), max), old(Now()), r, Now())
    {
      var n := ReadVarInt();
      if error || n > max || n > BytesRemaining() {
        error := true;
        return [];
      }
      r := data[position..position + n];
      assert Now().rest[..n] == r;
      position := position + n;
    }

    method ReadNetworkAddress() returns (a: NetworkAddress)
      requires Valid()
      modifies this
      ensures Valid() && Got(Address(), old(Now()), a, Now())
    {
      var services := ReadUint(8);
      var ip := ReadBytes(16);
      var port := ReadPort();
      a := NetworkAddress(services, ip, port);
    }

    /** The port is big-endian. */
    method ReadPort() returns (r: nat)
      requires Valid()
      modifies this
      ensures Valid() && Got(BigEndian(2), old(Now()), r, Now())
    {
      CheckAvailable(2);
      if error {
        return 0;
      }
      r := ReadBE(data[position..position + 2]);
      assert Now().rest[..2] == data[position..position + 2];
      position := position + 2;
    }

    method ReadTimestampedAddress() returns (a: TimestampedAddress)
      requires Valid()
      modifies this
      ensures Valid() && Got(Timestamped(), old(Now()), a, Now())
    {
      var timestamp := ReadUint(4);
      var address := ReadNetworkAddress();
      a := TimestampedAddress(timestamp, address);
    }

    method ReadInventoryVector() returns (v: InventoryVector)
      requires Valid()
      modifies this
      ensures Valid() && Got(Inventory(), old(Now()), v, Now())
    {
      var kind := ReadUint(4);
      var hash := ReadBytes(32);
      v := InventoryVector(kind, hash);
    }
  }

  // ---------- messages ----------

  method SerializeVersion(v: VersionPayload) returns (b: seq<Byte>)
    ensures b == Version().show(v)
  {
    var s := new MessageSerializer();
    s.WriteInt(v.version, 4);
    ghost var b1 := s.buffer;
    s.WriteUint(v.services, 8);
    ghost var b2 := s.buffer;
    s.WriteInt(v.timestamp, 8);
    ghost var b3 := s.buffer;
    WriteVersionTail(s, v);
    b := s.buffer;
    VersionShown(v);
    FourWritten(Signed(4).show(v.version), b1, Unsigned(8).show(v.services), b2, Signed(8).show(v.timestamp), b3,
                VersionTail().show(TailOf(v)), b);
  }

  lemma FourWritten(x1: seq<Byte>, b1: seq<Byte>, x2: seq<Byte>, b2: seq<Byte>, x3: seq<Byte>,
                    b3: seq<Byte>, x4: seq<Byte>, b4: seq<Byte>)
    requires b1 == [] + x1 && b2 == b1 + x2 && b3 == b2 + x3 && b4 == b3 + x4
    ensures b4 == x1 + (x2 + (x3 + x4))
  {
  }

  ghost function TailOf(v: VersionPayload): (NetworkAddress, (NetworkAddress, (int, (seq<Byte>, int))))
  {
    (v.addrRecv, (v.addrFrom, (v.nonce, (v.userAgent, v.startHeight))))
  }

  method WriteVersionTail(s: MessageSerializer, v: VersionPayload)
    modifies s
    ensures s.buffer == old(s.buffer) + VersionTail().show(TailOf(v))
  {
    ghost var b0 := s.buffer;
    s.WriteNetworkAddress(v.addrRecv);
    ghost var b1 := s.buffer;
    s.WriteNetworkAddress(v.addrFrom);
    ghost var b2 := s.buffer;
    s.WriteUint(v.nonce, 8);
    ghost var b3 := s.buffer;
    s.WriteString(v.userAgent, MAX_SUBVERSION_LENGTH);
    ghost var b4 := s.buffer;
    s.WriteInt(v.startHeight, 4);
    TailShown(v);
    FiveWritten(b0, Address().show(v.addrRecv), b1, Address().show(v.addrFrom), b2, Unsigned(8).show(v.nonce), b3,
                Text(Count(), MAX_SUBVERSION_LENGTH).show(v.userAgent), b4, Signed(4).show(v.startHeight), s.buffer);
  }

  lemma FiveWritten(b0: seq<Byte>, x1: seq<Byte>, b1: seq<Byte>, x2: seq<Byte>, b2: seq<Byte>, x3: seq<Byte>,
                    b3: seq<Byte>, x4: seq<Byte>, b4: seq<Byte>, x5: seq<Byte>, b5: seq<Byte>)
    requires b1 == b0 + x1 && b2 == b1 + x2 && b3 == b2 + x3 && b4 == b3 + x4 && b5 == b4 + x5
    ensures b5 == b0 + (x1 + (x2 + (x3 + (x4 + x5))))
  {
  }

  lemma TailShown(v: VersionPayload)
    ensures VersionTail().show(TailOf(v))
            == Address().show(v.addrRecv) + (Address().show(v.addrFrom) + (Unsigned(8).show(v.nonce)
               + (Text(Count(), MAX_SUBVERSION_LENGTH).show(v.userAgent) + Signed(4).show(v.startHeight))))
  {
    var u, text := TailOf(v), Text(Count(), MAX_SUBVERSION_LENGTH);
    PairShows(text, Signed(4), u.1.1.1);
    PairShows(Unsigned(8), Pair(text, Signed(4)), u.1.1);
    PairShows(Address(), Pair(Unsigned(8), Pair(text, Signed(4))), u.1);
    PairShows(Address(), Pair(Address(), Pair(Unsigned(8), Pair(text, Signed(4)))), u);
  }

  lemma VersionShown(v: VersionPayload)
    ensures Version().show(v)
            == Signed(4).show(v.version) + (Unsigned(8).show(v.services)
               + (Signed(8).show(v.timestamp) + VersionTail().show(TailOf(v))))
  {
    var t := TakeVersion(v);
    PairShows(Signed(8), VersionTail(), t.1.1);
    PairShows(Unsigned(8), Pair(Signed(8), VersionTail()), t.1);
    PairShows(Signed(4), Pair(Unsigned(8), Pair(Signed(8), VersionTail())), t);
    assert Version().show(v) == VersionTuple().show(t);
  }

  method DeserializeVersion(b: seq<Byte>) returns (r: Option<VersionPayload>)
    ensures r == Payload(Version(), b)
  {
    var d := new MessageDeserializer(b);
    var version := d.ReadInt(4);
    ghost var d1 := d.Now();
    var services := d.ReadUint(8);
    ghost var d2 := d.Now();
    var timestamp := d.ReadInt(8);
    ghost var d3 := d.Now();
    var recv := d.ReadNetworkAddress();
    ghost var d4 := d.Now();
    var from := d.ReadNetworkAddress();
    ghost var d5 := d.Now();
    var nonce := d.ReadUint(8);
    ghost var d6 := d.Now();
    var agent := d.ReadString(MAX_SUBVERSION_LENGTH);
    ghost var d7 := d.Now();
    var height := d.ReadInt(4);
    GotTail(d3, recv, d4, from, d5, nonce, d6, agent, d7, height, d.Now());
    var tail := (recv, (from, (nonce, (agent, height))));
    GotVersion(b, version, d1, services, d2, timestamp, d3, tail, d.Now());
    r := if d.error then None else Some(MakeVersion((version, (services, (timestamp, tail)))));
  }

  lemma GotTail(d3: Reader, recv: NetworkAddress, d4: Reader, from: NetworkAddress, d5: Reader, nonce: int, d6: Reader,
                agent: seq<Byte>, d7: Reader, height: int, d8: Reader)
    requires Got(Address(), d3, recv, d4) && Got(Address(), d4, from, d5) && Got(Unsigned(8), d5, nonce, d6)
    requires Got(Text(Count(), MAX_SUBVERSION_LENGTH), d6, agent, d7) && Got(Signed(4), d7, height, d8)
    ensures Got(VersionTail(), d3, (recv, (from, (nonce, (agent, height)))), d8)
  {
    var text := Text(Count(), MAX_SUBVERSION_LENGTH);
    GotPair(text, Signed(4), d6, agent, d7, height, d8);
    GotPair(Unsigned(8), Pair(text, Signed(4)), d5, nonce, d6, (agent, height), d8);
    GotPair(Address(), Pair(Unsigned(8), Pair(text, Signed(4))), d4, from, d5, (nonce, (agent, height)), d8);
    GotPair(Address(), Pair(Address(), Pair(Unsigned(8), Pair(text, Signed(4)))), d3, recv, d4,
            (from, (nonce, (agent, height))), d8);
  }

  lemma GotVersion(b: seq<Byte>, version: int, d1: Reader, services: int, d2: Reader, timestamp: int, d3: Reader,
                   tail: (NetworkAddress, (NetworkAddress, (int, (seq<Byte>, int)))), d: Reader)
    requires Got(Signed(4), Reader(false, b), version, d1) && Got(Unsigned(8), d1, services, d2)
    requires Got(Signed(8), d2, timestamp, d3) && Got(VersionTail(), d3, tail, d)
    ensures Payload(Version(), b) == if d.error then None else Some(MakeVersion((version, (services, (timestamp,
                                                                                                      tail)))))
  {
    GotPair(Signed(8), VersionTail(), d2, timestamp, d3, tail, d);
    GotPair(Unsigned(8), Pair(Signed(8), VersionTail()), d1, services, d2, (timestamp, tail), d);
    GotPair(Signed(4), Pair(Unsigned(8), Pair(Signed(8), VersionTail())), Reader(false, b), version, d1,
            (services, (timestamp, tail)), d);
    GotAs(VersionTuple(), MakeVersion, TakeVersion, Reader(false, b), (version, (services, (timestamp, tail))), d);
    GotPayload(Version(), b, MakeVersion((version, (services, (timestamp, tail)))), d);
  }

  method SerializePing(nonce: int) returns (b: seq<Byte>)
    ensures b == Unsigned(8).show(nonce)
  {
    var s := new MessageSerializer();
    s.WriteUint(nonce, 8);
    b := s.buffer;
  }

  method DeserializePing(b: seq<Byte>) returns (r: Option<int>)
    ensures r == Payload(Unsigned(8), b)
  {
    var d := new MessageDeserializer(b);
    var nonce := d.ReadUint(8);
    r := if d.error then None else Some(nonce);
  }

  /** A list message under construction: its count and the first i values have been written. */
  ghost predicate Listed<T>(f: Format<T>, head: seq<Byte>, xs: seq<T>, i: nat, b: seq<Byte>)
    requires i <= |xs|
  {
    b == head + PrintAll(f, xs[..i])
  }

  lemma ListedStart<T>(f: Format<T>, head: seq<Byte>, xs: seq<T>)
    ensures Listed(f, head, xs, 0, head)
  {
  }

  lemma ListedNext<T>(f: Format<T>, head: seq<Byte>, xs: seq<T>, i: nat, b: seq<Byte>)
    requires i < |xs| && Listed(f, head, xs, i, b)
    ensures Listed(f, head, xs, i + 1, b + f.show(xs[i]))
  {
    assert xs[..i + 1][..i] == xs[..i];
  }

  lemma ListedDone<T>(count: Format<int>, f: Format<T>, max: nat, front: seq<Byte>, xs: seq<T>, b: seq<Byte>)
    requires Listed(f, front + count.show(|xs|), xs, |xs|, b)
    ensures b == front + Counted(count, f, max).show(xs)
  {
    assert xs[..|xs|] == xs;
  }

  method SerializeAddr(xs: seq<TimestampedAddress>) returns (b: seq<Byte>)
    ensures b == Addresses().show(xs)
  {
    var s := new MessageSerializer();
    s.WriteVarInt(|xs|);
    ghost var head := s.buffer;
    ListedStart(Timestamped(), head, xs);
    for i := 0 to |xs|
      invariant Listed(Timestamped(), head, xs, i, s.buffer)
    {
      ListedNext(Timestamped(), head, xs, i, s.buffer);
      WriteTimestampedAddress(s, xs[i]);
    }
    b := s.buffer;
    ListedDone(Count(), Timestamped(), MAX_ADDR_SIZE, [], xs, b);
  }

  method WriteTimestampedAddress(s: MessageSerializer, a: TimestampedAddress)
    modifies s
    ensures s.buffer == old(s.buffer) + Timestamped().show(a)
  {
    s.WriteUint(a.timestamp, 4);
    s.WriteNetworkAddress(a.address);
    PairShows(Unsigned(4), Address(), (a.timestamp, a.address));
  }

  method SerializeInv(xs: seq<InventoryVector>) returns (b: seq<Byte>)
    ensures b == Inventories().show(xs)
  {
    var s := new MessageSerializer();
    s.WriteVarInt(|xs|);
    ghost var head := s.buffer;
    ListedStart(Inventory(), head, xs);
    for i := 0 to |xs|
      invariant Listed(Inventory(), head, xs, i, s.buffer)
    {
      ListedNext(Inventory(), head, xs, i, s.buffer);
      s.WriteInventoryVector(xs[i]);
    }
    b := s.buffer;
    ListedDone(Count(), Inventory(), MAX_INV_SIZE, [], xs, b);
  }

  method SerializeHeaders(hs: seq<Header>) returns (b: seq<Byte>)
    ensures b == Headers().show(hs)
  {
    var s := new MessageSerializer();
    s.WriteVarInt(|hs|);
    ghost var head := s.buffer;
    ListedStart(BlockHeader(), head, hs);
    for i := 0 to |hs|
      invariant Listed(BlockHeader(), head, hs, i, s.buffer)
    {
      ListedNext(BlockHeader(), head, hs, i, s.buffer);
      var bytes := SerializeFixed(hs[i]);
      s.WriteBytes(bytes[..]);
    }
    b := s.buffer;
    ListedDone(Count(), BlockHeader(), MAX_HEADERS_SIZE, [], hs, b);
  }

  method SerializeGetHeaders(m: GetHeadersPayload) returns (b: seq<Byte>)
    ensures b == GetHeaders().show(m)
  {
    var s := new MessageSerializer();
    s.WriteUint(m.version, 4);
    ghost var b1 := s.buffer;
    WriteLocator(s, m.locator);
    ghost var b2 := s.buffer;
    s.WriteBytes(m.stop);
    b := s.buffer;
    ThreeWritten(Unsigned(4), Counted(Count(), Raw(32), MAX_LOCATOR_SZ), Raw(32), TakeGetHeaders(m), b1, b2, b);
    AsShows(GetHeadersTuple(), MakeGetHeaders, TakeGetHeaders, m);
  }

  method WriteLocator(s: MessageSerializer, hashes: seq<seq<Byte>>)
    modifies s
    ensures s.buffer == old(s.buffer) + Counted(Count(), Raw(32), MAX_LOCATOR_SZ).show(hashes)
  {
    ghost var front := s.buffer;
    s.WriteVarInt(|hashes|);
    ghost var head := s.buffer;
    ListedStart(Raw(32), head, hashes);
    for i := 0 to |hashes|
      invariant Listed(Raw(32), head, hashes, i, s.buffer)
    {
      ListedNext(Raw(32), head, hashes, i, s.buffer);
      s.WriteBytes(hashes[i]);
    }
    ListedDone(Count(), Raw(32), MAX_LOCATOR_SZ, front, hashes, s.buffer);
  }

  lemma AsShows<S, T>(f: Format<S>, make: S -> T, take: T -> S, y: T)
    ensures As(f, make, take).show(y) == f.show(take(y))
  {
  }

  lemma ThreeWritten<R, S, T>(f: Format<R>, g: Format<S>, h: Format<T>, t: (R, (S, T)),
                              b1: seq<Byte>, b2: seq<Byte>, b3: seq<Byte>)
    requires b1 == [] + f.show(t.0) && b2 == b1 + g.show(t.1.0) && b3 == b2 + h.show(t.1.1)
    ensures b3 == Pair(f, Pair(g, h)).show(t)
  {
    PairShows(g, h, t.1);
    PairShows(f, Pair(g, h), t);
  }

  lemma KindShows<T>(c: Command, f: Format<T>, wrap: T -> Message, unwrap: Message -> Option<T>, m: Message, x: T)
    requires c != VERACK && c != GETADDR && CommandOf(m) == c && WireFormat(c) == Kind(f, wrap, unwrap)
             && unwrap(m) == Some(x)
    ensures Serialize(m) == f.show(x)
  {
  }

  lemma ShownVersion(v: VersionPayload)
    ensures Serialize(VersionMessage(v)) == Version().show(v)
  {
    KindShows(VERSION, Version(), WrapVersion, UnwrapVersion, VersionMessage(v), v);
  }

  lemma ShownPing(n: int)
    ensures Serialize(PingMessage(n)) == Unsigned(8).show(n)
  {
    KindShows(PING, Unsigned(8), WrapPing, UnwrapPing, PingMessage(n), n);
  }

  lemma ShownPong(n: int)
    ensures Serialize(PongMessage(n)) == Unsigned(8).show(n)
  {
    KindShows(PONG, Unsigned(8), WrapPong, UnwrapPong, PongMessage(n), n);
  }

  lemma ShownAddr(xs: seq<TimestampedAddress>)
    ensures Serialize(AddrMessage(xs)) == Addresses().show(xs)
  {
    KindShows(ADDR, Addresses(), WrapAddr, UnwrapAddr, AddrMessage(xs), xs);
  }

  lemma ShownInv(xs: seq<InventoryVector>)
    ensures Serialize(InvMessage(xs)) == Inventories().show(xs)
  {
    KindShows(INV, Inventories(), WrapInv, UnwrapInv, InvMessage(xs), xs);
  }

  lemma ShownGetHeaders(r: GetHeadersPayload)
    ensures Serialize(GetHeadersMessage(r)) == GetHeaders().show(r)
  {
    KindShows(GETHEADERS, GetHeaders(), WrapGetHeaders, UnwrapGetHeaders, GetHeadersMessage(r), r);
  }

  lemma ShownHeaders(hs: seq<Header>)
    ensures Serialize(HeadersMessage(hs)) == Headers().show(hs)
  {
    KindShows(HEADERS, Headers(), WrapHeaders, UnwrapHeaders, HeadersMessage(hs), hs);
  }

  /** serialize, for every message. */
  method SerializeMessage(m: Message) returns (b: seq<Byte>)
    ensures b == Serialize(m)
  {
    match m
    case VersionMessage(v) =>
      b := SerializeVersion(v);
      ShownVersion(v);
    case PingMessage(n) =>
      b := SerializePing(n);
      ShownPing(n);
    case PongMessage(n) =>
      b := SerializePing(n);
      ShownPong(n);
    case AddrMessage(xs) =>
      b := SerializeAddr(xs);
      ShownAddr(xs);
    case InvMessage(xs) =>
      b := SerializeInv(xs);
      ShownInv(xs);
    case GetHeadersMessage(r) =>
      b := SerializeGetHeaders(r);
      ShownGetHeaders(r);
    case HeadersMessage(hs) =>
      b := SerializeHeaders(hs);
      ShownHeaders(hs);
    case VerackMessage => b := [];
    case GetAddrMessage => b := [];
  }

  // ---------- parsing lists ----------

  /** i values of a list have been read without error. */
  ghost predicate Gathered<T>(f: Format<T>, from: seq<Byte>, i: nat, xs: seq<T>, d: Reader)
  {
    !d.error && ParseAll(f, i, from) == Some((xs, d.rest))
  }

  lemma {:induction false} StaysFailed<T>(f: Format<T>, from: seq<Byte>, i: nat, n: nat)
    requires ParseAll(f, i, from).None? && i <= n
    ensures ParseAll(f, n, from).None?
    decreases n
  {
    if i < n {
      StaysFailed(f, from, i, n - 1);
    }
  }

  lemma GatheredNext<T>(f: Format<T>, from: seq<Byte>, i: nat, n: nat, xs: seq<T>, d: Reader, x: T, d': Reader)
    requires Gathered(f, from, i, xs, d) && Got(f, d, x, d') && i < n
    ensures !d'.error ==> Gathered(f, from, i + 1, xs + [x], d')
    ensures d'.error ==> ParseAll(f, n, from).None?
  {
    if d'.error {
      StaysFailed(f, from, i + 1, n);
    }
  }

  /** The count has been read from b: it is too large, the list fails, or the list is read. */
  lemma CountedPayload<T>(count: Format<int>, f: Format<T>, max: nat, b: seq<Byte>, n: nat, d: Reader)
    requires Got(count, Reader(false, b), n, d)
    ensures d.error || n > max ==> Payload(Counted(count, f, max), b).None?
    ensures !d.error && n <= max && ParseAll(f, n, d.rest).None? ==> Payload(Counted(count, f, max), b).None?
    ensures !d.error && n <= max && ParseAll(f, n, d.rest).Some? ==>
              Payload(Counted(count, f, max), b) == Some(ParseAll(f, n, d.rest).value.0)
  {
    assert Counted(count, f, max).parse(b) == ParseCounted(count, f, max, b);
  }

  method DeserializeAddr(b: seq<Byte>) returns (r: Option<seq<TimestampedAddress>>)
    ensures r == Payload(Addresses(), b)
  {
    var d := new MessageDeserializer(b);
    var count := d.ReadVarInt();
    ghost var from := d.Now();
    CountedPayload(Count(), Timestamped(), MAX_ADDR_SIZE, b, count, from);
    if count > MAX_ADDR_SIZE || d.error {
      return None;
    }
    var xs := [];
    for i := 0 to count
      invariant d.Valid() && Gathered(Timestamped(), from.rest, i, xs, d.Now())
    {
      ghost var now := d.Now();
      var x := d.ReadTimestampedAddress();
      GatheredNext(Timestamped(), from.rest, i, count, xs, now, x, d.Now());
      if d.error {
        return None;
      }
      xs := xs + [x];
    }
    r := Some(xs);
  }

  method DeserializeInv(b: seq<Byte>) returns (r: Option<seq<InventoryVector>>)
    ensures r == Payload(Inventories(), b)
  {
    var d := new MessageDeserializer(b);
    var count := d.ReadVarInt();
    ghost var from := d.Now();
    CountedPayload(Count(), Inventory(), MAX_INV_SIZE, b, count, from);
    if count > MAX_INV_SIZE || d.error {
      return None;
    }
    var xs := [];
    for i := 0 to count
      invariant d.Valid() && Gathered(Inventory(), from.rest, i, xs, d.Now())
    {
      ghost var now := d.Now();
      var x := d.ReadInventoryVector();
      GatheredNext(Inventory(), from.rest, i, count, xs, now, x, d.Now());
      if d.error {
        return None;
      }
      xs := xs + [x];
    }
    r := Some(xs);
  }

  // ---------- parsing block headers ----------

  lemma BigEndianAt(b: seq<Byte>, off: nat, n: nat)
    requires off + n <= |b|
    ensures Got(BigEndian(n), Reader(false, b[off..]), ReadBE(b[off..off + n]), Reader(false, b[off + n..]))
  {
    assert b[off..][..n] == b[off..off + n] && b[off..][n..] == b[off + n..];
  }

  lemma UnsignedAt(b: seq<Byte>, off: nat, n: nat)
    requires off + n <= |b|
    ensures Got(Unsigned(n), Reader(false, b[off..]), ReadLE(b[off..off + n]), Reader(false, b[off + n..]))
  {
    assert b[off..][..n] == b[off..off + n] && b[off..][n..] == b[off + n..];
  }

  /** The fields at their offsets. */
  function HeaderIn(b: seq<Byte>): Header
    requires |b| >= HEADER_SIZE
  {
    Header(ToSigned(ReadLE(b[0..4]), 4), ReadBE(b[4..36]), ReadBE(b[36..56]), ReadLE(b[56..60]),
           ReadLE(b[60..64]), ReadLE(b[64..68]), ReadBE(b[68..100]))
  }

  lemma HeaderAt(b: seq<Byte>)
    requires |b| >= HEADER_SIZE
    ensures Got(BlockHeader(), Reader(false, b), HeaderIn(b), Reader(false, b[HEADER_SIZE..]))
  {
    var words := Pair(Unsigned(4), Pair(Unsigned(4), Pair(Unsigned(4), BigEndian(32))));
    var t := TakeHeader(HeaderIn(b));
    WordsAt(b);
    BigEndianAt(b, 36, 20);
    GotPair(BigEndian(20), words, Reader(false, b[36..]), ReadBE(b[36..56]), Reader(false, b[56..]), t.1.1.1,
            Reader(false, b[100..]));
    BigEndianAt(b, 4, 32);
    GotPair(BigEndian(32), Pair(BigEndian(20), words), Reader(false, b[4..]), ReadBE(b[4..36]), Reader(false, b[36..]),
            t.1.1, Reader(false, b[100..]));
    UnsignedAt(b, 0, 4);
    assert b[0..] == b;
    GotAs(Unsigned(4), (u: int) => ToSigned(u, 4), (v: int) => ToUnsigned(v, 4), Reader(false, b), ReadLE(b[0..4]),
          Reader(false, b[4..]));
    GotPair(Signed(4), Pair(BigEndian(32), Pair(BigEndian(20), words)), Reader(false, b), t.0, Reader(false, b[4..]),
            t.1,
            Reader(false, b[100..]));
    GotAs(HeaderTuple(), MakeHeader, TakeHeader, Reader(false, b), t, Reader(false, b[100..]));
  }

  lemma WordsAt(b: seq<Byte>)
    requires |b| >= HEADER_SIZE
    ensures Got(Pair(Unsigned(4), Pair(Unsigned(4), Pair(Unsigned(4), BigEndian(32)))), Reader(false, b[56..]),
                TakeHeader(HeaderIn(b)).1.1.1, Reader(false, b[100..]))
  {
    var t := TakeHeader(HeaderIn(b)).1.1.1;
    UnsignedAt(b, 56, 4);
    UnsignedAt(b, 60, 4);
    UnsignedAt(b, 64, 4);
    BigEndianAt(b, 68, 32);
    GotPair(Unsigned(4), BigEndian(32), Reader(false, b[64..]), t.1.1.0, Reader(false, b[68..]), t.1.1.1,
            Reader(false, b[100..]));
    GotPair(Unsigned(4), Pair(Unsigned(4), BigEndian(32)), Reader(false, b[60..]), t.1.0, Reader(false, b[64..]), t.1.1,
            Reader(false, b[100..]));
    GotPair(Unsigned(4), Pair(Unsigned(4), Pair(Unsigned(4), BigEndian(32))), Reader(false, b[56..]), t.0,
            Reader(false, b[60..]), t.1, Reader(false, b[100..]));
  }

  /** A header needs all of its bytes. */
  lemma HeaderNeedsAll(b: seq<Byte>)
    requires |b| < HEADER_SIZE
    ensures BlockHeader().parse(b).None?
  {
    HeaderGood();
    if BlockHeader().parse(b).Some? {
      ShownSize(BlockHeader().parse(b).value.0);
    }
  }

  lemma ShownSize(h: Header)
    ensures |BlockHeader().show(h)| == HEADER_SIZE
  {
    FieldsShown(h);
    assert FieldsOf(h).Sized();
  }

  /** CBlockHeader::Deserialize */
  method DeserializeHeader(b: seq<Byte>) returns (r: Option<Header>)
    ensures r == if |b| == HEADER_SIZE then Some(HeaderIn(b)) else None
  {
    if |b| != HEADER_SIZE {
      return None;
    }
    r := Some(Header(ToSigned(ReadLE(b[0..4]), 4), ReadBE(b[4..36]), ReadBE(b[36..56]), ReadLE(b[56..60]),
                     ReadLE(b[60..64]), ReadLE(b[64..68]), ReadBE(b[68..100])));
  }

  lemma HeaderInPrefix(b: seq<Byte>)
    requires |b| >= HEADER_SIZE
    ensures HeaderIn(b[..HEADER_SIZE]) == HeaderIn(b)
  {
    var c := b[..HEADER_SIZE];
    assert c[0..4] == b[0..4] && c[4..36] == b[4..36] && c[36..56] == b[36..56] && c[56..60] == b[56..60];
    assert c[60..64] == b[60..64] && c[64..68] == b[64..68] && c[68..100] == b[68..100];
  }

  /** read_bytes(HEADER_SIZE) and Deserialize. */
  method ReadHeader(d: MessageDeserializer) returns (r: Option<Header>)
    requires d.Valid() && !d.error
    modifies d
    ensures d.Valid() && r.Some? == !d.error
    ensures r.Some? ==> Got(BlockHeader(), old(d.Now()), r.value, d.Now())
    ensures r.None? ==> BlockHeader().parse(old(d.Now()).rest).None?
  {
    ghost var rest := d.Now().rest;
    var bytes := d.ReadBytes(HEADER_SIZE);
    if |bytes| != HEADER_SIZE {
      HeaderNeedsAll(rest);
      return None;
    }
    r := DeserializeHeader(bytes);
    HeaderInPrefix(rest);
    HeaderAt(rest);
  }

  method DeserializeHeaders(b: seq<Byte>) returns (r: Option<seq<Header>>)
    ensures r == Payload(Headers(), b)
  {
    var d := new MessageDeserializer(b);
    var count := d.ReadVarInt();
    ghost var from := d.Now();
    CountedPayload(Count(), BlockHeader(), MAX_HEADERS_SIZE, b, count, from);
    if count > MAX_HEADERS_SIZE || d.error {
      return None;
    }
    r := ReadHeaderList(d, count);
  }

  method ReadHeaderList(d: MessageDeserializer, count: nat) returns (r: Option<seq<Header>>)
    requires d.Valid() && !d.error
    modifies d
    ensures var all := ParseAll(BlockHeader(), count, old(d.Now()).rest);
            r == if all.None? then None else Some(all.value.0)
  {
    ghost var from := d.Now().rest;
    var hs := [];
    for i := 0 to count
      invariant d.Valid() && Gathered(BlockHeader(), from, i, hs, d.Now())
    {
      ghost var now := d.Now();
      var h := ReadHeader(d);
      if h.None? {
        GatheredFails(BlockHeader(), from, i, count, hs, now);
        return None;
      }
      GatheredNext(BlockHeader(), from, i, count, hs, now, h.value, d.Now());
      hs := hs + [h.value];
    }
    r := Some(hs);
  }

  lemma GatheredFails<T>(f: Format<T>, from: seq<Byte>, i: nat, n: nat, xs: seq<T>, d: Reader)
    requires Gathered(f, from, i, xs, d) && f.parse(d.rest).None? && i < n
    ensures ParseAll(f, n, from).None?
  {
    StaysFailed(f, from, i + 1, n);
  }

  /** The locator: a count that is checked at once, and that many hashes. */
  method ReadLocator(d: MessageDeserializer) returns (r: Option<seq<seq<Byte>>>)
    requires d.Valid()
    modifies d
    ensures d.Valid() && (r.Some? ==> !d.error)
    ensures r.Some? ==> Got(Counted(Count(), Raw(32), MAX_LOCATOR_SZ), old(d.Now()), r.value, d.Now())
    ensures r.None? ==> old(d.error) || Counted(Count(), Raw(32), MAX_LOCATOR_SZ).parse(old(d.Now()).rest).None?
  {
    ghost var start := d.Now();
    var count := d.ReadVarInt();
    ghost var from := d.Now();
    CountedRead(Count(), Raw(32), MAX_LOCATOR_SZ, start, count, from);
    if count > MAX_LOCATOR_SZ || d.error {
      return None;
    }
    r := ReadHashes(d, count);
  }

  method ReadHashes(d: MessageDeserializer, count: nat) returns (r: Option<seq<seq<Byte>>>)
    requires d.Valid() && !d.error
    modifies d
    ensures d.Valid() && (r.Some? ==> !d.error)
    ensures r.Some? ==> ParseAll(Raw(32), count, old(d.Now()).rest) == Some((r.value, d.Now().rest))
    ensures r.None? ==> ParseAll(Raw(32), count, old(d.Now()).rest).None?
  {
    ghost var from := d.Now().rest;
    var hashes := [];
    for i := 0 to count
      invariant d.Valid() && Gathered(Raw(32), from, i, hashes, d.Now())
    {
      ghost var now := d.Now();
      var bytes := d.ReadBytes(32);
      GatheredNext(Raw(32), from, i, count, hashes, now, bytes, d.Now());
      if |bytes| != 32 {
        return None;
      }
      hashes := hashes + [bytes];
    }
    r := Some(hashes);
  }

  lemma CountedRead<T>(count: Format<int>, f: Format<T>, max: nat, d: Reader, n: nat, d1: Reader)
    requires Got(count, d, n, d1)
    ensures !d.error && (d1.error || n > max) ==> Counted(count, f, max).parse(d.rest).None?
    ensures !d.error && !d1.error && n <= max ==> Counted(count, f, max).parse(d.rest) == ParseAll(f, n, d1.rest)
  {
    assert Counted(count, f, max).parse(d.rest) == ParseCounted(count, f, max, d.rest);
  }

  method DeserializeGetHeaders(b: seq<Byte>) returns (r: Option<GetHeadersPayload>)
    ensures r == Payload(GetHeaders(), b)
  {
    var d := new MessageDeserializer(b);
    var version := d.ReadUint(4);
    ghost var d1 := d.Now();
    var locator := ReadLocator(d);
    ghost var d2 := d.Now();
    if locator.None? {
      NoPair(Counted(Count(), Raw(32), MAX_LOCATOR_SZ), Raw(32), d1);
      NoGetHeaders(b, version, d1);
      return None;
    }
    var stop := d.ReadBytes(32);
    GotPair(Counted(Count(), Raw(32), MAX_LOCATOR_SZ), Raw(32), d1, locator.value, d2, stop, d.Now());
    GotGetHeaders(b, version, d1, locator.value, stop, d.Now());
    if |stop| != 32 || d.error {
      return None;
    }
    r := Some(GetHeadersPayload(version, locator.value, stop));
  }

  lemma NoPair<S, T>(f: Format<S>, g: Format<T>, d: Reader)
    requires d.error || f.parse(d.rest).None?
    ensures d.error || Pair(f, g).parse(d.rest).None?
  {
  }

  lemma NoGetHeaders(b: seq<Byte>, version: int, d1: Reader)
    requires Got(Unsigned(4), Reader(false, b), version, d1)
    requires d1.error || Pair(Counted(Count(), Raw(32), MAX_LOCATOR_SZ), Raw(32)).parse(d1.rest).None?
    ensures Payload(GetHeaders(), b).None?
  {
    var hashes := Pair(Counted(Count(), Raw(32), MAX_LOCATOR_SZ), Raw(32));
    assert Got(hashes, d1, ([], []), Reader(true, []));
    GotPair(Unsigned(4), hashes, Reader(false, b), version, d1, ([], []), Reader(true, []));
    GotAs(GetHeadersTuple(), MakeGetHeaders, TakeGetHeaders, Reader(false, b), (version, ([], [])), Reader(true, []));
    GotPayload(GetHeaders(), b, MakeGetHeaders((version, ([], []))), Reader(true, []));
  }

  lemma GotGetHeaders(b: seq<Byte>, version: int, d1: Reader, locator: seq<seq<Byte>>, stop: seq<Byte>, d: Reader)
    requires Got(Unsigned(4), Reader(false, b), version, d1)
    requires Got(Pair(Counted(Count(), Raw(32), MAX_LOCATOR_SZ), Raw(32)), d1, (locator, stop), d)
    ensures Payload(GetHeaders(), b) == if d.error then None else Some(GetHeadersPayload(version, locator, stop))
  {
    var hashes := Pair(Counted(Count(), Raw(32), MAX_LOCATOR_SZ), Raw(32));
    GotPair(Unsigned(4), hashes, Reader(false, b), version, d1, (locator, stop), d);
    GotAs(GetHeadersTuple(), MakeGetHeaders, TakeGetHeaders, Reader(false, b), (version, (locator, stop)), d);
    GotPayload(GetHeaders(), b, MakeGetHeaders((version, (locator, stop))), d);
  }

  // ---------- all messages ----------

  lemma KindReads<T>(c: Command, f: Format<T>, wrap: T -> Message, unwrap: Message -> Option<T>, b: seq<Byte>,
                     x: Option<T>)
    requires c != VERACK && c != GETADDR && WireFormat(c) == Kind(f, wrap, unwrap) && x == Payload(f, b)
    ensures Deserialize(c, b) == if x.None? then None else Some(wrap(x.value))
  {
  }

  /** create_message and deserialize, for every command. */
  method DeserializeMessage(c: Command, b: seq<Byte>) returns (r: Option<Message>)
    ensures r == Deserialize(c, b)
  {
    match c
    case VERSION =>
      var x := DeserializeVersion(b);
      KindReads(c, Version(), WrapVersion, UnwrapVersion, b, x);
      r := if x.None? then None else Some(VersionMessage(x.value));
    case PING =>
      var x := DeserializePing(b);
      KindReads(c, Unsigned(8), WrapPing, UnwrapPing, b, x);
      r := if x.None? then None else Some(PingMessage(x.value));
    case PONG =>
      var x := DeserializePing(b);
      KindReads(c, Unsigned(8), WrapPong, UnwrapPong, b, x);
      r := if x.None? then None else Some(PongMessage(x.value));
    case ADDR =>
      var x := DeserializeAddr(b);
      KindReads(c, Addresses(), WrapAddr, UnwrapAddr, b, x);
      r := if x.None? then None else Some(AddrMessage(x.value));
    case INV =>
      var x := DeserializeInv(b);
      KindReads(c, Inventories(), WrapInv, UnwrapInv, b, x);
      r := if x.None? then None else Some(InvMessage(x.value));
    case GETHEADERS =>
      var x := DeserializeGetHeaders(b);
      KindReads(c, GetHeaders(), WrapGetHeaders, UnwrapGetHeaders, b, x);
      r := if x.None? then None else Some(GetHeadersMessage(x.value));
    case HEADERS =>
      var x := DeserializeHeaders(b);
      KindReads(c, Headers(), WrapHeaders, UnwrapHeaders, b, x);
      r := if x.None? then None else Some(HeadersMessage(x.value));
    case VERACK =>
      r := if b == [] then Some(VerackMessage) else None;
    case GETADDR =>
      r := if b == [] then Some(GetAddrMessage) else None;
  }
}
