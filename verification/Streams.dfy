/** What a peer receives does not depend on how its byte stream was cut into chunks. */
module Streams {
  import opened Types
  import opened Formats
  import opened Codec
  import opened Protocol
  import opened Framing
  import MessageIO

  // ---------- appending bytes ----------

  /** A verdict about the first frame is final. */
  lemma NextIsFinal(k: Link, a: seq<Byte>, b: seq<Byte>)
    requires !NextFrame(k, a).NeedMore?
    ensures NextFrame(k, a + b) == NextFrame(k, a)
  {
    SameHeader(a);
    SameHeader(a + b);
    assert (a + b)[..MESSAGE_HEADER_SIZE] == a[..MESSAGE_HEADER_SIZE];
    var h := HeaderIn(a);
    if |a| >= MESSAGE_HEADER_SIZE + h.length {
      assert (a + b)[MESSAGE_HEADER_SIZE..MESSAGE_HEADER_SIZE + h.length]
          == a[MESSAGE_HEADER_SIZE..MESSAGE_HEADER_SIZE + h.length];
    }
  }

  /** Parsing in two pieces: what the first piece leaves is parsed together with the second. */
  ghost function Continue(k: Link, p: Parsed, b: seq<Byte>): Parsed
  {
    var q := Parse(k, p.rest + b);
    q.(frames := p.frames + q.frames)
  }

  lemma RejoinContinues(k: Link, frame: Frame, p: Parsed, b: seq<Byte>)
    ensures Rejoin([frame], Continue(k, p, b)) == Continue(k, Rejoin([frame], p), b)
  {
    var q := Parse(k, p.rest + b);
    assert [frame] + (p.frames + q.frames) == ([frame] + p.frames) + q.frames;
  }

  lemma ParseReady(k: Link, b: seq<Byte>, frame: Frame)
    requires NextFrame(k, b) == Ready(frame)
    ensures Parse(k, b) == Rejoin([frame], Parse(k, b[frame.Size()..]))
  {
  }

  lemma ParseStopped(k: Link, a: seq<Byte>, b: seq<Byte>)
    requires !NextFrame(k, a).Ready?
    ensures Parse(k, a + b) == Continue(k, Parse(k, a), b)
  {
    RejoinStart(Parse(k, a + b));
  }

  lemma {:induction false} ParseAppend(k: Link, a: seq<Byte>, b: seq<Byte>)
    ensures Parse(k, a + b) == Continue(k, Parse(k, a), b)
    decreases |a|
  {
    if NextFrame(k, a).Ready? {
      var frame := NextFrame(k, a).frame;
      var rest := a[frame.Size()..];
      NextIsFinal(k, a, b);
      assert (a + b)[frame.Size()..] == rest + b;
      ParseReady(k, a, frame);
      ParseReady(k, a + b, frame);
      ParseAppend(k, rest, b);
      RejoinContinues(k, frame, Parse(k, rest), b);
    } else {
      ParseStopped(k, a, b);
    }
  }

  lemma {:induction false} RestStops(k: Link, a: seq<Byte>)
    ensures !NextFrame(k, Parse(k, a).rest).Ready?
    ensures Parse(k, a).bad <==> NextFrame(k, Parse(k, a).rest).Bad?
    decreases |a|
  {
    if NextFrame(k, a).Ready? {
      RestStops(k, a[NextFrame(k, a).frame.Size()..]);
    }
  }

  /** A bad frame stays bad whatever follows. */
  lemma BadStaysBad(k: Link, a: seq<Byte>, b: seq<Byte>)
    requires Parse(k, a).bad
    ensures Parse(k, a + b).bad && Parse(k, a + b).frames == Parse(k, a).frames
  {
    ParseAppend(k, a, b);
    RestStops(k, a);
    NextIsFinal(k, Parse(k, a).rest, b);
  }

  // ---------- chunks ----------

  function Concat(chunks: seq<seq<Byte>>): seq<Byte>
  {
    if chunks == [] then [] else Concat(chunks[..|chunks| - 1]) + Last(chunks)
  }

  ghost function ReceiveAll(k: Link, chunks: seq<seq<Byte>>): Connection
  {
    if chunks == [] then Connection([], [], false)
    else Receive(k, ReceiveAll(k, chunks[..|chunks| - 1]), Last(chunks))
  }

  /** Chunks as the transport hands them on, at most 256 KiB each. */
  predicate SmallChunks(chunks: seq<seq<Byte>>)
  {
    forall i :: 0 <= i < |chunks| ==> |chunks[i]| <= RECV_BUFFER_SIZE
  }

  /** An incomplete frame is shorter than the largest message. */
  lemma RestIsShort(k: Link, a: seq<Byte>)
    requires !Parse(k, a).bad
    ensures |Parse(k, a).rest| < MESSAGE_HEADER_SIZE + MAX_PROTOCOL_MESSAGE_LENGTH
  {
    RestStops(k, a);
  }

  /** The connection stands where parsing the whole stream so far would stand. */
  ghost predicate Agrees(k: Link, stream: seq<Byte>, c: Connection)
  {
    var p := Parse(k, stream);
    && c.delivered == p.frames && c.disconnected == p.bad
    && (if p.bad then NextFrame(k, c.pending).Bad? else c.pending == p.rest)
  }

  /** Before a bad frame the buffer has room for a chunk. */
  lemma GoodChunk(k: Link, stream: seq<Byte>, c: Connection, data: seq<Byte>)
    requires Agrees(k, stream, c) && !Parse(k, stream).bad && |data| <= RECV_BUFFER_SIZE
    ensures Agrees(k, stream + data, Receive(k, c, data))
  {
    RestIsShort(k, stream);
    ParseAppend(k, stream, data);
    RestStops(k, c.pending + data);
  }

  /** After a bad frame nothing is delivered any more, whether a chunk is dropped or appended. */
  lemma ChunkAfterBad(k: Link, stream: seq<Byte>, c: Connection, data: seq<Byte>)
    requires Agrees(k, stream, c) && Parse(k, stream).bad
    ensures Agrees(k, stream + data, Receive(k, c, data))
  {
    BadStaysBad(k, stream, data);
    NextIsFinal(k, c.pending, data);
    assert c.delivered + [] == c.delivered;
  }

  /**
   Up to the first bad frame, and after it, the outcome is that of the whole stream in one piece: the
   same frames are delivered, and the peer is disconnected exactly when the stream holds a bad frame.
   */
  lemma {:induction false} ChunksDoNotMatter(k: Link, chunks: seq<seq<Byte>>)
    requires SmallChunks(chunks)
    ensures Agrees(k, Concat(chunks), ReceiveAll(k, chunks))
    decreases |chunks|
  {
    if chunks == [] {
      assert NextFrame(k, []) == NeedMore;
    } else {
      var front := chunks[..|chunks| - 1];
      ChunksDoNotMatter(k, front);
      if Parse(k, Concat(front)).bad {
        ChunkAfterBad(k, Concat(front), ReceiveAll(k, front), Last(chunks));
      } else {
        GoodChunk(k, Concat(front), ReceiveAll(k, front), Last(chunks));
      }
    }
  }

  /** Two ways to cut the same stream deliver the same frames and disconnect alike. */
  lemma {:induction false} SameStreamSameFrames(k: Link, chunks1: seq<seq<Byte>>, chunks2: seq<seq<Byte>>)
    requires SmallChunks(chunks1) && SmallChunks(chunks2) && Concat(chunks1) == Concat(chunks2)
    ensures ReceiveAll(k, chunks1).delivered == ReceiveAll(k, chunks2).delivered
    ensures ReceiveAll(k, chunks1).disconnected == ReceiveAll(k, chunks2).disconnected
  {
    ChunksDoNotMatter(k, chunks1);
    ChunksDoNotMatter(k, chunks2);
  }

  /** The next chunk would flood the buffer. */
  ghost predicate Floods(k: Link, chunks: seq<seq<Byte>>, data: seq<Byte>)
  {
    |ReceiveAll(k, chunks).pending| + |data| > RECV_FLOOD_SIZE
  }

  /** The flood check trips only after a bad frame, so a well-formed stream never trips it. */
  lemma {:induction false} FloodsOnlyAfterBad(k: Link, chunks: seq<seq<Byte>>, data: seq<Byte>)
    requires SmallChunks(chunks) && |data| <= RECV_BUFFER_SIZE && Floods(k, chunks, data)
    ensures Parse(k, Concat(chunks)).bad
  {
    ChunksDoNotMatter(k, chunks);
    if !Parse(k, Concat(chunks)).bad {
      RestIsShort(k, Concat(chunks));
    }
  }

  // ---------- sending ----------

  function NameOf(c: Command): string
  {
    match c
    case VERSION => "version"
    case VERACK => "verack"
    case PING => "ping"
    case PONG => "pong"
    case ADDR => "addr"
    case GETADDR => "getaddr"
    case INV => "inv"
    case GETHEADERS => "getheaders"
    case HEADERS => "headers"
  }

  /** create_header and the payload. */
  function FrameOf(k: Link, m: Message): Frame
  {
    var payload := Serialize(m);
    Frame(MessageHeader(k.magic, Padded(NameOf(CommandOf(m))), |payload|, k.checksum(payload)), payload)
  }

  function ShowAll(frames: seq<Frame>): seq<Byte>
  {
    if frames == [] then [] else ShowHeader(frames[0].header) + frames[0].payload + ShowAll(frames[1..])
  }

  function FramesOf(k: Link, ms: seq<Message>): (frames: seq<Frame>)
    ensures |frames| == |ms| && forall i {:trigger frames[i]} :: 0 <= i < |ms| ==> frames[i] == FrameOf(k, ms[i])
  {
    seq(|ms|, i requires 0 <= i < |ms| => FrameOf(k, ms[i]))
  }

  /** The bytes sent for a sequence of messages. */
  function EncodeAll(k: Link, ms: seq<Message>): seq<Byte>
  {
    ShowAll(FramesOf(k, ms))
  }

  ghost predicate LinkOk(k: Link)
  {
    0 <= k.magic < Limit(4) && forall p {:trigger k.checksum(p)} :: |k.checksum(p)| == 4
  }

  lemma CommandIsValid(c: Command)
    ensures IsCommand(Padded(NameOf(c)))
  {
    var n := |NameOf(c)|;
    assert forall i :: 0 <= i < n ==> Printable(Ascii(NameOf(c))[i]);
    assert CommandEndsAt(Padded(NameOf(c)), n);
  }

  lemma {:induction false} ListSize<T(!new)>(f: Format<T>, xs: seq<T>, size: nat)
    requires AllValid(f, xs) && forall x: T {:trigger f.show(x)} :: f.valid(x) ==> |f.show(x)| <= size
    ensures |PrintAll(f, xs)| <= size * |xs|
    decreases |xs|
  {
    if xs != [] {
      ListSize(f, xs[..|xs| - 1], size);
      assert size * |xs| == size * (|xs| - 1) + size;
    }
  }

  lemma ProductAtMost(size: nat, n: nat, max: nat)
    requires n <= max
    ensures size * n <= size * max
  {
  }

  /** A counted list of values of bounded size. */
  lemma CountedSize<T(!new)>(f: Format<T>, xs: seq<T>, size: nat, max: nat)
    requires Counted(Count(), f, max).valid(xs) && forall x: T {:trigger f.show(x)} :: f.valid(x) ==>
             |f.show(x)| <= size
    ensures 1 <= |Counted(Count(), f, max).show(xs)| <= 9 + size * max
  {
    ListSize(f, xs, size);
    ProductAtMost(size, |xs|, max);
    assert Count().show(|xs|) == EncodeVarInt(|xs|);
  }

  lemma AddressSize(a: NetworkAddress)
    requires Address().valid(a)
    ensures |Address().show(a)| == 26
  {
    assert Pair(Raw(16), BigEndian(2)).valid((a.ip, a.port));
  }

  lemma TimestampedSize(a: TimestampedAddress)
    requires Timestamped().valid(a)
    ensures |Timestamped().show(a)| == 30
  {
    assert Pair(Unsigned(4), Address()).valid((a.timestamp, a.address));
    AddressSize(a.address);
    MessageIO.PairShows(Unsigned(4), Address(), (a.timestamp, a.address));
  }

  lemma InventorySize(v: InventoryVector)
    requires Inventory().valid(v)
    ensures |Inventory().show(v)| == 36
  {
    assert Pair(Unsigned(4), Raw(32)).valid((v.kind, v.hash));
    MessageIO.PairShows(Unsigned(4), Raw(32), (v.kind, v.hash));
  }

  /** A payload that can be sent: not empty, and no longer than a message may be. */
  predicate Sendable(b: seq<Byte>)
  {
    1 <= |b| <= MAX_PROTOCOL_MESSAGE_LENGTH
  }

  lemma AddrFits(xs: seq<TimestampedAddress>)
    requires Addresses().valid(xs)
    ensures Sendable(Addresses().show(xs))
  {
    forall a: TimestampedAddress {:trigger Timestamped().show(a)} | Timestamped().valid(a)
      ensures |Timestamped().show(a)| <= 30
    {
      TimestampedSize(a);
    }
    CountedSize(Timestamped(), xs, 30, MAX_ADDR_SIZE);
  }

  lemma InvFits(xs: seq<InventoryVector>)
    requires Inventories().valid(xs)
    ensures Sendable(Inventories().show(xs))
  {
    forall v: InventoryVector {:trigger Inventory().show(v)} | Inventory().valid(v)
      ensures |Inventory().show(v)| <= 36
    {
      InventorySize(v);
    }
    CountedSize(Inventory(), xs, 36, MAX_INV_SIZE);
  }

  lemma HeadersFit(hs: seq<Header>)
    requires Headers().valid(hs)
    ensures Sendable(Headers().show(hs))
  {
    forall h: Header {:trigger BlockHeader().show(h)} | BlockHeader().valid(h) ensures |BlockHeader().show(h)| <= 100 {
      MessageIO.ShownSize(h);
    }
    CountedSize(BlockHeader(), hs, 100, MAX_HEADERS_SIZE);
  }

  lemma GetHeadersFits(r: GetHeadersPayload)
    requires GetHeaders().valid(r)
    ensures Sendable(GetHeaders().show(r))
  {
    var hashes := Counted(Count(), Raw(32), MAX_LOCATOR_SZ);
    var t := TakeGetHeaders(r);
    assert GetHeadersTuple().valid(t);
    assert Pair(hashes, Raw(32)).valid(t.1);
    CountedSize(Raw(32), r.locator, 32, MAX_LOCATOR_SZ);
    MessageIO.PairShows(hashes, Raw(32), t.1);
    MessageIO.PairShows(Unsigned(4), Pair(hashes, Raw(32)), t);
    MessageIO.AsShows(GetHeadersTuple(), MakeGetHeaders, TakeGetHeaders, r);
  }

  lemma VersionFits(v: VersionPayload)
    requires Version().valid(v)
    ensures Sendable(Version().show(v))
  {
    ValidTail(v);
    AddressSize(v.addrRecv);
    AddressSize(v.addrFrom);
    MessageIO.VersionShown(v);
    MessageIO.TailShown(v);
    TextSize(v.userAgent);
  }

  lemma TextSize(x: seq<Byte>)
    requires |x| <= MAX_SUBVERSION_LENGTH
    ensures |Text(Count(), MAX_SUBVERSION_LENGTH).show(x)| <= 9 + MAX_SUBVERSION_LENGTH
  {
    assert Text(Count(), MAX_SUBVERSION_LENGTH).show(x) == EncodeVarInt(|x|) + x;
  }

  lemma ValidTail(v: VersionPayload)
    requires Version().valid(v)
    ensures Address().valid(v.addrRecv) && Address().valid(v.addrFrom) && |v.userAgent| <= MAX_SUBVERSION_LENGTH
  {
    var text := Text(Count(), MAX_SUBVERSION_LENGTH);
    var t := TakeVersion(v);
    assert VersionTuple().valid(t);
    assert Pair(Unsigned(8), Pair(Signed(8), VersionTail())).valid(t.1);
    assert Pair(Signed(8), VersionTail()).valid(t.1.1);
    assert VersionTail().valid(t.1.1.1);
    assert Pair(Address(), Pair(Unsigned(8), Pair(text, Signed(4)))).valid(t.1.1.1.1);
    assert Pair(Unsigned(8), Pair(text, Signed(4))).valid(t.1.1.1.1.1);
    assert Pair(text, Signed(4)).valid(t.1.1.1.1.1.1);
  }

  lemma UnwrapsValid<T>(c: Command, f: Format<T>, wrap: T -> Message, unwrap: Message -> Option<T>, m: Message, x: T)
    requires c != VERACK && c != GETADDR && CommandOf(m) == c && WireFormat(c) == Kind(f, wrap, unwrap)
             && unwrap(m) == Some(x)
    requires WithinLimits(m)
    ensures f.valid(x) && Serialize(m) == f.show(x)
  {
  }

  lemma VersionMessageFits(v: VersionPayload)
    requires WithinLimits(VersionMessage(v))
    ensures Sendable(Serialize(VersionMessage(v)))
  {
    UnwrapsValid(VERSION, Version(), WrapVersion, UnwrapVersion, VersionMessage(v), v);
    VersionFits(v);
  }

  lemma AddrMessageFits(xs: seq<TimestampedAddress>)
    requires WithinLimits(AddrMessage(xs))
    ensures Sendable(Serialize(AddrMessage(xs)))
  {
    UnwrapsValid(ADDR, Addresses(), WrapAddr, UnwrapAddr, AddrMessage(xs), xs);
    AddrFits(xs);
  }

  lemma InvMessageFits(xs: seq<InventoryVector>)
    requires WithinLimits(InvMessage(xs))
    ensures Sendable(Serialize(InvMessage(xs)))
  {
    UnwrapsValid(INV, Inventories(), WrapInv, UnwrapInv, InvMessage(xs), xs);
    InvFits(xs);
  }

  lemma GetHeadersMessageFits(r: GetHeadersPayload)
    requires WithinLimits(GetHeadersMessage(r))
    ensures Sendable(Serialize(GetHeadersMessage(r)))
  {
    UnwrapsValid(GETHEADERS, GetHeaders(), WrapGetHeaders, UnwrapGetHeaders, GetHeadersMessage(r), r);
    GetHeadersFits(r);
  }

  lemma HeadersMessageFits(hs: seq<Header>)
    requires WithinLimits(HeadersMessage(hs))
    ensures Sendable(Serialize(HeadersMessage(hs)))
  {
    UnwrapsValid(HEADERS, Headers(), WrapHeaders, UnwrapHeaders, HeadersMessage(hs), hs);
    HeadersFit(hs);
  }

  /** Every message within its limits fits in one frame, and only verack and getaddr are empty. */
  lemma {:induction false} MessageFits(m: Message)
    requires WithinLimits(m)
    ensures m.VerackMessage? || m.GetAddrMessage? || Sendable(Serialize(m))
  {
    match m
    case VersionMessage(v) => VersionMessageFits(v);
    case PingMessage(n) => MessageIO.ShownPing(n);
    case PongMessage(n) => MessageIO.ShownPong(n);
    case AddrMessage(xs) => AddrMessageFits(xs);
    case InvMessage(xs) => InvMessageFits(xs);
    case GetHeadersMessage(r) => GetHeadersMessageFits(r);
    case HeadersMessage(hs) => HeadersMessageFits(hs);
    case VerackMessage =>
    case GetAddrMessage =>
  }

  /** A frame as the receiver wants it. */
  ghost predicate FrameOk(k: Link, f: Frame)
  {
    && f.header.magic == k.magic && |f.header.command| == 12 && IsCommand(f.header.command)
    && f.header.length == |f.payload| <= MAX_PROTOCOL_MESSAGE_LENGTH && f.header.checksum == k.checksum(f.payload)
    && (f.payload == [] ==> f.header.command == Padded("verack") || f.header.command == Padded("getaddr"))
  }

  lemma PayloadFrameOk(k: Link, c: Command, payload: seq<Byte>)
    requires |payload| <= MAX_PROTOCOL_MESSAGE_LENGTH && (payload == [] ==> c == VERACK || c == GETADDR)
    ensures FrameOk(k, Frame(MessageHeader(k.magic, Padded(NameOf(c)), |payload|, k.checksum(payload)), payload))
  {
    CommandIsValid(c);
  }

  lemma FrameOfOk(k: Link, m: Message)
    requires WithinLimits(m)
    ensures FrameOk(k, FrameOf(k, m))
  {
    MessageFits(m);
    PayloadFrameOk(k, CommandOf(m), Serialize(m));
  }

  /** A frame at the front of the stream is found. */
  lemma FrontFrame(k: Link, f: Frame, rest: seq<Byte>)
    requires LinkOk(k) && FrameOk(k, f)
    ensures var b := ShowHeader(f.header) + f.payload + rest;
            NextFrame(k, b) == Ready(f) && b[f.Size()..] == rest
  {
    var b := ShowHeader(f.header) + f.payload + rest;
    Limits();
    assert |k.checksum(f.payload)| == 4;
    HeaderRoundTrip(f.header, f.payload + rest);
    assert b == ShowHeader(f.header) + (f.payload + rest);
    assert b[MESSAGE_HEADER_SIZE..MESSAGE_HEADER_SIZE + f.header.length] == f.payload;
  }

  ghost predicate AllWithinLimits(ms: seq<Message>)
  {
    forall i {:trigger ms[i]} :: 0 <= i < |ms| ==> WithinLimits(ms[i])
  }

  lemma {:induction false} FramesAreParsed(k: Link, frames: seq<Frame>)
    requires LinkOk(k) && forall i {:trigger frames[i]} :: 0 <= i < |frames| ==> FrameOk(k, frames[i])
    ensures Parse(k, ShowAll(frames)) == Parsed(frames, [], false)
    decreases |frames|
  {
    if frames == [] {
      assert NextFrame(k, []) == NeedMore;
    } else {
      FrontFrame(k, frames[0], ShowAll(frames[1..]));
      FramesAreParsed(k, frames[1..]);
      ParseReady(k, ShowAll(frames), frames[0]);
      assert [frames[0]] + frames[1..] == frames;
    }
  }

  lemma SentIsParsed(k: Link, ms: seq<Message>)
    requires LinkOk(k) && AllWithinLimits(ms)
    ensures Parse(k, EncodeAll(k, ms)) == Parsed(FramesOf(k, ms), [], false)
  {
    var frames := FramesOf(k, ms);
    forall i {:trigger frames[i]} | 0 <= i < |frames| ensures FrameOk(k, frames[i]) {
      FrameOfOk(k, ms[i]);
    }
    FramesAreParsed(k, frames);
  }

  // ---------- looking a command up ----------

  /** get_command: the bytes before the first zero. */
  function GetCommand(c: seq<Byte>): seq<Byte>
  {
    if c == [] || c[0] == 0 then [] else [c[0]] + GetCommand(c[1..])
  }

  /** create_message, None for an unknown command. */
  function CreateMessage(name: seq<Byte>): Option<Command>
  {
    if name == Ascii("version") then Some(VERSION)
    else if name == Ascii("verack") then Some(VERACK)
    else if name == Ascii("ping") then Some(PING)
    else if name == Ascii("pong") then Some(PONG)
    else if name == Ascii("addr") then Some(ADDR)
    else if name == Ascii("getaddr") then Some(GETADDR)
    else if name == Ascii("inv") then Some(INV)
    else if name == Ascii("getheaders") then Some(GETHEADERS)
    else if name == Ascii("headers") then Some(HEADERS)
    else None
  }

  /** The message process_message makes of a frame: the command looked up from the header parses the payload. */
  function Understood(f: Frame): Option<Message>
  {
    var c := CreateMessage(GetCommand(f.header.command));
    if c.None? then None else Deserialize(c.value, f.payload)
  }

  lemma {:induction false} CommandBeforeZeros(name: seq<Byte>, zeros: seq<Byte>)
    requires forall i {:trigger name[i]} :: 0 <= i < |name| ==> name[i] != 0
    requires zeros != [] && zeros[0] == 0
    ensures GetCommand(name + zeros) == name
  {
    if name == [] {
      assert name + zeros == zeros;
    } else {
      assert (name + zeros)[1..] == name[1..] + zeros;
      CommandBeforeZeros(name[1..], zeros);
    }
  }

  lemma AsciiInjective(x: string, y: string)
    requires forall i {:trigger x[i]} :: 0 <= i < |x| ==> x[i] < 128 as char
    requires forall i {:trigger y[i]} :: 0 <= i < |y| ==> y[i] < 128 as char
    ensures Ascii(x) == Ascii(y) ==> x == y
  {
    if Ascii(x) == Ascii(y) {
      forall i | 0 <= i < |x| ensures x[i] == y[i] {
        assert Ascii(x)[i] == Ascii(y)[i];
      }
    }
  }

  lemma NamesDiffer(c: Command, d: Command)
    ensures Ascii(NameOf(c)) == Ascii(NameOf(d)) ==> c == d
  {
    AsciiInjective(NameOf(c), NameOf(d));
  }

  lemma LookedUp(c: Command)
    ensures CreateMessage(Ascii(NameOf(c))) == Some(c)
  {
    NamesDiffer(VERSION, c);
    NamesDiffer(VERACK, c);
    NamesDiffer(PING, c);
    NamesDiffer(PONG, c);
    NamesDiffer(ADDR, c);
    NamesDiffer(GETADDR, c);
    NamesDiffer(INV, c);
    NamesDiffer(GETHEADERS, c);
    NamesDiffer(HEADERS, c);
  }

  /** Every command is looked up under the name it is sent with. */
  lemma {:induction false} CommandIsFound(c: Command)
    ensures CreateMessage(GetCommand(Padded(NameOf(c)))) == Some(c)
  {
    var name := Ascii(NameOf(c));
    var zeros := seq(COMMAND_SIZE - |name|, i => 0);
    assert |name| < COMMAND_SIZE && Padded(NameOf(c)) == name + zeros;
    CommandBeforeZeros(name, zeros);
    LookedUp(c);
  }

  /**
   End to end: messages within their limits, sent one after the other and received in chunks of
   at most 256 KiB, are delivered in order, one frame each, and each frame is understood as its message.
   */
  lemma {:induction false} MessagesArrive(k: Link, ms: seq<Message>, chunks: seq<seq<Byte>>)
    requires LinkOk(k) && AllWithinLimits(ms) && SmallChunks(chunks) && Concat(chunks) == EncodeAll(k, ms)
    ensures ReceiveAll(k, chunks) == Connection([], FramesOf(k, ms), false)
    ensures forall i {:trigger ms[i]} :: 0 <= i < |ms| ==>
              Understood(FramesOf(k, ms)[i]) == Some(ms[i])
  {
    SentIsParsed(k, ms);
    ChunksDoNotMatter(k, chunks);
    forall i | 0 <= i < |ms| ensures Understood(FramesOf(k, ms)[i]) == Some(ms[i]) {
      MessageRoundTrip(ms[i]);
      CommandIsFound(CommandOf(ms[i]));
    }
  }
}
