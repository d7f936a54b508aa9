/**
 Stream framing: the 24-byte message header and the receive buffer with offset and compaction
 (src/network/peer.cpp, src/network/message.cpp). The payload checksum is a parameter.
 */
module Framing {
  import opened Types
  import opened Formats
  import opened Protocol

  const RECV_BUFFER_SIZE := 262_144

  // ---------- message headers ----------

  datatype MessageHeader = MessageHeader(magic: int, command: seq<Byte>, length: int, checksum: seq<Byte>)

  predicate Printable(b: Byte) { 0x20 <= b <= 0x7e }

  /** Printable bytes, a terminator, and nothing but zeros after it. */
  predicate CommandEndsAt(c: seq<Byte>, n: nat)
  {
    && n < |c| && (forall i {:trigger c[i]} :: 0 <= i < n ==> Printable(c[i]))
    && (forall i {:trigger c[i]} :: n <= i < |c| ==> c[i] == 0)
  }

  ghost predicate IsCommand(c: seq<Byte>)
  {
    exists n: nat :: CommandEndsAt(c, n)
  }

  /** The validation loop of deserialize_header. */
  method CheckCommand(c: seq<Byte>) returns (ok: bool)
    ensures ok == IsCommand(c)
  {
    var foundNul, end := false, 0;
    for i := 0 to |c|
      invariant end <= i
      invariant !foundNul ==> end == i
      invariant foundNul ==> end < i && c[end] == 0
      invariant forall j {:trigger c[j]} :: 0 <= j < end ==> Printable(c[j])
      invariant forall j {:trigger c[j]} :: end <= j < i ==> c[j] == 0
    {
      if !foundNul {
        if c[i] == 0 {
          foundNul := true;
        } else if c[i] < 0x20 || c[i] > 0x7e {
          NotACommand(c, end, i);
          return false;
        } else {
          end := i + 1;
        }
      } else if c[i] != 0 {
        NotACommand(c, end, i);
        return false;
      }
    }
    ok := foundNul;
    if foundNul {
      assert CommandEndsAt(c, end);
    } else {
      Unterminated(c);
    }
  }

  /** A byte after the terminator that is not zero, or one before it that is not printable. */
  lemma NotACommand(c: seq<Byte>, end: nat, i: nat)
    requires end <= i < |c| && c[i] != 0
    requires end == i ==> !Printable(c[i])
    requires end < i ==> c[end] == 0
    ensures !IsCommand(c)
  {
  }

  lemma Unterminated(c: seq<Byte>)
    requires forall i {:trigger c[i]} :: 0 <= i < |c| ==> Printable(c[i])
    ensures !IsCommand(c)
  {
    forall n: nat | n < |c| ensures !CommandEndsAt(c, n) {
      assert Printable(c[n]);
    }
  }

  /** What deserialize_header accepts beyond the layout. */
  ghost predicate Acceptable(h: MessageHeader)
  {
    IsCommand(h.command) && h.length <= MAX_PROTOCOL_MESSAGE_LENGTH
  }

  /** The fields at their offsets. */
  function HeaderIn(b: seq<Byte>): (h: MessageHeader)
    requires |b| >= MESSAGE_HEADER_SIZE
    ensures |h.command| == 12 && h.length >= 0
  {
    MessageHeader(ReadLE(b[0..4]), b[4..16], ReadLE(b[16..20]), b[20..24])
  }

  function ShowHeader(h: MessageHeader): seq<Byte>
  {
    LE(h.magic, 4) + h.command + LE(h.length, 4) + h.checksum
  }

  /** serialize_header and the reads of deserialize_header are inverse to each other. */
  lemma HeaderRoundTrip(h: MessageHeader, rest: seq<Byte>)
    requires 0 <= h.magic < Limit(4) && 0 <= h.length < Limit(4) && |h.command| == 12 && |h.checksum| == 4
    ensures |ShowHeader(h)| == 24 && HeaderIn(ShowHeader(h) + rest) == h
  {
    var b := ShowHeader(h) + rest;
    assert b[0..4] == LE(h.magic, 4) && b[4..16] == h.command && b[16..20] == LE(h.length, 4)
           && b[20..24] == h.checksum;
    ReadLEOfLE(h.magic, 4);
    ReadLEOfLE(h.length, 4);
  }

  lemma HeaderIsCanonical(b: seq<Byte>)
    requires |b| == 24
    ensures ShowHeader(HeaderIn(b)) == b
  {
    LEOfReadLE(b[0..4]);
    LEOfReadLE(b[16..20]);
  }

  method DeserializeHeader(b: seq<Byte>) returns (r: Option<MessageHeader>)
    ensures |b| < MESSAGE_HEADER_SIZE ==> r == None
    ensures |b| >= MESSAGE_HEADER_SIZE ==> r == if Acceptable(HeaderIn(b)) then Some(HeaderIn(b)) else None
  {
    if |b| < MESSAGE_HEADER_SIZE {
      return None;
    }
    var ok := CheckCommand(b[4..16]);
    if !ok {
      return None;
    }
    var length := ReadLE(b[16..20]);
    if length > MAX_PROTOCOL_MESSAGE_LENGTH {
      return None;
    }
    r := Some(MessageHeader(ReadLE(b[0..4]), b[4..16], length, b[20..24]));
  }

  // ---------- frames ----------

  /** What a connection expects: its network magic, and the checksum function. */
  datatype Link = Link(magic: int, checksum: seq<Byte> -> seq<Byte>)

  datatype Frame = Frame(header: MessageHeader, payload: seq<Byte>)
  {
    function Size(): int { MESSAGE_HEADER_SIZE + header.length }
  }

  datatype Next = NeedMore | Bad | Ready(frame: Frame)

  /** Only verack and getaddr may be empty. */
  predicate MayBeEmpty(command: seq<Byte>)
  {
    command == Padded("verack") || command == Padded("getaddr")
  }

  function Ascii(s: string): seq<Byte>
  {
    seq(|s|, i requires 0 <= i < |s| => (s[i] as int) % 128)
  }

  /** set_command */
  function Padded(name: string): (c: seq<Byte>)
    ensures |c| == COMMAND_SIZE
  {
    var a := Ascii(name);
    if |a| >= COMMAND_SIZE then a[..COMMAND_SIZE] else a + seq(COMMAND_SIZE - |a|, i => 0)
  }

  /** The first frame of the bytes that have not been processed. */
  ghost function NextFrame(k: Link, b: seq<Byte>): (r: Next)
    ensures r.Ready? ==> MESSAGE_HEADER_SIZE <= r.frame.Size() <= |b|
  {
    if |b| < MESSAGE_HEADER_SIZE then NeedMore
    else
      var h := HeaderIn(b);
      if !Acceptable(h) || h.magic != k.magic then Bad
      else if |b| < MESSAGE_HEADER_SIZE + h.length then NeedMore
      else
        var payload := b[MESSAGE_HEADER_SIZE..MESSAGE_HEADER_SIZE + h.length];
        if k.checksum(payload) != h.checksum || (h.length == 0 && !MayBeEmpty(h.command)) then Bad
        else Ready(Frame(h, payload))
  }

  /** The frames of a byte stream, what is left, and whether what is left starts with a bad frame. */
  datatype Parsed = Parsed(frames: seq<Frame>, rest: seq<Byte>, bad: bool)

  ghost function Parse(k: Link, b: seq<Byte>): Parsed
    decreases |b|
  {
    match NextFrame(k, b)
    case NeedMore => Parsed([], b, false)
    case Bad => Parsed([], b, true)
    case Ready(frame) =>
      var p := Parse(k, b[frame.Size()..]);
      p.(frames := [frame] + p.frames)
  }

  // ---------- the receive buffer ----------

  /** A connection: unprocessed bytes, delivered frames, and whether a disconnect has been posted. */
  datatype Connection = Connection(pending: seq<Byte>, delivered: seq<Frame>, disconnected: bool)

  /** What one chunk does: it is dropped when it would flood the buffer, else appended and parsed. */
  ghost function Receive(k: Link, c: Connection, data: seq<Byte>): Connection
  {
    if |c.pending| + |data| > RECV_FLOOD_SIZE then c.(disconnected := true)
    else
      var p := Parse(k, c.pending + data);
      Connection(p.rest, c.delivered + p.frames, c.disconnected || p.bad)
  }

  class ReceiveBuffer {
    const link: Link
    var recvBuffer: seq<Byte>
    var offset: nat
    /** Everything handed to process_message. */
    var delivered: seq<Frame>
    var disconnected: bool

    /** The buffer never holds more than twice the flood limit. */
    ghost predicate Valid()
      reads this
    {
      offset <= |recvBuffer| <= 2 * RECV_FLOOD_SIZE && |recvBuffer| - offset <= RECV_FLOOD_SIZE
    }

    ghost function Pending(): seq<Byte>
      requires Valid()
      reads this
    {
      recvBuffer[offset..]
    }

    ghost function Model(): Connection
      requires Valid()
      reads this
    {
      Connection(Pending(), delivered, disconnected)
    }

    constructor (k: Link)
      ensures Valid() && link == k && Model() == Connection([], [], false)
    {
      link := k;
      recvBuffer := [];
      offset := 0;
      delivered := [];
      disconnected := false;
    }

    /** on_transport_receive, in whatever state the connection is. */
    method OnTransportReceive(data: seq<Byte>)
      requires Valid()
      modifies this
      ensures Valid() && Model() == Receive(link, old(Model()), data)
    {
      if |data| > RECV_FLOOD_SIZE {
        disconnected := true;
        return;
      }
      var usable := |recvBuffer| - offset;
      if usable + |data| > RECV_FLOOD_SIZE {
        disconnected := true;
        return;
      }
      if offset > 0 && offset >= |recvBuffer| / 2 {
        recvBuffer := recvBuffer[offset..];
        offset := 0;
      }
      ghost var pending := recvBuffer[offset..];
      recvBuffer := recvBuffer + data;
      assert recvBuffer[offset..] == pending + data;
      ProcessReceivedData();
    }

    method ProcessReceivedData()
      requires Valid()
      modifies this`offset, this`delivered, this`disconnected
      ensures Valid()
      ensures var p := Parse(link, old(Pending()));
              && delivered == old(delivered) + p.frames && Pending() == p.rest
              && disconnected == (old(disconnected) || p.bad)
    {
      ghost var all := Parse(link, Pending());
      ghost var done: seq<Frame> := [];
      RejoinStart(all);
      while |recvBuffer| - offset >= MESSAGE_HEADER_SIZE
        invariant Valid() && delivered == old(delivered) + done && disconnected == old(disconnected)
        invariant Rejoin(done, Parse(link, Pending())) == all
        decreases |recvBuffer| - offset
      {
        ghost var pending := Pending();
        var step := TakeFrame();
        if !step.Ready? {
          RejoinStops(link, pending, done);
          return;
        }
        RejoinNext(link, pending, done, step.frame);
        done := done + [step.frame];
      }
      RejoinStops(link, Pending(), done);
    }

    /** One turn of the loop: hand on a complete frame, disconnect on a bad one, or wait. */
    method TakeFrame() returns (r: Next)
      requires Valid() && |recvBuffer| - offset >= MESSAGE_HEADER_SIZE
      modifies this`offset, this`delivered, this`disconnected
      ensures Valid() && r == NextFrame(link, old(Pending()))
      ensures disconnected == (old(disconnected) || r.Bad?)
      ensures r.Ready? ==> && delivered == old(delivered) + [r.frame] && offset > old(offset)
                           && Pending() == old(Pending())[r.frame.Size()..]
      ensures !r.Ready? ==> delivered == old(delivered) && Pending() == old(Pending())
    {
      r := FirstFrame();
      match r
      case Bad => disconnected := true;
      case NeedMore =>
      case Ready(frame) =>
        delivered := delivered + [frame];
        offset := offset + frame.Size();
    }

    /** The checks of one turn of the loop, in order. */
    method FirstFrame() returns (r: Next)
      requires Valid() && |recvBuffer| - offset >= MESSAGE_HEADER_SIZE
      ensures r == NextFrame(link, Pending())
    {
      var available := |recvBuffer| - offset;
      var header := DeserializeHeader(recvBuffer[offset..offset + MESSAGE_HEADER_SIZE]);
      SameHeader(Pending());
      assert Pending()[..MESSAGE_HEADER_SIZE] == recvBuffer[offset..offset + MESSAGE_HEADER_SIZE];
      if header.None? {
        return Bad;
      }
      if header.value.magic != link.magic {
        return Bad;
      }
      if available < MESSAGE_HEADER_SIZE + header.value.length {
        return NeedMore;
      }
      var from := offset + MESSAGE_HEADER_SIZE;
      var payload := recvBuffer[from..from + header.value.length];
      assert payload == Pending()[MESSAGE_HEADER_SIZE..MESSAGE_HEADER_SIZE + header.value.length];
      if link.checksum(payload) != header.value.checksum {
        return Bad;
      }
      if header.value.length == 0 && !MayBeEmpty(header.value.command) {
        return Bad;
      }
      r := Ready(Frame(header.value, payload));
    }
  }

  lemma SameHeader(b: seq<Byte>)
    requires |b| >= MESSAGE_HEADER_SIZE
    ensures HeaderIn(b[..MESSAGE_HEADER_SIZE]) == HeaderIn(b)
  {
    var c := b[..MESSAGE_HEADER_SIZE];
    assert c[0..4] == b[0..4] && c[4..16] == b[4..16] && c[16..20] == b[16..20] && c[20..24] == b[20..24];
  }

  /** Frames already handed on, put back in front. */
  ghost function Rejoin(done: seq<Frame>, p: Parsed): Parsed
  {
    p.(frames := done + p.frames)
  }

  lemma RejoinStart(p: Parsed)
    ensures Rejoin([], p) == p
  {
    assert [] + p.frames == p.frames;
  }

  lemma RejoinStops(k: Link, b: seq<Byte>, done: seq<Frame>)
    requires !NextFrame(k, b).Ready?
    ensures Rejoin(done, Parse(k, b)) == Parsed(done, b, NextFrame(k, b).Bad?)
  {
    assert done + [] == done;
  }

  lemma RejoinNext(k: Link, b: seq<Byte>, done: seq<Frame>, frame: Frame)
    requires NextFrame(k, b) == Ready(frame)
    ensures Rejoin(done + [frame], Parse(k, b[frame.Size()..])) == Rejoin(done, Parse(k, b))
  {
    var p := Parse(k, b[frame.Size()..]);
    assert done + ([frame] + p.frames) == (done + [frame]) + p.frames;
  }
}
