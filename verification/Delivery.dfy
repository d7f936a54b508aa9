/**
 What a peer never delivers (src/network/peer.cpp:587-657): every delivered frame passed all the
 checks and stood in the stream as it is, and a disconnect means that no frame could have followed.
 */
module Delivery {
  import opened Types
  import opened Formats
  import opened Protocol
  import opened Framing
  import opened Streams
  import Codec

  /** The bytes of a frame. */
  function Shown(f: Frame): seq<Byte>
  {
    ShowHeader(f.header) + f.payload
  }

  ghost predicate AllOk(k: Link, frames: seq<Frame>)
  {
    forall i {:trigger frames[i]} :: 0 <= i < |frames| ==> FrameOk(k, frames[i])
  }

  /** A frame that is taken off the stream is good, and is what the stream starts with. */
  lemma ReadyIsSound(k: Link, b: seq<Byte>, f: Frame)
    requires NextFrame(k, b) == Ready(f)
    ensures FrameOk(k, f) && b == Shown(f) + b[f.Size()..]
  {
    SameHeader(b);
    HeaderIsCanonical(b[..MESSAGE_HEADER_SIZE]);
    assert b == b[..MESSAGE_HEADER_SIZE] + b[MESSAGE_HEADER_SIZE..f.Size()] + b[f.Size()..];
  }

  /** The frames of a stream are good, and together with what is left they are the stream. */
  lemma {:induction false} ParseIsSound(k: Link, b: seq<Byte>)
    ensures AllOk(k, Parse(k, b).frames)
    ensures b == ShowAll(Parse(k, b).frames) + Parse(k, b).rest
    decreases |b|
  {
    if NextFrame(k, b).Ready? {
      var f := NextFrame(k, b).frame;
      var p := Parse(k, b[f.Size()..]);
      ReadyIsSound(k, b, f);
      ParseIsSound(k, b[f.Size()..]);
      assert Parse(k, b).frames[1..] == p.frames;
      assert Shown(f) + (ShowAll(p.frames) + p.rest) == (Shown(f) + ShowAll(p.frames)) + p.rest;
    } else {
      assert [] + b == b;
    }
  }

  // ---------- when a peer is disconnected ----------

  /** All that can be said of a frame before its payload is known. */
  ghost predicate Promised(k: Link, f: Frame)
  {
    && f.header.magic == k.magic && |f.header.command| == 12 && IsCommand(f.header.command)
    && |f.header.checksum| == 4 && f.header.length == |f.payload| <= MAX_PROTOCOL_MESSAGE_LENGTH
    && (f.payload == [] ==> f.header.command == Padded("verack") || f.header.command == Padded("getaddr"))
  }

  /** One starts with the other. */
  predicate Agree(x: seq<Byte>, y: seq<Byte>)
  {
    x <= y || y <= x
  }

  /** f may stand at the front of b: they agree as far as both go, and where b holds all of f, the checksum is right. */
  ghost predicate MayBe(k: Link, f: Frame, b: seq<Byte>)
  {
    && Promised(k, f) && Agree(Shown(f), b)
    && (|Shown(f)| <= |b| ==> k.checksum(f.payload) == f.header.checksum)
  }

  lemma ShownSize(k: Link, f: Frame)
    requires LinkOk(k) && Promised(k, f)
    ensures |ShowHeader(f.header)| == 24 && |Shown(f)| == f.Size()
    ensures HeaderIn(Shown(f)) == f.header && HeaderIn(ShowHeader(f.header)) == f.header
  {
    Codec.Limits();
    HeaderRoundTrip(f.header, f.payload);
    HeaderRoundTrip(f.header, []);
    assert ShowHeader(f.header) + [] == ShowHeader(f.header);
  }

  /** Bytes that agree with a frame and hold its header show that header. */
  lemma AgreedHeader(k: Link, f: Frame, b: seq<Byte>)
    requires LinkOk(k) && Promised(k, f) && Agree(Shown(f), b) && |b| >= 24
    ensures HeaderIn(b) == f.header
    ensures |b| >= f.Size() ==> b[24..f.Size()] == f.payload
  {
    ShownSize(k, f);
    SameHeader(b);
    SameHeader(Shown(f));
    assert b[..24] == Shown(f)[..24];
    if |b| >= f.Size() {
      assert b[..f.Size()] == Shown(f);
      assert Shown(f)[24..] == f.payload;
    }
  }

  lemma NoFrameIsBad(k: Link, b: seq<Byte>, f: Frame)
    requires LinkOk(k) && NextFrame(k, b).Bad?
    ensures !MayBe(k, f, b)
  {
    if MayBe(k, f, b) {
      ShownSize(k, f);
      AgreedHeader(k, f, b);
    }
  }

  /** A frame that the waiting receiver may be waiting for. */
  lemma AwaitedFrame(k: Link, b: seq<Byte>) returns (f: Frame)
    requires LinkOk(k) && |b| >= 24 && NextFrame(k, b).NeedMore?
    ensures MayBe(k, f, b)
  {
    var h := HeaderIn(b);
    f := Frame(h, b[24..] + seq(24 + h.length - |b|, i => 0));
    SameHeader(b);
    HeaderIsCanonical(b[..24]);
    assert Shown(f) == b[..24] + f.payload;
    assert Shown(f)[..|b|] == b;
    ShownSize(k, f);
  }

  /** The next bytes are bad exactly when there is a whole header that no frame can have. */
  lemma BadMeansNoFrame(k: Link, b: seq<Byte>)
    requires LinkOk(k)
    ensures NextFrame(k, b).Bad? <==> |b| >= 24 && forall f :: !MayBe(k, f, b)
  {
    match NextFrame(k, b)
    case Bad =>
      forall f ensures !MayBe(k, f, b) {
        NoFrameIsBad(k, b, f);
      }
    case NeedMore =>
      if |b| >= 24 {
        var f := AwaitedFrame(k, b);
      }
    case Ready(f) =>
      ReadyIsSound(k, b, f);
      assert MayBe(k, f, b);
  }

  /** A stream is bad exactly when what is left of it starts with a header that no frame can have. */
  lemma BadExactly(k: Link, b: seq<Byte>)
    requires LinkOk(k)
    ensures Parse(k, b).bad <==> |Parse(k, b).rest| >= 24 && forall f :: !MayBe(k, f, Parse(k, b).rest)
  {
    RestStops(k, b);
    BadMeansNoFrame(k, Parse(k, b).rest);
  }

  /** No good frame is refused: what is left of a bad stream is the start of none. */
  lemma BadIsHopeless(k: Link, b: seq<Byte>, more: seq<Byte>, f: Frame, tail: seq<Byte>)
    requires LinkOk(k) && Parse(k, b).bad && FrameOk(k, f)
    ensures Parse(k, b).rest + more != Shown(f) + tail
  {
    var rest := Parse(k, b).rest;
    assert |k.checksum(f.payload)| == 4;
    if rest + more == Shown(f) + tail {
      assert (rest + more)[..|rest|] == rest && (Shown(f) + tail)[..|Shown(f)|] == Shown(f);
      assert Agree(Shown(f), rest);
      BadExactly(k, b);
      assert MayBe(k, f, rest);
    }
  }

  // ---------- what arrives ----------

  /** Whatever the chunks, only good frames are delivered. */
  lemma {:induction false} OnlyGoodFrames(k: Link, chunks: seq<seq<Byte>>)
    ensures AllOk(k, ReceiveAll(k, chunks).delivered)
    decreases |chunks|
  {
    if chunks != [] {
      var front := chunks[..|chunks| - 1];
      OnlyGoodFrames(k, front);
      ParseIsSound(k, ReceiveAll(k, front).pending + Last(chunks));
    }
  }

  /**
   The delivered frames are good and stand at the front of the stream, one after the other. The peer is
   disconnected exactly when the bytes after them hold a header that no frame can have.
   */
  lemma {:induction false} DeliveredWasSent(k: Link, chunks: seq<seq<Byte>>)
    requires LinkOk(k) && SmallChunks(chunks)
    ensures var c := ReceiveAll(k, chunks);
            && AllOk(k, c.delivered) && ShowAll(c.delivered) <= Concat(chunks)
            && var rest := Concat(chunks)[|ShowAll(c.delivered)|..];
               c.disconnected <==> |rest| >= 24 && forall f :: !MayBe(k, f, rest)
  {
    var stream := Concat(chunks);
    ChunksDoNotMatter(k, chunks);
    ParseIsSound(k, stream);
    BadExactly(k, stream);
    assert stream[|ShowAll(Parse(k, stream).frames)|..] == Parse(k, stream).rest;
  }

  lemma FrontHeader(b: seq<Byte>, rest: seq<Byte>)
    requires |b| >= 24
    ensures HeaderIn(b + rest) == HeaderIn(b)
  {
    SameHeader(b);
    SameHeader(b + rest);
    assert (b + rest)[..24] == b[..24];
  }

  /** A header may promise a payload that does not exist; the receiver waits for it all the same. */
  lemma WaitsForTheImpossible()
    ensures var k := Link(0, (p: seq<Byte>) => [0, 0, 0, 0]);
            var b := ShowHeader(MessageHeader(0, Padded("ping"), 1, [1, 0, 0, 0]));
            && LinkOk(k) && !Parse(k, b).bad
            && forall more: seq<Byte>, f, tail: seq<Byte> :: FrameOk(k, f) ==> b + more != Shown(f) + tail
  {
    var k := Link(0, (p: seq<Byte>) => [0, 0, 0, 0]);
    var h := MessageHeader(0, Padded("ping"), 1, [1, 0, 0, 0]);
    var b := ShowHeader(h);
    Codec.Limits();
    HeaderRoundTrip(h, []);
    assert b + [] == b;
    CommandIsValid(Codec.PING);
    assert NextFrame(k, b).NeedMore?;
    forall more: seq<Byte>, f, tail: seq<Byte> | FrameOk(k, f) ensures b + more != Shown(f) + tail {
      ShownSize(k, f);
      FrontHeader(b, more);
      FrontHeader(Shown(f), tail);
      assert f.header.checksum[0] == 0 && HeaderIn(b + more).checksum[0] == 1;
    }
  }
}
