/** The server's two OnTraffic loops (internal/server/handlers.go): the same framing as StreamBuffer,
    written against the connection's inbound buffer, which is modelled as a byte sequence. */
module Traffic {
  import opened Bytes
  import opened Packet
  import opened Framing
  import opened Control
  import opened ServerFraming
  import opened StreamBuffers

  class Inbound {
    const zero: NextOfNone   // how Next(0) behaves
    var data: seq<Byte>

    constructor (zero: NextOfNone)
      ensures this.zero == zero && data == []
    {
      this.zero := zero;
      data := [];
    }

    method InboundBuffered() returns (n: nat)
      ensures n == |data|
    {
      n := |data|;
    }

    /** The first n bytes without consuming them; None is the short-buffer error. */
    method Peek(n: nat) returns (r: Option<seq<Byte>>)
      ensures r == if n <= |data| then Some(data[..n]) else None
    {
      r := if n <= |data| then Some(data[..n]) else None;
    }

    method Discard(n: nat)
      requires n <= |data|
      modifies this
      ensures data == old(data[n..])
    {
      data := data[n..];
    }

    /** Takes the next n bytes, or for n = 0 however many it takes then; None is the short-buffer error. */
    method Next(n: nat) returns (r: Option<seq<Byte>>)
      modifies this
      ensures n > |old(data)| ==> r == None && data == old(data)
      ensures n <= |old(data)| ==>
                var t := if n > 0 then n else Taken(zero, |old(data)|);
                r == Some(old(data)[..t]) && data == old(data)[t..]
    {
      if n > |data| {
        return None;
      }
      var t := if n > 0 then n else Taken(zero, |data|);
      r := Some(data[..t]);
      data := data[t..];
    }
  }

  /** One turn of the loop body: what the header check decides and what it leaves in the buffer. */
  method TakeFrame(c: Inbound, maxPayload: int) returns (r: Scan)
    modifies c
    ensures r == ScanServer(old(c.data), AtMost(maxPayload), c.zero)
    ensures c.data == match r
                      case NeedMore => old(c.data)
                      case Malformed => []
                      case Got(_, rest) => rest
  {
    var buffered := c.InboundBuffered();
    if buffered < HEADER_SIZE {
      return NeedMore;
    }
    var headerData := c.Peek(HEADER_SIZE);
    var header := DecodeHeader(headerData.value);
    assert header == DecodeHeader(c.data);
    if Validate(header).Some? || header.length > maxPayload {
      c.Discard(buffered);
      return Malformed;
    }
    var totalSize := HEADER_SIZE + header.length;
    if buffered < totalSize {
      return NeedMore;
    }
    c.Discard(HEADER_SIZE);
    var payload := c.Next(header.length);
    r := Got(Frame(header, payload.value), c.data);
  }

  /** UpstreamHandler.OnTraffic after a chunk has arrived: returns the frames handed to
      handleUpstreamPacket, in order (whatever their type). */
  method UpstreamOnTraffic(c: Inbound, chunk: seq<Byte>, maxPayload: int) returns (frames: seq<Frame>)
    modifies c
    ensures Fed(frames, c.data) == FeedServer(old(c.data), chunk, AtMost(maxPayload), c.zero)
  {
    hide ScanServer, ParseServer;
    c.data := c.data + chunk;
    frames := [];
    ghost var all := ParseServer(c.data, AtMost(maxPayload), c.zero);
    ParseServerStep(frames, c.data, AtMost(maxPayload), c.zero);
    while true
      invariant var p := ParseServer(c.data, AtMost(maxPayload), c.zero); all == p.(frames := frames + p.frames)
      decreases |c.data|
    {
      ParseServerStep(frames, c.data, AtMost(maxPayload), c.zero);
      var step := TakeFrame(c, maxPayload);
      if !step.Got? {
        break;
      }
      frames := frames + [step.frame];
    }
  }

  /** What DownstreamHandler makes of one frame: the lane control message in it, if there is a valid one. */
  function Controls(frames: seq<Frame>): seq<LaneControl> {
    if |frames| == 0 then []
    else
      var init := Controls(frames[..|frames| - 1]);
      var last := frames[|frames| - 1];
      if last.header.kind != TYPE_CONTROL || Unmarshal(last.payload).Err? then init
      else init + [Unmarshal(last.payload).value]
  }

  lemma NoControls()
    ensures Controls([]) == []
  {
  }

  lemma ControlsSnoc(frames: seq<Frame>, f: Frame)
    ensures Controls(frames + [f])
         == Controls(frames)
            + if f.header.kind == TYPE_CONTROL && Unmarshal(f.payload).Ok? then [Unmarshal(f.payload).value] else []
  {
    assert (frames + [f])[..|frames|] == frames;
  }

  /** DownstreamHandler.OnTraffic: returns the messages handed to handleLaneControl, in order. */
  method DownstreamOnTraffic(c: Inbound, chunk: seq<Byte>) returns (controls: seq<LaneControl>)
    modifies c
    ensures var fed := FeedServer(old(c.data), chunk, AtMost(MAX_DOWNSTREAM_CONTROL), c.zero);
            controls == Controls(fed.frames) && c.data == fed.rest
  {
    hide ScanServer, ParseServer, Unmarshal, Controls;
    NoControls();
    c.data := c.data + chunk;
    controls := [];
    ghost var frames := [];
    ghost var all := ParseServer(c.data, AtMost(MAX_DOWNSTREAM_CONTROL), c.zero);
    ParseServerStep(frames, c.data, AtMost(MAX_DOWNSTREAM_CONTROL), c.zero);
    while true
      invariant controls == Controls(frames)
      invariant var p := ParseServer(c.data, AtMost(MAX_DOWNSTREAM_CONTROL), c.zero);
                all == p.(frames := frames + p.frames)
      decreases |c.data|
    {
      ParseServerStep(frames, c.data, AtMost(MAX_DOWNSTREAM_CONTROL), c.zero);
      var step := TakeFrame(c, MAX_DOWNSTREAM_CONTROL);
      if !step.Got? {
        break;
      }
      ControlsSnoc(frames, step.frame);
      frames := frames + [step.frame];
      if step.frame.header.kind == TYPE_CONTROL {
        var ctrl := UnmarshalLaneControl(step.frame.payload);
        if ctrl.Ok? {
          controls := controls + [ctrl.value];
        }
      }
    }
  }

  /** Every read of an upstream connection, in order. */
  method UpstreamReadAll(c: Inbound, chunks: seq<seq<Byte>>, maxPayload: int) returns (frames: seq<Frame>)
    requires c.data == []
    modifies c
    ensures Fed(frames, c.data) == FeedAllServer([], chunks, AtMost(maxPayload), c.zero)
  {
    hide FeedServer;
    frames := [];
    var i := 0;
    while i < |chunks|
      invariant 0 <= i <= |chunks|
      invariant Fed(frames, c.data) == FeedAllServer([], chunks[..i], AtMost(maxPayload), c.zero)
    {
      var more := UpstreamOnTraffic(c, chunks[i], maxPayload);
      assert chunks[..i + 1][..i] == chunks[..i];
      frames := frames + more;
      i := i + 1;
    }
    assert chunks[..i] == chunks;
  }

  /** The two implementations on one list of reads, with the same limit n. For n > 0 they take the same frames
      and leave the same bytes unread, unless Next(0) swallows something; for n < 0 the server takes no frame at
      all, and for n = 0 only those of length 0, while StreamBuffer takes every well-formed one. */
  method ReadBoth(b: StreamBuffer, c: Inbound, chunks: seq<seq<Byte>>, spares: nat -> nat, n: int)
    returns (client: seq<Frame>, server: seq<Frame>)
    requires b.Valid() && b.Unread() == [] && b.maxPayload == n && c.data == []
    modifies b, b.buf, c
    ensures b.Valid()
    ensures Fed(client, b.Unread()) == FeedAll([], chunks, StreamBufferLimit(n))
    ensures Fed(server, c.data) == FeedAllServer([], chunks, AtMost(n), c.zero)
    ensures n > 0 && Solid(client, c.zero) ==> server == client && c.data == b.Unread()
    ensures forall i :: 0 <= i < |server| ==> server[i].header.length <= n
  {
    var taken, _ := ReadAll(b, chunks, spares);
    client := taken;
    ghost var unread := b.Unread();
    server := UpstreamReadAll(c, chunks, n);
    assert b.Unread() == unread;
    if n > 0 && Solid(client, c.zero) {
      SolidFeeds([], chunks, AtMost(n), c.zero);
    }
    ServerFramesWithin(chunks, n, c.zero);
  }

  lemma {:induction false} ServerFramesWithin(chunks: seq<seq<Byte>>, n: int, zero: NextOfNone)
    ensures forall f :: f in FeedAllServer([], chunks, AtMost(n), zero).frames ==> f.header.length <= n
  {
    if |chunks| > 0 {
      ServerFramesWithin(chunks[..|chunks| - 1], n, zero);
      var before := FeedAllServer([], chunks[..|chunks| - 1], AtMost(n), zero);
      ParsedWithin(before.rest + chunks[|chunks| - 1], n, zero);
    }
  }

  lemma {:induction false} ParsedWithin(s: seq<Byte>, n: int, zero: NextOfNone)
    ensures forall f :: f in ParseServer(s, AtMost(n), zero).frames ==> f.header.length <= n
    decreases |s|
  {
    var scan := ScanServer(s, AtMost(n), zero);
    if scan.Got? {
      ScanServerShrinks(s, AtMost(n), zero);
      ParsedWithin(scan.rest, n, zero);
    }
  }
}
