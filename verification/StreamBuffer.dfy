/** The client's framing buffer (internal/protocol/stream.go): one backing array, a read offset,
    compaction before growth, and frames handed out as views into the array. */
module StreamBuffers {
  import opened Bytes
  import opened Packet
  import opened Framing

  /** A Go slice: array cells lo..hi. */
  datatype View = View(cells: array<Byte>, lo: nat, hi: nat) {
    predicate InBounds() {
      lo <= hi <= cells.Length
    }

    function Content(): seq<Byte>
      requires InBounds()
      reads cells
    {
      cells[lo..hi]
    }
  }

  datatype NextResult = Nothing | Bad | Ready(header: Header, payload: View)

  lemma SameHeader(s: seq<Byte>, t: seq<Byte>)
    requires HEADER_SIZE <= |s| && s <= t
    ensures DecodeHeader(s) == DecodeHeader(t)
  {
  }

  class StreamBuffer {
    var buf: array<Byte>   // the backing array; its length is the slice's capacity
    var len: nat           // length of the slice
    var off: nat           // read offset
    const maxPayload: int

    ghost predicate Valid()
      reads this
    {
      off <= len <= buf.Length
    }

    /** The bytes written and not yet consumed. */
    ghost function Unread(): seq<Byte>
      requires Valid()
      reads this, buf
    {
      buf[off..len]
    }

    function Limits(): Limit {
      StreamBufferLimit(maxPayload)
    }

    constructor (capacity: int, maxPayload: int)
      ensures Valid() && fresh(buf)
      ensures this.maxPayload == maxPayload && Unread() == []
    {
      var cells := if capacity < HEADER_SIZE then HEADER_SIZE else capacity;
      buf := new Byte[cells](_ => 0);
      len, off := 0, 0;
      this.maxPayload := maxPayload;
    }

    /** Appends p. spare is the extra capacity the runtime's append chooses when it has to reallocate. */
    method Write(p: seq<Byte>, spare: nat)
      requires Valid()
      modifies this, buf
      ensures Valid() && (buf == old(buf) || fresh(buf))
      ensures Unread() == old(Unread()) + p
    {
      if off > 0 && len + |p| > buf.Length {
        Compact();
      }
      if len + |p| > buf.Length {
        Grow(len + |p| + spare);
      }
      PutBytes(buf, len, p);
      len := len + |p|;
    }

    /** Moves the unread bytes to the front of the array. */
    method Compact()
      requires Valid()
      modifies this, buf
      ensures Valid() && buf == old(buf) && off == 0
      ensures Unread() == old(Unread())
    {
      var n := len - off;
      var i := 0;
      while i < n
        invariant 0 <= i <= n
        invariant buf[..i] == old(buf[off..off + i])
        invariant buf[i..] == old(buf[i..])
        modifies buf
      {
        buf[i] := buf[off + i];
        i := i + 1;
      }
      len, off := n, 0;
    }

    /** Moves the slice to a fresh, larger array. */
    method Grow(capacity: nat)
      requires Valid() && len <= capacity
      modifies this
      ensures Valid() && fresh(buf) && buf.Length == capacity
      ensures len == old(len) && off == old(off)
      ensures Unread() == old(Unread())
    {
      var cells := new Byte[capacity](_ => 0);
      var i := 0;
      while i < len
        invariant 0 <= i <= len
        invariant cells[..i] == buf[..i]
        modifies cells
      {
        cells[i] := buf[i];
        i := i + 1;
      }
      ghost var was := buf;
      assert cells[off..len] == cells[..len][off..];
      assert was[off..len] == was[..len][off..];
      buf := cells;
    }

    method Len() returns (n: nat)
      requires Valid()
      ensures n == |Unread()|
    {
      n := len - off;
    }

    method Reset()
      requires Valid()
      modifies this
      ensures Valid() && buf == old(buf) && Unread() == []
    {
      len, off := 0, 0;
    }

    /** Takes the next frame off the buffer. It never writes the array, so the view it returns keeps
        its bytes through further calls of NextRef and Reset. */
    method NextRef() returns (r: NextResult)
      requires Valid()
      modifies this
      ensures Valid() && buf == old(buf)
      ensures match ScanFrame(old(Unread()), Limits())
              case NeedMore => r == Nothing && Unread() == old(Unread())
              case Malformed => r == Bad && Unread() == old(Unread())
              case Got(frame, rest) =>
                && r.Ready? && r.payload.cells == buf && r.payload.InBounds()
                && r.header == frame.header && r.payload.Content() == frame.payload
                && Unread() == rest
    {
      hide GetU32, GetU16;
      ghost var unread := Unread();
      if len - off < HEADER_SIZE {
        return Nothing;
      }
      var header := DecodeHeader(buf[off..off + HEADER_SIZE]);
      SameHeader(buf[off..off + HEADER_SIZE], unread);
      if Validate(header).Some? {
        return Bad;
      }
      if maxPayload > 0 && header.length > maxPayload {
        return Bad;
      }
      var totalLen := HEADER_SIZE + header.length;
      if len - off < totalLen {
        return Nothing;
      }
      assert buf[off + HEADER_SIZE..off + totalLen] == unread[HEADER_SIZE..totalLen];
      r := Ready(header, View(buf, off + HEADER_SIZE, off + totalLen));
      assert buf[off + totalLen..len] == unread[totalLen..];
      off := off + totalLen;
      if off == len {
        Reset();
      }
    }

    /** Next: the same frame, with the payload copied to an array of its own. */
    method Next() returns (r: NextResult)
      requires Valid()
      modifies this
      ensures Valid() && buf == old(buf)
      ensures match ScanFrame(old(Unread()), Limits())
              case NeedMore => r == Nothing && Unread() == old(Unread())
              case Malformed => r == Bad && Unread() == old(Unread())
              case Got(frame, rest) =>
                && r.Ready? && fresh(r.payload.cells) && r.payload.InBounds()
                && r.header == frame.header && r.payload.Content() == frame.payload
                && Unread() == rest
    {
      r := NextRef();
      if r.Ready? {
        var size := r.payload.hi - r.payload.lo;
        var copy := new Byte[size](_ => 0);
        PutBytes(copy, 0, r.payload.Content());
        r := Ready(r.header, View(copy, 0, size));
      }
    }
  }

  /** The frames handleDownstream passes on: all but control frames. */
  function Deliverable(frames: seq<Frame>): seq<Frame> {
    if |frames| == 0 then []
    else
      var init := Deliverable(frames[..|frames| - 1]);
      var last := frames[|frames| - 1];
      if last.header.kind == TYPE_CONTROL then init else init + [last]
  }

  lemma {:induction false} DeliverableAppend(a: seq<Frame>, b: seq<Frame>)
    ensures Deliverable(a + b) == Deliverable(a) + Deliverable(b)
  {
    if |b| == 0 {
      assert a + b == a;
    } else {
      DeliverableAppend(a, b[..|b| - 1]);
      assert (a + b)[..|a + b| - 1] == a + b[..|b| - 1];
    }
  }

  /** The inner loop of handleDownstream after one read: frames are taken until data runs out, control
      frames are skipped, a bad header resets the buffer. Returns the frames NextRef gave and those of them
      that are passed on, in order. */
  method ReadAndDrain(b: StreamBuffer, chunk: seq<Byte>, spare: nat) returns (taken: seq<Frame>, delivered: seq<Frame>)
    requires b.Valid()
    modifies b, b.buf
    ensures b.Valid() && (b.buf == old(b.buf) || fresh(b.buf))
    ensures Fed(taken, b.Unread()) == Feed(old(b.Unread()), chunk, b.Limits())
    ensures delivered == Deliverable(taken)
  {
    hide ScanFrame;
    b.Write(chunk, spare);
    taken, delivered := [], [];
    ghost var all := Parse(b.Unread(), b.Limits());
    ParseStep(taken, b.Unread(), b.Limits());
    while true
      invariant b.Valid() && (b.buf == old(b.buf) || fresh(b.buf))
      invariant delivered == Deliverable(taken)
      invariant var p := Parse(b.Unread(), b.Limits()); all == p.(frames := taken + p.frames)
      decreases |b.Unread()|
      modifies b
    {
      ParseStep(taken, b.Unread(), b.Limits());
      var r := b.NextRef();
      match r {
        case Bad =>
          b.Reset();
          break;
        case Nothing =>
          break;
        case Ready(header, payload) =>
          var frame := Frame(header, payload.Content());
          assert (taken + [frame])[..|taken|] == taken;
          taken := taken + [frame];
          if header.kind != TYPE_CONTROL {
            delivered := delivered + [frame];
          }
      }
    }
  }

  /** Every read of a connection, in order. */
  method ReadAll(b: StreamBuffer, chunks: seq<seq<Byte>>, spares: nat -> nat)
    returns (taken: seq<Frame>, delivered: seq<Frame>)
    requires b.Valid()
    modifies b, b.buf
    ensures b.Valid()
    ensures Fed(taken, b.Unread()) == FeedAll(old(b.Unread()), chunks, b.Limits())
    ensures delivered == Deliverable(taken)
  {
    hide ScanFrame, Parse, Deliverable;
    taken, delivered := [], [];
    NothingDeliverable();
    var i := 0;
    while i < |chunks|
      invariant 0 <= i <= |chunks|
      invariant b.Valid() && (b.buf == old(b.buf) || fresh(b.buf))
      invariant Fed(taken, b.Unread()) == FeedAll(old(b.Unread()), chunks[..i], b.Limits())
      invariant delivered == Deliverable(taken)
    {
      var more, passed := ReadAndDrain(b, chunks[i], spares(i));
      FeedAllSnoc(old(b.Unread()), chunks[..i], chunks[i], b.Limits());
      assert chunks[..i + 1] == chunks[..i] + [chunks[i]];
      DeliverableAppend(taken, more);
      taken, delivered := taken + more, delivered + passed;
      i := i + 1;
    }
    assert chunks[..i] == chunks;
  }

  lemma NothingDeliverable()
    ensures Deliverable([]) == []
  {
  }
}
