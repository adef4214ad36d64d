/** Cutting a TCP byte stream into frames: the pure parser both ends implement, what it means,
    and why the way TCP splits the stream does not matter. */
module Framing {
  import opened Bytes
  import opened Packet

  /** A payload limit. StreamBuffer applies none when its maxPayload is not positive; the server's
      OnTraffic loops always apply theirs. */
  datatype Limit = NoLimit | AtMost(n: int)

  predicate Within(limit: Limit, length: U32) {
    limit.AtMost? ==> length <= limit.n
  }

  function StreamBufferLimit(maxPayload: int): Limit {
    if maxPayload > 0 then AtMost(maxPayload) else NoLimit
  }

  const MAX_DOWNSTREAM_CONTROL: nat := 64 * 1024

  predicate GoodHeader(h: Header, limit: Limit) {
    Validate(h) == None && Within(limit, h.length)
  }

  datatype Scan = NeedMore | Malformed | Got(frame: Frame, rest: seq<Byte>)

  /** One attempt to take a frame off the front of the buffered bytes. */
  function ScanFrame(s: seq<Byte>, limit: Limit): Scan {
    if |s| < HEADER_SIZE then NeedMore
    else
      var h := DecodeHeader(s);
      if !GoodHeader(h, limit) then Malformed
      else if |s| < HEADER_SIZE + h.length then NeedMore
      else Got(Frame(h, s[HEADER_SIZE..HEADER_SIZE + h.length]), s[HEADER_SIZE + h.length..])
  }

  datatype Parsed = Parsed(frames: seq<Frame>, rest: seq<Byte>, malformed: bool)

  /** All frames up to the end of the data or to the first bad header. */
  function Parse(s: seq<Byte>, limit: Limit): Parsed
    decreases |s|
  {
    match ScanFrame(s, limit)
    case NeedMore => Parsed([], s, false)
    case Malformed => Parsed([], s, true)
    case Got(f, rest) => var p := Parse(rest, limit); p.(frames := [f] + p.frames)
  }

  // What parsing means, said without the parser.

  predicate Acceptable(f: Frame, limit: Limit) {
    GoodHeader(f.header, limit) && f.header.length == |f.payload|
  }

  predicate AllAcceptable(fs: seq<Frame>, limit: Limit) {
    forall i :: 0 <= i < |fs| ==> Acceptable(fs[i], limit)
  }

  /** The bytes hold no complete frame yet and nothing wrong so far. */
  predicate Incomplete(s: seq<Byte>, limit: Limit) {
    |s| < HEADER_SIZE
    || (GoodHeader(DecodeHeader(s), limit) && |s| < HEADER_SIZE + DecodeHeader(s).length)
  }

  predicate StartsBadly(s: seq<Byte>, limit: Limit) {
    |s| >= HEADER_SIZE && !GoodHeader(DecodeHeader(s), limit)
  }

  lemma ScanOfFrame(f: Frame, rest: seq<Byte>, limit: Limit)
    requires Acceptable(f, limit)
    ensures ScanFrame(EncodeFrame(f) + rest, limit) == Got(f, rest)
  {
    var s := EncodeFrame(f) + rest;
    assert s == EncodeHeader(f.header) + (f.payload + rest);
    HeaderRoundTrip(f.header, f.payload + rest);
    assert s[HEADER_SIZE..HEADER_SIZE + |f.payload|] == f.payload;
    assert s[HEADER_SIZE + |f.payload|..] == rest;
  }

  lemma ScanOfOversized(f: Frame, rest: seq<Byte>, limit: Limit)
    requires !Within(limit, f.header.length)
    ensures ScanFrame(EncodeFrame(f) + rest, limit) == Malformed
  {
    var s := EncodeFrame(f) + rest;
    assert s == EncodeHeader(f.header) + (f.payload + rest);
    HeaderRoundTrip(f.header, f.payload + rest);
  }

  lemma ScanGot(s: seq<Byte>, limit: Limit)
    requires ScanFrame(s, limit).Got?
    ensures var g := ScanFrame(s, limit); s == EncodeFrame(g.frame) + g.rest && Acceptable(g.frame, limit)
    ensures |ScanFrame(s, limit).rest| < |s|
  {
    var h := DecodeHeader(s);
    HeaderRoundTripBack(s);
    var n := HEADER_SIZE + h.length;
    assert s == s[..HEADER_SIZE] + s[HEADER_SIZE..n] + s[n..];
  }

  lemma ScanStuck(s: seq<Byte>, limit: Limit)
    ensures ScanFrame(s, limit).NeedMore? <==> Incomplete(s, limit)
    ensures ScanFrame(s, limit).Malformed? <==> StartsBadly(s, limit)
  {
  }

  /** The parse is a decomposition of the stream into acceptable frames and a stuck remainder. */
  lemma {:induction false} ParseSound(s: seq<Byte>, limit: Limit)
    ensures var p := Parse(s, limit);
            && s == EncodeFrames(p.frames) + p.rest
            && AllAcceptable(p.frames, limit)
            && (if p.malformed then StartsBadly(p.rest, limit) else Incomplete(p.rest, limit))
    decreases |s|
  {
    hide ScanFrame, EncodeFrame, Acceptable, StartsBadly, Incomplete;
    var scan := ScanFrame(s, limit);
    if scan.Got? {
      ScanGot(s, limit);
      ParseSound(scan.rest, limit);
      var p := Parse(scan.rest, limit);
      assert ([scan.frame] + p.frames)[1..] == p.frames;
      assert s == EncodeFrame(scan.frame) + (EncodeFrames(p.frames) + p.rest);
    } else {
      ScanStuck(s, limit);
      assert s == [] + s;
    }
  }

  lemma ParseOfFrame(f: Frame, tail: seq<Byte>, limit: Limit)
    requires Acceptable(f, limit)
    ensures var p := Parse(tail, limit); Parse(EncodeFrame(f) + tail, limit) == p.(frames := [f] + p.frames)
  {
    ScanOfFrame(f, tail, limit);
    hide ScanFrame;
  }

  lemma ParseStuck(rest: seq<Byte>, limit: Limit)
    requires Incomplete(rest, limit) || StartsBadly(rest, limit)
    ensures Parse(EncodeFrames([]) + rest, limit) == Parsed([], rest, StartsBadly(rest, limit))
  {
    assert EncodeFrames([]) + rest == rest;
  }

  /** It is the only such decomposition, so the parser is determined by the frame format. */
  lemma {:induction false} ParseUnique(fs: seq<Frame>, rest: seq<Byte>, limit: Limit)
    requires AllAcceptable(fs, limit)
    requires Incomplete(rest, limit) || StartsBadly(rest, limit)
    ensures Parse(EncodeFrames(fs) + rest, limit) == Parsed(fs, rest, StartsBadly(rest, limit))
  {
    hide Parse, EncodeFrame, EncodeFrames, Acceptable, Incomplete, StartsBadly;
    if |fs| == 0 {
      ParseStuck(rest, limit);
    } else {
      EncodeFramesCons(fs, rest);
      ParseOfFrame(fs[0], EncodeFrames(fs[1..]) + rest, limit);
      ParseUnique(fs[1..], rest, limit);
      assert [fs[0]] + fs[1..] == fs;
    }
  }

  /** Frame lists round trip: parsing the concatenated encodings returns the list and leaves nothing. */
  lemma FramesRoundTrip(fs: seq<Frame>, limit: Limit)
    requires AllAcceptable(fs, limit)
    ensures Parse(EncodeFrames(fs), limit) == Parsed(fs, [], false)
  {
    ParseUnique(fs, [], limit);
    assert EncodeFrames(fs) + [] == EncodeFrames(fs);
  }

  /** How a loop that collects frames one scan at a time tracks the parse of what it started with. */
  lemma ParseStep(frames: seq<Frame>, s: seq<Byte>, limit: Limit)
    ensures var scan, p := ScanFrame(s, limit), Parse(s, limit);
            if scan.Got? then
              && |scan.rest| < |s|
              && p.rest == Parse(scan.rest, limit).rest && p.malformed == Parse(scan.rest, limit).malformed
              && frames + p.frames == frames + [scan.frame] + Parse(scan.rest, limit).frames
            else
              p == Parsed([], s, scan.Malformed?) && frames + p.frames == frames
  {
    hide ScanFrame;
    if ScanFrame(s, limit).Got? {
      ScanGot(s, limit);
    }
  }

  // Feeding the stream in pieces.

  datatype Fed = Fed(frames: seq<Frame>, rest: seq<Byte>)

  /** One read: append the chunk, take every complete frame; a bad header drops all that is buffered. */
  function Feed(buffered: seq<Byte>, chunk: seq<Byte>, limit: Limit): Fed {
    var p := Parse(buffered + chunk, limit);
    Fed(p.frames, if p.malformed then [] else p.rest)
  }

  function FeedAll(buffered: seq<Byte>, chunks: seq<seq<Byte>>, limit: Limit): Fed
    decreases |chunks|
  {
    if |chunks| == 0 then Fed([], buffered)
    else
      var first := Feed(buffered, chunks[0], limit);
      var others := FeedAll(first.rest, chunks[1..], limit);
      Fed(first.frames + others.frames, others.rest)
  }

  lemma ScanExtended(a: seq<Byte>, b: seq<Byte>, limit: Limit)
    ensures ScanFrame(a, limit).Got? ==> |ScanFrame(a, limit).rest| < |a|
    ensures ScanFrame(a, limit).Malformed? ==> ScanFrame(a + b, limit).Malformed?
    ensures ScanFrame(a, limit).Got? ==>
              ScanFrame(a + b, limit) == Got(ScanFrame(a, limit).frame, ScanFrame(a, limit).rest + b)
  {
    if |a| >= HEADER_SIZE {
      assert DecodeHeader(a + b) == DecodeHeader(a);
      var n := HEADER_SIZE + DecodeHeader(a).length;
      if n <= |a| {
        assert (a + b)[HEADER_SIZE..n] == a[HEADER_SIZE..n];
        assert (a + b)[n..] == a[n..] + b;
      }
    }
  }

  /** Parsing a longer stream continues the parse of a prefix; an error in the prefix stays the first error. */
  lemma {:induction false} ParseExtended(a: seq<Byte>, b: seq<Byte>, limit: Limit)
    ensures var p := Parse(a, limit);
            var q := Parse(p.rest + b, limit);
            if p.malformed then Parse(a + b, limit) == Parsed(p.frames, p.rest + b, true)
            else Parse(a + b, limit) == Parsed(p.frames + q.frames, q.rest, q.malformed)
    decreases |a|
  {
    hide ScanFrame;
    ScanExtended(a, b, limit);
    var scan := ScanFrame(a, limit);
    if scan.Got? {
      ParseExtended(scan.rest, b, limit);
      var p := Parse(scan.rest, limit);
      var q := Parse(p.rest + b, limit);
      assert [scan.frame] + (p.frames + q.frames) == [scan.frame] + p.frames + q.frames;
    } else if scan.NeedMore? {
      assert [] + Parse(a + b, limit).frames == Parse(a + b, limit).frames;
    }
  }

  lemma {:induction false} FeedAllAppend(buffered: seq<Byte>, a: seq<seq<Byte>>, b: seq<seq<Byte>>, limit: Limit)
    ensures var first := FeedAll(buffered, a, limit);
            var second := FeedAll(first.rest, b, limit);
            FeedAll(buffered, a + b, limit) == Fed(first.frames + second.frames, second.rest)
    decreases |a|
  {
    if |a| == 0 {
      assert a + b == b;
      assert [] + FeedAll(buffered, b, limit).frames == FeedAll(buffered, b, limit).frames;
    } else {
      var head := Feed(buffered, a[0], limit);
      assert (a + b)[0] == a[0] && (a + b)[1..] == a[1..] + b;
      FeedAllAppend(head.rest, a[1..], b, limit);
      var first := FeedAll(head.rest, a[1..], limit);
      var second := FeedAll(first.rest, b, limit);
      assert head.frames + (first.frames + second.frames) == head.frames + first.frames + second.frames;
    }
  }

  lemma FeedAllSnoc(buffered: seq<Byte>, chunks: seq<seq<Byte>>, chunk: seq<Byte>, limit: Limit)
    ensures var before := FeedAll(buffered, chunks, limit);
            var last := Feed(before.rest, chunk, limit);
            FeedAll(buffered, chunks + [chunk], limit) == Fed(before.frames + last.frames, last.rest)
  {
    var before := FeedAll(buffered, chunks, limit);
    FeedAllAppend(buffered, chunks, [chunk], limit);
    assert FeedAll(before.rest, [chunk], limit).frames == Feed(before.rest, chunk, limit).frames + [];
  }

  /** No bad header anywhere: for every split of the stream into reads the frames and the unread
      bytes are those of one parse of the whole stream. */
  lemma {:induction false} ChunkingIrrelevant(buffered: seq<Byte>, chunks: seq<seq<Byte>>, limit: Limit)
    requires Incomplete(buffered, limit)
    requires !Parse(buffered + Flatten(chunks), limit).malformed
    ensures var p := Parse(buffered + Flatten(chunks), limit);
            FeedAll(buffered, chunks, limit) == Fed(p.frames, p.rest)
    decreases |chunks|
  {
    if |chunks| == 0 {
      assert buffered + Flatten(chunks) == buffered;
    } else {
      var now := buffered + chunks[0];
      var later := Flatten(chunks[1..]);
      assert buffered + Flatten(chunks) == now + later;
      ParseExtended(now, later, limit);
      ParseSound(now, limit);
      ChunkingIrrelevant(Parse(now, limit).rest, chunks[1..], limit);
    }
  }

  /** A bad header somewhere: some read is the first to expose it. Up to and including that read the
      frames are those before the bad header in the whole stream, the buffer is then empty, and
      parsing starts afresh with the next read. */
  lemma {:induction false} ChunkingUpToError(buffered: seq<Byte>, chunks: seq<seq<Byte>>, limit: Limit)
    returns (k: nat)
    requires Incomplete(buffered, limit)
    requires Parse(buffered + Flatten(chunks), limit).malformed
    ensures k < |chunks|
    ensures !Parse(buffered + Flatten(chunks[..k]), limit).malformed
    ensures Parse(buffered + Flatten(chunks[..k + 1]), limit).malformed
    ensures FeedAll(buffered, chunks[..k + 1], limit) == Fed(Parse(buffered + Flatten(chunks), limit).frames, [])
    ensures var again := FeedAll([], chunks[k + 1..], limit);
            FeedAll(buffered, chunks, limit)
            == Fed(Parse(buffered + Flatten(chunks), limit).frames + again.frames, again.rest)
    decreases |chunks|
  {
    hide ScanFrame, Parse;
    k := FirstBadRead(buffered, chunks, limit);
    assert chunks == chunks[..k + 1] + chunks[k + 1..];
    FeedAllAppend(buffered, chunks[..k + 1], chunks[k + 1..], limit);
  }

  lemma NothingBad(s: seq<Byte>, limit: Limit)
    requires Incomplete(s, limit)
    ensures !Parse(s, limit).malformed
  {
  }

  lemma {:induction false} FirstBadRead(buffered: seq<Byte>, chunks: seq<seq<Byte>>, limit: Limit)
    returns (k: nat)
    requires Incomplete(buffered, limit)
    requires Parse(buffered + Flatten(chunks), limit).malformed
    ensures k < |chunks|
    ensures !Parse(buffered + Flatten(chunks[..k]), limit).malformed
    ensures Parse(buffered + Flatten(chunks[..k + 1]), limit).malformed
    ensures FeedAll(buffered, chunks[..k + 1], limit) == Fed(Parse(buffered + Flatten(chunks), limit).frames, [])
    decreases |chunks|
  {
    hide ScanFrame, Incomplete, StartsBadly;
    NothingBad(buffered, limit);
    assert |chunks| == 0 ==> buffered + Flatten(chunks) == buffered;
    var now := buffered + chunks[0];
    var later := Flatten(chunks[1..]);
    assert buffered + Flatten(chunks) == now + later;
    ParseExtended(now, later, limit);
    if Parse(now, limit).malformed {
      k := 0;
      assert chunks[..1] == [chunks[0]] && Flatten(chunks[..1]) == chunks[0] + [];
      assert buffered + Flatten(chunks[..0]) == buffered;
      assert now == buffered + Flatten(chunks[..1]);
      var f := Feed(buffered, chunks[0], limit);
      assert FeedAll(buffered, chunks[..1], limit) == Fed(f.frames + [], []);
    } else {
      ParseSound(now, limit);
      var p := Parse(now, limit);
      var j := FirstBadRead(p.rest, chunks[1..], limit);
      k := j + 1;
      PrefixAfterFirst(buffered, chunks, j, limit);
      PrefixAfterFirst(buffered, chunks, j + 1, limit);
      assert chunks[..k + 1][1..] == chunks[1..][..k];
    }
  }

  lemma PrefixAfterFirst(buffered: seq<Byte>, chunks: seq<seq<Byte>>, j: nat, limit: Limit)
    requires j < |chunks|
    requires !Parse(buffered + chunks[0], limit).malformed
    ensures Parse(buffered + Flatten(chunks[..j + 1]), limit).malformed
         == Parse(Parse(buffered + chunks[0], limit).rest + Flatten(chunks[1..][..j]), limit).malformed
  {
    assert chunks[..j + 1][1..] == chunks[1..][..j];
    var more := Flatten(chunks[1..][..j]);
    assert buffered + Flatten(chunks[..j + 1]) == buffered + chunks[0] + more;
    ParseExtended(buffered + chunks[0], more, limit);
  }

  lemma SingleRead(s: seq<Byte>, limit: Limit)
    ensures var fed, scan := FeedAll([], [s], limit), ScanFrame(s, limit);
            if scan.Got? then |fed.frames| > 0 && fed.frames[0] == scan.frame else fed.frames == []
  {
    hide ScanFrame;
    assert [] + s == s;
  }
}
