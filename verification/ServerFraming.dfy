/** The framing of the server's OnTraffic loops. They take a frame's payload with gnet's Next, whose treatment of
    a request for no bytes is not part of this repository; here it is an input, and this module says when the
    loops cut the stream as the pure parser does. */
module ServerFraming {
  import opened Bytes
  import opened Packet
  import opened Framing
  import Control

  /** How many bytes Next(0) takes, given how many are buffered. */
  type NextOfNone = nat -> nat

  function Taken(zero: NextOfNone, buffered: nat): (t: nat)
    ensures t <= buffered
  {
    if zero(buffered) <= buffered then zero(buffered) else buffered
  }

  ghost predicate TakesNothing(zero: NextOfNone) {
    forall buffered: nat :: Taken(zero, buffered) == 0
  }

  /** One turn of the loop: an empty payload is asked for with Next(0). */
  function ScanServer(s: seq<Byte>, limit: Limit, zero: NextOfNone): Scan {
    match ScanFrame(s, limit)
    case Got(f, rest) =>
      if f.header.length > 0 then Got(f, rest)
      else
        var t := Taken(zero, |rest|);
        Got(Frame(f.header, rest[..t]), rest[t..])
    case stuck => stuck
  }

  lemma ScanServerShrinks(s: seq<Byte>, limit: Limit, zero: NextOfNone)
    requires ScanServer(s, limit, zero).Got?
    ensures |ScanServer(s, limit, zero).rest| < |s|
  {
    ScanGot(s, limit);
  }

  function ParseServer(s: seq<Byte>, limit: Limit, zero: NextOfNone): Parsed
    decreases |s|
  {
    match ScanServer(s, limit, zero)
    case NeedMore => Parsed([], s, false)
    case Malformed => Parsed([], s, true)
    case Got(f, rest) => var p := ParseServer(rest, limit, zero); p.(frames := [f] + p.frames)
  }

  function FeedServer(buffered: seq<Byte>, chunk: seq<Byte>, limit: Limit, zero: NextOfNone): Fed {
    var p := ParseServer(buffered + chunk, limit, zero);
    Fed(p.frames, if p.malformed then [] else p.rest)
  }

  function FeedAllServer(buffered: seq<Byte>, chunks: seq<seq<Byte>>, limit: Limit, zero: NextOfNone): Fed {
    if |chunks| == 0 then Fed([], buffered)
    else
      var before := FeedAllServer(buffered, chunks[..|chunks| - 1], limit, zero);
      var last := FeedServer(before.rest, chunks[|chunks| - 1], limit, zero);
      Fed(before.frames + last.frames, last.rest)
  }

  /** How a loop that collects frames one turn at a time tracks the parse of what it started with. */
  lemma ParseServerStep(frames: seq<Frame>, s: seq<Byte>, limit: Limit, zero: NextOfNone)
    ensures var scan, p := ScanServer(s, limit, zero), ParseServer(s, limit, zero);
            if scan.Got? then
              var q := ParseServer(scan.rest, limit, zero);
              && |scan.rest| < |s| && p.rest == q.rest && p.malformed == q.malformed
              && frames + p.frames == frames + [scan.frame] + q.frames
            else
              p == Parsed([], s, scan.Malformed?) && frames + p.frames == frames
  {
    hide ScanServer;
    if ScanServer(s, limit, zero).Got? {
      ScanServerShrinks(s, limit, zero);
    }
  }

  // Agreement with the pure parser.

  /** Behind every empty frame of the parse there is nothing, or Next(0) leaves it alone. */
  ghost predicate Undisturbed(p: Parsed, zero: NextOfNone) {
    forall i :: 0 <= i < |p.frames| && p.frames[i].payload == [] ==>
      Taken(zero, |EncodeFrames(p.frames[i + 1..]) + p.rest|) == 0
  }

  lemma UndisturbedCons(f: Frame, p: Parsed, zero: NextOfNone)
    ensures Undisturbed(p.(frames := [f] + p.frames), zero) <==>
            && (f.payload == [] ==> Taken(zero, |EncodeFrames(p.frames) + p.rest|) == 0)
            && Undisturbed(p, zero)
  {
    hide EncodeFrames;
    var q := p.(frames := [f] + p.frames);
    assert forall i :: 0 <= i <= |p.frames| ==> q.frames[i + 1..] == p.frames[i..];
    assert q.frames[0] == f && q.frames[0 + 1..] == p.frames;
    if Undisturbed(q, zero) {
      forall i | 0 <= i < |p.frames| && p.frames[i].payload == []
        ensures Taken(zero, |EncodeFrames(p.frames[i + 1..]) + p.rest|) == 0
      {
        assert q.frames[i + 1].payload == [];
      }
    }
  }

  /** The loop finds the frames and the residue of the pure parser exactly when Next(0) takes nothing behind
      the parser's empty frames. */
  lemma {:induction false} ServerParsesExactly(s: seq<Byte>, limit: Limit, zero: NextOfNone)
    ensures ParseServer(s, limit, zero) == Parse(s, limit) <==> Undisturbed(Parse(s, limit), zero)
    decreases |s|
  {
    hide ScanFrame, EncodeFrames, EncodeFrame, Undisturbed, Acceptable;
    var scan := ScanFrame(s, limit);
    if scan.Got? {
      ScanGot(s, limit);
      var f, p := scan.frame, Parse(scan.rest, limit);
      GotLength(s, limit);
      ParseSound(scan.rest, limit);
      UndisturbedCons(f, p, zero);
      if f.payload != [] || Taken(zero, |scan.rest|) == 0 {
        assert scan.rest[..0] == [] && scan.rest[0..] == scan.rest;
        ServerParsesExactly(scan.rest, limit, zero);
        var q := ParseServer(scan.rest, limit, zero);
        assert ([f] + q.frames)[1..] == q.frames && ([f] + p.frames)[1..] == p.frames;
      } else {
        var t := Taken(zero, |scan.rest|);
        assert ParseServer(s, limit, zero).frames[0] == Frame(f.header, scan.rest[..t]);
        assert |scan.rest[..t]| == t;
      }
    } else {
      NothingDisturbed(s, zero, scan.Malformed?);
    }
  }

  lemma GotLength(s: seq<Byte>, limit: Limit)
    requires ScanFrame(s, limit).Got?
    ensures var f := ScanFrame(s, limit).frame; f.header.length == |f.payload|
  {
  }

  lemma NothingDisturbed(s: seq<Byte>, zero: NextOfNone, malformed: bool)
    ensures Undisturbed(Parsed([], s, malformed), zero)
  {
  }

  /** Next(0) takes nothing, or is never called for these frames. */
  ghost predicate Solid(frames: seq<Frame>, zero: NextOfNone) {
    TakesNothing(zero) || forall i :: 0 <= i < |frames| ==> frames[i].payload != []
  }

  lemma SolidAgrees(s: seq<Byte>, limit: Limit, zero: NextOfNone)
    requires Solid(Parse(s, limit).frames, zero)
    ensures ParseServer(s, limit, zero) == Parse(s, limit)
  {
    hide Parse, ParseServer, EncodeFrames;
    ServerParsesExactly(s, limit, zero);
  }

  lemma {:induction false} SolidFeeds(buffered: seq<Byte>, chunks: seq<seq<Byte>>, limit: Limit, zero: NextOfNone)
    requires Solid(FeedAll(buffered, chunks, limit).frames, zero)
    ensures FeedAllServer(buffered, chunks, limit, zero) == FeedAll(buffered, chunks, limit)
    decreases |chunks|
  {
    if |chunks| > 0 {
      hide Parse, ParseServer, TakesNothing;
      var init, last := chunks[..|chunks| - 1], chunks[|chunks| - 1];
      assert chunks == init + [last];
      FeedAllSnoc(buffered, init, last, limit);
      var before := FeedAll(buffered, init, limit);
      var now := Feed(before.rest, last, limit);
      SolidParts(before.frames, now.frames, zero);
      SolidFeeds(buffered, init, limit, zero);
      SolidAgrees(before.rest + last, limit, zero);
    }
  }

  lemma SolidParts(a: seq<Frame>, b: seq<Frame>, zero: NextOfNone)
    ensures Solid(a + b, zero) <==> Solid(a, zero) && Solid(b, zero)
  {
    hide TakesNothing;
    if Solid(a + b, zero) && !TakesNothing(zero) {
      forall i | 0 <= i < |a| ensures a[i].payload != [] {
        assert (a + b)[i] == a[i];
      }
      forall i | 0 <= i < |b| ensures b[i].payload != [] {
        assert (a + b)[|a| + i] == b[i];
      }
    }
  }

  // The two ends.

  /** The server's loop with limit n and StreamBuffer with maxPayload n find the same frames and leave the same
      bytes on every list of reads, malformed and oversized input included, exactly when n is positive and
      Next(0) takes nothing: for other n only StreamBuffer accepts frames. */
  lemma FramingsAgree(n: int, zero: NextOfNone)
    ensures (forall chunks: seq<seq<Byte>> ::
               FeedAllServer([], chunks, AtMost(n), zero) == FeedAll([], chunks, StreamBufferLimit(n)))
       <==> n > 0 && TakesNothing(zero)
  {
    hide ScanFrame, EncodeFrame, FeedAll, FeedAllServer, TakesNothing;
    if n > 0 && TakesNothing(zero) {
      forall chunks: seq<seq<Byte>>
        ensures FeedAllServer([], chunks, AtMost(n), zero) == FeedAll([], chunks, StreamBufferLimit(n))
      {
        SolidFeeds([], chunks, AtMost(n), zero);
      }
    } else {
      var s := Disagreement(n, zero);
      assert FeedAllServer([], [s], AtMost(n), zero) != FeedAll([], [s], StreamBufferLimit(n));
    }
  }

  /** For a limit that is not positive, a frame above it; otherwise an empty frame and something to swallow. */
  lemma Disagreement(n: int, zero: NextOfNone) returns (s: seq<Byte>)
    requires n <= 0 || !TakesNothing(zero)
    ensures FeedAllServer([], [s], AtMost(n), zero).frames != FeedAll([], [s], StreamBufferLimit(n)).frames
  {
    hide ScanFrame, EncodeFrame, FeedAll, FeedAllServer, TakesNothing;
    if n <= 0 {
      var f := Frame(DataHeader(1, 1, if n < 0 then 0 else 1), if n < 0 then [] else [7]);
      s := EncodeFrame(f) + [];
      ScanOfFrame(f, [], NoLimit);
      ScanOfOversized(f, [], AtMost(n));
    } else {
      var k := SomeTaken(zero);
      var f, rest := DataFrame(1, 1, []), seq(k, _ => 0 as Byte);
      s := EncodeFrame(f) + rest;
      ScanOfFrame(f, rest, AtMost(n));
      assert |rest[..Taken(zero, k)]| != 0;
    }
    SingleRead(s, StreamBufferLimit(n));
    SingleServerRead(s, AtMost(n), zero);
  }

  lemma SomeTaken(zero: NextOfNone) returns (k: nat)
    requires !TakesNothing(zero)
    ensures Taken(zero, k) > 0
  {
    k :| Taken(zero, k) > 0;
  }

  lemma SingleServerRead(s: seq<Byte>, limit: Limit, zero: NextOfNone)
    ensures var fed, scan := FeedAllServer([], [s], limit, zero), ScanServer(s, limit, zero);
            if scan.Got? then |fed.frames| > 0 && fed.frames[0] == scan.frame else fed.frames == []
  {
    hide ScanServer;
    assert [s][..0] == [] && [] + s == s;
    assert FeedAllServer([], [s][..0], limit, zero) == Fed([], []);
  }

  // The control limit.

  /** A register frame that can be built at all passes the server's 64 KiB limit exactly when it
      carries at most 16382 ids; a larger one makes the server drop everything it has buffered. */
  lemma RegisterLimit(sequence: U32, c: Control.LaneControl, rest: seq<Byte>, zero: NextOfNone)
    requires Control.ControlFrame(sequence, c).Ok?
    ensures var f := Control.ControlFrame(sequence, c).value;
            var scan := ScanServer(EncodeFrame(f) + rest, AtMost(MAX_DOWNSTREAM_CONTROL), zero);
            && (|c.sessions| <= 16382 ==> scan == Got(f, rest) && Control.Unmarshal(f.payload) == Bytes.Ok(c))
            && (|c.sessions| > 16382 ==> scan == Malformed)
  {
    hide Control.Unmarshal, EncodeFrame, Control.EncodePrefix, Control.EncodeIds;
    var f := Control.ControlFrame(sequence, c).value;
    Control.ControlRoundTrip(c);
    assert |f.payload| == 8 + 4 * |c.sessions|;
    if |c.sessions| <= 16382 {
      ScanOfFrame(f, rest, AtMost(MAX_DOWNSTREAM_CONTROL));
    } else {
      ScanOfOversized(f, rest, AtMost(MAX_DOWNSTREAM_CONTROL));
    }
  }
}
