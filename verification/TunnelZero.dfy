/** One fixed behaviour of Next(0): without bytes added by the cipher it must take nothing at all. If it takes
    something with any number of bytes behind an empty frame, a run can put that many bytes there, and order
    is lost: either whole packets are swallowed, or the server reads on from the middle of one. */
module TunnelZero {
  import opened Bytes
  import opened Packet
  import opened Framing
  import opened ServerFraming
  import opened Tunnel
  import opened TunnelSafety
  import opened TunnelLimits

  // Streams of frames with one byte of payload.

  const SIZE: nat := HEADER_SIZE + 1

  /** A data frame of session 0 with one byte of payload. */
  predicate OneByteFrame(f: Frame) {
    f.header == DataHeader(0, f.header.sequence, 1) && |f.payload| == 1
  }

  predicate AllOneByte(fs: seq<Frame>) {
    forall i :: 0 <= i < |fs| ==> OneByteFrame(fs[i])
  }

  /** Where each frame sits in the stream. */
  lemma {:induction false} StreamFrom(fs: seq<Frame>, i: nat)
    requires AllOneByte(fs) && i <= |fs|
    ensures |EncodeFrames(fs)| == SIZE * |fs| && EncodeFrames(fs)[SIZE * i..] == EncodeFrames(fs[i..])
    decreases |fs|
  {
    hide EncodeFrame, OneByteFrame;
    if |fs| == 0 || i == 0 {
      assert fs[i..] == fs && EncodeFrames(fs)[0..] == EncodeFrames(fs);
      if |fs| > 0 {
        FrameSizeIs(fs[0]);
        StreamFrom(fs[1..], 0);
      }
    } else {
      FrameSizeIs(fs[0]);
      StreamFrom(fs[1..], i - 1);
      assert fs[1..][i - 1..] == fs[i..];
      assert EncodeFrames(fs)[SIZE * i..] == EncodeFrames(fs[1..])[SIZE * (i - 1)..];
    }
  }

  lemma StreamByte(fs: seq<Frame>, i: nat, r: nat)
    requires AllOneByte(fs) && i < |fs| && r < SIZE
    ensures |EncodeFrames(fs)| == SIZE * |fs| && |EncodeFrame(fs[i])| == SIZE
    ensures EncodeFrames(fs)[SIZE * i + r] == EncodeFrame(fs[i])[r]
  {
    hide EncodeFrame, EncodeFrames;
    StreamFrom(fs, i);
    FrameSizeIs(fs[i]);
    EncodeFramesCons(fs[i..], []);
    var tail := EncodeFrames(fs[i..]);
    assert tail + [] == tail;
    assert EncodeFrames(fs)[SIZE * i + r] == tail[r];
  }

  lemma FrameSizeIs(f: Frame)
    requires OneByteFrame(f)
    ensures |EncodeFrame(f)| == SIZE
  {
  }

  /** How a header that validates starts. */
  function MagicByte(r: nat): Byte
    requires r < 5
  {
    [0x54, 0x43, 0x50, 0x50, 1][r]
  }

  /** For every offset into a frame a byte that a header starting there would have wrong. */
  function Wrong(o: nat): nat {
    if o == 12 then 4 else if o == 13 then 3 else if o == 14 then 2 else if o == 15 || o == 20 then 1 else 0
  }

  lemma WrongByte(f: Frame, o: nat)
    requires OneByteFrame(f) && 1 <= o < HEADER_SIZE
    ensures |EncodeFrame(f)| == SIZE && o + Wrong(o) < HEADER_SIZE && EncodeFrame(f)[o + Wrong(o)] != MagicByte(Wrong(o))
  {
    var h := f.header;
    var s := EncodeHeader(h);
    assert PutU32(MAGIC_NUMBER) == [0x54, 0x43, 0x50, 0x50];
    assert PutU32(0) == [0, 0, 0, 0] && PutU16(0) == [0, 0] && PutU32(1) == [0, 0, 0, 1];
    assert s == [0x54, 0x43, 0x50, 0x50, 1, 1, 0, 0, 0, 0, 0, 0] + PutU32(h.sequence) + [0, 0, 0, 1];
    assert EncodeFrame(f)[o + Wrong(o)] == s[o + Wrong(o)];
  }

  lemma FirstByte(f: Frame)
    requires OneByteFrame(f)
    ensures |EncodeFrame(f)| == SIZE && EncodeFrame(f)[0] == 0x54
  {
    assert PutU32(MAGIC_NUMBER) == [0x54, 0x43, 0x50, 0x50];
    assert EncodeHeader(f.header)[0] == PutU32(MAGIC_NUMBER)[0];
  }

  lemma GoodStart(s: seq<Byte>, limit: Limit)
    requires |s| >= HEADER_SIZE && GoodHeader(DecodeHeader(s), limit)
    ensures forall r :: 0 <= r < 5 ==> s[r] == MagicByte(r)
  {
    U32At(s, 0, MAGIC_NUMBER);
    assert PutU32(MAGIC_NUMBER) == [0x54, 0x43, 0x50, 0x50];
    assert s[0..4][0] == s[0] && s[0..4][1] == s[1] && s[0..4][2] == s[2] && s[0..4][3] == s[3];
  }

  /** Out of step with the frames there is never a good header. */
  lemma OutOfStepBad(fs: seq<Frame>, start: nat, end: nat, limit: Limit)
    requires AllOneByte(fs) && start + HEADER_SIZE <= end <= SIZE * |fs| && start % SIZE != 0
    ensures |EncodeFrames(fs)| == SIZE * |fs| && StartsBadly(EncodeFrames(fs)[start..end], limit)
  {
    hide EncodeFrames, EncodeFrame, GoodHeader, DecodeHeader, OneByteFrame;
    var i, o := start / SIZE, start % SIZE;
    var w := Wrong(o);
    if o < HEADER_SIZE {
      WrongByte(fs[i], o);
      StreamByte(fs, i, o + w);
    } else {
      FirstByte(fs[i + 1]);
      StreamByte(fs, i + 1, 0);
    }
    var cut := EncodeFrames(fs)[start..end];
    assert cut[w] == EncodeFrames(fs)[start + w] != MagicByte(w);
    if GoodHeader(DecodeHeader(cut), limit) {
      GoodStart(cut, limit);
    }
  }

  lemma OneByteAcceptable(fs: seq<Frame>, limit: Limit, zero: NextOfNone)
    requires AllOneByte(fs) && Within(limit, 1)
    ensures AllAcceptable(fs, limit) && Solid(fs, zero)
  {
  }

  lemma FrontOf<T>(front: seq<T>, s: seq<T>, lo: nat, end: nat)
    requires lo <= end <= |s| && front + s[end..] == s[lo..]
    ensures front == s[lo..end]
  {
    assert s[lo..] == s[lo..end] + s[end..];
    assert |front| == end - lo;
    assert front == (front + s[end..])[..|front|];
  }

  /** From the boundary of a frame the server finds the frames from there on. */
  lemma ParseInStep(fs: seq<Frame>, i: nat, end: nat, limit: Limit, zero: NextOfNone) returns (k: nat)
    requires AllOneByte(fs) && Within(limit, 1) && SIZE * i <= end <= SIZE * |fs|
    ensures |EncodeFrames(fs)| == SIZE * |fs| && i <= k <= |fs| && k == end / SIZE && SIZE * k <= end
    ensures ParseServer(EncodeFrames(fs)[SIZE * i..end], limit, zero)
         == Parsed(fs[i..k], EncodeFrames(fs)[SIZE * k..end], false)
  {
    hide EncodeFrames, EncodeFrame, ParseServer, Parse, Acceptable, Incomplete, Solid, OneByteFrame;
    var s := EncodeFrames(fs);
    StreamFrom(fs, i);
    var a, b := s[SIZE * i..end], s[end..];
    assert a + b == s[SIZE * i..];
    OneByteAcceptable(fs[i..], limit, zero);
    ParsePart(a, b, fs[i..], limit);
    var p := Parse(a, limit);
    SolidPrefix(fs[i..], p.frames, zero);
    SolidAgrees(a, limit, zero);
    k := i + |p.frames|;
    assert fs[i..][|p.frames|..] == fs[k..] && fs[i..k] == p.frames;
    StreamFrom(fs, k);
    RestIs(fs, k, end, p.rest, limit);
  }

  /** What is left behind whole frames is less than a frame, so it tells how many there were. */
  lemma RestIs(fs: seq<Frame>, k: nat, end: nat, rest: seq<Byte>, limit: Limit)
    requires AllOneByte(fs) && k <= |fs| && Within(limit, 1) && end <= |EncodeFrames(fs)| == SIZE * |fs|
    requires Incomplete(rest, limit) && rest + EncodeFrames(fs)[end..] == EncodeFrames(fs)[SIZE * k..]
    ensures SIZE * k <= end && k == end / SIZE && rest == EncodeFrames(fs)[SIZE * k..end]
  {
    hide EncodeFrames, Incomplete, OneByteFrame;
    StreamFrom(fs, k);
    var s := EncodeFrames(fs);
    assert |rest| + (|s| - end) == |s| - SIZE * k;
    FrontOf(rest, s, SIZE * k, end);
    if |rest| >= SIZE {
      FrontLength(fs[k..], rest, s[end..]);
      TooLong(rest, limit);
    }
  }

  /** The length in the first header of a stream. */
  lemma FrontLength(fs: seq<Frame>, a: seq<Byte>, b: seq<Byte>)
    requires AllOneByte(fs) && |a| >= HEADER_SIZE && a + b == EncodeFrames(fs)
    ensures DecodeHeader(a).length == 1
  {
    hide GetU32, GetU16, EncodeHeader;
    var f := fs[0];
    EncodeFramesCons(fs, []);
    assert EncodeFrames(fs) + [] == EncodeFrames(fs);
    assert a + b == EncodeHeader(f.header) + (f.payload + (EncodeFrames(fs[1..]) + []));
    HeaderRoundTrip(f.header, f.payload + (EncodeFrames(fs[1..]) + []));
    SameDecoded(a, b);
  }

  lemma SameDecoded(a: seq<Byte>, b: seq<Byte>)
    requires |a| >= HEADER_SIZE
    ensures DecodeHeader(a + b) == DecodeHeader(a)
  {
  }

  lemma TooLong(s: seq<Byte>, limit: Limit)
    requires |s| >= SIZE && DecodeHeader(s).length == 1
    ensures !Incomplete(s, limit)
  {
  }

  lemma SolidPrefix(fs: seq<Frame>, part: seq<Frame>, zero: NextOfNone)
    requires part <= fs && Solid(fs, zero)
    ensures Solid(part, zero)
  {
    hide TakesNothing;
    if !TakesNothing(zero) {
      forall i | 0 <= i < |part| ensures part[i].payload != [] {
        assert part[i] == fs[i];
      }
    }
  }

  lemma ParseOutOfPhase(fs: seq<Frame>, start: nat, end: nat, limit: Limit, zero: NextOfNone)
    requires AllOneByte(fs) && start <= end <= SIZE * |fs| && start % SIZE != 0
    ensures |EncodeFrames(fs)| == SIZE * |fs|
    ensures var s := EncodeFrames(fs)[start..end];
            ParseServer(s, limit, zero) == Parsed([], s, end - start >= HEADER_SIZE)
  {
    StreamFrom(fs, 0);
    if end - start >= HEADER_SIZE {
      OutOfStepBad(fs, start, end, limit);
      hide EncodeFrames;
      ScanStuck(EncodeFrames(fs)[start..end], limit);
    }
  }

  // The server's buffer on such a stream.

  /** After some reads the buffer holds the bytes from start on; a read to end moves start here. */
  function NextStart(start: nat, end: nat): nat {
    if start % SIZE == 0 then end / SIZE * SIZE
    else if end - start >= HEADER_SIZE then end
    else start
  }

  /** The frames such a read yields, as positions in the list. */
  function Yield(start: nat, end: nat): (nat, nat) {
    if start % SIZE == 0 && start <= end then (start / SIZE, end / SIZE) else (0, 0)
  }

  lemma ReadOn(fs: seq<Frame>, start: nat, at: nat, end: nat, limit: Limit, zero: NextOfNone)
    requires AllOneByte(fs) && Within(limit, 1) && start <= at <= end <= SIZE * |fs|
    ensures |EncodeFrames(fs)| == SIZE * |fs| && NextStart(start, end) <= end
    ensures Yield(start, end).0 <= Yield(start, end).1 <= |fs|
    ensures var s := EncodeFrames(fs);
            FeedServer(s[start..at], s[at..end], limit, zero)
            == Fed(fs[Yield(start, end).0..Yield(start, end).1], s[NextStart(start, end)..end])
  {
    hide EncodeFrames, ParseServer;
    StreamFrom(fs, 0);
    var s := EncodeFrames(fs);
    assert s[start..at] + s[at..end] == s[start..end];
    if start % SIZE == 0 {
      assert SIZE * (start / SIZE) == start;
      var k := ParseInStep(fs, start / SIZE, end, limit, zero);
    } else {
      ParseOutOfPhase(fs, start, end, limit, zero);
    }
  }

  /** Where the first read leaves off. */
  lemma FirstStart(t: nat, n: nat)
    requires 0 < t <= n
    ensures var s := NextStart(t, n);
            s <= n && Late(t, n) && (s % SIZE == 0 ==> s >= SIZE && s == n / SIZE * SIZE)
  {
  }

  /** Reading on to the next boundary. */
  lemma SecondStart(s: nat, n: nat)
    requires 0 < s <= n && (s % SIZE == 0 ==> s >= SIZE)
    ensures var end := SIZE * (n / SIZE + 1);
            var next := NextStart(s, end);
            next <= end && Late(s, end) && (next % SIZE == 0 ==> next == end) && (next % SIZE != 0 ==> next == s)
  {
  }

  /** One frame more, and reading is in step again. */
  lemma ThirdStart(s: nat, end: nat)
    requires 0 < s <= end && end % SIZE == 0 && end >= SIZE && (s % SIZE == 0 ==> s == end)
    ensures NextStart(s, end + SIZE) == end + SIZE && Late(s, end + SIZE)
  {
  }

  /** Reading from t on, first to n, then to the next boundary, then two frames more: the last read yields the last
      frame, and nothing before t, the middle of a frame or the first frame, is ever yielded. */
  lemma BackInStep(t: nat, n: nat)
    requires 0 < t <= n
    ensures var a := n / SIZE;
            var s1 := NextStart(t, n);
            var s2 := NextStart(s1, SIZE * (a + 1));
            var s3 := NextStart(s2, SIZE * (a + 2));
            && s1 <= n && s2 <= SIZE * (a + 1) && s3 == SIZE * (a + 2)
            && Late(t, n) && Late(s1, SIZE * (a + 1)) && Late(s2, SIZE * (a + 2))
            && Yield(s3, SIZE * (a + 3)) == (a + 2, a + 3)
  {
    hide NextStart, Late, Yield;
    var a := n / SIZE;
    LastYield(a);
    FirstStart(t, n);
    StartPositive(t, n);
    SecondStart(NextStart(t, n), n);
    StartPositive(NextStart(t, n), SIZE * (a + 1));
    ThirdStart(NextStart(NextStart(t, n), SIZE * (a + 1)), SIZE * (a + 1));
  }

  lemma LastYield(a: nat)
    ensures Yield(SIZE * (a + 2), SIZE * (a + 3)) == (a + 2, a + 3)
  {
  }

  lemma StartPositive(s: nat, end: nat)
    requires 0 < s <= end && (s % SIZE == 0 ==> s >= SIZE)
    ensures NextStart(s, end) > 0
  {
  }

  /** A read that yields nothing or only frames after the first. */
  predicate Late(start: nat, end: nat) {
    Yield(start, end).0 == Yield(start, end).1 || Yield(start, end).0 >= 1
  }

  // The run.

  /** One read of part of the lane's stream. */
  lemma Taking(u: Setup, s: State, lane: nat, bytes: nat) returns (t: State)
    requires lane < |s.lanes| && bytes <= |s.lanes[lane].stream|
    ensures Apply(u, s, Traffic(lane, bytes, 0)) == Some(t)
    ensures var l := s.lanes[lane];
            var fed := FeedServer(l.inbound, l.stream[..bytes], u.ServerLimit(), u.zero);
            && OnlyLane(s, t, lane) && t.lanes[lane] == Lane(l.queue, l.stream[bytes..], fed.rest)
            && t.handled == s.handled + Carry(lane, fed.frames)
    ensures t.fed == s.fed
  {
    hide ParseServer;
    t := Apply(u, s, Traffic(lane, bytes, 0)).value;
  }

  /** Datagrams of session 0. */
  predicate ForZero(u: Setup, ds: seq<Datagram>) {
    forall i :: 0 <= i < |ds| ==> ds[i].session == 0 && |ds[i].payload| <= u.maxPacket
  }

  /** All of them wait in lane 0, none has been handled. */
  lemma {:induction false} SendingAll(u: Setup, ds: seq<Datagram>) returns (actions: seq<Action>, s: State)
    requires Sane(u) && !u.striped && u.cipher.overhead == 0 && ForZero(u, ds)
    ensures LeadsTo(u, actions, s) && Inv(u, s) && s.fed == ds && s.handled == []
    ensures |s.lanes| == u.lanes > 0 && s.lanes[0].stream == [] && s.lanes[0].inbound == []
    decreases |ds|
  {
    if |ds| == 0 {
      Start(u);
      InitialInv(u);
      actions, s := [], Initial(u);
    } else {
      hide Sane, Inv, Send, TooLarge, LeadsTo, Apply;
      var init, d := ds[..|ds| - 1], ds[|ds| - 1];
      assert ds == init + [d];
      var before, r := SendingAll(u, init);
      FirstFrame(u, init, d);
      s := Sending(u, r, d);
      actions := Onward(u, before, r, Input(0, d.payload), s);
      CutWhole(u, d);
      InputKeeps(u, r, Input(0, d.payload));
    }
  }

  lemma CutWhole(u: Setup, d: Datagram)
    requires |d.payload| <= u.maxPacket
    ensures Cut(d.payload, u.maxPacket) == d.payload
  {
  }

  /** The frames sent for datagrams of session 0. */
  lemma {:induction false} FramesForZero(u: Setup, ds: seq<Datagram>)
    requires Sane(u) && !u.striped && u.cipher.overhead == 0 && ForZero(u, ds)
    ensures var all := OnLane(Sent(u, ds), 0);
            && |all| == |ds|
            && forall i :: 0 <= i < |ds| ==>
                 && all[i].header == DataHeader(0, all[i].header.sequence, |ds[i].payload|)
                 && |all[i].payload| == |ds[i].payload| && u.cipher.decrypt(all[i].payload) == Some(ds[i].payload)
                 && Acceptable(all[i], u.ServerLimit())
  {
    hide Sent, OnLane, TooLarge;
    if |ds| == 0 {
      assert ds == [];
      NothingSent(u);
      EmptyLane(0);
    } else {
      var init, d := ds[..|ds| - 1], ds[|ds| - 1];
      assert ds == init + [d];
      FramesForZero(u, init);
      SentSnoc(u, init, d);
      FirstFrame(u, init, d);
      SendHeader(u, init, d);
      OnLaneSnoc(Sent(u, init), Send(u, init, d), 0);
    }
  }

  lemma SendHeader(u: Setup, fed: seq<Datagram>, d: Datagram)
    requires Sane(u) && |d.payload| <= u.maxPacket && u.cipher.overhead == 0
    ensures var f := Send(u, fed, d).frame; f.header == DataHeader(d.session, f.header.sequence, |d.payload|)
  {
    hide Count;
  }

  /** An empty datagram, one with the byte 0, then count with the byte 1. */
  function Probe(count: nat): seq<Datagram> {
    [Datagram(0, []), Datagram(0, [0])] + seq(count, _ => Datagram(0, [1]))
  }

  lemma {:induction false} ProbeInputs(count: nat)
    ensures Inputs(Probe(count), 0) == [[], [0]] + seq(count, _ => [1])
  {
    hide Inputs;
    if count == 0 {
      NoInputs();
      InputsSnoc([], Datagram(0, []), 0);
      InputsSnoc([Datagram(0, [])], Datagram(0, [0]), 0);
      assert [] + [Datagram(0, [])] == [Datagram(0, [])];
      assert Probe(0) == [Datagram(0, [])] + [Datagram(0, [0])];
    } else {
      ProbeInputs(count - 1);
      InputsSnoc(Probe(count - 1), Datagram(0, [1]), 0);
      assert Probe(count) == Probe(count - 1) + [Datagram(0, [1])];
    }
  }

  /** All of these frames are of session 0 and decrypt to this. */
  ghost predicate AllHold(cipher: Cipher, frames: seq<Frame>, p: seq<Byte>) {
    forall i :: 0 <= i < |frames| ==> frames[i].header.session == 0 && cipher.decrypt(frames[i].payload) == Some(p)
  }

  lemma {:induction false} HeldReceived(cipher: Cipher, first: Frame, more: seq<Frame>, p: seq<Byte>)
    requires first.header.session == 0 && AllHold(cipher, more, p)
    ensures var got := Decrypted(cipher, OfSession([first] + more, 0));
            |got| >= |more| && |got| <= |more| + 1 && forall i :: |got| - |more| <= i < |got| ==> got[i] == p
    decreases |more|
  {
    if |more| == 0 {
      assert [first] + more == [first] && [first][..0] == [];
      OfSessionSize([first], 0);
      DecryptedSize(cipher, OfSession([first], 0));
    } else {
      var init, last := more[..|more| - 1], more[|more| - 1];
      HeldReceived(cipher, first, init, p);
      var all := [first] + more;
      assert all[..|all| - 1] == [first] + init;
      var of := OfSession([first] + init, 0);
      assert (of + [last])[..|of|] == of;
    }
  }

  lemma NotPrefix(got: seq<seq<Byte>>, count: nat, n: nat)
    requires n >= 1 && n <= |got| <= n + 1 && forall i :: |got| - n <= i < |got| ==> got[i] == [1]
    ensures !(got <= [[], [0]] + seq(count, _ => [1]))
  {
    var inputs := [[], [0]] + seq(count, _ => [1]);
    assert got[|got| - n] == [1];
    if got <= inputs {
      PrefixAt(got, inputs, |got| - n);
    }
  }

  lemma PrefixAt<T>(a: seq<T>, b: seq<T>, i: nat)
    requires a <= b && i < |a|
    ensures a[i] == b[i]
  {
  }

  /** From there on the frames are the one-byte ones: all but the first hold a 1. */
  lemma OnesHold(u: Setup, all: seq<Frame>, count: nat, lo: nat, hi: nat)
    requires |all| == count + 2 && lo <= hi <= count + 1 && (lo == hi || lo >= 1)
    requires forall i :: 0 <= i < |all| ==>
               all[i].header.session == 0 && u.cipher.decrypt(all[i].payload) == Some(Probe(count)[i].payload)
    ensures AllHold(u.cipher, all[1..][lo..hi], [1])
  {
    forall i | 0 <= i < hi - lo
      ensures all[1..][lo..hi][i].header.session == 0 && u.cipher.decrypt(all[1..][lo..hi][i].payload) == Some([1])
    {
      assert all[1..][lo..hi][i] == all[1 + lo + i];
    }
  }

  lemma AllHoldAppend(cipher: Cipher, a: seq<Frame>, b: seq<Frame>, p: seq<Byte>)
    requires AllHold(cipher, a, p) && AllHold(cipher, b, p)
    ensures AllHold(cipher, a + b, p)
  {
  }

  /** Parsing an empty frame and what is behind it. */
  lemma ParseEmpty(f: Frame, more: seq<Byte>, limit: Limit, zero: NextOfNone)
    requires Acceptable(f, limit) && f.payload == []
    ensures var t := Taken(zero, |more|);
            var p := ParseServer(more[t..], limit, zero);
            ParseServer(EncodeFrame(f) + more, limit, zero)
            == Parsed([Frame(f.header, more[..t])] + p.frames, p.rest, p.malformed)
  {
    hide EncodeFrame, ScanServer;
    ScanEmpty(f, more, limit, zero);
  }

  lemma ScanEmpty(f: Frame, more: seq<Byte>, limit: Limit, zero: NextOfNone)
    requires Acceptable(f, limit) && f.payload == []
    ensures var t := Taken(zero, |more|);
            ScanServer(EncodeFrame(f) + more, limit, zero) == Got(Frame(f.header, more[..t]), more[t..])
  {
    hide EncodeFrame, ScanFrame;
    ScanOfFrame(f, more, limit);
  }

  /** The first read: the empty frame takes t bytes of what is behind it, and reading goes on from there. */
  lemma FirstRead(f: Frame, fs: seq<Frame>, n: nat, t: nat, limit: Limit, zero: NextOfNone)
    requires Acceptable(f, limit) && f.payload == [] && AllOneByte(fs) && Within(limit, 1)
    requires n <= SIZE * |fs| && Taken(zero, n) == t && t <= n
    ensures |EncodeFrames(fs)| == SIZE * |fs| && |EncodeFrame(f)| == HEADER_SIZE
    ensures Yield(t, n).0 <= Yield(t, n).1 <= |fs| && NextStart(t, n) <= n
    ensures var s := EncodeFrames(fs);
            FeedServer([], EncodeFrame(f) + s[..n], limit, zero)
            == Fed([Frame(f.header, s[..t])] + fs[Yield(t, n).0..Yield(t, n).1], s[NextStart(t, n)..n])
  {
    hide EncodeFrames, EncodeFrame, ParseServer, Acceptable, Yield, NextStart, OneByteFrame;
    StreamFrom(fs, 0);
    EmptySize(f);
    var s := EncodeFrames(fs);
    var more := s[..n];
    ParseEmpty(f, more, limit, zero);
    ReadOn(fs, t, t, n, limit, zero);
    assert s[t..t] + s[t..n] == s[t..n] == more[t..] && more[..t] == s[..t];
    assert [] + (EncodeFrame(f) + more) == EncodeFrame(f) + more;
  }

  lemma EmptySize(f: Frame)
    requires f.payload == []
    ensures |EncodeFrame(f)| == HEADER_SIZE
  {
  }

  lemma HeadFrame(all: seq<Frame>)
    requires |all| > 0
    ensures EncodeFrames(all) == EncodeFrame(all[0]) + EncodeFrames(all[1..])
  {
  }

  /** The lane after it has been flushed: all frames on the wire. */
  lemma AllOnWire(u: Setup, s: State)
    requires Sane(u) && Inv(u, s) && s.handled == [] && s.lanes[0].stream == [] && s.lanes[0].inbound == []
    ensures u.lanes > 0 && Flatten(s.lanes[0].queue) == EncodeFrames(OnLane(Sent(u, s.fed), 0))
  {
    hide Sent, EncodeFrames;
    LaneFacts(u, s, 0);
    var all := OnLane(Sent(u, s.fed), 0);
    assert OnLane([], 0) == [] && all[0..] == all;
    assert [] + [] + Flatten(s.lanes[0].queue) == Flatten(s.lanes[0].queue);
  }

  /** Up to the point where the frames of these datagrams are on the wire of lane 0. */
  lemma OnTheWire(u: Setup, ds: seq<Datagram>) returns (actions: seq<Action>, s: State)
    requires Sane(u) && !u.striped && u.cipher.overhead == 0 && ForZero(u, ds)
    ensures LeadsTo(u, actions, s) && s.fed == ds && s.handled == [] && |s.lanes| == u.lanes > 0
    ensures s.lanes[0] == Lane([], EncodeFrames(OnLane(Sent(u, ds), 0)), [])
  {
    hide Sane, Inv, LeadsTo, Apply, Sent, OnLane, EncodeFrames;
    var before, r := SendingAll(u, ds);
    AllOnWire(u, r);
    s := Flushing(u, r, 0);
    actions := Onward(u, before, r, Flush(0, |r.lanes[0].queue|), s);
    assert [] + Flatten(r.lanes[0].queue) == Flatten(r.lanes[0].queue);
  }

  /** One more read of the one-byte frames: from at to end, with the buffer at start. */
  lemma ReadMore(u: Setup, actions: seq<Action>, s: State, fs: seq<Frame>, start: nat, at: nat, end: nat)
    returns (longer: seq<Action>, t: State)
    requires LeadsTo(u, actions, s) && AllOneByte(fs) && Within(u.ServerLimit(), 1)
    requires start <= at <= end <= SIZE * |fs| == |EncodeFrames(fs)|
    requires |s.lanes| > 0 && s.lanes[0] == Lane([], EncodeFrames(fs)[at..], EncodeFrames(fs)[start..at])
    ensures LeadsTo(u, longer, t) && t.fed == s.fed && |t.lanes| > 0
    ensures Yield(start, end).0 <= Yield(start, end).1 <= |fs| && NextStart(start, end) <= end
    ensures t.lanes[0] == Lane([], EncodeFrames(fs)[end..], EncodeFrames(fs)[NextStart(start, end)..end])
    ensures t.handled == s.handled + Carry(0, fs[Yield(start, end).0..Yield(start, end).1])
  {
    hide LeadsTo, Apply, EncodeFrames, ParseServer, FeedServer, OneByteFrame, Yield, NextStart;
    var bytes := EncodeFrames(fs);
    ReadOn(fs, start, at, end, u.ServerLimit(), u.zero);
    t := Taking(u, s, 0, end - at);
    longer := Onward(u, actions, s, Traffic(0, end - at, 0), t);
    assert bytes[at..][..end - at] == bytes[at..end] && bytes[at..][end - at..] == bytes[end..];
  }

  lemma NoFrames()
    ensures Frames([]) == []
  {
  }

  lemma FramesOfCarry(log: seq<Carried>, frames: seq<Frame>)
    ensures Frames(log + Carry(0, frames)) == Frames(log) + frames
  {
  }

  /** The number of datagrams of one byte needed to put n bytes, and two frames more, behind an empty frame. */
  function Enough(n: nat): nat {
    n / SIZE + 2
  }

  /** The probe's frames: an empty one, and one-byte ones behind it. */
  lemma ProbeFrames(u: Setup, count: nat)
    requires Sane(u) && !u.striped && u.cipher.overhead == 0 && u.maxPacket > 0
    ensures ForZero(u, Probe(count)) && Within(u.ServerLimit(), 1)
    ensures var all := OnLane(Sent(u, Probe(count)), 0);
            && |all| == count + 2 && AllOneByte(all[1..]) && all[0].payload == [] && Acceptable(all[0], u.ServerLimit())
            && forall i :: 0 <= i < |all| ==>
                 all[i].header.session == 0 && u.cipher.decrypt(all[i].payload) == Some(Probe(count)[i].payload)
  {
    hide Sent, OnLane;
    FramesForZero(u, Probe(count));
  }

  /** Reading on from the first read: to the next boundary, then two frames more. */
  lemma ReadOut(u: Setup, actions: seq<Action>, s: State, fs: seq<Frame>, t: nat, n: nat)
    returns (longer: seq<Action>, end: State, y1: (nat, nat), y2: (nat, nat), y3: (nat, nat))
    requires LeadsTo(u, actions, s) && AllOneByte(fs) && Within(u.ServerLimit(), 1) && 0 < t <= n
    requires |EncodeFrames(fs)| == SIZE * |fs| && |fs| == Enough(n) + 1
    requires NextStart(t, n) <= n && |s.lanes| > 0
    requires s.lanes[0] == Lane([], EncodeFrames(fs)[n..], EncodeFrames(fs)[NextStart(t, n)..n])
    ensures LeadsTo(u, longer, end) && end.fed == s.fed
    ensures Later(y1, Enough(n)) && Later(y2, Enough(n)) && Later(y3, Enough(n)) && y3.0 < y3.1
    ensures end.handled
         == s.handled + Carry(0, fs[y1.0..y1.1]) + Carry(0, fs[y2.0..y2.1]) + Carry(0, fs[y3.0..y3.1])
  {
    hide LeadsTo, Apply, EncodeFrames, OneByteFrame, Yield, NextStart, Within;
    var e0 := SIZE * (n / SIZE + 1);
    var e1, e2 := e0 + SIZE, e0 + SIZE + SIZE;
    BackInStep(t, n);
    var start1 := NextStart(t, n);
    var s1, s2;
    longer, s1 := ReadMore(u, actions, s, fs, start1, n, e0);
    var start2 := NextStart(start1, e0);
    longer, s2 := ReadMore(u, longer, s1, fs, start2, e0, e1);
    var start3 := NextStart(start2, e1);
    longer, end := ReadMore(u, longer, s2, fs, start3, e1, e2);
    y1, y2, y3 := Yield(start1, e0), Yield(start2, e1), Yield(start3, e2);
  }

  /** A run that fails: with n bytes behind the empty frame Next(0) takes t of them. */
  lemma PutBehind(u: Setup, n: nat) returns (actions: seq<Action>)
    requires Sane(u) && !u.striped && u.cipher.overhead == 0 && u.maxPacket > 0 && Taken(u.zero, n) > 0
    ensures !PrefixIn(u, actions, 0)
  {
    hide Sane, LeadsTo, Apply, Sent, OnLane, EncodeFrames, EncodeFrame, ParseServer, FeedServer, OneByteFrame, Yield,
      NextStart, Probe, ForZero, PrefixIn, Frames, Acceptable, Within, Taken;
    LaneZero(u);
    var t, count := Taken(u.zero, n), Enough(n);
    ProbeFrames(u, count);
    var all := OnLane(Sent(u, Probe(count)), 0);
    var fs := all[1..];
    var bytes := EncodeFrames(fs);
    HeadFrame(all);
    StreamFrom(fs, 0);
    FirstRead(all[0], fs, n, t, u.ServerLimit(), u.zero);
    BackInStep(t, n);
    var s;
    actions, s := OnTheWire(u, Probe(count));
    var s1 := Taking(u, s, 0, HEADER_SIZE + n);
    actions := Onward(u, actions, s, Traffic(0, HEADER_SIZE + n, 0), s1);
    WireSplit(EncodeFrame(all[0]), bytes, n);
    var s4, y1, y2, y3;
    actions, s4, y1, y2, y3 := ReadOut(u, actions, s1, fs, t, n);
    Judged(u, actions, s4, all, count, Frame(all[0].header, bytes[..t]), Yield(t, n), y1, y2, y3, s.handled);
  }

  lemma WireSplit(head: seq<Byte>, bytes: seq<Byte>, n: nat)
    requires n <= |bytes|
    ensures (head + bytes)[..|head| + n] == head + bytes[..n] && (head + bytes)[|head| + n..] == bytes[n..]
  {
  }

  /** What the backend has then. */
  lemma Judged(u: Setup, actions: seq<Action>, s: State, all: seq<Frame>, count: nat, first: Frame,
               y0: (nat, nat), y1: (nat, nat), y2: (nat, nat), y3: (nat, nat), none: seq<Carried>)
    requires LeadsTo(u, actions, s) && s.fed == Probe(count) && none == [] && |all| == count + 2
    requires forall i :: 0 <= i < |all| ==>
               all[i].header.session == 0 && u.cipher.decrypt(all[i].payload) == Some(Probe(count)[i].payload)
    requires first.header.session == 0 && Later(y0, count) && Later(y1, count) && Later(y2, count) && Later(y3, count)
    requires y3.0 < y3.1
    requires s.handled == none + Carry(0, [first] + all[1..][y0.0..y0.1]) + Carry(0, all[1..][y1.0..y1.1])
                          + Carry(0, all[1..][y2.0..y2.1]) + Carry(0, all[1..][y3.0..y3.1])
    ensures !PrefixIn(u, actions, 0)
  {
    hide Run, Decrypted, OfSession, Inputs, Probe, AllHold, Frames, Carry;
    var f0, f1, f2, f3 := all[1..][y0.0..y0.1], all[1..][y1.0..y1.1], all[1..][y2.0..y2.1], all[1..][y3.0..y3.1];
    OnesHold(u, all, count, y0.0, y0.1);
    OnesHold(u, all, count, y1.0, y1.1);
    OnesHold(u, all, count, y2.0, y2.1);
    OnesHold(u, all, count, y3.0, y3.1);
    AllHoldAppend(u.cipher, f0, f1, [1]);
    AllHoldAppend(u.cipher, f0 + f1, f2, [1]);
    AllHoldAppend(u.cipher, f0 + f1 + f2, f3, [1]);
    var more := f0 + f1 + f2 + f3;
    NoFrames();
    FramesOfCarry(none, [first] + f0);
    FramesOfCarry(none + Carry(0, [first] + f0), f1);
    FramesOfCarry(none + Carry(0, [first] + f0) + Carry(0, f1), f2);
    FramesOfCarry(none + Carry(0, [first] + f0) + Carry(0, f1) + Carry(0, f2), f3);
    assert Frames(s.handled) == [first] + more;
    HeldReceived(u.cipher, first, more, [1]);
    ProbeInputs(count);
    NotPrefix(Received(u, s, 0), count, |more|);
  }

  /** A range that is empty or starts after the first frame. */
  predicate Later(y: (nat, nat), count: nat) {
    y.0 <= y.1 <= count + 1 && (y.0 == y.1 || y.0 >= 1)
  }

  /** For the behaviour of Next(0) there is: no run makes a backend receive anything but a prefix of its session's
      packets exactly when the cipher adds bytes, or Next(0) takes nothing however much is buffered. */
  lemma NextOfNoneFor(u: Setup)
    requires Sane(u) && !u.striped && u.maxPacket > 0
    ensures (forall actions, session: U32 :: PrefixIn(u, actions, session)) <==>
            u.cipher.overhead > 0 || TakesNothing(u.zero)
  {
    hide Run, Received, Inputs, TakesNothing, Sane;
    if u.cipher.overhead > 0 || TakesNothing(u.zero) {
      forall actions, session: U32 ensures PrefixIn(u, actions, session) {
        if Run(u, actions).Some? {
          HarmlessAlways(u, actions);
          EndToEnd(u, actions, session);
        }
      }
    } else {
      var n := SomeTaken(u.zero);
      var actions := PutBehind(u, n);
    }
  }
}
