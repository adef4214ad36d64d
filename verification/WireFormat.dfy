/** The wire format byte by byte (internal/protocol/packet.go, internal/protocol/control.go): what the frames both sides
    build look like, and which bytes the receivers accept, without the encoding and decoding functions. */
module WireFormat {
  import opened Bytes
  import opened Packet
  import opened Framing
  import opened ServerFraming
  import opened Control
  import opened Traffic
  import opened StreamBuffers

  /** The big-endian number of four bytes. */
  function Four(a: Byte, b: Byte, c: Byte, d: Byte): int {
    a as int * 0x100_0000 + b as int * 0x1_0000 + c as int * 0x100 + d as int
  }

  lemma BigEndian(x: U32)
    ensures var s := PutU32(x); Four(s[0], s[1], s[2], s[3]) == x
    ensures x < 0x1_0000 ==> var s := PutU16(x); Two(s[0], s[1]) == x
  {
  }

  lemma GetFour(s: seq<Byte>, off: nat)
    requires off + 4 <= |s|
    ensures GetU32(s, off) == Four(s[off], s[off + 1], s[off + 2], s[off + 3])
  {
  }

  /** A data frame: "TCPP", version 1, type 1, no flags, then session, number and length, then the payload. */
  lemma DataFrameBytes(session: U32, number: U32, payload: seq<Byte>)
    requires |payload| < 0x1_0000_0000
    ensures EncodeFrame(DataFrame(session, number, payload))
         == [0x54, 0x43, 0x50, 0x50, 1, 1, 0, 0] + PutU32(session) + PutU32(number) + PutU32(|payload|) + payload
  {
    hide PutU32;
    MagicBytes();
  }

  lemma MagicBytes()
    ensures PutU32(MAGIC_NUMBER) == [0x54, 0x43, 0x50, 0x50] && PutU16(0) == [0, 0] && PutU32(0) == [0, 0, 0, 0]
  {
  }

  /** A hello, register or heartbeat frame: type 3, the lane number in the session's place, and in the payload subtype,
      lane number, lane count, the number of ids and the ids. */
  lemma ControlFrameBytes(sequence: U32, c: LaneControl)
    requires ControlFrame(sequence, c).Ok?
    ensures EncodeFrame(ControlFrame(sequence, c).value)
         == [0x54, 0x43, 0x50, 0x50, 1, 3, 0, 0] + PutU32(c.laneId) + PutU32(sequence) + PutU32(8 + 4 * |c.sessions|)
            + [c.subtype, 0] + PutU16(c.laneId) + PutU16(c.laneCount) + PutU16(|c.sessions|) + EncodeIds(c.sessions)
  {
    hide PutU32, PutU16, EncodeIds;
    MarshalExactly(c);
    MagicBytes();
  }

  predicate GoodBytes(s: seq<Byte>, limit: Limit)
    requires |s| >= 20
  {
    && s[..5] == [0x54, 0x43, 0x50, 0x50, 1] && 1 <= s[5] <= 3
    && (limit.AtMost? ==> Four(s[16], s[17], s[18], s[19]) <= limit.n)
  }

  /** What a receiver makes of the bytes it has: fewer than 20 say nothing yet; a header that does not begin with "TCPP",
      version 1 and a type from 1 to 3, or is over the limit, is bad; otherwise the frame is there as soon as all
      its bytes are. */
  lemma ScanExactly(s: seq<Byte>, limit: Limit)
    ensures |s| < 20 ==> ScanFrame(s, limit) == NeedMore
    ensures |s| >= 20 ==> (ScanFrame(s, limit) == Malformed <==> !GoodBytes(s, limit))
    ensures |s| >= 20 && GoodBytes(s, limit) ==>
              var n := 20 + Four(s[16], s[17], s[18], s[19]);
              && (ScanFrame(s, limit) == NeedMore <==> |s| < n)
              && (|s| >= n ==>
                    && ScanFrame(s, limit).Got?
                    && ScanFrame(s, limit).frame.payload == s[20..n] && ScanFrame(s, limit).rest == s[n..]
                    && ScanFrame(s, limit).frame.header.kind == s[5]
                    && ScanFrame(s, limit).frame.header.session == Four(s[8], s[9], s[10], s[11])
                    && ScanFrame(s, limit).frame.header.sequence == Four(s[12], s[13], s[14], s[15]))
  {
    if |s| >= 20 {
      hide GetU32;
      GetFour(s, 0);
      GetFour(s, 8);
      GetFour(s, 12);
      GetFour(s, 16);
      MagicFour(s);
    }
  }

  lemma MagicFour(s: seq<Byte>)
    requires |s| >= 5
    ensures s[..5] == [0x54, 0x43, 0x50, 0x50, 1] <==> Four(s[0], s[1], s[2], s[3]) == 0x54435050 && s[4] == 1
  {
    assert s[..5] == [s[0], s[1], s[2], s[3], s[4]];
  }

  /** A control message with at most 16382 ids, sent to a server that has nothing buffered, is handed to
      handleLaneControl as it was sent; however Next(0) behaves. */
  lemma ControlArrives(sequence: U32, c: LaneControl, zero: NextOfNone)
    requires 0 < c.laneCount && c.laneId < c.laneCount && |c.sessions| <= 16382
    ensures ControlFrame(sequence, c).Ok?
    ensures var fed := FeedServer([], EncodeFrame(ControlFrame(sequence, c).value), AtMost(MAX_DOWNSTREAM_CONTROL), zero);
            fed.rest == [] && Controls(fed.frames) == [c]
  {
    MarshalExactly(c);
    var f := ControlFrame(sequence, c).value;
    hide Unmarshal, Marshal, EncodeFrame, ScanServer;
    RegisterLimit(sequence, c, [], zero);
    var s := EncodeFrame(f);
    assert [] + s == s + [] == s;
    ParseServerStep([], s, AtMost(MAX_DOWNSTREAM_CONTROL), zero);
    ParseServerStep([f], [], AtMost(MAX_DOWNSTREAM_CONTROL), zero);
    NoControls();
    ControlsSnoc([], f);
  }

  /** The client handles every frame but the control frames, in order. */
  lemma DeliverableOne(frames: seq<Frame>, f: Frame)
    ensures Deliverable(frames + [f]) == Deliverable(frames) + if f.header.kind == 3 then [] else [f]
  {
    assert (frames + [f])[..|frames|] == frames;
  }
}
