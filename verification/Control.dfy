/** Lane control payloads: hello, register and heartbeat (internal/protocol/control.go). */
module Control {
  import opened Bytes
  import opened Packet

  const SUBTYPE_HELLO: Byte := 1
  const SUBTYPE_REGISTER: Byte := 2
  const SUBTYPE_HEARTBEAT: Byte := 3

  const MAX_SESSIONS: nat := 0xFFFF

  datatype LaneControl = LaneControl(subtype: Byte, laneId: U16, laneCount: U16, sessions: seq<U32>)

  datatype ControlError = ZeroLaneCount | BadLaneId | TooManySessions | TooShort | SizeMismatch

  function EncodeIds(ids: seq<U32>): (s: seq<Byte>)
    ensures |s| == 4 * |ids|
  {
    if |ids| == 0 then [] else EncodeIds(ids[..|ids| - 1]) + PutU32(ids[|ids| - 1])
  }

  function DecodeIds(s: seq<Byte>): (ids: seq<U32>)
    requires |s| % 4 == 0
    ensures |ids| == |s| / 4
  {
    if |s| == 0 then [] else DecodeIds(s[..|s| - 4]) + [GetU32(s, |s| - 4)]
  }

  /** The eight fixed bytes; the second one is reserved and written as 0. */
  function EncodePrefix(c: LaneControl): (s: seq<Byte>)
    ensures |s| == 8
  {
    [c.subtype, 0] + PutU16(c.laneId) + PutU16(c.laneCount) + PutU16(|c.sessions| % 0x1_0000)
  }

  function Marshal(c: LaneControl): Result<seq<Byte>, ControlError> {
    if c.laneCount == 0 then Err(ZeroLaneCount)
    else if c.laneId >= c.laneCount then Err(BadLaneId)
    else if |c.sessions| > MAX_SESSIONS then Err(TooManySessions)
    else Ok(EncodePrefix(c) + EncodeIds(c.sessions))
  }

  function Unmarshal(s: seq<Byte>): Result<LaneControl, ControlError> {
    if |s| < 8 then Err(TooShort)
    else if |s| != 8 + GetU16(s, 6) * 4 then Err(SizeMismatch)
    else
      var laneId, laneCount := GetU16(s, 2), GetU16(s, 4);
      if laneCount == 0 then Err(ZeroLaneCount)
      else if laneId >= laneCount then Err(BadLaneId)
      else Ok(LaneControl(s[0], laneId, laneCount, DecodeIds(s[8..])))
  }

  /** Which messages can be encoded, and which complaint comes first otherwise. */
  lemma MarshalExactly(c: LaneControl)
    ensures Marshal(c).Ok? <==> 0 < c.laneCount && c.laneId < c.laneCount && |c.sessions| <= 65535
    ensures Marshal(c) == Err(ZeroLaneCount) <==> c.laneCount == 0
    ensures Marshal(c) == Err(BadLaneId) <==> 0 < c.laneCount <= c.laneId
    ensures Marshal(c).Ok? ==> |Marshal(c).value| == 8 + 4 * |c.sessions|
  {
  }

  /** The big-endian number of two bytes. */
  function Two(high: Byte, low: Byte): int {
    high as int * 256 + low as int
  }

  /** Which bytes decode, said in bytes: at least eight, as many as the count in the last two of the eight asks for,
      and a lane number below the lane count. */
  lemma UnmarshalExactly(s: seq<Byte>)
    ensures Unmarshal(s).Ok? <==>
            && |s| >= 8 && |s| == 8 + 4 * Two(s[6], s[7])
            && Two(s[2], s[3]) < Two(s[4], s[5])
    ensures Unmarshal(s) == Err(TooShort) <==> |s| < 8
    ensures Unmarshal(s) == Err(SizeMismatch) <==> |s| >= 8 && |s| != 8 + 4 * Two(s[6], s[7])
  {
  }

  /** A payload decodes exactly when, but for its reserved byte, it is the encoding of some message. */
  lemma DecodesExactly(s: seq<Byte>)
    requires |s| >= 2
    ensures Unmarshal(s).Ok? <==> exists c :: Marshal(c) == Ok(s[1 := 0])
  {
    hide Marshal, Unmarshal;
    if Unmarshal(s).Ok? {
      ControlRoundTripBack(s);
      assert Marshal(Unmarshal(s).value) == Ok(s[1 := 0]);
    }
    if c :| Marshal(c) == Ok(s[1 := 0]) {
      ControlRoundTrip(c);
      UnmarshalExactly(s);
      UnmarshalExactly(s[1 := 0]);
    }
  }

  /** A hello or heartbeat, which carries no ids, takes the eight fixed bytes and reads back. */
  lemma NoIdsNeeded(subtype: Byte, laneId: U16, laneCount: U16)
    requires laneId < laneCount
    ensures var c := LaneControl(subtype, laneId, laneCount, []);
            Marshal(c) == Ok([subtype, 0] + PutU16(laneId) + PutU16(laneCount) + [0, 0]) && Unmarshal(Marshal(c).value) == Ok(c)
  {
    var c := LaneControl(subtype, laneId, laneCount, []);
    assert PutU16(0) == [0, 0] && EncodeIds([]) == [];
    assert EncodePrefix(c) + [] == EncodePrefix(c);
    ControlRoundTrip(c);
  }

  lemma DecodeIdsSnoc(s: seq<Byte>, id: U32)
    requires |s| % 4 == 0
    ensures DecodeIds(s + PutU32(id)) == DecodeIds(s) + [id]
  {
    hide PutU32, GetU32;
    var all := s + PutU32(id);
    assert all[..|all| - 4] == s && all[|all| - 4..] == PutU32(id);
    U32At(all, |all| - 4, id);
  }

  lemma {:induction false} IdsRoundTrip(ids: seq<U32>)
    ensures DecodeIds(EncodeIds(ids)) == ids
  {
    hide PutU32, DecodeIds;
    if |ids| == 0 {
      assert DecodeIds([]) == [];
    } else {
      var init, last := ids[..|ids| - 1], ids[|ids| - 1];
      IdsRoundTrip(init);
      DecodeIdsSnoc(EncodeIds(init), last);
      assert ids == init + [last];
    }
  }

  lemma EncodeIdsSnoc(ids: seq<U32>, id: U32)
    ensures EncodeIds(ids + [id]) == EncodeIds(ids) + PutU32(id)
  {
    hide PutU32;
    assert (ids + [id])[..|ids|] == ids;
  }

  lemma {:induction false} IdsRoundTripBack(s: seq<Byte>)
    requires |s| % 4 == 0
    ensures EncodeIds(DecodeIds(s)) == s
  {
    hide PutU32, GetU32, EncodeIds;
    if |s| == 0 {
      NoIds();
      assert s == [];
    } else {
      var init, last := s[..|s| - 4], GetU32(s, |s| - 4);
      IdsRoundTripBack(init);
      EncodeIdsSnoc(DecodeIds(init), last);
      U32At(s, |s| - 4, last);
      assert s == init + s[|s| - 4..];
    }
  }

  lemma NoIds()
    ensures EncodeIds([]) == []
  {
  }

  /** Where the fields of the fixed prefix sit. */
  lemma PrefixFields(c: LaneControl, rest: seq<Byte>)
    ensures var s := EncodePrefix(c) + rest;
            && s[0] == c.subtype && s[1] == 0
            && s[2..4] == PutU16(c.laneId) && s[4..6] == PutU16(c.laneCount)
            && s[6..8] == PutU16(|c.sessions| % 0x1_0000) && s[8..] == rest
  {
  }

  /** Unmarshal undoes Marshal. */
  lemma ControlRoundTrip(c: LaneControl)
    requires Marshal(c).Ok?
    ensures Unmarshal(Marshal(c).value) == Ok(c)
  {
    var s := Marshal(c).value;
    PrefixFields(c, EncodeIds(c.sessions));
    assert GetU16(s, 2) == c.laneId by { U16At(s, 2, c.laneId); }
    assert GetU16(s, 4) == c.laneCount by { U16At(s, 4, c.laneCount); }
    assert GetU16(s, 6) == |c.sessions| by { U16At(s, 6, |c.sessions|); }
    assert DecodeIds(s[8..]) == c.sessions by { IdsRoundTrip(c.sessions); }
  }

  lemma PrefixRoundTripBack(s: seq<Byte>)
    requires Unmarshal(s).Ok?
    ensures EncodePrefix(Unmarshal(s).value) == [s[0], 0] + s[2..8]
  {
    U16At(s, 2, GetU16(s, 2));
    U16At(s, 4, GetU16(s, 4));
    U16At(s, 6, GetU16(s, 6));
    assert s[2..8] == s[2..4] + s[4..6] + s[6..8];
  }

  lemma UnmarshalFacts(s: seq<Byte>)
    requires Unmarshal(s).Ok?
    ensures var c := Unmarshal(s).value;
            |s| >= 8 && 0 < c.laneCount && c.laneId < c.laneCount && |c.sessions| <= MAX_SESSIONS
            && EncodeIds(c.sessions) == s[8..]
  {
    IdsRoundTripBack(s[8..]);
  }

  /** Marshal undoes Unmarshal up to the reserved byte: the bytes come back exactly when it was 0. */
  lemma ControlRoundTripBack(s: seq<Byte>)
    requires Unmarshal(s).Ok?
    ensures Marshal(Unmarshal(s).value) == Ok(s[1 := 0])
    ensures Marshal(Unmarshal(s).value) == Ok(s) <==> s[1] == 0
  {
    UnmarshalFacts(s);
    hide Unmarshal, EncodePrefix, GetU16;
    var c := Unmarshal(s).value;
    PrefixRoundTripBack(s);
    assert Marshal(c) == Ok([s[0], 0] + s[2..8] + s[8..]);
    assert s[1 := 0] == [s[0], 0] + s[2..8] + s[8..];
    assert s[1 := 0][1] == 0;
    assert s[1] == 0 ==> s[1 := 0] == s;
  }

  /** NewControlPacketPayload: header and payload of one control frame. */
  function ControlFrame(sequence: U32, c: LaneControl): Result<Frame, ControlError> {
    match Marshal(c)
    case Err(e) => Err(e)
    case Ok(payload) =>
      Ok(Frame(ControlHeader(c.laneId, |payload| % 0x1_0000_0000).(sequence := sequence), payload))
  }

  /** The id loop of Marshal: one big-endian id after another from offset 8 to the end of the buffer. */
  method PutIds(buf: array<Byte>, ids: seq<U32>)
    requires buf.Length == 8 + 4 * |ids|
    modifies buf
    ensures buf[..] == old(buf[..8]) + EncodeIds(ids)
  {
    ghost var prefix := buf[..8];
    var off, i := 8, 0;
    while i < |ids|
      invariant 0 <= i <= |ids| && off == 8 + 4 * i
      invariant buf[..off] == prefix + EncodeIds(ids[..i])
    {
      ghost var before := buf[..off];
      PutBytes(buf, off, PutU32(ids[i]));
      assert buf[..off + 4] == before + PutU32(ids[i]);
      assert ids[..i + 1][..i] == ids[..i];
      off, i := off + 4, i + 1;
    }
    assert ids[..i] == ids && buf[..off] == buf[..];
  }

  lemma FieldsSpliced(s: seq<Byte>, p: seq<Byte>, q: seq<Byte>, r: seq<Byte>)
    requires |s| >= 8 && |p| == |q| == |r| == 2
    ensures Splice(Splice(Splice(s, 2, p), 4, q), 6, r)[..8] == [s[0], s[1]] + p + q + r
  {
  }

  /** Fills a fresh buffer field by field, then the ids. */
  method MarshalControl(c: LaneControl) returns (r: Result<array<Byte>, ControlError>)
    ensures r.Ok? <==> 0 < c.laneCount && c.laneId < c.laneCount && |c.sessions| <= 65535
    ensures r.Err? ==> Marshal(c) == Err(r.error)
    ensures r.Ok? ==> fresh(r.value) && Marshal(c) == Ok(r.value[..])
  {
    hide Splice, PutU16, EncodeIds;
    if c.laneCount == 0 {
      return Err(ZeroLaneCount);
    }
    if c.laneId >= c.laneCount {
      return Err(BadLaneId);
    }
    if |c.sessions| > MAX_SESSIONS {
      return Err(TooManySessions);
    }
    var buf := new Byte[8 + |c.sessions| * 4](_ => 0);
    buf[0] := c.subtype;
    buf[1] := 0;
    FieldsSpliced(buf[..], PutU16(c.laneId), PutU16(c.laneCount), PutU16(|c.sessions|));
    PutBytes(buf, 2, PutU16(c.laneId));
    PutBytes(buf, 4, PutU16(c.laneCount));
    PutBytes(buf, 6, PutU16(|c.sessions|));
    assert buf[..8] == EncodePrefix(c);
    PutIds(buf, c.sessions);
    r := Ok(buf);
  }

  /** The id loop of UnmarshalLaneControl. */
  method GetIds(payload: seq<Byte>, sessionCount: nat) returns (ids: array<U32>)
    requires |payload| == 8 + 4 * sessionCount
    ensures fresh(ids) && ids[..] == DecodeIds(payload[8..])
  {
    hide GetU32;
    ids := new U32[sessionCount](_ => 0);
    var off, i := 8, 0;
    ghost var body := payload[8..];
    while i < sessionCount
      invariant 0 <= i <= sessionCount && off == 8 + 4 * i
      invariant ids[..i] == DecodeIds(body[..4 * i])
    {
      ids[i] := GetU32(payload, off);
      ghost var now := body[..4 * (i + 1)];
      SameNumber(payload, off, now, |now| - 4);
      assert now[..|now| - 4] == body[..4 * i];
      assert ids[..i + 1] == ids[..i] + [ids[i]];
      off, i := off + 4, i + 1;
    }
    assert body[..4 * i] == body && ids[..i] == ids[..];
  }

  lemma SameNumber(s: seq<Byte>, i: nat, t: seq<Byte>, j: nat)
    requires i + 4 <= |s| && j + 4 <= |t| && s[i..i + 4] == t[j..j + 4]
    ensures GetU32(s, i) == GetU32(t, j)
  {
    U32At(s, i, GetU32(t, j));
    U32At(t, j, GetU32(t, j));
  }

  /** Checks the sizes, then reads one id at a time into a fresh slice. */
  method UnmarshalLaneControl(payload: seq<Byte>) returns (r: Result<LaneControl, ControlError>)
    ensures r == Unmarshal(payload)
    ensures r.Ok? <==>
            && |payload| >= 8 && |payload| == 8 + 4 * Two(payload[6], payload[7])
            && Two(payload[2], payload[3]) < Two(payload[4], payload[5])
  {
    hide Two, DecodeIds;
    UnmarshalExactly(payload);
    if |payload| < 8 {
      return Err(TooShort);
    }
    var sessionCount: nat := GetU16(payload, 6);
    var expected := 8 + sessionCount * 4;
    if |payload| != expected {
      return Err(SizeMismatch);
    }
    var subtype, laneId, laneCount := payload[0], GetU16(payload, 2), GetU16(payload, 4);
    if laneCount == 0 {
      return Err(ZeroLaneCount);
    }
    if laneId >= laneCount {
      return Err(BadLaneId);
    }
    var ids := GetIds(payload, sessionCount);
    r := Ok(LaneControl(subtype, laneId, laneCount, ids[..]));
  }
}
