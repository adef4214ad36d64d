/** The 20-byte packet header and the frames built from it (internal/protocol/packet.go). */
module Packet {
  import opened Bytes

  const MAGIC_NUMBER: U32 := 0x54435050
  const VERSION: Byte := 1
  const HEADER_SIZE: nat := 20

  const TYPE_DATA: Byte := 1
  const TYPE_HEARTBEAT: Byte := 2
  const TYPE_CONTROL: Byte := 3

  datatype Header = Header(
    magic: U32, version: Byte, kind: Byte, flags: U16, session: U32, sequence: U32, length: U32)

  datatype HeaderError = BadMagic | BadVersion | BadType

  /** The first complaint about a header, if there is one. */
  function Validate(h: Header): Option<HeaderError> {
    if h.magic != MAGIC_NUMBER then Some(BadMagic)
    else if h.version != VERSION then Some(BadVersion)
    else if h.kind < TYPE_DATA || h.kind > TYPE_CONTROL then Some(BadType)
    else None
  }

  function DataHeader(session: U32, sequence: U32, length: U32): Header {
    Header(MAGIC_NUMBER, VERSION, TYPE_DATA, 0, session, sequence, length)
  }

  function ControlHeader(session: U32, length: U32): Header {
    Header(MAGIC_NUMBER, VERSION, TYPE_CONTROL, 0, session, 0, length)
  }

  function EncodeHeader(h: Header): (s: seq<Byte>)
    ensures |s| == HEADER_SIZE
  {
    PutU32(h.magic) + [h.version, h.kind] + PutU16(h.flags)
    + PutU32(h.session) + PutU32(h.sequence) + PutU32(h.length)
  }

  function DecodeHeader(s: seq<Byte>): Header
    requires |s| >= HEADER_SIZE
  {
    Header(GetU32(s, 0), s[4], s[5], GetU16(s, 6), GetU32(s, 8), GetU32(s, 12), GetU32(s, 16))
  }

  /** Where each field of the header sits in its encoding. */
  lemma EncodedFields(h: Header, rest: seq<Byte>)
    ensures var s := EncodeHeader(h) + rest;
            && s[0..4] == PutU32(h.magic) && s[4] == h.version && s[5] == h.kind
            && s[6..8] == PutU16(h.flags) && s[8..12] == PutU32(h.session)
            && s[12..16] == PutU32(h.sequence) && s[16..20] == PutU32(h.length)
            && s[20..] == rest
  {
  }

  /** Decoding inverts encoding, whatever bytes follow the header. */
  lemma HeaderRoundTrip(h: Header, rest: seq<Byte>)
    ensures DecodeHeader(EncodeHeader(h) + rest) == h
  {
    hide EncodeHeader, PutU16, PutU32, GetU16, GetU32;
    var s := EncodeHeader(h) + rest;
    EncodedFields(h, rest);
    U32At(s, 0, h.magic);
    U16At(s, 6, h.flags);
    U32At(s, 8, h.session);
    U32At(s, 12, h.sequence);
    U32At(s, 16, h.length);
  }

  /** Every 20 bytes are the encoding of exactly the header they decode to. */
  lemma HeaderRoundTripBack(s: seq<Byte>)
    requires |s| >= HEADER_SIZE
    ensures EncodeHeader(DecodeHeader(s)) == s[..HEADER_SIZE]
  {
    var h := DecodeHeader(s);
    U32At(s, 0, h.magic);
    U16At(s, 6, h.flags);
    U32At(s, 8, h.session);
    U32At(s, 12, h.sequence);
    U32At(s, 16, h.length);
    assert s[..HEADER_SIZE]
        == s[0..4] + [s[4], s[5]] + s[6..8] + s[8..12] + s[12..16] + s[16..20];
  }

  lemma SpliceOneMore(was: seq<Byte>, off: nat, s: seq<Byte>, i: nat)
    requires off + |s| <= |was| && i < |s|
    ensures Splice(was, off, s[..i + 1]) == Splice(was, off, s[..i])[off + i := s[i]]
  {
  }

  lemma SpliceNothing(was: seq<Byte>, off: nat, s: seq<Byte>)
    requires off + |s| <= |was|
    ensures Splice(was, off, s[..0]) == was
  {
  }

  /** Copies s over buf[off..off + |s|]. */
  method PutBytes(buf: array<Byte>, off: nat, s: seq<Byte>)
    requires off + |s| <= buf.Length
    modifies buf
    ensures buf[..] == Splice(old(buf[..]), off, s)
  {
    hide Splice;
    var i := 0;
    SpliceNothing(buf[..], off, s);
    while i < |s|
      invariant 0 <= i <= |s|
      invariant buf[..] == Splice(old(buf[..]), off, s[..i])
    {
      SpliceOneMore(old(buf[..]), off, s, i);
      buf[off + i] := s[i];
      i := i + 1;
    }
    assert s[..i] == s;
  }

  /** MarshalTo on the slice buf[off..]: writes the 20 header bytes in place and nothing else. */
  method MarshalTo(h: Header, buf: array<Byte>, off: nat)
    requires off + HEADER_SIZE <= buf.Length
    modifies buf
    ensures buf[..] == Splice(old(buf[..]), off, EncodeHeader(h))
  {
    ghost var was := buf[..];
    PutBytes(buf, off, PutU32(h.magic));
    PutBytes(buf, off + 4, [h.version]);
    SpliceAdjacent(was, off, PutU32(h.magic), [h.version]);
    PutBytes(buf, off + 5, [h.kind]);
    SpliceAdjacent(was, off, PutU32(h.magic) + [h.version], [h.kind]);
    PutBytes(buf, off + 6, PutU16(h.flags));
    ghost var first := PutU32(h.magic) + [h.version, h.kind];
    assert first == PutU32(h.magic) + [h.version] + [h.kind];
    SpliceAdjacent(was, off, first, PutU16(h.flags));
    PutBytes(buf, off + 8, PutU32(h.session));
    SpliceAdjacent(was, off, first + PutU16(h.flags), PutU32(h.session));
    PutBytes(buf, off + 12, PutU32(h.sequence));
    SpliceAdjacent(was, off, first + PutU16(h.flags) + PutU32(h.session), PutU32(h.sequence));
    PutBytes(buf, off + 16, PutU32(h.length));
    SpliceAdjacent(was, off, first + PutU16(h.flags) + PutU32(h.session) + PutU32(h.sequence), PutU32(h.length));
  }

  datatype Frame = Frame(header: Header, payload: seq<Byte>)

  function EncodeFrame(f: Frame): seq<Byte> {
    EncodeHeader(f.header) + f.payload
  }

  function EncodeFrames(fs: seq<Frame>): seq<Byte> {
    if |fs| == 0 then [] else EncodeFrame(fs[0]) + EncodeFrames(fs[1..])
  }

  /** AppendDataPacket builds this frame; its length field is uint32(len(payload)). */
  function DataFrame(session: U32, sequence: U32, payload: seq<Byte>): Frame {
    Frame(DataHeader(session, sequence, |payload| % 0x1_0000_0000), payload)
  }

  lemma Reassociate(a: seq<Byte>, b: seq<Byte>, c: seq<Byte>)
    ensures a + (b + c) == a + b + c
  {
  }

  lemma {:induction false} EncodeFramesAppend(a: seq<Frame>, b: seq<Frame>)
    ensures EncodeFrames(a + b) == EncodeFrames(a) + EncodeFrames(b)
  {
    hide EncodeFrame;
    if |a| == 0 {
      assert a + b == b;
    } else {
      EncodeFramesAppend(a[1..], b);
      assert (a + b)[0] == a[0] && (a + b)[1..] == a[1..] + b;
      Reassociate(EncodeFrame(a[0]), EncodeFrames(a[1..]), EncodeFrames(b));
    }
  }

  lemma EncodeFramesCons(fs: seq<Frame>, rest: seq<Byte>)
    requires |fs| > 0
    ensures EncodeFrames(fs) + rest == EncodeFrame(fs[0]) + (EncodeFrames(fs[1..]) + rest)
  {
    hide EncodeFrame;
  }
}
