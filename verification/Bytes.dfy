/** Bytes and the fixed-width big-endian integers the wire format is made of. */
module Bytes {

  newtype Byte = b: int | 0 <= b < 0x100
  type U16 = x: int | 0 <= x < 0x1_0000
  type U32 = x: int | 0 <= x < 0x1_0000_0000

  /** The number of values of a uint32. */
  const WRAP: nat := 0x1_0000_0000

  datatype Option<+T> = None | Some(value: T)
  datatype Result<+T, +E> = Ok(value: T) | Err(error: E)

  function PutU16(x: U16): (s: seq<Byte>)
    ensures |s| == 2
  {
    [(x / 0x100) as Byte, (x % 0x100) as Byte]
  }

  /** The big-endian number in s[off..off + 2]. */
  function GetU16(s: seq<Byte>, off: nat): U16
    requires off + 2 <= |s|
  {
    s[off] as int * 0x100 + s[off + 1] as int
  }

  function PutU32(x: U32): (s: seq<Byte>)
    ensures |s| == 4
  {
    PutU16(x / 0x1_0000) + PutU16(x % 0x1_0000)
  }

  /** The big-endian number in s[off..off + 4]. */
  function GetU32(s: seq<Byte>, off: nat): U32
    requires off + 4 <= |s|
  {
    GetU16(s, off) * 0x1_0000 + GetU16(s, off + 2)
  }

  /** Reading gives x exactly when the bytes at off are those written for x. */
  lemma U16At(s: seq<Byte>, off: nat, x: U16)
    requires off + 2 <= |s|
    ensures GetU16(s, off) == x <==> s[off..off + 2] == PutU16(x)
  {
    assert s[off..off + 2] == [s[off], s[off + 1]];
  }

  lemma U32At(s: seq<Byte>, off: nat, x: U32)
    requires off + 4 <= |s|
    ensures GetU32(s, off) == x <==> s[off..off + 4] == PutU32(x)
  {
    U16At(s, off, x / 0x1_0000);
    U16At(s, off + 2, x % 0x1_0000);
    assert s[off..off + 4] == s[off..off + 2] + s[off + 2..off + 4];
    assert s[off..off + 4][..2] == s[off..off + 2] && s[off..off + 4][2..] == s[off + 2..off + 4];
  }

  /** The concatenation of a list of pieces, in order. */
  function Flatten<T>(pieces: seq<seq<T>>): (s: seq<T>)
  {
    if |pieces| == 0 then [] else pieces[0] + Flatten(pieces[1..])
  }

  lemma {:induction false} FlattenAppend<T>(a: seq<seq<T>>, b: seq<seq<T>>)
    ensures Flatten(a + b) == Flatten(a) + Flatten(b)
  {
    if |a| == 0 {
      assert a + b == b;
    } else {
      assert (a + b)[1..] == a[1..] + b;
      calc {
        Flatten(a + b);
        a[0] + Flatten(a[1..] + b);
        { FlattenAppend(a[1..], b); }
        a[0] + (Flatten(a[1..]) + Flatten(b));
        a[0] + Flatten(a[1..]) + Flatten(b);
        Flatten(a) + Flatten(b);
      }
    }
  }

  lemma FlattenSnoc<T>(a: seq<seq<T>>, last: seq<T>)
    ensures Flatten(a + [last]) == Flatten(a) + last
  {
    FlattenAppend(a, [last]);
    assert Flatten([last]) == last + [];
  }

  /** Bytes in a list of pieces. */
  function TotalSize(pieces: seq<seq<Byte>>): nat {
    if |pieces| == 0 then 0 else TotalSize(pieces[..|pieces| - 1]) + |pieces[|pieces| - 1]|
  }

  /** s with the bytes from off on replaced by p. */
  function Splice<T>(s: seq<T>, off: nat, p: seq<T>): (r: seq<T>)
    requires off + |p| <= |s|
    ensures |r| == |s|
  {
    s[..off] + p + s[off + |p|..]
  }

  lemma SpliceAdjacent<T>(s: seq<T>, off: nat, p: seq<T>, q: seq<T>)
    requires off + |p| + |q| <= |s|
    ensures Splice(Splice(s, off, p), off + |p|, q) == Splice(s, off, p + q)
  {
  }
}
