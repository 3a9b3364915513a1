/** Bytes and the little-endian fixed-width integers the capture format is made of. */
module Bytes {
  type Byte = b: nat | b < 256

  const TWO_TO_16: nat := 0x1_0000
  const TWO_TO_32: nat := 0x1_0000_0000

  function Encode16(n: nat): (r: seq<Byte>)
    ensures |r| == 2
  {
    [n % 256, n / 256 % 256]
  }

  function Encode32(n: nat): (r: seq<Byte>)
    ensures |r| == 4
  {
    [n % 256, n / 256 % 256, n / 256 / 256 % 256, n / 256 / 256 / 256 % 256]
  }

  function Decode16(b: seq<Byte>, at: nat): (r: nat)
    requires at + 2 <= |b|
    ensures r < TWO_TO_16
  {
    var b0: nat, b1: nat := b[at], b[at + 1];
    b0 + 256 * b1
  }

  function Decode32(b: seq<Byte>, at: nat): (r: nat)
    requires at + 4 <= |b|
    ensures r < TWO_TO_32
  {
    var b0: nat, b1: nat, b2: nat, b3: nat := b[at], b[at + 1], b[at + 2], b[at + 3];
    b0 + 256 * b1 + 0x1_0000 * b2 + 0x100_0000 * b3
  }

  /** The least significant byte comes first. */
  lemma LittleEndian(a: Byte, b: Byte, c: Byte, d: Byte)
    ensures Encode16(a + 0x100 * b) == [a, b] && Decode16([a, b], 0) == a + 0x100 * b
    ensures var n := a + 0x100 * b + 0x1_0000 * c + 0x100_0000 * d;
      Encode32(n) == [a, b, c, d] && Decode32([a, b, c, d], 0) == n
  {
    LowByte(a, b + 0x100 * c + 0x1_0000 * d);
    LowByte(b, c + 0x100 * d);
    LowByte(c, d);
    LowByte(a, b);
  }

  lemma LowByte(a: Byte, rest: nat)
    ensures var n := a + 0x100 * rest; n % 256 == a && n / 256 == rest
  {}

  lemma FieldIs(s: seq<Byte>, at: nat, a: Byte, b: Byte, c: Byte, d: Byte)
    requires at + 4 <= |s|
    ensures Decode32(s, at) == a + 0x100 * b + 0x1_0000 * c + 0x100_0000 * d <==> s[at..at + 4] == [a, b, c, d]
  {
    LittleEndian(s[at], s[at + 1], s[at + 2], s[at + 3]);
    LittleEndian(a, b, c, d);
    assert s[at..at + 4] == [s[at], s[at + 1], s[at + 2], s[at + 3]];
  }

  lemma RoundTrip16(n: nat)
    requires n < TWO_TO_16
    ensures Decode16(Encode16(n), 0) == n
  {}

  lemma RoundTrip32(n: nat)
    requires n < TWO_TO_32
    ensures Decode32(Encode32(n), 0) == n
  {}

  /** A field decodes the same wherever the bytes around it come from. */
  lemma DecodeWithin(pre: seq<Byte>, field: seq<Byte>, post: seq<Byte>)
    ensures |field| >= 2 ==> Decode16(pre + field + post, |pre|) == Decode16(field, 0)
    ensures |field| >= 4 ==> Decode32(pre + field + post, |pre|) == Decode32(field, 0)
  {}

  function Min(a: nat, b: nat): nat {
    if a <= b then a else b
  }

  /** All the blocks in order, end to end. */
  function Join(blocks: seq<seq<Byte>>): (r: seq<Byte>)
  {
    if blocks == [] then [] else blocks[0] + Join(blocks[1..])
  }

  lemma {:induction false} JoinAppend(a: seq<seq<Byte>>, b: seq<seq<Byte>>)
    ensures Join(a + b) == Join(a) + Join(b)
  {
    if a == [] {
      assert a + b == b;
    } else {
      assert (a + b)[1..] == a[1..] + b;
      JoinAppend(a[1..], b);
    }
  }

  lemma JoinOne(a: seq<seq<Byte>>, x: seq<Byte>)
    ensures Join(a + [x]) == Join(a) + x
  {
    JoinAppend(a, [x]);
    assert Join([x]) == x + Join([]);
  }

  /** v with d written over it from offset at on. */
  function Overwritten(v: seq<Byte>, at: nat, d: seq<Byte>): (x: seq<Byte>)
    requires at + |d| <= |v|
    ensures |x| == |v|
  {
    v[..at] + d + v[at + |d|..]
  }

  lemma OverwrittenFront(v: seq<Byte>, at: nat, d: seq<Byte>)
    requires at + |d| <= |v|
    ensures Overwritten(v, at, d)[..at + |d|] == v[..at] + d
  {}

  /** Copying a block of memory into dst. */
  method CopyInto(dst: array<Byte>, at: nat, src: seq<Byte>)
    requires at + |src| <= dst.Length
    modifies dst
    ensures dst[..] == Overwritten(old(dst[..]), at, src)
  {
    forall k | 0 <= k < |src| {
      dst[at + k] := src[k];
    }
  }
}
