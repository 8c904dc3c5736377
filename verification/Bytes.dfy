/** Bounded integers and big-endian scalars, shared by every other module. */
module Bytes {

  type byte = x: int | 0 <= x < 0x100
  type u16 = x: int | 0 <= x < 0x1_0000
  type u32 = x: int | 0 <= x < 0x1_0000_0000

  /** C's unsigned 32-bit addition. */
  function Add32(a: u32, b: nat): u32 { (a + b) % 0x1_0000_0000 }

  /** C's unsigned 16-bit conversion. */
  function Low16(v: nat): u16 { v % 0x1_0000 }

  function U16Be(v: u16): (s: seq<byte>)
    ensures |s| == 2
  {
    [v / 0x100, v % 0x100]
  }

  function U32Be(v: u32): (s: seq<byte>)
    ensures |s| == 4
  {
    [v / 0x100_0000, v / 0x1_0000 % 0x100, v / 0x100 % 0x100, v % 0x100]
  }

  function ReadU16(s: seq<byte>, i: nat): u16
    requires i + 2 <= |s|
  {
    (s[i] as int) * 0x100 + s[i + 1]
  }

  function ReadU32(s: seq<byte>, i: nat): u32
    requires i + 4 <= |s|
  {
    (s[i] as int) * 0x100_0000 + (s[i + 1] as int) * 0x1_0000 + (s[i + 2] as int) * 0x100 + s[i + 3]
  }

  /** s with the bytes of t written over it from position off on. */
  function Overwrite(s: seq<byte>, off: nat, t: seq<byte>): (r: seq<byte>)
    requires off + |t| <= |s|
    ensures |r| == |s|
  {
    s[..off] + t + s[off + |t|..]
  }

  /** The wire image of a scalar determines it, and every two bytes are the image of one. */
  lemma U16RoundTrip(v: u16, s: seq<byte>)
    requires |s| == 2
    ensures ReadU16(U16Be(v), 0) == v
    ensures U16Be(ReadU16(s, 0)) == s
  {
  }

  lemma U32RoundTrip(w: u32, s: seq<byte>)
    requires |s| == 4
    ensures ReadU32(U32Be(w), 0) == w
    ensures U32Be(ReadU32(s, 0)) == s
  {
    var a, b, c := w / 0x100, w / 0x1_0000, w / 0x100_0000;
    assert w == 0x100 * a + w % 0x100;
    assert a == 0x100 * b + a % 0x100;
    assert b == 0x100 * c + b % 0x100;
    var h, l := (s[0] as int) * 0x100 + s[1], (s[2] as int) * 0x100 + s[3];
    assert ReadU32(s, 0) == 0x1_0000 * h + l;
    assert ReadU32(s, 0) / 0x1_0000 == h && ReadU32(s, 0) / 0x100_0000 == s[0];
    assert ReadU32(s, 0) / 0x100 == 0x100 * h + s[2];
  }

  /** Writing b right behind a is writing a + b. */
  lemma OverwriteAppend(s: seq<byte>, off: nat, a: seq<byte>, b: seq<byte>)
    requires off + |a| + |b| <= |s|
    ensures Overwrite(Overwrite(s, off, a), off + |a|, b) == Overwrite(s, off, a + b)
  {
  }

  /** Writing t inside what was just written is writing the patched bytes. */
  lemma OverwritePatch(s: seq<byte>, off: nat, a: seq<byte>, k: nat, t: seq<byte>)
    requires off + |a| <= |s| && k + |t| <= |a|
    ensures Overwrite(Overwrite(s, off, a), off + k, t) == Overwrite(s, off, Overwrite(a, k, t))
  {
  }

  lemma OverwriteSlice(s: seq<byte>, off: nat, a: seq<byte>)
    requires off + |a| <= |s|
    ensures Overwrite(s, off, a)[off..off + |a|] == a
  {
  }

  function Concat(ss: seq<seq<byte>>): seq<byte>
  {
    if ss == [] then [] else ss[0] + Concat(ss[1..])
  }

  lemma {:induction false} ConcatAppend(a: seq<seq<byte>>, b: seq<seq<byte>>)
    ensures Concat(a + b) == Concat(a) + Concat(b)
  {
    if a == [] {
      assert a + b == b;
    } else {
      ConcatAppend(a[1..], b);
      assert (a + b)[1..] == a[1..] + b;
      assert a[0] + (Concat(a[1..]) + Concat(b)) == (a[0] + Concat(a[1..])) + Concat(b);
    }
  }

  /** memcpy of src to dst + off. */
  method CopyInto(dst: array<byte>, off: nat, src: seq<byte>)
    requires off + |src| <= dst.Length
    modifies dst
    ensures dst[..] == Overwrite(old(dst[..]), off, src)
  {
    forall k | 0 <= k < |src| {
      dst[off + k] := src[k];
    }
  }

  /** write_u16_be, write_be16, wr16. */
  method WriteU16(buf: array<byte>, off: nat, v: u16)
    requires off + 2 <= buf.Length
    modifies buf
    ensures buf[..] == Overwrite(old(buf[..]), off, U16Be(v))
  {
    buf[off] := v / 0x100;
    buf[off + 1] := v % 0x100;
  }

  /** write_u32_be, wr32. */
  method WriteU32(buf: array<byte>, off: nat, v: u32)
    requires off + 4 <= buf.Length
    modifies buf
    ensures buf[..] == Overwrite(old(buf[..]), off, U32Be(v))
  {
    buf[off] := v / 0x100_0000;
    buf[off + 1] := v / 0x1_0000 % 0x100;
    buf[off + 2] := v / 0x100 % 0x100;
    buf[off + 3] := v % 0x100;
  }
}
