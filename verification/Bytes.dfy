/** Bytes, 16-bit words in either byte order, and the few sequence facts every codec module uses. */
module Bytes {
  type byte = x: int | 0 <= x < 256
  type bytes = seq<byte>
  type u16 = x: int | 0 <= x < 65536
  type u64 = x: int | 0 <= x < 0x1_0000_0000_0000_0000

  /** The word stored in the first two bytes of `s`, in the order the event header names. */
  function ReadU16(bigEndian: bool, s: bytes, pos: nat): (r: u16)
    requires pos + 2 <= |s|
  {
    if bigEndian then s[pos] as int * 256 + s[pos + 1] else s[pos + 1] as int * 256 + s[pos]
  }

  function WriteU16(bigEndian: bool, v: u16): (r: bytes)
    ensures |r| == 2
    ensures ReadU16(bigEndian, r, 0) == v
  {
    if bigEndian then [v / 256, v % 256] else [v % 256, v / 256]
  }

  /** The bytes at a position, none if they are not all there. */
  function Slice(s: bytes, pos: nat, length: nat): bytes {
    if pos + length <= |s| then s[pos..pos + length] else []
  }

  function Zeros(n: nat): (r: bytes)
    ensures |r| == n && forall i :: 0 <= i < n ==> r[i] == 0
  {
    seq(n, _ => 0)
  }

  /** Whether `part` lies in `s` at offset `pos`. */
  ghost predicate At(s: bytes, pos: nat, part: bytes) {
    pos + |part| <= |s| && s[pos..pos + |part|] == part
  }

  lemma AtSplit(s: bytes, pos: nat, a: bytes, b: bytes)
    requires At(s, pos, a + b)
    ensures At(s, pos, a) && At(s, pos + |a|, b)
  {
    var whole := s[pos..pos + |a + b|];
    assert s[pos..pos + |a|] == whole[..|a|];
    assert s[pos + |a|..pos + |a| + |b|] == whole[|a|..];
  }

  lemma AtJoin(s: bytes, pos: nat, a: bytes, b: bytes)
    requires At(s, pos, a) && At(s, pos + |a|, b)
    ensures At(s, pos, a + b)
  {
  }

  lemma AtSlice(s: bytes, pos: nat, part: bytes, i: nat, j: nat)
    requires At(s, pos, part) && i <= j <= |part|
    ensures s[pos + i..pos + j] == part[i..j]
  {
    forall k | 0 <= k < j - i ensures s[pos + i..pos + j][k] == part[i..j][k] {
      AtIndex(s, pos, part, i + k);
    }
  }

  lemma AtIndex(s: bytes, pos: nat, part: bytes, i: nat)
    requires At(s, pos, part) && i < |part|
    ensures s[pos + i] == part[i]
  {
    assert s[pos..pos + |part|][i] == s[pos + i];
  }

  lemma ReadWritten(bigEndian: bool, s: bytes, pos: nat, v: u16)
    requires At(s, pos, WriteU16(bigEndian, v))
    ensures ReadU16(bigEndian, s, pos) == v
  {
    AtIndex(s, pos, WriteU16(bigEndian, v), 0);
    AtIndex(s, pos, WriteU16(bigEndian, v), 1);
  }

  /** Reading and writing a word are inverse in both directions. */
  lemma WrittenRead(bigEndian: bool, s: bytes, pos: nat)
    requires pos + 2 <= |s|
    ensures s[pos..pos + 2] == WriteU16(bigEndian, ReadU16(bigEndian, s, pos))
  {
  }
}
