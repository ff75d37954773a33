/**
 * The streaming SHA-1 of `Guid::from_name`, against RFC 3174: a message written in any pieces is
 * padded as in section 4 and hashed as in section 6.1.
 */
module Sha1 {
  type word = bv32
  type message = seq<bv8>

  const BLOCK: nat := 64

  /** The implementation counts chunks in 32 bits. */
  const CHUNKS_MAX: nat := 0xFFFF_FFFF

  // ---- the standard ----

  datatype Hash = Hash(a: word, b: word, c: word, d: word, e: word)

  const INITIAL := Hash(0x67452301, 0xEFCDAB89, 0x98BADCFE, 0x10325476, 0xC3D2E1F0)

  /** Four bytes as a word, most significant first. */
  function WordOf(b0: bv8, b1: bv8, b2: bv8, b3: bv8): word {
    (b0 as bv32 << 24) | (b1 as bv32 << 16) | (b2 as bv32 << 8) | b3 as bv32
  }

  function LowByte(w: word): bv8 {
    var low: word := w & 0xFF;
    low as bv8
  }

  function BytesOf(w: word): (r: message)
    ensures |r| == 4
  {
    [LowByte(w >> 24), LowByte(w >> 16), LowByte(w >> 8), LowByte(w)]
  }

  /** A length as two words, high-order word first (section 4). */
  function LengthBytes(n: nat): (r: message)
    requires n < 0x1_0000_0000_0000_0000
    ensures |r| == 8
  {
    BytesOf((n / 0x1_0000_0000) as bv32) + BytesOf((n % 0x1_0000_0000) as bv32)
  }

  function RotateLeft(w: word, n: nat): word
    requires n < 32
  {
    w.RotateLeft(n)
  }

  /** The functions f(t) of section 5. */
  function F(t: nat, b: word, c: word, d: word): word {
    if t < 20 then (b & c) | (!b & d)
    else if t < 40 then b ^ c ^ d
    else if t < 60 then (b & c) | (b & d) | (c & d)
    else b ^ c ^ d
  }

  /** The constants K(t) of section 5. */
  function K(t: nat): word {
    if t < 20 then 0x5A827999 else if t < 40 then 0x6ED9EBA1 else if t < 60 then 0x8F1BBCDC else 0xCA62C1D6
  }

  /** The words W(t): steps a and b of section 6.1. */
  function W(block: message, t: nat): word
    requires |block| == BLOCK
  {
    if t < 16 then WordOf(block[4 * t], block[4 * t + 1], block[4 * t + 2], block[4 * t + 3])
    else Expand(W(block, t - 3), W(block, t - 8), W(block, t - 14), W(block, t - 16))
  }

  function Expand(w3: word, w8: word, w14: word, w16: word): word { RotateLeft(w3 ^ w8 ^ w14 ^ w16, 1) }

  /** One turn of step d. */
  function Round(t: nat, h: Hash, w: word): Hash {
    Shift(h, Sum(RotateLeft(h.a, 5), F(t, h.b, h.c, h.d), h.e, w, K(t)))
  }

  /** Addition of words wraps around. */
  function Sum(v: word, w: word, x: word, y: word, z: word): word { v + w + x + y + z }

  function Shift(h: Hash, temp: word): Hash { Hash(temp, h.a, RotateLeft(h.b, 30), h.c, h.d) }

  function Rounds(block: message, h: Hash, t: nat): Hash
    requires |block| == BLOCK
  {
    if t == 0 then h else Round(t - 1, Rounds(block, h, t - 1), W(block, t - 1))
  }

  function Add(h: Hash, r: Hash): Hash {
    Hash(h.a + r.a, h.b + r.b, h.c + r.c, h.d + r.d, h.e + r.e)
  }

  /** Steps c to e: one block. */
  function HashBlock(h: Hash, block: message): Hash
    requires |block| == BLOCK
  {
    Add(h, Rounds(block, h, 80))
  }

  /** All whole blocks of a message. */
  function HashBlocks(h: Hash, m: message): Hash
    decreases |m|
  {
    if |m| < BLOCK then h else HashBlocks(HashBlock(h, m[..BLOCK]), m[BLOCK..])
  }

  function ZeroFill(n: nat): (r: message)
    ensures |r| == n
  {
    seq(n, _ => 0)
  }

  /** How many zeros bring a message of this length, with its end bit, to 8 bytes short of a block. */
  function FillLength(length: nat): (n: nat)
    ensures n < BLOCK && (length + 1 + n) % BLOCK == BLOCK - 8
    ensures (length + 1 + n + 8) % BLOCK == 0
  {
    if length % BLOCK < BLOCK - 8 then BLOCK - 9 - length % BLOCK else 2 * BLOCK - 9 - length % BLOCK
  }

  /** Section 4: a one bit, zeros, and the length in bits. */
  function Padded(m: message): (r: message)
    requires |m| * 8 < 0x1_0000_0000_0000_0000
    ensures |r| % BLOCK == 0
  {
    hide LengthBytes, FillLength;
    m + [0x80] + ZeroFill(FillLength(|m|)) + LengthBytes(|m| * 8)
  }

  function Digest(h: Hash): message {
    BytesOf(h.a) + BytesOf(h.b) + BytesOf(h.c) + BytesOf(h.d) + BytesOf(h.e)
  }

  /** The SHA-1 of a message. */
  function Sha1(m: message): message
    requires |m| * 8 < 0x1_0000_0000_0000_0000
  {
    Digest(HashBlocks(INITIAL, Padded(m)))
  }

  /** Blocks hashed one after the other are blocks hashed together. */
  lemma {:induction false} HashBlocksAppend(h: Hash, a: message, b: message)
    requires |a| % BLOCK == 0
    ensures HashBlocks(h, a + b) == HashBlocks(HashBlocks(h, a), b)
    decreases |a|
  {
    hide HashBlock;
    if a == [] {
      assert a + b == b;
    } else {
      assert (a + b)[..BLOCK] == a[..BLOCK] && (a + b)[BLOCK..] == a[BLOCK..] + b;
      HashBlocksAppend(HashBlock(h, a[..BLOCK]), a[BLOCK..], b);
    }
  }

  lemma OneBlock(h: Hash, block: message)
    requires |block| == BLOCK
    ensures HashBlocks(h, block) == HashBlock(h, block)
  {
    hide HashBlock;
    assert block[..BLOCK] == block && block[BLOCK..] == [];
  }

  // ---- the hasher ----

  class Sha1NonSecret {
    const chunk: array<bv8>
    var chunkCount: nat
    var chunkPos: nat
    var results: Hash
    /** Everything written so far. */
    ghost var written: message

    ghost predicate Valid()
      reads this, chunk
    {
      && chunk.Length == BLOCK && chunkPos < BLOCK && chunkCount <= CHUNKS_MAX
      && |written| == chunkCount * BLOCK + chunkPos
      && chunk[..chunkPos] == written[chunkCount * BLOCK..]
      && results == HashBlocks(INITIAL, written[..chunkCount * BLOCK])
    }

    constructor ()
      ensures Valid() && written == [] && fresh(chunk)
    {
      chunk := new bv8[BLOCK](_ => 0);
      chunkCount := 0;
      chunkPos := 0;
      results := INITIAL;
      written := [];
    }

    method WriteU8(val: bv8)
      requires Valid() && |written| < CHUNKS_MAX * BLOCK
      modifies this, chunk
      ensures Valid() && written == old(written) + [val]
    {
      hide HashBlocks, HashBlock;
      ghost var start := chunkCount * BLOCK;
      chunk[chunkPos] := val;
      written := written + [val];
      assert chunk[..chunkPos + 1] == old(written)[start..] + [val];
      assert written[start..] == old(written)[start..] + [val];
      assert written[..start] == old(written)[..start];
      chunkPos := (chunkPos + 1) % BLOCK;
      if chunkPos == 0 {
        assert chunk[..] == chunk[..BLOCK] == written[start..];
        ghost var whole := written[..start];
        assert written == whole + chunk[..];
        HashBlocksAppend(INITIAL, whole, chunk[..]);
        OneBlock(HashBlocks(INITIAL, whole), chunk[..]);
        Drain();
        assert written[..chunkCount * BLOCK] == written;
      }
    }

    method Write(bytes: message)
      requires Valid() && |written| + |bytes| <= CHUNKS_MAX * BLOCK
      modifies this, chunk
      ensures Valid() && written == old(written) + bytes
    {
      for i := 0 to |bytes|
        invariant Valid() && written == old(written) + bytes[..i]
      {
        WriteU8(bytes[i]);
        assert bytes[..i + 1] == bytes[..i] + [bytes[i]];
      }
      assert bytes[..|bytes|] == bytes;
    }

    /** The digest of everything written, in whatever pieces; the hasher ends on a chunk boundary. */
    method Finish() returns (digest: message)
      requires Valid() && |written| <= CHUNKS_MAX * BLOCK && |Padded(written)| <= CHUNKS_MAX * BLOCK
      modifies this, chunk
      ensures Valid() && chunkPos == 0
      ensures digest == Sha1(old(written))
    {
      hide HashBlocks, LengthBytes, BytesOf, FillLength;
      ghost var m := written;
      var totalBitCount := chunkCount * 512 + chunkPos * 8;
      WriteU8(0x80);
      ghost var zeros := 0;
      assert ZeroFill(0) == [];
      while chunkPos != 56
        invariant Valid() && 0 <= zeros <= FillLength(|m|)
        invariant written == m + [0x80] + ZeroFill(zeros)
        decreases FillLength(|m|) - zeros
      {
        FillEnds(|m|, zeros, chunkCount, chunkPos);
        WriteU8(0);
        zeros := zeros + 1;
        assert ZeroFill(zeros) == ZeroFill(zeros - 1) + [0];
      }
      FillEnds(|m|, zeros, chunkCount, chunkPos);
      Write(LengthBytes(totalBitCount));
      assert written == Padded(m);
      Position(|written|, chunkCount, chunkPos);
      assert written[..chunkCount * BLOCK] == written;
      digest := Digest(results);
    }

    /** Hashes the full chunk into the results. */
    method Drain()
      requires chunk.Length == BLOCK
      modifies `results, `chunkCount
      ensures results == HashBlock(old(results), chunk[..]) && chunkCount == old(chunkCount) + 1
    {
      hide Rounds, W;
      var w := Schedule();
      ghost var block := chunk[..];
      RoundsStart(block, results);
      var h := RunChoose(w, results, block);
      h := RunParity(w, h, 20, 0x6ED9EBA1, results, block);
      h := RunMajority(w, h, results, block);
      h := RunParity(w, h, 60, 0xCA62C1D6, results, block);
      results := Add(results, h);
      chunkCount := chunkCount + 1;
    }

    method Schedule() returns (w: array<word>)
      requires chunk.Length == BLOCK
      ensures fresh(w) && w.Length == 80 && IsSchedule(w[..], chunk[..])
    {
      hide WordOf, Expand, W;
      w := new word[80](_ => 0);
      var pos := 0;
      while pos != 16
        invariant 0 <= pos <= 16 && forall t :: 0 <= t < pos ==> w[t] == W(chunk[..], t)
        decreases 16 - pos
      {
        FirstWords(chunk[..], pos);
        w[pos] := WordOf(chunk[pos * 4], chunk[pos * 4 + 1], chunk[pos * 4 + 2], chunk[pos * 4 + 3]);
        pos := pos + 1;
      }
      while pos != 80
        invariant 16 <= pos <= 80 && forall t :: 0 <= t < pos ==> w[t] == W(chunk[..], t)
        decreases 80 - pos
      {
        LaterWords(chunk[..], pos);
        w[pos] := Expand(w[pos - 3], w[pos - 8], w[pos - 14], w[pos - 16]);
        pos := pos + 1;
      }
    }
  }

  lemma FirstWords(block: message, t: nat)
    requires |block| == BLOCK && t < 16
    ensures W(block, t) == WordOf(block[t * 4], block[t * 4 + 1], block[t * 4 + 2], block[t * 4 + 3])
  {
    hide WordOf;
  }

  lemma LaterWords(block: message, t: nat)
    requires |block| == BLOCK && t >= 16
    ensures W(block, t) == Expand(W(block, t - 3), W(block, t - 8), W(block, t - 14), W(block, t - 16))
  {
    hide Expand;
  }

  ghost predicate IsSchedule(w: seq<word>, block: message) {
    |block| == BLOCK && |w| == 80 && forall t :: 0 <= t < 80 ==> w[t] == W(block, t)
  }

  /** The turn of the loops of `drain`, adding in their order. */
  function Turn(h: Hash, f: word, k: word, w: word): Hash {
    Shift(h, Sum(RotateLeft(h.a, 5), f, h.e, k, w))
  }

  lemma TurnIsRound(t: nat, h: Hash, w: word)
    ensures Turn(h, F(t, h.b, h.c, h.d), K(t), w) == Round(t, h, w)
  {
    hide F, K, RotateLeft, Shift, Sum;
    SumOrder(RotateLeft(h.a, 5), F(t, h.b, h.c, h.d), h.e, K(t), w);
  }

  lemma SumOrder(v: word, f: word, e: word, k: word, w: word)
    ensures Sum(v, f, e, k, w) == Sum(v, f, e, w, k)
  {
  }

  lemma RoundsStart(block: message, h: Hash)
    requires |block| == BLOCK
    ensures Rounds(block, h, 0) == h
  {
  }

  lemma NextRound(w: seq<word>, t: nat, h: Hash, start: Hash, block: message)
    requires t < 80 && IsSchedule(w, block) && h == Rounds(block, start, t)
    ensures Turn(h, F(t, h.b, h.c, h.d), K(t), w[t]) == Rounds(block, start, t + 1)
  {
    hide F, K, W, Turn, Round;
    TurnIsRound(t, h, w[t]);
  }

  method RunChoose(w: array<word>, start: Hash, ghost block: message) returns (h: Hash)
    requires |block| == BLOCK && w.Length == 80 && IsSchedule(w[..], block)
    ensures h == Rounds(block, start, 20)
  {
    hide Rounds, RotateLeft, IsSchedule;
    RoundsStart(block, start);
    h := start;
    var pos := 0;
    while pos != 20
      invariant 0 <= pos <= 20 && h == Rounds(block, start, pos)
      decreases 20 - pos
    {
      NextRound(w[..], pos, h, start, block);
      h := Turn(h, (h.b & h.c) | (!h.b & h.d), 0x5A827999, w[pos]);
      pos := pos + 1;
    }
  }

  method RunParity(w: array<word>, from: Hash, first: nat, k: word, ghost start: Hash,
      ghost block: message) returns (h: Hash)
    requires |block| == BLOCK && w.Length == 80 && IsSchedule(w[..], block) && (first == 20 || first == 60)
             && k == K(first)
    requires from == Rounds(block, start, first)
    ensures h == Rounds(block, start, first + 20)
  {
    hide Rounds, RotateLeft, IsSchedule;
    h := from;
    var pos := first;
    while pos != first + 20
      invariant first <= pos <= first + 20 && h == Rounds(block, start, pos)
      decreases first + 20 - pos
    {
      NextRound(w[..], pos, h, start, block);
      h := Turn(h, h.b ^ h.c ^ h.d, k, w[pos]);
      pos := pos + 1;
    }
  }

  method RunMajority(w: array<word>, from: Hash, ghost start: Hash, ghost block: message) returns (h: Hash)
    requires |block| == BLOCK && w.Length == 80 && IsSchedule(w[..], block) && from == Rounds(block, start, 40)
    ensures h == Rounds(block, start, 60)
  {
    hide Rounds, RotateLeft, IsSchedule;
    h := from;
    var pos := 40;
    while pos != 60
      invariant 40 <= pos <= 60 && h == Rounds(block, start, pos)
      decreases 60 - pos
    {
      NextRound(w[..], pos, h, start, block);
      h := Turn(h, (h.b & h.c) | (h.b & h.d) | (h.c & h.d), 0x8F1BBCDC, w[pos]);
      pos := pos + 1;
    }
  }

  lemma Position(length: nat, count: nat, pos: nat)
    requires length == count * BLOCK + pos && pos < BLOCK
    ensures length % BLOCK == pos
  {
  }

  /** The chunk is at its last 8 bytes when, and only when, the fill is complete. */
  lemma FillEnds(length: nat, zeros: nat, count: nat, pos: nat)
    requires zeros <= FillLength(length)
    requires length + 1 + zeros == count * BLOCK + pos && pos < BLOCK
    ensures pos == BLOCK - 8 <==> zeros == FillLength(length)
  {
    Position(length + 1 + zeros, count, pos);
    var fill := FillLength(length);
    var left := fill - zeros;
    assert (length + 1 + zeros + left) % BLOCK == BLOCK - 8;
    if pos == BLOCK - 8 {
      assert left % BLOCK == 0;
    }
  }
}
