/** 32-byte words, and the two byte orders the programs use. */
module Bytes {
  import opened Bits

  type byte = x: int | 0 <= x < 256

  type Bytes32 = s: seq<byte> | |s| == 32 witness seq(32, _ => 0)

  const ZERO: Bytes32 := [
    0, 0, 0, 0, 0, 0, 0, 0, 0, 0, 0, 0, 0, 0, 0, 0,
    0, 0, 0, 0, 0, 0, 0, 0, 0, 0, 0, 0, 0, 0, 0, 0]

  /** The n low bytes of v, lowest first. */
  function LeBytes(v: nat, n: nat): (s: seq<byte>)
    ensures |s| == n
    decreases n
  {
    if n == 0 then [] else [v % 256] + LeBytes(v / 256, n - 1)
  }

  function FromLe(s: seq<byte>): nat
  {
    if s == [] then 0 else s[0] + 256 * FromLe(s[1..])
  }

  /** The n low bytes of v, highest first. */
  function BeBytes(v: nat, n: nat): (s: seq<byte>)
    ensures |s| == n
    decreases n
  {
    if n == 0 then [] else BeBytes(v / 256, n - 1) + [v % 256]
  }

  /** The word a byte string spells, highest byte first: `uint256(bytes32)`. */
  function FromBe(s: seq<byte>): nat
  {
    if s == [] then 0 else 256 * FromBe(s[..|s| - 1]) + s[|s| - 1]
  }

  /** An SSZ integer chunk: eight little-endian bytes, zero-padded. */
  function U64Chunk(v: nat): Bytes32
  {
    LeBytes(v, 8) + ZERO[8..]
  }

  lemma {:induction false} LeRoundTrip(v: nat, n: nat)
    requires v < Pow2(8 * n)
    ensures FromLe(LeBytes(v, n)) == v
    decreases n
  {
    if n > 0 {
      assert Pow2(8 * n) == 256 * Pow2(8 * (n - 1)) by {
        Pow2Add(8, 8 * (n - 1));
        assert Pow2(8) == 256;
      }
      LeRoundTrip(v / 256, n - 1);
    } else {
      assert Pow2(0) == 1;
    }
  }

  lemma {:induction false} BeRoundTrip(s: seq<byte>)
    ensures BeBytes(FromBe(s), |s|) == s
  {
    if s != [] {
      BeRoundTrip(s[..|s| - 1]);
      assert s == s[..|s| - 1] + [s[|s| - 1]];
    }
  }

  /** A word is its high bytes above its low bytes. */
  lemma {:induction false} BeSplit(high: seq<byte>, low: seq<byte>)
    ensures FromBe(high + low) == FromBe(high) * Pow2(8 * |low|) + FromBe(low)
    ensures FromBe(low) < Pow2(8 * |low|)
    decreases |low|
  {
    if low == [] {
      assert high + low == high;
      assert Pow2(0) == 1;
    } else {
      var shorter, last := low[..|low| - 1], low[|low| - 1];
      BeSplit(high, shorter);
      BeLast(high + low);
      BeLast(low);
      assert (high + low)[..|high + low| - 1] == high + shorter;
      hide FromBe, Pow2;
      Pow2Add(8, 8 * |shorter|);
      Pow2Values();
      ScaleUp(FromBe(high), Pow2(8 * |shorter|));
    }
  }

  lemma BeLast(s: seq<byte>)
    requires s != []
    ensures FromBe(s) == 256 * FromBe(s[..|s| - 1]) + s[|s| - 1]
  {
  }

  lemma ScaleUp(a: nat, b: nat)
    ensures 256 * (a * b) == a * (256 * b)
  {
  }

  lemma {:induction false} BeTrailingZeros(v: nat, n: nat, zeros: nat)
    ensures BeBytes(Shl(v, 8 * zeros), n + zeros) == BeBytes(v, n) + seq(zeros, _ => 0)
    decreases zeros
  {
    if zeros > 0 {
      var shorter := Shl(v, 8 * (zeros - 1));
      assert Shl(v, 8 * zeros) == 256 * shorter by {
        ShlShl(v, 8 * (zeros - 1), 8);
        ShlIsTimes(shorter, 8);
        assert Pow2(8) == 256;
      }
      BeTrailingZeros(v, n, zeros - 1);
    }
  }

  /** The chunk determines the integer. */
  lemma U64ChunkInjective(v: uint64, w: uint64)
    requires U64Chunk(v) == U64Chunk(w)
    ensures v == w
  {
    Pow2Values();
    LeRoundTrip(v, 8);
    LeRoundTrip(w, 8);
    assert LeBytes(v, 8) == U64Chunk(v)[..8] == U64Chunk(w)[..8] == LeBytes(w, 8);
  }

  lemma {:induction false} LeByteAt(v: nat, n: nat, i: nat)
    requires i < n
    ensures LeBytes(v, n)[i] == Shr(v, 8 * i) % 256
    decreases n
  {
    if i > 0 {
      LeByteAt(v / 256, n - 1, i - 1);
      ShrByByte(v, 8 * (i - 1));
    }
  }

  lemma ShrByByte(v: nat, k: nat)
    ensures Shr(v, k + 8) == Shr(v / 256, k)
  {
    assert Shr(v, k + 8) == Shr(v / 2, k + 7) == Shr(v / 4, k + 6) == Shr(v / 8, k + 5);
    assert Shr(v / 8, k + 5) == Shr(v / 16, k + 4) == Shr(v / 32, k + 3);
    assert Shr(v / 32, k + 3) == Shr(v / 64, k + 2) == Shr(v / 128, k + 1) == Shr(v / 256, k);
  }

  // ----- the contract's byte reversal

  /** The reversal as the contract spells it: eight masked bytes, each shifted to
      its mirror position and OR-ed together. */
  function ReverseBytes64(value: uint64): nat
  {
    BitOr(BitOr(BitOr(BitOr(BitOr(BitOr(BitOr(
      Shr(BitAnd(value, 0xFF00000000000000), 56),
      Shr(BitAnd(value, 0x00FF000000000000), 40)),
      Shr(BitAnd(value, 0x0000FF0000000000), 24)),
      Shr(BitAnd(value, 0x000000FF00000000), 8)),
      Shl64(BitAnd(value, 0x00000000FF000000), 8)),
      Shl64(BitAnd(value, 0x0000000000FF0000), 24)),
      Shl64(BitAnd(value, 0x000000000000FF00), 40)),
      Shl64(BitAnd(value, 0x00000000000000FF), 56))
  }

  /** The contract's leaf encoding: the reversed word at the top of a bytes32. */
  function ToLittleEndian64(value: uint64): Bytes32
  {
    BeBytes(Shl(ReverseBytes64(value), 192), 32)
  }

  function ByteAt(v: nat, from: nat): (b: nat)
    ensures b < 256
  {
    Shr(v, from) % 256
  }

  lemma MoveDown(v: nat, from: nat, to: nat)
    requires to <= from
    ensures Shr(BitAnd(v, Shl(255, from)), from - to) == Shl(ByteAt(v, from), to)
  {
    AndByteMask(v, from);
    ShlShl(ByteAt(v, from), to, from - to);
    SplitUnique(Shl(ByteAt(v, from), to), from - to, 0);
  }

  lemma MoveUp(v: nat, from: nat, to: nat)
    requires from <= to <= 56
    ensures Shl64(BitAnd(v, Shl(255, from)), to - from) == Shl(ByteAt(v, from), to)
  {
    hide Shl, Shr, BitAnd, LowBits;
    AndByteMask(v, from);
    ShlShl(ByteAt(v, from), from, to - from);
    ByteFits(ByteAt(v, from), to);
    Pow2Monotone(8 + to, 64);
    LowBitsOfSmall(Shl(ByteAt(v, from), to), 64);
  }

  lemma ByteFits(b: nat, to: nat)
    requires b < 256
    ensures Shl(b, to) < Pow2(8 + to)
  {
    ShlLess(b, 256, to, 0);
    ShlIsTimes(256, to);
    Pow2Add(8, to);
    assert Pow2(8) == 256;
  }

  /** OR-ing in one more byte above k bits of data. */
  lemma OrNextByte(low: nat, b: nat, k: nat)
    requires low < Pow2(k) && b < 256
    ensures BitOr(low, Shl(b, k)) == low + Shl(b, k) < Pow2(k + 8)
  {
    OrCommutes(low, Shl(b, k));
    OrOfDisjointIsSum(b, k, low);
    ShlLess(b, 256, k, low);
    ShlIsTimes(256, k);
    Pow2Add(8, k);
    assert Pow2(8) == 256;
  }

  /** Shifting by whole bytes multiplies by powers of 256. */
  lemma ShlByBytes(b: nat)
    ensures Shl(b, 0) == b && Shl(b, 8) == 0x100 * b
    ensures Shl(b, 16) == 0x1_0000 * b && Shl(b, 24) == 0x100_0000 * b
    ensures Shl(b, 32) == 0x1_0000_0000 * b && Shl(b, 40) == 0x100_0000_0000 * b
    ensures Shl(b, 48) == 0x1_0000_0000_0000 * b && Shl(b, 56) == 0x100_0000_0000_0000 * b
  {
    assert Shl(b, 0) == b;
    hide Shl;
    ShlOneByte(b, 0);
    ShlOneByte(b, 8);
    ShlOneByte(b, 16);
    ShlOneByte(b, 24);
    ShlOneByte(b, 32);
    ShlOneByte(b, 40);
    ShlOneByte(b, 48);
  }

  lemma ShlOneByte(b: nat, k: nat)
    ensures Shl(b, k + 8) == 0x100 * Shl(b, k)
  {
    ShlShl(b, k, 8);
    ShlIsTimes(Shl(b, k), 8);
    Pow2Values();
  }

  lemma ReversalIsSum(v: uint64)
    ensures ReverseBytes64(v) ==
      ByteAt(v, 56) + Shl(ByteAt(v, 48), 8) + Shl(ByteAt(v, 40), 16) + Shl(ByteAt(v, 32), 24)
      + Shl(ByteAt(v, 24), 32) + Shl(ByteAt(v, 16), 40) + Shl(ByteAt(v, 8), 48) + Shl(ByteAt(v, 0), 56)
  {
    hide BitOr, BitAnd, Shr, Shl, Shl64, ByteAt, Pow2;
    ShlByBytes(255);
    ShlByBytes(ByteAt(v, 56));
    Pow2Values();
    MoveDown(v, 56, 0);
    MoveDown(v, 48, 8);
    MoveDown(v, 40, 16);
    MoveDown(v, 32, 24);
    MoveUp(v, 24, 32);
    MoveUp(v, 16, 40);
    MoveUp(v, 8, 48);
    MoveUp(v, 0, 56);
    var r1 := Shl(ByteAt(v, 56), 0);
    OrNextByte(r1, ByteAt(v, 48), 8);
    var r2 := BitOr(r1, Shl(ByteAt(v, 48), 8));
    OrNextByte(r2, ByteAt(v, 40), 16);
    var r3 := BitOr(r2, Shl(ByteAt(v, 40), 16));
    OrNextByte(r3, ByteAt(v, 32), 24);
    var r4 := BitOr(r3, Shl(ByteAt(v, 32), 24));
    OrNextByte(r4, ByteAt(v, 24), 32);
    var r5 := BitOr(r4, Shl(ByteAt(v, 24), 32));
    OrNextByte(r5, ByteAt(v, 16), 40);
    var r6 := BitOr(r5, Shl(ByteAt(v, 16), 40));
    OrNextByte(r6, ByteAt(v, 8), 48);
    var r7 := BitOr(r6, Shl(ByteAt(v, 8), 48));
    OrNextByte(r7, ByteAt(v, 0), 56);
  }

  /** Both programs encode the same leaf: the contract's reversal is the
      prover's little-endian chunk, for every uint64. */
  lemma EncodingsAgree(v: uint64)
    ensures ToLittleEndian64(v) == U64Chunk(v)
  {
    hide LeBytes, FromBe, BeBytes, ReverseBytes64, Shl, Shr;
    var s := LeBytes(v, 8);
    forall i | 0 <= i < 8
      ensures s[i] == ByteAt(v, 8 * i)
    {
      LeByteAt(v, 8, i);
    }
    ReversalIsSum(v);
    EightBytesBe(s);
    assert ReverseBytes64(v) == FromBe(s);
    assert ZERO[8..] == seq(24, _ => 0);
    BeRoundTrip(s);
    BeTrailingZeros(FromBe(s), 8, 24);
  }

  lemma EightBytesBe(s: seq<byte>)
    requires |s| == 8
    ensures FromBe(s) ==
      s[7] + Shl(s[6], 8) + Shl(s[5], 16) + Shl(s[4], 24)
      + Shl(s[3], 32) + Shl(s[2], 40) + Shl(s[1], 48) + Shl(s[0], 56)
  {
    hide FromBe, Shl;
    EightBytesHorner(s);
    ShlByBytes(s[6]);
    ShlByBytes(s[5]);
    ShlByBytes(s[4]);
    ShlByBytes(s[3]);
    ShlByBytes(s[2]);
    ShlByBytes(s[1]);
    ShlByBytes(s[0]);
  }

  lemma EightBytesHorner(s: seq<byte>)
    requires |s| == 8
    ensures FromBe(s) == s[7] + 256 * (s[6] + 256 * (s[5] + 256 * (s[4]
                       + 256 * (s[3] + 256 * (s[2] + 256 * (s[1] + 256 * (s[0] as nat)))))))
  {
    hide FromBe;
    assert s[..8] == s && s[..0] == [];
    BeStep(s, 8);
    BeStep(s, 7);
    BeStep(s, 6);
    BeStep(s, 5);
    BeStep(s, 4);
    BeStep(s, 3);
    BeStep(s, 2);
    BeStep(s, 1);
    BeEmpty();
  }

  lemma BeEmpty()
    ensures FromBe([]) == 0
  {
  }

  lemma BeStep(s: seq<byte>, k: nat)
    requires 0 < k <= |s|
    ensures FromBe(s[..k]) == 256 * FromBe(s[..k - 1]) + s[k - 1]
  {
    assert s[..k][..k - 1] == s[..k - 1];
  }
}
