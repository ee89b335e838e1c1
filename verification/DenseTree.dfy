/** The test-vector generator's dense hashing and packing: whole layers in
    memory, against the same complete tree the sparse prover walks. */
module DenseTree {
  import opened Bits
  import opened Bytes
  import opened Merkle
  import opened SparseProof

  /** Layer k of the complete tree: the roots of its subtrees of depth k. */
  ghost predicate IsLayer<D>(H: (D, D) -> D, zero: D, fields: seq<D>, layer: seq<D>, k: nat, depth: nat)
  {
    k <= depth && |layer| == Pow2(depth - k) &&
    forall i :: 0 <= i < |layer| ==>
      layer[i] == Root(H, Complete(zero, Chunks(fields), Shl(i, k), k))
  }

  method HashContainerFields<D>(H: (D, D) -> D, zero: D, fields: seq<D>, depth: nat) returns (root: D)
    requires depth < 64 && |fields| <= Pow2(depth)
    ensures root == Root(H, PaddedTree(zero, fields, depth))
  {
    var leaves := seq(Pow2(depth), _ => zero);
    for i := 0 to |fields|
      invariant |leaves| == Pow2(depth)
      invariant forall j :: 0 <= j < |leaves| ==> leaves[j] == if j < i then fields[j] else zero
    {
      leaves := leaves[i := fields[i]];
    }
    var layer := leaves;
    ghost var k := 0;
    while |layer| > 1
      invariant IsLayer(H, zero, fields, layer, k, depth)
      decreases |layer|
    {
      var next := [];
      for i := 0 to |layer| / 2
        invariant |next| == i
        invariant forall j :: 0 <= j < i ==> next[j] == H(layer[2 * j], layer[2 * j + 1])
      {
        next := next + [H(layer[2 * i], layer[2 * i + 1])];
      }
      NextLayer(H, zero, fields, layer, next, k, depth);
      layer := next;
      k := k + 1;
    }
    OneNodeLayer(depth - k);
    ShlIsTimes(0, depth);
    root := layer[0];
  }

  lemma OneNodeLayer(d: nat)
    requires Pow2(d) == 1
    ensures d == 0
  {
  }

  lemma NextLayer<D>(H: (D, D) -> D, zero: D, fields: seq<D>, layer: seq<D>, next: seq<D>,
                     k: nat, depth: nat)
    requires IsLayer(H, zero, fields, layer, k, depth) && |layer| > 1
    requires |next| == |layer| / 2
    requires forall j :: 0 <= j < |next| ==> next[j] == H(layer[2 * j], layer[2 * j + 1])
    ensures IsLayer(H, zero, fields, next, k + 1, depth)
  {
    Pow2Double(depth - k - 1);
    forall i | 0 <= i < |next|
      ensures next[i] == Root(H, Complete(zero, Chunks(fields), Shl(i, k + 1), k + 1))
    {
      hide Shl, Pow2;
      ShlDouble(i, k);
      ShlByParity(2 * i + 1, k);
      assert (2 * i + 1) / 2 == i;
      assert layer[2 * i] == Root(H, Complete(zero, Chunks(fields), Shl(2 * i, k), k));
      assert layer[2 * i + 1] == Root(H, Complete(zero, Chunks(fields), Shl(2 * i + 1, k), k));
    }
  }

  method ZeroHash<D>(H: (D, D) -> D, zero: D, depth: nat) returns (h: D)
    ensures h == ZeroRoot(H, zero, depth)
  {
    h := zero;
    ZeroRootStep(H, zero, 0);
    for i := 0 to depth
      invariant h == ZeroRoot(H, zero, i)
    {
      ZeroRootStep(H, zero, i);
      h := H(h, h);
    }
  }

  // ----- packing u64 lists

  /** Byte k of the packed chunks holds byte k % 8 of value k / 8, or zero. */
  function PackedByte(values: seq<uint64>, k: nat): byte
  {
    if k / 8 < |values| then LeBytes(values[k / 8], 8)[k % 8] else 0
  }

  function ChunkCount(n: nat): nat
  {
    if n == 0 then 1 else (n + 3) / 4
  }

  function WriteAt(c: Bytes32, at: nat, bytes: seq<byte>): Bytes32
    requires at + |bytes| <= 32
  {
    c[..at] + bytes + c[at + |bytes|..]
  }

  ghost predicate Packed(values: seq<uint64>, chunks: seq<Bytes32>)
  {
    |chunks| == ChunkCount(|values|) &&
    forall c, k :: 0 <= c < |chunks| && 0 <= k < 32 ==> chunks[c][k] == PackedByte(values, 32 * c + k)
  }

  method PackU64List(values: seq<uint64>) returns (chunks: seq<Bytes32>)
    ensures Packed(values, chunks)
    ensures |values| <= 4 * |chunks| && (4 * (|chunks| - 1) < |values| || |chunks| == 1)
  {
    hide PackedByte;
    chunks := [];
    var at := 0;
    while at < |values|
      invariant at == 4 * |chunks| < |values| + 4
      invariant forall c, k :: 0 <= c < |chunks| && 0 <= k < 32 ==>
        chunks[c][k] == PackedByte(values, 32 * c + k)
    {
      var size := if at + 4 <= |values| then 4 else |values| - at;
      var c := PackChunk(values, at, size);
      chunks := chunks + [c];
      at := at + 4;
    }
    if chunks == [] {
      NothingPacked(values);
      chunks := [ZERO];
    }
  }

  lemma NothingPacked(values: seq<uint64>)
    requires values == []
    ensures forall k: nat :: PackedByte(values, k) == 0
  {
  }

  /** One round of the outer loop: up to four values into one chunk. */
  method PackChunk(values: seq<uint64>, at: nat, size: nat) returns (c: Bytes32)
    requires at < |values| && size == if at + 4 <= |values| then 4 else |values| - at
    ensures forall k :: 0 <= k < 32 ==> c[k] == PackedByte(values, 8 * at + k)
  {
    hide LeBytes;
    c := ZERO;
    for i := 0 to size
      invariant forall k :: 0 <= k < 32 ==>
        c[k] == if k < 8 * i then PackedByte(values, 8 * at + k) else 0
    {
      PackedLane(values, at + i);
      c := WriteAt(c, 8 * i, LeBytes(values[at + i], 8));
    }
  }

  lemma PackedLane(values: seq<uint64>, n: nat)
    requires n < |values|
    ensures forall k :: 0 <= k < 8 ==> PackedByte(values, 8 * n + k) == LeBytes(values[n], 8)[k]
  {
    forall k | 0 <= k < 8
      ensures PackedByte(values, 8 * n + k) == LeBytes(values[n], 8)[k]
    {
      assert (8 * n + k) / 8 == n && (8 * n + k) % 8 == k;
    }
  }

  function Lane(c: Bytes32, i: nat): seq<byte>
    requires i < 4
  {
    c[8 * i..8 * i + 8]
  }

  /** Every lane decodes to the value packed there, or to zero past the end. */
  lemma LanesDecode(values: seq<uint64>, chunks: seq<Bytes32>, c: nat, i: nat)
    requires Packed(values, chunks) && c < |chunks| && i < 4
    ensures FromLe(Lane(chunks[c], i)) == if 4 * c + i < |values| then values[4 * c + i] else 0
  {
    hide LeBytes, FromLe, PackedByte, Pow2;
    var n := 4 * c + i;
    var v: uint64 := if n < |values| then values[n] else 0;
    if n < |values| {
      PackedLane(values, n);
    } else {
      PaddedLane(values, n);
    }
    forall k | 0 <= k < 8
      ensures Lane(chunks[c], i)[k] == LeBytes(v, 8)[k]
    {
      assert chunks[c][8 * i + k] == PackedByte(values, 8 * n + k);
    }
    assert Lane(chunks[c], i) == LeBytes(v, 8);
    Pow2Values();
    LeRoundTrip(v, 8);
  }

  lemma PaddedLane(values: seq<uint64>, n: nat)
    requires n >= |values|
    ensures forall k :: 0 <= k < 8 ==> PackedByte(values, 8 * n + k) == LeBytes(0, 8)[k]
  {
    assert LeBytes(0, 8) == [0, 0, 0, 0, 0, 0, 0, 0];
  }

  /** The chunks and the length determine the list. */
  lemma PackingInjective(values: seq<uint64>, values': seq<uint64>, chunks: seq<Bytes32>)
    requires |values| == |values'| && Packed(values, chunks) && Packed(values', chunks)
    ensures values == values'
  {
    hide Packed, FromLe, Lane;
    forall n | 0 <= n < |values|
      ensures values[n] == values'[n]
    {
      PackedCount(values, chunks);
      LanesDecode(values, chunks, n / 4, n % 4);
      LanesDecode(values', chunks, n / 4, n % 4);
    }
  }

  lemma PackedCount(values: seq<uint64>, chunks: seq<Bytes32>)
    requires Packed(values, chunks)
    ensures |chunks| == ChunkCount(|values|)
  {
  }
}
