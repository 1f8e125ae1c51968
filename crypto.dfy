/**
 * The Merkle-tree commitment over model weights.
 *
 * SHA-256 is not modelled: `h` stands for "hex digest of the UTF-8 text" and `hb`
 * for "hex digest of raw bytes"; both are arbitrary deterministic functions, so
 * every property below holds whatever the hash is.
 */
module Crypto {
  import opened Common

  /** `hash_string` / `MerkleTree._hash`: the hex digest of a text. */
  type TextHash = string -> string

  /** `hashlib.sha256(chunk).hexdigest()`: the hex digest of raw bytes. */
  type ByteHash = seq<byte> -> string

  /** One entry of a proof path: the sibling's hash and the side ("left" or "right") it sits on. */
  datatype ProofStep = ProofStep(sibling: string, position: string)

  // ---------------------------------------------------------------------------
  // The tree, as a specification

  /** The partner of the node at even index `i`: its right neighbour, or itself when it is last. */
  function RightPartner(layer: seq<string>, i: nat): string
    requires i < |layer|
  {
    if i + 1 < |layer| then layer[i + 1] else layer[i]
  }

  /**
   * The layer above `layer`: neighbours hashed pairwise, a last unpaired node
   * hashed with a copy of itself.
   */
  function NextLayer(h: TextHash, layer: seq<string>): (next: seq<string>)
    ensures |next| == (|layer| + 1) / 2
  {
    seq((|layer| + 1) / 2, j requires 0 <= j < (|layer| + 1) / 2 => h(layer[2 * j] + RightPartner(layer, 2 * j)))
  }

  /** Every layer from `layer` up to the one-node root layer. */
  function LayersFrom(h: TextHash, layer: seq<string>): (ls: seq<seq<string>>)
    requires |layer| >= 1
    ensures |ls| >= 1 && |ls[|ls| - 1]| == 1
    decreases |layer|
  {
    if |layer| == 1 then [layer] else [layer] + LayersFrom(h, NextLayer(h, layer))
  }

  /** The bottom layer: the hash of each leaf. */
  function LeafLayer(h: TextHash, leaves: seq<string>): (layer: seq<string>)
    ensures |layer| == |leaves|
  {
    seq(|leaves|, i requires 0 <= i < |leaves| => h(leaves[i]))
  }

  /** The layers `MerkleTree` stores: none for no leaves. */
  function BuildLayers(h: TextHash, leaves: seq<string>): seq<seq<string>>
  {
    if leaves == [] then [] else LayersFrom(h, LeafLayer(h, leaves))
  }

  /** The root `MerkleTree` computes. */
  function RootOf(h: TextHash, leaves: seq<string>): string
  {
    if leaves == [] then h("")
    else
      var ls := LayersFrom(h, LeafLayer(h, leaves));
      ls[|ls| - 1][0]
  }

  /**
   * The shape of the layers: the first is the given layer, each next one is
   * `NextLayer` of the one below with ceil(n/2) nodes, every layer but the last
   * has more than one node, and the last has exactly one.
   */
  lemma {:induction false} LayersShape(h: TextHash, layer: seq<string>)
    requires |layer| >= 1
    ensures var ls := LayersFrom(h, layer);
      && |ls| >= 1 && ls[0] == layer
      && |ls[|ls| - 1]| == 1
      && (forall k :: 0 <= k < |ls| - 1 ==> |ls[k]| > 1)
      && (forall k :: 0 <= k < |ls| - 1 ==> ls[k + 1] == NextLayer(h, ls[k]))
      && (forall k :: 0 <= k < |ls| - 1 ==> |ls[k + 1]| == (|ls[k]| + 1) / 2)
    decreases |layer|
  {
    if |layer| > 1 {
      var next := NextLayer(h, layer);
      LayersShape(h, next);
      var ls := LayersFrom(h, layer);
      assert ls == [layer] + LayersFrom(h, next);
      assert forall k :: 1 <= k < |ls| ==> ls[k] == LayersFrom(h, next)[k - 1];
    }
  }

  /**
   * What `MerkleTree` promises about its layers: no leaves gives no layers and
   * root `h("")`; otherwise the first layer hashes each leaf, each layer is the
   * pairwise hash of the one below, and the root is the single node of the last.
   */
  lemma TreeShape(h: TextHash, leaves: seq<string>)
    ensures leaves == [] ==> BuildLayers(h, leaves) == [] && RootOf(h, leaves) == h("")
    ensures leaves != [] ==> var ls := BuildLayers(h, leaves);
      && |ls| >= 1
      && |ls[0]| == |leaves|
      && (forall i :: 0 <= i < |leaves| ==> ls[0][i] == h(leaves[i]))
      && (forall k :: 0 <= k < |ls| - 1 ==> ls[k + 1] == NextLayer(h, ls[k]))
      && |ls[|ls| - 1]| == 1
      && ls[|ls| - 1][0] == RootOf(h, leaves)
  {
    if leaves != [] {
      LayersShape(h, LeafLayer(h, leaves));
    }
  }

  // ---------------------------------------------------------------------------
  // Proof paths, as a specification

  /** The entry `get_proof` adds for the node at `index` of `layer` (none when the sibling index is out of range). */
  function StepAt(layer: seq<string>, index: nat): seq<ProofStep>
  {
    var siblingIndex := if index % 2 == 0 then (if index + 1 < |layer| then index + 1 else index) else index - 1;
    var position := if index % 2 == 0 then "right" else "left";
    if siblingIndex < |layer| then [ProofStep(layer[siblingIndex], position)] else []
  }

  /** The proof `get_proof` emits: one step per layer below the root layer, the index halving each time. */
  function ProofPath(layers: seq<seq<string>>, index: nat): seq<ProofStep>
    decreases |layers|
  {
    if |layers| <= 1 then [] else StepAt(layers[0], index) + ProofPath(layers[1..], index / 2)
  }

  /** One step of `verify_proof`: the sibling goes first only for "left", second for any other tag. */
  function Combine(h: TextHash, current: string, step: ProofStep): string
  {
    if step.position == "left" then h(step.sibling + current) else h(current + step.sibling)
  }

  /** The hash `verify_proof` arrives at after folding the whole proof into `current`. */
  function FoldProof(h: TextHash, current: string, proof: seq<ProofStep>): string
    decreases |proof|
  {
    if proof == [] then current else FoldProof(h, Combine(h, current, proof[0]), proof[1..])
  }

  /** Emitting the step of layer `k` leaves the path from layer `k + 1` still to go. */
  lemma ProofPathUnfold(layers: seq<seq<string>>, k: nat, index: nat, done: seq<ProofStep>)
    requires k < |layers| - 1
    ensures done + ProofPath(layers[k..], index) == (done + StepAt(layers[k], index)) + ProofPath(layers[k + 1..], index / 2)
  {
    assert layers[k..][1..] == layers[k + 1..];
  }

  /** Hashing the neighbours of the padded layer two by two gives the next layer. */
  lemma PaddedPairs(h: TextHash, layer: seq<string>, padded: seq<string>, next: seq<string>)
    requires |layer| >= 1
    requires |padded| == |layer| + |layer| % 2
    requires forall k :: 0 <= k < |layer| ==> padded[k] == layer[k]
    requires |layer| % 2 == 1 ==> padded[|layer|] == layer[|layer| - 1]
    requires |next| == |padded| / 2
    requires forall j :: 0 <= j < |next| ==> next[j] == h(padded[2 * j] + padded[2 * j + 1])
    ensures next == NextLayer(h, layer)
  {
    var want := NextLayer(h, layer);
    assert |want| == |next| by {
      if |layer| % 2 == 0 {
        assert |padded| == |layer|;
      } else {
        assert |padded| == |layer| + 1;
      }
    }
    forall j | 0 <= j < |next|
      ensures next[j] == want[j]
    {
      var i := 2 * j;
      PaddedPairAt(layer, padded, i);
      var a, b := padded[i], padded[i + 1];
      assert next[j] == h(a + b);
      assert want[j] == h(a + b);
    }
  }

  /** The node after an even index of the padded layer is that node's right partner. */
  lemma PaddedPairAt(layer: seq<string>, padded: seq<string>, i: nat)
    requires |padded| == |layer| + |layer| % 2
    requires forall k :: 0 <= k < |layer| ==> padded[k] == layer[k]
    requires |layer| % 2 == 1 ==> padded[|layer|] == layer[|layer| - 1]
    requires i % 2 == 0 && i + 1 < |padded|
    ensures i < |layer| && padded[i] == layer[i] && padded[i + 1] == RightPartner(layer, i)
  {
    if i + 1 == |layer| {
      assert |layer| % 2 == 1;
    }
  }

  /** Building one more layer leaves the layers above it still to build. */
  lemma LayersFromStep(h: TextHash, layer: seq<string>, built: seq<seq<string>>)
    requires |layer| > 1
    ensures built + LayersFrom(h, layer)[1..] == (built + [NextLayer(h, layer)]) + LayersFrom(h, NextLayer(h, layer))[1..]
  {
    assert LayersFrom(h, layer) == [layer] + LayersFrom(h, NextLayer(h, layer));
  }

  /** A node that is last in an odd-length layer is its own "right" sibling. */
  lemma LastOddNodeIsOwnSibling(layer: seq<string>)
    requires |layer| % 2 == 1
    ensures StepAt(layer, |layer| - 1) == [ProofStep(layer[|layer| - 1], "right")]
  {
  }

  /** For a node of a layer with more than one node, the step combines it into its parent. */
  lemma StepReachesParent(h: TextHash, layer: seq<string>, i: nat)
    requires |layer| > 1 && i < |layer|
    ensures |StepAt(layer, i)| == 1
    ensures Combine(h, layer[i], StepAt(layer, i)[0]) == NextLayer(h, layer)[i / 2]
  {
    var p := i / 2;
    assert NextLayer(h, layer)[p] == h(layer[2 * p] + RightPartner(layer, 2 * p));
    if i % 2 == 1 {
      assert 2 * p == i - 1;
    } else {
      assert 2 * p == i;
    }
  }

  /** From any node, the proof path has one entry per non-root layer and folds up to the root. */
  lemma {:induction false} PathFoldsToRoot(h: TextHash, layer: seq<string>, i: nat)
    requires |layer| >= 1 && i < |layer|
    ensures var ls := LayersFrom(h, layer);
      && |ProofPath(ls, i)| == |ls| - 1
      && FoldProof(h, layer[i], ProofPath(ls, i)) == ls[|ls| - 1][0]
    decreases |layer|
  {
    LayersShape(h, layer);
    var ls := LayersFrom(h, layer);
    if |layer| > 1 {
      var next := NextLayer(h, layer);
      StepReachesParent(h, layer, i);
      PathFoldsToRoot(h, next, i / 2);
      LayersShape(h, next);
      var rest := LayersFrom(h, next);
      assert ls == [layer] + rest;
      assert ls[1..] == rest;
      var path := ProofPath(ls, i);
      assert path == StepAt(layer, i) + ProofPath(rest, i / 2);
      assert path[1..] == ProofPath(rest, i / 2);
      assert FoldProof(h, layer[i], path) == FoldProof(h, next[i / 2], ProofPath(rest, i / 2));
    }
  }

  /**
   * The round trip: for every valid leaf index, the proof has len(layers) - 1
   * entries and verifies the hashed leaf against the root.
   */
  lemma ProofRoundTrip(h: TextHash, leaves: seq<string>, i: nat)
    requires i < |leaves|
    ensures |ProofPath(BuildLayers(h, leaves), i)| == |BuildLayers(h, leaves)| - 1
    ensures FoldProof(h, h(leaves[i]), ProofPath(BuildLayers(h, leaves), i)) == RootOf(h, leaves)
  {
    PathFoldsToRoot(h, LeafLayer(h, leaves), i);
  }

  // ---------------------------------------------------------------------------
  // The tree object

  /** `MerkleTree`: the leaves, the stored layers and the root, all fixed by the constructor. */
  class MerkleTree {
    const h: TextHash
    const leaves: seq<string>
    var layers: seq<seq<string>>
    var root: string

    ghost predicate Valid()
      reads this
    {
      layers == BuildLayers(h, leaves) && root == RootOf(h, leaves)
    }

    /** `__init__` running `_build_tree`. */
    constructor (h: TextHash, leaves: seq<string>)
      ensures this.h == h && this.leaves == leaves
      ensures Valid()
    {
      this.h := h;
      this.leaves := leaves;
      if leaves == [] {
        layers := [];
        root := h("");
      } else {
        var current := LeafLayer(h, leaves);
        var built := [current];
        ghost var target := LayersFrom(h, current);
        while |current| > 1
          invariant |current| >= 1 && |built| >= 1
          invariant built[|built| - 1] == current
          invariant built + LayersFrom(h, current)[1..] == target
          decreases |current|
        {
          var next := HashPairs(h, current);
          LayersFromStep(h, current, built);
          built := built + [next];
          current := next;
        }
        assert LayersFrom(h, current) == [current];
        assert built == target;
        layers := built;
        root := current[0];
      }
    }

    /**
     * One round of `_build_tree`: pad an odd layer with a copy of its last node,
     * then hash the nodes two by two.
     */
    static method HashPairs(h: TextHash, layer: seq<string>) returns (next: seq<string>)
      requires |layer| >= 1
      ensures next == NextLayer(h, layer)
    {
      var current := layer;
      if |current| % 2 != 0 {
        current := current + [current[|current| - 1]];
      }
      next := [];
      var i := 0;
      while i < |current|
        invariant 0 <= i <= |current| && i % 2 == 0 && |current| % 2 == 0
        invariant |next| == i / 2
        invariant forall j :: 0 <= j < |next| ==> next[j] == h(current[2 * j] + current[2 * j + 1])
        decreases |current| - i
      {
        next := next + [h(current[i] + current[i + 1])];
        i := i + 2;
      }
      PaddedPairs(h, layer, current, next);
    }

    /** `get_proof`: ValueError for an index outside the leaves, otherwise the proof path. */
    method GetProof(leafIndex: int) returns (r: Result<seq<ProofStep>, string>)
      requires Valid()
      ensures r.Failure? <==> leafIndex < 0 || leafIndex >= |leaves|
      ensures r.Failure? ==> r.error == "Invalid leaf index"
      ensures r.Success? ==> r.value == ProofPath(layers, leafIndex)
      ensures r.Success? ==> |r.value| == |layers| - 1
      ensures r.Success? ==> FoldProof(h, h(leaves[leafIndex]), r.value) == root
    {
      if leafIndex < 0 || leafIndex >= |leaves| {
        return Failure("Invalid leaf index");
      }
      var proof: seq<ProofStep> := [];
      var index: nat := leafIndex;
      var k := 0;
      assert layers[0..] == layers;
      while k + 1 < |layers|
        invariant 0 <= k <= |layers|
        invariant proof + ProofPath(layers[k..], index) == ProofPath(layers, leafIndex)
      {
        ProofPathUnfold(layers, k, index, proof);
        proof := proof + StepAt(layers[k], index);
        index := index / 2;
        k := k + 1;
      }
      ProofRoundTrip(h, leaves, leafIndex);
      return Success(proof);
    }

    /** `verify_proof`: fold the proof into the leaf hash and compare with the root. */
    static method VerifyProof(h: TextHash, leafHash: string, proof: seq<ProofStep>, root: string) returns (valid: bool)
      ensures valid <==> FoldProof(h, leafHash, proof) == root
      ensures proof == [] ==> (valid <==> leafHash == root)
    {
      var current := leafHash;
      var k := 0;
      while k < |proof|
        invariant 0 <= k <= |proof|
        invariant FoldProof(h, current, proof[k..]) == FoldProof(h, leafHash, proof)
      {
        var step := proof[k];
        var combined := if step.position == "left" then step.sibling + current else current + step.sibling;
        assert proof[k..][1..] == proof[k + 1..];
        current := h(combined);
        k := k + 1;
      }
      valid := current == root;
    }
  }

  // ---------------------------------------------------------------------------
  // The commitment over model weights

  /** What `f.read(size)` returns at `offset`: up to `size` bytes, everything left for a negative size. */
  function ReadAt(data: seq<byte>, offset: nat, size: int): (chunk: seq<byte>)
    requires offset <= |data|
    ensures |chunk| <= |data| - offset
  {
    if size < 0 then data[offset..]
    else if offset + size <= |data| then data[offset..offset + size]
    else data[offset..]
  }

  /** The chunks the read loop produces: consecutive reads until one comes back empty. */
  function Chunks(data: seq<byte>, size: int): seq<seq<byte>>
    decreases |data|
  {
    if data == [] || size == 0 then []
    else
      var chunk := ReadAt(data, 0, size);
      [chunk] + Chunks(data[|chunk|..], size)
  }

  function Concat(chunks: seq<seq<byte>>): seq<byte>
  {
    if chunks == [] then [] else chunks[0] + Concat(chunks[1..])
  }

  /**
   * Chunking loses nothing: for a non-zero size the chunks concatenate back to
   * the file, none is empty, and for a positive size every chunk but the last
   * has exactly `size` bytes and the last at most `size`.
   */
  lemma {:induction false} ChunksCoverFile(data: seq<byte>, size: int)
    ensures size == 0 ==> Chunks(data, size) == []
    ensures size != 0 ==> Concat(Chunks(data, size)) == data
    ensures forall k :: 0 <= k < |Chunks(data, size)| ==> Chunks(data, size)[k] != []
    ensures size > 0 ==> forall k :: 0 <= k < |Chunks(data, size)| ==> |Chunks(data, size)[k]| <= size
    ensures size > 0 ==> forall k :: 0 <= k < |Chunks(data, size)| - 1 ==> |Chunks(data, size)[k]| == size
    decreases |data|
  {
    if data != [] && size != 0 {
      var chunk := ReadAt(data, 0, size);
      ChunksCoverFile(data[|chunk|..], size);
      var cs := Chunks(data, size);
      assert cs == [chunk] + Chunks(data[|chunk|..], size);
      assert cs[1..] == Chunks(data[|chunk|..], size);
      assert data == chunk + data[|chunk|..];
    }
  }

  /** The digest of each chunk, in order. */
  function DigestAll(hb: ByteHash, chunks: seq<seq<byte>>): seq<string>
  {
    if chunks == [] then [] else [hb(chunks[0])] + DigestAll(hb, chunks[1..])
  }

  /** The root `generate_merkle_root_from_weights` returns for a file with contents `data`. */
  function WeightsRoot(hb: ByteHash, h: TextHash, data: seq<byte>, size: int): string
  {
    var chunks := Chunks(data, size);
    if chunks == [] then hb([]) else RootOf(h, DigestAll(hb, chunks))
  }

  /** An empty file (or a zero chunk size) commits to the digest of no bytes. */
  lemma EmptyWeightsRoot(hb: ByteHash, h: TextHash, data: seq<byte>, size: int)
    requires data == [] || size == 0
    ensures WeightsRoot(hb, h, data, size) == hb([])
  {
  }

  /** Reading one more chunk at `offset` leaves the chunks after it still to read. */
  lemma ChunksUnfold(hb: ByteHash, data: seq<byte>, offset: nat, size: int, chunk: seq<byte>, done: seq<string>)
    requires offset < |data| && size != 0 && chunk == ReadAt(data, offset, size)
    ensures chunk != [] && offset + |chunk| <= |data|
    ensures done + DigestsFrom(hb, data, offset, size) == (done + [hb(chunk)]) + DigestsFrom(hb, data, offset + |chunk|, size)
  {
    var rest := data[offset..];
    assert ReadAt(rest, 0, size) == chunk;
    assert rest[|chunk|..] == data[offset + |chunk|..];
    var tail := Chunks(data[offset + |chunk|..], size);
    assert Chunks(rest, size) == [chunk] + tail;
    assert DigestAll(hb, [chunk] + tail) == [hb(chunk)] + DigestAll(hb, tail);
  }

  /** A read with a non-zero size comes back empty only at the end of the file. */
  lemma EmptyReadAtEnd(data: seq<byte>, offset: nat, size: int)
    requires offset <= |data| && size != 0 && ReadAt(data, offset, size) == []
    ensures offset == |data|
  {
  }

  /** Once a read comes back empty, every chunk has been digested. */
  lemma NothingLeftToRead(hb: ByteHash, data: seq<byte>, offset: nat, size: int, done: seq<string>)
    requires offset <= |data|
    requires size == 0 || offset == |data|
    ensures done + DigestsFrom(hb, data, offset, size) == done
  {
    assert Chunks(data[offset..], size) == [];
  }

  /** The weights root is the digest of no bytes when there are no chunks, else the tree root of the chunk digests. */
  lemma WeightsRootOfDigests(hb: ByteHash, h: TextHash, data: seq<byte>, size: int, digests: seq<string>)
    requires digests == DigestAll(hb, Chunks(data, size))
    ensures digests == [] ==> WeightsRoot(hb, h, data, size) == hb([])
    ensures digests != [] ==> WeightsRoot(hb, h, data, size) == RootOf(h, digests)
  {
  }

  /** The digests of the chunks still to be read from `offset` on. */
  ghost function DigestsFrom(hb: ByteHash, data: seq<byte>, offset: nat, size: int): seq<string>
    requires offset <= |data|
  {
    DigestAll(hb, Chunks(data[offset..], size))
  }

  /** What the read at `offset` returns. */
  function NextChunk(data: seq<byte>, offset: nat, size: int): seq<byte>
    requires offset <= |data|
  {
    if size == 0 then [] else ReadAt(data, offset, size)
  }

  /** The read loop of `generate_merkle_root_from_weights`: the digest of every chunk, in file order. */
  method DigestChunks(hb: ByteHash, data: seq<byte>, chunkSize: int) returns (digests: seq<string>)
    ensures digests == DigestAll(hb, Chunks(data, chunkSize))
  {
    digests := [];
    var offset := 0;
    var chunk := NextChunk(data, offset, chunkSize);
    assert data[0..] == data;
    while chunk != []
      invariant offset <= |data| && chunk == NextChunk(data, offset, chunkSize)
      invariant digests + DigestsFrom(hb, data, offset, chunkSize) == DigestAll(hb, Chunks(data, chunkSize))
      decreases |data| - offset
    {
      ChunksUnfold(hb, data, offset, chunkSize, chunk, digests);
      digests := digests + [hb(chunk)];
      offset := offset + |chunk|;
      chunk := NextChunk(data, offset, chunkSize);
    }
    if chunkSize != 0 {
      EmptyReadAtEnd(data, offset, chunkSize);
    }
    NothingLeftToRead(hb, data, offset, chunkSize, digests);
  }

  /** `generate_merkle_root_from_weights`: read the file chunk by chunk, hash each chunk, build the tree. */
  method MerkleRootFromWeights(hb: ByteHash, h: TextHash, data: seq<byte>, chunkSize: int) returns (root: string)
    ensures root == WeightsRoot(hb, h, data, chunkSize)
  {
    var digests := DigestChunks(hb, data, chunkSize);
    WeightsRootOfDigests(hb, h, data, chunkSize, digests);
    if digests == [] {
      return hb([]);
    }
    var tree := new MerkleTree(h, digests);
    root := tree.root;
  }
}
