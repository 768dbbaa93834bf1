/** The Merkle trees of BEP 52, over free hash terms: two hashes are equal exactly when they
    were computed from equal inputs. The hash library itself is not part of this model. */
module Merkle {
  import opened Chunks

  const BLOCK: nat := 16384

  datatype Hash = Zero | Leaf(data: seq<byte>) | Node(left: Hash, right: Hash)

  // ---------- powers of two ----------

  predicate IsPow2(n: nat) {
    n == 1 || (n > 1 && n % 2 == 0 && IsPow2(n / 2))
  }

  function NextPow2(n: nat): (r: nat)
    ensures IsPow2(r) && n <= r
    ensures n >= 1 ==> r < 2 * n
  {
    if n <= 1 then 1 else 2 * NextPow2((n + 1) / 2)
  }

  /** A power of two lying in [n, 2n) is the one NextPow2 finds. */
  lemma {:induction false} NextPow2Unique(n: nat, p: nat)
    requires n >= 1 && IsPow2(p) && n <= p < 2 * n
    ensures NextPow2(n) == p
  {
    if n > 1 {
      NextPow2Unique((n + 1) / 2, p / 2);
    }
  }

  lemma {:induction false} TimesDouble(half: nat, count: nat)
    ensures Times(2 * half, count) == 2 * Times(half, count)
  {
    if count > 0 {
      TimesDouble(half, count - 1);
    }
  }

  lemma {:induction false} TimesOne(count: nat)
    ensures Times(1, count) == count
  {
    if count > 0 {
      TimesOne(count - 1);
    }
  }

  /** Rounding a block count up to a power of two can be done piece by piece. */
  lemma {:induction false} NextPow2Product(blocks: nat, perPiece: nat, pieces: nat)
    requires IsPow2(perPiece) && pieces >= 2
    requires Times(perPiece, pieces - 1) < blocks <= Times(perPiece, pieces)
    ensures NextPow2(blocks) == Times(perPiece, NextPow2(pieces))
    decreases perPiece
  {
    if perPiece == 1 {
      TimesOne(pieces);
      TimesOne(pieces - 1);
      TimesOne(NextPow2(pieces));
    } else {
      var half := perPiece / 2;
      TimesDouble(half, pieces);
      TimesDouble(half, pieces - 1);
      NextPow2Product((blocks + 1) / 2, half, pieces);
      TimesDouble(half, NextPow2(pieces));
      assert Times(perPiece, pieces - 1) == perPiece + Times(perPiece, pieces - 2);
    }
  }

  lemma Pow2Even(n: nat)
    requires IsPow2(n) && n > 1
    ensures n % 2 == 0 && IsPow2(n / 2)
  {}

  lemma Pow2Twice(n: nat)
    requires IsPow2(n)
    ensures IsPow2(2 * n)
  {}

  lemma {:induction false} Pow2Product(a: nat, b: nat)
    requires IsPow2(a) && IsPow2(b)
    ensures IsPow2(Times(a, b))
    decreases a
  {
    assert a >= 1;
    hide IsPow2, Times;
    if a > 1 {
      Pow2Even(a);
      Pow2Product(a / 2, b);
      TimesDouble(a / 2, b);
      Pow2Twice(Times(a / 2, b));
    } else {
      TimesOne(b);
    }
  }

  // ---------- trees ----------

  function PairUp(hs: seq<Hash>): (r: seq<Hash>)
    requires |hs| % 2 == 0
    ensures |r| == |hs| / 2
  {
    seq(|hs| / 2, i requires 0 <= i < |hs| / 2 => Node(hs[2 * i], hs[2 * i + 1]))
  }

  /** The root over a full layer, reduced pair by pair. */
  function Root(hs: seq<Hash>): Hash
    requires IsPow2(|hs|)
    decreases |hs|
  {
    if |hs| == 1 then hs[0] else Root(PairUp(hs))
  }

  /** From the top: the left half of a layer is the left child of its root, the right half the right. */
  lemma {:induction false} RootOfHalves(a: seq<Hash>, b: seq<Hash>)
    requires IsPow2(|a|) && |a| == |b|
    ensures IsPow2(|a + b|) && Root(a + b) == Node(Root(a), Root(b))
    decreases |a|
  {
    Pow2Twice(|a|);
    if |a| == 1 {
      assert PairUp(a + b) == [Node(a[0], b[0])];
    } else {
      assert PairUp(a + b) == PairUp(a) + PairUp(b);
      RootOfHalves(PairUp(a), PairUp(b));
    }
  }

  /** Following the i-th of `width` leaves down from a root: left for the first half, else right. */
  function Descend(h: Hash, width: nat, i: nat): Hash
    requires IsPow2(width) && i < width
    decreases width
  {
    if width == 1 then h
    else
      match h
      case Node(left, right) =>
        if i < width / 2 then Descend(left, width / 2, i) else Descend(right, width / 2, i - width / 2)
      case _ => h
  }

  lemma {:induction false} DescendsToLeaf(hs: seq<Hash>, i: nat)
    requires IsPow2(|hs|) && i < |hs|
    ensures Descend(Root(hs), |hs|, i) == hs[i]
    decreases |hs|
  {
    if |hs| > 1 {
      Pow2Even(|hs|);
      var a, b := hs[..|hs| / 2], hs[|hs| / 2..];
      assert hs == a + b;
      RootOfHalves(a, b);
      if i < |a| {
        DescendsToLeaf(a, i);
      } else {
        DescendsToLeaf(b, i - |a|);
      }
    }
  }

  function Repeat(h: Hash, n: nat): (r: seq<Hash>)
    ensures |r| == n
  {
    seq(n, _ => h)
  }

  /** The root of a layer padded to a power of two; no hashes at all hash as the empty string. */
  function RootWithPad(hs: seq<Hash>, pad: Hash): Hash {
    if hs == [] then Leaf([])
    else Root(hs + Repeat(pad, NextPow2(|hs|) - |hs|))
  }

  function LeavesOf(blocks: seq<seq<byte>>): seq<Hash> {
    seq(|blocks|, i requires 0 <= i < |blocks| => Leaf(blocks[i]))
  }

  /** One leaf per 16 KiB block, a short last block hashed as it is. */
  function Leaves(data: seq<byte>): seq<Hash> {
    LeavesOf(Cut(data, BLOCK))
  }

  /** The whole-file root. */
  function FileRoot(data: seq<byte>): Hash {
    RootWithPad(Leaves(data), Zero)
  }

  function BlocksPer(pieceLength: nat): nat {
    CeilDiv(pieceLength, BLOCK)
  }

  /** The root of at most one piece of data, extended with zero leaves to a full piece. */
  function PieceHash(data: seq<byte>, pieceLength: nat): Hash
    requires |Leaves(data)| <= BlocksPer(pieceLength)
  {
    RootWithPad(Leaves(data) + Repeat(Zero, BlocksPer(pieceLength) - |Leaves(data)|), Zero)
  }

  /** The hash standing for a piece past the end of the file. */
  function PiecePad(pieceLength: nat): Hash
    requires IsPow2(pieceLength / BLOCK)
  {
    Root(Repeat(Zero, pieceLength / BLOCK))
  }

  /** A piece length BEP 52 allows: a power-of-two number of blocks. */
  predicate PieceLengthOk(pl: nat) {
    pl % BLOCK == 0 && IsPow2(pl / BLOCK)
  }

  lemma LeafCount(data: seq<byte>, pl: nat)
    requires PieceLengthOk(pl)
    ensures |Leaves(data)| == CeilDiv(|data|, BLOCK)
    ensures BlocksPer(pl) == pl / BLOCK
    ensures |Leaves(data)| <= BlocksPer(pl) <==> |data| <= pl
  {
    CutCount(data, BLOCK);
  }

  function LayerOf(pieces: seq<seq<byte>>, pl: nat): (layer: seq<Hash>)
    requires PieceLengthOk(pl)
    requires forall p :: p in pieces ==> |p| <= pl
    ensures |layer| == |pieces|
  {
    if pieces == [] then []
    else LeafCount(pieces[0], pl); [PieceHash(pieces[0], pl)] + LayerOf(pieces[1..], pl)
  }

  /** The piece layer of a file: one padded root per piece. */
  function PieceLayer(data: seq<byte>, pl: nat): seq<Hash>
    requires PieceLengthOk(pl) && pl > 0
  {
    LayerOf(Cut(data, pl), pl)
  }

  // ---------- root of chunk roots ----------

  function ChunkRoots(hs: seq<Hash>, width: nat): (r: seq<Hash>)
    requires IsPow2(width)
    decreases |hs|
  {
    if |hs| < width then [] else [Root(hs[..width])] + ChunkRoots(hs[width..], width)
  }

  lemma {:induction false} ChunkRootsOfPairs(hs: seq<Hash>, width: nat)
    requires IsPow2(width) && width > 1 && |hs| % 2 == 0
    ensures ChunkRoots(hs, width) == ChunkRoots(PairUp(hs), width / 2)
    decreases |hs|
  {
    if |hs| >= width {
      ChunkRootsOfPairs(hs[width..], width);
      assert PairUp(hs[..width]) == PairUp(hs)[..width / 2];
      assert PairUp(hs[width..]) == PairUp(hs)[width / 2..];
    }
  }

  lemma {:induction false} ChunkRootsOfOne(hs: seq<Hash>)
    ensures ChunkRoots(hs, 1) == hs
    decreases |hs|
  {
    if hs != [] {
      ChunkRootsOfOne(hs[1..]);
      assert hs == [hs[0]] + hs[1..];
    }
  }

  /** The root of a full layer is the root of the roots of its equal power-of-two chunks. */
  lemma {:induction false} RootOfChunkRoots(hs: seq<Hash>, width: nat, count: nat)
    requires IsPow2(width) && IsPow2(count) && |hs| == Times(width, count)
    ensures IsPow2(|hs|) && |ChunkRoots(hs, width)| == count
    ensures Root(hs) == Root(ChunkRoots(hs, width))
    decreases width
  {
    Pow2Product(width, count);
    if width == 1 {
      TimesOne(count);
      ChunkRootsOfOne(hs);
    } else {
      TimesDouble(width / 2, count);
      RootOfChunkRoots(PairUp(hs), width / 2, count);
      ChunkRootsOfPairs(hs, width);
      assert |hs| > 1 by { assert Times(width, count) == width + Times(width, count - 1); }
    }
  }

  lemma {:induction false} ChunkRootsOfZeros(width: nat, count: nat)
    requires IsPow2(width)
    ensures ChunkRoots(Repeat(Zero, Times(width, count)), width) == Repeat(Root(Repeat(Zero, width)), count)
    decreases count
  {
    if count > 0 {
      var rest := Times(width, count - 1);
      assert Repeat(Zero, Times(width, count)) == Repeat(Zero, width) + Repeat(Zero, rest);
      ChunkRootsStep(Repeat(Zero, width), Repeat(Zero, rest), width);
      ChunkRootsOfZeros(width, count - 1);
    }
  }

  lemma LeavesAppend(a: seq<byte>, b: seq<byte>, blocks: nat)
    requires |a| == Times(BLOCK, blocks)
    ensures Leaves(a + b) == Leaves(a) + Leaves(b) && |Leaves(a)| == blocks
  {
    CutAppend(a, b, BLOCK, blocks);
  }

  lemma PieceHashIsRoot(data: seq<byte>, pl: nat)
    requires PieceLengthOk(pl) && |data| <= pl
    ensures |Leaves(data)| <= pl / BLOCK == BlocksPer(pl)
    ensures PieceHash(data, pl) == Root(Leaves(data) + Repeat(Zero, pl / BLOCK - |Leaves(data)|))
  {
    LeafCount(data, pl);
    var full := Leaves(data) + Repeat(Zero, pl / BLOCK - |Leaves(data)|);
    NextPow2Unique(|full|, |full|);
    assert full + Repeat(Zero, 0) == full;
  }

  /** Roots of consecutive chunks, the last one padded with zeros to a full chunk. */
  function PaddedChunkRoots(hs: seq<Hash>, width: nat): (r: seq<Hash>)
    requires IsPow2(width)
    decreases |hs|
  {
    if hs == [] then []
    else if |hs| <= width then [Root(hs + Repeat(Zero, width - |hs|))]
    else [Root(hs[..width])] + PaddedChunkRoots(hs[width..], width)
  }

  lemma RepeatSplit(hs: seq<Hash>, a: nat, b: nat)
    ensures hs + Repeat(Zero, a + b) == hs + Repeat(Zero, a) + Repeat(Zero, b)
  {}

  lemma ChunkRootsStep(a: seq<Hash>, b: seq<Hash>, width: nat)
    requires IsPow2(width) && |a| == width
    ensures ChunkRoots(a + b, width) == [Root(a)] + ChunkRoots(b, width)
  {
    assert (a + b)[..width] == a && (a + b)[width..] == b;
  }

  /** Padding to whole chunks and then taking chunk roots, or padding the last chunk and then
      appending roots of zero chunks: the same roots. */
  lemma {:induction false} ChunkRootsOfPadded(hs: seq<Hash>, width: nat, zeros: nat, count: nat)
    requires IsPow2(width) && hs != [] && |hs| + zeros == Times(width, count)
    ensures |PaddedChunkRoots(hs, width)| <= count
    ensures ChunkRoots(hs + Repeat(Zero, zeros), width)
         == PaddedChunkRoots(hs, width)
          + Repeat(Root(Repeat(Zero, width)), count - |PaddedChunkRoots(hs, width)|)
    decreases |hs|
  {
    assert width > 0;
    hide Root, PairUp, IsPow2;
    var rest := Times(width, count - 1);
    if |hs| <= width {
      RepeatSplit(hs, width - |hs|, rest);
      ChunkRootsStep(hs + Repeat(Zero, width - |hs|), Repeat(Zero, rest), width);
      ChunkRootsOfZeros(width, count - 1);
    } else {
      ChunkRootsOfPadded(hs[width..], width, zeros, count - 1);
      assert hs + Repeat(Zero, zeros) == hs[..width] + (hs[width..] + Repeat(Zero, zeros));
      ChunkRootsStep(hs[..width], hs[width..] + Repeat(Zero, zeros), width);
    }
  }

  /** The piece layer depends on the file only through its leaves. */
  lemma {:induction false} LayerOfLeaves(data: seq<byte>, pl: nat)
    requires PieceLengthOk(pl) && pl > 0
    ensures PieceLayer(data, pl) == PaddedChunkRoots(Leaves(data), pl / BLOCK)
    decreases |data|
  {
    LeafCount(data, pl);
    if data != [] {
      if |data| <= pl {
        PieceHashIsRoot(data, pl);
        LayerOfOne(data, pl);
      } else {
        LayerStep(data, pl);
        LayerOfLeaves(data[pl..], pl);
      }
    }
  }

  lemma LayerOfOne(data: seq<byte>, pl: nat)
    requires PieceLengthOk(pl) && 0 < |data| <= pl
    ensures |Leaves(data)| <= BlocksPer(pl)
    ensures PieceLayer(data, pl) == [PieceHash(data, pl)]
  {
    LeafCount(data, pl);
    assert Cut(data, pl) == [data];
  }

  /** The first piece of a file longer than one piece. */
  lemma LayerStep(data: seq<byte>, pl: nat)
    requires PieceLengthOk(pl) && 0 < pl < |data|
    ensures |Leaves(data[..pl])| == pl / BLOCK
    ensures Leaves(data) == Leaves(data[..pl]) + Leaves(data[pl..])
    ensures PieceLayer(data, pl) == [Root(Leaves(data[..pl]))] + PieceLayer(data[pl..], pl)
  {
    hide IsPow2, PairUp, Root, Leaves, LeavesOf, Repeat, Cut, PieceHash, LayerOf;
    var head, tail := data[..pl], data[pl..];
    CutStep(data, pl);
    LayerOfCons(head, Cut(tail, pl), pl);
    TimesIsProduct(BLOCK, pl / BLOCK);
    assert data == head + tail;
    LeavesAppend(head, tail, pl / BLOCK);
    PieceHashIsRoot(head, pl);
    RepeatNone(Leaves(head));
  }

  lemma RepeatNone(hs: seq<Hash>)
    ensures hs + Repeat(Zero, 0) == hs
  {}

  lemma LayerOfCons(p: seq<byte>, rest: seq<seq<byte>>, pl: nat)
    requires PieceLengthOk(pl) && |p| <= pl && forall q :: q in rest ==> |q| <= pl
    ensures |Leaves(p)| <= BlocksPer(pl)
    ensures LayerOf([p] + rest, pl) == [PieceHash(p, pl)] + LayerOf(rest, pl)
  {
    LeafCount(p, pl);
    hide PieceHash, Leaves;
    assert ([p] + rest)[0] == p && ([p] + rest)[1..] == rest;
  }

  lemma {:induction false} LayerOfAppend(a: seq<seq<byte>>, b: seq<seq<byte>>, pl: nat)
    requires PieceLengthOk(pl)
    requires forall q :: q in a + b ==> |q| <= pl
    requires forall q :: q in a ==> |q| <= pl
    requires forall q :: q in b ==> |q| <= pl
    ensures LayerOf(a + b, pl) == LayerOf(a, pl) + LayerOf(b, pl)
  {
    hide PieceHash, Leaves, PieceLengthOk;
    if a == [] {
      assert a + b == b;
    } else {
      assert (a + b)[0] == a[0] && (a + b)[1..] == a[1..] + b;
      LayerOfAppend(a[1..], b, pl);
    }
  }

  /** The root the two formats must share: over the piece layer padded with the piece pad. */
  function LayerRoot(data: seq<byte>, pl: nat): Hash
    requires PieceLengthOk(pl) && pl > 0
  {
    RootWithPad(PieceLayer(data, pl), PiecePad(pl))
  }

  lemma LayerCount(data: seq<byte>, pl: nat)
    requires PieceLengthOk(pl) && pl > 0
    ensures |PieceLayer(data, pl)| == CeilDiv(|data|, pl)
  {
    CutCount(data, pl);
  }
}
