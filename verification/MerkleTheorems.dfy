/** What the two root computations of one file have to do with each other, and with the file. */
module MerkleTheorems {
  import opened Chunks
  import opened Merkle

  // ---------- heights tell padded layers of different widths apart ----------

  function Height(h: Hash): nat {
    match h
    case Node(l, r) => 1 + Height(l)
    case _ => 0
  }

  function Log2(n: nat): nat {
    if n <= 1 then 0 else 1 + Log2(n / 2)
  }

  lemma {:induction false} Log2Injective(a: nat, b: nat)
    requires IsPow2(a) && IsPow2(b) && Log2(a) == Log2(b)
    ensures a == b
  {
    if a > 1 {
      assert b > 1;
      Log2Injective(a / 2, b / 2);
    }
  }

  lemma {:induction false} RootHeight(hs: seq<Hash>, h: nat)
    requires IsPow2(|hs|) && forall x :: x in hs ==> Height(x) == h
    ensures Height(Root(hs)) == h + Log2(|hs|)
    decreases |hs|
  {
    if |hs| > 1 {
      RootHeight(PairUp(hs), h + 1);
    }
  }

  /** A root over leaves fixes how many there are and each of them. */
  lemma {:induction false} RootInjective(a: seq<Hash>, b: seq<Hash>)
    requires IsPow2(|a|) && |a| == |b| && Root(a) == Root(b)
    ensures a == b
    decreases |a|
  {
    if |a| > 1 {
      var pa, pb := PairUp(a), PairUp(b);
      RootInjective(pa, pb);
      forall i | 0 <= i < |a| ensures a[i] == b[i] {
        assert pa[i / 2] == Node(a[i / 2 * 2], a[i / 2 * 2 + 1]);
        assert pb[i / 2] == Node(b[i / 2 * 2], b[i / 2 * 2 + 1]);
      }
    }
  }

  function PaddedLeaves(data: seq<byte>): (hs: seq<Hash>)
    ensures forall x :: x in hs ==> Height(x) == 0
    ensures data != [] ==> IsPow2(|hs|) && FileRoot(data) == Root(hs)
  {
    var hs := Leaves(data);
    hs + Repeat(Zero, NextPow2(|hs|) - |hs|)
  }

  /** No two files have the same whole-file root. */
  lemma FileRootIdentifiesFile(a: seq<byte>, b: seq<byte>)
    requires FileRoot(a) == FileRoot(b)
    ensures a == b
  {
    if a == [] {
      if b != [] { NonemptyFileRoot(b); }
    } else if b == [] {
      NonemptyFileRoot(a);
    } else {
      var pa, pb := PaddedLeaves(a), PaddedLeaves(b);
      RootHeight(pa, 0);
      RootHeight(pb, 0);
      Log2Injective(|pa|, |pb|);
      RootInjective(pa, pb);
      LeavesFromPadded(a, b);
    }
  }

  /** Zero leaves end the data, so padded leaves still determine the file. */
  lemma LeavesFromPadded(a: seq<byte>, b: seq<byte>)
    requires a != [] && b != [] && PaddedLeaves(a) == PaddedLeaves(b)
    ensures a == b
  {
    var la, lb, p := Leaves(a), Leaves(b), PaddedLeaves(a);
    hide NextPow2, Repeat, Leaves;
    PaddedShape(a);
    PaddedShape(b);
    if |la| < |lb| {
      PaddingIsNotData(la, lb, |p|);
    } else if |lb| < |la| {
      PaddingIsNotData(lb, la, |p|);
    } else {
      assert p[..|la|] == la && p[..|lb|] == lb;
      LeavesDetermineFile(a, b);
    }
  }

  lemma PaddedShape(data: seq<byte>)
    ensures var n, hs := |PaddedLeaves(data)|, Leaves(data);
      n >= |hs| && PaddedLeaves(data) == hs + Repeat(Zero, n - |hs|) && Zero !in hs
  {}

  lemma LeavesDetermineFile(a: seq<byte>, b: seq<byte>)
    requires Leaves(a) == Leaves(b)
    ensures a == b
  {
    var ca, cb := Cut(a, BLOCK), Cut(b, BLOCK);
    assert |LeavesOf(ca)| == |ca| && |LeavesOf(cb)| == |cb|;
    forall i | 0 <= i < |ca| ensures ca[i] == cb[i] {
      assert LeavesOf(ca)[i] == Leaf(ca[i]) && LeavesOf(cb)[i] == Leaf(cb[i]);
    }
    assert ca == cb;
    JoinCut(a, BLOCK);
    JoinCut(b, BLOCK);
  }

  lemma PaddingIsNotData(a: seq<Hash>, b: seq<Hash>, n: nat)
    requires |a| < |b| <= n && Zero !in b
    ensures a + Repeat(Zero, n - |a|) != b + Repeat(Zero, n - |b|)
  {
    assert (a + Repeat(Zero, n - |a|))[|a|] == Zero;
    assert (b + Repeat(Zero, n - |b|))[|a|] == b[|a|];
  }

  lemma NonemptyFileRoot(b: seq<byte>)
    requires b != []
    ensures FileRoot(b) != Leaf([])
  {
    var pb := PaddedLeaves(b);
    RootHeight(pb, 0);
    if |pb| == 1 {
      assert Cut(b, BLOCK)[0] in Cut(b, BLOCK);
    }
  }

  // ---------- what a root is made of ----------

  /** The i-th leaf of a file: its i-th block of 16384 bytes, a short last one as it is. */
  lemma LeafIs(data: seq<byte>, i: nat)
    requires i < |Leaves(data)|
    ensures 16384 * i < |data| && Leaves(data)[i] == Leaf(data[16384 * i .. Min(16384 * i + 16384, |data|)])
  {
    CutIndex(data, BLOCK, i);
    TimesIsProduct(BLOCK, i);
  }

  lemma NoLeafPast(data: seq<byte>, i: nat)
    requires i >= |Leaves(data)|
    ensures 16384 * i >= |data|
  {
    CutCount(data, BLOCK);
  }

  lemma PaddedDescends(data: seq<byte>, width: nat, i: nat)
    requires IsPow2(width) && |Leaves(data)| <= width && i < width
    ensures Descend(Root(Leaves(data) + Repeat(Zero, width - |Leaves(data)|)), width, i)
         == if 16384 * i < |data| then Leaf(data[16384 * i .. Min(16384 * i + 16384, |data|)]) else Zero
  {
    hide Leaves, Root, Descend, IsPow2;
    DescendsToLeaf(Leaves(data) + Repeat(Zero, width - |Leaves(data)|), i);
    if i < |Leaves(data)| {
      LeafIs(data, i);
    } else {
      NoLeafPast(data, i);
    }
  }

  /** From the whole-file root, taking the left child for the first half of the padded leaves and the
      right one for the second: the i-th block of the file, or zero past its end. */
  lemma FileRootDescends(data: seq<byte>, i: nat)
    requires data != [] && i < NextPow2(CeilDiv(|data|, 16384))
    ensures Descend(FileRoot(data), NextPow2(CeilDiv(|data|, 16384)), i)
         == if 16384 * i < |data| then Leaf(data[16384 * i .. Min(16384 * i + 16384, |data|)]) else Zero
  {
    CutCount(data, BLOCK);
    hide Root, Descend, NextPow2, Cut, IsPow2;
    PaddedDescends(data, NextPow2(CeilDiv(|data|, BLOCK)), i);
  }

  /** The same for the hash of one piece, whose leaves are always padded to a whole piece. */
  lemma PieceHashDescends(data: seq<byte>, pl: nat, i: nat)
    requires PieceLengthOk(pl) && |data| <= pl && i < pl / 16384
    ensures |Leaves(data)| <= BlocksPer(pl)
    ensures Descend(PieceHash(data, pl), pl / 16384, i)
         == if 16384 * i < |data| then Leaf(data[16384 * i .. Min(16384 * i + 16384, |data|)]) else Zero
  {
    PieceHashIsRoot(data, pl);
    hide Root, Descend, NextPow2, Leaves, PieceHash, IsPow2;
    PaddedDescends(data, pl / BLOCK, i);
  }

  // ---------- the two routes to the root ----------

  lemma {:induction false} PaddedChunkCount(hs: seq<Hash>, width: nat)
    requires IsPow2(width) && hs != []
    ensures var q := |PaddedChunkRoots(hs, width)|;
      q > 0 && Times(width, q - 1) < |hs| <= Times(width, q)
    decreases |hs|
  {
    if |hs| > width {
      PaddedChunkCount(hs[width..], width);
    } else {
      assert Times(width, 1) == width + Times(width, 0);
    }
  }

  lemma PaddedChunkBounds(hs: seq<Hash>, width: nat)
    requires IsPow2(width) && |hs| > width
    ensures |PaddedChunkRoots(hs, width)| >= 2
    ensures NextPow2(|hs|) == Times(width, NextPow2(|PaddedChunkRoots(hs, width)|))
  {
    var q := |PaddedChunkRoots(hs, width)|;
    PaddedChunkCount(hs, width);
    assert Times(width, 1) == width + Times(width, 0);
    NextPow2Product(|hs|, width, q);
  }

  lemma RootOverChunks(hs: seq<Hash>, width: nat, zeros: nat, count: nat)
    requires IsPow2(width) && IsPow2(count) && hs != [] && |hs| + zeros == Times(width, count)
    ensures var roots := PaddedChunkRoots(hs, width);
      && IsPow2(|hs| + zeros) && |roots| <= count
      && Root(roots + Repeat(Root(Repeat(Zero, width)), count - |roots|)) == Root(hs + Repeat(Zero, zeros))
  {
    ChunkRootsOfPadded(hs, width, zeros, count);
    RootOfChunkRoots(hs + Repeat(Zero, zeros), width, count);
  }

  /** More leaves than one chunk holds: padding the leaves, or padding the chunk roots. */
  lemma RootOverPaddedChunks(hs: seq<Hash>, width: nat)
    requires IsPow2(width) && |hs| > width
    ensures RootWithPad(PaddedChunkRoots(hs, width), Root(Repeat(Zero, width))) == RootWithPad(hs, Zero)
  {
    hide IsPow2, Root, PaddedChunkRoots, Times, NextPow2;
    PaddedChunkBounds(hs, width);
    var count := NextPow2(|PaddedChunkRoots(hs, width)|);
    RootOverChunks(hs, width, NextPow2(|hs|) - |hs|, count);
  }

  /** A file longer than one piece: the root over its padded piece layer is the root over its
      padded leaves. */
  lemma LayerRootIsFileRoot(data: seq<byte>, pl: nat)
    requires PieceLengthOk(pl) && 0 < pl < |data|
    ensures LayerRoot(data, pl) == FileRoot(data)
  {
    LeafCount(data, pl);
    LayerOfLeaves(data, pl);
    RootOverPaddedChunks(Leaves(data), pl / BLOCK);
  }

  lemma LayerRootOfOnePiece(data: seq<byte>, pl: nat)
    requires PieceLengthOk(pl) && 0 < |data| <= pl
    ensures |Leaves(data)| <= pl / BLOCK
    ensures LayerRoot(data, pl) == Root(Leaves(data) + Repeat(Zero, pl / BLOCK - |Leaves(data)|))
  {
    PieceHashIsRoot(data, pl);
    LayerOfOne(data, pl);
    var layer := PieceLayer(data, pl);
    assert layer + Repeat(PiecePad(pl), 0) == layer;
    assert NextPow2(1) == 1;
  }

  /** At most one piece of leaves: padding to a whole piece is padding to a power of two exactly
      when the leaves fill more than half the piece. */
  lemma OnePieceRoots(hs: seq<Hash>, width: nat)
    requires IsPow2(width) && width >= 2 && 0 < |hs| <= width
    requires forall h :: h in hs ==> Height(h) == 0
    ensures Root(hs + Repeat(Zero, width - |hs|)) == RootWithPad(hs, Zero) <==> 2 * |hs| > width
  {
    hide Root, PairUp, IsPow2, NextPow2;
    if 2 * |hs| > width {
      NextPow2Unique(|hs|, width);
    } else {
      WidthsDiffer(hs, width, NextPow2(|hs|));
    }
  }

  lemma PaddedRootHeight(hs: seq<Hash>, n: nat)
    requires IsPow2(n) && |hs| <= n && forall h :: h in hs ==> Height(h) == 0
    ensures Height(Root(hs + Repeat(Zero, n - |hs|))) == Log2(n)
  {
    var all := hs + Repeat(Zero, n - |hs|);
    assert forall h :: h in all ==> h in hs || h == Zero;
    RootHeight(all, 0);
  }

  lemma WidthsDiffer(hs: seq<Hash>, wide: nat, narrow: nat)
    requires IsPow2(wide) && IsPow2(narrow) && |hs| <= narrow < wide
    requires forall h :: h in hs ==> Height(h) == 0
    ensures Root(hs + Repeat(Zero, wide - |hs|)) != Root(hs + Repeat(Zero, narrow - |hs|))
  {
    PaddedRootHeight(hs, wide);
    PaddedRootHeight(hs, narrow);
    if Log2(wide) == Log2(narrow) {
      Log2Injective(wide, narrow);
    }
  }

  /** Over all files and every piece length of at least two blocks: the two routes agree exactly
      when the file is empty or longer than half a piece. A nonempty file of at most half a piece
      is padded to a whole piece on one route only. */
  lemma RoutesAgreeIff(data: seq<byte>, pl: nat)
    requires PieceLengthOk(pl) && pl >= 2 * BLOCK
    ensures LayerRoot(data, pl) == FileRoot(data) <==> data == [] || 2 * |data| > pl
  {
    hide PairUp, Root, PieceLayer, PieceHash, RootWithPad, Repeat;
    if |data| > pl {
      LayerRootIsFileRoot(data, pl);
    } else if data != [] {
      LeafCount(data, pl);
      LayerRootOfOnePiece(data, pl);
      OnePieceRoots(Leaves(data), pl / BLOCK);
      Pow2Even(pl / BLOCK);
    } else {
      EmptyRoots(pl);
    }
  }

  lemma EmptyRoots(pl: nat)
    requires PieceLengthOk(pl) && pl > 0
    ensures LayerRoot([], pl) == FileRoot([]) == Leaf([])
  {}
}
