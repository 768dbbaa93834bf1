/** Building the info of a hybrid (v1 and v2) single-file torrent:
    choosePieceSize and buildHybridSingleFileInfo of internal/torrent/engine.go. */
module HybridTorrent {
  import opened Wrappers
  import opened Chunks
  import opened Merkle
  import opened MerkleTheorems
  import opened PieceHashing

  const MIB: nat := 1024 * 1024
  const GIB: nat := 1024 * MIB

  function ChoosePieceSize(fileBytes: int): nat {
    if fileBytes < 8 * GIB then 2 * MIB
    else if fileBytes < 32 * GIB then 4 * MIB
    else if fileBytes < 80 * GIB then 8 * MIB
    else 16 * MIB
  }

  /** Every chosen size is one that BEP 52 allows, and it keeps the piece list short. */
  lemma ChosenPieceSize(fileBytes: int)
    ensures var pl := ChoosePieceSize(fileBytes);
      && PieceLengthOk(pl) && pl >= 2 * BLOCK
      && (0 <= fileBytes < 80 * GIB ==> CeilDiv(fileBytes, pl) <= 10240)
  {
    assert IsPow2(2) && IsPow2(4) && IsPow2(8) && IsPow2(16) && IsPow2(32) && IsPow2(64);
    assert IsPow2(128) && IsPow2(256) && IsPow2(512) && IsPow2(1024);
  }

  /** Nor does it cut a file of 4 GiB or more into fewer than 2048 pieces, and a larger file never gets
      smaller pieces. */
  lemma PiecesAreNotTooLarge(fileBytes: int, larger: int)
    ensures 2 * MIB <= ChoosePieceSize(fileBytes) <= 16 * MIB
    ensures fileBytes >= 4 * GIB ==> CeilDiv(fileBytes, ChoosePieceSize(fileBytes)) >= 2048
    ensures fileBytes >= 80 * GIB ==> CeilDiv(fileBytes, ChoosePieceSize(fileBytes)) >= 5120
    ensures fileBytes <= larger ==> ChoosePieceSize(fileBytes) <= ChoosePieceSize(larger)
  {
    if fileBytes >= 80 * GIB {
      assert (fileBytes + 16 * MIB - 1) / (16 * MIB) >= 5120;
    }
  }

  /** The v1 list and the v2 layer describe the same pieces. */
  lemma SamePieceCount(sha1: seq<byte> -> seq<byte>, data: seq<byte>, pl: nat)
    requires IsDigest(sha1) && PieceLengthOk(pl) && pl > 0
    ensures |V1Pieces(sha1, data, pl)| == 20 * |PieceLayer(data, pl)|
    ensures |PieceLayer(data, pl)| == CeilDiv(|data|, pl)
  {
    DigestsLength(sha1, Cut(data, pl));
    LayerCount(data, pl);
  }

  /** The i-th layer hash is the padded root of the i-th piece of the file. */
  lemma LayerAt(data: seq<byte>, pl: nat, i: nat)
    requires PieceLengthOk(pl) && pl > 0 && i < |PieceLayer(data, pl)|
    ensures Times(pl, i) < |data|
    ensures var piece := data[Times(pl, i) .. Min(Times(pl, i) + pl, |data|)];
      |Leaves(piece)| <= BlocksPer(pl) && PieceLayer(data, pl)[i] == PieceHash(piece, pl)
  {
    hide Leaves, PieceHash, Cut, Times;
    CutIndex(data, pl, i);
    LayerOfAt(Cut(data, pl), pl, i);
  }

  lemma {:induction false} LayerOfAt(pieces: seq<seq<byte>>, pl: nat, i: nat)
    requires PieceLengthOk(pl) && i < |pieces|
    requires forall p :: p in pieces ==> |p| <= pl
    ensures |Leaves(pieces[i])| <= BlocksPer(pl)
    ensures LayerOf(pieces, pl)[i] == PieceHash(pieces[i], pl)
  {
    LeafCount(pieces[i], pl);
    hide PieceHash, Leaves;
    if i > 0 {
      LayerOfAt(pieces[1..], pl, i - 1);
    }
  }

  // ---------- reading the file ----------

  datatype ReadEnd = More | Eof | Failed

  /** One return of file.Read: some bytes, and whether more may follow. */
  datatype Read = Read(data: seq<byte>, end: ReadEnd)

  /** What reading a file to its end or to an error can return. */
  predicate FileReads(got: seq<Read>) {
    && |got| > 0 && got[|got| - 1].end != More
    && forall i :: 0 <= i < |got| - 1 ==> got[i].end == More
  }

  function Content(got: seq<Read>): seq<byte> {
    if got == [] then [] else Content(got[..|got| - 1]) + got[|got| - 1].data
  }

  // ---------- the info ----------

  datatype HybridInfo = HybridInfo(pieceLength: nat, pieces: seq<byte>, length: int,
                                   piecesRoot: Hash, pieceLayers: map<Hash, seq<Hash>>)

  /** BEP 52: a file larger than a piece has one piece layer, kept under its root, and the layer
      hashes to that root. */
  predicate LayersValid(info: HybridInfo)
    requires IsPow2(info.pieceLength / BLOCK)
  {
    && (info.length > info.pieceLength ==> info.piecesRoot in info.pieceLayers)
    && (info.piecesRoot in info.pieceLayers ==>
          RootWithPad(info.pieceLayers[info.piecesRoot], PiecePad(info.pieceLength)) == info.piecesRoot)
  }

  /** `layer` is the layer of all whole pieces of `seen`, and `tail` what is left. */
  ghost predicate Layered(seen: seq<byte>, tail: seq<byte>, layer: seq<Hash>, pl: nat)
    requires PieceLengthOk(pl) && pl > 0
  {
    && |tail| < pl && |tail| <= |seen|
    && seen[|seen| - |tail|..] == tail
    && (|seen| - |tail|) == Times(pl, |layer|)
    && layer == PieceLayer(seen[..|seen| - |tail|], pl)
  }

  lemma LayeredStart(pl: nat)
    requires PieceLengthOk(pl) && pl > 0
    ensures Layered([], [], [], pl)
  {}

  lemma LayerAppend(done: seq<byte>, piece: seq<byte>, pl: nat, k: nat)
    requires PieceLengthOk(pl) && |done| == Times(pl, k) && 0 < |piece| <= pl
    ensures |Leaves(piece)| <= BlocksPer(pl)
    ensures PieceLayer(done + piece, pl) == PieceLayer(done, pl) + [PieceHash(piece, pl)]
    ensures |PieceLayer(done, pl)| == k
  {
    CutAppend(done, piece, pl, k);
    LayerOfOne(piece, pl);
    hide PieceHash, Leaves, LayerOf;
    LayerOfAppend(Cut(done, pl), Cut(piece, pl), pl);
  }

  lemma LayeredFeed(seen: seq<byte>, tail: seq<byte>, layer: seq<Hash>, pl: nat, chunk: seq<byte>)
    requires PieceLengthOk(pl) && pl > 0 && Layered(seen, tail, layer, pl)
    requires 0 < |tail| + |chunk| <= pl
    ensures |Leaves(tail + chunk)| <= BlocksPer(pl)
    ensures |tail| + |chunk| < pl ==> Layered(seen + chunk, tail + chunk, layer, pl)
    ensures |tail| + |chunk| == pl ==>
      Layered(seen + chunk, [], layer + [PieceHash(tail + chunk, pl)], pl)
  {
    hide PieceHash, PieceLayer, Leaves;
    var done, piece, all := seen[..|seen| - |tail|], tail + chunk, seen + chunk;
    assert seen == done + tail;
    assert all == done + piece;
    LayerAppend(done, piece, pl, |layer|);
    if |piece| < pl {
      assert all[..|all| - |piece|] == done && all[|all| - |piece|..] == piece;
    } else {
      assert all[..|all|] == all;
    }
  }

  lemma LayeredEnd(seen: seq<byte>, tail: seq<byte>, layer: seq<Hash>, pl: nat)
    requires PieceLengthOk(pl) && pl > 0 && Layered(seen, tail, layer, pl)
    ensures |Leaves(tail)| <= BlocksPer(pl)
    ensures PieceLayer(seen, pl) == if tail == [] then layer else layer + [PieceHash(tail, pl)]
  {
    LeafCount(tail, pl);
    var done := seen[..|seen| - |tail|];
    assert seen == done + tail;
    if tail == [] {
      assert done == seen;
    } else {
      LayerAppend(done, tail, pl, |layer|);
    }
  }

  /** `pieces` and `fileSize` come from a streaming download, or are empty; `onDisk` is the file as
      stat and a first read find it, if they succeed; `got` is what reading it for the v2 tree
      returns. */
  method BuildHybridSingleFileInfo(sha1: seq<byte> -> seq<byte>, pieces: seq<byte>, fileSize: int,
                                   onDisk: Option<seq<byte>>, got: seq<Read>)
    returns (r: Option<HybridInfo>)
    requires FileReads(got)
    ensures r.None? <==> ((pieces == [] || fileSize <= 0) && onDisk.None?) || got[|got| - 1].end == Failed
    ensures r.Some? ==> var info := r.value;
      && info.length == (if pieces != [] && fileSize > 0 then fileSize else |onDisk.value|)
      && info.pieceLength == ChoosePieceSize(info.length)
      && info.pieces == (if pieces != [] then pieces else V1Pieces(sha1, onDisk.value, info.pieceLength))
    // Both roots and the layer, over what was read.
    ensures r.Some? ==> var info, content := r.value, Content(got);
      && PieceLengthOk(info.pieceLength) && LayersValid(info)
      && info.piecesRoot == (if info.length > info.pieceLength then LayerRoot(content, info.pieceLength)
                             else FileRoot(content))
      && info.pieceLayers == (if info.length > info.pieceLength
                              then map[info.piecesRoot := PieceLayer(content, info.pieceLength)] else map[])
    // Overwriting the root leaves the whole-file root in place exactly in these cases.
    ensures r.Some? ==> var info, content := r.value, Content(got);
      (info.piecesRoot == FileRoot(content)) <==>
      (info.length <= info.pieceLength || content == [] || 2 * |content| > info.pieceLength)
    ensures r.Some? && r.value.length == |Content(got)| ==> r.value.piecesRoot == FileRoot(Content(got))
  {
    hide PieceLayer, PieceHash, RootWithPad, PiecePad, Leaves, Root, IsPow2, V1Pieces, Content;
    var length: int;
    var v1 := pieces;
    if |pieces| > 0 {
      length := fileSize;
      if fileSize <= 0 {
        if onDisk.None? { return None; }
        length := |onDisk.value|;
      }
    } else {
      if onDisk.None? { return None; }
      length := |onDisk.value|;
      v1 := V1Pieces(sha1, onDisk.value, ChoosePieceSize(length));
    }
    var pl := ChoosePieceSize(length);
    ChosenPieceSize(length);

    var fileHasher, pieceHasher, layer, failed := ReadPieces(got, pl);
    if failed {
      return None;
    }
    LayeredEnd(fileHasher, pieceHasher, layer, pl);
    if length > 0 && pieceHasher != [] {
      layer := layer + [PieceHash(pieceHasher, pl)];
    }
    var piecesRoot := FileRoot(fileHasher);
    var pieceLayers := map[];
    if length > pl {
      piecesRoot := RootWithPad(layer, PiecePad(pl));
      pieceLayers := map[piecesRoot := layer];
    }
    RoutesAgreeIff(fileHasher, pl);
    r := Some(HybridInfo(pl, v1, length, piecesRoot, pieceLayers));
  }

  /** The reading loop: each buffer goes whole to the file hasher and, cut at piece boundaries, to
      the piece hasher. The hashers are what they were fed since their last reset. */
  method ReadPieces(got: seq<Read>, pl: nat)
    returns (fileHasher: seq<byte>, pieceHasher: seq<byte>, layer: seq<Hash>, failed: bool)
    requires FileReads(got) && PieceLengthOk(pl) && pl > 0
    ensures failed <==> got[|got| - 1].end == Failed
    ensures fileHasher == Content(got)
    ensures Layered(fileHasher, pieceHasher, layer, pl)
  {
    hide Layered, PieceLayer, PieceHash;
    fileHasher, pieceHasher, layer, failed := [], [], [], false;
    var remaining := pl;
    LayeredStart(pl);
    var i := 0;
    while i < |got|
      invariant 0 <= i <= |got| && !failed
      invariant fileHasher == Content(got[..i])
      invariant i > 0 ==> got[i - 1].end == More
      invariant remaining == pl - |pieceHasher| > 0
      invariant Layered(fileHasher, pieceHasher, layer, pl)
    {
      var buf := got[i].data;
      var offset := 0;
      assert fileHasher + buf[..0] == fileHasher;
      while offset < |buf|
        invariant 0 <= offset <= |buf|
        invariant remaining == pl - |pieceHasher| > 0
        invariant Layered(fileHasher + buf[..offset], pieceHasher, layer, pl)
      {
        var chunk := Min(|buf| - offset, remaining);
        var piece := buf[offset..offset + chunk];
        LayeredFeed(fileHasher + buf[..offset], pieceHasher, layer, pl, piece);
        PrefixStep(fileHasher, buf, offset, chunk);
        pieceHasher := pieceHasher + piece;
        offset := offset + chunk;
        remaining := remaining - chunk;
        if remaining == 0 {
          layer := layer + [PieceHash(pieceHasher, pl)];
          pieceHasher := [];
          remaining := pl;
        }
      }
      assert buf[..offset] == buf;
      fileHasher := fileHasher + buf;
      assert got[..i + 1][..i] == got[..i];
      i := i + 1;
      if got[i - 1].end == Eof { break; }
      if got[i - 1].end == Failed {
        failed := true;
        break;
      }
    }
    assert got[..i] == got;
  }
}
