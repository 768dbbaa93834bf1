/** The streaming piece hasher of internal/torrent/piece_hasher.go. */
module PieceHashing {
  import opened Chunks

  /** The digest is any function to 20 bytes. */
  ghost predicate IsDigest(sha1: seq<byte> -> seq<byte>) {
    forall b :: |sha1(b)| == 20
  }

  /** The digests of the given pieces, one after the other. */
  function Digests(sha1: seq<byte> -> seq<byte>, pieces: seq<seq<byte>>): seq<byte> {
    if pieces == [] then [] else sha1(pieces[0]) + Digests(sha1, pieces[1..])
  }

  /** The v1 "pieces" string of BEP 3: the digests of consecutive pieces of the file. */
  function V1Pieces(sha1: seq<byte> -> seq<byte>, data: seq<byte>, pieceSize: nat): seq<byte>
    requires pieceSize > 0
  {
    Digests(sha1, Cut(data, pieceSize))
  }

  lemma {:induction false} DigestsAppend(sha1: seq<byte> -> seq<byte>, a: seq<seq<byte>>, p: seq<byte>)
    ensures Digests(sha1, a + [p]) == Digests(sha1, a) + sha1(p)
  {
    if a == [] {
      assert Digests(sha1, [p]) == sha1(p) + Digests(sha1, []);
    } else {
      assert (a + [p])[0] == a[0] && (a + [p])[1..] == a[1..] + [p];
      DigestsAppend(sha1, a[1..], p);
    }
  }

  lemma {:induction false} DigestsLength(sha1: seq<byte> -> seq<byte>, pieces: seq<seq<byte>>)
    requires IsDigest(sha1)
    ensures |Digests(sha1, pieces)| == 20 * |pieces|
  {
    if pieces != [] {
      DigestsLength(sha1, pieces[1..]);
    }
  }

  lemma {:induction false} DigestAt(sha1: seq<byte> -> seq<byte>, pieces: seq<seq<byte>>, i: nat)
    requires IsDigest(sha1) && i < |pieces|
    ensures |Digests(sha1, pieces)| == 20 * |pieces|
    ensures Digests(sha1, pieces)[20 * i..20 * i + 20] == sha1(pieces[i])
    decreases i
  {
    DigestsLength(sha1, pieces);
    var rest := Digests(sha1, pieces[1..]);
    if i == 0 {
      assert (sha1(pieces[0]) + rest)[..20] == sha1(pieces[0]);
    } else {
      DigestAt(sha1, pieces[1..], i - 1);
      assert (sha1(pieces[0]) + rest)[20 * i..20 * i + 20] == rest[20 * (i - 1)..20 * (i - 1) + 20];
    }
  }

  /** The i-th 20 bytes are the digest of the i-th piece of the file. */
  lemma V1PieceAt(sha1: seq<byte> -> seq<byte>, data: seq<byte>, pieceSize: nat, i: nat)
    requires IsDigest(sha1) && pieceSize > 0 && pieceSize * i < |data|
    ensures |V1Pieces(sha1, data, pieceSize)| >= 20 * i + 20
    ensures V1Pieces(sha1, data, pieceSize)[20 * i..20 * i + 20]
         == sha1(data[pieceSize * i .. Min(pieceSize * i + pieceSize, |data|)])
  {
    hide Cut, Digests, CeilDiv, Times, Min;
    CutCount(data, pieceSize);
    PieceExists(|data|, pieceSize, i);
    TimesIsProduct(pieceSize, i);
    PieceIs(data, pieceSize, i);
    DigestAt(sha1, Cut(data, pieceSize), i);
  }

  lemma PieceIs(data: seq<byte>, pieceSize: nat, i: nat)
    requires pieceSize > 0 && i < |Cut(data, pieceSize)|
    ensures pieceSize * i < |data|
    ensures Cut(data, pieceSize)[i] == data[pieceSize * i .. Min(pieceSize * i + pieceSize, |data|)]
  {
    CutIndex(data, pieceSize, i);
    TimesIsProduct(pieceSize, i);
  }

  lemma PieceExists(n: nat, size: nat, i: nat)
    requires size > 0 && size * i < n
    ensures i < CeilDiv(n, size)
  {
    var q := CeilDiv(n, size);
    assert n <= q * size;
    MulMono(q, i, size);
  }

  /** Whole pieces followed by one more nonempty piece add one digest. */
  lemma V1PiecesAppend(sha1: seq<byte> -> seq<byte>, done: seq<byte>, piece: seq<byte>, size: nat, k: nat)
    requires |done| == Times(size, k) && 0 < |piece| <= size
    ensures V1Pieces(sha1, done + piece, size) == V1Pieces(sha1, done, size) + sha1(piece)
    ensures |Cut(done + piece, size)| == k + 1
  {
    CutAppend(done, piece, size, k);
    DigestsAppend(sha1, Cut(done, size), piece);
    assert Cut(piece, size) == [piece];
  }

  /** `k` pieces of the stream are digested and `tail`, less than a piece, is not. */
  ghost predicate Streaming(sha1: seq<byte> -> seq<byte>, size: nat,
                            stream: seq<byte>, tail: seq<byte>, digests: seq<byte>, k: nat)
    requires size > 0
  {
    && |tail| < size && |tail| <= |stream|
    && stream[|stream| - |tail|..] == tail
    && |stream| - |tail| == Times(size, k)
    && digests == V1Pieces(sha1, stream[..|stream| - |tail|], size)
    && |digests| == 20 * k
  }

  ghost predicate Finished(sha1: seq<byte> -> seq<byte>, size: nat,
                           stream: seq<byte>, digests: seq<byte>, k: nat)
    requires size > 0
  {
    digests == V1Pieces(sha1, stream, size) && k == CeilDiv(|stream|, size)
  }

  lemma PrefixStep(s: seq<byte>, p: seq<byte>, i: nat, n: nat)
    requires i + n <= |p|
    ensures s + p[..i] + p[i..i + n] == s + p[..i + n]
  {}

  lemma StreamingFeed(sha1: seq<byte> -> seq<byte>, size: nat, stream: seq<byte>, tail: seq<byte>,
                      digests: seq<byte>, k: nat, chunk: seq<byte>)
    requires size > 0 && IsDigest(sha1) && Streaming(sha1, size, stream, tail, digests, k)
    requires 0 < |tail| + |chunk| <= size
    ensures |tail| + |chunk| < size ==> Streaming(sha1, size, stream + chunk, tail + chunk, digests, k)
    ensures |tail| + |chunk| == size ==>
      Streaming(sha1, size, stream + chunk, [], digests + sha1(tail + chunk), k + 1)
  {
    hide V1Pieces;
    var done, piece, all := stream[..|stream| - |tail|], tail + chunk, stream + chunk;
    assert stream == done + tail;
    assert all == done + piece;
    if |piece| < size {
      assert all[..|all| - |piece|] == done && all[|all| - |piece|..] == piece;
    } else {
      V1PiecesAppend(sha1, done, piece, size, k);
      assert all[..|all| - 0] == all && all[|all| - 0..] == [];
    }
  }

  lemma StreamSplit(size: nat, stream: seq<byte>, tail: seq<byte>, k: nat)
    requires size > 0 && |tail| < size && |tail| <= |stream| && stream[|stream| - |tail|..] == tail
    requires |stream| - |tail| == Times(size, k)
    ensures stream == stream[..|stream| - |tail|] + tail
    ensures |Cut(stream, size)| == if tail == [] then k else k + 1
    ensures |stream| / size == k
  {
    var done := stream[..|stream| - |tail|];
    assert stream == done + tail;
    CutAppend(done, tail, size, k);
    assert tail != [] ==> Cut(tail, size) == [tail];
    hide Cut;
    TimesIsProduct(size, k);
    DivRange(|stream|, size, k);
  }

  lemma StreamingEnd(sha1: seq<byte> -> seq<byte>, size: nat, stream: seq<byte>, tail: seq<byte>,
                     digests: seq<byte>, k: nat)
    requires size > 0 && IsDigest(sha1) && Streaming(sha1, size, stream, tail, digests, k)
    ensures V1Pieces(sha1, stream, size) == if tail == [] then digests else digests + sha1(tail)
    ensures CeilDiv(|stream|, size) == if tail == [] then k else k + 1
    ensures |stream| / size == k
  {
    StreamSplit(size, stream, tail, k);
    CutCount(stream, size);
    hide V1Pieces, Times, CeilDiv;
    var done := stream[..|stream| - |tail|];
    if tail == [] {
      assert done == stream;
    } else {
      V1PiecesAppend(sha1, done, tail, size, k);
    }
  }

  class PieceHasher {
    const pieceSize: nat
    const sha1: seq<byte> -> seq<byte>
    var offset: nat       // bytes consumed in the piece in progress
    var pieceIndex: nat   // pieces finished so far
    var hasher: seq<byte> // what the running digest has been fed since its last reset
    var pieces: seq<byte> // the finished digests
    var finalized: bool
    ghost var stream: seq<byte> // everything written

    ghost predicate Valid()
      reads this
    {
      && pieceSize > 0 && IsDigest(sha1)
      && |pieces| == 20 * pieceIndex
      && 0 <= offset < pieceSize
      && (!finalized ==> offset == |hasher| && Streaming(sha1, pieceSize, stream, hasher, pieces, pieceIndex))
      && (finalized ==> Finished(sha1, pieceSize, stream, pieces, pieceIndex))
    }

    constructor (pieceSize: nat, sha1: seq<byte> -> seq<byte>)
      requires pieceSize > 0 && IsDigest(sha1)
      ensures Valid() && !finalized && stream == []
      ensures this.pieceSize == pieceSize && this.sha1 == sha1
    {
      this.pieceSize, this.sha1 := pieceSize, sha1;
      offset, pieceIndex, hasher, pieces, finalized := 0, 0, [], [], false;
      stream := [];
    }

    method Write(p: seq<byte>) returns (written: nat)
      requires Valid() && !finalized
      modifies this
      ensures Valid() && !finalized
      ensures stream == old(stream) + p && written == |p|
    {
      hide Streaming, V1Pieces;
      written := 0;
      while written < |p|
        invariant Valid() && !finalized
        invariant written <= |p|
        invariant stream == old(stream) + p[..written]
      {
        var space := pieceSize - offset;
        var take := |p| - written;
        if take > space {
          take := space;
        }
        var chunk := p[written..written + take];
        StreamingFeed(sha1, pieceSize, stream, hasher, pieces, pieceIndex, chunk);
        PrefixStep(old(stream), p, written, take);
        hasher := hasher + chunk;
        stream := stream + chunk;
        offset := offset + take;
        written := written + take;
        if offset == pieceSize {
          pieces := pieces + sha1(hasher);
          hasher := [];
          offset := 0;
          pieceIndex := pieceIndex + 1;
        }
      }
    }

    method Finalize() returns (digests: seq<byte>)
      requires Valid() && !finalized
      modifies this
      ensures Valid() && finalized && stream == old(stream)
      ensures digests == V1Pieces(sha1, stream, pieceSize)
      ensures |digests| == 20 * pieceIndex && pieceIndex == CeilDiv(|stream|, pieceSize)
    {
      finalized := true;
      StreamingEnd(sha1, pieceSize, stream, hasher, pieces, pieceIndex);
      if offset > 0 {
        pieces := pieces + sha1(hasher);
        hasher := [];
        offset := 0;
        pieceIndex := pieceIndex + 1;
      }
      digests := pieces;
    }

    /** Full pieces so far, and after Finalize all of them. */
    function PieceCount(): (n: nat)
      requires Valid()
      reads this
      ensures n == if finalized then CeilDiv(|stream|, pieceSize) else |stream| / pieceSize
    {
      if !finalized then
        StreamingEnd(sha1, pieceSize, stream, hasher, pieces, pieceIndex); pieceIndex
      else pieceIndex
    }
  }

  /** A whole download hashed while it streams: however it was split into writes, the digests are
      those of the consecutive pieces of the file. */
  method HashStream(sha1: seq<byte> -> seq<byte>, writes: seq<seq<byte>>, pieceSize: nat) returns (digests: seq<byte>)
    requires pieceSize > 0 && IsDigest(sha1)
    ensures digests == V1Pieces(sha1, Join(writes), pieceSize)
    ensures |digests| == 20 * CeilDiv(|Join(writes)|, pieceSize)
  {
    var hasher := new PieceHasher(pieceSize, sha1);
    for i := 0 to |writes|
      invariant hasher.Valid() && !hasher.finalized
      invariant hasher.pieceSize == pieceSize && hasher.sha1 == sha1
      invariant hasher.stream == Join(writes[..i])
    {
      var n := hasher.Write(writes[i]);
      JoinSnoc(writes, i);
    }
    assert writes[..|writes|] == writes;
    digests := hasher.Finalize();
  }
}
