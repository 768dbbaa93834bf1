/** Cutting a sequence into consecutive blocks of one size, the last one possibly shorter.
    Both torrent formats are stated over this one notion: v1 pieces, v2 pieces and the
    16 KiB blocks under them. */
module Chunks {

  type byte = b: int | 0 <= b < 256

  function Min(a: int, b: int): int {
    if a <= b then a else b
  }

  function Max(a: int, b: int): int {
    if a >= b then a else b
  }

  function CeilDiv(n: nat, d: nat): nat
    requires d > 0
  {
    (n + d - 1) / d
  }

  /** The consecutive blocks of `s`. */
  function Cut(s: seq<byte>, size: nat): (r: seq<seq<byte>>)
    requires size > 0
    ensures forall c :: c in r ==> 0 < |c| <= size
    ensures r == [] <==> s == []
  {
    if s == [] then []
    else if |s| <= size then [s]
    else [s[..size]] + Cut(s[size..], size)
  }

  function Join(parts: seq<seq<byte>>): seq<byte> {
    if parts == [] then [] else parts[0] + Join(parts[1..])
  }

  lemma {:induction false} JoinAppend(a: seq<seq<byte>>, b: seq<seq<byte>>)
    ensures Join(a + b) == Join(a) + Join(b)
  {
    if a == [] {
      assert a + b == b;
    } else {
      assert (a + b)[0] == a[0] && (a + b)[1..] == a[1..] + b;
      JoinAppend(a[1..], b);
    }
  }

  lemma JoinCons(p: seq<byte>, rest: seq<seq<byte>>)
    ensures Join([p] + rest) == p + Join(rest)
  {
    assert ([p] + rest)[1..] == rest;
  }

  lemma JoinSnoc(parts: seq<seq<byte>>, i: nat)
    requires i < |parts|
    ensures Join(parts[..i + 1]) == Join(parts[..i]) + parts[i]
  {
    assert parts[..i + 1] == parts[..i] + [parts[i]];
    JoinAppend(parts[..i], [parts[i]]);
    JoinCons(parts[i], []);
    assert [parts[i]] + [] == [parts[i]] && parts[i] + [] == parts[i];
  }

  lemma {:induction false} JoinCut(s: seq<byte>, size: nat)
    requires size > 0
    ensures Join(Cut(s, size)) == s
  {
    if |s| > size {
      JoinCut(s[size..], size);
      JoinCons(s[..size], Cut(s[size..], size));
      assert s[..size] + s[size..] == s;
    } else if s != [] {
      JoinCons(s, []);
      assert [s] + [] == [s] && s + [] == s;
    }
  }

  /** A product as repeated addition, which keeps inductions over it linear. */
  function Times(width: nat, count: nat): nat {
    if count == 0 then 0 else width + Times(width, count - 1)
  }

  lemma {:induction false} TimesIsProduct(width: nat, count: nat)
    ensures Times(width, count) == width * count
  {
    if count > 0 {
      TimesIsProduct(width, count - 1);
    }
  }

  /** A whole number of blocks can be cut off in front. */
  lemma {:induction false} CutAppend(a: seq<byte>, b: seq<byte>, size: nat, k: nat)
    requires size > 0 && |a| == Times(size, k)
    ensures Cut(a + b, size) == Cut(a, size) + Cut(b, size)
    ensures |Cut(a, size)| == k
    decreases k
  {
    hide Cut;
    if k == 0 {
      assert a + b == b;
    } else {
      CutAppend(a[size..], b, size, k - 1);
      CutStep(a, size);
      SliceSum(a, b, size);
      CutStep(a + b, size);
    }
  }

  lemma SliceSum(a: seq<byte>, b: seq<byte>, n: nat)
    requires n <= |a|
    ensures (a + b)[..n] == a[..n] && (a + b)[n..] == a[n..] + b
  {}

  lemma CutStep(s: seq<byte>, size: nat)
    requires 0 < size <= |s|
    ensures Cut(s, size) == [s[..size]] + Cut(s[size..], size)
  {
    if |s| == size {
      assert s[..size] == s && s[size..] == [];
    }
  }

  lemma {:induction false} CutCount(s: seq<byte>, size: nat)
    requires size > 0
    ensures |Cut(s, size)| == CeilDiv(|s|, size)
  {
    if |s| > size {
      CutCount(s[size..], size);
      DivStep(|s| - 1, size);
    } else if s != [] {
      DivRange(|s| + size - 1, size, 1);
    } else {
      DivRange(size - 1, size, 0);
    }
  }

  /** The i-th block is the bytes from i·size on. */
  lemma {:induction false} CutIndex(s: seq<byte>, size: nat, i: nat)
    requires size > 0 && i < |Cut(s, size)|
    ensures Times(size, i) < |s|
    ensures Cut(s, size)[i] == s[Times(size, i) .. Min(Times(size, i) + size, |s|)]
    decreases i
  {
    hide Cut;
    if i == 0 {
      CutHead(s, size);
    } else {
      CutTail(s, size, i);
      CutIndex(s[size..], size, i - 1);
      SliceShift(s, size, Times(size, i - 1), Min(Times(size, i) + size, |s|));
    }
  }

  lemma CutHead(s: seq<byte>, size: nat)
    requires 0 < size && Cut(s, size) != []
    ensures s != [] && Cut(s, size)[0] == s[0..Min(size, |s|)]
  {}

  lemma CutTail(s: seq<byte>, size: nat, i: nat)
    requires 0 < size && 0 < i < |Cut(s, size)|
    ensures |s| > size && i - 1 < |Cut(s[size..], size)|
    ensures Cut(s, size)[i] == Cut(s[size..], size)[i - 1]
  {}

  lemma SliceShift(s: seq<byte>, d: nat, lo: nat, hi: nat)
    requires d + lo <= hi <= |s|
    ensures s[d..][lo..hi - d] == s[lo + d..hi]
  {}

  // Quotients.
  lemma MulMono(a: nat, b: nat, d: nat)
    ensures a <= b ==> a * d <= b * d
  {}

  lemma DivRange(n: nat, d: nat, q: nat)
    requires d > 0 && q * d <= n < q * d + d
    ensures n / d == q
  {
    var r := n / d;
    assert r * d <= n < r * d + d;
    MulMono(r + 1, q, d);
    MulMono(q + 1, r, d);
  }

  lemma DivStep(n: nat, d: nat)
    requires d > 0
    ensures (n + d) / d == n / d + 1
  {
    var q := n / d;
    assert (q + 1) * d == q * d + d;
    DivRange(n + d, d, q + 1);
  }
}
