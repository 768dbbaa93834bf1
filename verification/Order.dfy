/** Byte order of strings, and sorting by any total order. */
module Order {

  /** The order Go's < puts on strings. */
  predicate Less(a: string, b: string) {
    b != [] && (a == [] || a[0] < b[0] || (a[0] == b[0] && Less(a[1..], b[1..])))
  }

  predicate AtMost(a: string, b: string) {
    a == b || Less(a, b)
  }

  lemma {:induction false} LessTotal(a: string, b: string)
    ensures a == b || Less(a, b) || Less(b, a)
  {
    if a != [] && b != [] && a[0] == b[0] {
      LessTotal(a[1..], b[1..]);
      assert a == [a[0]] + a[1..] && b == [b[0]] + b[1..];
    }
  }

  lemma {:induction false} LessTransitive(a: string, b: string, c: string)
    requires Less(a, b) && Less(b, c)
    ensures Less(a, c)
  {
    if a != [] && a[0] == b[0] == c[0] {
      LessTransitive(a[1..], b[1..], c[1..]);
    }
  }

  lemma {:induction false} LessIrreflexive(a: string)
    ensures !Less(a, a)
  {
    if a != [] {
      LessIrreflexive(a[1..]);
    }
  }

  /** Equal up to position k, where a ends or has the lower byte. */
  predicate LowerAt(a: string, b: string, k: nat) {
    k <= |a| && k < |b| && a[..k] == b[..k] && (k == |a| || a[k] < b[k])
  }

  lemma {:induction false} LessIff(a: string, b: string)
    ensures Less(a, b) <==> exists k: nat :: LowerAt(a, b, k)
  {
    if b == [] || a == [] || a[0] != b[0] {
      if b != [] && (a == [] || a[0] < b[0]) {
        assert LowerAt(a, b, 0);
      }
    } else {
      LessIff(a[1..], b[1..]);
      if Less(a, b) {
        var k: nat :| LowerAt(a[1..], b[1..], k);
        assert a[..k + 1] == [a[0]] + a[1..][..k] && b[..k + 1] == [b[0]] + b[1..][..k];
        assert LowerAt(a, b, k + 1);
      }
      if k: nat :| LowerAt(a, b, k) {
        assert k > 0;
        assert a[1..][..k - 1] == a[..k][1..] && b[1..][..k - 1] == b[..k][1..];
        assert LowerAt(a[1..], b[1..], k - 1);
      }
    }
  }

  ghost predicate TotalOrder<T(!new)>(before: (T, T) -> bool) {
    && (forall a, b :: before(a, b) || before(b, a))
    && (forall a, b, c :: before(a, b) && before(b, c) ==> before(a, c))
  }

  ghost predicate Sorted<T>(xs: seq<T>, before: (T, T) -> bool) {
    forall i, j :: 0 <= i < j < |xs| ==> before(xs[i], xs[j])
  }

  /** Any sorting: all that is promised is order and the same elements. */
  method Sort<T(!new)>(xs: seq<T>, before: (T, T) -> bool) returns (r: seq<T>)
    requires TotalOrder(before)
    ensures Sorted(r, before) && multiset(r) == multiset(xs)
  {
    r := [];
    for i := 0 to |xs|
      invariant Sorted(r, before) && multiset(r) == multiset(xs[..i])
    {
      assert xs[..i + 1] == xs[..i] + [xs[i]];
      r := Insert(r, xs[i], before);
    }
    assert xs[..|xs|] == xs;
  }

  method Insert<T(!new)>(xs: seq<T>, x: T, before: (T, T) -> bool) returns (r: seq<T>)
    requires TotalOrder(before) && Sorted(xs, before)
    ensures Sorted(r, before) && multiset(r) == multiset(xs) + multiset{x}
  {
    var k := |xs|;
    while k > 0 && !before(xs[k - 1], x)
      invariant 0 <= k <= |xs|
      invariant forall j :: k <= j < |xs| ==> before(x, xs[j])
    {
      k := k - 1;
    }
    r := xs[..k] + [x] + xs[k..];
    assert xs == xs[..k] + xs[k..];
    InsertedIsSorted(xs, x, k, before);
  }

  lemma InsertedIsSorted<T(!new)>(xs: seq<T>, x: T, k: nat, before: (T, T) -> bool)
    requires TotalOrder(before) && Sorted(xs, before) && k <= |xs|
    requires forall j :: k <= j < |xs| ==> before(x, xs[j])
    requires k > 0 ==> before(xs[k - 1], x)
    ensures Sorted(xs[..k] + [x] + xs[k..], before)
  {
    var r := xs[..k] + [x] + xs[k..];
    forall i, j | 0 <= i < j < |r| ensures before(r[i], r[j]) {
      if j == k && i < k - 1 {
        assert before(xs[i], xs[k - 1]);
      }
    }
  }

  ghost predicate AllDistinct<T>(xs: seq<T>) {
    forall i, j :: 0 <= i < j < |xs| ==> xs[i] != xs[j]
  }

  /** Sorting does not repeat an element. */
  lemma PermutedDistinct<T>(a: seq<T>, b: seq<T>)
    requires multiset(a) == multiset(b) && AllDistinct(a)
    ensures AllDistinct(b)
  {
    forall i, j | 0 <= i < j < |b| ensures b[i] != b[j] {
      if b[i] == b[j] {
        assert b == b[..j] + [b[j]] + b[j + 1..];
        assert b[..j][i] == b[i];
        assert multiset(b)[b[i]] >= 2;
        assert b[i] in multiset(a);
        var k :| 0 <= k < |a| && a[k] == b[i];
        OnceIn(a, k);
      }
    }
  }

  lemma OnceIn<T>(xs: seq<T>, k: nat)
    requires k < |xs| && AllDistinct(xs)
    ensures multiset(xs)[xs[k]] == 1
  {
    assert xs == xs[..k] + [xs[k]] + xs[k + 1..];
    assert xs[k] !in xs[..k] && xs[k] !in xs[k + 1..];
  }
}
