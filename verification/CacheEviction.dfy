/** EvictLRU of internal/cache/store.go. */
module CacheEviction {
  import opened Wrappers
  import opened Order

  /** What the metadata of a cached model says; the download time is None if it does not parse. */
  datatype Entry = Entry(id: string, downloadedAt: Option<int>, size: int, dir: string)

  datatype Candidate = Candidate(entry: Entry, when: int, size: nat)

  datatype EvictionResult = EvictionResult(evictedModels: nat, bytesFreed: int, bytesBefore: int, bytesAfter: int)

  function CandidateOf(e: Entry): Candidate {
    Candidate(e, if e.downloadedAt.Some? then e.downloadedAt.value else 0, if e.size < 0 then 0 else e.size)
  }

  function Candidates(entries: seq<Entry>): seq<Candidate> {
    seq(|entries|, i requires 0 <= i < |entries| => CandidateOf(entries[i]))
  }

  function Total(cands: seq<Candidate>): nat {
    if cands == [] then 0 else cands[0].size + Total(cands[1..])
  }

  /** Least recently downloaded first, then by id. */
  predicate Older(a: Candidate, b: Candidate) {
    if a.when == b.when then AtMost(a.entry.id, b.entry.id) else a.when < b.when
  }

  lemma OlderIsOrder()
    ensures TotalOrder(Older)
  {
    forall a: Candidate, b: Candidate ensures Older(a, b) || Older(b, a) {
      LessTotal(a.entry.id, b.entry.id);
    }
    forall a: Candidate, b: Candidate, c: Candidate | Older(a, b) && Older(b, c) ensures Older(a, c) {
      if Less(a.entry.id, b.entry.id) && Less(b.entry.id, c.entry.id) {
        LessTransitive(a.entry.id, b.entry.id, c.entry.id);
      }
    }
  }

  /** Every candidate counts from its entry, an unreadable time as 0 and a negative size as no bytes;
      earlier downloads come first, and of those at the same time the lower id. */
  ghost predicate OldestFirst(order: seq<Candidate>) {
    && (forall c :: c in order ==>
          && c.when == (match c.entry.downloadedAt case Some(t) => t case None => 0)
          && c.size == (if c.entry.size > 0 then c.entry.size else 0))
    && (forall i, j :: 0 <= i < j < |order| ==>
          || order[i].when < order[j].when
          || (order[i].when == order[j].when
              && (order[i].entry.id == order[j].entry.id || Less(order[i].entry.id, order[j].entry.id))))
  }

  lemma SortedAreOldestFirst(entries: seq<Entry>, order: seq<Candidate>)
    requires multiset(order) == multiset(Candidates(entries)) && Sorted(order, Older)
    ensures OldestFirst(order)
    ensures forall c :: c in order ==> c.entry in entries
  {
    hide Less;
    forall c | c in order ensures exists i :: 0 <= i < |entries| && c == CandidateOf(entries[i]) {
      assert c in multiset(Candidates(entries));
    }
  }

  /** Where all can be removed, those that go were downloaded no later than those that stay. */
  lemma GoneAreOldest(entries: seq<Entry>, order: seq<Candidate>, maxBytes: int, underRoot: string -> bool,
                      fails: string -> bool)
    requires multiset(order) == multiset(Candidates(entries)) && Sorted(order, Older) && maxBytes >= 0
    requires forall e :: e in entries ==> underRoot(e.dir) && !fails(e.dir)
    ensures var run := Evict(order, Total(order), maxBytes, underRoot, fails);
      var k := |run.evicted|;
      && !run.failed && k <= |order| && run.evicted == order[..k]
      && Total(order) - Total(run.evicted) <= maxBytes
      && (forall gone, kept :: 0 <= gone < k <= kept < |order| ==> order[gone].when <= order[kept].when)
  {
    SortedAreOldestFirst(entries, order);
    hide Evict, Total, Candidates, Less;
    EvictsShortestPrefix(order, maxBytes, underRoot, fails);
    var k := |Evict(order, Total(order), maxBytes, underRoot, fails).evicted|;
    assert order == order[..k] + order[k..];
    TotalAppend(order[..k], order[k..]);
  }

  // ---------- what is evicted ----------

  /** The eviction loop over the sorted candidates, `after` bytes being left: what it removes, and
      whether it stops at a failing removal. */
  datatype Outcome = Outcome(evicted: seq<Candidate>, failed: bool)

  function Evict(cands: seq<Candidate>, after: int, maxBytes: int, underRoot: string -> bool,
                 fails: string -> bool): Outcome
    decreases |cands|
  {
    if cands == [] || after <= maxBytes then Outcome([], false)
    else
      var c := cands[0];
      if !underRoot(c.entry.dir) then Evict(cands[1..], after, maxBytes, underRoot, fails)
      else if fails(c.entry.dir) then Outcome([], true)
      else
        var rest := Evict(cands[1..], after - c.size, maxBytes, underRoot, fails);
        Outcome([c] + rest.evicted, rest.failed)
  }

  /** Nothing is counted twice or lost: whatever is evicted fits in the total. */
  lemma {:induction false} EvictedWithinTotal(cands: seq<Candidate>, after: int, maxBytes: int,
                                              underRoot: string -> bool, fails: string -> bool)
    ensures Total(Evict(cands, after, maxBytes, underRoot, fails).evicted) <= Total(cands)
    decreases |cands|
  {
    if cands != [] && after > maxBytes {
      var c := cands[0];
      EvictedWithinTotal(cands[1..], after, maxBytes, underRoot, fails);
      EvictedWithinTotal(cands[1..], after - c.size, maxBytes, underRoot, fails);
      var rest := Evict(cands[1..], after - c.size, maxBytes, underRoot, fails).evicted;
      assert ([c] + rest)[1..] == rest;
    }
  }

  /** Of some candidates, those that lie under the root. */
  function Under(cands: seq<Candidate>, underRoot: string -> bool): seq<Candidate> {
    if cands == [] then []
    else (if underRoot(cands[0].entry.dir) then [cands[0]] else []) + Under(cands[1..], underRoot)
  }

  /** The loop goes past the first `k` candidates: before each of them the budget is exceeded, and none
      of them is one that cannot be removed. */
  ghost predicate GoesPast(cands: seq<Candidate>, k: nat, after: int, maxBytes: int, underRoot: string -> bool,
                           fails: string -> bool) {
    k <= |cands| && forall j :: 0 <= j < k ==>
      && after - Total(Under(cands[..j], underRoot)) > maxBytes
      && (underRoot(cands[j].entry.dir) ==> !fails(cands[j].entry.dir))
  }

  /** And there it stops: the rest fits, or nothing is left, or the next one cannot be removed. */
  ghost predicate StopsAt(cands: seq<Candidate>, k: nat, after: int, maxBytes: int, underRoot: string -> bool,
                          fails: string -> bool, r: Outcome) {
    && k <= |cands| && r.evicted == Under(cands[..k], underRoot)
    && (if r.failed then k < |cands| && underRoot(cands[k].entry.dir) && fails(cands[k].entry.dir)
                         && after - Total(r.evicted) > maxBytes
        else k == |cands| || after - Total(r.evicted) <= maxBytes)
  }

  lemma UnderOne(cands: seq<Candidate>, j: nat, underRoot: string -> bool)
    requires j < |cands|
    ensures var first := if underRoot(cands[0].entry.dir) then [cands[0]] else [];
      Under(cands[..j + 1], underRoot) == first + Under(cands[1..][..j], underRoot)
    ensures Total(Under(cands[..j + 1], underRoot)) == Total(Under(cands[1..][..j], underRoot))
      + (if underRoot(cands[0].entry.dir) then cands[0].size else 0)
  {
    var c, rest := cands[0], Under(cands[1..][..j], underRoot);
    assert cands[..j + 1][0] == c && cands[..j + 1][1..] == cands[1..][..j];
    assert ([c] + rest)[0] == c && ([c] + rest)[1..] == rest && [] + rest == rest;
  }

  lemma PastOneMore(cands: seq<Candidate>, k: nat, after: int, maxBytes: int, underRoot: string -> bool,
                    fails: string -> bool)
    requires cands != [] && after > maxBytes
    requires var dir := cands[0].entry.dir; underRoot(dir) ==> !fails(dir)
    requires GoesPast(cands[1..], k, if underRoot(cands[0].entry.dir) then after - cands[0].size else after,
                      maxBytes, underRoot, fails)
    ensures GoesPast(cands, k + 1, after, maxBytes, underRoot, fails)
  {
    NothingUnder(underRoot);
    assert cands[..0] == [];
    hide Total, Under;
    forall j | 0 <= j < k + 1
      ensures after - Total(Under(cands[..j], underRoot)) > maxBytes
      ensures underRoot(cands[j].entry.dir) ==> !fails(cands[j].entry.dir)
    {
      if j > 0 {
        UnderOne(cands, j - 1, underRoot);
        assert cands[j] == cands[1..][j - 1];
      }
    }
  }

  lemma StopOneLater(cands: seq<Candidate>, k: nat, after: int, maxBytes: int, underRoot: string -> bool,
                     fails: string -> bool, rest: Outcome)
    requires cands != []
    requires StopsAt(cands[1..], k, if underRoot(cands[0].entry.dir) then after - cands[0].size else after,
                     maxBytes, underRoot, fails, rest)
    ensures var first := if underRoot(cands[0].entry.dir) then [cands[0]] else [];
      StopsAt(cands, k + 1, after, maxBytes, underRoot, fails, Outcome(first + rest.evicted, rest.failed))
  {
    hide Total, Under;
    UnderOne(cands, k, underRoot);
    assert k + 1 < |cands| ==> cands[k + 1] == cands[1..][k];
  }

  /** For all candidates, whatever lies under the root and whatever fails: the eviction looks at the first
      `k` candidates and evicts exactly those of them that lie under the root. */
  lemma {:induction false} EvictsUpTo(cands: seq<Candidate>, after: int, maxBytes: int, underRoot: string -> bool,
                                      fails: string -> bool) returns (k: nat)
    ensures GoesPast(cands, k, after, maxBytes, underRoot, fails)
    ensures StopsAt(cands, k, after, maxBytes, underRoot, fails, Evict(cands, after, maxBytes, underRoot, fails))
    decreases |cands|
  {
    NothingUnder(underRoot);
    assert cands[..0] == [];
    k := 0;
    if cands != [] {
      assert cands[0..] == cands;
      EvictStep(cands, 0, after, maxBytes, underRoot, fails);
      hide Evict, Total, Under;
      var c := cands[0];
      if after > maxBytes && !(underRoot(c.entry.dir) && fails(c.entry.dir)) {
        hide StopsAt, GoesPast;
        var left := if underRoot(c.entry.dir) then after - c.size else after;
        k := EvictsUpTo(cands[1..], left, maxBytes, underRoot, fails);
        var rest := Evict(cands[1..], left, maxBytes, underRoot, fails);
        assert [] + rest.evicted == rest.evicted;
        PastOneMore(cands, k, after, maxBytes, underRoot, fails);
        StopOneLater(cands, k, after, maxBytes, underRoot, fails, rest);
        k := k + 1;
      }
    }
  }

  lemma NothingUnder(underRoot: string -> bool)
    ensures Under([], underRoot) == [] && Total([]) == 0
  {}

  /** With every directory under the root and every removal successful: the shortest prefix whose
      removal brings the rest to the budget. */
  lemma {:induction false} EvictsShortestPrefix(cands: seq<Candidate>, maxBytes: int, underRoot: string -> bool,
                                                fails: string -> bool)
    requires forall c :: c in cands ==> underRoot(c.entry.dir) && !fails(c.entry.dir)
    requires maxBytes >= 0
    ensures var r := Evict(cands, Total(cands), maxBytes, underRoot, fails);
      var k := |r.evicted|;
      && !r.failed && k <= |cands| && r.evicted == cands[..k]
      && Total(cands[k..]) <= maxBytes
      && (forall j :: 0 <= j < k ==> Total(cands[j..]) > maxBytes)
    decreases |cands|
  {
    hide Evict, Total;
    assert cands[0..] == cands;
    if cands == [] || Total(cands) <= maxBytes {
      NothingEvicted(cands, Total(cands), maxBytes, underRoot, fails);
    } else {
      assert cands[0] in cands;
      var rest := cands[1..];
      EvictsShortestPrefix(rest, maxBytes, underRoot, fails);
      EvictStep(cands, 0, Total(cands), maxBytes, underRoot, fails);
      TotalCons(cands);
      var k := |Evict(rest, Total(rest), maxBytes, underRoot, fails).evicted|;
      assert cands[..k + 1] == [cands[0]] + rest[..k] && cands[k + 1..] == rest[k..];
      forall j | 0 <= j < k + 1 ensures Total(cands[j..]) > maxBytes {
        if j > 0 {
          assert cands[j..] == rest[j - 1..];
        }
      }
    }
  }

  lemma TotalCons(cands: seq<Candidate>)
    requires cands != []
    ensures Total(cands) == cands[0].size + Total(cands[1..])
  {}

  lemma {:induction false} TotalAppend(a: seq<Candidate>, b: seq<Candidate>)
    ensures Total(a + b) == Total(a) + Total(b)
  {
    if a == [] {
      assert a + b == b;
    } else {
      assert (a + b)[0] == a[0] && (a + b)[1..] == a[1..] + b;
      TotalAppend(a[1..], b);
    }
  }

  lemma TotalWithout(b: seq<Candidate>, i: nat)
    requires i < |b|
    ensures Total(b) == b[i].size + Total(b[..i] + b[i + 1..])
    ensures multiset(b[..i] + b[i + 1..]) == multiset(b) - multiset{b[i]}
  {
    hide Total;
    assert b == b[..i] + [b[i]] + b[i + 1..];
    TotalSnoc(b[..i], b[i]);
    TotalAppend(b[..i] + [b[i]], b[i + 1..]);
    TotalAppend(b[..i], b[i + 1..]);
  }

  lemma TotalHead(a: seq<Candidate>)
    requires a != []
    ensures Total(a) == a[0].size + Total(a[1..])
    ensures multiset(a[1..]) == multiset(a) - multiset{a[0]}
  {
    assert a == [a[0]] + a[1..];
  }

  lemma EmptyPermutation(b: seq<Candidate>)
    requires multiset(b) == multiset{}
    ensures b == []
  {
    assert |b| == |multiset(b)|;
  }

  lemma {:induction false} TotalOfPermutation(a: seq<Candidate>, b: seq<Candidate>)
    requires multiset(a) == multiset(b)
    ensures Total(a) == Total(b)
    decreases |a|
  {
    hide Total;
    if a == [] {
      EmptyPermutation(b);
    } else {
      assert a[0] in multiset(b);
      var i :| 0 <= i < |b| && b[i] == a[0];
      TotalWithout(b, i);
      TotalHead(a);
      TotalOfPermutation(a[1..], b[..i] + b[i + 1..]);
    }
  }

  lemma EvictStep(cands: seq<Candidate>, i: nat, after: int, maxBytes: int, underRoot: string -> bool,
                  fails: string -> bool)
    requires i < |cands|
    ensures var now := Evict(cands[i..], after, maxBytes, underRoot, fails);
      var c, rest := cands[i], Evict(cands[i + 1..], after - cands[i].size, maxBytes, underRoot, fails);
      if after <= maxBytes then now == Outcome([], false)
      else if !underRoot(c.entry.dir) then now == Evict(cands[i + 1..], after, maxBytes, underRoot, fails)
      else if fails(c.entry.dir) then now == Outcome([], true)
      else now == Outcome([c] + rest.evicted, rest.failed)
  {
    assert cands[i..][0] == cands[i] && cands[i..][1..] == cands[i + 1..];
  }

  lemma NothingEvicted(cands: seq<Candidate>, after: int, maxBytes: int, underRoot: string -> bool,
                       fails: string -> bool)
    requires cands == [] || after <= maxBytes
    ensures Evict(cands, after, maxBytes, underRoot, fails) == Outcome([], false)
    ensures Total([]) == 0
  {}

  /** `done` has been evicted and `ahead` is what the rest of the loop will do. */
  ghost predicate Continues(run: Outcome, done: seq<Candidate>, ahead: Outcome) {
    run == Outcome(done + ahead.evicted, ahead.failed)
  }

  lemma ContinuesTake(run: Outcome, done: seq<Candidate>, c: Candidate, rest: Outcome)
    requires Continues(run, done, Outcome([c] + rest.evicted, rest.failed))
    ensures Continues(run, done + [c], rest)
    ensures Total(done + [c]) == Total(done) + c.size <= Total(run.evicted)
  {
    hide Total;
    assert done + ([c] + rest.evicted) == done + [c] + rest.evicted;
    TotalSnoc(done, c);
    TotalAppend(done + [c], rest.evicted);
  }

  lemma TakeStep(disk: map<string, Entry>, run: Outcome, done: seq<Candidate>, c: Candidate, rest: Outcome)
    requires Continues(run, done, Outcome([c] + rest.evicted, rest.failed))
    ensures Continues(run, done + [c], rest)
    ensures Total(done + [c]) == Total(done) + c.size <= Total(run.evicted)
    ensures RemoveEach(disk, done + [c]) == RemoveAll(RemoveEach(disk, done), c.entry.dir)
  {
    hide Total, Continues, RemoveEach, RemoveAll;
    ContinuesTake(run, done, c, rest);
    RemoveEachSnoc(disk, done, c);
  }

  lemma ContinuesEnd(run: Outcome, done: seq<Candidate>, failed: bool)
    requires Continues(run, done, Outcome([], failed))
    ensures run == Outcome(done, failed)
  {
    assert done + [] == done;
  }

  lemma NothingRemoved(disk: map<string, Entry>)
    ensures RemoveEach(disk, []) == disk
  {}

  lemma TotalSnoc(done: seq<Candidate>, c: Candidate)
    ensures Total(done + [c]) == Total(done) + c.size
  {
    TotalAppend(done, [c]);
    assert [c][1..] == [];
  }

  // ---------- the cache ----------

  /** os.RemoveAll takes a directory and everything below it. */
  predicate Below(dir: string, top: string) {
    dir == top || (|dir| > |top| && dir[..|top| + 1] == top + "/")
  }

  function RemoveAll(disk: map<string, Entry>, top: string): map<string, Entry> {
    map d | d in disk && !Below(d, top) :: disk[d]
  }

  function RemoveEach(disk: map<string, Entry>, evicted: seq<Candidate>): map<string, Entry> {
    if evicted == [] then disk else RemoveEach(RemoveAll(disk, evicted[0].entry.dir), evicted[1..])
  }

  /** No entry's directory lies in another's. */
  ghost predicate Disjoint(disk: map<string, Entry>) {
    forall a, b :: a in disk && b in disk && a != b ==> !Below(a, b)
  }

  /** Then evicting removes exactly the evicted entries. */
  lemma RemovesOnlyEvicted(disk: map<string, Entry>, evicted: seq<Candidate>)
    requires Disjoint(disk) && forall c :: c in evicted ==> c.entry.dir in disk
    ensures RemoveEach(disk, evicted) == Without(disk, DirsOf(evicted))
  {
    RemoveSame(disk, evicted, {});
    assert Without(disk, {}) == disk;
    assert {} + DirsOf(evicted) == DirsOf(evicted);
  }

  /** What is left of a disk when some directories are gone. */
  function Without(disk: map<string, Entry>, gone: set<string>): map<string, Entry> {
    map d | d in disk && d !in gone :: disk[d]
  }

  function DirsOf(evicted: seq<Candidate>): set<string> {
    set c | c in evicted :: c.entry.dir
  }

  lemma RemoveOne(disk: map<string, Entry>, gone: set<string>, top: string)
    requires Disjoint(disk) && top in disk
    ensures RemoveAll(Without(disk, gone), top) == Without(disk, gone + {top})
  {}

  lemma DirsCons(evicted: seq<Candidate>)
    requires evicted != []
    ensures DirsOf(evicted) == {evicted[0].entry.dir} + DirsOf(evicted[1..])
  {
    assert evicted == [evicted[0]] + evicted[1..];
  }

  /** Removing from what is left of a disjoint disk. */
  lemma {:induction false} RemoveSame(disk: map<string, Entry>, evicted: seq<Candidate>, gone: set<string>)
    requires Disjoint(disk) && forall c :: c in evicted ==> c.entry.dir in disk
    ensures RemoveEach(Without(disk, gone), evicted) == Without(disk, gone + DirsOf(evicted))
    decreases |evicted|
  {
    hide Without, RemoveAll, Disjoint;
    if evicted == [] {
      assert gone + DirsOf(evicted) == gone;
    } else {
      var top := evicted[0].entry.dir;
      assert evicted[0] in evicted;
      RemoveOne(disk, gone, top);
      RemoveSame(disk, evicted[1..], gone + {top});
      DirsCons(evicted);
      hide DirsOf;
      assert gone + ({top} + DirsOf(evicted[1..])) == gone + {top} + DirsOf(evicted[1..]);
    }
  }

  class Store {
    var disk: map<string, Entry>

    constructor (disk: map<string, Entry>)
      ensures this.disk == disk
    {
      this.disk := disk;
    }

    /** `listed` is what List returns, None if it fails; `order` is the sorted candidates. */
    method EvictLRU(maxBytes: int, listed: Option<seq<Entry>>, underRoot: string -> bool, fails: string -> bool)
      returns (res: EvictionResult, failed: bool, ghost order: seq<Candidate>)
      modifies this
      ensures maxBytes <= 0 ==> !failed && res == EvictionResult(0, 0, 0, 0) && disk == old(disk)
      ensures maxBytes > 0 && listed.None? ==> failed && disk == old(disk)
      ensures maxBytes > 0 && listed.Some? ==>
        && Sorted(order, Older) && multiset(order) == multiset(Candidates(listed.value))
        && OldestFirst(order)
        && var run := Evict(order, Total(order), maxBytes, underRoot, fails);
        && failed == run.failed
        && disk == RemoveEach(old(disk), run.evicted)
        && res.evictedModels == |run.evicted|
        && res.bytesBefore == Total(Candidates(listed.value)) && res.bytesFreed == Total(run.evicted)
        && res.bytesFreed + res.bytesAfter == res.bytesBefore
        // Where all can be removed, those that go were downloaded no later than those that stay.
        && ((forall e :: e in listed.value ==> underRoot(e.dir) && !fails(e.dir)) ==>
              && !failed && res.evictedModels <= |order| && run.evicted == order[..res.evictedModels]
              && res.bytesAfter <= maxBytes
              && forall gone, kept :: 0 <= gone < res.evictedModels <= kept < |order| ==>
                   order[gone].when <= order[kept].when)
    {
      order := [];
      if maxBytes <= 0 {
        return EvictionResult(0, 0, 0, 0), false, order;
      }
      if listed.None? {
        return EvictionResult(0, 0, 0, 0), true, order;
      }
      hide Total, Evict, RemoveEach, Candidates, Older, Sorted;
      var cands, total := BuildCandidates(listed.value);
      OlderIsOrder();
      var sorted := Sort(cands, Older);
      order := sorted;
      TotalOfPermutation(sorted, cands);
      SortedAreOldestFirst(listed.value, order);
      if forall e :: e in listed.value ==> underRoot(e.dir) && !fails(e.dir) {
        GoneAreOldest(listed.value, order, maxBytes, underRoot, fails);
      }
      if total <= maxBytes {
        NothingEvicted(order, total, maxBytes, underRoot, fails);
        NothingRemoved(disk);
        return EvictionResult(0, 0, total, total), false, order;
      }
      res, failed := EvictSorted(sorted, total, maxBytes, underRoot, fails);
    }

    static method BuildCandidates(entries: seq<Entry>) returns (cands: seq<Candidate>, total: nat)
      ensures cands == Candidates(entries) && total == Total(cands)
    {
      hide Total;
      NothingEvicted([], 0, 0, _ => true, _ => true);
      cands, total := [], 0;
      for i := 0 to |entries|
        invariant cands == Candidates(entries[..i]) && total == Total(cands)
      {
        var c := CandidateOf(entries[i]);
        TotalSnoc(cands, c);
        assert Candidates(entries[..i + 1]) == Candidates(entries[..i]) + [c];
        total := total + c.size;
        cands := cands + [c];
      }
      assert entries[..|entries|] == entries;
    }

    /** One eviction; the clamp of the count never fires when the entry is part of it. */
    method Take(c: Candidate, before: EvictionResult) returns (res: EvictionResult)
      requires c.size <= before.bytesAfter
      modifies this
      ensures disk == RemoveAll(old(disk), c.entry.dir)
      ensures res == EvictionResult(before.evictedModels + 1, before.bytesFreed + c.size,
                                    before.bytesBefore, before.bytesAfter - c.size)
    {
      disk := RemoveAll(disk, c.entry.dir);
      var after := before.bytesAfter - c.size;
      if after < 0 {
        after := 0;
      }
      res := EvictionResult(before.evictedModels + 1, before.bytesFreed + c.size, before.bytesBefore, after);
    }

    method EvictSorted(cands: seq<Candidate>, total: nat, maxBytes: int, underRoot: string -> bool,
                       fails: string -> bool)
      returns (res: EvictionResult, failed: bool)
      requires total == Total(cands)
      modifies this
      ensures var run := Evict(cands, total, maxBytes, underRoot, fails);
        && failed == run.failed && disk == RemoveEach(old(disk), run.evicted)
        && res == EvictionResult(|run.evicted|, Total(run.evicted), total, total - Total(run.evicted))
    {
      ghost var run := Evict(cands, total, maxBytes, underRoot, fails);
      EvictedWithinTotal(cands, total, maxBytes, underRoot, fails);
      NothingEvicted([], 0, 0, underRoot, fails);
      assert cands[0..] == cands && [] + run.evicted == run.evicted;
      res := EvictionResult(0, 0, total, total);
      ghost var done: seq<Candidate> := [];
      ghost var ahead := run;
      NothingRemoved(disk);
      hide Evict, Total, RemoveAll, RemoveEach, Continues;
      var i := 0;
      while i < |cands|
        invariant 0 <= i <= |cands|
        invariant ahead == Evict(cands[i..], res.bytesAfter, maxBytes, underRoot, fails)
        invariant Continues(run, done, ahead)
        invariant res == EvictionResult(|done|, Total(done), total, total - Total(done))
        invariant disk == RemoveEach(old(disk), done)
      {
        EvictStep(cands, i, res.bytesAfter, maxBytes, underRoot, fails);
        if res.bytesAfter <= maxBytes {
          ContinuesEnd(run, done, false);
          return res, false;
        }
        var c := cands[i];
        i := i + 1;
        if !underRoot(c.entry.dir) {
          continue;
        }
        if fails(c.entry.dir) {
          ContinuesEnd(run, done, true);
          return res, true;
        }
        ahead := Evict(cands[i..], res.bytesAfter - c.size, maxBytes, underRoot, fails);
        TakeStep(old(disk), run, done, c, ahead);
        done := done + [c];
        res := Take(c, res);
      }
      NothingEvicted(cands[i..], res.bytesAfter, maxBytes, underRoot, fails);
      ContinuesEnd(run, done, false);
      failed := false;
    }
  }

  lemma {:induction false} RemoveEachSnoc(disk: map<string, Entry>, done: seq<Candidate>, c: Candidate)
    ensures RemoveEach(disk, done + [c]) == RemoveAll(RemoveEach(disk, done), c.entry.dir)
    decreases |done|
  {
    if done == [] {
      assert [] + [c] == [c] && [c][1..] == [];
    } else {
      assert (done + [c])[0] == done[0] && (done + [c])[1..] == done[1..] + [c];
      RemoveEachSnoc(RemoveAll(disk, done[0].entry.dir), done[1..], c);
    }
  }

  /** Putting the last evicted entry back would exceed the budget. */
  lemma {:induction false} LastEvictedIsNeeded(cands: seq<Candidate>, maxBytes: int, underRoot: string -> bool,
                                               fails: string -> bool)
    requires forall c :: c in cands ==> underRoot(c.entry.dir) && !fails(c.entry.dir)
    requires maxBytes >= 0
    ensures var evicted := Evict(cands, Total(cands), maxBytes, underRoot, fails).evicted;
      evicted != [] ==> Total(cands) - Total(evicted) + evicted[|evicted| - 1].size > maxBytes
  {
    EvictsShortestPrefix(cands, maxBytes, underRoot, fails);
    hide Evict, Total;
    var k := |Evict(cands, Total(cands), maxBytes, underRoot, fails).evicted|;
    if k > 0 {
      TotalFrom(cands, k);
    }
  }

  lemma TotalFrom(cands: seq<Candidate>, k: nat)
    requires 0 < k <= |cands|
    ensures Total(cands) - Total(cands[..k]) + cands[..k][k - 1].size == Total(cands[k - 1..])
  {
    hide Total;
    var a, b := cands[..k - 1], cands[k - 1..];
    assert cands == a + b;
    TotalAppend(a, b);
    assert cands[..k] == a + [cands[k - 1]];
    TotalSnoc(a, cands[k - 1]);
  }
}
