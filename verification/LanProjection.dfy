/** What the server makes of the hints: pickBestByFreshness, peerCountAndLastSeen,
    peerAddrsFromHints, summarizeLANSeen and handleLanSeen of internal/daemon/server.go. */
module LanProjection {
  import opened Wrappers
  import opened Text
  import opened Order
  import opened LanRate
  import opened LanIndex
  import opened LanHistory

  const SOFT_TTL: int := 120 * SECOND
  const HARD_TTL: int := 900 * SECOND
  const MAX_ROWS: nat := 500

  predicate Unexpired(h: Hint, now: Time) {
    now - h.seenAt <= HARD_TTL
  }

  ghost predicate HasUnexpired(hints: seq<Hint>, now: Time) {
    exists h :: h in hints && Unexpired(h, now)
  }

  /** The first of the latest hints that are not too old. */
  ghost predicate IsBest(hints: seq<Hint>, now: Time, best: Option<nat>) {
    match best
    case None => forall h :: h in hints ==> !Unexpired(h, now)
    case Some(i) =>
      && i < |hints| && Unexpired(hints[i], now)
      && (forall j :: 0 <= j < |hints| && Unexpired(hints[j], now) ==> hints[j].seenAt <= hints[i].seenAt)
      && (forall j :: 0 <= j < i && Unexpired(hints[j], now) ==> hints[j].seenAt < hints[i].seenAt)
  }

  lemma BestIsUnique(hints: seq<Hint>, now: Time, a: Option<nat>, b: Option<nat>)
    requires IsBest(hints, now, a) && IsBest(hints, now, b)
    ensures a == b
  {
    if a.Some? && b.Some? {
      assert hints[a.value].seenAt == hints[b.value].seenAt;
    }
  }

  lemma NoneIsNotSome(hints: seq<Hint>, now: Time, i: nat)
    requires IsBest(hints, now, None)
    ensures !IsBest(hints, now, Some(i))
  {}

  /** Two tiers, hints up to two minutes old before hints up to fifteen, each by least age: the
      same choice as one search for the least age. */
  method PickBestByFreshness(hints: seq<Hint>, now: Time) returns (best: Option<nat>)
    ensures IsBest(hints, now, best)
  {
    var recent: Option<nat>, recentAge := None, SOFT_TTL + 1;
    var stale: Option<nat>, staleAge := None, HARD_TTL + 1;
    var i := 0;
    while i < |hints|
      invariant 0 <= i <= |hints|
      invariant recent.Some? ==>
        && recent.value < i && now - hints[recent.value].seenAt == recentAge <= SOFT_TTL
        && (forall j :: 0 <= j < i ==> now - hints[j].seenAt >= recentAge)
        && (forall j :: 0 <= j < recent.value ==> now - hints[j].seenAt > recentAge)
      invariant recent.None? ==> forall j :: 0 <= j < i ==> now - hints[j].seenAt > SOFT_TTL
      invariant stale.Some? ==>
        && stale.value < i && SOFT_TTL < now - hints[stale.value].seenAt == staleAge <= HARD_TTL
        && (forall j :: 0 <= j < i && now - hints[j].seenAt > SOFT_TTL ==> now - hints[j].seenAt >= staleAge)
        && (forall j :: 0 <= j < stale.value && now - hints[j].seenAt > SOFT_TTL ==> now - hints[j].seenAt > staleAge)
      invariant stale.None? ==> forall j :: 0 <= j < i && now - hints[j].seenAt > SOFT_TTL ==> !Unexpired(hints[j], now)
    {
      var age := now - hints[i].seenAt;
      if age <= HARD_TTL {
        if age <= SOFT_TTL {
          if recent.None? || age < recentAge {
            recent := Some(i);
            recentAge := age;
          }
        } else if stale.None? || age < staleAge {
          stale := Some(i);
          staleAge := age;
        }
      }
      i := i + 1;
    }
    best := if recent.Some? then recent else stale;
  }

  predicate Matches(h: Hint, v1: string, now: Time) {
    h.v1 == v1 && Unexpired(h, now)
  }

  function NodesOf(hints: seq<Hint>, v1: string, now: Time): set<string> {
    set h | h in hints && Matches(h, v1, now) && h.node != "" :: h.node
  }

  /** The latest time a counted hint was seen, or Go's zero time. */
  ghost predicate IsLatest(hints: seq<Hint>, v1: string, now: Time, t: Time) {
    && (forall h :: h in hints && Matches(h, v1, now) && h.node != "" ==> h.seenAt <= t)
    && (t == ZERO_TIME || exists h :: h in hints && Matches(h, v1, now) && h.node != "" && h.seenAt == t)
  }

  method PeerCountAndLastSeen(hints: seq<Hint>, v1: string, now: Time) returns (count: nat, lastSeen: Time)
    ensures count == |NodesOf(hints, v1, now)|
    ensures IsLatest(hints, v1, now, lastSeen)
  {
    var seenNodes: set<string> := {};
    lastSeen := ZERO_TIME;
    for i := 0 to |hints|
      invariant seenNodes == NodesOf(hints[..i], v1, now)
      invariant IsLatest(hints[..i], v1, now, lastSeen)
    {
      var h := hints[i];
      assert hints[..i + 1] == hints[..i] + [h];
      if h.v1 != v1 || h.node == "" {
        continue;
      }
      if now - h.seenAt > HARD_TTL {
        continue;
      }
      seenNodes := seenNodes + {h.node};
      if h.seenAt > lastSeen {
        lastSeen := h.seenAt;
      }
    }
    assert hints[..|hints|] == hints;
    count := |seenNodes|;
  }

  /** The trimmed addresses of the matching hints, in order. */
  function AddrsOf(hints: seq<Hint>, v1: string, now: Time): seq<string>
    decreases |hints|
  {
    if hints == [] then []
    else
      AddrsOf(hints[..|hints| - 1], v1, now)
      + (if Matches(Last(hints), v1, now) then [TrimSpace(Last(hints).peerAddr)] else [])
  }

  method PeerAddrsFromHints(hints: seq<Hint>, v1: string, now: Time) returns (addrs: seq<string>)
    ensures addrs == Distinct(AddrsOf(hints, v1, now))
  {
    hide TrimSpace;
    addrs := [];
    var seen: set<string> := {};
    for i := 0 to |hints|
      invariant addrs == Distinct(AddrsOf(hints[..i], v1, now))
      invariant seen == set a | a in addrs
    {
      var h := hints[i];
      assert hints[..i + 1][..i] == hints[..i] && Last(hints[..i + 1]) == h;
      assert AddrsOf(hints[..i], v1, now) + [] == AddrsOf(hints[..i], v1, now);
      if h.v1 != v1 {
        continue;
      }
      if now - h.seenAt > HARD_TTL {
        continue;
      }
      var addr := TrimSpace(h.peerAddr);
      DistinctSnoc(AddrsOf(hints[..i], v1, now), addr);
      if addr == "" {
        continue;
      }
      if addr in seen {
        continue;
      }
      seen := seen + {addr};
      addrs := addrs + [addr];
    }
    assert hints[..|hints|] == hints;
  }

  // ---------- rows ----------

  datatype Row = Row(modelID: string, hfRepo: string, revision: string, v1: string, v2: string,
                     artifactKey: string, peerCount: nat, lastSeen: int, peerAddrs: seq<string>)

  function ArtifactKey(modelID: string, revision: string): string {
    if TrimSpace(revision) == "" then modelID else modelID + "@" + TrimSpace(revision)
  }

  /** time.Time.Unix: whole seconds, rounded down. */
  function Unix(t: Time): int {
    t / SECOND
  }

  /** The row made of the hint chosen at `i`. */
  ghost predicate IsRowAt(modelID: string, hints: seq<Hint>, now: Time, row: Row, i: nat, lastSeen: Time) {
    && IsBest(hints, now, Some(i)) && IsLatest(hints, hints[i].v1, now, lastSeen)
    && row == Row(modelID, hints[i].hfRepo, hints[i].revision, hints[i].v1, hints[i].v2,
                  ArtifactKey(modelID, hints[i].revision), |NodesOf(hints, hints[i].v1, now)|, Unix(lastSeen),
                  Distinct(AddrsOf(hints, hints[i].v1, now)))
    && row.peerCount > 0
  }

  /** The row of a model, if there is a chosen hint and it has any peer. */
  ghost predicate IsRow(modelID: string, hints: seq<Hint>, now: Time, row: Row) {
    exists i: nat, lastSeen: Time :: IsRowAt(modelID, hints, now, row, i, lastSeen)
  }

  method RowFor(modelID: string, hints: seq<Hint>, now: Time) returns (row: Option<Row>)
    ensures row.Some? ==> IsRow(modelID, hints, now, row.value)
    ensures row.None? ==> forall i: nat :: IsBest(hints, now, Some(i)) ==> |NodesOf(hints, hints[i].v1, now)| == 0
  {
    hide NodesOf, ArtifactKey, Unix, Distinct, AddrsOf, IsLatest;
    var best := PickBestByFreshness(hints, now);
    if best.None? {
      forall i: nat ensures !IsBest(hints, now, Some(i)) {
        NoneIsNotSome(hints, now, i);
      }
      return None;
    }
    var h := hints[best.value];
    var peerCount, lastSeen := PeerCountAndLastSeen(hints, h.v1, now);
    if peerCount == 0 {
      forall i: nat | IsBest(hints, now, Some(i)) ensures |NodesOf(hints, hints[i].v1, now)| == 0 {
        BestIsUnique(hints, now, best, Some(i));
      }
      return None;
    }
    var addrs := PeerAddrsFromHints(hints, h.v1, now);
    row := Some(Row(modelID, h.hfRepo, h.revision, h.v1, h.v2, ArtifactKey(modelID, h.revision),
                    peerCount, Unix(lastSeen), addrs));
    assert IsRowAt(modelID, hints, now, row.value, best.value, lastSeen);
  }

  // ---------- what a row says about a reachable bucket ----------

  function Sharing(hints: seq<Hint>, v1: string, now: Time): seq<Hint>
    decreases |hints|
  {
    if hints == [] then []
    else Sharing(hints[..|hints| - 1], v1, now) + (if Matches(Last(hints), v1, now) then [Last(hints)] else [])
  }

  lemma NodesSnoc(init: seq<Hint>, last: Hint, v1: string, now: Time)
    requires last.node != "" && forall h :: h in init ==> h.node != last.node
    ensures |NodesOf(init + [last], v1, now)| == |NodesOf(init, v1, now)| + (if Matches(last, v1, now) then 1 else 0)
  {
    hide Matches;
    assert NodesOf(init + [last], v1, now)
        == NodesOf(init, v1, now) + (if Matches(last, v1, now) then {last.node} else {});
    assert last.node !in NodesOf(init, v1, now);
  }

  lemma {:induction false} OneNodePerHint(hints: seq<Hint>, v1: string, now: Time)
    requires OneEach(hints) && forall h :: h in hints ==> h.node != ""
    ensures |NodesOf(hints, v1, now)| == |Sharing(hints, v1, now)| == |AddrsOf(hints, v1, now)|
    decreases |hints|
  {
    hide Matches, TrimSpace;
    if hints != [] {
      var init, last := hints[..|hints| - 1], Last(hints);
      OneNodePerHint(init, v1, now);
      assert hints == init + [last];
      NodesSnoc(init, last, v1, now);
    }
  }

  lemma {:induction false} DistinctIsShorter(values: seq<string>)
    ensures |Distinct(values)| <= |values|
    decreases |values|
  {
    if values != [] {
      DistinctIsShorter(values[..|values| - 1]);
    }
  }

  lemma LatestIsBest(hints: seq<Hint>, self: string, now: Time, i: nat, t: Time)
    requires GoodBucket(hints, self) && IsBest(hints, now, Some(i)) && IsLatest(hints, hints[i].v1, now, t)
    ensures t == hints[i].seenAt
  {
    hide IsHex;
    assert hints[i] in hints;
  }

  /** An address of a hint that shares the infohash and is at most fifteen minutes old. */
  ghost predicate IsAddr(hints: seq<Hint>, v1: string, now: Time, addr: string) {
    exists h :: h in hints && h.v1 == v1 && now - h.seenAt <= 900_000_000_000 && TrimSpace(h.peerAddr) == addr
  }

  lemma {:induction false} AddrsAre(hints: seq<Hint>, v1: string, now: Time, addr: string)
    ensures addr in AddrsOf(hints, v1, now) <==> IsAddr(hints, v1, now, addr)
    decreases |hints|
  {
    hide TrimSpace;
    if hints != [] {
      var init, last := hints[..|hints| - 1], Last(hints);
      AddrsAre(init, v1, now, addr);
      assert hints == init + [last];
      assert last in hints && forall h :: h in hints <==> h in init || h == last;
    }
  }

  /** The nodes that share the infohash, with a hint at most fifteen minutes old. */
  function Sharers(hints: seq<Hint>, v1: string, now: Time): set<string> {
    set h | h in hints && h.v1 == v1 && now - h.seenAt <= 900_000_000_000 :: h.node
  }

  lemma SharersAreNodes(hints: seq<Hint>, self: string, v1: string, now: Time)
    requires GoodBucket(hints, self)
    ensures NodesOf(hints, v1, now) == Sharers(hints, v1, now)
  {
    hide IsHex;
  }

  /** Over any reachable bucket, where `i` is the chosen hint: that is at most fifteen minutes old and
      none is later; the row has its texts, and its time in whole seconds, rounded down. */
  lemma RowIsOfBest(hints: seq<Hint>, self: string, now: Time, modelID: string, row: Row, i: nat)
    requires GoodBucket(hints, self) && IsRow(modelID, hints, now, row) && IsBest(hints, now, Some(i))
    ensures i < |hints|
    ensures var h := hints[i];
      && now - h.seenAt <= 900_000_000_000
      && (forall other :: other in hints ==> other.seenAt <= h.seenAt)
      && row.modelID == modelID && row.hfRepo == h.hfRepo && row.revision == h.revision
      && row.v1 == h.v1 && row.v2 == h.v2
      && row.artifactKey == (if TrimSpace(h.revision) == "" then modelID else modelID + "@" + TrimSpace(h.revision))
      && row.lastSeen * 1_000_000_000 <= h.seenAt < (row.lastSeen + 1) * 1_000_000_000
  {
    hide Distinct, AddrsOf, NodesOf, IsHex, IsLatest, TrimSpace;
    var i': nat, lastSeen: Time :| IsRowAt(modelID, hints, now, row, i', lastSeen);
    BestIsUnique(hints, now, Some(i), Some(i'));
    LatestIsBest(hints, self, now, i, lastSeen);
    forall other | other in hints ensures other.seenAt <= hints[i].seenAt {
      assert !Unexpired(other, now) || other.seenAt <= hints[i].seenAt;
    }
  }

  /** It counts the nodes that share the infohash, at least one and each by one hint, and lists their
      addresses, once each and not the empty one. */
  lemma RowOfReachable(hints: seq<Hint>, self: string, now: Time, modelID: string, row: Row)
    requires GoodBucket(hints, self) && IsRow(modelID, hints, now, row)
    ensures row.peerCount == |Sharers(hints, row.v1, now)| == |Sharing(hints, row.v1, now)|
    ensures 1 <= row.peerCount && |row.peerAddrs| <= row.peerCount
    ensures forall j, k :: 0 <= j < k < |row.peerAddrs| ==> row.peerAddrs[j] != row.peerAddrs[k]
    ensures forall addr :: addr in row.peerAddrs <==> addr != "" && IsAddr(hints, row.v1, now, addr)
  {
    hide Distinct, Sharing, AddrsOf, NodesOf, Sharers, IsHex, IsLatest, Unix, ArtifactKey, IsAddr, IsBest;
    var i: nat, lastSeen: Time :| IsRowAt(modelID, hints, now, row, i, lastSeen);
    OneNodePerHint(hints, row.v1, now);
    SharersAreNodes(hints, self, row.v1, now);
    DistinctIsShorter(AddrsOf(hints, row.v1, now));
    var at := DistinctIsFirstSeen(AddrsOf(hints, row.v1, now));
    forall addr ensures addr in row.peerAddrs <==> addr != "" && IsAddr(hints, row.v1, now, addr) {
      AddrsAre(hints, row.v1, now, addr);
    }
  }

  /** A reachable bucket with an unexpired hint has a row: its best hint has at least one peer. */
  lemma BestHasPeer(hints: seq<Hint>, self: string, now: Time, i: nat)
    requires GoodBucket(hints, self) && IsBest(hints, now, Some(i))
    ensures |NodesOf(hints, hints[i].v1, now)| > 0
  {
    assert hints[i] in hints;
    assert hints[i].node in NodesOf(hints, hints[i].v1, now);
  }

  // ---------- all rows, sorted and cut ----------

  predicate RowBefore(a: Row, b: Row) {
    if a.lastSeen == b.lastSeen then AtMost(a.modelID, b.modelID) else a.lastSeen > b.lastSeen
  }

  lemma RowOrder()
    ensures TotalOrder(RowBefore)
  {
    forall a: Row, b: Row ensures RowBefore(a, b) || RowBefore(b, a) {
      LessTotal(a.modelID, b.modelID);
    }
    forall a: Row, b: Row, c: Row | RowBefore(a, b) && RowBefore(b, c) ensures RowBefore(a, c) {
      if Less(a.modelID, b.modelID) && Less(b.modelID, c.modelID) {
        LessTransitive(a.modelID, b.modelID, c.modelID);
      }
    }
  }

  /** Later times first, and among equal times the lower model id. */
  ghost predicate MostRecentFirst(rows: seq<Row>) {
    forall i, j :: 0 <= i < j < |rows| ==>
      || rows[i].lastSeen > rows[j].lastSeen
      || (rows[i].lastSeen == rows[j].lastSeen && Less(rows[i].modelID, rows[j].modelID))
  }

  lemma SortedRows(snap: Entries, keys: set<string>, now: Time, rows: seq<Row>)
    requires RowsOf(snap, keys, now, rows) && Sorted(rows, RowBefore)
    ensures MostRecentFirst(rows)
  {
    hide IsRow, HasUnexpired, Less;
    forall i, j | 0 <= i < j < |rows|
      ensures rows[i].lastSeen > rows[j].lastSeen
           || (rows[i].lastSeen == rows[j].lastSeen && Less(rows[i].modelID, rows[j].modelID))
    {
      assert RowBefore(rows[i], rows[j]) && rows[i].modelID != rows[j].modelID;
    }
  }

  /** Exactly one row for each model with an unexpired hint, and no others. */
  ghost predicate RowsOf(snap: Entries, keys: set<string>, now: Time, rows: seq<Row>) {
    && (forall row :: row in rows ==> row.modelID in keys && row.modelID in snap
                                      && IsRow(row.modelID, snap[row.modelID], now, row))
    && (forall i, j :: 0 <= i < j < |rows| ==> rows[i].modelID != rows[j].modelID)
    && (forall id :: id in keys && id in snap && HasUnexpired(snap[id], now) ==>
          exists row :: row in rows && row.modelID == id)
  }

  method SummarizeLANSeen(snap: Entries, now: Time, ghost self: string) returns (rows: seq<Row>)
    requires GoodIndex(snap, self)
    ensures RowsOf(snap, snap.Keys, now, rows)
    ensures MostRecentFirst(rows)
  {
    hide RowsOf, GoodIndex, Sorted, RowBefore, MostRecentFirst;
    assert RowsOf(snap, {}, now, []) by { NoRows(snap, now); }
    var unsorted: seq<Row> := [];
    var left := snap.Keys;
    assert snap.Keys - left == {};
    while left != {}
      invariant left <= snap.Keys
      invariant RowsOf(snap, snap.Keys - left, now, unsorted)
      decreases |left|
    {
      var id :| id in left;
      var row := RowFor(id, snap[id], now);
      AddRow(snap, snap.Keys - left, id, now, unsorted, row, self);
      assert snap.Keys - (left - {id}) == snap.Keys - left + {id};
      left := left - {id};
      if row.Some? {
        unsorted := unsorted + [row.value];
      }
    }
    RowOrder();
    assert snap.Keys - {} == snap.Keys;
    rows := Sort(unsorted, RowBefore);
    PermutedRows(snap, snap.Keys, now, unsorted, rows);
    SortedRows(snap, snap.Keys, now, rows);
  }

  lemma NoRows(snap: Entries, now: Time)
    ensures RowsOf(snap, {}, now, [])
  {}

  lemma AddRow(snap: Entries, keys: set<string>, id: string, now: Time, rows: seq<Row>, row: Option<Row>, self: string)
    requires GoodIndex(snap, self) && id in snap && id !in keys && RowsOf(snap, keys, now, rows)
    requires row.Some? ==> IsRow(id, snap[id], now, row.value)
    requires row.None? ==> forall i: nat :: IsBest(snap[id], now, Some(i)) ==>
      |NodesOf(snap[id], snap[id][i].v1, now)| == 0
    ensures RowsOf(snap, keys + {id}, now, if row.Some? then rows + [row.value] else rows)
  {
    hide GoodBucket, IsRow;
    var all := if row.Some? then rows + [row.value] else rows;
    if row.Some? {
      RowKeepsID(id, snap[id], now, row.value);
      assert row.value in all;
    } else if HasUnexpired(snap[id], now) {
      var i := SomeBest(snap[id], now);
      BestHasPeer(snap[id], self, now, i);
    }
    forall k | k in keys + {id} && k in snap && HasUnexpired(snap[k], now)
      ensures exists r :: r in all && r.modelID == k
    {
      if k != id {
        var r :| r in rows && r.modelID == k;
        assert r in all;
      }
    }
  }

  lemma RowKeepsID(id: string, hints: seq<Hint>, now: Time, row: Row)
    requires IsRow(id, hints, now, row)
    ensures row.modelID == id
  {}

  lemma {:induction false} SomeBest(hints: seq<Hint>, now: Time) returns (i: nat)
    requires HasUnexpired(hints, now)
    ensures IsBest(hints, now, Some(i))
    decreases |hints|
  {
    var init, last := hints[..|hints| - 1], Last(hints);
    assert hints == init + [last];
    if HasUnexpired(init, now) {
      i := SomeBest(init, now);
      if Unexpired(last, now) && last.seenAt > init[i].seenAt {
        i := |init|;
      }
    } else {
      i := |init|;
    }
  }

  lemma PermutedRows(snap: Entries, keys: set<string>, now: Time, a: seq<Row>, b: seq<Row>)
    requires RowsOf(snap, keys, now, a) && multiset(a) == multiset(b)
    ensures RowsOf(snap, keys, now, b)
  {
    hide IsRow, HasUnexpired;
    PermutedDistinct(a, b);
    forall row ensures row in a <==> row in b {
      assert row in a <==> row in multiset(a);
      assert row in b <==> row in multiset(b);
    }
    forall i, j | 0 <= i < j < |b| ensures b[i].modelID != b[j].modelID {
      assert b[i] in a && b[j] in a && b[i] != b[j];
    }
  }

  lemma PrunedIsUnexpired(entries: Entries, self: string, now: Time, pruned: Entries)
    requires GoodIndex(entries, self) && pruned == PruneAll(entries, now - HARD_TTL)
    ensures forall id :: id in pruned ==> HasUnexpired(pruned[id], now)
  {
    hide Keep;
    forall id | id in pruned ensures HasUnexpired(pruned[id], now) {
      KeepSelects(entries[id], now - HARD_TTL, pruned[id][0]);
      assert pruned[id][0] in pruned[id];
    }
  }

  /** Prune, project, and cut to the most recent rows; `before` and `now` are the two clock readings. */
  method HandleLanSeen(index: Index, before: Time, now: Time) returns (rows: seq<Row>, ghost all: seq<Row>)
    requires GoodIndex(index.entries, index.self) && before <= now
    modifies index
    ensures index.entries == PruneAll(old(index.entries), before - 900_000_000_000)
    ensures GoodIndex(index.entries, index.self)
    ensures RowsOf(index.entries, index.entries.Keys, now, all) && MostRecentFirst(all)
    ensures rows == if |all| > 500 then all[..500] else all
    // No row that is cut away is more recent than one that is kept.
    ensures forall kept, cut :: 0 <= kept < |rows| <= cut < |all| ==> all[cut].lastSeen <= rows[kept].lastSeen
    // If nothing expires between the readings, every model still in the index has its row.
    ensures before == now ==> forall id :: id in index.entries ==> exists row :: row in all && row.modelID == id
  {
    PrunedIsUnexpired(index.entries, index.self, before, PruneAll(index.entries, before - HARD_TTL));
    PruneKeepsGood(index.entries, index.self, before - HARD_TTL);
    var removed := index.PruneOlderThan(before - HARD_TTL);
    rows := SummarizeLANSeen(index.entries, now, index.self);
    all := rows;
    if |rows| > MAX_ROWS {
      rows := rows[..MAX_ROWS];
    }
  }
}
