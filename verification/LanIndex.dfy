/** The hint index of internal/daemon/lan.go: update, allowRate, PruneOlderThan, Query, Snapshot. */
module LanIndex {
  import opened Wrappers
  import opened Text
  import opened LanRate

  const MAX_HINTS: nat := 100

  /** Nanoseconds since the Unix epoch; no clock reads before Go's zero time. */
  const ZERO_TIME: int := -62135596800 * SECOND
  type Time = t: int | ZERO_TIME <= t witness 0

  datatype Announce = Announce(modelID: string, infohash: string, infohashV2: string,
                               hfRepo: string, revision: string)

  datatype Message = Message(ts: int, port: int, models: seq<Announce>)

  datatype Hint = Hint(v1: string, v2: string, hfRepo: string, revision: string,
                       node: string, peerAddr: string, seenAt: Time)

  type Entries = map<string, seq<Hint>>

  datatype Reason = NoReason | InvalidNodeID | StaleOrFuture | SelfAnnouncement | RateLimited
                  | AllInvalidOrFiltered | NoModels

  datatype UpdateResult = UpdateResult(stored: nat, dropped: nat, reason: Reason)

  // ---------- what an announcement means ----------

  predicate SafeComponent(s: string) {
    s != "" && '/' !in s && '\\' !in s && s != ".."
  }

  /** model.Parse succeeds: base:size:variant:quant. */
  predicate ValidModelID(s: string) {
    var parts := SplitOn(s, ':');
    |parts| == 4 && forall p :: p in parts ==> SafeComponent(p)
  }

  /** A part of a model id. */
  predicate IdPart(p: string) {
    p != "" && p != ".." && forall c :: c in p ==> c != ':' && c != '/' && c != '\\'
  }

  predicate IdOf(s: string, base: string, size: string, variant: string, quant: string) {
    && s == base + ":" + size + ":" + variant + ":" + quant
    && IdPart(base) && IdPart(size) && IdPart(variant) && IdPart(quant)
  }

  lemma HasParts(s: string) returns (base: string, size: string, variant: string, quant: string)
    requires ValidModelID(s)
    ensures IdOf(s, base, size, variant, quant)
  {
    hide SplitOn, JoinWith;
    var parts := SplitOn(s, ':');
    JoinSplit(s, ':');
    base, size, variant, quant := parts[0], parts[1], parts[2], parts[3];
    assert parts == [base, size, variant, quant];
    JoinFour(base, size, variant, quant);
    forall p | p in parts ensures IdPart(p) {
      assert SafeComponent(p);
    }
  }

  lemma PartsAreValid(s: string, base: string, size: string, variant: string, quant: string)
    requires IdOf(s, base, size, variant, quant)
    ensures ValidModelID(s)
  {
    hide SplitOn, JoinWith;
    JoinFour(base, size, variant, quant);
    SplitJoined([base, size, variant, quant], ':');
  }

  lemma ValidModelIDIff(s: string)
    ensures ValidModelID(s) <==> exists base, size, variant, quant :: IdOf(s, base, size, variant, quant)
  {
    hide ValidModelID, IdOf;
    if ValidModelID(s) {
      var base, size, variant, quant := HasParts(s);
    }
    if base, size, variant, quant :| IdOf(s, base, size, variant, quant) {
      PartsAreValid(s, base, size, variant, quant);
    }
  }

  lemma JoinFour(a: string, b: string, c: string, d: string)
    ensures JoinWith([a, b, c, d], ':') == a + ":" + b + ":" + c + ":" + d
  {
    assert [a, b, c, d][1..] == [b, c, d] && [b, c, d][1..] == [c, d] && [c, d][1..] == [d];
    assert JoinWith([c, d], ':') == c + ":" + d;
    assert JoinWith([b, c, d], ':') == b + ":" + JoinWith([c, d], ':');
  }

  predicate Acceptable(m: Announce) {
    ValidModelID(m.modelID) && ValidInfohash(m.infohash)
  }

  /** host:port of the sender; the listening socket is IPv4. */
  function PeerAddrOf(src: Option<string>, port: int): string {
    if src.Some? && 0 < port <= 65535 then src.value + ":" + Decimal(port) else ""
  }

  /** What one node says about one model, as the index reads it. */
  datatype Said = Said(v1: string, v2: string, hfRepo: string, revision: string, peerAddr: string, seenAt: Time)

  function Read(m: Announce, peerAddr: string, now: Time): Said {
    Said(m.infohash, if ValidInfohashV2(m.infohashV2) then m.infohashV2 else "",
         TrimSpace(m.hfRepo), m.revision, peerAddr, now)
  }

  function Or(s: string, otherwise: string): string {
    if s != "" then s else otherwise
  }

  function NewHint(node: string, a: Said): Hint {
    Hint(a.v1, a.v2, a.hfRepo, a.revision, node, a.peerAddr, a.seenAt)
  }

  function Merge(h: Hint, a: Said): Hint {
    Hint(a.v1, Or(a.v2, h.v2), Or(a.hfRepo, h.hfRepo), a.revision, h.node, Or(a.peerAddr, h.peerAddr), a.seenAt)
  }

  // ---------- one bucket ----------

  /** The position of the node's first hint, or the length. */
  function Find(hints: seq<Hint>, node: string): (i: nat)
    ensures i <= |hints| && (i < |hints| ==> hints[i].node == node)
    ensures forall j :: 0 <= j < i ==> hints[j].node != node
  {
    if hints == [] || hints[0].node == node then 0 else 1 + Find(hints[1..], node)
  }

  function HintOf(hints: seq<Hint>, node: string): Option<Hint> {
    var i := Find(hints, node);
    if i < |hints| then Some(hints[i]) else None
  }

  /** Replace the node's hint or append one; None when the bucket is full. */
  function Put(hints: seq<Hint>, node: string, a: Said): Option<seq<Hint>> {
    var i := Find(hints, node);
    if i < |hints| then Some(hints[i := Merge(hints[i], a)])
    else if |hints| >= MAX_HINTS then None
    else Some(hints + [NewHint(node, a)])
  }

  /** The hints no older than the cutoff, in their order. */
  function Keep(hints: seq<Hint>, cutoff: int): (r: seq<Hint>)
    ensures |r| <= |hints|
  {
    if hints == [] then []
    else
      var init := Keep(hints[..|hints| - 1], cutoff);
      if Last(hints).seenAt < cutoff then init else init + [Last(hints)]
  }

  // ---------- the whole index ----------

  function BucketOf(entries: Entries, modelID: string): seq<Hint> {
    if modelID in entries then entries[modelID] else []
  }

  /** One announcement from a node; None when it is dropped. */
  function Store(entries: Entries, node: string, peerAddr: string, now: Time, m: Announce): Option<Entries> {
    if !Acceptable(m) then None
    else
      match Put(BucketOf(entries, m.modelID), node, Read(m, peerAddr, now))
      case Some(hints) => Some(entries[m.modelID := hints])
      case None => None
  }

  function StoreOrKeep(entries: Entries, node: string, peerAddr: string, now: Time, m: Announce): Entries {
    var r := Store(entries, node, peerAddr, now, m);
    if r.Some? then r.value else entries
  }

  function StoreAll(entries: Entries, node: string, peerAddr: string, now: Time, models: seq<Announce>): Entries
    decreases |models|
  {
    if models == [] then entries
    else StoreOrKeep(StoreAll(entries, node, peerAddr, now, models[..|models| - 1]),
                     node, peerAddr, now, Last(models))
  }

  /** How many of the announcements are stored, each met by what the ones before it left. */
  function StoredOf(entries: Entries, node: string, peerAddr: string, now: Time, models: seq<Announce>): (n: nat)
    ensures n <= |models|
    decreases |models|
  {
    if models == [] then 0
    else
      var init := models[..|models| - 1];
      StoredOf(entries, node, peerAddr, now, init)
      + (if Store(StoreAll(entries, node, peerAddr, now, init), node, peerAddr, now, Last(models)).Some? then 1 else 0)
  }

  function PruneAll(entries: Entries, cutoff: int): Entries {
    map id | id in entries && Keep(entries[id], cutoff) != [] :: Keep(entries[id], cutoff)
  }

  /** The guards before the rate limiter. */
  function Guard(self: string, node: string, ts: int, now: Time): Reason {
    if node == "" || |node| > 128 then InvalidNodeID
    else if ts != 0 && (now - ts * SECOND > 30 * SECOND || now - ts * SECOND < -5 * SECOND) then StaleOrFuture
    else if node == self then SelfAnnouncement
    else NoReason
  }

  // ---------- what happens to an index ----------

  datatype Event =
    | Received(msg: Message, node: string, now: Time, src: Option<string>)
    | Pruning(cutoff: int)

  datatype State = State(entries: Entries, buckets: Limiter)

  function Apply(s: State, self: string, e: Event): State {
    match e
    case Pruning(cutoff) => s.(entries := PruneAll(s.entries, cutoff))
    case Received(msg, node, now, src) =>
      if Guard(self, node, msg.ts, now) != NoReason then s
      else
        var buckets := AfterCall(s.buckets, node, now);
        if !Allows(s.buckets, node, now) then State(s.entries, buckets)
        else State(StoreAll(s.entries, node, PeerAddrOf(src, msg.port), now, msg.models), buckets)
  }

  // ---------- counting hints ----------

  datatype Slot = Slot(id: string, i: nat)

  function Slots(entries: Entries): (r: set<Slot>)
    ensures forall p :: p in r <==> p.id in entries && p.i < |entries[p.id]|
  {
    set id, i: nat | id in entries && i < |entries[id]| :: Slot(id, i)
  }

  /** How many hints the index holds. */
  function Size(entries: Entries): nat {
    |Slots(entries)|
  }

  function Row(id: string, n: nat): (r: set<Slot>)
    ensures |r| == n && forall p :: p in r <==> p.id == id && p.i < n
  {
    if n == 0 then {}
    else
      var rest := Row(id, n - 1);
      assert Slot(id, n - 1) !in rest;
      rest + {Slot(id, n - 1)}
  }

  lemma SizeWithout(entries: Entries, id: string)
    requires id in entries
    ensures Size(entries) == Size(entries - {id}) + |entries[id]|
  {
    hide Slots, Row;
    var row, rest := Row(id, |entries[id]|), Slots(entries - {id});
    assert row !! rest;
    assert Slots(entries) == row + rest;
  }

  lemma SizeUpdated(entries: Entries, id: string, hints: seq<Hint>)
    requires id !in entries
    ensures Size(entries[id := hints]) == Size(entries) + |hints|
  {
    assert entries[id := hints] - {id} == entries;
    SizeWithout(entries[id := hints], id);
  }

  /** The compaction PruneOlderThan runs over a bucket's own storage. */
  method CompactInPlace(hints: array<Hint>, cutoff: int) returns (kept: nat)
    modifies hints
    ensures kept <= hints.Length
    ensures hints[..kept] == Keep(old(hints[..]), cutoff)
  {
    kept := 0;
    var i := 0;
    while i < hints.Length
      invariant kept <= i <= hints.Length
      invariant hints[..kept] == Keep(old(hints[..i]), cutoff)
      invariant hints[i..] == old(hints[i..])
    {
      var h := hints[i];
      assert h == old(hints[i]);
      ghost var was := old(hints[..i + 1]);
      assert was[..|was| - 1] == old(hints[..i]);
      if h.seenAt < cutoff {
      } else {
        hints[kept] := h;
        kept := kept + 1;
      }
      i := i + 1;
    }
    assert old(hints[..hints.Length]) == old(hints[..]);
  }

  /** All buckets but those of `left` are pruned. */
  ghost predicate Pruned(was: Entries, now: Entries, left: set<string>, cutoff: int) {
    && (forall id :: id in left ==> id in was && id in now && now[id] == was[id])
    && (forall id :: id in was && id !in left ==>
          if Keep(was[id], cutoff) == [] then id !in now else id in now && now[id] == Keep(was[id], cutoff))
    && now.Keys <= was.Keys
  }

  lemma NothingPruned(was: Entries, cutoff: int)
    ensures Pruned(was, was, was.Keys, cutoff)
  {}

  lemma OneMorePruned(was: Entries, now: Entries, left: set<string>, cutoff: int, id: string)
    requires Pruned(was, now, left, cutoff) && id in left
    ensures id in now
    ensures var hints := Keep(now[id], cutoff);
      Pruned(was, if hints == [] then now - {id} else now[id := hints], left - {id}, cutoff)
  {
    hide Keep;
  }

  lemma AllPruned(was: Entries, now: Entries, cutoff: int)
    requires Pruned(was, now, {}, cutoff)
    ensures now == PruneAll(was, cutoff)
  {
    hide Keep;
  }

  class Index {
    var entries: Entries
    const self: string
    const limiter: RateLimiter

    function Now(): State
      reads this, limiter
    {
      State(entries, limiter.buckets)
    }

    constructor (self: string)
      ensures entries == map[] && this.self == self && limiter.buckets == map[] && fresh(limiter)
    {
      this.self := self;
      entries := map[];
      limiter := new RateLimiter();
    }

    method Update(msg: Message, node: string, now: Time, src: Option<string>) returns (res: UpdateResult)
      modifies this, limiter
      ensures Now() == Apply(old(Now()), self, Received(msg, node, now, src))
      ensures res.reason == InvalidNodeID <==> node == "" || |node| > 128
      ensures res.reason == StaleOrFuture <==>
        && 1 <= |node| <= 128 && msg.ts != 0
        && !(msg.ts * 1_000_000_000 - 5_000_000_000 <= now <= msg.ts * 1_000_000_000 + 30_000_000_000)
      ensures res.reason == SelfAnnouncement ==> node == self
      ensures res.reason !in {InvalidNodeID, StaleOrFuture, SelfAnnouncement} ==> node != self
      ensures res.stored > 0 ==> res.reason == NoReason
      // Rejected before the limiter: nothing changes.
      ensures Guard(self, node, msg.ts, now) != NoReason ==>
        && res == UpdateResult(0, 0, Guard(self, node, msg.ts, now))
        && entries == old(entries) && limiter.buckets == old(limiter.buckets)
      ensures Guard(self, node, msg.ts, now) == NoReason ==>
        limiter.buckets == AfterCall(old(limiter.buckets), node, now)
      ensures Guard(self, node, msg.ts, now) == NoReason && !Allows(old(limiter.buckets), node, now) ==>
        res == UpdateResult(0, 0, RateLimited) && entries == old(entries)
      // Accepted: every model is stored or dropped.
      ensures Guard(self, node, msg.ts, now) == NoReason && Allows(old(limiter.buckets), node, now) ==>
        && entries == StoreAll(old(entries), node, PeerAddrOf(src, msg.port), now, msg.models)
        && res.stored == StoredOf(old(entries), node, PeerAddrOf(src, msg.port), now, msg.models)
        && res.stored + res.dropped == |msg.models|
        && res.reason == (if res.stored > 0 then NoReason
                          else if msg.models == [] then NoModels else AllInvalidOrFiltered)
    {
      if node == "" || |node| > 128 {
        return UpdateResult(0, 0, InvalidNodeID);
      }
      if msg.ts != 0 {
        var age := now - msg.ts * SECOND;
        if age > 30 * SECOND || age < -5 * SECOND {
          return UpdateResult(0, 0, StaleOrFuture);
        }
      }
      if node == self {
        return UpdateResult(0, 0, SelfAnnouncement);
      }
      var ok := limiter.AllowRate(node, now);
      if !ok {
        return UpdateResult(0, 0, RateLimited);
      }
      var peerAddr := "";
      if src.Some? && msg.port > 0 && msg.port <= 65535 {
        peerAddr := src.value + ":" + Decimal(msg.port);
      }
      var stored, dropped := StoreModels(node, peerAddr, now, msg.models);
      var reason := NoReason;
      if stored == 0 {
        reason := if dropped > 0 then AllInvalidOrFiltered else NoModels;
      }
      res := UpdateResult(stored, dropped, reason);
    }

    method StoreModels(node: string, peerAddr: string, now: Time, models: seq<Announce>)
      returns (stored: nat, dropped: nat)
      modifies this`entries
      ensures entries == StoreAll(old(entries), node, peerAddr, now, models)
      ensures stored == StoredOf(old(entries), node, peerAddr, now, models)
      ensures stored + dropped == |models|
    {
      hide Store;
      stored, dropped := 0, 0;
      for k := 0 to |models|
        invariant stored + dropped == k && stored == StoredOf(old(entries), node, peerAddr, now, models[..k])
        invariant entries == StoreAll(old(entries), node, peerAddr, now, models[..k])
      {
        assert models[..k + 1][..k] == models[..k] && Last(models[..k + 1]) == models[k];
        var ok := StoreModel(node, peerAddr, now, models[k]);
        if ok {
          stored := stored + 1;
        } else {
          dropped := dropped + 1;
        }
      }
      assert models[..|models|] == models;
    }

    method StoreModel(node: string, peerAddr: string, now: Time, m: Announce) returns (stored: bool)
      modifies this`entries
      ensures stored == Store(old(entries), node, peerAddr, now, m).Some?
      ensures entries == StoreOrKeep(old(entries), node, peerAddr, now, m)
    {
      if !ValidModelID(m.modelID) {
        return false;
      }
      if !ValidInfohash(m.infohash) {
        return false;
      }
      var said := Read(m, peerAddr, now);
      var hints := BucketOf(entries, m.modelID);
      var replaced, next := ReplaceHint(hints, node, said);
      if !replaced {
        if |hints| >= MAX_HINTS {
          return false;
        }
        next := hints + [NewHint(node, said)];
      }
      entries := entries[m.modelID := next];
      return true;
    }

    /** The search for the node's slot, overwriting it if there is one. */
    static method ReplaceHint(hints: seq<Hint>, node: string, said: Said) returns (replaced: bool, next: seq<Hint>)
      ensures replaced <==> Find(hints, node) < |hints|
      ensures replaced ==> Put(hints, node, said) == Some(next)
      ensures !replaced ==> next == hints
    {
      var i := 0;
      while i < |hints|
        invariant 0 <= i <= |hints|
        invariant forall j :: 0 <= j < i ==> hints[j].node != node
      {
        if hints[i].node == node {
          assert Find(hints, node) == i;
          return true, hints[i := Merge(hints[i], said)];
        }
        i := i + 1;
      }
      return false, hints;
    }

    method PruneOlderThan(cutoff: int) returns (removed: nat)
      modifies this`entries
      ensures Now() == Apply(old(Now()), self, Pruning(cutoff))
      ensures removed + Size(entries) == Size(old(entries))
    {
      hide Pruned, PruneAll, Keep, Size;
      removed := 0;
      ghost var was := entries;
      var left := entries.Keys;
      NothingPruned(was, cutoff);
      while left != {}
        invariant left <= was.Keys
        invariant Pruned(was, entries, left, cutoff)
        invariant removed + Size(entries) == Size(was)
        decreases |left|
      {
        var id :| id in left;
        OneMorePruned(was, entries, left, cutoff, id);
        left := left - {id};
        var gone := PruneBucket(id, cutoff);
        removed := removed + gone;
      }
      AllPruned(was, entries, cutoff);
    }

    method PruneBucket(id: string, cutoff: int) returns (removed: nat)
      requires id in entries
      modifies this`entries
      ensures var hints := Keep(old(entries)[id], cutoff);
        entries == if hints == [] then old(entries) - {id} else old(entries)[id := hints]
      ensures removed + Size(entries) == Size(old(entries))
    {
      hide Size, Keep;
      var hints := entries[id];
      var slots := new Hint[|hints|](i requires 0 <= i < |hints| => hints[i]);
      assert slots[..] == hints;
      var kept := CompactInPlace(slots, cutoff);
      removed := |hints| - kept;
      SizeWithout(entries, id);
      if kept == 0 {
        entries := entries - {id};
      } else {
        SizeUpdated(entries - {id}, id, slots[..kept]);
        assert (entries - {id})[id := slots[..kept]] == entries[id := slots[..kept]];
        entries := entries[id := slots[..kept]];
      }
    }

    method Query(modelID: string) returns (hints: seq<Hint>)
      ensures hints == BucketOf(entries, modelID)
    {
      hints := if modelID in entries then entries[modelID] else [];
    }
  }
}
