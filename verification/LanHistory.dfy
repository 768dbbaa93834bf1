/** What the LAN index holds after any sequence of messages and prunes, in terms of what was
    received. */
module LanHistory {
  import opened Wrappers
  import opened Text
  import opened LanRate
  import opened LanIndex

  // ---------- runs ----------

  function Run(self: string, events: seq<Event>): State
    decreases |events|
  {
    if events == [] then State(map[], map[])
    else Apply(Run(self, events[..|events| - 1]), self, Last(events))
  }

  // ---------- the same run, one announcement at a time ----------

  datatype Step =
    | Storing(node: string, peerAddr: string, now: Time, m: Announce)
    | Dropping(cutoff: int)

  function Do(entries: Entries, st: Step): Entries {
    match st
    case Storing(node, peerAddr, now, m) => StoreOrKeep(entries, node, peerAddr, now, m)
    case Dropping(cutoff) => PruneAll(entries, cutoff)
  }

  function DoAll(steps: seq<Step>): Entries
    decreases |steps|
  {
    if steps == [] then map[] else Do(DoAll(steps[..|steps| - 1]), Last(steps))
  }

  function StoringAll(node: string, peerAddr: string, now: Time, models: seq<Announce>): seq<Step> {
    seq(|models|, i requires 0 <= i < |models| => Storing(node, peerAddr, now, models[i]))
  }

  /** The announcements of a message that gets past the guards and the rate limiter, or a prune. */
  function Expand(s: State, self: string, e: Event): seq<Step> {
    match e
    case Pruning(cutoff) => [Dropping(cutoff)]
    case Received(msg, node, now, src) =>
      if Guard(self, node, msg.ts, now) == NoReason && Allows(s.buckets, node, now)
      then StoringAll(node, PeerAddrOf(src, msg.port), now, msg.models) else []
  }

  function Steps(self: string, events: seq<Event>): seq<Step>
    decreases |events|
  {
    if events == [] then []
    else
      var before := events[..|events| - 1];
      Steps(self, before) + Expand(Run(self, before), self, Last(events))
  }

  lemma DoAllSnoc(steps: seq<Step>, st: Step)
    ensures DoAll(steps + [st]) == Do(DoAll(steps), st)
  {
    assert (steps + [st])[..|steps|] == steps;
  }

  lemma {:induction false} DoAllStoring(steps: seq<Step>, node: string, peerAddr: string, now: Time,
                                        models: seq<Announce>)
    ensures DoAll(steps + StoringAll(node, peerAddr, now, models))
         == StoreAll(DoAll(steps), node, peerAddr, now, models)
    decreases |models|
  {
    hide DoAll, StoreOrKeep;
    if models == [] {
      assert steps + StoringAll(node, peerAddr, now, models) == steps;
    } else {
      var init := models[..|models| - 1];
      var stored := StoringAll(node, peerAddr, now, init);
      var last := Storing(node, peerAddr, now, Last(models));
      assert steps + StoringAll(node, peerAddr, now, models) == steps + stored + [last];
      DoAllStoring(steps, node, peerAddr, now, init);
      DoAllSnoc(steps + stored, last);
    }
  }

  lemma ExpandIsApply(steps: seq<Step>, s: State, self: string, e: Event)
    requires s.entries == DoAll(steps)
    ensures Apply(s, self, e).entries == DoAll(steps + Expand(s, self, e))
  {
    hide DoAll, StoringAll, Guard, Allows, AfterCall, PruneAll, StoreAll;
    match e
    case Pruning(cutoff) => DoAllSnoc(steps, Dropping(cutoff));
    case Received(msg, node, now, src) =>
      DoAllStoring(steps, node, PeerAddrOf(src, msg.port), now, msg.models);
      assert steps + [] == steps;
  }

  lemma {:induction false} RunIsSteps(self: string, events: seq<Event>)
    ensures Run(self, events).entries == DoAll(Steps(self, events))
    decreases |events|
  {
    hide Expand, Apply;
    if events != [] {
      var before := events[..|events| - 1];
      RunIsSteps(self, before);
      ExpandIsApply(Steps(self, before), Run(self, before), self, Last(events));
    }
  }

  // ---------- what every reachable index satisfies ----------

  predicate SafeNode(node: string, self: string) {
    node != "" && |node| <= 128 && node != self
  }

  ghost predicate GoodBucket(hints: seq<Hint>, self: string) {
    && 0 < |hints| <= 100
    && OneEach(hints)
    && (forall h :: h in hints ==>
          && SafeNode(h.node, self)
          && IsHex(h.v1, 40) && (h.v2 == "" || IsHex(h.v2, 64)))
  }

  ghost predicate GoodIndex(entries: Entries, self: string) {
    forall id :: id in entries ==> ValidModelID(id) && GoodBucket(entries[id], self)
  }

  lemma PutKeepsGood(hints: seq<Hint>, self: string, node: string, a: Said)
    requires hints == [] || GoodBucket(hints, self)
    requires SafeNode(node, self) && IsHex(a.v1, 40) && (a.v2 == "" || IsHex(a.v2, 64))
    requires Put(hints, node, a).Some?
    ensures GoodBucket(Put(hints, node, a).value, self)
  {
    hide IsHex;
    var r := Put(hints, node, a).value;
    forall h | h in r
      ensures SafeNode(h.node, self) && IsHex(h.v1, 40) && (h.v2 == "" || IsHex(h.v2, 64))
    {
      var i := Find(hints, node);
      assert h in hints || h == (if i < |hints| then Merge(hints[i], a) else NewHint(node, a));
    }
  }

  ghost predicate OneEach(hints: seq<Hint>) {
    forall i, j :: 0 <= i < j < |hints| ==> hints[i].node != hints[j].node
  }

  /** Pruning selects exactly the hints that are not older than the cutoff. */
  lemma {:induction false} KeepSelects(hints: seq<Hint>, cutoff: int, h: Hint)
    ensures h in Keep(hints, cutoff) <==> h in hints && h.seenAt >= cutoff
    decreases |hints|
  {
    if hints != [] {
      KeepSelects(hints[..|hints| - 1], cutoff, h);
      assert hints == hints[..|hints| - 1] + [Last(hints)];
    }
  }

  lemma {:induction false} KeepOneEach(hints: seq<Hint>, cutoff: int)
    requires OneEach(hints)
    ensures OneEach(Keep(hints, cutoff))
    decreases |hints|
  {
    if hints != [] {
      var init := hints[..|hints| - 1];
      KeepOneEach(init, cutoff);
      var r := Keep(init, cutoff);
      forall i | 0 <= i < |r| ensures r[i].node != Last(hints).node {
        KeepSelects(init, cutoff, r[i]);
      }
    }
  }

  lemma PruneKeepsGood(entries: Entries, self: string, cutoff: int)
    requires GoodIndex(entries, self)
    ensures GoodIndex(PruneAll(entries, cutoff), self)
  {
    hide Keep, ValidModelID, ValidInfohash, ValidInfohashV2, SafeNode;
    forall id | id in PruneAll(entries, cutoff) ensures GoodBucket(PruneAll(entries, cutoff)[id], self) {
      var hints := entries[id];
      KeepOneEach(hints, cutoff);
      forall h | h in Keep(hints, cutoff) ensures h in hints {
        KeepSelects(hints, cutoff, h);
      }
    }
  }

  lemma StoreKeepsGood(entries: Entries, self: string, node: string, peerAddr: string, now: Time, m: Announce)
    requires GoodIndex(entries, self) && SafeNode(node, self)
    ensures GoodIndex(StoreOrKeep(entries, node, peerAddr, now, m), self)
  {
    hide ValidModelID, IsHex, Put, GoodBucket;
    var r := Store(entries, node, peerAddr, now, m);
    if r.Some? {
      PutKeepsGood(BucketOf(entries, m.modelID), self, node, Read(m, peerAddr, now));
    }
  }

  lemma {:induction false} StoreAllKeepsGood(entries: Entries, self: string, node: string, peerAddr: string,
                                             now: Time, models: seq<Announce>)
    requires GoodIndex(entries, self) && SafeNode(node, self)
    ensures GoodIndex(StoreAll(entries, node, peerAddr, now, models), self)
    decreases |models|
  {
    hide GoodIndex, StoreOrKeep;
    if models != [] {
      var init := models[..|models| - 1];
      StoreAllKeepsGood(entries, self, node, peerAddr, now, init);
      StoreKeepsGood(StoreAll(entries, node, peerAddr, now, init), self, node, peerAddr, now, Last(models));
    }
  }

  /** At every point of every run: no empty bucket, at most 100 hints in one, one for each node,
      none from this node itself, valid model ids and infohashes. */
  lemma {:induction false} ReachableIsGood(self: string, events: seq<Event>)
    ensures GoodIndex(Run(self, events).entries, self)
    decreases |events|
  {
    if events != [] {
      var before := events[..|events| - 1];
      ReachableIsGood(self, before);
      hide GoodIndex;
      match Last(events)
      case Pruning(cutoff) => PruneKeepsGood(Run(self, before).entries, self, cutoff);
      case Received(msg, node, now, src) =>
        if Guard(self, node, msg.ts, now) == NoReason {
          StoreAllKeepsGood(Run(self, before).entries, self, node, PeerAddrOf(src, msg.port), now, msg.models);
        }
    } else {
      assert GoodIndex(map[], self);
    }
  }

  // ---------- what its node announced ----------

  /** The node announces the model, with valid identifiers. */
  predicate Announces(st: Step, model: string, node: string) {
    st.Storing? && st.node == node && st.m.modelID == model && Acceptable(st.m)
  }

  function HintAt(steps: seq<Step>, model: string, node: string): Option<Hint> {
    HintOf(BucketOf(DoAll(steps), model), node)
  }

  /** What the node's announcements of the model say after step `k` is empty. */
  ghost predicate SilentAfter(steps: seq<Step>, k: int, model: string, node: string,
                              said: (Announce, string) -> string) {
    forall j :: k < j < |steps| && j >= 0 && Announces(steps[j], model, node) ==>
      said(steps[j].m, steps[j].peerAddr) == ""
  }

  /** `value` is the latest nonempty text that they have said from step `since` on, or empty if all of
      them are. */
  ghost predicate IsLatest(steps: seq<Step>, since: nat, model: string, node: string,
                           said: (Announce, string) -> string, value: string) {
    if value == "" then SilentAfter(steps, since - 1, model, node, said)
    else exists k ::
      && since <= k < |steps| && Announces(steps[k], model, node)
      && said(steps[k].m, steps[k].peerAddr) == value && SilentAfter(steps, k, model, node, said)
  }

  lemma LatestKept(before: seq<Step>, st: Step, since: nat, model: string, node: string,
                   said: (Announce, string) -> string, value: string)
    requires IsLatest(before, since, model, node, said, value) && since <= |before|
    ensures IsLatest(before + [st], since, model, node, said,
                     if Announces(st, model, node) then Or(said(st.m, st.peerAddr), value) else value)
  {
    var steps := before + [st];
    assert steps[|before|] == st;
    assert forall k :: 0 <= k < |before| ==> steps[k] == before[k];
    if Announces(st, model, node) && said(st.m, st.peerAddr) != "" {
      assert SilentAfter(steps, |before|, model, node, said);
    } else if value != "" {
      var k :| && since <= k < |before| && Announces(before[k], model, node)
               && said(before[k].m, before[k].peerAddr) == value && SilentAfter(before, k, model, node, said);
      assert SilentAfter(steps, k, model, node, said);
    }
  }

  /** The hint was inserted at step `since` and has been there ever since; the node's last announcement
      of the model is at step `last`. */
  ghost predicate HeldSince(steps: seq<Step>, model: string, node: string, since: nat, last: nat) {
    && since <= last < |steps|
    && Announces(steps[since], model, node) && Announces(steps[last], model, node)
    && (forall k :: last < k < |steps| ==> !Announces(steps[k], model, node))
    && HintAt(steps[..since], model, node) == None
    && (forall k :: since < k <= |steps| ==> HintAt(steps[..k], model, node).Some?)
  }

  /** The latest v2 infohash, repository and address that were not empty; an invalid v2 infohash counts
      as empty. */
  ghost predicate HoldsTexts(h: Hint, steps: seq<Step>, model: string, node: string, since: nat) {
    && IsLatest(steps, since, model, node,
                (m: Announce, addr: string) => if IsHex(m.infohashV2, 64) then m.infohashV2 else "", h.v2)
    && IsLatest(steps, since, model, node, (m: Announce, addr: string) => TrimSpace(m.hfRepo), h.hfRepo)
    && IsLatest(steps, since, model, node, (m: Announce, addr: string) => addr, h.peerAddr)
  }

  /** And the infohash, revision and time of the last announcement. */
  ghost predicate Holds(h: Hint, steps: seq<Step>, model: string, node: string, since: nat, last: nat)
    requires last < |steps| && steps[last].Storing?
  {
    && h.node == node && h.v1 == steps[last].m.infohash && h.revision == steps[last].m.revision
    && h.seenAt == steps[last].now && HoldsTexts(h, steps, model, node, since)
  }

  /** One more step, whatever it is. */
  lemma TextsKept(before: seq<Step>, st: Step, model: string, node: string, since: nat, h: Hint, h': Hint)
    requires since <= |before| && HoldsTexts(h, before, model, node, since)
    requires h' == if Announces(st, model, node) then Merge(h, Read(st.m, st.peerAddr, st.now)) else h
    ensures HoldsTexts(h', before + [st], model, node, since)
  {
    hide IsLatest, Announces, TrimSpace, IsHex;
    LatestKept(before, st, since, model, node,
               (m: Announce, addr: string) => if IsHex(m.infohashV2, 64) then m.infohashV2 else "", h.v2);
    LatestKept(before, st, since, model, node, (m: Announce, addr: string) => TrimSpace(m.hfRepo), h.hfRepo);
    LatestKept(before, st, since, model, node, (m: Announce, addr: string) => addr, h.peerAddr);
  }

  lemma Inserted(before: seq<Step>, st: Step, model: string, node: string)
    requires Announces(st, model, node) && HintAt(before, model, node) == None
    requires HintAt(before + [st], model, node) == Some(NewHint(node, Read(st.m, st.peerAddr, st.now)))
    ensures HeldSince(before + [st], model, node, |before|, |before|)
    ensures Holds(HintAt(before + [st], model, node).value, before + [st], model, node, |before|, |before|)
  {
    var steps := before + [st];
    hide HintAt, TrimSpace, IsHex, Announces;
    assert steps[..|before|] == before && steps[..|steps|] == steps && steps[|before|] == st;
    TextsKept(before, st, model, node, |before|, Hint("", "", "", "", node, "", 0),
              HintAt(steps, model, node).value);
  }

  lemma Kept(before: seq<Step>, st: Step, model: string, node: string, since: nat, last: nat)
    requires HeldSince(before, model, node, since, last)
    requires HintAt(before, model, node).Some?
    requires Holds(HintAt(before, model, node).value, before, model, node, since, last)
    requires var h := HintAt(before, model, node).value;
      HintAt(before + [st], model, node)
        == Some(if Announces(st, model, node) then Merge(h, Read(st.m, st.peerAddr, st.now)) else h)
    ensures var steps, last' := before + [st], if Announces(st, model, node) then |before| else last;
      && HeldSince(steps, model, node, since, last')
      && Holds(HintAt(steps, model, node).value, steps, model, node, since, last')
  {
    var steps := before + [st];
    hide HintAt, TrimSpace, IsHex, Announces, IsLatest;
    assert steps[..|steps|] == steps && steps[|before|] == st;
    assert forall k :: 0 <= k <= |before| ==> steps[..k] == before[..k];
    TextsKept(before, st, model, node, since, HintAt(before, model, node).value, HintAt(steps, model, node).value);
  }

  /** At every point of every run, every hint the index holds, in terms of the announcements themselves. */
  lemma {:induction false} HintWasSaid(steps: seq<Step>, model: string, node: string)
    returns (since: nat, last: nat)
    requires HintAt(steps, model, node).Some?
    ensures HeldSince(steps, model, node, since, last)
    ensures Holds(HintAt(steps, model, node).value, steps, model, node, since, last)
    decreases |steps|
  {
    var before, st := steps[..|steps| - 1], Last(steps);
    assert steps == before + [st];
    HintStep(before, st, model, node);
    hide HeldSince, Holds, HintAt;
    if HintAt(before, model, node).Some? {
      since, last := HintWasSaid(before, model, node);
      Kept(before, st, model, node, since, last);
      last := if Announces(st, model, node) then |before| else last;
    } else {
      since, last := |before|, |before|;
      Inserted(before, st, model, node);
    }
  }

  lemma HintStep(before: seq<Step>, st: Step, model: string, node: string)
    requires HintAt(before + [st], model, node).Some?
    ensures var was, now := HintAt(before, model, node), HintAt(before + [st], model, node).value;
      if was.None? then Announces(st, model, node) && now == NewHint(node, Read(st.m, st.peerAddr, st.now))
      else now == if Announces(st, model, node) then Merge(was.value, Read(st.m, st.peerAddr, st.now)) else was.value
  {
    hide Read, Merge, NewHint;
    DoAllSnoc(before, st);
    HintIsFold(before, model, node);
    match st
    case Dropping(cutoff) => DropStep(DoAll(before), cutoff, model, node);
    case Storing(nd, peerAddr, now, m) => StoreStep(DoAll(before), nd, peerAddr, now, m, model, node);
  }

  /** Every announcement that is stored, or dropped for its identifiers or a full bucket, stood in a
      message that was received from another node with a time at most 30 seconds old and 5 seconds
      ahead, if it had one. Its address is the sender's, where that and a port are known. */
  lemma {:induction false} WasReceived(self: string, events: seq<Event>, k: nat) returns (e: nat, i: nat)
    requires k < |Steps(self, events)| && Steps(self, events)[k].Storing?
    ensures e < |events| && events[e].Received? && i < |events[e].msg.models|
    ensures var st, r := Steps(self, events)[k], events[e];
      && st.m == r.msg.models[i] && st.now == r.now
      && st.node == r.node && st.node != "" && |st.node| <= 128 && st.node != self
      && (r.msg.ts == 0 ||
          r.msg.ts * 1_000_000_000 - 5_000_000_000 <= r.now <= r.msg.ts * 1_000_000_000 + 30_000_000_000)
      && st.peerAddr == (if r.src.Some? && 1 <= r.msg.port <= 65535
                         then r.src.value + ":" + Decimal(r.msg.port) else "")
    decreases |events|
  {
    var before := events[..|events| - 1];
    if k < |Steps(self, before)| {
      e, i := WasReceived(self, before, k);
    } else {
      hide Allows, Decimal;
      e, i := |events| - 1, k - |Steps(self, before)|;
    }
  }

  // ---------- a hint is a fold of what its node said ----------

  /** What (model, node) has said since its hint was last inserted; empty while there is no hint. */
  function Log(steps: seq<Step>, model: string, node: string): seq<Said>
    decreases |steps|
  {
    if steps == [] then []
    else
      var before := steps[..|steps| - 1];
      var log := Log(before, model, node);
      match Last(steps)
      case Dropping(cutoff) => if log != [] && Last(log).seenAt < cutoff then [] else log
      case Storing(nd, peerAddr, now, m) =>
        if nd == node && m.modelID == model && Acceptable(m)
           && (log != [] || |BucketOf(DoAll(before), model)| < MAX_HINTS)
        then log + [Read(m, peerAddr, now)]
        else log
  }

  /** The latest nonempty value, or the empty one. */
  function LatestNonEmpty(values: seq<string>): string
    decreases |values|
  {
    if values == [] then ""
    else if Last(values) != "" then Last(values)
    else LatestNonEmpty(values[..|values| - 1])
  }

  function Values(log: seq<Said>, field: Said -> string): seq<string> {
    seq(|log|, i requires 0 <= i < |log| => field(log[i]))
  }

  /** The latest infohash and revision; the latest nonempty v2 infohash, repository and address. */
  function Fold(log: seq<Said>, node: string): Option<Hint> {
    if log == [] then None
    else Some(Hint(Last(log).v1,
                   LatestNonEmpty(Values(log, (a: Said) => a.v2)),
                   LatestNonEmpty(Values(log, (a: Said) => a.hfRepo)),
                   Last(log).revision, node,
                   LatestNonEmpty(Values(log, (a: Said) => a.peerAddr)),
                   Last(log).seenAt))
  }

  lemma LatestSnoc(log: seq<Said>, a: Said, field: Said -> string)
    ensures LatestNonEmpty(Values(log + [a], field)) == Or(field(a), LatestNonEmpty(Values(log, field)))
  {
    var all := Values(log + [a], field);
    assert all[..|all| - 1] == Values(log, field) && Last(all) == field(a);
  }

  lemma FoldSnoc(log: seq<Said>, a: Said, node: string)
    ensures Fold(log + [a], node)
         == Some(if log == [] then NewHint(node, a) else Merge(Fold(log, node).value, a))
  {
    assert Last(log + [a]) == a;
    LatestSnoc(log, a, (x: Said) => x.v2);
    LatestSnoc(log, a, (x: Said) => x.hfRepo);
    LatestSnoc(log, a, (x: Said) => x.peerAddr);
  }

  lemma HintIsThere(hints: seq<Hint>, i: nat)
    requires OneEach(hints) && i < |hints|
    ensures HintOf(hints, hints[i].node) == Some(hints[i])
  {}

  lemma PutHint(hints: seq<Hint>, node: string, a: Said, other: string)
    requires OneEach(hints) && Put(hints, node, a).Some?
    ensures OneEach(Put(hints, node, a).value)
    ensures HintOf(Put(hints, node, a).value, other)
         == if other == node
              then Some(if HintOf(hints, node).Some? then Merge(HintOf(hints, node).value, a) else NewHint(node, a))
            else HintOf(hints, other)
  {
    var r, i := Put(hints, node, a).value, Find(hints, node);
    var j := Find(hints, other);
    if other == node {
      HintIsThere(r, i);
    } else if j < |hints| {
      assert r[j] == hints[j];
      HintIsThere(r, j);
    }
  }

  lemma KeepHint(hints: seq<Hint>, cutoff: int, node: string)
    requires OneEach(hints)
    ensures OneEach(Keep(hints, cutoff))
    ensures HintOf(Keep(hints, cutoff), node)
         == if HintOf(hints, node).Some? && HintOf(hints, node).value.seenAt >= cutoff
            then HintOf(hints, node) else None
  {
    hide Keep;
    KeepOneEach(hints, cutoff);
    var r := Keep(hints, cutoff);
    var j := Find(hints, node);
    var k := Find(r, node);
    if k < |r| {
      KeepSelects(hints, cutoff, r[k]);
      var i :| 0 <= i < |hints| && hints[i] == r[k];
      HintIsThere(hints, i);
    } else if j < |hints| && hints[j].seenAt >= cutoff {
      KeepSelects(hints, cutoff, hints[j]);
    }
  }

  ghost predicate OneEachIndex(entries: Entries) {
    forall id :: id in entries ==> OneEach(entries[id])
  }

  /** At every point of every run, for every model and node: the hint the index holds is the fold of
      what the node's accepted announcements said since the hint was last inserted. */
  lemma {:induction false} HintIsFold(steps: seq<Step>, model: string, node: string)
    ensures OneEachIndex(DoAll(steps))
    ensures HintOf(BucketOf(DoAll(steps), model), node) == Fold(Log(steps, model, node), node)
    decreases |steps|
  {
    if steps != [] {
      var before := steps[..|steps| - 1];
      HintIsFold(before, model, node);
      match Last(steps)
      case Dropping(cutoff) => DropStep(DoAll(before), cutoff, model, node);
      case Storing(nd, peerAddr, now, m) =>
        StoreStep(DoAll(before), nd, peerAddr, now, m, model, node);
        FoldSnoc(Log(before, model, node), Read(m, peerAddr, now), node);
    }
  }

  lemma DropStep(entries: Entries, cutoff: int, model: string, node: string)
    requires OneEachIndex(entries)
    ensures OneEachIndex(PruneAll(entries, cutoff))
    ensures var was := HintOf(BucketOf(entries, model), node);
      HintOf(BucketOf(PruneAll(entries, cutoff), model), node)
        == if was.Some? && was.value.seenAt >= cutoff then was else None
  {
    hide Keep, OneEach;
    forall id | id in PruneAll(entries, cutoff) ensures OneEach(PruneAll(entries, cutoff)[id]) {
      KeepHint(entries[id], cutoff, node);
    }
    if model in entries {
      KeepHint(entries[model], cutoff, node);
    }
  }

  lemma StoreStep(entries: Entries, nd: string, peerAddr: string, now: Time, m: Announce, model: string, node: string)
    requires OneEachIndex(entries)
    ensures OneEachIndex(StoreOrKeep(entries, nd, peerAddr, now, m))
    ensures var was, a := HintOf(BucketOf(entries, model), node), Read(m, peerAddr, now);
      HintOf(BucketOf(StoreOrKeep(entries, nd, peerAddr, now, m), model), node)
        == if nd == node && m.modelID == model && Acceptable(m)
              && (was.Some? || |BucketOf(entries, model)| < 100)
           then Some(if was.Some? then Merge(was.value, a) else NewHint(node, a))
           else was
  {
    hide Acceptable, Read;
    var hints := BucketOf(entries, m.modelID);
    var a := Read(m, peerAddr, now);
    assert OneEach(hints);
    if Put(hints, nd, a).Some? {
      PutHint(hints, nd, a, node);
      PutHint(hints, nd, a, nd);
    }
  }

  ghost predicate Says(st: Step, model: string, node: string, a: Said) {
    && Announces(st, model, node)
    && a.v1 == st.m.infohash && a.revision == st.m.revision && a.hfRepo == TrimSpace(st.m.hfRepo)
    && a.v2 == (if IsHex(st.m.infohashV2, 64) then st.m.infohashV2 else "")
    && a.peerAddr == st.peerAddr && a.seenAt == st.now
  }

  /** Nothing is invented: everything logged was said, in that order, by that node about that model. */
  lemma {:induction false} LogWasSaid(steps: seq<Step>, model: string, node: string) returns (from: seq<nat>)
    ensures |from| == |Log(steps, model, node)|
    ensures forall i :: 0 <= i < |from| ==>
      from[i] < |steps| && Says(steps[from[i]], model, node, Log(steps, model, node)[i])
    ensures forall i, j :: 0 <= i < j < |from| ==> from[i] < from[j]
    decreases |steps|
  {
    if steps == [] {
      from := [];
    } else {
      var before, st := steps[..|steps| - 1], Last(steps);
      from := LogWasSaid(before, model, node);
      var log, log' := Log(before, model, node), Log(steps, model, node);
      LogGrows(steps, model, node);
      hide Log, Says;
      if log' == [] {
        from := [];
      } else if log' != log {
        from := from + [|steps| - 1];
      }
    }
  }

  lemma LogGrows(steps: seq<Step>, model: string, node: string)
    requires steps != []
    ensures var log, log' := Log(steps[..|steps| - 1], model, node), Log(steps, model, node);
      log' == [] || log' == log || (log' == log + [Last(log')] && Says(Last(steps), model, node, Last(log')))
  {}

  /** A step that leaves a hint leaves its v2 infohash, except an announcement of that node for that
      model with a valid one of its own, which sets it. So it is never lost. */
  lemma NeverDowngrades(steps: seq<Step>, st: Step, model: string, node: string)
    ensures var was := HintOf(BucketOf(DoAll(steps), model), node);
      var now := HintOf(BucketOf(DoAll(steps + [st]), model), node);
      was.Some? && now.Some? ==>
        && now.value.v2 == (if AnnouncesV2(st, model, node) then st.m.infohashV2 else was.value.v2)
        && (was.value.v2 != "" ==> now.value.v2 != "")
  {
    assert (steps + [st])[..|steps|] == steps && Last(steps + [st]) == st;
    HintIsFold(steps, model, node);
    match st
    case Dropping(cutoff) => DropStep(DoAll(steps), cutoff, model, node);
    case Storing(nd, peerAddr, now, m) => StoreStep(DoAll(steps), nd, peerAddr, now, m, model, node);
  }

  predicate AnnouncesV2(st: Step, model: string, node: string) {
    Announces(st, model, node) && ValidInfohashV2(st.m.infohashV2)
  }

  /** The whole of it, for the index after any sequence of messages and prunes. */
  lemma RunHintIsFold(self: string, events: seq<Event>, model: string, node: string)
    ensures HintOf(BucketOf(Run(self, events).entries, model), node)
         == Fold(Log(Steps(self, events), model, node), node)
  {
    RunIsSteps(self, events);
    HintIsFold(Steps(self, events), model, node);
  }
}
