/** The durable event queue of internal/events/queue.go: a directory of JSON files, written to a
    temporary name and renamed. */
module EventQueue {
  import opened Wrappers
  import opened Order

  /** The fields of an event that delivery never changes. */
  datatype Payload = Payload(modelID: string, revision: string, infoHash: string, modelSizeBytes: int,
                             quantization: string, magnet: string, sourceURL: string, localHash: string,
                             timestamp: int)

  datatype Event = Event(payload: Payload, publisherPubKey: string, publisherSig: string,
                         deliveryAttempts: int, nextAttemptAfter: Option<int>)

  /** A file holds a whole event or the beginning of one. */
  datatype Content = Whole(event: Event) | Partial

  type Dir = map<string, Content>

  predicate HasSuffix(s: string, suffix: string) {
    |s| >= |suffix| && s[|s| - |suffix|..] == suffix
  }

  predicate IsJson(name: string) {
    HasSuffix(name, ".json")
  }

  /** The files List looks at. */
  function Visible(dir: Dir): set<string> {
    set name | name in dir && IsJson(name)
  }

  /** No file List looks at is broken. */
  ghost predicate Clean(dir: Dir) {
    forall name :: name in dir && IsJson(name) ==> dir[name].Whole?
  }

  /** The queue as its readers know it. */
  function Events(dir: Dir): map<string, Event> {
    map name | name in dir && IsJson(name) && dir[name].Whole? :: dir[name].event
  }

  function TmpName(name: string): string {
    name + ".tmp"
  }

  lemma TmpIsInvisible(name: string)
    ensures !IsJson(TmpName(name)) && TmpName(name) != name
  {
    var t := TmpName(name);
    assert t[|t| - 1] == 'p';
    assert |t| >= 5 ==> t[|t| - 5..][4] == t[|t| - 1];
  }

  /** Where a write can fail. */
  datatype Fault = NoFault | WriteFails | RenameFails

  class Queue {
    var dir: Dir

    constructor ()
      ensures dir == map[]
    {
      dir := map[];
    }

    /** Write and rename, as Enqueue and Update do. `states` are all directories a crash can leave
        behind on the way: to List each is the old queue or the new one. */
    method Commit(name: string, event: Event, fault: Fault) returns (ok: bool, ghost states: seq<Dir>)
      requires IsJson(name)
      modifies this
      ensures ok <==> fault == NoFault
      ensures Events(dir) == if ok then Events(old(dir))[name := event] else Events(old(dir))
      ensures forall d :: d in states ==> Events(d) == Events(old(dir)) || Events(d) == Events(dir)
      // A listing that succeeds before succeeds at every point and after.
      ensures Clean(old(dir)) ==> forall d :: d in states ==> Clean(d)
      ensures |states| >= 2 && states[0] == old(dir) && states[|states| - 1] == dir
    {
      var tmp := TmpName(name);
      TmpIsInvisible(name);
      hide IsJson, Clean, Events, TmpName;
      ghost var start := dir;
      states := [dir];
      dir := dir[tmp := Partial];
      SameEvents(start, dir, tmp);
      states := states + [dir];
      if fault == WriteFails {
        return false, states;
      }
      dir := dir[tmp := Whole(event)];
      SameEvents(start, dir, tmp);
      states := states + [dir];
      if fault == RenameFails {
        return false, states;
      }
      dir := (dir - {tmp})[name := Whole(event)];
      EventsWith(start, name, event);
      SameEvents(start[name := Whole(event)], dir, tmp);
      states := states + [dir];
      return true, states;
    }

    method Delete(name: string, fails: bool) returns (ok: bool)
      requires IsJson(name)
      modifies this
      ensures ok <==> !(name in old(dir) && fails)
      ensures Clean(old(dir)) ==> Clean(dir)
      ensures Events(dir) == if ok then Events(old(dir)) - {name} else Events(old(dir))
    {
      if name in dir && fails {
        return false;
      }
      ghost var start := dir;
      dir := dir - {name};
      assert Events(dir) == Events(start) - {name};
      return true;
    }

    method Names() returns (names: seq<string>)
      ensures forall n :: n in names <==> n in Visible(dir)
      ensures AllDistinct(names) && Sorted(names, AtMost)
    {
      var found: seq<string> := [];
      var left := Visible(dir);
      while left != {}
        invariant left <= Visible(dir)
        invariant forall n :: n in found <==> n in Visible(dir) && n !in left
        invariant AllDistinct(found)
        decreases |left|
      {
        var n :| n in left;
        left := left - {n};
        found := found + [n];
      }
      AtMostIsOrder();
      names := Sort(found, AtMost);
      PermutedDistinct(found, names);
      forall n ensures n in names <==> n in found {
        assert n in names <==> n in multiset(names);
        assert n in found <==> n in multiset(found);
      }
    }

    /** The committed events in name order; None when the directory or a file cannot be read, or a
        listed file does not parse. `unreadable` holds the names that cannot be read. */
    method List(dirFails: bool, unreadable: set<string>) returns (r: Option<seq<(string, Event)>>)
      ensures r.Some? <==> !dirFails && Clean(dir) && Visible(dir) !! unreadable
      ensures r.Some? ==> IsListing(Events(dir), r.value)
    {
      if dirFails {
        return None;
      }
      var names := Names();
      var out: seq<(string, Event)> := [];
      for i := 0 to |names|
        invariant |out| == i && forall j :: 0 <= j < i ==> names[j] !in unreadable
        invariant forall j :: 0 <= j < i ==> names[j] in dir && dir[names[j]] == Whole(out[j].1) && out[j].0 == names[j]
      {
        assert names[i] in names;
        if names[i] in unreadable {
          return None;
        }
        match dir[names[i]]
        case Partial => return None;
        case Whole(e) => out := out + [(names[i], e)];
      }
      ReadsListing(dir, names, out);
      assert forall n :: n in Visible(dir) ==> n in names;
      return Some(out);
    }
  }

  ghost predicate SameBut(a: Dir, b: Dir, tmp: string) {
    forall n :: n != tmp ==> (n in a <==> n in b) && (n in a ==> a[n] == b[n])
  }

  lemma SameEvents(start: Dir, dir: Dir, tmp: string)
    requires !IsJson(tmp) && SameBut(start, dir, tmp)
    ensures Events(dir) == Events(start) && (Clean(start) ==> Clean(dir))
  {
    hide IsJson;
  }

  lemma EventsWith(start: Dir, name: string, event: Event)
    requires IsJson(name)
    ensures Clean(start) ==> Clean(start[name := Whole(event)])
    ensures Events(start[name := Whole(event)]) == Events(start)[name := event]
  {
    hide IsJson;
  }

  // ---------- listings ----------

  /** Every event once, by name. */
  ghost predicate IsListing(events: map<string, Event>, r: seq<(string, Event)>) {
    && (forall i :: 0 <= i < |r| ==> r[i].0 in events && events[r[i].0] == r[i].1)
    && (forall i, j :: 0 <= i < j < |r| ==> r[i].0 != r[j].0 && AtMost(r[i].0, r[j].0))
    && (forall n :: n in events ==> exists i :: 0 <= i < |r| && r[i].0 == n)
  }

  lemma AtMostIsOrder()
    ensures TotalOrder(AtMost)
  {
    forall a: string, b: string ensures AtMost(a, b) || AtMost(b, a) {
      LessTotal(a, b);
    }
    forall a: string, b: string, c: string | AtMost(a, b) && AtMost(b, c) ensures AtMost(a, c) {
      if a != b && b != c {
        LessTransitive(a, b, c);
      }
    }
  }

  lemma ReadsListing(dir: Dir, names: seq<string>, out: seq<(string, Event)>)
    requires AllDistinct(names) && Sorted(names, AtMost) && |out| == |names|
    requires forall n :: n in names <==> n in Visible(dir)
    requires forall j :: 0 <= j < |names| ==>
      names[j] in dir && dir[names[j]] == Whole(out[j].1) && out[j].0 == names[j]
    ensures Clean(dir) && IsListing(Events(dir), out)
  {
    hide IsJson;
    forall n | n in Visible(dir) ensures dir[n].Whole? && exists i :: 0 <= i < |out| && out[i].0 == n {
      assert n in names;
      var i :| 0 <= i < |names| && names[i] == n;
      assert out[i].0 == n;
    }
    forall i | 0 <= i < |out| ensures out[i].0 in Events(dir) && Events(dir)[out[i].0] == out[i].1 {
      assert names[i] in names;
    }
  }
}
