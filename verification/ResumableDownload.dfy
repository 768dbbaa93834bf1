/** The resumable download of internal/hf/client.go, for one file with fixed remote content. Server,
    network and file system are free choices, the server being honest about the content. */
module ResumableDownload {
  import opened Wrappers
  import opened Chunks

  type bytes = seq<byte>

  datatype Files = Files(tmp: Option<bytes>, dest: Option<bytes>)

  /** The parts of a body that arrive, and whether it ended well or was cut. */
  datatype Body = Body(chunks: seq<bytes>, complete: bool, stalled: bool, cutError: string)

  datatype Reply =
    | NoReply(error: string)
    | Ok(body: Body)               // 200
    | PartialContent(body: Body)   // 206
    | RangeNotSatisfiable          // 416
    | Other(status: string)        // any other status line

  /** What the file system does: each operation may fail, with an error of any text. */
  datatype Faults = Faults(prefixReadFails: bool, openFails: bool, writeFailsAt: Option<nat>, renameFails: bool,
                           error: string)

  datatype World = World(reply: Reply, faults: Faults)

  datatype Result = Done(size: nat) | Failed(error: string)

  function Size(f: Option<bytes>): nat {
    if f.Some? then |f.value| else 0
  }

  /** RFC 9110: 200 carries the whole representation (15.3.1), 206 the range asked for (14.2,
      15.3.7), 416 is for a range that starts at or past the end (15.5.17). */
  ghost predicate Honest(content: bytes, resumeAt: nat, reply: Reply) {
    match reply
    case Ok(body) => Join(body.chunks) <= content && (body.complete ==> Join(body.chunks) == content)
    case PartialContent(body) =>
      && 0 < resumeAt < |content|
      && Join(body.chunks) <= content[resumeAt..] && (body.complete ==> Join(body.chunks) == content[resumeAt..])
    case RangeNotSatisfiable => 0 < resumeAt && |content| <= resumeAt
    case _ => true
  }

  /** The temp file is absent or a prefix of the content. */
  ghost predicate Resumable(f: Files, content: bytes) {
    f.tmp.None? || f.tmp.value <= content
  }

  /** What any crash leaves: a resumable temp file, and the old destination or the content. */
  ghost predicate Safe(f: Files, content: bytes, dest: Option<bytes>) {
    Resumable(f, content) && (f.dest == dest || f.dest == Some(content))
  }

  ghost predicate AllSafe(states: seq<Files>, content: bytes, dest: Option<bytes>) {
    forall f :: f in states ==> Safe(f, content, dest)
  }

  /** Some chunk of the body cannot be written. */
  predicate WriteFails(body: Body, f: Faults) {
    f.writeFailsAt.Some? && f.writeFailsAt.value < |body.chunks|
  }

  predicate Received(body: Body, f: Faults, resumeAt: nat, withTee: bool) {
    && body.complete && !WriteFails(body, f) && !f.openFails && !f.renameFails
    && !(withTee && resumeAt > 0 && f.prefixReadFails)
  }

  /** When an attempt resuming at `resumeAt` succeeds. */
  predicate Succeeds(w: World, resumeAt: nat, withTee: bool) {
    match w.reply
    case Ok(body) => Received(body, w.faults, 0, withTee)
    case PartialContent(body) => Received(body, w.faults, resumeAt, withTee)
    case RangeNotSatisfiable => !(withTee && w.faults.prefixReadFails) && !w.faults.renameFails
    case _ => false
  }

  const MAX_ATTEMPTS: nat := 4
  const STALLED := "download stalled with no progress"
  const RETURNED := "download returned "

  /** The error of a body that is not received whole and put in place. */
  function ReceiveError(body: Body, f: Faults, resumeAt: nat, withTee: bool): string {
    if withTee && resumeAt > 0 && f.prefixReadFails then f.error
    else if f.openFails then f.error
    else if body.complete && !WriteFails(body, f) then f.error // the rename failed
    else if body.stalled then STALLED
    else if WriteFails(body, f) then f.error
    else body.cutError
  }

  /** The error of an attempt that does not succeed. */
  function AttemptError(w: World, resumeAt: nat, withTee: bool): string {
    match w.reply
    case NoReply(error) => error
    case Other(status) => RETURNED + status
    case RangeNotSatisfiable =>
      if withTee && w.faults.prefixReadFails then w.faults.error
      else "file already complete but rename failed: " + w.faults.error
    case Ok(body) => ReceiveError(body, w.faults, 0, withTee)
    case PartialContent(body) => ReceiveError(body, w.faults, resumeAt, withTee)
  }

  /** Such an attempt keeps the temp file it found, or removes it: it fails before it writes. */
  predicate KeepsTemp(w: World, resumeAt: nat, withTee: bool) {
    match w.reply
    case NoReply(_) => true
    case Other(_) => true
    case RangeNotSatisfiable => withTee && w.faults.prefixReadFails
    case Ok(_) => resumeAt == 0 && w.faults.openFails
    case PartialContent(_) => (withTee && resumeAt > 0 && w.faults.prefixReadFails) || w.faults.openFails
  }

  /** How an attempt ends that resumes at `resumeAt` a content of `size` bytes. */
  function AttemptResult(w: World, resumeAt: nat, withTee: bool, size: nat): Result {
    if Succeeds(w, resumeAt, withTee) then Done(size) else Failed(AttemptError(w, resumeAt, withTee))
  }

  // ---------- which errors are retried ----------

  predicate OccursAt(s: string, sub: string, i: nat) {
    i + |sub| <= |s| && s[i..i + |sub|] == sub
  }

  predicate Contains(s: string, sub: string) {
    exists i: nat :: i <= |s| && OccursAt(s, sub, i)
  }

  predicate IsRetryable(msg: string) {
    || Contains(msg, "connection reset") || Contains(msg, "broken pipe") || Contains(msg, "timeout")
    || Contains(msg, "EOF") || Contains(msg, "tls:") || Contains(msg, "no such host")
  }

  lemma NeedsChar(s: string, sub: string, c: char)
    requires c in sub && c !in s
    ensures !Contains(s, sub)
  {
    var k :| 0 <= k < |sub| && sub[k] == c;
    forall i: nat | i + |sub| <= |s| ensures !OccursAt(s, sub, i) {
      assert s[i..i + |sub|][k] == s[i + k];
    }
  }

  /** The watchdog's error is meant to be retried, but the test goes by its text: it is not. */
  lemma StalledIsNotRetried()
    ensures !IsRetryable(STALLED)
  {
    assert forall i :: 0 <= i < |STALLED| ==>
      STALLED[i] != 'u' && STALLED[i] != 'b' && STALLED[i] != 'E' && STALLED[i] != ':';
    assert forall i :: 0 <= i < |STALLED| ==> STALLED[i] != 'c';
    assert "connection reset"[0] == 'c' && "broken pipe"[0] == 'b' && "timeout"[5] == 'u' && "EOF"[0] == 'E';
    assert "tls:"[3] == ':' && "no such host"[4] == 'u';
    NeedsChar(STALLED, "connection reset", 'c');
    NeedsChar(STALLED, "broken pipe", 'b');
    NeedsChar(STALLED, "timeout", 'u');
    NeedsChar(STALLED, "EOF", 'E');
    NeedsChar(STALLED, "tls:", ':');
    NeedsChar(STALLED, "no such host", 'u');
  }

  /** 429, 502, 503 and 504 are meant to be retried too: they are only if the server's status line
      itself holds one of the words. */
  lemma StatusRetriedIff(status: string)
    ensures IsRetryable(RETURNED + status) <==> IsRetryable(status)
  {
    NotAcross(status, "connection reset");
    NotAcross(status, "broken pipe");
    NotAcross(status, "timeout");
    NotAcross(status, "EOF");
    NotAcross(status, "tls:");
    NotAcross(status, "no such host");
  }

  lemma NotAcross(status: string, sub: string)
    requires |sub| >= 2 && forall i :: 0 <= i < |RETURNED| - 1 ==> RETURNED[i] != sub[0] || RETURNED[i + 1] != sub[1]
    requires sub[0] != ' '
    ensures Contains(RETURNED + status, sub) <==> Contains(status, sub)
  {
    var all := RETURNED + status;
    assert RETURNED[|RETURNED| - 1] == ' ';
    if i: nat :| i <= |all| && OccursAt(all, sub, i) {
      assert all[i..i + |sub|][0] == all[i] && all[i..i + |sub|][1] == all[i + 1];
      if i >= |RETURNED| {
        assert all[i..i + |sub|] == status[i - |RETURNED|..][..|sub|];
        assert OccursAt(status, sub, i - |RETURNED|);
      } else {
        assert false;
      }
    }
    if i: nat :| i <= |status| && OccursAt(status, sub, i) {
      assert all[i + |RETURNED|..i + |RETURNED| + |sub|] == status[i..i + |sub|];
      assert OccursAt(all, sub, i + |RETURNED|);
    }
  }

  // ---------- the attempts of a download ----------

  /** An attempt: where it resumed and how it ended. */
  datatype Try = Try(at: nat, result: Result)

  /** Where the attempt after a failed one resumes. */
  function NextAt(w: World, at: nat, withTee: bool): nat {
    if KeepsTemp(w, at, withTee) then at else 0
  }

  /** All attempts from the k-th on. */
  function Tries(world: (nat, nat) -> World, k: nat, at: nat, withTee: bool, size: nat): (r: seq<Try>)
    requires k < MAX_ATTEMPTS
    ensures 1 <= |r| <= MAX_ATTEMPTS - k
    decreases MAX_ATTEMPTS - k
  {
    var w := world(k, at);
    var result := AttemptResult(w, at, withTee, size);
    if result.Failed? && IsRetryable(result.error) && k + 1 < MAX_ATTEMPTS
    then [Try(at, result)] + Tries(world, k + 1, NextAt(w, at, withTee), withTee, size)
    else [Try(at, result)]
  }

  lemma TriesStep(world: (nat, nat) -> World, k: nat, at: nat, withTee: bool, size: nat)
    requires k < MAX_ATTEMPTS
    ensures var w := world(k, at);
      var result := AttemptResult(w, at, withTee, size);
      Tries(world, k, at, withTee, size) == [Try(at, result)]
        + (if result.Failed? && IsRetryable(result.error) && k + 1 < MAX_ATTEMPTS
           then Tries(world, k + 1, NextAt(w, at, withTee), withTee, size) else [])
  {
    hide AttemptResult, IsRetryable;
  }

  /** Each attempt ends as its world has it, and there is another one exactly if it failed, its error
      is retried, and it is not the fourth. */
  lemma {:induction false} TryAt(world: (nat, nat) -> World, k: nat, at: nat, withTee: bool, size: nat, i: nat)
    requires k < MAX_ATTEMPTS && i < |Tries(world, k, at, withTee, size)|
    ensures var tries := Tries(world, k, at, withTee, size);
      var t := tries[i];
      var w := world(k + i, t.at);
      && t.result == AttemptResult(w, t.at, withTee, size)
      && (i + 1 < |tries| <==> t.result.Failed? && IsRetryable(t.result.error) && k + i + 1 < MAX_ATTEMPTS)
      && (i + 1 < |tries| ==> tries[i + 1].at == NextAt(w, t.at, withTee))
    decreases i
  {
    hide AttemptResult, IsRetryable, NextAt;
    var w := world(k, at);
    if i > 0 {
      TryAt(world, k + 1, NextAt(w, at, withTee), withTee, size, i - 1);
    }
  }

  /** The body stops coming and the watchdog cancels the request. */
  predicate Stalls(w: World, at: nat, withTee: bool) {
    match w.reply
    case Ok(body) => body.stalled && !body.complete && !w.faults.openFails
    case PartialContent(body) =>
      body.stalled && !body.complete && !w.faults.openFails && !(withTee && at > 0 && w.faults.prefixReadFails)
    case _ => false
  }

  /** A download that stalls fails at once: that attempt is the last. */
  lemma StalledIsLast(world: (nat, nat) -> World, at: nat, withTee: bool, size: nat, i: nat)
    requires i < |Tries(world, 0, at, withTee, size)|
    requires Stalls(world(i, Tries(world, 0, at, withTee, size)[i].at),
                    Tries(world, 0, at, withTee, size)[i].at, withTee)
    ensures Tries(world, 0, at, withTee, size)[i].result == Failed(STALLED)
    ensures i == |Tries(world, 0, at, withTee, size)| - 1
  {
    hide IsRetryable, Tries;
    TryAt(world, 0, at, withTee, size, i);
    StalledIsNotRetried();
  }

  /** An error reply is followed by another attempt if and only if its status line holds one of the
      words, and it is not the fourth. */
  lemma ReplyRetriedIff(world: (nat, nat) -> World, at: nat, withTee: bool, size: nat, i: nat, status: string)
    requires i < |Tries(world, 0, at, withTee, size)|
    requires world(i, Tries(world, 0, at, withTee, size)[i].at).reply == Other(status)
    ensures Tries(world, 0, at, withTee, size)[i].result == Failed(RETURNED + status)
    ensures i + 1 < |Tries(world, 0, at, withTee, size)| <==> i + 1 < MAX_ATTEMPTS && IsRetryable(status)
  {
    hide IsRetryable, Tries;
    TryAt(world, 0, at, withTee, size, i);
    StatusRetriedIff(status);
  }

  /** The words of errors that a repeated attempt may cure. */
  const WORDS := ["connection reset", "broken pipe", "timeout", "EOF", "tls:", "no such host"]

  lemma WordInside(before: string, word: string, after: string)
    ensures Contains(before + word + after, word)
  {
    assert (before + word + after)[|before|..|before| + |word|] == word;
    assert OccursAt(before + word + after, word, |before|);
  }

  lemma ContainsWord(s: string, word: string) returns (before: string, after: string)
    requires Contains(s, word)
    ensures s == before + word + after
  {
    var i: nat :| i <= |s| && OccursAt(s, word, i);
    before, after := s[..i], s[i + |word|..];
  }

  /** An error is retried exactly if one of the six words stands anywhere in it. */
  lemma RetryableIff(msg: string)
    ensures IsRetryable(msg) <==> exists before, word, after :: word in WORDS && msg == before + word + after
  {
    if before, word, after :| word in WORDS && msg == before + word + after {
      WordInside(before, word, after);
    }
    hide Contains;
    if IsRetryable(msg) {
      var word :| word in WORDS && Contains(msg, word);
      var before, after := ContainsWord(msg, word);
    }
  }

  /** So a request that ends in such an error is followed by another, unless it was the fourth; that one
      resumes where this one did. */
  lemma WordIsRetried(world: (nat, nat) -> World, at: nat, withTee: bool, size: nat, i: nat,
                      before: string, word: string, after: string)
    requires i < |Tries(world, 0, at, withTee, size)| && word in WORDS
    requires world(i, Tries(world, 0, at, withTee, size)[i].at).reply == NoReply(before + word + after)
    ensures var tries := Tries(world, 0, at, withTee, size);
      && tries[i].result == Failed(before + word + after)
      && (i + 1 < |tries| <==> i < 3)
      && (i < 3 ==> tries[i + 1].at == tries[i].at)
  {
    hide IsRetryable, Tries;
    TryAt(world, 0, at, withTee, size, i);
    RetryableIff(before + word + after);
  }

  /** A body that is cut by such an error is fetched again from its beginning: what had arrived, and what
      had been there before it, is gone. */
  lemma CutStartsOver(world: (nat, nat) -> World, at: nat, withTee: bool, size: nat, i: nat,
                      before: string, word: string, after: string)
    requires i < |Tries(world, 0, at, withTee, size)| && word in WORDS
    requires var w := world(i, Tries(world, 0, at, withTee, size)[i].at);
      && (w.reply.Ok? || w.reply.PartialContent?) && !w.reply.body.complete && !w.reply.body.stalled
      && w.reply.body.cutError == before + word + after
      && w.faults.writeFailsAt.None? && !w.faults.openFails && !w.faults.prefixReadFails
    ensures var tries := Tries(world, 0, at, withTee, size);
      && tries[i].result == Failed(before + word + after)
      && (i + 1 < |tries| <==> i < 3)
      && (i < 3 ==> tries[i + 1].at == 0)
  {
    hide IsRetryable, Tries;
    TryAt(world, 0, at, withTee, size, i);
    RetryableIff(before + word + after);
  }

  /** A complete body ends the download with success where the file system does its part. */
  lemma CompleteIsLast(world: (nat, nat) -> World, at: nat, withTee: bool, size: nat, i: nat)
    requires i < |Tries(world, 0, at, withTee, size)|
    requires var w := world(i, Tries(world, 0, at, withTee, size)[i].at);
      && (w.reply.RangeNotSatisfiable? || ((w.reply.Ok? || w.reply.PartialContent?) && w.reply.body.complete))
      && w.faults.writeFailsAt.None? && !w.faults.openFails && !w.faults.prefixReadFails && !w.faults.renameFails
    ensures var tries := Tries(world, 0, at, withTee, size);
      tries[i].result == Done(size) && i == |tries| - 1
  {
    hide IsRetryable, Tries;
    TryAt(world, 0, at, withTee, size, i);
  }

  /** The status lines that go with these codes. */
  const RETRYABLE_STATUSES :=
    ["429 Too Many Requests", "502 Bad Gateway", "503 Service Unavailable", "504 Gateway Timeout"]

  lemma NeedsPair(s: string, sub: string)
    requires |sub| >= 2 && forall i :: 0 <= i < |s| - 1 ==> s[i] != sub[0] || s[i + 1] != sub[1]
    ensures !Contains(s, sub)
  {
    forall i: nat | i + |sub| <= |s| ensures !OccursAt(s, sub, i) {
      assert s[i..i + |sub|][0] == s[i] && s[i..i + |sub|][1] == s[i + 1];
    }
  }

  lemma NoWordIn(s: string)
    requires forall i :: 0 <= i < |s| - 1 ==>
      && !(s[i] == 'c' && s[i + 1] == 'o') && !(s[i] == 'b' && s[i + 1] == 'r') && !(s[i] == 't' && s[i + 1] == 'i')
      && !(s[i] == 'E' && s[i + 1] == 'O') && !(s[i] == 't' && s[i + 1] == 'l') && !(s[i] == 'n' && s[i + 1] == 'o')
    ensures !IsRetryable(s)
  {
    NeedsPair(s, "connection reset");
    NeedsPair(s, "broken pipe");
    NeedsPair(s, "timeout");
    NeedsPair(s, "EOF");
    NeedsPair(s, "tls:");
    NeedsPair(s, "no such host");
  }

  /** So none of the four replies the source raises as retryable is retried when it comes with its
      usual status line. */
  lemma UsualStatusIsLast(world: (nat, nat) -> World, at: nat, withTee: bool, size: nat, i: nat, status: string)
    requires status in RETRYABLE_STATUSES
    requires i < |Tries(world, 0, at, withTee, size)|
    requires world(i, Tries(world, 0, at, withTee, size)[i].at).reply == Other(status)
    ensures i == |Tries(world, 0, at, withTee, size)| - 1
  {
    hide Tries, IsRetryable;
    UsualStatusHasNoWord(status);
    ReplyRetriedIff(world, at, withTee, size, i, status);
  }

  lemma NoWordIn429()
    ensures !IsRetryable("429 Too Many Requests")
  {
    hide IsRetryable;
    NoWordIn("429 Too Many Requests");
  }

  lemma NoWordIn502()
    ensures !IsRetryable("502 Bad Gateway")
  {
    hide IsRetryable;
    NoWordIn("502 Bad Gateway");
  }

  lemma NoWordIn503()
    ensures !IsRetryable("503 Service Unavailable")
  {
    hide IsRetryable;
    NoWordIn("503 Service Unavailable");
  }

  lemma NoWordIn504()
    ensures !IsRetryable("504 Gateway Timeout")
  {
    hide IsRetryable;
    NoWordIn("504 Gateway Timeout");
  }

  lemma UsualStatusHasNoWord(status: string)
    requires status in RETRYABLE_STATUSES
    ensures !IsRetryable(status)
  {
    hide IsRetryable;
    NoWordIn429();
    NoWordIn502();
    NoWordIn503();
    NoWordIn504();
  }

  // ---------- the download ----------

  class Store {
    var files: Files

    constructor (files: Files)
      ensures this.files == files
    {
      this.files := files;
    }

    /** One attempt. `states` are the files at every point where a crash can hit; `tee` is what the
        second writer received. */
    method DownloadOnce(content: bytes, w: World, withTee: bool)
      returns (r: Result, tee: bytes, states: seq<Files>)
      requires Resumable(files, content) && Honest(content, Size(files.tmp), w.reply)
      modifies this
      ensures r == AttemptResult(w, Size(old(files).tmp), withTee, |content|)
      ensures r.Done? ==> files == Files(None, Some(content)) && (withTee ==> tee == content)
      // A failed attempt keeps what was there before it or nothing, never what it fetched itself.
      ensures r.Failed? ==>
        files == Files(if KeepsTemp(w, Size(old(files).tmp), withTee) then old(files).tmp else None, old(files).dest)
      ensures AllSafe(states, content, old(files).dest)
      ensures states != [] && states[0] == old(files) && states[|states| - 1] == files
    {
      tee, states := [], [files];
      var resumeAt := Size(files.tmp);
      var body: Body;
      match w.reply {
        case NoReply(e) => return Failed(e), tee, states;
        case Other(status) => return Failed(RETURNED + status), tee, states;
        case RangeNotSatisfiable =>
          if withTee {
            if w.faults.prefixReadFails { return Failed(w.faults.error), tee, states; }
            tee := files.tmp.value;
          }
          assert files.tmp.value == content[..|files.tmp.value|] == content;
          if w.faults.renameFails {
            files := files.(tmp := None);
            states := states + [files];
            return Failed("file already complete but rename failed: " + w.faults.error), tee, states;
          }
          files := Files(None, files.tmp);
          states := states + [files];
          return Done(resumeAt), tee, states;
        case Ok(b) =>
          body := b;
          if resumeAt > 0 {
            files := files.(tmp := None);
            states := states + [files];
            resumeAt := 0;
          }
        case PartialContent(b) =>
          body := b;
      }
      var more;
      r, tee, more := Receive(content, body, resumeAt, w.faults, withTee);
      states := states + more;
    }

    /** The rest of an attempt: the prefix for the second writer, the body, the rename. */
    method Receive(content: bytes, body: Body, resumeAt: nat, faults: Faults, withTee: bool)
      returns (r: Result, tee: bytes, states: seq<Files>)
      requires Resumable(files, content) && resumeAt == Size(files.tmp)
      requires Join(body.chunks) <= content[resumeAt..]
      requires body.complete ==> Join(body.chunks) == content[resumeAt..]
      modifies this
      ensures r == if Received(body, faults, resumeAt, withTee) then Done(|content|)
                   else Failed(ReceiveError(body, faults, resumeAt, withTee))
      ensures r.Done? ==> files == Files(None, Some(content)) && (withTee ==> tee == content)
      ensures r.Failed? ==> files.dest == old(files).dest
      ensures r.Failed? ==>
        files.tmp == if (withTee && resumeAt > 0 && faults.prefixReadFails) || faults.openFails
                     then old(files).tmp else None
      ensures AllSafe(states, content, old(files).dest)
      ensures files == if states == [] then old(files) else states[|states| - 1]
    {
      tee, states := [], [];
      if withTee && resumeAt > 0 {
        if faults.prefixReadFails { return Failed(faults.error), tee, states; }
        tee := files.tmp.value;
      }
      if faults.openFails {
        return Failed(faults.error), tee, states;
      }
      if resumeAt == 0 {
        files := files.(tmp := Some([]));
        states := states + [files];
      }
      assert resumeAt == Size(files.tmp) && Join(body.chunks) <= content[resumeAt..];
      var ok, copied, copyStates := CopyBody(content, body, faults.writeFailsAt);
      states := states + copyStates;
      if withTee {
        tee := tee + copied;
      }
      if !ok {
        files := files.(tmp := None);
        states := states + [files];
        return Failed(if body.stalled then STALLED
                      else if WriteFails(body, faults) then faults.error else body.cutError), tee, states;
      }
      assert files.tmp.value == content;
      if faults.renameFails {
        files := files.(tmp := None);
        states := states + [files];
        return Failed(faults.error), tee, states;
      }
      files := Files(None, files.tmp);
      states := states + [files];
      r := Done(|copied| + resumeAt);
    }

    /** io.Copy: append chunk after chunk to the temp file. */
    method CopyBody(content: bytes, body: Body, writeFailsAt: Option<nat>)
      returns (ok: bool, copied: bytes, states: seq<Files>)
      requires files.tmp.Some? && files.tmp.value <= content
      requires Join(body.chunks) <= content[|files.tmp.value|..]
      requires body.complete ==> Join(body.chunks) == content[|files.tmp.value|..]
      modifies this
      ensures files.tmp.Some? && files.dest == old(files).dest
      ensures files.tmp.value == old(files).tmp.value + copied && files.tmp.value <= content
      ensures ok <==> body.complete && !(writeFailsAt.Some? && writeFailsAt.value < |body.chunks|)
      ensures ok ==> files.tmp.value == content
      ensures AllSafe(states, content, old(files).dest)
      ensures files == if states == [] then old(files) else states[|states| - 1]
    {
      copied, states := [], [];
      ghost var start := files.tmp.value;
      assert start + [] == start && body.chunks[..0] == [] && Join([]) == [];
      hide Join;
      for i := 0 to |body.chunks|
        invariant files.tmp == Some(start + copied) && files.dest == old(files).dest
        invariant copied == Join(body.chunks[..i]) && !(writeFailsAt.Some? && writeFailsAt.value < i)
        invariant AllSafe(states, content, old(files).dest)
        invariant files == if states == [] then old(files) else states[|states| - 1]
      {
        if writeFailsAt == Some(i) {
          PrefixOfContent(content, start, body.chunks, i);
          return false, copied, states;
        }
        JoinSnoc(body.chunks, i);
        PrefixOfContent(content, start, body.chunks, i + 1);
        copied := copied + body.chunks[i];
        files := files.(tmp := Some(files.tmp.value + body.chunks[i]));
        assert files.tmp.value == start + copied;
        states := states + [files];
      }
      assert body.chunks[..|body.chunks|] == body.chunks;
      PrefixOfContent(content, start, body.chunks, |body.chunks|);
      ok := body.complete;
    }

    /** Up to four attempts; `world` gives what attempt k meets when it resumes at a given size. */
    method Download(content: bytes, world: (nat, nat) -> World, withTee: bool)
      returns (r: Result, states: seq<Files>, ghost tries: seq<Try>)
      requires Resumable(files, content)
      requires forall k: nat, at: nat :: at <= |content| ==> Honest(content, at, world(k, at).reply)
      modifies this
      ensures tries == Tries(world, 0, Size(old(files).tmp), withTee, |content|)
      ensures r == tries[|tries| - 1].result
      ensures r.Done? ==> r.size == |content| && files == Files(None, Some(content))
      ensures r.Failed? ==> files.dest == old(files).dest && files.tmp in {None, old(files).tmp}
      ensures Resumable(files, content)
      ensures AllSafe(states, content, old(files).dest)
    {
      states, tries := [files], [];
      hide Tries, Succeeds, AttemptError, IsRetryable, KeepsTemp;
      ghost var start := Size(files.tmp);
      var attempt := 0;
      assert [] + Tries(world, 0, start, withTee, |content|) == Tries(world, 0, start, withTee, |content|);
      while true
        invariant 0 <= attempt == |tries| < MAX_ATTEMPTS
        invariant files.dest == old(files).dest && files.tmp in {None, old(files).tmp}
        invariant tries + Tries(world, attempt, Size(files.tmp), withTee, |content|)
               == Tries(world, 0, start, withTee, |content|)
        invariant AllSafe(states, content, old(files).dest)
        decreases MAX_ATTEMPTS - attempt
      {
        var tee, more;
        var at := Size(files.tmp);
        TriesStep(world, attempt, at, withTee, |content|);
        r, tee, more := DownloadOnce(content, world(attempt, at), withTee);
        states := states + more;
        tries := tries + [Try(at, r)];
        if r.Done? {
          return;
        }
        if !IsRetryable(r.error) || attempt == MAX_ATTEMPTS - 1 {
          return;
        }
        attempt := attempt + 1;
      }
    }

    /** Any number of calls, each of which may be cut short by a crash at any point: the next one
        starts from what the crash left. The first that succeeds delivers exactly the content. */
    method Lifetime(content: bytes, calls: nat, world: (nat, nat, nat) -> World, crashes: nat -> Option<nat>,
                    withTee: bool)
      returns (done: bool)
      requires Resumable(files, content)
      requires forall n: nat, k: nat, at: nat :: at <= |content| ==> Honest(content, at, world(n, k, at).reply)
      modifies this
      ensures Resumable(files, content)
      ensures done ==> files.dest == Some(content)
      ensures files.dest == old(files).dest || files.dest == Some(content)
    {
      done := false;
      for n := 0 to calls
        invariant Resumable(files, content) && !done
        invariant files.dest == old(files).dest || files.dest == Some(content)
      {
        var r, states, tries := Download(content, (k: nat, at: nat) => world(n, k, at), withTee);
        var crash := crashes(n);
        if crash.Some? && crash.value < |states| {
          assert states[crash.value] in states;
          files := states[crash.value];
        } else if r.Done? {
          return true;
        }
      }
    }
  }

  lemma PrefixExtends(a: bytes, b: bytes, c: bytes)
    requires b <= c
    ensures a + b <= a + c
  {}

  lemma JoinPrefix(chunks: seq<bytes>, i: nat)
    requires i <= |chunks|
    ensures Join(chunks[..i]) <= Join(chunks)
  {
    hide Join;
    JoinAppend(chunks[..i], chunks[i..]);
    assert chunks == chunks[..i] + chunks[i..];
  }

  /** What arrived so far continues the temp file along the content. */
  lemma PrefixOfContent(content: bytes, start: bytes, chunks: seq<bytes>, i: nat)
    requires start <= content && Join(chunks) <= content[|start|..] && i <= |chunks|
    ensures start + Join(chunks[..i]) <= content
    ensures i == |chunks| && Join(chunks) == content[|start|..] ==> start + Join(chunks[..i]) == content
  {
    hide Join;
    JoinPrefix(chunks, i);
    var rest := content[|start|..];
    PrefixExtends(start, Join(chunks[..i]), rest);
    assert content == start + rest;
    if i == |chunks| {
      assert chunks[..i] == chunks;
    }
  }
}
