# hali: a verified model

hali caches machine-learning models and shares them over BitTorrent. This project models its daemon
and client in Dafny and proves what they keep: torrent construction, download jobs, LAN hints, event
delivery, the config file, resumable downloads, magnets and cache eviction. `dafny verify
dfyconfig.toml` checks all of it.

Code that works by changing state is modelled in that form: a class with the source's fields, or a
method with the source's loop, proved against a specification function. What the source promises is
then proved about those functions, over all inputs, all runs or all reachable states.

| file | what it models |
|---|---|
| `Merkle.dfy`, `MerkleTheorems.dfy` | the Merkle trees of BEP 52 over free hash terms, and the two routes to a file's root |
| `PieceHasher.dfy` | the streaming v1 piece hasher |
| `HybridTorrent.dfy` | the hybrid info: piece size, reading loop, piece layer, root |
| `DownloadEngine.dfy` | the job and entry tables, one method for each critical section |
| `DownloadProtocol.dfy` | every interleaving of goroutines, handlers, cancel requests and shutdown |
| `DownloadProgress.dfy` | what a job reports while it transfers, how it succeeds and how it fails |
| `DownloadOutcomes.dfy` | when the first failure of a download stays |
| `DownloadLimits.dfy` | how many downloads can be unfinished, and how shutdown ends them |
| `MetadataWait.dfy` | the wait for torrent metadata |
| `LanRate.dfy`, `LanIndex.dfy` | the rate limiter and the hint index |
| `LanHistory.dfy` | what the index holds after any sequence of messages and prunes |
| `LanProjection.dfy` | the freshness choice and the rows the server reports |
| `EventQueue.dfy`, `EventWorker.dfy` | the durable queue and the delivery worker |
| `EventReplies.dfy` | what becomes of an event, by the numbers the ingest service replies with |
| `EventProtocol.dfy` | every interleaving of Enqueue, drain, restart and crash |
| `EventTiming.dfy` | how far apart the tries of one event are |
| `EventWakeUp.dfy` | when a wake-up is lost |
| `EventBudget.dfy` | the failures queued events have left |
| `JsonComments.dfy`, `ConfigPrinter.dfy` | the comment stripper and the config printer it must undo |
| `ConfigReader.dfy` | a reader of JSON objects, and that it reads back every setting of a saved config |
| `ResumableDownload.dfy` | a download that resumes, retries and survives crashes |
| `Magnet.dfy` | the magnet printer and a reader for it |
| `CacheEviction.dfy` | eviction of least recently downloaded models |
| `Chunks.dfy`, `Text.dfy`, `Order.dfy`, `Wrappers.dfy` | blocks of a file, Go strings, sorting, Option |

## What the code does differently from what it seems to promise

- The second root computation of a torrent never changes the root when the file is longer than one
  piece, or longer than half of one. For a nonempty file of at most half a piece it would; the code
  is right because it makes the second computation only for files longer than a piece
  (`MerkleTheorems.RoutesAgreeIff`).
- The download limit is exceeded when handlers interleave, because the room test and the insertion
  are separate critical sections: up to limit - 1 + 32 downloads under the 32 IPC handlers, and some
  run reaches that (`DownloadLimits.UnfinishedBound`, `DownloadLimits.BoundIsReached`).
- The first failure of a download is not always its last: a cancel that finds the goroutine waiting
  for metadata, holding metadata it has just got, or about to fail its job can be replaced by a
  shutdown, an unsafe file name or the metadata timeout. At every other point, and so from the
  transfer phase on, the first failure stays (`DownloadOutcomes.FirstErrorIsKeptIff`,
  `DownloadOutcomes.NameReplaces`, `DownloadOutcomes.TimeoutReplaces`,
  `DownloadLimits.CancelCanBeReplaced`).
- Shutdown may return while a job is not done. When its context expires first, as after the two
  seconds Close allows: exactly the jobs not canceled whose goroutine has not exited. When it returns
  through the wait for goroutines: exactly those not canceled whose goroutine was not launched yet.
  Both happen (`DownloadLimits.AfterShutdown`, `DownloadLimits.ExpiryLeavesRunningJob`,
  `DownloadLimits.WaitLeavesJob`).
- The retry delay of an event counts from the moment the drain that failed read the clock, not from
  the try. A try that started some seconds into its drain, because events before it took that long,
  may be followed that many seconds too soon, even at once; the full delay from start to start is
  guaranteed if and only if the try started when the clock was read (`EventTiming.GapBound`,
  `EventTiming.GapIsReached`, `EventTiming.FullDelayIff`).
- A listing that fails uses up the wake-up it was started for, and nothing restores it: an event
  whose Enqueue returned may be queued and not listed while the worker waits untold. That the event
  is still announced is certain if and only if no listing has failed since its commit
  (`EventWakeUp.StillAnnouncedIff`, `EventWakeUp.LosesWake`). It then waits for the next tick, which
  lists it if that listing succeeds (`EventProtocol.WakeUpLists`).
- The LAN rate limit of 10 messages a second admits 10·T + 9 in some closed interval of T seconds,
  and never more (`LanRate.RateBound`, `LanRate.RateBoundIsReached`).
- A block comment in the config is not ignored right after a slash
  (`JsonComments.BlockCommentIgnoredIff`).
- A stalled download and replies 429, 502, 503 and 504 are raised as retryable errors, but the retry
  test reads the error's text. An attempt that stalls is always the last; one that gets an error reply
  is followed by another if and only if the status line holds one of the words the test looks for,
  which the usual lines of these four codes do not (`ResumableDownload.StalledIsLast`,
  `ResumableDownload.ReplyRetriedIff`, `ResumableDownload.UsualStatusIsLast`).
- What a cut body had brought is not resumed by the retry: it starts over
  (`ResumableDownload.CutStartsOver`).
- An attempt that fails keeps nothing of what it fetched (`ResumableDownload.Store.DownloadOnce`), so
  a retry resumes only what an earlier crash left.

## Model

The methods of `DownloadEngine.Engine` not listed here (`AddJob`, `FailJob`, `FailTransfer`,
`StoreMetadata`, `IsDownloadCancelled`, `JobStatus`; internal/torrent/engine.go:884-1132) and
`LanIndex.Index.Query` (internal/daemon/lan.go:237-247) do what one function each says; they tie the
classes to the protocols.

| member | source | states |
|---|---|---|
| MerkleTheorems.LayerRootIsFileRoot | internal/torrent/engine.go:1303-1314 | For every file longer than one piece the root over its padded piece layer is its whole-file root: the overwrite never changes the value. |
| MerkleTheorems.RoutesAgreeIff | internal/torrent/engine.go:1303-1314 | For every file and piece length of at least two blocks, the two routes agree if and only if the file is empty or longer than half a piece. |
| MerkleTheorems.RootOverPaddedChunks | internal/torrent/engine.go:1307 | Padding leaves with zeros or chunk roots with the pad hash of a chunk gives the same root, for more leaves than one chunk holds. |
| MerkleTheorems.FileRootIdentifiesFile | internal/torrent/engine.go:1303-1304 | Two files with the same root are the same file. |
| MerkleTheorems.FileRootDescends | internal/torrent/engine.go:1303-1304 | Going down from the file root, to the first child for the first half of the padded leaves and to the second for the other, every place ends at the hash of the 16 KiB block there, or at zero past the end. |
| MerkleTheorems.PieceHashDescends | internal/torrent/engine.go:1279-1301 | The same for a piece and its padded hash. |
| Merkle.RootOfChunkRoots | internal/torrent/engine.go:1307 | The root of a full layer is the root of the roots of its equal power-of-two chunks. |
| Merkle.RootOfHalves | internal/torrent/engine.go:1307 | The root of two power-of-two halves of equal length is the node of their roots, the first one first. |
| Merkle.NextPow2Product | internal/torrent/engine.go:1307 | Rounding the block count up to a power of two is rounding the piece count up, times the blocks of a piece. |
| Merkle.ChunkRootsOfPadded | internal/torrent/engine.go:1297-1307 | Zero leaves after a short last piece become its padding and then whole pad hashes. |
| Merkle.LayerOfLeaves | internal/torrent/engine.go:1279-1301 | The piece layer is the chunk roots of the file's leaves, the last chunk padded with zeros. |
| HybridTorrent.ReadPieces | internal/torrent/engine.go:1258-1295 | However the file is returned in reads, the nested loop hashes all of it once, cuts it at piece boundaries, and fails exactly on a read error. |
| HybridTorrent.LayeredFeed | internal/torrent/engine.go:1268-1286 | A chunk that does not cross a piece boundary keeps layer, remainder and bytes seen in step. |
| HybridTorrent.LayeredEnd | internal/torrent/engine.go:1297-1301 | The tail hash completes the layer if and only if the file does not end at a boundary. |
| HybridTorrent.LayerAt | internal/torrent/engine.go:1279-1301 | The i-th layer hash is the piece-padded hash of the bytes from i·pl to min((i+1)·pl, n). |
| HybridTorrent.SamePieceCount | internal/torrent/engine.go:1225-1233 | v1 list and v2 layer of a file have the same number of pieces, ceil(n/pl). |
| HybridTorrent.ChosenPieceSize | internal/torrent/engine.go:47-60 | Every chosen size is a power-of-two multiple of 16 KiB, and below 80 GiB there are at most 10240 pieces. |
| HybridTorrent.PiecesAreNotTooLarge | internal/torrent/engine.go:47-60 | Sizes are between 2 and 16 MiB and grow with the file; from 4 GiB on there are at least 2048 pieces, from 80 GiB on at least 5120. |
| HybridTorrent.BuildHybridSingleFileInfo | internal/torrent/engine.go:1216-1334 | When it fails; length, piece length and v1 pieces; root and layer over what was read; the layer always passes BEP 52's rule; the root is the whole-file root in exactly the stated cases, and always if the length is the bytes read. |
| PieceHashing.PieceHasher.constructor | internal/torrent/piece_hasher.go:31-39 | A new hasher has seen nothing. |
| PieceHashing.PieceHasher.Write | internal/torrent/piece_hasher.go:47-74 | Consumes all bytes; between calls the digests are those of the whole pieces so far and the offset is below the piece size. |
| PieceHashing.PieceHasher.Finalize | internal/torrent/piece_hasher.go:81-93 | Returns the digests of the consecutive pieces of everything written, 20 bytes for each of ceil(n/size). |
| PieceHashing.PieceHasher.PieceCount | internal/torrent/piece_hasher.go:98-100 | Counts whole pieces before Finalize, all pieces after it. |
| PieceHashing.StreamingFeed | internal/torrent/piece_hasher.go:52-72 | Feeding up to a boundary keeps the stream's digests; reaching it adds exactly that piece's digest. |
| PieceHashing.StreamingEnd | internal/torrent/piece_hasher.go:85-92 | The partial last piece, if any, completes the digests. |
| PieceHashing.HashStream | internal/torrent/piece_hasher.go:41-93 | For every split into writes the digests are those of hashing the stream piece by piece. |
| PieceHashing.V1PieceAt | internal/torrent/piece_hasher.go:81-93 | The 20 bytes at i·20 are the digest of the bytes of the i-th piece. |
| PieceHashing.DigestsLength | internal/torrent/piece_hasher.go:76-77 | The list is 20 bytes a piece. |
| DownloadEngine.Engine.ActiveDownloadJobsLocked | internal/torrent/engine.go:286-294 | The number of jobs that are not done. |
| DownloadEngine.Engine.Admit | internal/torrent/engine.go:825-830 | Admits unless a positive limit is reached; changes nothing. |
| DownloadEngine.Engine.CancelDownload | internal/torrent/engine.go:1076-1094 | Known jobs only; sets error and done together, unless the job is done. |
| DownloadEngine.Engine.TransferTick | internal/torrent/engine.go:1025-1067 | For a job not done, what is written and what is missing make the total; it is done, and its model has a seeding entry, exactly if nothing is missing. A done job is left alone. |
| DownloadProtocol.StepKeepsInv | internal/torrent/engine.go:900-1104 | Every step of every interleaving keeps the invariant and undoes no job's progress. |
| DownloadProtocol.RunKeepsInv | internal/torrent/engine.go:900-1104 | The same over whole runs, between any two points. |
| DownloadProtocol.GoStepLocal | internal/torrent/engine.go:900-1069 | A goroutine's step touches only its own job, and the entries only when it publishes. |
| DownloadProtocol.OnlySuccessPublishes | internal/torrent/engine.go:1054-1066 | Only the tick that completes a job not done before publishes, and it publishes that job's entry. |
| DownloadProtocol.ReachableJobs | internal/torrent/engine.go:900-1104 | After any run: an exited goroutine's job is done; published jobs are exactly the successful ones, each once, with every byte written. |
| DownloadProtocol.OutcomesAreKept | internal/torrent/engine.go:1001-1104 | Done never reverts, success is final, a failure never becomes a success, and from the transfer phase on it stays the same failure. |
| DownloadProgress.TickReports | internal/torrent/engine.go:1024-1056 | In every state a run can reach: after a tick of an unfinished job, written plus missing is its total. |
| DownloadProgress.TransferBegins | internal/torrent/engine.go:989-997 | Recording the metadata sets total and file name and begins a transfer with nothing written. |
| DownloadProgress.WrittenNeverFalls | internal/torrent/engine.go:1001-1067 | Over every run in which what is missing never rises, the bytes a transferring job reports as written never fall. |
| DownloadProgress.CanSucceed | internal/torrent/engine.go:900-1067 | From a job just inserted into an open engine some run ends with it done, without an error, every byte written and its entry published, for every size and name. |
| DownloadProgress.TransferShutsDown | internal/torrent/engine.go:1005-1013 | A transferring job that finds the engine closed ends with the shutdown error and publishes nothing. |
| DownloadProgress.MetadataRefused | internal/torrent/engine.go:969-987 | When the metadata has come, a closed engine fails the job with the shutdown error, else an unsafe name fails it with that name. |
| DownloadProgress.WaitRunsOut | internal/torrent/engine.go:930-939 | Past its deadline the wait fails the job with the timeout error unless it was canceled. |
| DownloadProgress.CancelEndsIt | internal/torrent/engine.go:1001-1004 | A canceled job's goroutine ends at its next test and changes nothing. |
| DownloadOutcomes.FirstErrorIsKeptIff | internal/torrent/engine.go:926-995 | In every reachable state a failed job keeps its error in every continuation if and only if its goroutine is not waiting for metadata, holding metadata just got, or about to fail; there, the error is always a cancel. |
| DownloadOutcomes.RunKeeps | internal/torrent/engine.go:926-1094 | From any other point the error stays over whole runs. |
| DownloadOutcomes.NameReplaces | internal/torrent/engine.go:980-987 | A cancel during the wait is replaced when an unsafe file name arrives. |
| DownloadOutcomes.TimeoutReplaces | internal/torrent/engine.go:930-939 | A cancel between the test at the deadline and the failure is replaced by the timeout. |
| DownloadLimits.CancelCanBeReplaced | internal/torrent/engine.go:960-965 | A run in which shutdown replaces the cancel error. |
| DownloadLimits.StepKeepsLimit | internal/daemon/server.go:512-532 | With a bounded number of concurrent handlers, every step keeps unfinished jobs plus admitted handlers within limit - 1 + handlers. |
| DownloadLimits.UnfinishedBound | internal/torrent/engine.go:824-898 | At most limit - 1 + handlers unfinished downloads after any run; the limit itself with one handler. |
| DownloadLimits.BoundIsReached | internal/torrent/engine.go:824-898 | For every positive limit and number of handlers some run reaches that bound. |
| DownloadLimits.ShutdownProgress | internal/torrent/engine.go:926-1022 | Once the engine is closed every own step of a launched goroutine, but a poll of the metadata wait, brings it nearer its exit, whatever else happens. |
| DownloadLimits.ShutdownNeverBlocks | internal/torrent/engine.go:219-240 | After the shutdown signal every launched goroutine can always step. |
| DownloadLimits.ShutdownSteps | internal/torrent/engine.go:926-1022 | Over any run of a closed engine a launched goroutine takes at most 7 own steps, and 2 for every poll of the metadata wait. |
| DownloadLimits.UnfinishedJobs | internal/torrent/engine.go:900-1104 | In every reachable state a job is not done if and only if its goroutine has not exited and it was not canceled. |
| DownloadLimits.AfterShutdown | internal/torrent/engine.go:219-240 | When Shutdown returns on an expired context that is what is left; when it returns through the wait, exactly the jobs not canceled whose goroutine was not launched. |
| DownloadLimits.AfterWait | internal/torrent/engine.go:225-232 | When the wait for goroutines returns, a job is not done if and only if its goroutine was not launched and it was not canceled. |
| DownloadLimits.WaitLeavesJob | internal/torrent/engine.go:896-900 | A run in which Shutdown returns that way and leaves a job. |
| DownloadLimits.ExpiryLeavesRunningJob | internal/torrent/engine.go:231-235 | A run in which its context expires and it leaves a launched goroutine's job. |
| MetadataWait.WaitForMetadata | internal/torrent/engine.go:916-967 | Terminates under any peers; the deadline is always min(max(start, last tick with active peers) + timeout, start + 3·timeout) and never moves back; a tick comes within five seconds, plus lateness; it times out only past the deadline and within three timeouts plus lateness. |
| MetadataWait.PollsBounded | internal/torrent/engine.go:923-958 | The wait polls at most twice for every five seconds, or every timeout if that is shorter, of three timeouts: 72 times with the default. |
| MetadataWait.DeadlinesAre | internal/torrent/engine.go:916-958 | The first deadline is the configured time after the start, or a minute; a tick with active peers moves it to that time after the tick, or to three times it after the start if that is earlier; other ticks leave it. |
| MetadataWait.FollowedTick | internal/torrent/engine.go:947-958 | One tick keeps the deadline the one its formula gives. |
| LanRate.RateLimiter.AllowRate | internal/daemon/lan.go:217-233 | The answer and the new bucket, for a new node, an ended window, a full one and an open one. |
| LanRate.AllowedInInterval | internal/daemon/lan.go:217-233 | From any reachable limiter, the bound on a node's messages in a closed interval of any length. |
| LanRate.RateBound | internal/daemon/lan.go:217-233 | In any T whole seconds of any trace at most 10·T + 9 messages pass, 10 if T is 0. |
| LanRate.RateBoundIsReached | internal/daemon/lan.go:217-233 | A trace with exactly that many, for every T from 1 to 1000000000. |
| LanIndex.Index.constructor | internal/daemon/lan.go:98-104 | A new index is empty. |
| LanIndex.ValidModelIDIff | internal/model/identity.go:23-50 | A model id is valid if and only if it is four parts joined by colons, none empty, none two dots, none with a colon or a slash of either kind. |
| LanIndex.Index.Update | internal/daemon/lan.go:106-213 | Exactly when a message is refused for its node id, its time (more than 30 seconds old or 5 ahead) or as this node's own, and that this changes nothing; for an accepted message the new index, exact stored and dropped counts that sum to the models, and the reason; the new state is the one the reachability results are about. |
| LanIndex.Index.StoreModels | internal/daemon/lan.go:138-204 | The loop over a message's models stores them one after the other and counts exactly. |
| LanIndex.Index.StoreModel | internal/daemon/lan.go:139-203 | One model is dropped or stored in its bucket. |
| LanIndex.Index.ReplaceHint | internal/daemon/lan.go:155-186 | The search overwrites the node's slot if there is one. |
| LanIndex.CompactInPlace | internal/daemon/lan.go:270-279 | The in-place compaction leaves the order-preserving filter of the bucket in front. |
| LanIndex.Index.PruneBucket | internal/daemon/lan.go:270-283 | A bucket is filtered or, when nothing is left, deleted. |
| LanIndex.Index.PruneOlderThan | internal/daemon/lan.go:265-286 | Every bucket is filtered, none is left empty, and removed plus kept equals before. |
| LanHistory.ReachableIsGood | internal/daemon/lan.go:106-286 | After any messages and prunes: valid keys, no empty bucket, at most 100 hints in one, distinct nodes, never this node, valid infohashes. |
| LanHistory.RunIsSteps | internal/daemon/lan.go:138-204 | A run of messages is the run of their accepted announcements one at a time. |
| LanHistory.WasReceived | internal/daemon/lan.go:106-138 | Every announcement of that run stood in a received message, with that message's node and time, from another node, inside the time window, and with the sender's address and port if both are known. |
| LanHistory.HintWasSaid | internal/daemon/lan.go:139-203 | At every point, every stored hint: its V1 infohash, revision and time are those of the last acceptable announcement of that model by that node; its V2 infohash, trimmed repository and address are the latest nonempty ones announced since it was inserted, and it has been there since. |
| LanHistory.LatestKept | internal/daemon/lan.go:160-174 | One more announcement keeps "the latest nonempty text" the latest: its own if it is not empty, else the one before. |
| LanHistory.HintIsFold | internal/daemon/lan.go:155-203 | Over announcements and prunes, the stored hint is the fold of what its node said since it was inserted. |
| LanHistory.RunHintIsFold | internal/daemon/lan.go:139-204 | The same for every run of messages: V1 and revision the latest, V2, repository and address the latest nonempty ones. |
| LanHistory.LogWasSaid | internal/daemon/lan.go:139-204 | Nothing is invented: every item that is folded has the infohash, revision, trimmed repository, address and time of an acceptable announcement by that node of that model, and its V2 infohash if that is 64 hex digits, in that order. |
| LanHistory.NeverDowngrades | internal/daemon/lan.go:158-163 | A step that leaves a hint leaves its V2 infohash, except that node's announcement of that model with a valid one, which sets it. |
| LanHistory.StoreStep | internal/daemon/lan.go:187-203 | Storing changes the announcing node's hint for that model and no other. |
| LanHistory.DropStep | internal/daemon/lan.go:265-286 | Pruning drops a hint if and only if it is older than the cutoff. |
| LanHistory.KeepSelects | internal/daemon/lan.go:271-278 | The filter keeps exactly the hints not older than the cutoff. |
| LanProjection.PickBestByFreshness | internal/daemon/server.go:964-990 | The two-tier loop finds the first hint of least age among those no older than 15 minutes, or none. |
| LanProjection.BestIsUnique | internal/daemon/server.go:964-990 | That determines the choice. |
| LanProjection.PeerCountAndLastSeen | internal/daemon/server.go:992-1008 | The number of distinct nodes with an unexpired hint of the infohash, and the latest such time. |
| LanProjection.PeerAddrsFromHints | internal/daemon/server.go:1042-1066 | Their trimmed nonempty addresses, each once, in first-seen order. |
| LanProjection.RowFor | internal/daemon/server.go:923-943 | The row of the chosen hint, or none when it has no peer. |
| LanProjection.RowOfReachable | internal/daemon/server.go:921-951 | Over a reachable bucket: PeerCount counts the nodes with an unexpired hint of the row's V1, each having one, and is at least 1; the addresses are exactly the trimmed nonempty ones of those hints, each once and no more than the count. |
| LanProjection.RowIsOfBest | internal/daemon/server.go:923-943 | Its texts are those of the chosen hint, which is at most 15 minutes old and as late as any; its artifact key is the model, with the trimmed revision if there is one; its time is that hint's in whole seconds. |
| LanProjection.BestHasPeer | internal/daemon/server.go:928-931 | Over a reachable bucket a chosen hint always has a peer. |
| LanProjection.OneNodePerHint | internal/daemon/server.go:992-1008 | Over distinct nodes, counting nodes is counting hints. |
| LanProjection.SummarizeLANSeen | internal/daemon/server.go:921-951 | Exactly one row for each model with an unexpired hint; of any two the earlier row has the later time, or the same time and the lower model id. |
| LanProjection.HandleLanSeen | internal/daemon/server.go:878-886 | Prunes, gives exactly the models with an unexpired hint a row (every remaining model, if nothing expires between its two clock readings) in that order, and keeps the first 500; no row it cuts is more recent than one it keeps. |
| Order.LessIff | internal/daemon/server.go:944-949 | One text comes before another if and only if they are equal up to a position where it ends or has the lower byte. |
| EventQueue.Queue.constructor | internal/events/queue.go:26-28 | An empty queue. |
| EventQueue.Queue.Commit | internal/events/queue.go:30-50 | Write and rename, in any directory: at every crash point the readers see the old queue or the new one, never a partial event. |
| EventQueue.Queue.Delete | internal/events/queue.go:83-90 | Removes that event only; a missing file is no error. |
| EventQueue.Queue.Names | internal/events/queue.go:60-67 | The committed names, each once, sorted. |
| EventQueue.Queue.List | internal/events/queue.go:52-81 | Every committed event once, in name order; fails exactly when the directory or a listed file cannot be read or a listed file is broken. |
| EventWorker.RetryDelayMonotone | internal/events/worker.go:242-254 | The delay is monotone and between 30 seconds and 30 minutes. |
| EventWorker.ComputeRetryDelay | internal/events/worker.go:242-254 | The loop computes min(30·2^(k-1) s, 30 min). |
| EventWorker.SendWithRetry | internal/events/worker.go:210-240 | One to five sends. All but the last met no reply, 429 or 500 and above, and no stop. The last delivered (HEAD 200, or HEAD 404, 405 or 501 and then a POST of 200 to 299), deferred or was refused exactly by its numbers; fewer than five only for a verdict or a stop; total pause 2^(n-1) - 1 seconds. |
| EventWorker.SendIs | internal/events/client.go:47-125 | Which replies deliver, defer and reject, by their numbers, for every exchange. |
| EventWorker.VerdictIs | internal/events/worker.go:213-235 | However the loop ends, its verdict and number of sends are those of the first exchange that is delivered, permanent, fifth or followed by a stop. |
| EventWorker.Worker.DrainOne | internal/events/worker.go:114-155 | What becomes of one listed event in each case, and whether the drain goes on. |
| EventWorker.Worker.Drain | internal/events/worker.go:95-156 | All listed events in order until one stops it; no change when listing or loading the configuration fails or delivery is disabled. |
| EventReplies.SentEvent | internal/events/worker.go:118-153 | An event that is sent leaves if and only if the last exchange delivers or rejects it or it has failed seven times before; otherwise it stays with the publisher's key and signature, one attempt more and the delay of that attempt from now. |
| EventReplies.OtherEvent | internal/events/worker.go:115-122 | An event that is not due, cannot be signed or cannot be written stays as it is; only the first lets the drain go on. |
| EventReplies.OutageKeepsEvent | internal/events/worker.go:123-147 | If every exchange gets no reply, 429 or 500 and above, an event with fewer than seven attempts stays, with one more. |
| EventReplies.LeavesOnly | internal/events/worker.go:123-153 | An event that leaves was delivered or rejected by a reply, after exchanges that all deferred, or had seven attempts. |
| EventReplies.Delays | internal/events/worker.go:242-254 | The delays are 30, 60, 120, 240, 480 and 960 seconds and from the seventh on 1800. |
| EventProtocol.StepKeepsInv | internal/events/worker.go:44-156 | Every step of every interleaving with crashes keeps the invariant. |
| EventProtocol.RunKeepsInv | internal/events/worker.go:44-156 | The same over whole runs. |
| EventProtocol.LeavesOnlyWhen | internal/events/worker.go:113-153 | An event leaves only when delivered, permanently rejected, or failed for the eighth time. |
| EventProtocol.ReachableEvents | internal/events/worker.go:123-147 | After any run: only attribution, attempts and next attempt of a queued event changed; enqueued with no attempts, it keeps fewer than 8, is gone after 8 due drains whose outcome is known, and is sent at most 40 times, plus 5 for every try whose outcome was lost. |
| EventProtocol.TriesAreSpaced | internal/events/worker.go:113-147 | A due drain reads the clock at least the retry delay after the drain of the last recorded failure did; from start to start the tries are apart by the delay less the failed try's lag in its drain, and they never overlap. |
| EventTiming.GapBound | internal/events/worker.go:113-147 | After any run: from the start of the last recorded failed try to the next at least the delay less that lag, and at least the failed try's duration. |
| EventTiming.GapIsReached | internal/events/worker.go:113-147 | Some run reaches this bound, for every number of attempts below 8, lag and duration; the event is enqueued with one attempt less, the lag is that many events before it taking a second each, and all sends end within the worker's timeout. |
| EventTiming.LostTryIsDueAgain | internal/events/worker.go:141-144 | A try whose outcome a crash or a failing file operation loses leaves the event as it was, due at once in every later drain. |
| EventTiming.FullDelayIff | internal/events/worker.go:141 | The full delay from start to start is guaranteed if and only if the lag is 0. |
| EventProtocol.WakeUpIsKept | internal/events/worker.go:84-100 | An event whose Enqueue returned and that no drain has listed since is still announced, or the worker is about to list, or stopped, or a listing failed since its commit. |
| EventWakeUp.LosesWake | internal/events/worker.go:84-100 | For every number of failing listings from one on, a run after which the event is queued and unlisted, the worker waits, and no wake-up is pending. |
| EventWakeUp.StillAnnouncedIff | internal/events/worker.go:84-100 | An unlisted event whose Enqueue returned is certain to be announced still, or about to be listed, if and only if no listing has failed since its commit. |
| EventProtocol.WakeUpLists | internal/events/worker.go:60-69 | A waiting worker can always take the tick, and a wake-up if there is one; listing then, it lists the event, whatever failed before. |
| EventProtocol.NearsListing | internal/events/worker.go:60-156 | Every step of a running worker brings its next listing nearer or is it; nothing but a failing listing, a stop or a crash puts it off. |
| EventBudget.SettlingCosts | internal/events/worker.go:123-153 | The sum of 8 less the attempts of the queued events strictly drops at every settled try: by one at a failure that keeps the event, by all it has left when it leaves. |
| EventBudget.OthersCostNothing | internal/events/worker.go:44-156 | No other step changes that sum but a commit, which adds the new event's. |
| EventBudget.SettlesAtMost | internal/events/worker.go:95-156 | Over every run tries settle at most as often as the events queued and committed have failures left: the sum is a termination measure. |
| EventProtocol.OneIsSteps | internal/events/worker.go:114-155 | What the worker's loop does to one event is one or two protocol steps. |
| EventProtocol.DrainIsRun | internal/events/worker.go:95-156 | Every drain is a run of the protocol, so what holds of runs holds of drains. |
| JsonComments.StripJSONComments | internal/config/config.go:469-537 | The flag-driven loop computes the specification. |
| JsonComments.Idempotent | internal/config/config.go:469-537 | Stripping twice is stripping once, on all byte strings. |
| JsonComments.StripAppend | internal/config/config.go:469-537 | Stripping goes part by part wherever no comment begins or ends across the seam. |
| JsonComments.LiteralsAreKept | internal/config/config.go:496-511 | A string literal (RFC 8259, section 7) outside comments is copied unchanged, whatever it contains. |
| JsonComments.NothingToStrip | internal/config/config.go:469-537 | A text in which no two characters could begin a comment is kept as it is. |
| JsonComments.LineCommentIgnored | internal/config/config.go:481-487 | A line comment outside strings and comments, not after a slash, leaves no trace but its line end. |
| JsonComments.BlockCommentIgnored | internal/config/config.go:488-494 | A block comment inserted outside strings and comments, not after a slash, leaves no trace. |
| JsonComments.AfterSlashItIsNot | internal/config/config.go:518-522 | After a slash outside strings and comments it always does, unless a slash or star follows. |
| JsonComments.BlockCommentIgnoredIff | internal/config/config.go:518-527 | It is ignored whatever follows if and only if it does not stand right after such a slash. |
| ConfigPrinter.QuoteRoundTrip | internal/config/config.go:464-467 | Reading a quoted string back gives the string. |
| ConfigPrinter.QuoteIsLiteral | internal/config/config.go:464-467 | What is quoted is one string literal, so it hides its slashes from the stripper. |
| ConfigPrinter.StrippingRendered | internal/config/config.go:345-462 | For every config, stripping what is printed removes exactly the comment text. |
| ConfigPrinter.ValueSurvives | internal/config/config.go:345-462 | Every key and its value stand in what is read back, byte for byte. |
| ConfigPrinter.IngestURLSurvives | internal/config/config.go:382-383 | The ingest URL, slashes included, reads back as itself. |
| ConfigReader.SavedIsRead | internal/config/config.go:317-343 | Saving any config and reading the file back, comments stripped and the JSON parsed, gives every setting under its own key: switches and limits with their defaults, trimmed texts, set timeouts, and the two clients that have a URL. |
| ConfigReader.StringGives | internal/config/config.go:464-467 | A quoted string is read as that string, whatever follows it. |
| ConfigReader.IntGives | internal/config/config.go:409-432 | A printed integer is read as that integer. |
| ConfigReader.FieldsRead | internal/config/config.go:368-459 | Any sequence of printed fields is read as their keys and values. |
| ResumableDownload.Store.DownloadOnce | internal/hf/client.go:275-417 | How an attempt ends, error included, from what it meets; success leaves exactly the content at the destination, its length and one copy at the second writer; failure leaves the old temp file or none, it says which; every crash point is safe. |
| ResumableDownload.Store.Receive | internal/hf/client.go:345-416 | The same for the part from the resumed prefix to the rename. |
| ResumableDownload.Store.CopyBody | internal/hf/client.go:399-401 | What arrives is appended, and the temp file is a prefix of the content after every chunk. |
| ResumableDownload.Store.Download | internal/hf/client.go:236-260 | Makes exactly the attempts its specification lists, each resuming where the one before left off; the last is its result; success delivers exactly the content. |
| ResumableDownload.TryAt | internal/hf/client.go:240-258 | Each attempt ends as its world has it; another one follows if and only if it failed with an error that is retried and was not the fourth. |
| ResumableDownload.RetryableIff | internal/hf/client.go:262-273 | An error is retried if and only if one of the six words stands anywhere in it. |
| ResumableDownload.WordIsRetried | internal/hf/client.go:240-258 | A request that ends in an error with one of the words is followed by another, which resumes at the same place, unless it was the fourth. |
| ResumableDownload.CutStartsOver | internal/hf/client.go:399-412 | A body cut by such an error is followed by another attempt, unless it was the fourth, and that one starts from the beginning. |
| ResumableDownload.CompleteIsLast | internal/hf/client.go:307-417 | A complete body, or a complete temp file, ends the download with success where no file operation fails. |
| ResumableDownload.StalledIsLast | internal/hf/client.go:405-408 | An attempt that stalls is the last of its download. |
| ResumableDownload.ReplyRetriedIff | internal/hf/client.go:335-338 | An attempt that gets an error reply is followed by another if and only if the status line holds one of the words and it was not the fourth. |
| ResumableDownload.UsualStatusIsLast | internal/hf/client.go:335-336 | With the usual status lines of 429, 502, 503 and 504 it is the last. |
| ResumableDownload.Store.Lifetime | internal/hf/client.go:236-417 | Over any number of calls cut short by crashes: the temp file stays a prefix and the destination is the old one or the content. |
| ResumableDownload.StalledIsNotRetried | internal/hf/client.go:262-273 | The watchdog's error text fails the retry test. |
| ResumableDownload.StatusRetriedIff | internal/hf/client.go:335-338 | The text of an error reply passes the retry test if and only if the server's status line does. |
| ResumableDownload.PrefixOfContent | internal/hf/client.go:349-400 | What an honest server sends continues the temp file along the content. |
| Text.DistinctIsFirstSeen | internal/torrent/magnet.go:97-119 | The normalized values are exactly the nonempty ones, each once, where first seen. |
| Text.TrimLeaves | internal/torrent/magnet.go:61-106 | Trimming takes only white space away, by the code points of the Unicode table, and leaves none at either end. |
| Text.JoinSplit | internal/model/identity.go:40 | Splitting cuts at every separator and nowhere else: joining gives the text back and no part holds one. |
| Magnet.NormalizeMagnetValues | internal/torrent/magnet.go:97-119 | The loop trims and drops empty and repeated values. |
| Magnet.BuildMagnetFromInfoHash | internal/torrent/magnet.go:53-95 | Accepts exactly 20-byte hashes with an empty or valid v2 hash; prints the parameters in order; reading the result back gives the parameters of the trimmed and normalized inputs. |
| Magnet.HexRoundTrip | internal/torrent/magnet.go:58 | The printed infohash decodes to the bytes. |
| Magnet.HexDigits | internal/torrent/magnet.go:58 | It is two lower-case digits for each byte. |
| Magnet.LowerKeepsValues | internal/torrent/magnet.go:66 | Lowering keeps the length and every digit's value and leaves no capital. |
| Magnet.SameLowerIff | internal/torrent/magnet.go:66 | Two hex texts are printed alike if and only if their digits have the same values. |
| Magnet.EscapeRoundTrip | internal/torrent/magnet.go:80-92 | Form-unescaping undoes the escaping, which leaves no ampersand. |
| Magnet.MagnetRoundTrip | internal/torrent/magnet.go:53-95 | Splitting any such magnet on ampersand and equals sign and unescaping gives back its parameters. |
| Magnet.WhatParamsSay | internal/torrent/magnet.go:53-95 | The parameters hold the infohash, the lowercased v2 hash, the name, and all trackers and webseeds in order. |
| Magnet.MagnetsIdentifyInputs | internal/torrent/magnet.go:53-95 | Equal magnets come only from equal normalized inputs. |
| CacheEviction.Store.EvictLRU | internal/cache/store.go:207-269 | Nothing without a budget or a listing; otherwise the candidates, each counted from its entry, are evicted least recently downloaded first, and freed plus after equals before. Where all are removable the result fits the budget and none that goes was downloaded later than one that stays. |
| CacheEviction.Store.BuildCandidates | internal/cache/store.go:223-235 | Times and sizes with their defaults, and the total. |
| CacheEviction.Store.EvictSorted | internal/cache/store.go:249-266 | What is removed, the counts, and stopping at a failing removal. |
| CacheEviction.EvictsUpTo | internal/cache/store.go:249-266 | Whatever lies under the root and whatever fails: some number of candidates is looked at, each over the budget; exactly those under the root are evicted; and it stops because the rest fits, none is left, or the next cannot be removed. |
| CacheEviction.GoneAreOldest | internal/cache/store.go:242-266 | With removable entries under the root those that go were downloaded no later than those that stay, and the rest fits the budget. |
| CacheEviction.Store.Take | internal/cache/store.go:256-265 | One removal; the clamp never fires. |
| CacheEviction.EvictsShortestPrefix | internal/cache/store.go:249-266 | With removable entries under the root: exactly the shortest prefix of the order that brings the total within the budget. |
| CacheEviction.LastEvictedIsNeeded | internal/cache/store.go:250-252 | Putting the last evicted entry back would exceed the budget. |
| CacheEviction.EvictedWithinTotal | internal/cache/store.go:260-265 | Whatever fails or is skipped, no more is freed than there was. |
| CacheEviction.RemovesOnlyEvicted | internal/cache/store.go:256 | With disjoint directories exactly the evicted entries are gone. |
| CacheEviction.TotalOfPermutation | internal/cache/store.go:242-247 | Sorting does not change the total. |

## Left out

- 64-bit wrap-around: sizes, counts and times are unbounded integers.
- The Merkle, hash and bencode libraries: hashes are free terms defined from BEP 52, and SHA-1 is any function to 20 bytes. The library's layer validation is stated as BEP 52's rule.
- The fields of a job that only feed a display: elapsed time, rate, ETA, peers, and the magnet URI of jobs and entries; seeding jobs.
- Panics and the recover path of a download goroutine, colliding job ids, a limit changed while downloads are active.
- The torrent client, sockets, HTTP, HMAC and signatures: peers, replies, timers and errors are free choices.
- DownloadLimits.ShutdownSteps: polls are bounded in MetadataWait, which has the clock; the interleavings have none for downloads.
- EventProtocol.WakeUpIsKept: a queue whose listing fails for ever delivers nothing; what makes a listing fail is not modelled.
- DownloadProtocol.StepKeepsInv: status polls change nothing here; the elapsed and ETA fields they refresh are not modelled.
- LanIndex.Index.Update: the sender's address is a parameter that is already printed; IPv6 and the unmapping of IPv4-in-IPv6 addresses are not modelled. The cutoffs compare whole clock readings.
- LanRate.RateBound: arrival times are nondecreasing, as the readings of Go's monotonic clock in one receive loop are.
- Snapshot is the value of the index's map, so it has no method of its own.
- LanProjection.SummarizeLANSeen: sorting is any sort by the same order; Go's sort.Slice is not stable, which does not matter because no two rows are equal in it.
- The rows of the status line and the answer to a single-model query, which use the same functions.
- EventProtocol.ReachableEvents: file names are taken to be distinct, as their time and random suffix make them; how the publisher's key and signature are computed is not modelled, only that they may change.
- Two workers on one queue directory, and removal of files left under a temporary name, which the source does not do either.
- ConfigPrinter.StrippingRendered: the wording of the printed comments is a parameter, any lines without a line end. Passwords and tags, which the printer omits, are not modelled; the reader knows objects, strings, integers and booleans, and how Go's decoder puts values into struct fields is not part of it.
- ConfigPrinter.QuoteRoundTrip: bytes that are not UTF-8, which Go's encoder replaces, are copied here; surrogate escapes, which the printer never writes, are not read.
- ResumableDownload.Store.Download: context cancellation, pauses between attempts and progress reports; what the second writer holds after several attempts, since it is not reset between them. Loss of written data by the operating system after a rename.
- Magnet.BuildMagnetFromInfoHash: writes to the string builder are concatenations.
- CacheEviction.Store.EvictLRU: the listing of the cache directory, the test for being under the root and the outcome of each removal are parameters; a removal that fails removes nothing.
- Commands, tray, dashboard, policy getters, activity buffers and runtime detection: user interface and one-function helpers.
