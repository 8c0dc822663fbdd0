# FlagPlane: versioned propagation, verified

FlagPlane stores feature flags in PostgreSQL, numbers every change with a global
version, announces changes over a lossy bus and event streams, and lets clients
repair whatever they missed from a durable event log. This project models that
protocol in Dafny and proves its central promise: **whatever mix of live frames,
losses, repeats, cuts, stale pages and reconnects a client goes through, it
holds exactly the replay of the event log up to its own version** - together with
the exact conditions under which snapshots and commit order can break it.
`dafny verify dfyconfig.toml` checks everything.

## Structure

| file | what it models |
|---|---|
| `FlagModel.dfy`, `EventLog.dfy` | flags, events, frames; the log and its replay, the reference meaning |
| `Repository.dfy` | the store over its database: counter, table, log, with failing transactions |
| `FlagService.dfy` | validate, write, then publish |
| `Handler.dfy` | the snapshot endpoint and the page endpoint |
| `Sdk.dfy`, `Clients.dfy` | what pages and frames do to a client; both SDK clients as objects |
| `Convergence.dfy` | whole connections, and the browser client's awaits |
| `Snapshots.dfy` | snapshots that do not fit what follows them: torn ones, and old ones met by a newer page |
| `Propagation.dfy` | the whole system as one transition system, and its runs |
| `Broker.dfy`, `Wire.dfy` | the fan-out loop, its handlers and channels; the bus subscriber |
| `SseText.dfy` | the event stream as bytes: printer, scanner, line parser |
| `Evaluation.dfy` | buckets and verdicts in Go and TypeScript |
| `Transactions.dfy` | the store again, statement by statement, under READ COMMITTED and row locks |
| `Unseen.dfy` | when a client that passed versions unseen still reads like the log |
| `LateCommits.dfy` | clients over that store: what a commit below their version does to them |
| `StatementSystem.dfy` | the whole system over that store, and its runs |
| `Migrations.dfy` | the migration runner, one replica and many |

Code that updates fields is a class whose methods are tied to a specification
function (`CreateTx`, `ReconcileFrom`, `Broadcasted`, `FeedFields`, ...); the
properties are then proved about those functions and about runs built from them.
What such a function means is stated a second time without it: field by field for
the store (`UpdateMeans`), by the published frames and the log for the service
(`Announced`), page by page for the reconcile loop (`ReconcileLaw`), channel by
channel for the event loop, by the deciding rule for the explained evaluation
(`TraceIsHonest`), and as progress of every step of both systems (`StepMoves`).

## Hypotheses

- **Commit order.** A version is drawn before the row is written, so commits may
  become visible out of version order. `Repository`, `FlagService` and
  `Propagation` take a transaction as one atomic step, where log order is commit
  order. `Transactions`, `LateCommits` and `StatementSystem` drop the hypothesis:
  they prove what still holds (uniqueness, optimistic writes, toggles), exactly
  when a client holds the replay of the log, through whole runs with frames, pages
  and snapshots under way (`StatementSystem.ReplayInvariant`), and exactly when
  the log as a whole still agrees with the table (`Transactions.LogAgreesIff`),
  with three runs where they do not.
- **Snapshots.** The snapshot endpoint reads the table and then the version, and a
  client may install a snapshot at any time. `Propagation` allows both: a client
  holds the replay in every state of a run exactly when each snapshot it installed
  was whole and each page it applied was harmless (`ReplayInvariant`). A client
  that bootstraps once, first of all, from a snapshot with no commit between its
  reads meets this always (`SteadyClientReplays`); two runs show it failing.
- **Base table.** The store starts empty: rows from before versioning have
  version 0, no event and no id on the wire.
- **Lookups.** A delete publishes the key an earlier read returned; the model
  only lets it use an id and key that were really read (`Propagation.Lookup`). A
  created flag's random id was never used before.
- **Broadcast** is one step although the loop sends to its clients one by one: a
  send to one client commutes with every take by another, and a client's own take
  can be moved before the broadcast or after it, so each interleaving has the
  effect of some order of whole broadcasts and takes.
- **Pages** hold at most 500 events; committed versions may have gaps, because a
  failed write keeps its version (`docs/CHAOS.md`, lines 155 to 165).

## Where code and documentation differ

- `backend/pkg/ffclient/stream.go` promises in lines 11 to 13 a reconcile after
  every connect; the loop (lines 29 to 33) reconciles before connecting. So what
  is committed between that reconcile and the registration of the stream stays
  unseen until some later commit: `Convergence.ConnectionConverges` is the exact
  condition, `Convergence.UnseenCommit` a failing case. The broker also sends its
  headers before it registers the connection (`backend/internal/sse/broker.go`,
  lines 152 to 165), so a reconcile triggered by the browser's open event can come
  too early in the same way.
- `frontend/sdk/FeatureFlagClient.ts` says overlapping reconcile triggers do not
  double-run; a gap seen while one is waiting is in fact dropped. Through any
  frames and answers until that reconcile ends, the client reaches the frame
  exactly if it was already there before the last answer, or that answer is a page
  whose log held the event and which gets to it
  (`Convergence.SwallowedFrameReachedIff`). If no frame is heard on the way, this
  comes down to the awaited page advancing the client and the rest fitting the
  rounds left before a refused request (`Convergence.SwallowedGap`). Three cases miss
  it: the awaited page brings nothing (`SwallowedFrameIsMissed`), a later request
  is refused (`RefusedRestStops`), live frames overtake the page
  (`OvertakenPageStops`).
- Both clients take a page without a new version to mean that they are caught up
  (`frontend/sdk/FeatureFlagClient.ts`, line 268; `backend/pkg/ffclient/ffclient.go`,
  line 190). With live frames or another caller applying meanwhile it can also be a
  full page that the client has overtaken, with more to come:
  `Convergence.NothingNewIff`.
- `backend/pkg/ffclient/ffclient.go` calls its rollout byte-for-byte identical to
  the browser's (lines 251 to 253). One hashes UTF-8 bytes, the other UTF-16 code
  units: the same input exactly on ASCII. `Evaluation.NonAsciiUserSplits` is an
  id on which the verdicts differ.
- `docs/CHAOS.md` (lines 25 to 27) promises that a healthy client converges to the
  latest committed version. With commits out of version order this fails in two
  ways. A client that has read past a version that is not committed yet is never
  served it: it stays in step exactly when every such commit is overtaken on its
  key at or below the client's version, or deletes what the client does not have
  (`LateCommits.ClientInStepIff`; `LateCommits.OvertakenClient` is a run where the
  log is complete, equals the table, and the client misses a flag for good). And
  the log as a whole can end up saying something else than the table, exactly when
  some key's highest version is not its last word (`Transactions.LogAgreesIff`,
  with the runs `LateCommitSplitsClients` and `PhantomDeleteSplitsClients`).
- The line parser drops a carriage return before a line's end even when the stream
  was cut there. `SseText.CutAnywhere` is the exact condition; nothing the server
  writes meets it (`SseText.CutWritten`).

## Model

| member | source | states |
|---|---|---|
| EventLog.LastWriter | backend/migrations/002_add_versioning.sql:13-19 | every flag of a replay was put there, unchanged, by its key's last event |
| EventLog.LastEventDecides | backend/migrations/002_add_versioning.sql:13-19 | a key is present in a replay exactly when its last event is no deletion, and then holds that event's flag |
| EventLog.CountStable | backend/internal/repository/flag_repository.go:344-355 | newer events never change how many events lie at or below a version already in the log, nor the flags at that version |
| Repository.FlagRepository.NextVersion | backend/internal/repository/flag_repository.go:55-59 | the sequence moves on by one, outside the transaction |
| Repository.FlagRepository.Create | backend/internal/repository/flag_repository.go:75-103 | inserts the row, field by field the draft's, and its created event under a new version, also when the answer to the commit is lost; or fails on a fault, a taken key or a table constraint and keeps only the burned version |
| Repository.FlagRepository.GetByID | backend/internal/repository/flag_repository.go:105-117 | returns the stored row, not found, or the database's failure |
| Repository.FlagRepository.GetByKey | backend/internal/repository/flag_repository.go:119-131 | finds a row exactly when some row has the key, and returns one with that key |
| Repository.FlagRepository.Update | backend/internal/repository/flag_repository.go:156-232 | no fields: just the row, no version; else burns a version and answers not found exactly if the id is missing, conflict exactly if an expected version is not the row's; or changes exactly the given fields of that row and logs it, reported or not |
| Repository.SetClauses | backend/internal/repository/flag_repository.go:158-181 | the clause list is empty exactly when no field is given, and run on any row it changes exactly the given fields |
| Repository.FlagRepository.Toggle | backend/internal/repository/flag_repository.go:236-268 | flips the row's switch, keeps every other field, takes a new version and logs it, reported or not; or burns the version and changes nothing |
| Repository.FlagRepository.Delete | backend/internal/repository/flag_repository.go:270-303 | looks the key up before taking a version, then removes the row and logs the removal under that key, reported or not |
| Repository.FlagRepository.GetLatestVersion | backend/internal/repository/flag_repository.go:307-312 | the highest committed event version, 0 for an empty log, or the query's failure |
| Repository.FlagRepository.ListEventsSince | backend/internal/repository/flag_repository.go:344-372 | exactly the events after the version, oldest first, at most 500 for limits of 0 and less, at most 1000 for larger ones, or the query's failure |
| Repository.CommitKeepsInv | backend/internal/repository/flag_repository.go:75-303 | one commit of a fitting event keeps table and replayed log the same, versions increasing and bounded by the counter, and ids bound to one key |
| Repository.StepKeepsInv | backend/internal/repository/flag_repository.go:75-303 | every transaction, failed or not, keeps the store invariant, only appends to the log and never lowers the counter |
| Repository.CreateSteps | backend/internal/repository/flag_repository.go:75-103 | a create is a no-op, a burned version or one fitting commit |
| Repository.UpdateSteps | backend/internal/repository/flag_repository.go:156-232 | an update is a no-op, a burned version or one fitting commit |
| Repository.ToggleSteps | backend/internal/repository/flag_repository.go:236-268 | a toggle is a no-op, a burned version or one fitting commit |
| Repository.DeleteSteps | backend/internal/repository/flag_repository.go:270-303 | a delete is a no-op, a burned version or one fitting commit |
| Repository.CreateIsMeant | backend/internal/repository/flag_repository.go:75-103 | independently of how it is computed: which faults and constraints burn a version or not, and the new row field by field; no other row, one event |
| Repository.UpdateIsMeant | backend/internal/repository/flag_repository.go:156-232 | independently of how it is computed: not found exactly for a missing id, conflict exactly for an expected version other than the row's, both without change; else each given field is the patch's, each other the old row's, one event, no other row |
| Repository.ToggleIsMeant | backend/internal/repository/flag_repository.go:236-268 | independently of how it is computed: the switch is flipped, everything else kept but the version, one event, no other row; not found exactly for a missing id |
| Repository.DeleteIsMeant | backend/internal/repository/flag_repository.go:270-303 | independently of how it is computed: the row is gone, one event under its key, no other row; not found, without using a version, exactly for a missing id |
| Repository.RowIsLastEvent | backend/internal/repository/flag_repository.go:61-73 | each row is its key's last event: same content, same version, nothing newer for that key |
| Repository.SnapshotIsReplay | backend/internal/repository/flag_repository.go:133-151 | the flag map built from any full listing of the table is the replay of the whole log |
| FlagService.Service.CreateFlag | backend/internal/service/flag_service.go:48-86 | validates key and percentage, refuses a known key, writes, and publishes one frame, the log's new last event, exactly when the write succeeded and was reported |
| FlagService.Service.UpdateFlag | backend/internal/service/flag_service.go:96-111 | validates, writes, and publishes one frame, the log's new last event; an update without fields publishes the stored row; any other call nothing |
| FlagService.Service.ToggleFlag | backend/internal/service/flag_service.go:131-142 | toggles and publishes one frame, the log's new last event, exactly when a row was changed and reported |
| FlagService.Service.DeleteFlag | backend/internal/service/flag_service.go:113-129 | reads the row first, deletes, and publishes one frame, the log's new last event, exactly when a row was deleted and reported |
| FlagService.Service.Publish | backend/internal/service/flag_service.go:172-205 | appends the frame to what is published and touches nothing else |
| FlagService.ServeKeepsInv | backend/internal/service/flag_service.go:48-142 | every service call keeps the store invariant and only appends to the log |
| FlagService.TableEqualsLog | backend/internal/repository/flag_repository.go:75-303 | after any history of calls, failed, burned, committed but unreported, deleted and recreated ones included, table equals replayed log, each row's version is its key's last event's, and the log increases strictly, up to the counter |
| FlagService.ServedFrameAgrees | backend/internal/service/flag_service.go:80-142 | what a call publishes has version at least 1, is already committed under it, and is that event's change |
| FlagService.ServeAnnounces | backend/internal/service/flag_service.go:48-142 | of each of the four calls: whenever the log grew and the reply was not lost, exactly one frame is published and it carries the log's last event; an update without fields publishes its row; nothing else is published; which calls are turned away |
| FlagService.RepublishedRowAgrees | backend/internal/repository/flag_repository.go:178-181 | an update without fields publishes the stored row again, and its old version's event is that very change |
| Handler.ClientHandler.GetAllFlags | backend/internal/handler/client_handler.go:23-68 | lists the table and adds the version read afterwards, or fails with either read; the answer is a true snapshot exactly when every key committed in between is absent before and after |
| Handler.ClientHandler.Reconcile | backend/internal/handler/client_handler.go:77-106 | refuses exactly a malformed or negative version, fails exactly with either read, else answers the events after it, as many as there are up to 500, and the version read later |
| Handler.RequestIsAnswered | backend/internal/handler/client_handler.go:79-89 | a printed version up to the 64-bit maximum, or none meaning 0, is answered by the page after it and the version of the later read; a larger one is refused |
| Handler.RefusedIff | backend/internal/handler/client_handler.go:79-86 | exactly the texts are refused that are not empty and no digits, with or without a sign, of a number from 0 to the 64-bit maximum |
| Sdk.VersionNeverFalls | backend/pkg/ffclient/ffclient.go:180-189 | applying any page never lowers the version, and leaves the client unchanged if the version stays |
| Sdk.StalePage | backend/pkg/ffclient/ffclient.go:155-189 | a page asked for at an older version and applied late leaves the client at the replay up to the larger of its version and the page's last one |
| Sdk.LiveFrameKeepsStep | backend/pkg/ffclient/ffclient.go:216-240 | a frame that announces a logged event keeps the client in step with the log; exactly a real gap asks for a reconcile |
| Sdk.ReconcileLaw | backend/pkg/ffclient/ffclient.go:153-177 | whatever answers the requests: the client ends as exactly the pages before the first refused request made it; the loop fails exactly at such a request; else it stops at the guard or at the first page without news; and how many requests it made |
| Sdk.DrainFrom | backend/pkg/ffclient/ffclient.go:153-197 | from any point of the loop: how far the remaining rounds get and how many requests they make |
| Sdk.ReconcileDrains | backend/pkg/ffclient/ffclient.go:153-197 | on a fixed log with n events to go: min(ceil(n/500)+1, guard) requests, and the full replay is reached exactly when n <= 500*guard |
| Sdk.GuardDrains | backend/pkg/ffclient/ffclient.go:153-197 | a whole reconcile reaches the full replay exactly if no more than 50,000,000 events are missing in the Go client, 5,000,000 in the browser |
| Sdk.GapHealing | backend/pkg/ffclient/stream.go:93-109 | against a growing log and any refused requests the client stays in step; a processed frame's version is reached exactly when there was no gap or the backlog up to it fits the requests answered before the first refused one or the guard |
| Sdk.ReconcileCatchesUp | backend/pkg/ffclient/stream.go:29-31 | the reconcile of a connection attempt, against a growing log and any refused requests: in step always, and with all that was committed when it began exactly if that fits the requests answered before the first refused one or the guard |
| Convergence.ArrivalHandled | backend/pkg/ffclient/stream.go:22-33 | one live frame, or the reconcile a reconnect begins with: in step and never back, and at the frame's version, or at all that was committed by then, exactly when it was next in line or fits the requests answered |
| Convergence.FramesReached | backend/pkg/ffclient/stream.go:85-121 | through any frames, lost, repeated and reordered as they may be, any reconnects, any refused requests and a growing log, the client is in step after each; and never behind a frame it has handled, or a log it has reconnected to, if each was next in line or within its reconcile's reach |
| Convergence.NewestFrameSuffices | backend/pkg/ffclient/stream.go:85-121 | one frame for the newest event, or one reconnect after it was committed, whatever else was lost, repeated or reordered, and the client holds the whole log |
| Convergence.ConnectionConverges | backend/pkg/ffclient/stream.go:22-51 | reconcile first, connect second: a loss-free stream leaves the client with the whole log exactly when nothing was committed in between or something was committed later |
| Convergence.UnseenCommit | backend/pkg/ffclient/stream.go:29-33 | the failing side: a flag committed in between and nothing after it stays unseen on that connection |
| Convergence.FinishIsReconcile | frontend/sdk/FeatureFlagClient.ts:232-278 | undisturbed, the rounds cut at each await compute the plain reconcile loop |
| Convergence.BrowserDrains | frontend/sdk/FeatureFlagClient.ts:232-277 | the browser's whole reconcile, undisturbed from its start, reaches the full replay exactly if no more than 5,000,000 events are missing |
| Convergence.SwallowedFrameReachedIff | frontend/sdk/FeatureFlagClient.ts:215-277 | a gap seen while a reconcile waits starts nothing; through any frames and any answers until it ends, the frame is reached exactly if the client was there before the last answer, or that is a page whose log held the event and which gets to it |
| Convergence.SwallowedGap | frontend/sdk/FeatureFlagClient.ts:215-277 | the case where no frame is heard in between: reached exactly when the awaited page advances the client and the rest fits the rounds left before a refused request |
| Convergence.NothingNewIff | frontend/sdk/FeatureFlagClient.ts:268-269 | a page brings nothing new exactly if the client is at the end of the log or has overtaken a full page |
| Convergence.OvertakenPageStops | frontend/sdk/FeatureFlagClient.ts:248-269 | a failing case: live frames overtake the awaited page, the reconcile ends as if caught up, short of the frame |
| Convergence.RefusedRestStops | frontend/sdk/FeatureFlagClient.ts:243-253 | a failing case: the awaited page advances the client, the next request is refused |
| Convergence.SwallowedFrameIsMissed | frontend/sdk/FeatureFlagClient.ts:218-233 | the failing side: a page served before two commits, the first frame lost, the second swallowed |
| Clients.GoClient.Bootstrap | backend/pkg/ffclient/ffclient.go:82-110 | replaces flags and version by the snapshot's, or changes nothing when the request fails |
| Clients.GoClient.ApplyLocked | backend/pkg/ffclient/ffclient.go:200-211 | applies one event and moves to its version even when the payload has no key |
| Clients.GoClient.ApplyEvents | backend/pkg/ffclient/ffclient.go:180-194 | applies a page in order, skips what is already applied, and reports progress exactly when the version moved |
| Clients.GoClient.Reconcile | backend/pkg/ffclient/ffclient.go:153-197 | the loop computes the specified reconcile, with guard 100000, request count and error result; a refused request keeps exactly what earlier pages brought (`Sdk.ReconcileLaw`) |
| Clients.GoClient.ApplyLiveEvent | backend/pkg/ffclient/ffclient.go:216-240 | stale frames ignored, the exact next one applied, a gap reported without change |
| Clients.GoClient.Dispatch | backend/pkg/ffclient/stream.go:93-109 | one frame off the stream is applied or healed by an inline reconcile |
| Clients.TsClient.Bootstrap | frontend/sdk/FeatureFlagClient.ts:66-82 | replaces the flags, and the version if one was sent, or changes nothing when the request fails |
| Clients.TsClient.Reconcile | frontend/sdk/FeatureFlagClient.ts:232-247 | starts at most one reconcile at a time, asking from the current version |
| Clients.TsClient.OnResponse | frontend/sdk/FeatureFlagClient.ts:248-277 | applies the page, then asks again or ends, and always ends with the guard released |
| Clients.TsClient.ApplyEvent | frontend/sdk/FeatureFlagClient.ts:215-225 | stale frames ignored, the exact next one applied, a gap handed to reconcile |
| Evaluation.JsRound | frontend/sdk/FeatureFlagClient.ts:20-22 | one round through signed 32-bit xor, imul and unsigned shift equals the unsigned 32-bit round |
| Evaluation.Fnv1a32 | frontend/sdk/FeatureFlagClient.ts:17-25 | the TypeScript loop computes unsigned 32-bit FNV-1a on every string of code units |
| Evaluation.SameInputIffAscii | backend/pkg/ffclient/ffclient.go:261-263 | UTF-8 bytes and UTF-16 code units are the same sequence exactly on ASCII text |
| Evaluation.Utf8Decodes | backend/pkg/ffclient/ffclient.go:261-263 | the bytes hashed in Go decode to the character, for all four lengths |
| Evaluation.Utf16Decodes | frontend/sdk/FeatureFlagClient.ts:17-25 | the code units hashed in the browser decode to the character, surrogate pairs included |
| Evaluation.SameBucket | frontend/lib/evaluate.ts:68-70 | for a valid key and any ASCII user both languages compute the same bucket |
| Evaluation.VerdictMeaning | backend/pkg/ffclient/ffclient.go:112-127 | each language's verdict is: flag on, and user targeted or bucket below the percentage, for every user id |
| Evaluation.TraceIsHonest | frontend/lib/evaluate.ts:76-160 | the verdict is the rule's, each of the seven reasons is given exactly under its own rule, percentage, target mark, switch and hashed text are the flag's, and a bucket is shown exactly when it decided, is the hash of the shown text, and lies below the shown percentage exactly for the verdict on |
| Evaluation.VerdictParity | frontend/lib/evaluate.ts:76-160 | TypeScript client, explained evaluation and Go client give the same verdict on every flag and every ASCII user |
| Evaluation.AgreeEverywhereIffSameBucket | backend/internal/hash/rollout.go:7-19 | for any user id the two rollouts agree at every percentage exactly when the buckets are equal |
| Evaluation.NonAsciiUserSplits | backend/pkg/ffclient/ffclient.go:251-264 | key "a", user U+00E9, percentage 18 to 30: on in the browser, off in Go |
| Propagation.StepKeepsInv | backend/internal/service/flag_service.go:48-205 | every step of the system keeps store, bus, versions, requests, answers and snapshots in agreement with the log, whatever clients do |
| Propagation.StepReplaysIff | backend/pkg/ffclient/ffclient.go:82-240 | from a state where a client replays the log, a step leads to another one exactly if it installs no torn snapshot and no page whose distance to the client matters |
| Propagation.StepMoves | backend/pkg/ffclient/ffclient.go:82-240 | what each step brings about: the next frame, a page's end or a snapshot takes the client's version there and nothing else moves it; a request is answered by all there is after its version up to 500 events; a call's frame reaches the bus |
| Propagation.ReplayInvariant | backend/pkg/ffclient/ffclient.go:147-240 | through any run a client holds the replay up to its version in every state exactly when each snapshot it installed was whole and each page it applied was harmless |
| Propagation.SteadyClientReplays | backend/pkg/ffclient/stream.go:11-20 | a client that bootstraps from untorn snapshots and never from an older one replays the log in every state of every run, and its version never falls |
| Propagation.VersionsNeverFall | docs/CHAOS.md:37 | along a run a client that never installs an older snapshot never loses version; clients keep their kind and the log is only appended to |
| Propagation.FramesAgreeWithLog | backend/internal/sse/wire.go:37-69 | every frame ever published names a committed version and acts on any flag map as that event |
| Propagation.VerdictDeterminedByVersion | docs/CHAOS.md:38 | any two soundly fed clients of either kind that reached the same version, at whatever moments, hold the same flags and give every ASCII user the same verdict |
| Propagation.StickyCohort | backend/internal/hash/rollout.go:5-19 | while a key's events only widen it, no soundly fed client moving forward by any mix of paths ever turns any user off |
| Snapshots.TwoReadSnapshot | backend/internal/handler/client_handler.go:24-57 | with commits between the two reads the answer is a true snapshot exactly when every touched key is absent before and after |
| Snapshots.PageKeepsStepIff | backend/pkg/ffclient/ffclient.go:155-189 | a page of the log applied to a client behind or ahead of it keeps it in step exactly when every key written in the gap is written again by the page or absent on both sides |
| Propagation.SecondBootstrapRun | backend/pkg/ffclient/ffclient.go:102-108 | a run where an old snapshot is installed while a page is awaited: the client ends at the newest version and misses a flag for good |
| Propagation.TornSnapshotRun | backend/internal/handler/client_handler.go:24-57 | a run where a flag is created between the two reads: the client has its version and never the flag |
| Broker.EventLoop.OnRegister | backend/internal/sse/broker.go:82-85 | adds the client |
| Broker.EventLoop.OnUnregister | backend/internal/sse/broker.go:87-93 | removes and closes a client still in the map, buffer untouched, otherwise does nothing |
| Broker.EventLoop.OnBroadcast | backend/internal/sse/broker.go:95-104 | in whatever map order: exactly the clients with fewer than 16 buffered get the event and stay, all others are removed and closed with their buffers untouched |
| Broker.EventLoop.OnShutdown | backend/internal/sse/broker.go:70-80 | removes and closes every client, keeps every buffer as it was, leaves every other channel alone, then signals done |
| Broker.StepKeepsInv | backend/internal/sse/broker.go:67-228 | every step of loop and handlers keeps the node invariant; no send or close ever hits a closed channel |
| Broker.StreamContiguity | backend/internal/sse/broker.go:95-104 | what a connection took and has buffered is one unbroken piece of the broadcasts from its registration, at most 16 buffered; while served it reaches the newest broadcast exactly if it was not dropped for one, also through a shutdown; a dropped one ends right before the event it could not take |
| Broker.CompleteAtClose | backend/internal/sse/broker.go:207-216 | a handler that ends because its channel was closed has received every broadcast since its registration, up to the one it was dropped for if any: a shutdown loses nothing buffered |
| Broker.MapIsOpenClients | backend/internal/sse/broker.go:82-104 | a client is in the map exactly while registered and open, and nothing ever panics |
| Broker.ClosedForGood | backend/internal/sse/broker.go:87-104 | a closed channel stays closed, is never closed again and never given another event |
| Broker.NothingBlocks | backend/internal/sse/broker.go:114-174 | every pending register, unregister, broadcast and count has an enabled arm, and after done every registered channel is closed |
| Broker.WindsDown | backend/internal/sse/broker.go:167-216 | after done a connection has at most 18 steps left, its own steps use them up and nobody else's add any |
| Broker.ClientSeesBroadcasts | backend/internal/sse/broker.go:207-227 | through printing, comments and a cut at any byte, the Go client dispatches the broadcasts since registration, whole, in order, without a hole |
| Wire.Subscriber.Subscribe | backend/internal/sse/wire.go:82-129 | broadcasts exactly the envelopes that can be decoded, in the order received |
| Wire.DecodedParts | backend/internal/sse/wire.go:111-129 | decoding goes envelope by envelope, keeps order, and skips exactly what cannot be decoded |
| Wire.BurstFillsThenDrops | backend/internal/sse/broker.go:95-103 | a client that takes nothing from a burst ends with exactly the first events that fit, and stays in the map exactly when all did |
| SseText.VersionRoundTrip | backend/pkg/ffclient/ffclient.go:266-277 | every version up to the 64-bit maximum is read back from its decimal |
| SseText.ParseIntIff | backend/pkg/ffclient/ffclient.go:266-277 | a text is read as a number exactly if it is its digits with an optional sign, within 64 bits |
| SseText.TrimMeans | backend/pkg/ffclient/stream.go:96-112 | trimming takes white space off both ends, all of it and nothing else |
| SseText.LineParser.Feed | backend/pkg/ffclient/stream.go:90-119 | one line: dispatch and reset on a blank one, ignore comments and unknown lines, replace event or id, append data |
| SseText.Stream | backend/pkg/ffclient/stream.go:85-121 | the scan loop computes the specified parse, and reports a line too long for its buffer |
| SseText.RoundTrip | backend/internal/sse/broker.go:218-221 | parsing a written stream dispatches exactly its messages with data, in order, with event, data and version, up to the first that exceeds the 1 MiB line limit |
| SseText.CutAnywhere | backend/pkg/ffclient/stream.go:88-121 | a cut makes the client dispatch a prefix of the events of every stream that goes on from there exactly if it does not fall right after a bare carriage return while data is pending |
| SseText.CutWritten | backend/internal/sse/broker.go:177-221 | what the server writes can be cut at any byte |
| SseText.BareCRCutInventsEvent | backend/pkg/ffclient/stream.go:85-95 | a family of such cuts: one dispatches an event the whole stream does not contain |
| Transactions.StepKeepsInv | backend/internal/repository/flag_repository.go:183-230 | every statement, commit and abort keeps versions unique, row locks exclusive, ids fresh and each row's commits an unbroken chain |
| Transactions.AloneIsAtomic | backend/internal/repository/flag_repository.go:75-268 | a create, update or toggle run statement by statement with nothing else in flight does what the atomic transaction does: its row statement applies exactly when that answers a row, same table, counter and event |
| Transactions.DeleteAloneIsAtomic | backend/internal/repository/flag_repository.go:270-303 | the same for a delete with its key lookup |
| Transactions.NoReturn | backend/internal/repository/flag_repository.go:189-206 | no row ever returns to a version it has left, even when commits are out of version order |
| Transactions.OptimisticOnce | backend/internal/repository/flag_repository.go:195-230 | per flag and expected version at most one conditional update commits, on exactly the row that carried that version |
| Transactions.EventVersionsDistinct | backend/internal/repository/flag_repository.go:62-68 | all committed event versions are distinct and handed out |
| Transactions.NoLostToggles | backend/internal/repository/flag_repository.go:236-268 | a flag changed only by toggles is its initial value flipped once per committed toggle |
| Transactions.TableIsRealReplay | backend/internal/repository/flag_repository.go:270-303 | in commit order the table is always the replay of the commits that hit a row |
| Transactions.LogAgreesIff | backend/internal/repository/flag_repository.go:344-355 | the whole log read in version order agrees with the table exactly when each key's highest version is its last word: a flag with no real commit after it, or a deletion whose key's last real commit, if any, is one |
| Transactions.InOrderCommitsAgree | backend/internal/repository/flag_repository.go:344-355 | commits in version order whose deletes all remove a row suffice for that |
| Transactions.LateCommitSplitsClients | backend/internal/repository/flag_repository.go:244-264 | a run of two toggles with swapped commits: the table ends with the older version's value, every replay of the whole log with the newer one's |
| Transactions.PhantomDeleteSplitsClients | backend/internal/repository/flag_repository.go:291-299 | a run where a second delete removes no row, yet its event removes the recreated flag from every replay |
| Unseen.InStepIffNothingMissed | backend/pkg/ffclient/ffclient.go:180-189 | a client in step with one log that applies any page of a log that has grown in the middle is in step with it exactly when each event it passed unseen is written over at or below its new version, or deletes what it does not have |
| LateCommits.ClientInStepIff | docs/CHAOS.md:25-27 | over runs: in step with the log of one state, it is in step with that of a later state exactly when that holds of every commit made in between at or below its version |
| LateCommits.ReadInStepIff | backend/pkg/ffclient/ffclient.go:153-197 | over runs, for a client that reads its next page from the later log: in step afterwards exactly when every such commit is overtaken at or below where the page takes it, or has no effect |
| LateCommits.PollingInStepIff | backend/pkg/ffclient/ffclient.go:153-197 | a client that pages through the log while transactions commit in any order is in step at every read exactly when that holds between its reads |
| LateCommits.ServedInOrder | docs/CHAOS.md:25-27 | in particular while nothing commits at or below a version it has already been served |
| LateCommits.OvertakenClient | backend/internal/repository/flag_repository.go:83-102 | a run where version 2 commits before version 1: log and table agree, but a client that read in between has passed version 1, gets an empty page, ignores the late frame and misses the flag for good |
| StatementSystem.StepKeepsInv | backend/internal/repository/flag_repository.go:183-230 | statements, commits, reads and deliveries in any order keep database, log, pages, listings and snapshots consistent, whatever clients do |
| StatementSystem.BootReplaysIff | backend/internal/handler/client_handler.go:24-57 | a snapshot of its two reads, installed at any later time, is in step exactly when for every key the newest commit up to its version is what the table said |
| StatementSystem.PageReplaysIff | backend/pkg/ffclient/ffclient.go:155-189 | a page read at any earlier time keeps a client in step exactly when each event it takes the client past unserved is overtaken at or below the new version, or deletes what the client lacks |
| StatementSystem.StoredRowIsPublished | backend/internal/repository/flag_repository.go:178-181 | a row published again is the frame of the commit that wrote it |
| StatementSystem.StepReplaysIff | backend/pkg/ffclient/ffclient.go:82-240 | from a state where a client replays the log, a step leads to another one exactly if it is sound: no commit slips in below the client's version and matters, no page skips what matters, no snapshot is torn |
| StatementSystem.StepMoves | backend/pkg/ffclient/ffclient.go:82-240 | the same for the statement-level system; a commit adds exactly its event to the log, in version order |
| StatementSystem.ReplayInvariant | docs/CHAOS.md:25-27 | without any hypothesis on commit order: through any run a client holds the replay up to its version in every state exactly when every step was sound for it |
| Migrations.Migrator.ApplyOne | backend/internal/migrate/migrate.go:74-92 | body and bookkeeping row take effect together or not at all, and a recorded file is refused |
| Migrations.Migrator.Run | backend/internal/migrate/migrate.go:26-72 | started on any prefix of the sorted files, a run succeeds with all applied in order exactly if setup, every check and every unapplied file succeed; else it stops at the first failure with the files before it applied; a full set is never changed |
| Migrations.StepKeepsInv | backend/internal/migrate/migrate.go:26-92 | whatever replica acts, crashes or loses the lock, no file is applied before all earlier ones |
| Migrations.AppliedIsPrefix | backend/internal/migrate/migrate.go:21-72 | the bodies in effect are always the first files, in order, each once; a run that ends well leaves all applied |
| Migrations.FurtherRunsChangeNothing | backend/internal/migrate/migrate.go:23-25 | once all files are applied, no further run changes anything |
| Migrations.SoloFinishes | backend/internal/migrate/migrate.go:44-92 | a replica that works on without a failure, whatever others did before, ends well with every file applied, each once and in order |
| Migrations.LockPreventsCollisions | backend/internal/migrate/migrate.go:15-19 | while the lock is kept and nobody dies inside a commit, no two replicas work at once and no commit collides |

## Left out

- HTTP, JSON, PostgreSQL and Redis drivers, TLS, CORS, authentication, proxying: only their effect, as commit or rollback, page or refusal, and a bag of frames.
- The JSON between the typed frames of `Propagation` and the text of `SseText`: payloads are typed on one side and opaque single-line text on the other. `Clients.TsClient` and `Clients.GoClient` therefore never meet a payload that cannot be decoded.
- Timers: heartbeats are comment frames, an idle or failed connection is a handler that leaves, backoff is not modelled. Unconditional liveness is not claimed.
- The fallback version for frames without an id: frames of version 0 cannot arise from an empty base table.
- The browser's own event-stream parser, connection status, listeners and the refresh timer.
- Non-ASCII user ids in the parity claim: `VerdictParity` stops at ASCII. Beyond it the inputs hashed always differ (`SameInputIffAscii`), but two different inputs may still share a bucket.
- Timestamps, the SQL text, the list order of the table, history queries by flag, the client count of a node.
- 64-bit overflow of the version counter and the precision of JavaScript numbers.
- White space beyond ASCII in the parser's trimming, and byte sequences that are not one character per byte.
- The library sort of migration file names: a run gets them sorted and distinct.
- Metrics, tracing, logging, the user interface, and the chaos, soak and load tools.
- Clients.GoClient.Reconcile: the answers are given by a function of request number and version, so another goroutine moving the same client between two requests is not part of this method; `Propagation` and `StatementSystem` cover it with any number of requests in flight, and `Convergence.NothingNewIff` what it does to the loop's exit.
- The statement-level system publishes a deletion under its event's key; the service's own earlier lookup of that key, the same for good because an id keeps its key, is part of `FlagService` only.
- Broker.EventLoop.OnBroadcast: the select between several ready arms is a free choice of the next step in `Broker.Run`'s state machine; handlers are modelled as phases of that machine rather than as loops.
- Convergence.ConnectionConverges: loss-free streams only, and every reconcile a frame asks for gets its first page, the first one what was committed between the drained reconcile and the registration; with losses and refused requests `Convergence.NewestFrameSuffices` gives the sufficient side.
