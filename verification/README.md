# TmuxAtlas: a verified model of the Go backend

TmuxAtlas shows tmux sessions of several hosts in a browser. Its Go backend consists of a Hub and Agents on the hosts.
This project models the parts of that backend that carry guarantees and proves the guarantees for every input and
every run:

* **Canonical state** (`state_*.dfy`). A single writer owns a flat projection, a revision and a registry of subscribers
  with bounded queues. Commits are batches of typed operations. Discovery results become a difference against the
  current host tree; views rebuild the nested tree.
* **Peer runtime** (`peer_protocol.dfy`, `request_*.dfy`, `outcome_cache.dfy`, `generations.dfy`, `pty_*.dfy`). Request
  tracking that races with connection close, the Agent's outcome cache, connection generations with revocation, and
  terminal streams with their ownership, frames and sequence numbers.
* **Ingress admission** (`ingress_*.dfy`). Token buckets per source and per category, bounded cleanup, leases.
* **Self-update** (`update_*.dfy`). A journal, a staged file, a backup, the live executable and what the service runs, with a crash or a failure
  possible at every step that touches the disk.
* **Activity sparkline** (`activity.dfy`) and the **Codex configuration rewrite** (`codex_config.dfy`).

`go_text.dfy`, `sorting.dfy` and `wrappers.dfy` hold what these share: Go strings as byte sequences, white space, the
ascending listing of a set, an in-place insertion sort, `Option` and `Result`.

## How it is built

Code that changes state step by step is a class (or a method with loops) whose contracts say that the abstract value
`View()` becomes a function of the old one: `CommitStep`, `RegisterStep`, `AcquireStep`, `RecoverStep` and so on. The
lemmas are about these functions. A region that holds a lock is one step; runs are sequences of such steps in any order,
so the theorems about runs cover every interleaving. Goroutines blocked on a channel or a lock are steps that have not
happened yet. Clocks, random identifiers, iteration orders, failures and crashes are parameters or part of the schedule.

To check it: `dafny verify dfyconfig.toml`.

## What the proofs found

Some properties hold only under a condition. Each is proved with its exact condition, and the failing case is shown.

* A diff of the host tree can be committed exactly if no current entry is stored under a blank key. `Operation.Validate`
  accepts an upsert of a record with an empty key and then refuses the removal of it
  (`StateDiff.ReconcileIsExact`, `StateDiff.BlankKeyBlocksReconcile`).
* The constructor of the coordinator refuses only the empty instance ID, but receivers refuse every blank one, so all
  deltas of such an instance are invalid (`StateReplication.DeltasValidate`, `StateReplication.BlankInstanceIsAccepted`).
* The comment on `Operation` says that an upsert carries exactly one typed value; `Validate` does not check that the
  other ones are absent, and they are ignored (`StateWrites.OtherValuesAreIgnored`). The model follows the code.
* Every call of a connection returns the outcome of its own entry, in all runs, exactly if no two calls that can register
  have the same request ID (`RequestRuns.AllReturnOwnIff`). Otherwise the timeout of one call can take the entry of the
  other; it then returns a timeout although its own outcome is another one (`RequestRuns.ReusedIdMisleads`).
* The repository's requirement "Idempotent state-changing requests" promises that one process of an Agent executes a
  request at most once. The cache forgets after its TTL, and a retry after that is executed again
  (`OutcomeCaching.RetryAfterTtlExecutesAgain`).
* The digest of a request leaves out the connection generation. A retry over a new connection joins the old execution,
  whose outcome the Hub then drops, because it carries the old generation
  (`OutcomeCaching.JoinedOutcomeCompletesIffSameGeneration`).
* Where every global bucket holds at least two source bursts, as with the default limits, eviction of idle sources cannot
  be seen exactly if every source bucket refills within the idle time, which the default limits satisfy (`IngressEviction.EvictionIsHiddenIff`, `IngressEviction.DefaultsHideEviction`).
* A journal that ends rolled back does not mean that the previous release is installed if the update stopped right
  after the executable was replaced and before that was journalled (`UpdateRuns.RolledBackMeansPreviousIff`).
* A rollback restores the previous release exactly if the backup holds it, and a crash right after staging leaves a
  backup that does not (`UpdateRuns.RollbackRestoresPreviousIff`, `UpdateRuns.RollbackAfterStagingIsUnsafe`).
* If the recovery at the start of `update` puts the previous release back, the command goes on under the version of the
  release that was running: it records that one as the previous version, and may report "already up to date" over the
  older release (`UpdateRuns.RecordedVersionIsInstalledIff`, `UpdateRuns.UpToDateIff`).
* A registration that has passed its closed check enters the stream table of a connection that has closed meanwhile
  (`PtyRelayRuns.CollectedTableStaysEmptyIff`). It can no longer be attached.
* The receiver of a stream delivers a prefix of what was sent exactly if fewer than 2^64 - 1 payloads were sent
  (`PtyStream.DeliversPrefixesIff`).
* The fingerprint of a peer is only the first eight bytes of its key. Revoking a peer disconnects another one exactly if
  they share it (`Generations.RevokeDisconnectsOtherIff`).
* A read of the sparkline with a clock that has jumped ahead discards buckets (`Activity.GetIsInvisibleIff`).
* The Codex rewrite forgets earlier runs exactly if every line of the earlier entry counts as a notify line; a line feed
  in the program path breaks this (`CodexConfig.IsForgottenIff`, `CodexConfig.LineFeedIsNotForgotten`).

## Model

| member | source | states |
|---|---|---|
| GoText.AscendingIsUnique | pkg/state/projector.go:102-131 | Sorting the keys of a map hides its iteration order: a set has only one ascending listing. |
| Sorting.InsertionSort | pkg/state/adapters.go:118-124 | The in-place sort turns distinct keys into the one ascending listing of the same keys. |
| StateKeys.UnescapeEscaped | pkg/state/projection.go:31-33 | Decoding a percent-encoded key part gives the part back, for every byte string. |
| StateKeys.HostKeyIsInjective | pkg/state/projection.go:35-37 | Two hosts share a key only if they have the same ID. |
| StateKeys.SessionKeyIsInjective | pkg/state/projection.go:39-41 | Two sessions share a key only if host and name are the same. |
| StateKeys.WindowKeyIsInjective | pkg/state/projection.go:43-45 | Two windows share a key only if host, session and window are the same. |
| StateKeys.PaneKeyIsInjective | pkg/state/projection.go:47-49 | Two panes share a key only if all four parts are the same. |
| StateKeys.ToolEventKeyIsInjective | pkg/state/adapters.go:15-24 | Two tool events share a key only if host, session, window number, pane and tool are the same. |
| StateKeys.ActivityKeyIsInjective | pkg/state/adapters.go:26-28 | Two activity samples share a key only if host and session are the same. |
| StateProjection.EvaluateFails | pkg/state/coordinator.go:275-283 | A batch fails exactly if one of its operations is invalid, whatever the state, and the first invalid one is reported. |
| StateWrites.SingleOperation | pkg/state/projection.go:185-220 | An operation is accepted exactly if it is an upsert with the value of its kind and no key, a removal of a key that is not blank, or metadata with such a key and well-formed JSON; the error says what is missing. |
| StateWrites.OtherValuesAreIgnored | pkg/state/projection.go:167-220 | Values of other kinds in an operation are neither refused nor looked at. |
| StateWrites.MetadataIsLastWritten | pkg/state/coordinator.go:275-333 | After an accepted batch a metadata key holds what its last writer in the batch set or removed, and is as before without one. |
| StateWrites.HealthIsLastWritten | pkg/state/coordinator.go:275-333 | The same for the health of a host, filed under that host's key. |
| StateCoordinator.Coordinator.Commit | pkg/state/coordinator.go:207-231 | A commit changes projection, revision and every subscriber's channel as the commit step says, with the loop over the subscribers in any order. |
| StateCoordinator.Coordinator.Subscribe | pkg/state/coordinator.go:236-247 | Registration and snapshot are taken at the same revision; a non-positive queue size becomes the default. |
| StateCoordinator.Coordinator.Unsubscribe | pkg/state/coordinator.go:248-253 | Only a registered subscriber is removed, and its channel is closed. |
| StateDelivery.CommitServesEveryone | pkg/state/coordinator.go:207-231 | In every run a commit changes something exactly if its batch is accepted and leads to another projection; then every registered channel that is not full gets the delta behind its unread messages, a full one is left with nothing but the resync request, closed and unregistered, and any other channel stays as it is. |
| StateDelivery.ResyncIffOverflow | pkg/state/coordinator.go:213-229 | In every run, a subscriber is sent a resync request exactly if a commit that changed the projection found as many unread messages in its channel as the channel holds. |
| StateDelivery.SubscribeOpensChannel | pkg/state/coordinator.go:142-163 | In every run, a subscription gets the current projection and an empty channel of the size asked for, 64 if none is, under a new number; nobody else is touched. |
| StateDelivery.UnsubscribeEndsDelivery | pkg/state/coordinator.go:248-253 | In every run, an unsubscription closes that channel alone, with its unread messages left to be read. |
| StateDelivery.StopEndsDelivery | pkg/state/coordinator.go:199-204 | In every run, stopping closes every channel and leaves unread messages and state alone. |
| StateDelivery.NothingMoreIsSent | pkg/state/coordinator.go:213-253 | Whatever happens after a subscriber has left, its channel gets nothing more and can only be read to its end. |
| StateDelivery.StoppedStays | pkg/state/coordinator.go:199-204 | A stopped coordinator never changes its state again and takes no new subscriber. |
| StateReplication.SubscribersFollow | pkg/state/coordinator.go:190-257 | In every run, what a subscriber builds from its snapshot and deltas is exactly the canonical projection of the revision it has reached; revisions have no gaps; a registered subscriber's queue leads to the current projection; a resync is the last message. |
| StateReplication.DeltasValidate | pkg/state/projection.go:267-286 | In every run, the delta of a changing commit advances the revision by one and passes the receiver's check exactly if the instance ID is not blank. |
| StateReplication.BlankInstanceIsAccepted | pkg/state/coordinator.go:97-110 | An instance ID of white space is accepted, and no delta of it is valid. |
| StateProjector.ReconcileHosts | pkg/state/projector.go:38-100 | The nested loops produce the ordered difference between the current tree and the projected one, or the error exactly if a host has no ID. |
| StateProjector.AppendMapDiff | pkg/state/projector.go:102-131 | Removals in key order, then changed and new records in key order, appended to the operations so far. |
| StateTree.ProjectedTreeIsSound | pkg/state/projector.go:38-84 | Whatever discovery reports, the projected tree has no orphan and every record is under its own key. |
| StateDiff.PatchedIsNext | pkg/state/projector.go:102-131 | A difference turns a map into the new one exactly if the map still agrees with the old one wherever the difference changes nothing. |
| StateDiff.ReconcileIsExact | pkg/state/projector.go:26-100 | Committing the difference installs exactly the new host tree and leaves the other maps alone; it is empty exactly if nothing differs; it works exactly if no current key is blank, and otherwise nothing changes. |
| StateDiff.StaleDiffIsExactIff | pkg/state/projector.go:26-36 | A difference from an older snapshot can be committed exactly if the snapshot has no blank key, and installs the new tree exactly if the committed tree still agrees with the snapshot wherever the difference changes nothing. |
| StateDiff.StaleDiffAfterSideCommits | pkg/state/coordinator.go:267-293 | If only tool-event, activity, health and metadata commits came between, the difference can be committed exactly if no tree key is blank; the result is the new tree plus the latest other maps, and the revision advances exactly if the tree differs. |
| StateDiff.BlankKeyBlocksReconcile | pkg/state/projection.go:185-220 | A host stored under an empty key makes every later reconciliation without it fail. |
| StateDiff.ReplaceHosts | pkg/state/projector.go:26-36 | Snapshot, difference and commit, with the errors for a stopped coordinator and for a host without an ID. |
| StateViews.BuildSessionViews | pkg/state/views.go:24-90 | The loops build every session in key order, its windows and panes by index and key. |
| StateRoundTrip.ArrangedOnce | pkg/state/views.go:36-75 | Records with different ranks are each listed exactly once, in ascending rank. |
| StateRoundTrip.RoundTrip | pkg/state/views.go:24-90 | Viewing a projection that holds a reported tree shows the records of the reported sessions, windows and panes, each under its own parent; what their fields show is the matter of the next rows. |
| StateRoundTrip.CommittedTreeIsViewed | pkg/state/projector.go:38-84 | Committing a consistent discovery result works exactly if no tree key of the state is blank, and the views then are those of the reported records, whatever the state was. |
| StateReport.CommittedReportIsShown | pkg/state/views.go:24-90 | After such a commit every reported session, window and pane is shown exactly once, with each of its fields equal to the reported one, under its own parent, in display order, and nothing else is shown. |
| StateReport.DistinctReportIsShown | pkg/state/views.go:24-90 | The same for every report with distinct host IDs, session names, window IDs and pane IDs, stated in the report's own terms. |
| StateReport.CommittedHostsAreKept | pkg/state/projector.go:41-48 | After such a commit the projection holds exactly the reported hosts, with every field. |
| StateReport.SessionShowsItsHost | pkg/state/views.go:24-34 | In any projection a session shows the name and state of the host under its host key; without one it shows no name and is offline. |
| StateRoundTrip.DistinctIsConsistent | pkg/state/projector.go:38-84 | Distinct host IDs, session names, window IDs and pane IDs are enough for the round trip. |
| StateAdapters.ActivityHoldsLatest | pkg/state/adapters.go:69-90 | The activity map holds, for each session of each host that was reported, exactly the record of its latest usable sample, and nothing else. |
| StateAdapters.ActivityIsReplaced | pkg/state/adapters.go:60-107 | Replacing the activity installs exactly that map and nothing else, and works exactly if no current key is blank. |
| StateAdapters.ReplaceActivity | pkg/state/adapters.go:60-107 | The loop and the commit do what the difference of the activity maps says. |
| StateAdapters.ToolEventsAreCleared | pkg/state/adapters.go:141-161 | Clearing leaves exactly the events of another host, session, window or pane, and none if no session is named, in any order; it works exactly if none of the keys to remove is blank. |
| StateAdapters.ClearToolEvents | pkg/state/adapters.go:141-161 | The loop lists exactly the keys of the events at the place and commits their removal. |
| PeerProtocol.CheckCapabilities | pkg/peer/runtime_protocol.go:234-249 | The loop accepts exactly the bounded lists of distinct valid names. |
| PeerProtocol.AsciiIdIff | pkg/peer/runtime_protocol.go:265-289 | An ASCII text is an identifier exactly if it is one to 128 printable characters long, without a space. |
| PeerProtocol.IntersectionIsSound | pkg/peer/runtime_protocol.go:251-263 | The intersection holds exactly the common names, without repetition. |
| PeerProtocol.IntersectionKeepsOrder | pkg/peer/runtime_protocol.go:251-263 | What comes first in the intersection comes first in the left list. |
| PeerProtocol.NegotiationIsSound | pkg/peer/runtime_protocol.go:59-112 | A hello is answered exactly if its versions, capabilities and names make sense and the version ranges meet, with a version both speak, the common capabilities, the Hub's build, the generation and the Agent's instance, in an answer that the Agent accepts exactly if the Hub's build name and the generation are valid. |
| RequestTracking.RequestTracker.Register | pkg/peer/request_tracker.go:31-40 | A free ID gets a new entry; a taken one is refused and nothing changes. |
| RequestTracking.RequestTracker.Complete | pkg/peer/request_tracker.go:68-84 | Only an entry of the same generation is taken out and answered. |
| RequestTracking.RequestTracker.FailAll | pkg/peer/request_tracker.go:86-104 | Every entry of the generation is taken out and answered with the error; the others stay. |
| RequestAnswers.RegisterWaits | pkg/peer/request_tracker.go:31-42 | A registration makes one new waiting slot exactly if the ID is free, and is refused otherwise. |
| RequestAnswers.CompleteAnswers | pkg/peer/request_tracker.go:68-84 | A completion closes the one slot that waits for it with exactly the outcome given and takes it out of the table; without one nothing changes. |
| RequestAnswers.FailAllAnswers | pkg/peer/request_tracker.go:86-104 | Every waiting slot of the generation is closed with its own error as its only outcome and leaves the table; every other slot and entry stays as it is. |
| RequestAnswers.DrainAndPushIsFailAll | pkg/peer/request_tracker.go:86-104 | Emptying the table and then pushing for each entry taken out, in any order, is what FailAll does. |
| RequestAnswers.ClaimAndPushIsComplete | pkg/peer/request_tracker.go:54-84 | Claiming an incoming outcome and then pushing it is what a completion does. |
| RequestAnswers.BeginDecides | pkg/peer/request_tracker.go:106-116 | A call is refused for another generation, an invalid request or a waiting ID, in this order, and otherwise gets the next slot. |
| RequestAnswers.FailedSendIsReturned | pkg/peer/request_tracker.go:122-132 | A call that cannot send, and that nobody else answers, returns peer-offline on a closed connection or with its context done, and queue-full on a full queue. |
| RequestAnswers.ResultIsReturned | pkg/peer/request_tracker.go:129-134 | A waiting call returns the result that comes in for it. |
| RequestAnswers.TimeoutIsReturned | pkg/peer/request_tracker.go:135-139 | A waiting call whose context ends first returns a timeout, and its entry leaves the table. |
| RequestAnswers.QueueIsBounded | pkg/peer/connection.go:71-88 | In every run no more messages are queued than the connection holds. |
| RequestRuns.ExactlyOneOutcome | pkg/peer/request_tracker.go:68-104 | In every interleaving each registered request is waiting, claimed by one thread, or answered with exactly one outcome, and never two of these. |
| RequestRuns.TerminalIsFinal | pkg/peer/request_tracker.go:76-83 | An outcome once claimed or pushed never changes. |
| RequestRuns.ClosedConnectionDrains | pkg/peer/connection.go:99-123 | Once the connection has closed and all calls have returned, no entry is pending. |
| RequestRuns.NoCallIsStranded | pkg/peer/request_tracker.go:106-146 | After the close emptied the table, every waiting call has its outcome on the way, even if it registered later. |
| RequestRuns.OwnErrorClaims | pkg/peer/request_tracker.go:117-128 | The error that a call builds for itself always passes the correlation check and removes its entry. |
| RequestRuns.AllReturnOwnIff | pkg/peer/request_tracker.go:106-146 | For every connection and every set of requests: in all their runs each call returns the one outcome of its own entry, exactly if no two requests that can be registered have the same ID. |
| RequestRuns.CallsReturnTheirOutcome | pkg/peer/request_tracker.go:129-146 | In every run in which no two calls have registered the same ID, every call returns the one outcome of its own entry. |
| RequestRuns.ReusedIdMisleads | pkg/peer/request_tracker.go:135-139 | Any two valid requests with the same ID have a run in which the first call returns a timeout while its own outcome is a result. |
| OutcomeCaching.OutcomeCache.Enter | pkg/peer/dispatcher.go:101-128 | The first region purges, then joins, refuses or starts, as the entry step says. |
| OutcomeCaching.OutcomeCache.Finish | pkg/peer/dispatcher.go:130-141 | The second region stores and returns the bounded outcome, with its expiry. |
| OutcomeCaching.OutcomeCache.Await | pkg/peer/dispatcher.go:113-120 | A joining call returns a timeout if its context is done, and otherwise the outcome of the execution once there is one. |
| OutcomeCaching.OpenCache | pkg/peer/dispatcher.go:70-78 | A cache is opened exactly with positive limits. |
| OutcomeCaching.ExecutionsAreApart | pkg/peer/dispatcher.go:96-142 | In every run, two executions of one request ID are at least TTL apart, from the end of one to the start of the next. |
| OutcomeCaching.ExecutesExactlyWhen | pkg/peer/dispatcher.go:80-128 | In every run: a payload that is no JSON is refused; with a live execution of its ID a request joins it for the same operation, target and payload value, and conflicts otherwise; any other request is executed if there is room and refused if not; the table never exceeds MaxEntries. |
| OutcomeCaching.RunningIsNeverEvicted | pkg/peer/dispatcher.go:103-107 | A running execution keeps its place in the table. |
| OutcomeCaching.OutcomeIsFinal | pkg/peer/dispatcher.go:113-120 | A completed outcome never changes, so all who joined get the same. |
| OutcomeCaching.EveryoneGetsTheSame | pkg/peer/dispatcher.go:113-141 | In every run and every continuation, whoever joins a finished execution gets exactly what the executing call returned: the execution's own outcome if it is within the bound, and otherwise a resource-exhausted error for its request. |
| OutcomeCaching.RetryAfterTtlExecutesAgain | pkg/peer/dispatcher.go:103-107 | A retry exactly TTL after completion is executed again. |
| OutcomeCaching.JoinedOutcomeCompletesIffSameGeneration | pkg/peer/dispatcher.go:80-94 | The Hub takes the outcome of a joined execution exactly if both requests carry the same generation. |
| OutcomeCaching.DispatchDecides | pkg/peer/dispatcher.go:153-186 | A dispatcher refuses a malformed or late request, one of another connection, one for another host, one without the agreed capability and one that nobody can execute, in this order and with these errors, and lets every other one through. |
| OutcomeCaching.DispatchIsSound | pkg/peer/dispatcher.go:153-186 | Every refusal of a well-formed request can be correlated, and what reaches the cache is of this generation and host and has a digest. |
| Generations.Manager.Add | pkg/identity/peers.go:145-172 | A peer is added exactly if its key is well-formed, key and name are free and the store was written. |
| Generations.Manager.ActivateAuthorizedPeer | pkg/peer/manager.go:345-385 | Activation needs a stored key and no live connection of the same or a newer generation. |
| Generations.Manager.RevokePeer | pkg/peer/manager.go:389-420 | Revocation removes the first peer of the name and the host of its fingerprint, or changes nothing. |
| Generations.Manager.UnregisterPeerGeneration | pkg/peer/manager.go:422-436 | Exactly the host entry of the same generation is marked offline, and nothing else changes. |
| Generations.InstalledIsAuthorized | pkg/peer/manager.go:328-385 | In every run, a live connection's key is in the store, it is filed under its key's fingerprint, and its generation was reserved. |
| Generations.LiveConnectionEndsOnlyBy | pkg/peer/manager.go:354-436 | A live connection ends only by a strictly newer authorised generation, its own unregistration, or a revocation of its fingerprint. |
| Generations.LateUnregisterIsHarmless | pkg/peer/manager.go:422-436 | The late unregistration of an old connection never removes another one. |
| Generations.SupersededNeverReturns | pkg/peer/manager.go:531-539 | A connection that was activated and is no longer current never becomes current again. |
| Generations.RevokedStaysOut | pkg/peer/manager.go:389-420 | Until it is paired again, a revoked peer has no live connection in any continuation. |
| Generations.RevokeDisconnectsOtherIff | pkg/identity/identity.go:143-149 | Revoking one peer disconnects another exactly if the first eight bytes of their keys agree. |
| PtyRelay.PTYRelay.RegisterPending | pkg/peer/pty_relay.go:69-94 | Undisturbed registration enters the connection's and the relay's table exactly if the connection is open. |
| PtyRelay.PTYRelay.CompletePending | pkg/peer/pty_relay.go:96-118 | A stream is attached exactly if it is pending, host, generation, token and session equal those of the claim, and neither it nor its connection is cancelled; then it changes from pending to active with that peer. |
| PtyRelay.PTYRelay.Teardown | pkg/peer/pty_relay.go:124-148 | Undisturbed teardown cancels, leaves the relay's tables, then the connection's. |
| PtyRelay.PTYRelay.BeginClose | pkg/peer/connection.go:99-112 | The close sets the flag, stops the context and takes over the streams of the table. |
| PtyRelayRuns.StreamsAreSafe | pkg/peer/pty_relay.go:69-148 | In every interleaving, readiness is signalled at most once; a stream torn down is in no table; a closed connection has no active stream. |
| PtyRelayRuns.NoAttachAfterCancellation | pkg/peer/pty_relay.go:104-110 | A stream cancelled before the check of an attachment is never attached, however the run goes on. |
| PtyRelayRuns.AttachedWasClaimed | pkg/peer/pty_relay.go:96-103 | In every interleaving, an attached stream had a claim whose host, generation, token and session equal its own. |
| PtyRelayRuns.AttachmentIsExclusive | pkg/peer/pty_relay.go:96-118 | Between the check and the commit of an attachment, no other step changes the relay's tables. |
| PtyRelayRuns.StreamsBelong | pkg/peer/pty_relay.go:69-94 | In every interleaving, a stream has the host and the generation of the connection it was registered for. |
| PtyRelayRuns.RemovedStaysOut | pkg/peer/pty_relay.go:124-148 | A published stream whose teardown has removed it is never again in one of the relay's tables. |
| PtyRelayRuns.CollectedTableStaysEmptyIff | pkg/peer/connection.go:125-142 | The table of a closed connection stays empty exactly if no registration had passed its closed check. |
| PtyFrame.Encode | pkg/peer/pty_frame.go:29-47 | Filling the buffer gives the frame's bytes exactly for valid frames, and the stated error otherwise. |
| PtyFrame.DecodeFrame | pkg/peer/pty_frame.go:49-76 | Decoding the bytes of a valid frame gives the frame back. |
| PtyFrame.FrameDecoded | pkg/peer/pty_frame.go:49-76 | Whatever is accepted is, byte for byte, the encoding of the frame returned. |
| PtyFrame.CodecIsBijective | pkg/peer/pty_frame.go:29-76 | The decoder accepts exactly the encodings of valid frames, and no two valid frames share one. |
| PtyFrame.WrongByteIsNamed | pkg/peer/pty_frame.go:49-76 | A frame with one wrong byte in front of its numbers is refused for what is wrong with it. |
| PtyFrame.OtherLengthIsRefused | pkg/peer/pty_frame.go:49-76 | A frame that is cut off anywhere, or followed by anything, is refused. |
| PtyFrame.PTYSequence.Accept | pkg/peer/pty_frame.go:150-162 | Lower numbers are duplicates, higher ones gaps, and the counter wraps around to its unset state. |
| PtyStream.Send | pkg/peer/pty_manager.go:94-114 | The loop numbers the payloads from one and stops at the first that cannot be encoded. |
| PtyStream.Receive | pkg/peer/pty_manager.go:115-166 | The loop delivers and resizes as the receiver steps say, at the Agent's and the Hub's end. |
| PtyStream.OneMoreMessage | pkg/peer/pty_manager.go:115-166 | After any messages, one more is delivered exactly if it is a frame of the other side with the number after those delivered, a size is applied exactly if it has the number after those applied, and the loop ends exactly at a message that is no such frame, is too far ahead, or closes the stream. |
| PtyStream.SendsWhatItCan | pkg/peer/pty_frame.go:29-38 | Sending stops before an oversized payload and before the counter wraps around. |
| PtyStream.DeliversPrefixesIff | pkg/peer/pty_frame.go:146-162 | For every list of payloads, over a channel that drops, repeats and reorders frames: what is delivered is a prefix of what the sender really sent, exactly if that is fewer than 2^64 - 1 payloads. |
| PtyStream.ResizesArePrefix | pkg/peer/pty_manager.go:140-165 | The sizes applied are a prefix of those announced. |
| PtyStream.AppliedSizesArePositive | pkg/peer/pty_frame.go:110-133 | No applied size is empty, whatever is received. |
| IngressPolicy.OpenPolicy | pkg/ingress/policy.go:117-188 | A policy is opened exactly for a valid configuration. |
| IngressPolicy.IngressPolicy.CleanupSources | pkg/ingress/policy.go:211-222 | The cleanup looks at as many sources as the budget allows and drops exactly the idle ones among them. |
| IngressPolicy.IngressPolicy.Acquire | pkg/ingress/policy.go:238-283 | The decision and the whole new state are those of the acquisition step for the sources that were looked at. |
| IngressPolicy.IngressPolicy.Release | pkg/ingress/policy.go:230-282 | A lease gives its slots back once. |
| IngressRuns.InFlightIsConserved | pkg/ingress/policy.go:260-283 | In every run the global in-flight count is the sum over the categories and the number of open leases. |
| IngressRuns.LimitsHold | pkg/ingress/policy.go:246-269 | In every run the operations in flight never exceed the global limit, nor a category's its own. |
| IngressRuns.DecidesInOrder | pkg/ingress/policy.go:238-266 | A call is refused for an unknown category, exactly at a concurrency limit, for want of a place for a new source, or if one of the two buckets has less than one token by then, in this order, and is accepted otherwise. |
| IngressRuns.EvictsExactly | pkg/ingress/policy.go:211-258 | A call that reaches the cleanup drops exactly the sources it has looked at and found idle, and files its own unless there is no place. |
| IngressRuns.RejectionsAreCounted | pkg/ingress/policy.go:201-209 | In every run the counter of a category and a reason is the number of calls rejected there for it. |
| IngressRuns.LabelIsBounded | pkg/ingress/policy.go:190-199 | A source's label has one to 128 bytes: "unknown" for a blank source, and otherwise the trimmed source, cut off. |
| IngressRuns.TokensStayInRange | pkg/ingress/policy.go:142-149 | In every run, whatever the clock does, the tokens of every bucket stay between zero and its burst. |
| IngressRuns.AcceptanceSpendsOne | pkg/ingress/policy.go:260-269 | An accepted call takes exactly one token from its category's refilled bucket and one from its source's, which is new if the source was unknown or evicted. |
| IngressRuns.RejectionSpendsNothing | pkg/ingress/policy.go:238-266 | A rejected call takes no token from either bucket. |
| IngressRuns.OthersAreUntouched | pkg/ingress/policy.go:238-283 | A call changes no other category and no other source, save evicting idle ones; for an unknown category only the rejection is counted. |
| IngressRuns.RateBound | pkg/ingress/policy.go:142-149 | In any interval of length T a category admits at most GlobalBurst + GlobalRate * T operations, whatever happened before. |
| IngressEviction.EvictionIsInvisible | pkg/ingress/policy.go:211-222 | If sources refill within the idle time, every decision is that of a policy that never evicts, whichever sources are looked at. |
| IngressEviction.EvictionIsHiddenIff | pkg/ingress/policy.go:211-258 | Given global buckets of two source bursts, eviction is invisible exactly if every source refills within the idle time. |
| IngressEviction.DefaultsHideEviction | pkg/ingress/policy.go:98-115 | The default limits are valid and make eviction invisible. |
| UpdateJournal.Installation.ReplaceWithBackup | pkg/commands/update/transaction.go:143-157 | Copy, publish and replace, with every failure and crash point. |
| UpdateJournal.Installation.RollbackExecutable | pkg/commands/update/transaction.go:159-181 | The rollback journals, stages the backup, renames and journals again, with every failure and crash point. |
| UpdateJournal.Installation.RecoverInterrupted | pkg/commands/update/transaction.go:183-203 | Recovery acts by the journal's phase. |
| UpdateJournal.Installation.Activate | pkg/commands/update/update.go:399-452 | The journalled part of the update after staging, with the restart and its fallback. |
| UpdateOutcomes.CompletedUpdateStays | pkg/commands/update/update.go:413-452 | An update that installs and completes leaves the latest release over a backup of the one before it, every other file as it was, a committed journal without an error, and the service on the latest release if it is to be restarted; no later recovery changes any of this. |
| UpdateOutcomes.SmoothUpdateCompletes | pkg/commands/update/update.go:295-452 | An update in which no step fails completes. |
| UpdateOutcomes.CompletedRestoration | pkg/commands/update/transaction.go:205-220 | A completed restoration changes no file but the executable, which becomes the backup, journals it as rolled back, and leaves a running service on the backup. |
| UpdateOutcomes.FailedServiceIsRestored | pkg/commands/update/update.go:420-441 | If only the start or the health check of the new release fails, the update fails with the previous release installed and running and the journal rolled back. |
| UpdateOutcomes.UnhealthyRestorationFails | pkg/commands/update/transaction.go:205-220 | If the previous release does not come up again, the restoration fails, with that release installed all the same. |
| UpdateOutcomes.RecoveredDisk | pkg/commands/update/transaction.go:183-203 | A recovery without failures removes the staged release of an update cut short before the replacement, restores the backup after one cut short behind it, and changes no other file. |
| UpdateOutcomes.FailedStagingLeavesNothing | pkg/commands/update/transaction.go:124-141 | If a copy cannot be made, nothing of it is left. |
| UpdateOutcomes.FailedJournalLeavesNothing | pkg/commands/update/update.go:395-398 | If the staged release cannot be journalled, it is removed again. |
| UpdateOutcomes.FailedReplacementIsRecorded | pkg/commands/update/update.go:399-403 | If the executable cannot be replaced, it stays as it is and the journal records the failure. |
| UpdateOutcomes.FailedRollbackIsRecorded | pkg/commands/update/transaction.go:159-181 | If a rollback cannot stage or place the backup, the executable stays as it is and the journal records that a rollback is under way and has failed. |
| UpdateRuns.NextIsTheCommand | pkg/commands/update/update.go:295-452 | The runs are runs of the update command itself. |
| UpdateRuns.ExecutableIsAlwaysWhole | pkg/commands/update/transaction.go:143-203 | In every run of commands, with crashes and failures anywhere, the executable is one whole release. |
| UpdateRuns.ExecutableIsOldOrNew | pkg/commands/update/update.go:383-452 | In every run the executable is the release before the journal's transaction or its target, as the phase says. |
| UpdateRuns.RecoveryEnds | pkg/commands/update/transaction.go:183-203 | After any number of interrupted recoveries a completed one restores the previous release from replaced, restarted and rolling-back, keeps the target from healthy, and ends in rolled-back or committed. |
| UpdateRuns.SecondRecoveryIsIdle | pkg/commands/update/transaction.go:183-203 | A second recovery changes nothing. |
| UpdateRuns.RecoveryCompletes | pkg/commands/update/transaction.go:159-203 | A recovery in which no step fails completes. |
| UpdateRuns.RolledBackMeansPreviousIff | pkg/commands/update/transaction.go:153-155 | Rolled back means that the previous release is installed, exactly outside the window between the replacement and its journal entry. |
| UpdateRuns.CrashInTheWindow | pkg/commands/update/update.go:399-408 | A crash in the window ends rolled back over the new release. |
| UpdateRuns.RollbackRestoresPreviousIff | pkg/commands/update/transaction.go:159-181 | A completed rollback restores the previous release exactly if the backup holds it. |
| UpdateRuns.RollbackAfterStagingIsUnsafe | pkg/commands/update/update.go:383-398 | A crash right after staging leaves an older backup than the journal's previous version. |
| UpdateRuns.RecordedVersionIsInstalledIff | pkg/commands/update/update.go:387-391 | The recorded previous version is the installed release exactly if the recovery before has not replaced the executable. |
| UpdateRuns.UpToDateIff | pkg/commands/update/update.go:295-311 | "Already up to date" leaves the latest release installed exactly if the recovery has not replaced the executable. |
| Activity.SessionActivity.Advance | pkg/activity/tracker.go:69-85 | Moving the ring is shifting the window of buckets. |
| Activity.SessionActivity.Get | pkg/activity/tracker.go:104-137 | The array returned is the window after moving to now, oldest first. |
| Activity.SlotsHoldWhatLanded | pkg/activity/tracker.go:65-87 | For every clock, each slot holds what was recorded while its bucket was the latest. |
| Activity.SparklineIsExact | pkg/activity/tracker.go:65-137 | With a clock that never goes back, slot i is what was recorded in the fifteen seconds of the bucket 19 - i before now. |
| Activity.TotalIsRecorded | pkg/activity/tracker.go:65-67 | The total is everything ever recorded, whatever the clock does. |
| Activity.GetsAreInvisible | pkg/activity/tracker.go:104-137 | With such a clock, earlier reads do not change what a read returns. |
| Activity.GetIsInvisibleIff | pkg/activity/tracker.go:107-122 | A read does not change a later one, in whatever state, exactly if its bucket is not a later one. |
| CodexConfig.RewriteConfig | pkg/commands/agent-setup/agent_setup.go:266-315 | The loops filter, find the place and rebuild as specified. |
| CodexConfig.LineKinds | pkg/commands/agent-setup/agent_setup.go:272-300 | After white space, a notify line starts with "notify" and holds an equals sign, a table line starts with a bracket, and a remark is nothing or starts with a hash. |
| CodexConfig.OneNotifyLine | pkg/commands/agent-setup/agent_setup.go:272-308 | Kept lines stay in order with nothing but the new line and a final line feed added; it is the only notify line, before every table. |
| CodexConfig.IsForgottenIff | pkg/commands/agent-setup/agent_setup.go:272-315 | A later run gives the same as that run alone, for every file, exactly if each line of the earlier entry counts as a notify line. |
| CodexConfig.SetupForgetsEarlierPaths | pkg/commands/agent-setup/agent_setup.go:252-264 | This holds for every program path without a line feed. |
| CodexConfig.LineFeedIsNotForgotten | pkg/commands/agent-setup/agent_setup.go:252-264 | It fails for paths with a line feed followed by another word. |

## Left out

- Deep copies: projections, operations and envelopes are values here, so nothing can alias them. The clone functions of `coordinator.go` are not modelled, and a record shared with a caller cannot be seen.
- Nil and empty: `reflect.DeepEqual` tells a nil slice or map from an empty one; the model does not.
- Number widths: revisions, generations, subscriber numbers, byte counts and in-flight counts are unbounded. Only the 64-bit stream sequence wraps around.
- The drain of a full subscriber queue is one step, and nothing is claimed about it meeting a reader at the same time.
- StateAdapters.ActivityIsReplaced: the samples' numbers are one opaque value; their encoding is not modelled.
- HostViews, ToolEventViews, ActivityViews, ApplyToolEvent, SetMetadata and UpsertHealth would only add easy members of the same kind.
- `sort.Slice` is modelled by the insertion sort that the activity adapter writes out; for distinct keys both give the same.
- JSON: payloads are abstract values with a size and a validity; strict decoding, canonical encoding and SHA-256 are not modelled, and the digest is taken to be injective.
- Contexts and channels: a cancelled context is a parameter of the step that sees it. Nothing is claimed about when a step happens.
- The fields of an owner, a connection and the relay are kept in one object keyed by identifiers, so that pointers between them are not modelled.
- A stream published after its teardown stays in the relay's pending table; only the active table and the connection's table are claimed to be clean.
- PtyStream.Receive: a failing write to the terminal or the browser, which ends the loop, is the same as the channel ending there.
- Generations.Manager.Add: names arrive normalised; the rules for names are not modelled. Base64 encodes keys injectively, so they are written as their bytes.
- RegisterPeer, UnregisterPeer and the unauthorised ActivatePeer are not part of the generation runs. An older generation may be activated while none is live.
- IngressEviction.EvictionIsHiddenIff: for global buckets of less than two source bursts only one half is proved (IngressEviction.EvictionIsInvisible); a small global bucket may refuse the calls that would show an eviction, depending on its own rate.
- IngressRuns.RateBound: times and tokens are real numbers, so floating-point rounding is not modelled. Idle times are seconds.
- UpdateJournal.Installation.Activate: one executable path; versions are identified with the contents of the executable; a step is a whole system call, and what a power failure does to data not yet synced is not modelled.
- UpdateRuns.ExecutableIsOldOrNew: a rollback command is part of these runs only where the backup is the previous release; elsewhere UpdateRuns.RollbackRestoresPreviousIff says what it does, and the executable stays whole in any case.
- Downloads, checksums, provenance, service discovery and health polling: their outcomes are steps that succeed or fail.
- Activity: the map from session names to rings, and the idle time, which would only add easy members.
- Codex: reading and writing the file. A file that cannot be read counts as absent, as in the code.
- HTTP routing, WebSockets, tmux and PTY processes, the web interface, passkeys, pairing, statistics and prompt detection.
