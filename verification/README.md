# perfcho, verified

A Dafny model of the parts of perfcho where state, concurrency or arithmetic make correctness hard to see, with
machine-checked proofs about them. `dafny verify dfyconfig.toml` verifies everything.

## What is modelled

**Realtime state.** The sixteen Lua scripts of the Redis realtime repository act on sessions, account epochs, presence,
preferences, channel rosters, spectator relations and frame histories. `RealtimeStore.Store` has those keys as fields
and one method per script; on every store each method is proved to do exactly what `RealtimeScripts` says it does, and
to keep the invariant `Valid`. From it `RealtimeEffects`, `RealtimeRenewals` and `RealtimeTransitions` derive, script
by script, exactly when a call succeeds and what it then changes and leaves alone, and `RealtimeRefusals` what it
answers when it refuses. `RealtimeRuns` proves, for every
sequence of calls and clock steps, that everything belongs to current epochs and that both spectator directions agree;
`RealtimeFencing` that fencing is permanent; `ChannelRefinement` that listing a channel refines a plain set.
`PollingRuns` follows a reader that polls a host's frames by cursor: in every run it gets published frames at most once
and in order, and it gets all of them exactly when each poll that returned frames came before a new history began and
returned consecutive cursors. The `truncated` flag does not report a new history, which every new play begins: the poll
then skips as many frames of it as the old cursor counted. `PollingCounterexamples` has a run on which this happens,
and another on which a frame that expires early is skipped without a report. A key whose deadline is at or before the
clock reads as absent, and setting such a deadline deletes the key. Scripts are atomic and the clock never goes back.
The durable deadline is a fixed function of the session id (`Config.durable`), as the durable session row makes it.

**Multiplayer rooms.** `RoomProjection.Store` holds the room blobs and the account index behind the compare-and-set and
remove scripts. `RoomRuns` lets any number of clients interleave: a write is computed from any state the room ever
held, and only the commit is atomic. `RoomLinearization` proves that the slots still evolve as in a sequential run.
The runs use four facts of the durable data and the callers: a hosting session belongs to one public id and epoch, a
session id is published once, a replacement that changes slots raises the revision, and no refused create spoils an
older room. The last one is not true of the code in general: `RoomIndex.CreateKeepsUnlessSpoiled` gives the exact
condition and `RoomCounterexamples` a store on which the index is lost, and another for a session published twice.
`RoomEffects` says of every slot mutation and every script when it is accepted and which fields and entries change.

**Rijndael-256-CBC.** `GaloisField` to `RijndaelCbc` build the field, the log and antilog tables, the Gauss-Jordan
inversion of the mix matrix, the round tables, the key schedule and the table-driven rounds as the repository does, and
prove them equal to the textbook cipher (FIPS 197 sections 4.2 and 5.3.5, with the 256-bit block and row shifts
1, 3 and 4), whose decryption undoes its encryption for every key. `RijndaelStandard` states that cipher in the
standard's own numbers and byte positions. Bytes are eight bits, words four bytes.

**Durable work.** `OutboxDelivery`, `OutboxRuns` and `OutboxTable` model the fenced delivery rows and the transactions
over batches of them, `MigrationPhases` and `MigrationRuns` the resumable migration, `ScoringStats`,
`ScoringConservation` and `ScoringProjection` the statistics projection. A transaction is one atomic step; crashes fall
between transactions. `OutboxTable.Outbox` and `ScoringProjection.Projection` carry, as ghost fields, the effects,
charges, tokens and events that their invariants speak of.

**Arithmetic.** `BreakSweep` is the sweep over break intervals, `WeightedPerformance` the 0.95-weighted sum over
per-beatmap bests in exact arithmetic. The bests are chosen by the metric of the policy and summed by pp, so under a
score metric a new score can lower the sum; `PerformanceDropsExactly` says when.

`MapTotals` and `Basics` hold what several modules share.

## Model

| member | source | states |
|---|---|---|
| RealtimeStore.Store.OpenSession | src/perfcho/infra/redis/scripts.py:128-200 | The open-session script, with its loops over old channels and viewers, produces exactly the state and reply of its meaning, including every refusal |
| RealtimeStore.Store.Sever | src/perfcho/infra/redis/scripts.py:167-184 | Cutting both spectator directions of an epoch in place equals the one-step definition |
| RealtimeStore.Store.ResolveSession | src/perfcho/infra/redis/scripts.py:203-213 | Does what the script does; in a valid store it answers with the one account whose current epoch the session is and that epoch's deadline, or not found, never fenced |
| RealtimeStore.Store.HeartbeatSession | src/perfcho/infra/redis/scripts.py:216-308 | Equals the script on every store and keeps the invariant; it succeeds exactly for the current epoch with a request ahead, the account's lease is the one answered, and its presence runs on for the presence time within it |
| RealtimeStore.Store.FenceSession | src/perfcho/infra/redis/scripts.py:311-352 | The fence script removes exactly what the epoch owns |
| RealtimeStore.Store.SetPresence | src/perfcho/infra/redis/scripts.py:355-386 | Expiry window and capacity refusals, and the new presence with its index |
| RealtimeStore.Store.ClearPresence | src/perfcho/infra/redis/scripts.py:389-401 | Keeps the invariant; clears exactly for the current epoch of a present account, and the online index then lists exactly the presences left |
| RealtimeStore.Store.SetPreference | src/perfcho/infra/redis/scripts.py:404-415 | Keeps the invariant; sets exactly for the current epoch, with its deadline, and never on top of fields of another epoch |
| RealtimeStore.Store.JoinChannel | src/perfcho/infra/redis/scripts.py:418-437 | Keeps the invariant; joins exactly when the epoch is current and a member already or below the limit, and changes no other membership |
| RealtimeStore.Store.LeaveChannel | src/perfcho/infra/redis/scripts.py:440-456 | Keeps the invariant; takes exactly this membership away |
| RealtimeStore.Store.ListChannel | src/perfcho/infra/redis/scripts.py:459-490 | The listing loop prunes; in a valid store it returns exactly the accounts whose current epoch is a member |
| RealtimeStore.Store.AttachSpectator | src/perfcho/infra/redis/scripts.py:493-549 | All refusals in order, the new relation in both directions, and the pruned history window |
| RealtimeStore.Store.DetachSpectator | src/perfcho/infra/redis/scripts.py:552-569 | Keeps the invariant; a matching relation is cut in both directions and no other changes |
| RealtimeStore.Store.GetSpectator | src/perfcho/infra/redis/scripts.py:572-602 | Keeps the invariant; returns the relation exactly while it outlives the asked time, and otherwise cuts it in both directions |
| RealtimeStore.Store.ListSpectators | src/perfcho/infra/redis/scripts.py:605-645 | The loop over viewers returns the valid ones and deletes the rest |
| RealtimeStore.Store.PublishFrame | src/perfcho/infra/redis/scripts.py:648-744 | All refusals in order, the viewer sweep, eviction and the new ring and stream |
| RealtimeStore.Store.ReadFrames | src/perfcho/infra/redis/scripts.py:747-786 | Prunes, then returns the latest window or the frames after a cursor |
| RealtimeStore.Store.Create | src/perfcho/infra/redis/realtime.py:112-141 | Makes a store with a valid, empty state exactly when every limit and time to live is positive |
| RealtimeEffects.ResolveIsExact | src/perfcho/infra/redis/scripts.py:203-213 | In a valid state resolving answers with the owner of the session, exactly while its lease outlasts the asked time |
| RealtimeEffects.ClearEffect | src/perfcho/infra/redis/scripts.py:389-401 | Presence goes exactly for the owning current epoch, and the index keeps listing the live presences |
| RealtimeEffects.PreferEffect | src/perfcho/infra/redis/scripts.py:404-415 | A preference is set exactly by the current epoch; other accounts and other fields stay, and no older epoch shows through |
| RealtimeEffects.JoinEffect | src/perfcho/infra/redis/scripts.py:418-437 | When a join succeeds, and that it adds one membership and nothing else |
| RealtimeEffects.LeaveEffect | src/perfcho/infra/redis/scripts.py:440-456 | When a leave succeeds, and that it removes one membership and nothing else |
| RealtimeEffects.DetachEffect | src/perfcho/infra/redis/scripts.py:552-569 | A detach removes one relation from both directions and leaves every other score as it was |
| RealtimeEffects.GetEffect | src/perfcho/infra/redis/scripts.py:572-602 | What a viewer sees is its unexpired relation; what it no longer sees is cut in both directions |
| RealtimeRenewals.HeartbeatLease | src/perfcho/infra/redis/scripts.py:216-238 | When a heartbeat succeeds, the exact new deadline, and that no other lease, counter or frame changes |
| RealtimeRenewals.HeartbeatBoard | src/perfcho/infra/redis/scripts.py:239-250 | Presence keeps its state and runs to the earlier of lease and presence time, with that index score; the preference runs with the lease; others' stay |
| RealtimeRenewals.HeartbeatChannels | src/perfcho/infra/redis/scripts.py:251-262 | Nobody joins or leaves, and the account counts in each of its channels until its lease ends |
| RealtimeRenewals.HeartbeatRelations | src/perfcho/infra/redis/scripts.py:263-304 | The relations of the account as viewer and as host run to the earlier of the two leases; no other changes and none goes |
| RealtimeTransitions.OpenEffect | src/perfcho/infra/redis/scripts.py:128-200 | Exactly when an opening is granted, its revision and deadline, and that nothing of the account's last epoch remains while everything else does |
| RealtimeTransitions.FenceEffect | src/perfcho/infra/redis/scripts.py:311-352 | A fence succeeds exactly for the current epoch and leaves nothing of the account, and everything else |
| RealtimeTransitions.AppearEffect | src/perfcho/infra/redis/scripts.py:355-386 | Exactly when presence is set, including the capacity counted in live presences, and that only this presence changes |
| RealtimeTransitions.AttachEffect | src/perfcho/infra/redis/scripts.py:493-549 | Exactly when a viewer attaches, the revision it gets, and that its one relation is the new one and no other changes |
| RealtimeTransitions.AttachWindow | src/perfcho/infra/redis/scripts.py:540-549 | A new viewer gets the end of the host's unexpired frames, truncated exactly when some are left out |
| RealtimeTransitions.WatchEffect | src/perfcho/infra/redis/scripts.py:605-645 | When the listing answers, and that it deletes exactly the host's relations that end by the asked time |
| RealtimeTransitions.PublishEffect | src/perfcho/infra/redis/scripts.py:648-744 | Exactly when a frame is published, with the circular sequence check written out; its cursor, and that no relation and no other host's frames change |
| RealtimeTransitions.CarriedFrames | src/perfcho/infra/redis/scripts.py:671-676 | A publication carries on exactly the unexpired frames, and none when it begins a history |
| RealtimeTransitions.ReadEffect | src/perfcho/infra/redis/scripts.py:747-786 | When a read answers, what it prunes, and its window: bounds, flag and frames |
| RealtimeTransitions.ReadPastCursor | src/perfcho/infra/redis/scripts.py:774-785 | The frames past a cursor are the first ones with greater cursors, as many as the limit allows |
| RealtimeTransitions.AdvanceEffect | src/perfcho/infra/redis/scripts.py:57-63 | When time passes, exactly what ends by then is gone |
| RealtimeRefusals.DenialIs | src/perfcho/infra/redis/scripts.py:49-69 | The session check accepts exactly the current epoch ahead of its deadline; otherwise it says fenced exactly for an account with another epoch or a session of another account |
| RealtimeRefusals.OpenRefusal | src/perfcho/infra/redis/scripts.py:138-149 | Why an opening is refused, in order: deadline, revision overflow, session of another account |
| RealtimeRefusals.HeartbeatRefusal | src/perfcho/infra/redis/scripts.py:224-232 | A heartbeat is refused for its epoch first and only then for its deadline |
| RealtimeRefusals.PlainRefusals | src/perfcho/infra/redis/scripts.py:49-69 | Seven scripts refuse everything but the current epoch, each with the session check's own answer |
| RealtimeRefusals.AppearRefusal | src/perfcho/infra/redis/scripts.py:361-379 | Why presence is refused, in order: epoch, deadline, capacity |
| RealtimeRefusals.AttachRefusal | src/perfcho/infra/redis/scripts.py:501-524 | Why a viewer is refused, in order, with the host's epoch before the viewer's |
| RealtimeRefusals.PublishRefusal | src/perfcho/infra/redis/scripts.py:656-682 | Why a frame is refused, in order, with the circular sequence check written out |
| SessionRegistry.RefusalIsExact | src/perfcho/infra/redis/scripts.py:49-69 | In a valid registry a refusal says fenced exactly when the account has another epoch or the live session another account |
| SessionRegistry.StatusIsOwnership | src/perfcho/infra/redis/scripts.py:49-69 | The status check succeeds exactly for the account's current epoch before its deadline, and returns that deadline |
| SessionRegistry.GrantIsBounded | src/perfcho/infra/redis/scripts.py:136-146 | A granted lease is the least of request, durable deadline and time to live, and lies ahead |
| SessionRegistry.ExtensionIsBounded | src/perfcho/infra/redis/scripts.py:228-235 | A heartbeat never shortens a lease and never passes the durable deadline |
| SessionRegistry.GrantedIsFresh | src/perfcho/infra/redis/scripts.py:147-192 | A granted revision was never handed out before |
| SessionRegistry.OpenKeeps | src/perfcho/infra/redis/scripts.py:148-199 | Opening keeps sessions and account epochs in exact correspondence, with equal deadlines and covering counters |
| SessionRegistry.ExtendKeeps | src/perfcho/infra/redis/scripts.py:235-238 | A heartbeat keeps that correspondence |
| SessionRegistry.RemoveKeeps | src/perfcho/infra/redis/scripts.py:347-347 | Fencing keeps that correspondence |
| SessionRegistry.ExpireKeeps | src/perfcho/infra/redis/scripts.py:57-63 | Expiry removes session and epoch together and keeps that correspondence |
| RealtimeTypes.Latest | src/perfcho/infra/redis/scripts.py:16-23 | The greatest score, which becomes the key deadline |
| ChannelRosters.LeaveAll | src/perfcho/infra/redis/scripts.py:157-166 | The loop that leaves every joined channel equals the one-step definition |
| ChannelRosters.RenewAll | src/perfcho/infra/redis/scripts.py:252-262 | The loop that renews every joined channel equals the one-step definition and keeps the channels that still list the epoch |
| ChannelRosters.Prune | src/perfcho/infra/redis/scripts.py:465-488 | The pruning loop keeps exactly the active members |
| ChannelMembership.ReopenKeeps | src/perfcho/infra/redis/scripts.py:150-166 | After a new epoch opens, rosters list exactly what live sessions joined, with their deadlines |
| ChannelMembership.RenewKeeps | src/perfcho/infra/redis/scripts.py:251-262 | A heartbeat keeps that agreement |
| ChannelMembership.FenceKeeps | src/perfcho/infra/redis/scripts.py:322-331 | Fencing keeps that agreement |
| ChannelMembership.JoinKeeps | src/perfcho/infra/redis/scripts.py:424-436 | Joining keeps that agreement |
| ChannelMembership.LeaveKeeps | src/perfcho/infra/redis/scripts.py:446-455 | Leaving keeps that agreement |
| ChannelMembership.ListedKeeps | src/perfcho/infra/redis/scripts.py:464-488 | Pruning while listing removes no live membership |
| ChannelMembership.ListIsMembership | src/perfcho/infra/redis/scripts.py:464-489 | A listed account is exactly one whose current live session is in the channel |
| ChannelRefinement.StepRefines | src/perfcho/infra/redis/scripts.py:156-491 | Every script moves the plain set of memberships as the abstract set says: join adds, leave removes, open, fence and expiry remove the account, the rest do nothing |
| ChannelRefinement.ListRefinesSet | src/perfcho/infra/redis/scripts.py:459-490 | After any run, listing a channel returns exactly the accounts that the plain set has in it |
| SpectatorRelations.Unfollow | src/perfcho/infra/redis/scripts.py:177-183 | The loop over viewers deletes exactly the relations that name the old epoch |
| SpectatorRelations.SweepViewers | src/perfcho/infra/redis/scripts.py:283-306 | The loop over viewers keeps and deletes exactly the ones its conditions say |
| SpectatorAgreement.SeveredEffect | src/perfcho/infra/redis/scripts.py:167-189 | After an epoch is cut, no relation names its account and every other relation is untouched |
| SpectatorAgreement.SeveredKeeps | src/perfcho/infra/redis/scripts.py:332-349 | Cutting an epoch keeps both directions in agreement and all relations owned |
| SpectatorAgreement.RenewOwnKeeps | src/perfcho/infra/redis/scripts.py:263-282 | Renewing as a viewer keeps the agreement; the branch for a vanished host cannot be reached |
| SpectatorAgreement.RenewViewersKeeps | src/perfcho/infra/redis/scripts.py:283-306 | Renewing a host's viewers keeps the agreement |
| SpectatorAgreement.AttachKeeps | src/perfcho/infra/redis/scripts.py:519-538 | Attaching keeps the agreement and the viewer limit |
| SpectatorAgreement.DetachKeeps | src/perfcho/infra/redis/scripts.py:565-567 | Detaching keeps the agreement |
| SpectatorAgreement.SweptKeeps | src/perfcho/infra/redis/scripts.py:615-643 | A sweep that prunes viewers keeps the agreement |
| PresenceBoard.SetPresenceKeeps | src/perfcho/infra/redis/scripts.py:380-384 | Setting presence keeps presence owned and the online index equal to the live presences |
| PresenceBoard.RenewedBoardKeeps | src/perfcho/infra/redis/scripts.py:239-250 | A heartbeat keeps presence, index and preference owned |
| PresenceBoard.ClearedBoardKeeps | src/perfcho/infra/redis/scripts.py:188-198 | Opening or fencing leaves no presence or preference of the account |
| PresenceBoard.CapacityHolds | src/perfcho/infra/redis/scripts.py:370-379 | Live presences never outgrow the capacity they are set with |
| FrameRing.Stats | src/perfcho/infra/redis/scripts.py:83-101 | One pass keeps exactly the unexpired frames and measures their bytes and latest expiry |
| FrameRing.Evict | src/perfcho/infra/redis/scripts.py:723-729 | The eviction loop terminates and its byte counter is the sum of what is left |
| FrameRing.EvictedIsLongestSuffix | src/perfcho/infra/redis/scripts.py:723-729 | Eviction leaves the longest suffix that fits both limits |
| FrameRing.ReadAfter | src/perfcho/infra/redis/scripts.py:771-785 | The reading loop returns the first frames after the cursor and the truncation flag |
| FrameRing.AcceptedMovesForward | src/perfcho/infra/redis/scripts.py:677-681 | An accepted sequence number is 1 to 32768 steps ahead on the 16-bit circle, and conversely |
| FrameRing.LatestWindowIsSuffix | src/perfcho/infra/redis/scripts.py:113-125 | The latest window is the end of the history, truncated exactly when something is left out |
| FrameHistory.SurvivorsMembers | src/perfcho/infra/redis/scripts.py:89-98 | Exactly the unexpired frames survive pruning |
| FrameHistory.PublishedKeeps | src/perfcho/infra/redis/scripts.py:718-740 | Publishing keeps every ring within its limits and its owner's lease |
| FrameHistory.PrunedKeeps | src/perfcho/infra/redis/scripts.py:761-763 | Pruning keeps every ring valid; the corrupt branch cannot be reached |
| FramePolling.PublishedTracks | src/perfcho/infra/redis/scripts.py:718-740 | With nondecreasing expiries the stored frames are the last ones of everything published, numbered without gaps |
| FramePolling.PublishedRecords | src/perfcho/infra/redis/scripts.py:718-740 | With any expiries the stored frames are frames of the history, found by their cursors, and the counter is its length |
| FramePolling.UntruncatedWindow | src/perfcho/infra/redis/scripts.py:771-785 | An untruncated window over a gapless end of the history starts as many frames into it as the cursor says, whatever the cursor |
| FramePolling.FlagIsExact | src/perfcho/infra/redis/scripts.py:774-785 | Over such an end, a window with frames is truncated exactly when its cursors do not follow the given one |
| RealtimeRuns.StepKeeps | src/perfcho/infra/redis/scripts.py:128-785 | Every script and clock step keeps the whole-store invariant |
| RealtimeRuns.EverythingIsOwned | src/perfcho/infra/redis/scripts.py:128-745 | In every reachable state each presence, preference, relation and history belongs to current epochs and expires no later |
| RealtimeRuns.DirectionsAgree | src/perfcho/infra/redis/scripts.py:493-646 | In every reachable state a viewer counts in a host's set exactly when its live relation names the host, with the same deadline, and the set is within its limit |
| RealtimeRuns.RecipientsAreExact | src/perfcho/infra/redis/scripts.py:683-717 | A published frame goes to exactly the accounts whose live relation names this host epoch |
| RealtimeRuns.WatchersAreExact | src/perfcho/infra/redis/scripts.py:611-644 | Listing spectators returns exactly the relations to this host that outlive the asked time |
| RealtimeRuns.WatchingIsExact | src/perfcho/infra/redis/scripts.py:578-601 | A viewer's query returns its relation exactly while it outlives the asked time |
| RealtimeRuns.PublishIsBounded | src/perfcho/infra/redis/scripts.py:718-740 | After a publication the ring is within both limits, counts its bytes, has increasing cursors, and is the longest fitting suffix of the unexpired frames plus the new one |
| RealtimeFencing.DeadIsPowerless | src/perfcho/infra/redis/scripts.py:49-70 | No script called with a dead epoch changes the store, and each denies the call |
| RealtimeFencing.SupersededIsDead | src/perfcho/infra/redis/scripts.py:147-199 | A granted opening kills the previous epoch, also of the same session |
| RealtimeFencing.FencedIsDead | src/perfcho/infra/redis/scripts.py:319-351 | Fencing kills the epoch |
| RealtimeFencing.ExpiredIsDead | src/perfcho/infra/redis/scripts.py:57-63 | Expiry kills the epoch |
| RealtimeFencing.FencingIsPermanent | src/perfcho/infra/redis/scripts.py:311-353 | Whatever runs in between, a dead epoch never validates again and no call with it changes anything |
| PollingRuns.StepTracks | src/perfcho/infra/redis/scripts.py:671-785 | Every script keeps the stored frames frames of the current history, and its gapless end when its expiries never go back |
| PollingRuns.CollectsInOrder | src/perfcho/infra/redis/scripts.py:671-785 | In every run, restarts and expiries included, the reader gets published frames, each at most once and in the order of publication |
| PollingRuns.CompleteIffUnbroken | src/perfcho/infra/redis/scripts.py:671-785 | In every run the reader misses no frame exactly when each poll that returned frames came before a new history began and returned consecutive cursors |
| PollingRuns.CompleteIffUnreported | src/perfcho/infra/redis/scripts.py:671-785 | When expiries never go back, the reader misses nothing exactly when no poll that returned frames was truncated or came after a new history |
| PollingRuns.PollExactIffNoRestart | src/perfcho/infra/redis/scripts.py:771-785 | After every such run an untruncated poll from cursor c returns the history from its min(c, length)-th frame on, which is exact if and only if no history began since c was obtained or c is 0 |
| PollingCounterexamples.NewHistorySkipsSilently | src/perfcho/infra/redis/scripts.py:671-785 | A run on which the poll after a new play returns its second frame, reports no loss, and the first is never read |
| PollingCounterexamples.EarlyExpirySkipsSilently | src/perfcho/infra/redis/scripts.py:761-785 | A run without a new history on which a frame that expires before an earlier one is skipped and not reported |
| RoomSlots.FindAccount | src/perfcho/modules/multiplayer/models.py:214-216 | The first slot of the account, and none before it |
| RoomSlots.ApplyKeeps | src/perfcho/infra/redis/multiplayer.py:270-432 | Every mutation keeps slot count, order, one slot per account and coherent slots; only join and leave change who is in |
| RoomSlots.MovedIsSwap | src/perfcho/infra/redis/multiplayer.py:325-343 | Moving empties one slot and fills the other; the sort changes nothing |
| RoomEffects.JoinEffect | src/perfcho/infra/redis/multiplayer.py:270-291 | A newcomer gets the first open slot, not ready and with nothing chosen; who is in changes nothing; a room without an open slot refuses |
| RoomEffects.LeaveEffect | src/perfcho/infra/redis/multiplayer.py:306-320 | Leaving opens and clears the account's slot and touches no other |
| RoomEffects.MoveEffect | src/perfcho/infra/redis/multiplayer.py:322-345 | A move is accepted exactly to an open slot in range, takes the slot as it is and leaves its own open |
| RoomEffects.LockEffect | src/perfcho/infra/redis/multiplayer.py:347-362 | Exactly empty slots toggle between open and locked |
| RoomEffects.StatusEffect | src/perfcho/infra/redis/multiplayer.py:364-372 | Any status but open and locked is set on the account's slot alone |
| RoomEffects.TeamEffect | src/perfcho/infra/redis/multiplayer.py:374-378 | Teams 0, 1 and 2 are set on the account's slot alone |
| RoomEffects.ModsEffect | src/perfcho/infra/redis/multiplayer.py:380-388 | Mods are set on the account's slot alone |
| RoomEffects.LoadedEffect | src/perfcho/infra/redis/multiplayer.py:390-396 | Exactly a playing slot is marked loaded, and nothing else of it changes |
| RoomEffects.SkippedEffect | src/perfcho/infra/redis/multiplayer.py:398-404 | Exactly a playing slot is marked skipped, and nothing else of it changes |
| RoomEffects.FailedEffect | src/perfcho/infra/redis/multiplayer.py:406-416 | Exactly a playing slot is marked failed and complete |
| RoomEffects.MutationEffect | src/perfcho/infra/redis/multiplayer.py:270-432 | What a client writes: slots, the next revision exactly when they change, record, deadline, round |
| RoomEffects.MutationAccepted | src/perfcho/modules/multiplayer/models.py:189-212 | A mutation of a valid state is written if and only if the slots accept it, a lock comes from the host, and host and round participants remain: leaving in one's own round raises |
| RoomProjection.Release | src/perfcho/infra/redis/multiplayer.py:86-89 | Deletes exactly the owner's entries of the given accounts |
| RoomProjection.FindConflict | src/perfcho/infra/redis/multiplayer.py:72-84 | Finds a conflict exactly when some account is held by another room or by this one at the same or a later epoch |
| RoomProjection.Reserve | src/perfcho/infra/redis/multiplayer.py:92-94 | Gives exactly the new occupants the owner's entry |
| RoomProjection.Store.CompareAndSet | src/perfcho/infra/redis/multiplayer.py:32-98 | The compare-and-set script, branch by branch and with its loops, has exactly its meaning as create or replace |
| RoomProjection.Store.RemoveRoom | src/perfcho/infra/redis/multiplayer.py:100-116 | The remove script has exactly its meaning |
| RoomEffects.ReplaceEffect | src/perfcho/infra/redis/multiplayer.py:57-97 | A replacement commits if and only if session and revision are those read, the epoch is not older and changes with the session, and the occupants are free; then exactly these entries change, and else nothing |
| RoomEffects.CreateEffect | src/perfcho/infra/redis/multiplayer.py:41-97 | A room is published where there is none or one of an older epoch, whose entries go even when the occupants turn out not to be free |
| RoomEffects.RemoveEffect | src/perfcho/infra/redis/multiplayer.py:100-116 | A room goes if and only if it is the one read, with the owner's entries of the given accounts |
| RoomIndex.ReplaceKeepsExactly | src/perfcho/infra/redis/multiplayer.py:56-97 | A committed replacement keeps the index exactly when every occupant it drops is among those it releases |
| RoomIndex.CreateKeepsUnlessSpoiled | src/perfcho/infra/redis/multiplayer.py:41-97 | Creating keeps the index exactly when it is not a refused create over a live older room |
| RoomIndex.RemoveKeeps | src/perfcho/infra/redis/multiplayer.py:100-116 | Removing a room removes exactly its entries |
| RoomIndex.AdvanceKeeps | src/perfcho/infra/redis/multiplayer.py:90-94 | Rooms and their entries expire together |
| RoomIndex.OneRoomPerAccount | src/perfcho/infra/redis/multiplayer.py:72-94 | An account occupies slots in at most one live room |
| RoomIndex.EntryIffOccupant | src/perfcho/infra/redis/multiplayer.py:86-94 | An entry equals a room's owner exactly when the room holds the account |
| RoomCounterexamples.RefusedCreateSpoilsIndex | src/perfcho/infra/redis/multiplayer.py:43-84 | A concrete store on which a create refused with ACCOUNT_CONFLICT deletes the index of a live room |
| RoomCounterexamples.RepublishedSessionLosesOccupant | src/perfcho/infra/redis/multiplayer.py:57-97 | A concrete store on which a session published twice lets a stale write through |
| RoomRuns.SnapshotIsCurrent | src/perfcho/infra/redis/multiplayer.py:57-68 | A snapshot with the stored session and revision has the stored slots, and so has every state read after it |
| RoomRuns.StepKeeps | src/perfcho/infra/redis/multiplayer.py:243-500 | Every interleaved step keeps index, rooms and histories in agreement |
| RoomRuns.AccountsAreExclusive | src/perfcho/infra/redis/multiplayer.py:243-320 | In every interleaving an account sits in at most one live room, and its entry names a room exactly when the room holds it |
| RoomLinearization.CommitIsAtomic | src/perfcho/infra/redis/multiplayer.py:434-449 | A committed mutation is accepted by, and applied to, the slots stored at commit time |
| RoomLinearization.RunIsSequential | src/perfcho/infra/redis/multiplayer.py:434-500 | Any interleaving of creates, mutations, replacements and removals leaves the slots of the sequential run of its commits |
| RoomLinearization.SlotsAreLinearizable | src/perfcho/infra/redis/multiplayer.py:270-500 | From an empty store the slots are those of the sequential run, and always valid |
| GaloisField.MulAssociates | src/perfcho/infra/security/rijndael.py:65-68 | Multiplication modulo 0x11B is associative |
| GaloisField.MulDistributes | src/perfcho/infra/security/rijndael.py:65-68 | and distributes over addition |
| GaloisField.OrderOfThree | src/perfcho/infra/security/rijndael.py:53-62 | Three has order 255, so every non-zero byte has a logarithm |
| GaloisField.PowSurjective | src/perfcho/infra/security/rijndael.py:53-62 | Every non-zero byte is a power of three |
| GaloisField.InverseByLog | src/perfcho/infra/security/rijndael.py:74-74 | The antilogarithm of 255 minus the logarithm is the multiplicative inverse |
| RijndaelTables.BuildAntilog | src/perfcho/infra/security/rijndael.py:53-58 | The antilogarithm table holds the powers of three |
| RijndaelTables.BuildLog | src/perfcho/infra/security/rijndael.py:60-62 | The logarithm table inverts it |
| RijndaelTables.MultiplyIsMul | src/perfcho/infra/security/rijndael.py:65-68 | Multiplication through the tables is polynomial multiplication modulo 0x11B |
| RijndaelTables.InverseRows | src/perfcho/infra/security/rijndael.py:71-76 | The bit rows of all multiplicative inverses |
| RijndaelTables.AffineRows | src/perfcho/infra/security/rijndael.py:78-83 | The affine map of every inverse, bit by bit |
| RijndaelTables.SubstitutionBoxes | src/perfcho/infra/security/rijndael.py:85-92 | Both boxes hold the substitution and its inverse |
| GaussJordan.Normalize | src/perfcho/infra/security/rijndael.py:101-106 | Dividing a row by its pivot through logarithms, in place |
| GaussJordan.EliminateRow | src/perfcho/infra/security/rijndael.py:107-115 | Eliminating a row in place equals the textbook row operation |
| GaussJordan.EliminationInverts | src/perfcho/infra/security/rijndael.py:100-117 | Elimination of any matrix with non-zero pivots yields its inverse |
| RijndaelRoundTables.BuildInverseMix | src/perfcho/infra/security/rijndael.py:94-117 | The loop yields the inverse mix matrix |
| RijndaelRoundTables.MultiplyWord | src/perfcho/infra/security/rijndael.py:120-128 | A byte times a coefficient row |
| RijndaelRoundTables.BuildRoundConstants | src/perfcho/infra/security/rijndael.py:162-164 | The constants start at one, each is twice the one before in the field, and the first fourteen are 1, 2, 4, ..., 0x80, 0x1B, 0x36, 0x6C, 0xD8, 0xAB, 0x4D |
| RijndaelCipher.RoundConstantsArePowers | src/perfcho/infra/security/rijndael.py:162-164 | Round constants double in the field and are the numbers of the standard |
| RijndaelRoundTables.BuildTables | src/perfcho/infra/security/rijndael.py:131-164 | All sixteen tables hold what the rounds look up |
| RijndaelRoundTables.EncryptionLookup | src/perfcho/infra/security/rijndael.py:239-245 | Four table lookups equal substituting and mixing a column |
| RijndaelRoundTables.DecryptionLookup | src/perfcho/infra/security/rijndael.py:273-279 | Four table lookups equal inverse substituting and inverse mixing a column |
| RijndaelRoundTables.KeyLookup | src/perfcho/infra/security/rijndael.py:219-222 | Four table lookups equal inverse mixing a key word |
| RijndaelWords.SubInverse | src/perfcho/infra/security/rijndael.py:85-92 | The substitution is a bijection |
| RijndaelWords.MixInverse | src/perfcho/infra/security/rijndael.py:46-51 | The mix matrix and its inverse cancel |
| RijndaelCipher.ShiftRowsInverse | src/perfcho/infra/security/rijndael.py:32-33 | Shifts 7, 5, 4 undo shifts 1, 3, 4 |
| RijndaelCipher.CipherInverse | src/perfcho/infra/security/rijndael.py:227-293 | The textbook cipher and its inverse cancel in both orders, for all round keys |
| RijndaelCipher.EquivalentCipher | src/perfcho/infra/security/rijndael.py:217-222 | Decryption with reversed, inverse-mixed keys equals the straightforward inverse |
| RijndaelBlock.Schedule | src/perfcho/infra/security/rijndael.py:174-215 | The schedule loops produce the expanded key and its reversal |
| RijndaelBlock.MixInnerKeys | src/perfcho/infra/security/rijndael.py:217-222 | The inner decryption keys are inverse-mixed |
| RijndaelBlock.EncryptRound | src/perfcho/infra/security/rijndael.py:238-246 | A table-driven round equals the textbook round on every state and key |
| RijndaelBlock.DecryptRound | src/perfcho/infra/security/rijndael.py:272-280 | A table-driven inverse round equals the textbook one |
| RijndaelBlock.LastRound | src/perfcho/infra/security/rijndael.py:248-259 | The last round without mixing |
| RijndaelBlock.LastInverseRound | src/perfcho/infra/security/rijndael.py:282-293 | The last inverse round without mixing |
| RijndaelBlock.Rijndael256.Create | src/perfcho/infra/security/rijndael.py:170-225 | Accepts exactly keys of 32 bytes |
| RijndaelBlock.Rijndael256.EncryptBlock | src/perfcho/infra/security/rijndael.py:227-259 | Rejects other lengths and otherwise computes the textbook encryption |
| RijndaelBlock.Rijndael256.DecryptBlock | src/perfcho/infra/security/rijndael.py:261-293 | Rejects other lengths and otherwise computes the textbook decryption |
| RijndaelBlock.BlockInverse | src/perfcho/infra/security/rijndael.py:227-293 | For every key, block decryption and encryption are inverse in both orders |
| RijndaelStandard.SubstitutionBits | src/perfcho/infra/security/rijndael.py:35-91 | Every bit of a substitute is the sum of five bits of the inverse and a bit of 0x63 |
| RijndaelStandard.BytesByColumns | src/perfcho/infra/security/rijndael.py:170-259 | Byte i of a block is byte i % 4 of column i / 4, on the way in and out |
| RijndaelStandard.ExpansionStarts | src/perfcho/infra/security/rijndael.py:170-225 | The first round key is the key |
| RijndaelStandard.ExpansionContinues | src/perfcho/infra/security/rijndael.py:170-225 | The recurrence of the expanded key, with the numbers of the round constants written out |
| RijndaelStandard.RoundAt | src/perfcho/infra/security/rijndael.py:227-259 | A byte after a round: four bytes moved by 0, 1, 3 and 4 columns, substituted, mixed with 2, 3, 1, 1, and the key byte |
| RijndaelStandard.FinalRoundAt | src/perfcho/infra/security/rijndael.py:227-259 | A byte after the last round: moved, substituted and the key byte |
| RijndaelStandard.EncryptionByRounds | src/perfcho/infra/security/rijndael.py:227-259 | A block is encrypted by the first key, thirteen rounds and the last round |
| BlockChaining.UnpadOfPad | src/perfcho/infra/security/rijndael.py:310-337 | Strict unpadding undoes padding on every byte string |
| BlockChaining.PadOfUnpad | src/perfcho/infra/security/rijndael.py:310-337 | Whatever strict unpadding accepts is a padding |
| BlockChaining.PadAppendsItsLength | src/perfcho/infra/security/rijndael.py:310-311 | Padding appends 1 to 32 bytes, each with their number, up to a whole number of blocks |
| BlockChaining.UnpadChecksEveryByte | src/perfcho/infra/security/rijndael.py:329-337 | Unpadding succeeds if and only if the last byte is some n from 1 to 32 and so are the last n, and drops those |
| BlockChaining.ChainAt | src/perfcho/infra/security/rijndael.py:308-320 | Each ciphertext block is the image of the plaintext block added to the ciphertext block before, or to the vector |
| BlockChaining.UnchainAt | src/perfcho/infra/security/rijndael.py:322-337 | Each plaintext block is the image of the ciphertext block added to the ciphertext block before, or to the vector |
| BlockChaining.UnchainOfChain | src/perfcho/infra/security/rijndael.py:312-333 | Unchaining undoes chaining, for every block permutation |
| BlockChaining.ChainOfUnchain | src/perfcho/infra/security/rijndael.py:312-333 | Chaining undoes unchaining |
| RijndaelCbc.Rijndael256Cbc.Create | src/perfcho/infra/security/rijndael.py:301-306 | Accepts exactly keys and vectors of 32 bytes |
| RijndaelCbc.Rijndael256Cbc.Encrypt | src/perfcho/infra/security/rijndael.py:308-320 | The encryption loop computes the padded chain |
| RijndaelCbc.Rijndael256Cbc.Decrypt | src/perfcho/infra/security/rijndael.py:322-337 | The loop computes the strict inverse, and accepts exactly a positive number of blocks whose decryption ends in n bytes n for an n from 1 to 32 |
| RijndaelCbc.DecryptsWhatItEncrypts | src/perfcho/infra/security/rijndael.py:308-337 | Decrypting an encryption returns the plaintext, for every key, vector and byte string |
| RijndaelCbc.AcceptsOnlyEncryptions | src/perfcho/infra/security/rijndael.py:308-337 | A ciphertext is accepted exactly when it is the encryption of something, and then of its decryption |
| RijndaelCbc.EncryptsPaddedBlocks | src/perfcho/infra/security/rijndael.py:308-320 | Every ciphertext block in terms of the padded plaintext, the key and the block before it |
| RijndaelCbc.AcceptsPaddedBlocks | src/perfcho/infra/security/rijndael.py:322-337 | A ciphertext is accepted if and only if what it decrypts to ends in n bytes n, and the answer is what comes before |
| OutboxTable.Outbox.Create | src/perfcho/infra/db/repositories/outbox_delivery.py:36-52 | Makes a valid, empty table exactly when every limit is positive |
| OutboxTable.Outbox.Execute | src/perfcho/worker.py:100-147 | Missing, stale, raised and committed are told apart; a commit is the row's first effect and comes after the effects of all earlier rows of its partition |
| OutboxTable.Outbox.RecordFailure | src/perfcho/worker.py:182-212 | Charges the token that holds the row, which was never charged before; the count returned is the row's charges, the row is dead exactly at the maximum, and else waits two to the power of its attempts, up to the maximum wait |
| OutboxTable.Outbox.Append | src/perfcho/infra/db/repositories/outbox.py:28-62 | One event adds one pending row per consumer, all at its position, and touches no other row |
| OutboxTable.Outbox.BuryExhausted | src/perfcho/infra/db/repositories/outbox_delivery.py:63-76 | The dead-letter loop buries the earliest exhausted rows up to the batch size and no others |
| OutboxTable.Outbox.Claim | src/perfcho/infra/db/repositories/outbox_delivery.py:54-139 | The two batches of a claim: exhausted rows are buried, the earliest due rows leased under new tokens in position order, the rest unchanged; in a valid table nothing is buried and no two leased rows share a partition |
| OutboxTable.Outbox.RecordEnqueues | src/perfcho/infra/db/repositories/outbox_delivery.py:141-181 | The loop over broker outcomes changes only rows leased to this owner, charges no attempt, and a refused row waits two to the power of its enqueues, up to the maximum wait |
| OutboxTable.Outbox.Release | src/perfcho/infra/db/repositories/outbox_delivery.py:183-211 | The loop gives back exactly this owner's unsent claims among the references |
| OutboxTable.Select | src/perfcho/infra/db/repositories/outbox_delivery.py:63-103 | The first candidates in position order, as many as the batch allows |
| OutboxTable.LeasedPrefix | src/perfcho/infra/db/repositories/outbox_delivery.py:115-131 | Leasing row by row what one query selected does to each row what leasing it alone would: the others stay due meanwhile |
| OutboxTable.BuriedKeepDue | src/perfcho/infra/db/repositories/outbox_delivery.py:63-103 | Burying makes no row due and none undue |
| OutboxTable.NoneExhausted | src/perfcho/infra/db/repositories/outbox_delivery.py:63-76 | In a valid table no row is out of attempts without being finished |
| OutboxDelivery.RetryDelay | src/perfcho/infra/db/repositories/outbox_delivery.py:255-256 | The wait is positive and at most the maximum: two to the power of the count while that is within it |
| OutboxDelivery.WaitsGrow | src/perfcho/infra/db/repositories/outbox_delivery.py:255-256 | The wait never shrinks as the count grows |
| OutboxRuns.LeaseIsExclusive | src/perfcho/infra/db/repositories/outbox_delivery.py:239-252 | While a lease runs, the row changes only by acts that carry its token |
| OutboxRuns.ClaimsExactly | src/perfcho/infra/db/repositories/outbox_delivery.py:59-119 | The condition of a claim and the claimed row, written out |
| OutboxRuns.EnqueuesExactly | src/perfcho/infra/db/repositories/outbox_delivery.py:162-181 | The condition of a broker outcome and the row after it, written out |
| OutboxRuns.ReleasesExactly | src/perfcho/infra/db/repositories/outbox_delivery.py:198-211 | The condition of a release and the row after it, written out |
| OutboxRuns.FailsExactly | src/perfcho/worker.py:187-212 | The condition of a recorded failure and the row after it, written out |
| OutboxRuns.DueApart | src/perfcho/infra/db/repositories/outbox_delivery.py:79-103 | Two due rows are never of one consumer partition |
| OutboxRuns.StepKeeps | src/perfcho/infra/db/repositories/outbox_delivery.py:54-211 | Every event keeps rows, charges, tokens and partition order consistent |
| OutboxRuns.EffectsAtMostOnce | src/perfcho/worker.py:100-147 | In every run effects commit at most once, exactly when the row succeeded; attempts are the charges and never exceed the maximum |
| OutboxRuns.TokenChargedOnce | src/perfcho/worker.py:182-212 | Each token adds at most one attempt |
| OutboxRuns.FinishedForever | src/perfcho/worker.py:117-117 | Succeeded and dead rows never change |
| OutboxRuns.SupersededIsSpent | src/perfcho/worker.py:119-124 | An event leaves the token that held a row in place or spends it |
| OutboxRuns.SpentForever | src/perfcho/worker.py:119-124 | A spent token changes nothing, now or after any later run |
| OutboxRuns.PartitionsCommitInOrder | src/perfcho/infra/db/repositories/outbox_delivery.py:77-103 | Effects of one consumer partition commit in source order |
| MigrationPhases.Migration.RunPhase | tools/migration/domains/common.py:17-72 | The batch loop, stopped after any number of transactions, has committed exactly the next transactions of an uninterrupted run |
| MigrationPhases.Migration.Invoke | tools/migration/runner.py:120-125 | One invocation skips completed phases without losing a partial cursor and continues the run |
| MigrationRuns.BatchCovers | tools/migration/source.py:131-152 | A batch covers every row up to its last key, duplicates included, and is empty only at the end |
| MigrationRuns.BatchIsPage | tools/migration/source.py:131-152 | A batch is the next page of rows, and past it only rows that share the key of its last one |
| MigrationRuns.TransactKeepsPhase | tools/migration/domains/common.py:42-47 | Each transaction extends what the phase has committed to exactly the rows up to its cursor |
| MigrationRuns.CompletedPhasesAreExact | tools/migration/domains/common.py:17-82 | After any crashes a completed phase has committed each row with a positive key once, in key order, and a single phase exactly once |
| MigrationRuns.EnoughCompletes | tools/migration/domains/common.py:17-82 | Enough transactions, over however many invocations, complete every phase |
| BreakSweep.CoveredBreakTime | tools/migration/storage.py:317-333 | The sweep returns the number of integer instants in the range covered by at least one break |
| BreakSweep.Measure | tools/migration/storage.py:299-307 | First and last object, and a drain length that counts the uncovered instants between them |
| BreakSweep.DrainIsNotNegative | tools/migration/storage.py:307-307 | The clamp of the drain length at zero is never needed |
| BreakSweep.OrderDoesNotMatter | tools/migration/storage.py:318-318 | Any order of the breaks covers the same time |
| WeightedPerformance.OneBestPerBeatmap | src/perfcho/consumers/ranking.py:132-175 | Under every metric each played beatmap has one best score, first by the metric and then by the smaller id |
| WeightedPerformance.BestHasTheMost | src/perfcho/consumers/ranking.py:312-324 | By total score the best has the greatest total, by classic score the greatest classic score, by pp the most pp, and then the smallest id |
| WeightedPerformance.TopCountsInFull | src/perfcho/consumers/ranking.py:194-216 | The most pp counts in full and all the rest 0.95 of what it would count without it |
| WeightedPerformance.PerformanceIsMaximal | src/perfcho/consumers/ranking.py:194-216 | Under every metric the weighted sum is the greatest over all orders of the rated bests |
| WeightedPerformance.PerformanceIsBounded | src/perfcho/consumers/ranking.py:194-216 | Under every metric it is at most twenty times the top pp |
| WeightedPerformance.PerformanceNeverDrops | src/perfcho/consumers/ranking.py:132-216 | Under a pp policy adding an eligible score, which then has pp, never lowers it |
| WeightedPerformance.PerformanceDropsExactly | src/perfcho/consumers/ranking.py:128-216 | Under every metric a new score lowers the performance exactly when it replaces a best of more pp |
| WeightedPerformance.ScorePolicyDrops | src/perfcho/consumers/ranking.py:312-324 | Two scores of one beatmap on which both score metrics lower the performance |
| ScoringProjection.Projection.ApplyScore | src/perfcho/consumers/scoring_stats.py:74-175 | The row-by-row updates of one score keep every total balanced |
| ScoringProjection.Projection.ApplyReplayView | src/perfcho/consumers/scoring_stats.py:195-231 | The two updates of one replay view keep every total balanced |
| ScoringProjection.Projection.Consume | src/perfcho/consumers/scoring_stats.py:31-41 | Keeps totals balanced and every row of every table equal to what the applied events add up to; an applied event was never applied before and is no longer new, and a refused one changes nothing |
| ScoringConservation.TotalsAreConserved | src/perfcho/consumers/scoring_stats.py:78-231 | Months sum to users in plays, time and views; plays sum to users and to beatmaps; failed and quit sum to attempts minus passes |
| ScoringConservation.EventsCountOnce | src/perfcho/consumers/scoring_stats.py:234-240 | However deliveries repeat, no event is applied twice, and every row of every table is what the applied events add up to: users, months, plays, beatmaps and each cell of each histogram |
| ScoringStats.Bucket | src/perfcho/consumers/scoring_stats.py:169-169 | The hundredth a score ended in, and the last one from 99 percent on |
| ScoringConservation.ScoreMovesCell | src/perfcho/consumers/scoring_stats.py:155-175 | One score raises at most one histogram cell by one: that of its beatmap, its ending and its hundredth |
| ScoringConservation.ConsumeMovesCheckpoint | src/perfcho/consumers/common.py:260-284 | The checkpoint never moves back |
| ScoringConservation.OrderedDeliveriesAllCount | src/perfcho/consumers/scoring_stats.py:31-41 | Delivered in source order, every matching event is counted |

## Left out

- `find_for_account` cleanup and `list_presences` pruning: separate unfenced commands after a read, modelled as read-only.
- Room listing: the public room index, the room count limit of `create` and the clamp of its expiry.
- The retry loop of `_mutate`: each attempt is one read and one commit event; the bound on attempts is not modelled.
- The `room` record of a projection: no-op join and leave rewrite it without a new revision, so only slots are claimed linearizable.
- Clock skew between hosts and Redis, except the scripts that take the later of their clock and the caller's time.
- Byte formats: JSON, MessagePack, Lua number printing and the textual frame member; records and mathematical integers stand for them, so a malformed frame member cannot occur.
- Hashes whose deadline is always written together with their `expires_at` field carry it once, and the two keys of a channel roster or a frame ring share theirs.
- The relation revision counter: its deadline is not extended by a heartbeat, so nothing is claimed about it over a whole session.
- FramePolling.PublishedTracks: speaks of histories whose frames are published with nondecreasing expiries; `PublishedRecords` has what holds of all.
- PollingRuns.PollExactIffNoRestart: also for nondecreasing expiries, and for polls that find a stored frame; `CompleteIffUnbroken` covers every run.
- RealtimeStore.Store.ListChannel: the reply is a set, as the repository returns it, so the order of the script's listing is not stated.
- WeightedPerformance.PerformanceDropsExactly: exact arithmetic over reals with nonnegative pp; rounding of the stored numeric is not modelled.
- BreakSweep.CoveredBreakTime: breaks have the bounds the beatmap parser enforces, and only those.
- MigrationRuns.CompletedPhasesAreExact: the source is fixed and given in key order; phase names are distinct and differ from the initial marker.
- OutboxTable.Outbox.Claim: rows of equal position come in any order, where the query orders them by consumer; row locks of other transactions are a given set of keys.
- Outbox limits are fixed for the life of a table, so the bound on attempts is not claimed across a lowered maximum.
- Ranked score, accuracy and grade counts: plain aggregates beside the weighted performance.
- Presence snapshots, subscriptions, handler bodies, row conversion, HTTP, storage and logging.
- Secrecy of the cipher: only functional correctness is stated.
