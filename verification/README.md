# spore-peer: a verified model

This project models the three stateful parts of the spore-peer program and proves what they keep.

1. **The relay fabric** (`src/fabric.rs`): a registry of handles with leases and chained tokens, FIFO
   queues of 74-byte pointers, and a hold directory of content-addressed `.fenv` files from which the
   queues are rebuilt. `Registry`, `Queue`, `Envelope` and `Hold` are the parts, `Relay` the verbs as
   functions of the relay state, `Fabric` the verbs as the program runs them: a class whose fields and
   files change one step at a time, with every file operation logged. `Runs` composes verbs, restarts and
   kills between any two file operations, those of `open` included; `Coherence`, `CrashSafety`, `Ledger`,
   `Order` and `Restart` say what every run keeps, `Survival` exactly what is queued, `Kills` exactly what a
   kill can break.
   `Interleaving` splits fput at its queue lock, `Concurrent` adds kills and restarts to the interleavings.
   `Service` compares sweeping policies. `Answers` says what the verbs answer and write, from the fields and bytes
   of the request alone, `Delivery` puts the three in a row, and `FabricRpc` says what comes of them over the wire.
2. **The rpc2 codec** (`src/p2p.rs`, and `json_to_cbor` of `src/fabric.rs`): a subset of RFC 8949 (heads of
   section 3, simple values of section 3.3, shortest heads of section 4.1). The decoder is a family of item
   decoders, one for each depth; stability, linear work, validity and round trips are lifted from one depth
   to the next. `CborLoops` holds the loops, `Message`, `Builders` and `Frames` the layers above, `Vectors` the
   frames byte by byte; `Utf8` compares the text check with the definition of section 3 of RFC 3629.
3. **The content-addressed store and its sync** (`src/spore_peer.rs`): stores are maps from file stem to
   body. `Store` is the server, `Sync` the client against any peer (a function from state and request frame
   to state and response frame), `Honest` an honest node at the other end of the same wire, `Pulling`,
   `Pushing`, `Convergence` and `Reachability` what the two then do together, `SporePeer` the loops in place.
   `Replies` says what every reply of the server decodes to; `Scripts`, `PushScripts` and `Visits` what pulls, pushes
   and passes do against peers that refuse, answer wrongly or break off.

SHA-256 is an uninterpreted function onto 32 bytes. Where distinct bytes must have distinct names, the
statement says so with `NoCollision` on the finite set of byte strings that occur; nothing else is assumed
of it. Time is an input: each clock reading of a verb is a parameter. File operations are atomic steps that
persist once done.

Run `dafny verify dfyconfig.toml` in this directory to check everything.

## Where the code and its documentation part

- `json_to_cbor` is described as encoding booleans, but writes simple value 20 for true and 19 for false,
  which the decoder reads as false and null (`CborRoundTrip.RoundTripExactly`, `QueuedAnswerFlips`).
- The sweep gate is described as leaving no trace; that fails for a lease of zero, and exactly as
  `Registry.GateExactly` says.
- fput is described as refreshing the deadline on a re-publish. The deadline is part of the pointer, so a
  refresh of the same pointer never changes it; it renews the file and its receive time.
- fput is described with a `deadline` member in its request. No such member is read: the deadline is that in the
  pointer (`Answers.FputExactly`).
- `put_rate` is described as a limit per minute; the window is one second (`Limiter`).
- `write_frame` writes the low 32 bits of the length (`Frames.FrameRoundTripExactly` gives the exact range).
- A pull is described as fetching every body the store is missing. Its cap of 2000 counts list entries, so
  older bodies never arrive by pulling (`Pulling.PullCompletesExactly`).
- `Peer.Chain` with `N` = 0 returns the whole chain, since the walk stops only on reaching `N` entries
  (`Store.SelectExactly`).
- `sync_stream` is described as skipping every block id that is not hex. It skips those that `hex_decode`
  can slice and panics over the others, such as "aéa" (`Text.RadixPanicsExactly`, `Text.AccentPanics`).
  A file of such a name, 64 bytes long, in a store directory has the same effect on every handshake, chain
  request and push (`Store.ListingPanics`).
- The fuzz oracle holds for the probe it appends (`Message.ProbeOracle`), not for every tail
  (`Message.TailIsHarmlessExactly`).

## Model

| member | source | states |
|---|---|---|
| Fabric.FabricState.Open | src/fabric.rs:250-300 | opening a hold composts every file that is corrupt, expired or beyond the horizon and indexes the others by handle, sorted by (received_at, cid); its file operations are exactly the removals of those files, in listing order; `Answers.OpenReadsBytes` and `Answers.OpenRemovesRest` say by its bytes which file is which |
| Fabric.FabricState.SweepTable | src/fabric.rs:406-410 | the `retain` of the sweep leaves exactly the unexpired registrations |
| Fabric.FabricState.Freg | src/fabric.rs:385-434 | the in-place verb is the specified one on state and answer, which `Answers.FregExactly` spells out for every request, and does no file operation |
| Fabric.FabricState.Fput | src/fabric.rs:462-575 | the in-place verb is the specified one on state and answer, which `Answers.FputExactly` and `Answers.QueuedWrites` spell out, and its file operations are exactly persist, then drop the superseded, the evicted and the dead, in that order |
| Fabric.FabricState.StorePointer | src/fabric.rs:522-574 | envelope, digest, persist and critical section of an admitted fput: new queue and exact operation log |
| Fabric.FabricState.MergeInto | src/fabric.rs:538-562 | the dedupe loop refreshes the first entry with the pointer in place, or appends; a refresh drops the old file unless the envelope is identical |
| Fabric.FabricState.EvictOldest | src/fabric.rs:551-562 | the eviction loop, running while the queue is over its cap, removes and drops exactly the excess, oldest first |
| Fabric.FabricState.ReapQueue | src/fabric.rs:563-573 | the reap loop keeps the live entries in order and drops the files of the dead ones in order |
| Fabric.FabricState.Fpop | src/fabric.rs:599-639 | the in-place verb is the specified one on state and answer, which `Answers.FpopExactly` and `Answers.PoppedAnswer` spell out, with the exact operation log |
| Fabric.FabricState.DrainQueue | src/fabric.rs:626-637 | the remove(0) loop takes the specified prefix, hands out its live pointers in order and drops each file |
| Answers.FputExactly | src/fabric.rs:462-575 | every answer of fput in the order of its checks, from the fields of the request and the bytes of the pointer: header in bytes 0 and 1, deadline the little-endian number in bytes 66 to 73, each refusal in its exact words |
| Answers.QueuedInWindow | src/fabric.rs:504-521 | at a live handle and within the rate, a pointer [1, 0], 64 bytes, deadline d is queued if and only if now < d <= now + horizon |
| Answers.QueuedWrites | src/fabric.rs:522-574 | the envelope written is version 1, the 32 bytes of the handle, the pointer and the receive time in eight bytes, under the hex of its digest; its entry goes to the queue of that handle, and nothing else of the relay changes but one rate window |
| Answers.OpenReadsBytes | src/fabric.rs:265-294 | a file of these 115 bytes is kept if and only if the deadline in them is in the window, and is then queued for the handle, under the name and with the receive time they give, and as nothing else and nowhere else |
| Answers.OpenRemovesRest | src/fabric.rs:268-271 | a file of any other form is removed and nothing is queued under its name |
| Envelope.ParseRefuses | src/fabric.rs:152-172 | an envelope is refused if and only if its length, version or pointer header is wrong, and for the first of these reasons |
| Answers.FregExactly | src/fabric.rs:385-434 | state and answer of every freg from the fields of its request: all refusals in order and in their words; an accepted one installs token and now + min(lease or 3600, cap) |
| Answers.RegisteredAnswer | src/fabric.rs:425-433 | the client of an accepted freg reads the token it presented and the second its registration, as installed, ends |
| Answers.RenewedExactly | src/fabric.rs:411-420 | a well-formed freg of a live handle is accepted if and only if its prev_token, empty when absent, is the current token, whatever the budget |
| Answers.FpopExactly | src/fabric.rs:599-624 | every refusal of fpop in order and in its words, and when there is none |
| Answers.PoppedAnswer | src/fabric.rs:625-638 | reading the answer of a drain gives the first min(max, live) pointers that were live in the queue, in order, max being 8 when absent and never above 64, and exactly these have left the queue |
| Answers.PoppedOverRpc | src/fabric.rs:702-730 | the same list is read after the answer has gone through CBOR |
| Answers.RegisteredOverRpc | src/fabric.rs:702-730 | the freg answer comes back through CBOR as it is |
| Answers.PostedIsAnswered | src/fabric.rs:625-638 | what the books of a handle post as delivered, and count as handed out, is pointer by pointer what the client of the drain reads |
| Delivery.SentIsDelivered | src/fabric.rs:385-639 | the three verbs in a row, as transitions of a run: a pointer put at the empty queue of a registered handle is read back, alone, by the owner who pops in time and within the rate, and the queue is empty again |
| FabricRpc.HandleRpc2Fabric | src/fabric.rs:651-697 | the handler on the object: new state and reply frame are those of the verb the method names |
| FabricRpc.FabricReplies | src/fabric.rs:651-697 | every reply frame decodes to the number of its request and the exact refusal in E without a payload, or to the answer of the verb; that of an fput arrives as queued: false |
| FabricRpc.PoppedOverTheWire | src/fabric.rs:599-697 | end to end: the decoded reply to a drain carries the first min(max, live) live pointers of the queue |
| Registry.GateExactly | src/fabric.rs:399-432 | one gated freg equals one eager freg, in table and answer, if and only if it sweeps too, or nothing else has expired and an expired own entry does not fill the last place |
| Registry.GateRefinesStep | src/fabric.rs:406-432 | with a lease of at least one second the gated freg equals the eager one and every entry outlives the last sweep |
| Registry.GateRefinesRun | src/fabric.rs:399-432 | over every run of fregs with a nondecreasing clock: same table after each, same answers |
| Registry.ZeroLeaseDiverges | src/fabric.rs:400-410 | a zero lease breaks the refinement: a concrete run where the gated registry answers 503 and the eager one accepts |
| Service.GateIsInvisible | src/fabric.rs:399-432 | over every sequence of freg, fput and fpop: both sweeping policies give the same answers to all three verbs and the same relay but for the gate |
| Service.SharedBudget | src/fabric.rs:487-489 | an fput or fpop that reaches its rate check is refused there exactly when the address already made as many calls of either kind in that second |
| Service.WindowsAreHistory | src/fabric.rs:614-616 | after every run the stored windows are those of the joint history of both verbs |
| Registry.FregAuthority | src/fabric.rs:411-432 | a live registration is replaced only by who presents its token; no freg alters the live entry of another handle |
| Registry.TokenChain | src/fabric.rs:396-432 | while a registration stays live, its successive tokens form a chain, each installed by a freg that presented its predecessor |
| Service.DrainsPresentLast | src/fabric.rs:612-623 | over every sequence of all three verbs in which a registration stays live, every fpop that drains it presents the last token of its chain of installs so far |
| Registry.FregKeepsShape | src/fabric.rs:396-432 | the table stays within max_regs, keys stay 64 lower-case hex digits, tokens 16..=128 bytes |
| Registry.CheckedShape | src/fabric.rs:385-398 | whatever passes the request checks has a canonical handle and a legal token |
| Registry.GoodKeyDecodes | src/fabric.rs:522-526 | a registry key always decodes to 32 bytes and re-encodes to itself |
| Relay.AuthorizedExactly | src/fabric.rs:599-623 | fpop drains if and only if, within the rate, the request presents the current token of a live registration; an absent or empty token never does |
| Relay.AdmittedDecodes | src/fabric.rs:522-526 | an admitted fput has a handle whose decode cannot fail and a pointer with a v1 header and a deadline in the window |
| Relay.DrainExactly | src/fabric.rs:626-637 | fpop hands out min(max, live) pointers, the live ones of the shortest sufficient prefix in order; the suffix and all other queues are untouched |
| Queue.PutExactly | src/fabric.rs:538-574 | fput leaves the unexpired part of the last `max_per_handle` merged entries if and only if the queue was within its cap, or the pointer is new, or everything older has expired |
| Queue.PutNeverGrowsPast | src/fabric.rs:551-562 | an over-full queue never grows |
| Queue.TakenExactly | src/fabric.rs:626-637 | the drain removes the shortest prefix with `max` live entries, or the whole queue |
| Queue.PutConserves | src/fabric.rs:535-574 | as multisets of pointers: queue before plus pushed is queue after plus evicted plus expired |
| Queue.DrainConserves | src/fabric.rs:626-637 | as multisets of pointers: queue before is handed out plus expired plus queue after |
| Envelope.ParseUndoesMarshal | src/fabric.rs:141-177 | parsing a marshalled envelope gives it back if and only if its pointer has the v1 header |
| Envelope.MarshalUndoesParse | src/fabric.rs:152-177 | whatever parses marshals back to the same bytes |
| Envelope.MarshalInjective | src/fabric.rs:141-148 | two envelopes with the same bytes are the same |
| Envelope.MarshalInto | src/fabric.rs:141-148 | filling the buffer section by section writes exactly the specified bytes |
| Coherence.CoherentMeans | src/fabric.rs:535-574 | what coherence says: the `.fenv` stems are exactly the indexed cids, each occurring once, each file an envelope for its entry |
| Runs.NextKeepsCoherent | src/fabric.rs:535-637 | every verb and restart keeps index and disk in two-way agreement and queues within the cap |
| Runs.CrashFreeRunsAreCoherent | src/fabric.rs:250-637 | after open and after every step of every kill-free run: stems are the indexed cids, files match their entries, pointers are distinct, no queue exceeds the cap; of the starting hold only the files that open keeps matter |
| Runs.OpenedCoherent | src/fabric.rs:250-300 | opening any hold whose kept files are good gives a coherent relay within its cap |
| Runs.RunKeepsShape | src/fabric.rs:385-432 | in every run, with kills and restarts, the registry keeps its budget, keys and token sizes |
| Runs.RunsHaveNoOrphans | src/fabric.rs:250-637 | in every run, with kills at any file operation of any verb or of open itself, each file on disk is a well-formed envelope that the first open kept or some fput wrote, and its handle has an entry for it |
| Runs.TriesPrune | src/fabric.rs:258-297 | any number of killed opens remove only files that one of them would not keep, and change nothing else |
| Kills.NextKeepsCoherentExactly | src/fabric.rs:535-574 | one operation of any kind, killed or not, from a coherent relay within its cap: it stays coherent if and only if the kill does not double a pointer, and within the cap if and only if the kill does not overfill a queue |
| Kills.PutDistinctExactly | src/fabric.rs:538-557 | after a killed fput a queue has a pointer twice if and only if the kill fell between rename and first removal of a refresh under a new name, and both files come back in the window |
| Kills.PutCapExactly | src/fabric.rs:551-562 | after a killed fput a queue exceeds the cap if and only if it was full, the kill fell between rename and first removal of a new name, and every file comes back in the window |
| Kills.PlainKill | src/fabric.rs:535-574 | the two conditions as a caller could check them before the kill, when no open is killed |
| Kills.RunsAreCoherent | src/fabric.rs:250-637 | runs with kills stay coherent and within the cap as long as no kill doubles or overfills |
| Kills.KilledRefreshDoubles | src/fabric.rs:538-550 | put, refresh in another second killed after its rename, reopen: the queue has the pointer twice |
| CrashSafety.NextSurvives | src/fabric.rs:535-637 | any operation, killed after any number of file steps, and any number of opens killed after it, keeps the file of every pointer whose removal it had not got to: of an fput those reached among the evicted and burned, of a drain those reached, of a killed open the files reached |
| CrashSafety.AcknowledgedSurvives | src/fabric.rs:250-637 | crash safety: a pointer whose fput was acknowledged, or killed after its rename, and whose file no operation since got to removing is on disk and in its queue, whatever is killed and reopened |
| CrashSafety.RestartedExactly | src/fabric.rs:258-297 | a restart through any killed opens keeps a pointer if and only if it had a file, is in the window, and the killed opens did not remove all its files |
| CrashSafety.OpensRemoveOutside | src/fabric.rs:270-280 | killed opens only remove a pointer that was outside the window of one of them |
| Survival.NextExactly | src/fabric.rs:535-637 | one operation of any kind, killed anywhere: a pointer queued once at most has a file afterwards if and only if it had one or the operation wrote one, and the operation did not get to removing it |
| Survival.NextKeepsOneCopy | src/fabric.rs:538-574 | every operation, killed or not, leaves a pointer queued once at most with its file, unless it is a refresh of that pointer killed between its rename and its first removal |
| Survival.QueuedExactly | src/fabric.rs:250-637 | the contents of every queue in every run with kills: a pointer is queued, and on disk, if and only if it came with the hold or an fput of it reached its rename, and no operation from there on got to removing it |
| Ledger.Conservation | src/fabric.rs:535-637 | kill-free, restarts included: initial plus pushed equals delivered plus evicted plus expired plus queued, per handle and pointer; refreshes add nothing |
| Ledger.NextBalances | src/fabric.rs:535-637 | every kill-free operation balances the books of every handle |
| Ledger.AtMostOnce | src/fabric.rs:535-637 | with kills: copies handed out plus copies queued never exceed the initial files plus the fput calls that reached their rename, so a drained pointer never comes back by itself |
| Ledger.RestartKeeps | src/fabric.rs:258-297 | a kill-free restart keeps, per handle, exactly the pointers whose deadline is in (now, now + horizon] |
| Hold.OpenApplied | src/fabric.rs:258-297 | the removals of open, all of them, leave exactly the kept files |
| Restart.OpenIsDeterministic | src/fabric.rs:258-297 | every directory enumeration order rebuilds the same queues |
| Restart.OpenIsIdempotent | src/fabric.rs:258-297 | opening again at the same time changes no file and no queue, under any new enumeration |
| Restart.RebuiltQueue | src/fabric.rs:263-297 | a rebuilt queue is ascending by (received_at, cid) and holds exactly the entries of the kept files of its handle |
| Restart.RebuiltOrder | src/fabric.rs:295-297 | in a rebuilt queue envelopes received in different seconds stand in receive order |
| Order.NextDated | src/fabric.rs:538-557 | one operation or kill keeps queues ordered by receive time and dates no file in the future |
| Order.RunIsDated | src/fabric.rs:538-557 | in every run whose clock does not go back, with kills and restarts, each queue is in order of reception and nothing is dated in the future |
| Order.RestartOrders | src/fabric.rs:295-297 | after a restart any two entries stand in the order of (receive time in the file, file name) and in no other: a refreshed one moves back |
| Order.NextTimed | src/fabric.rs:538-557 | nothing but an fput of the pointer itself that reaches its rename changes the receive time of its entry and file: no other verb, no kill, no restart |
| Order.RunKeepsPutOrder | src/fabric.rs:538-557 | two pointers put in different seconds and not put again stand in put order in every state of every run, before and after every restart and kill; an fput counts exactly if it reached its rename |
| Interleaving.SchedulesLeaveNoOrphans | src/fabric.rs:535-574 | in every interleaving of any number of split fputs and fpops each file is referenced by the index or owned by an fput in flight |
| Interleaving.UninterruptedPut | src/fabric.rs:535-574 | a persist followed at once by its commit is the whole fput, on queues and files |
| Interleaving.WholePop | src/fabric.rs:625-637 | a pop is the drain of fpop |
| Concurrent.CutPut | src/fabric.rs:538-573 | a commit cut short leaves the files that an fput killed after as many of its file operations leaves |
| Interleaving.SharedNameStrands | src/fabric.rs:535-574 | the other direction fails: two fputs of one pointer in one second and a drain between their commits leave an entry without a file |
| Interleaving.PrivateSchedulesAgree | src/fabric.rs:535-574 | as long as each persist uses a name that is not on disk, every entry and every fput in flight keeps its file |
| Interleaving.PersistIsSafeExactly | src/fabric.rs:535-574 | after a persist done by some moment, every later schedule of new names, its clock readings from that moment on and its drains of at most 64, keeps a file behind every entry if and only if the persisted name was not on disk or its pointer has burned by that moment |
| Concurrent.KilledRunsLeaveNoOrphans | src/fabric.rs:250-637 | in every interleaving with kills, between pieces or inside the lock, and with opens killed themselves: each file is referenced by the index or owned by an fput in flight, and files, entries and flights are envelopes of the run |
| Concurrent.KillIsPrivate | src/fabric.rs:258-297 | after any kill and restart every entry has a file of its own |
| Concurrent.KilledRunsStayPrivate | src/fabric.rs:250-637 | with kills too: as long as fputs persist names that are not on disk, every entry and every fput in flight has a file of its own |
| Concurrent.KilledRunsLoseExactly | src/fabric.rs:563-574 | what a kill anywhere loses in such a run: a pointer is queued afterwards if and only if the kill had not got to the file of some copy of it, queued or in flight, it is in the window, and no killed open removed that file |
| Concurrent.KilledRunsLoseNothing | src/fabric.rs:250-637 | in particular a kill between pieces loses exactly the pointers outside the window of the next open |
| Concurrent.KillKeepsFiled | src/fabric.rs:563-574 | at any kill, one between two removals under the lock included, a pointer is queued afterwards if and only if a file of it was left on disk, in the window, and not removed by a killed open |
| Concurrent.FilesAreCopies | src/fabric.rs:535-574 | there are never more files of a pointer than copies of it, queued or in flight |
| Concurrent.KilledRunsHandOnce | src/fabric.rs:535-637 | at most once in every interleaving with kills: copies handed out plus copies queued or in flight never exceed those at the start plus the persists of the pointer |
| Limiter.AllowExactly | src/spore_peer.rs:126-141 | on any history: a call passes exactly when its streak since the last other second is below the limit |
| Limiter.LimiterRefinesHistory | src/spore_peer.rs:119-142 | with a nondecreasing clock: a call passes iff fewer than `max` earlier calls of the address fell in the same second, though one window per address is stored |
| Limiter.AgreesWithHistoryExactly | src/spore_peer.rs:126-141 | on any history, with any clock: the answer is that of the full history if and only if there is no limit, the history is not full, or it is full since the address was last seen in another second |
| Limiter.BackwardClockRefreshes | src/spore_peer.rs:132-135 | a clock that goes back gives a fresh window: a concrete history |
| Limiter.RateLimiter.Allow | src/spore_peer.rs:126-141 | the in-place update: new table, answer, and both characterisations of the answer |
| Limiter.CtEq | src/spore_peer.rs:153-162 | the XOR/OR accumulation without early exit decides equality |
| CborRoundTrip.ValueReads | src/p2p.rs:205-297 | an encoded value in front of any suffix decodes to its wire form and its length, or to nothing beyond the depth cap |
| CborRoundTrip.RoundTripExactly | src/fabric.rs:702-730 | decode of encode gives the value back, at any depth and before any suffix, if and only if it has no boolean and no negative number and nests within the cap |
| CborRoundTrip.QueuedAnswerFlips | src/fabric.rs:721-726 | the fput answer {"queued": true} reaches an rpc2 client as {"queued": false} |
| CborPrefix.ValueStable | src/p2p.rs:205-297 | a successful decode depends only on the bytes it used |
| CborPrefix.NoShorterDecode | src/p2p.rs:205-297 | no proper prefix of the used bytes decodes |
| CborPrefix.ValueExtends | src/p2p.rs:205-297 | appending bytes changes no successful decode |
| CborWork.CallsBound | src/p2p.rs:205-297 | a decode makes at most one call per used byte, and at most one per byte plus one when it fails, whatever counts the heads declare |
| CborWork.SizeBound | src/p2p.rs:205-297 | nodes plus text bytes of a result are at most twice the bytes used |
| CborValid.DecodedIsValid | src/p2p.rs:205-297 | a decoded value is well formed (UTF-8, number ranges, sorted keys), so it can be encoded again |
| Cbor.DecodeValue | src/p2p.rs:205-297 | termination, and every success uses between 1 byte and the whole buffer: the `used == 0` exits are dead |
| CborLoops.DecodeValueLoop | src/p2p.rs:205-297 | the recursive decoder with its loops computes the specified result with the specified number of calls |
| CborLoops.ItemsLoop | src/p2p.rs:250-264 | the array loop |
| CborLoops.PairsLoop | src/p2p.rs:265-284 | the map loop: pairs whose key is not text are read and dropped |
| CborLoops.JsonToCbor | src/fabric.rs:702-730 | appending piece by piece yields the specified encoding |
| Message.MessageCallsBound | src/p2p.rs:166-195 | a whole message costs at most one decode call per byte, plus one |
| Message.AppendedBytes | src/p2p.rs:166-195 | exactly what a decodable frame becomes when bytes are appended to it |
| Message.TailIsHarmlessExactly | fuzz/fuzz_targets/fuzz_p2p_decode.rs:43-66 | an appended tail gives None or the identical message if and only if the frame has a payload, or the tail is empty, undecodable or null |
| Message.ProbeOracle | fuzz/fuzz_targets/fuzz_p2p_decode.rs:43-66 | the fuzz oracle as a theorem for the probe it appends: unchanged with a payload, None without |
| Message.OnlyMapsAreMessages | src/spore_peer.rs:501-523 | only frames that start with a CBOR map head decode, so a JSON object never does |
| Message.MessageRoundTrip | src/p2p.rs:119-136 | header fields and payload of a built message come back, for every readable payload |
| Message.BareMessageRoundTrip | src/p2p.rs:374-376 | a message without a body comes back with a null payload |
| Message.MembersReadBack | src/p2p.rs:100-109 | a map whose count equals its pairs reads back all of them |
| Builders.HandshakeRoundTrip | src/p2p.rs:302-314 | both handshake payloads come back with their numbers |
| Builders.ChainRequestRoundTrip | src/p2p.rs:318-323 | TOP and N come back |
| Builders.BlidRoundTrip | src/p2p.rs:338-371 | a block id comes back as lower-case hex |
| Builders.BodyRoundTrip | src/p2p.rs:345-347 | a raw body comes back as hex |
| Builders.PutObjectRoundTrip | src/p2p.rs:352-364 | id and body come back as hex, and the token exactly when it is not empty |
| Builders.ChainRoundTrip | src/p2p.rs:327-335 | chain lists of any length come back entry by entry |
| Builders.BuildChainResponse | src/p2p.rs:327-335 | the appending loop builds the specified bytes |
| Frames.FrameRoundTripExactly | src/p2p.rs:20-45 | a frame is read back before any rest of the stream if and only if its length is in 1..=192 MiB |
| Frames.StreamRoundTrip | src/p2p.rs:20-45 | a concatenation of frames in range is read back as the list of payloads |
| Text.HexRoundTrip | src/spore_peer.rs:246-254 | both hex readers undo hex::encode |
| Text.RadixPanicsExactly | src/spore_peer.rs:246-254 | hex_decode panics if and only if a pair it reaches, all before it being numbers, ends inside a character |
| Text.RadixSafe | src/spore_peer.rs:246-254 | it does not panic on a text that decodes, nor on one whose even offsets are all character boundaries |
| Text.HexExactly | src/fabric.rs:389-395 | hex::decode takes exactly the texts of an even number of digits of either case, and reads them two by two |
| Text.RadixExactly | src/spore_peer.rs:246-254 | hex_decode takes exactly the texts of good pairs, a plus sign as first character included, and reads them pair by pair |
| Utf8.ValidExactly | src/p2p.rs:243-245 | a text item is accepted if and only if it spells a sequence of scalar values: no overlong form, no surrogate, nothing beyond U+10FFFF |
| Utf8.BoundaryExactly | src/spore_peer.rs:246-254 | in a valid text, the places where a slice does not panic are exactly those that leave valid texts on both sides |
| Vectors.OpeningBytes | src/p2p.rs:116-136 | the two requests that open every stream, byte for byte |
| Vectors.MessageBytes | src/p2p.rs:119-136 | the header map of a message with its three members in order |
| Vectors.RefusalBytes | src/p2p.rs:374-376 | an error response byte for byte |
| Vectors.PutBytes | src/p2p.rs:352-364 | a PutObject payload member by member, two of them or three with a token |
| Vectors.HeadBytes | src/p2p.rs:61-78 | each number is written in the shortest of the five head widths, most significant byte first |
| Vectors.FrameBytes | src/p2p.rs:20-45 | the length prefix byte by byte, and the range of lengths that are read |
| Vectors.ScalarBytes | src/p2p.rs:209-296 | numbers, negative numbers, tags, booleans, null and the other simple values, with arguments of every width, decode to exactly these values |
| Vectors.StringBytes | src/p2p.rs:238-249 | text and byte strings with lengths of every width |
| Vectors.CutBytes | src/p2p.rs:209-249 | reserved and indefinite lengths, cut arguments and cut strings are refused |
| Vectors.WidthIsIrrelevant | src/p2p.rs:209-297 | a count or number written wider than need be is read as the shortest one, with everything after it |
| Vectors.NestingExactly | src/p2p.rs:197-208 | k arrays within each other decode if and only if they stay within depth 64 |
| Vectors.MapReads | src/p2p.rs:265-284 | a map has under each text key the value of its last pair with that key, and pairs with other keys are dropped |
| Vectors.MessageExactly | src/p2p.rs:166-195 | which frames are messages, and every field of the message with its default |
| Store.StoreKeepsSound | src/spore_peer.rs:213-240 | storing loses nothing, keeps a verified store verified and returns a stored name |
| Store.FetchedExactly | src/spore_peer.rs:563-606 | whatever the peer sent, a body is accepted if and only if it has the digest asked for and is the frame itself, or follows its status byte and the frame itself does not have that digest |
| Store.LegacyFrameParses | src/spore_peer.rs:585-587 | a raw legacy frame parses to its body, whatever its first byte |
| Store.StatusFrameParsesExactly | src/spore_peer.rs:592-605 | a status-prefixed frame parses to its body if and only if prefixing does not collide with it |
| Store.FetchRoundTrip | src/spore_peer.rs:540-544 | what a node serves, the fetching client accepts |
| Store.SelectExactly | src/spore_peer.rs:396-410 | a chain answer holds the entries at heights up to TOP, newest first, N of them if there are, and all of them for N = 0 |
| Store.PutAcceptedExactly | src/spore_peer.rs:429-480 | a PutObject is accepted if and only if its body is hex, rate, token and quota allow it, BLID is the digest and the size is 1 byte to 32 MiB; it then adds exactly that body, else nothing; it gets no answer if and only if hex_decode panics over the BLID of an allowed body |
| Store.ServerKeepsStore | src/spore_peer.rs:372-486 | whatever request arrives under whatever policy, no body is lost and a verified store stays verified |
| SporePeer.BodyStore.StoreBody | src/spore_peer.rs:213-240 | the in-place store operation, with all its refusals |
| SporePeer.BodyStore.EnforceWritePolicy | src/spore_peer.rs:183-207 | rate, token and quota in that order, with the new windows |
| SporePeer.BodyStore.PutObject | src/spore_peer.rs:429-480 | the PutObject arm: new store, new windows and answer |
| SporePeer.BodyStore.HandleRpc2 | src/spore_peer.rs:372-486 | all arms: new store, new windows and the response frame, whose content the `Replies` rows give for every request, or none where the handler panics over an id or over a name in the directory |
| Replies.GetObjectReply | src/spore_peer.rs:411-428 | for every GetObject the decoded reply: the body in hex, or in E exactly 400 bad cid, 404 not found or 500 cid mismatch, by conditions on id and files; nothing changes |
| Replies.PutObjectReply | src/spore_peer.rs:429-480 | for every PutObject the decoded reply: the digest stored under, or in E the words of the first of seven reasons that applies; the files change in the first case only |
| Replies.HandshakeReply | src/spore_peer.rs:382-386 | the decoded handshake answer: number of ledger entries and version 1 |
| Replies.ChainReply | src/spore_peer.rs:387-410 | the decoded chain answer entry by entry, TOP and N read from the request with their defaults 0 and 128 and the cap 5000 |
| Replies.UnknownReply | src/spore_peer.rs:482-484 | any other method is answered 501 unknown method |
| Replies.RefusedExactly | src/spore_peer.rs:372-486 | every reply decodes, carries the number of its request, and has a non-empty E if and only if the request is not served |
| Replies.ViewAppends | src/spore_peer.rs:336-367 | the ledger view is the listing, name by name in order, without the names that are no digests |
| Replies.FetchOutcome | src/spore_peer.rs:563-606 | every outcome of a fetch, errors included, by the bytes of the response |
| SporePeer.ReadChain | src/spore_peer.rs:336-367 | the listing loop yields the specified chain view, or nothing where hex_decode panics over a name |
| SporePeer.WalkDown | src/spore_peer.rs:396-410 | the walk from the tip yields the specified selection |
| SporePeer.ReadPeerHas | src/spore_peer.rs:834-841 | the set of listed ids, or the refusal of a malformed list |
| SporePeer.BodyStore.SyncStream | src/spore_peer.rs:726-804 | the pull loop, entry by entry in place, equals the specified pull, for every peer, which `Scripts.PullPastRefusals` and `Scripts.PullEnds` spell out; a panic is an outcome of its own, and nothing runs after it |
| SporePeer.BodyStore.PushAll | src/spore_peer.rs:819-898 | the push loop, body by body, equals the specified push, for every peer, and leaves the local store alone; a local name that chain_view panics over ends it as a panic |
| SporePeer.BodyStore.SyncPass | src/spore_peer.rs:1006-1042 | the pass loop in place equals the specified pass, for every list of peers; a panic in a pull or a push ends it with the peers after that one unvisited |
| Sync.PullKeeps | src/spore_peer.rs:745-802 | against any replies, and however it ends, a pull loses no file and adds only verified ones |
| Sync.PullCounts | src/spore_peer.rs:743-803 | the fetch count of a finished pull is the number of files added, whatever the peer sent |
| Sync.PassKeeps | src/spore_peer.rs:1006-1042 | the same integrity over a whole pass against peers of any behaviour |
| Sync.PassCounts | src/spore_peer.rs:1007-1041 | a pass that no panic ends counts every peer once, as synced or as failed |
| Sync.EndedPass | src/spore_peer.rs:1011-1012 | after a panic no further peer and no file changes |
| StoreRuns.TapeIsAnyPeer | src/spore_peer.rs:745-802 | any peer with any state acts on a pull like a tape of frames, so the runs below leave no peer out |
| Scripts.PullPastRefusals | src/spore_peer.rs:745-803 | a pull from a peer that refuses some of what it lists ends well: the files gained are exactly the bodies that came for missing, unrefused ids among the first 2000 entries, the count is their number; refused, short and non-hex ids are passed over |
| Scripts.PullEnds | src/spore_peer.rs:746-799 | the first malformed entry, missing answer, payload that is no hex text, or body of another digest ends the pull with that error, and what was gathered before stays |
| Scripts.EveryPeerFollowsAScript | src/spore_peer.rs:745-802 | whatever a peer does and whatever its answers depend on, the pull is that from a peer answering by the script of its frames |
| PushScripts.PushPastRefusals | src/spore_peer.rs:843-897 | a push to a peer that declines some bodies ends well: every missing id up to 2000 is attempted, intact bodies are sent with the token, and the count is how many the peer took |
| PushScripts.PushEnds | src/spore_peer.rs:853-894 | an unreadable file, a missing answer, an error that contains 401, or another id in the answer ends the push there with that error |
| PushScripts.EveryPeerObeysAScript | src/spore_peer.rs:843-897 | whatever a peer does and whatever its answers depend on, the push is that to a peer answering by the script of its frames |
| PushScripts.Mentions401 | src/spore_peer.rs:873-879 | the search for 401 finds it exactly when it stands somewhere in the text |
| Visits.StreamOpens | src/spore_peer.rs:729-742 | the two requests of every stream byte for byte, and every outcome of their answers |
| Visits.ListedIds | src/spore_peer.rs:834-841 | the ids a peer is taken to have are exactly the second halves of its list, if all its entries are pairs |
| Visits.VisitPastRefusals | src/spore_peer.rs:1011-1031 | a visit to a peer that refuses and declines: bodies gathered plus bodies taken, offered without a token, are counted together |
| Visits.CountersExactly | src/spore_peer.rs:1006-1042 | each counter of a finished pass by itself: good visits, dead or failed peers, bodies moved by the good visits |
| Visits.PeersExactly | src/spore_peer.rs:1006-1042 | every peer is left as its own visit left it, a dead one alone |
| Visits.EndsExactly | src/spore_peer.rs:1006-1042 | a pass stops short if and only if one of its visits panics |
| StoreRuns.RunKeeps | src/spore_peer.rs:213-240 | from any moment of any run of served requests and pulls on: no body is lost or changed, verified stores stay verified |
| StoreRuns.RunIsSound | src/spore_peer.rs:372-486 | a store that started empty only ever holds bodies under their own digests |
| StoreRuns.StoredStaysServed | src/spore_peer.rs:297-316 | whatever a store that started empty held at some moment of a run it serves unchanged at every later one, and a fetching client accepts it, raw or behind a status byte |
| Honest.AskHandshake | src/spore_peer.rs:382-386 | over the wire, an honest node answers a handshake with its number of entries; the call fails if and only if a name in its directory makes chain_view panic |
| Honest.AskChain | src/spore_peer.rs:387-410 | over the wire, an honest node answers with its newest 5000 entries, newest first, or not at all for such a directory |
| Honest.AskObject | src/spore_peer.rs:411-428 | over the wire, a held body of at most 32 MiB comes back whole and verified |
| Honest.AskPut | src/spore_peer.rs:429-480 | over the wire, any body of 1 byte to 32 MiB is stored and acknowledged under its own digest |
| Pulling.PullExactly | src/spore_peer.rs:726-804 | a pull from an honest node gains exactly the missing bodies among its newest 2000 and counts them |
| Pulling.PullCompletesExactly | src/spore_peer.rs:776-778 | a pull completes if and only if every missing body is among the newest 2000; otherwise repeating it fetches nothing more |
| Pushing.PushExactly | src/spore_peer.rs:834-897 | a push moves exactly min(2000, number missing) bodies and adds nothing the client does not hold |
| Pushing.PushProgress | src/spore_peer.rs:834-897 | after n push passes exactly max(0, m - 2000 n) of m missing bodies are left |
| Pushing.PushCompletesExactly | src/spore_peer.rs:834-897 | the peer is complete after n passes if and only if 2000 n >= m |
| Convergence.VisitJoins | src/spore_peer.rs:1011-1031 | one visit leaves both sides with the union and transfers exactly the size of the symmetric difference |
| Convergence.PassJoins | src/spore_peer.rs:1006-1042 | after a pass peer i holds the client's bodies plus those of peers up to i; dead peers change nothing; all three counters are exact |
| Convergence.TwoPassesConverge | src/spore_peer.rs:1006-1042 | two passes bring every reachable store to the union, a third transfers nothing |
| Convergence.UnionIsLedger | src/spore_peer.rs:213-240 | without collisions the union of canonical stores is a canonical store containing each |
| Convergence.StoresConverge | src/spore_peer.rs:2586-2655 | two-pass convergence from the stores alone, for any client, peers, dead peers and directory listings |
| Reachability.RoundsExactly | src/spore_peer.rs:1006-1062 | after any sequence of passes, each with its own reachable peers: the client holds its bodies and those of every peer reached at least once, each of these holds exactly what had reached the client by its last visit, the others are unchanged |
| Reachability.LateVisitHoldsAll | src/spore_peer.rs:1006-1062 | a peer visited when no peer is left to be reached for the first time holds, from then on, the union of every store that was ever reached |

## Left out

- Sockets, the accept loop, signals, the pidfile, command lines, `fabric_pub`, `peers.txt` and address checks: plumbing without a hard property. A peer is a frame-to-frame function; a broken connection is a missing response.
- JSON text: requests start as parsed values. Floats and strings beyond the modelled ranges do not occur in them.
- SHA-256 internals, HMAC, HKDF and the handle and token derivations: arithmetic on digests that no state depends on.
- File system errors: a failing write, rename or remove is not modelled, nor power loss between a completed step and the platter.
- Torn writes of a pull: `sync_stream` writes a fetched body in place; here that write is one atomic step.
- u64 overflow of `now + lease` and `now + horizon`: clocks and limits are far below 2^64 and sums are unbounded here.
- Fabric.FabricState.Open: one clock reading stands for the two that `open` takes for each file, as in a rebuild within one second.
- Hold files named with a doubled `.fenv` suffix: `Fabric.FabricState.Open` takes the stem to be the name without its last suffix.
- `to_lowercase` beyond ASCII: handles are compared as bytes.
- `serve_body` and `parse_fetch_response` on an id over which `hex_decode` panics: the functions here refuse it. What they accept decodes, so `Text.RadixSafe` applies.
- Error texts that carry numbers or the peer's own words are shortened to a fixed text; where the program tells them apart, so does the model.
- The order of directory listings: every listing that names each file once is allowed, at every moment, so modification times are not modelled.
- `store_bytes`: the walk over the store is a parameter of the caller, so the quota is checked against a given sum.
- Two addresses for one store in the peer list: peers are separate stores.
- The legacy JSON cid fetch and the fabric verbs on the same socket as the sync subset: an honest node here answers the four sync methods. `FabricRpc` has the fabric methods by themselves; `handle_verb`, their JSON face, only differs in the text around the answer.
- Scripts.PullPastRefusals: the count of ids already there is given for lists of at most 2000 entries; beyond that the loop goes on counting up to the first id it would have to ask for.
- FabricRpc.FabricReplies: asks that no registration reach the end of the u64 clock, like the source.
- Concurrent requests to one body store.
- Registry.GateRefinesRun: asks for leases of at least one second, since `Registry.ZeroLeaseDiverges` refutes it otherwise; `Registry.GateExactly` has the exact condition for a step.
- Ledger.Conservation: kill-free runs only, because a kill can leave two files for one pointer, exactly when `Kills.PlainKill` says; `Ledger.AtMostOnce` and `CrashSafety.AcknowledgedSurvives` cover kills.
- Survival.QueuedExactly: no refresh of the pointer is killed between its rename and its first removal, because it then has two files (`Kills.KilledRefreshDoubles`) and removing one is not removing it; `CrashSafety.AcknowledgedSurvives` has no such condition.
- Convergence.StoresConverge: honest peers hold canonical lower-case ids; upper-case spellings that `hex_decode` accepts are covered by the integrity results only.
