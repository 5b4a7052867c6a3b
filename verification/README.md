# Flux-rs verification

Flux-rs steers the traffic of chosen Android apps into a local proxy engine. A
kernel module and BPF programs decide packet by packet; a Rust daemon computes the
policy, publishes it, supervises the engine and keeps its own files. This project
models the parts of that system whose correctness is not visible in one function
body, and proves what they promise. `dafny verify dfyconfig.toml` checks everything.

- **Bypass policy, end to end.** `PolicyEpoch.dfy` is the policy itself and the
  windows an update goes through. `BypassEndToEnd.dfy` packs it into the ioctl
  buffer, `BypassKernel.dfy` decodes that buffer into sorted, compacted, bucketed
  tables (`PrefixIndex.dfy`, `KernelSort.dfy`, `Words.dfy`) and answers lookups, and
  `EpochPublish.dfy` proves that the answer is the policy's. `sort()` is known only
  to give some sorted permutation; `TagConflicts.dfy` says when that shows.
  `BpfBypass.dfy` is the same verdict taken from the BPF tries.
- **Publication to lock-free readers.** `BypassRcu.dfy` interleaves readers,
  SET_BYPASS calls and module exit one memory access at a time; `ConcurrentVerdict.dfy`
  carries the policy's answer over to every such reader.
- **Capture protocol.** `CaptureProtocol.dfy` interleaves any number of egress
  invocations, one map access at a time, with policy commits and control switches;
  `CaptureOutcomes.dfy` gives the reason of every decision and action.
- **Kernel hook.** `UidTable.dfy` is the UID table rewritten under concurrent binary
  searches, and `UidMisses.dfy` says which rewrites they notice; `StealQueue.dfy` is the hand-over queue with its worker and purges, and
  `StealOutcomes.dfy` what becomes of each packet.
- **Packets.** `PacketParser.dfy` is the bounded decoder and its pull bound, and
  `PacketWriter.dfy` the headers it reads back; `IngressFastPath.dfy` is the ingress
  program with and without its fast path, and `IngressOutcomes.dfy` what it lets through.
- **Daemon.** `Lifecycle.dfy` (event planner and capture flag), `Migration.dfy` and
  `Install.dfy` (crash-safe configuration install), `LogRotation.dfy`.
- **Algorithms.** `CivilCalendar.dfy`, `DosTimestamp.dfy`, `Crc32.dfy`, `EditDistance.dfy`,
  `JsoncMask.dfy` (with `Utf8.dfy`), `ElfModinfo.dfy`.

Code that changes state is modelled by classes, arrays and loops and proved against
a specification; protocols are step machines whose runs are quantified over. A run
of a step machine interleaves single accesses to shared words in a sequentially
consistent memory.

## What the proofs say about the code

Six properties hold only under a condition, and each condition is proved exact:

- Two prefixes of one request that mask to the same network with different tags leave
  the surviving tag to the sort. Both verdicts are possible for a destination exactly in
  whitelist mode, when it is not a self address and the longest prefixes covering it,
  tagged as the module accepts them, say both RESERVED and POLICY
  (`TagConflicts.SortDecidesExactly` and `MixedIsReservedBesidePolicy`, with a request in
  `TagConflicts.ConflictingTagsDependOnOrder`). An epoch never contains such a pair.
- The ingress fast path passes packets that the decoder would drop, exactly when it
  answers and the length fields it skips are wrong
  (`IngressFastPath.FastPathChangesExactly`).
- Interrupted installs agree with an uninterrupted one exactly when the main file exists
  already, or the legacy flag is off, or the default main file carries `nodes.sources` or
  is migrated before it is published (`Install.DefaultHypothesisIsExact`, with a failing
  setup in `Install.BlankDefaultIsMigratedLater`).
- Capture is never left on behind a stopped engine exactly when a re-observation made
  while the flag is set finds no shutdown, disable or pause, and the engine and a committed
  data plane in place (`Lifecycle.ObservationHypothesisIsExact`, over all runs).
- The two DOS timestamp writers clamp differently: they agree throughout 1980 to 2107
  and differ outside, up to stated coincidences (`DosTimestamp.StampsAgreeExactly`).
- Add-then-subtract exposes a third verdict exactly when both ends agree on the flow and
  either it is captured and the mode changes, or it is direct, selected at some end, no
  self address at the start, and its old, mixed or new tag captures it
  (`PolicyEpochs.ThirdStateExactly`).

The module's own commit writes twice, where the comment on `apply_policy`
(crates/fluxd/src/dataplane/platform.rs:595-597) speaks of one control-leaf swap.
SET_BYPASS then SET_UIDS shows a third verdict exactly in two cases: to a UID being
deselected while its destination leaves the bypass set, and to every flow captured at
both ends, which goes direct while the UID table is empty
(`PolicyEpochs.ModuleCommitThirdStateExactly`). `PolicyEpochs.DeselectionCaptures` is an
instance of the first. The second case is reached by
committing any epoch over itself (`PolicyEpochs.RecommitLeaks`), and in the table itself by
publishing it again unchanged (`UidTable.RepublishingHides`); a search begun before the
rewrite can be torn as well (`UidMisses.SelectedUidMayBeTorn`), exactly when the new table
puts a word on the search's path that points away from the UID's place
(`UidMisses.MissedExactly`). A UID is missed in no other way (`UidTable.MissNeedsRewrite`).

## Hypotheses

- Capture protocol: the daemon's writer is an environment step. A bank is rewritten
  only while neither the published leaf nor an invocation still running names it (the
  grace period of the control swap); a policy commit publishes `committed(live,
  desired)`; a socket keeps its UID; a valid control leaf stays published.
- RCU: the identity of a set is never reused, though the allocator may reuse its address.
- UID table and steal queue: one control call at a time (the node is opened
  exclusively by one daemon thread); the work item runs on one CPU at a time; a lookup
  that finds a socket returns a counted reference which the time-wait handler, the
  transparency test and the assignment consume.
- BPF banks: a bank holds the keys of one epoch, and a trie lookup gives the value of a
  longest matching key.
- Lifecycle: the adapter runs commands in order and PublishInactive takes effect.
- Ingress: `skb->protocol` equals the Ethernet type, and the pull succeeds.
- Install: the schema check depends on the candidate only, and defaults do not change
  between attempts.

## Model

| member | source | states |
|---|---|---|
| PolicyEpochs.LongestFromIsLongest | crates/flux-core/src/policy_epoch.rs:195-213 | the specification match covers the address and no longer prefix of the map does |
| PolicyEpochs.LpmScan | crates/flux-core/src/policy_epoch.rs:195-213 | scanning the entries in any order while keeping the best finds the longest-prefix match of the map |
| PolicyEpochs.Commit | crates/flux-core/src/policy_epoch.rs:107-122 | the committed epoch takes everything from desired, and drains exactly the UIDs that were selected or draining and are not selected now |
| PolicyEpochs.CommitKeepsKnownUids | crates/flux-core/src/policy_epoch.rs:107-122 | no commit forgets a selected or draining UID |
| PolicyEpochs.AddThenSubtract | crates/flux-core/src/policy_epoch.rs:135-180 | the six phases expose exactly the listed windows |
| PolicyEpochs.SubtractionEndsCommitted | crates/flux-core/src/policy_epoch.rs:173-179 | deleting from the union what is not desired ends in exactly the committed epoch |
| PolicyEpochs.MergedLpm | crates/flux-core/src/policy_epoch.rs:152-158 | the union of two prefix maps answers as whichever has the longer match, the added map winning ties |
| PolicyEpochs.ThirdStateExactly | crates/flux-core/src/policy_epoch.rs:135-180 | some window differs from both ends if and only if the ends agree and either the flow is captured and the mode changes, or it is direct, selected at an end, not self at the start, and an old, mixed or new tag captures it |
| PolicyEpochs.PrefixUpdateHasNoThirdState | crates/flux-core/src/policy_epoch.rs:135-180 | with mode, selection and self-address membership equal at both ends, no window shows a third verdict |
| PolicyEpochs.ModeFlipExposesThirdState | crates/flux-core/src/policy_epoch.rs:305-336 | the blacklist-to-whitelist flip does show one |
| PolicyEpochs.ModuleCommitThirdStateExactly | crates/fluxd/src/dataplane/platform.rs:651-652 | SET_BYPASS then SET_UIDS, which empties the UID table first (kmod/fluxrs_hook.c:142-145), shows a third verdict exactly to a UID deselected while its destination leaves the bypass set, and to every flow captured at both ends |
| PolicyEpochs.DeselectionCaptures | crates/fluxd/src/dataplane/platform.rs:651-652 | for every UID and destination there is a commit of the first kind: direct before and after, captured in between |
| PolicyEpochs.RecommitLeaks | kmod/fluxrs_hook.c:142-145 | committing an epoch over itself lets each of its captured flows go direct in some window |
| PolicyEpochs.ModuleRollbackThirdStateExactly | crates/fluxd/src/dataplane/platform.rs:652-655 | a commit rolled back after a refused SET_UIDS shows a third verdict exactly to selected UIDs whose destination the two bypass sets treat differently |
| PolicyEpochs.PeaksAreMaxima | crates/flux-core/src/policy_epoch.rs:185-193 | both peak formulas are reached by some window and exceeded by none |
| Words.NativeAddressRoundTrip | crates/fluxd/src/dataplane/platform.rs:1908-1933 | octets taken as a native word and converted by ntohl are the address, on either byte order |
| Words.CountRoundTrip | crates/flux-core/src/kmod_uapi.rs:153-190 | a u32 count written in native order reads back, on either byte order |
| Words.MemLessTotal | kmod/fluxrs_bypass.c:114-123 | memcmp order on equal lengths is total and antisymmetric |
| KernelSort.DropRepeatsSorted | kmod/fluxrs_bypass.c:156-180 | dropping equal neighbours of a sorted list keeps exactly its elements, each once, increasing |
| KernelSort.UniqueKeys | kmod/fluxrs_bypass.c:156-180 | the in-place compaction leaves exactly those elements in front |
| PrefixIndex.UniquePfx | kmod/fluxrs_bypass.c:125-154 | the in-place compaction keeps the last entry of every run of one network and length |
| PrefixIndex.LastOfRunsStrict | kmod/fluxrs_bypass.c:125-154 | after sort and compaction keys strictly increase |
| PrefixIndex.LastOfRunsCovers | kmod/fluxrs_bypass.c:125-154 | every input key survives, under the tag of some input with that key |
| PrefixIndex.Table.FillOff | kmod/fluxrs_bypass.c:182-206 | the offsets cut the sorted entries into one bucket per prefix length |
| PrefixIndex.Table.SortAndCompact | kmod/fluxrs_bypass.c:380-386 | the stored table is some arrangement of the masked input with each key once |
| PrefixIndex.Table.Parse | kmod/fluxrs_bypass.c:361-388 | no memory, a bad length or a bad tag is refused; otherwise a valid table of the input is built |
| PrefixIndex.Table.Find | kmod/fluxrs_bypass.c:208-243 | binary search finds the key exactly when its bucket holds it, with that entry's tag |
| PrefixIndex.Table.Lookup | kmod/fluxrs_bypass.c:245-279 | trying each length from the longest finds a longest covering entry, or there is none |
| PrefixIndex.BuiltLookup | kmod/fluxrs_bypass.c:361-415 | a lookup in a built table is right about the masked input |
| PrefixIndex.LookupUnique | kmod/fluxrs_bypass.c:245-279 | without conflicting tags a lookup has one answer |
| BypassKernel.FamiliesOrdered | kmod/fluxrs_bypass.c:72-123 | both key comparators are strict total orders |
| BypassKernel.SelfTable.Parse | kmod/fluxrs_bypass.c:417-444 | the self table holds exactly the addresses given, strictly increasing |
| BypassKernel.SelfTable.Hit | kmod/fluxrs_bypass.c:281-301 | the self search is membership |
| BypassKernel.FluxSet.Direct | kmod/fluxrs_bypass.c:312-335 | the verdict is self membership, else the tag table on a longest match, else the default of the mode |
| BypassKernel.OutcomeExactly | kmod/fluxrs_bypass.c:446-508 | with enough memory, for every buffer: success exactly for a complete one with a known mode, counts within the caps and good prefixes, and each error exactly in its own case |
| BypassKernel.MemoryOnlyRefuses | kmod/fluxrs_bypass.c:446-508 | a failing allocation changes the answer to ENOMEM or not at all, and the call succeeds exactly when the buffer is acceptable and every allocation it needs is made |
| BypassKernel.BuildSet | kmod/fluxrs_bypass.c:475-508 | the first failing part decides the error; success gives a set that answers the request |
| BypassKernel.BypassModule.SetBypass | kmod/fluxrs_bypass.c:446-523 | every failure leaves the live set untouched; success publishes a fresh valid set that answers the buffer |
| BypassKernel.BypassModule.PolicyDirect | kmod/fluxrs_bypass.c:338-348 | no live set never sends direct; otherwise the live set decides |
| BypassEndToEnd.EncodeBypass | crates/flux-core/src/kmod_uapi.rs:153-190 | the loops produce header, prefixes and addresses in wire order, as long as the length formula says |
| BypassEndToEnd.HeaderRoundTrip | crates/flux-core/src/kmod_uapi.rs:153-190 | the module reads back the five header fields |
| BypassEndToEnd.DecodeOfEncode | kmod/fluxrs_bypass.c:446-508 | the module decodes an encoded buffer to exactly what was encoded |
| EpochPublish.MaskV6IsMask128 | kmod/fluxrs_bypass.c:60-70 | byte-wise masking equals masking with the 128-bit mask, for every address and length |
| EpochPublish.LookupIsLpm | kmod/fluxrs_bypass.c:245-279 | a lookup over the flattened map is the policy's longest-prefix match |
| EpochPublish.EpochMeaning | crates/fluxd/src/dataplane/platform.rs:1904-1936 | what the module reads back of a flattened epoch is the epoch's prefixes and addresses |
| EpochPublish.EpochIsAcceptable | kmod/fluxrs_bypass.c:446-523 | no epoch within the caps is refused when memory suffices |
| EpochPublish.PublishedAnswersEpoch | kmod/fluxrs_bypass.c:303-335 | every verdict the module may give on a published epoch is bypass_direct of that epoch, for every IPv4 and IPv6 destination |
| EpochPublish.KmodSetBypass | crates/fluxd/src/kmod.rs:140-163 | over-long listings are refused before the ioctl; otherwise the module serves the epoch or keeps what it had |
| EpochPublish.PublishThenProbe | kmod/fluxrs_bypass.c:338-348 | publishing then asking gives the epoch's verdict |
| TagConflicts.AnySurvives | kmod/fluxrs_bypass.c:125-154 | for every masked input entry some sort lets exactly that entry survive |
| TagConflicts.AnswersExactly | kmod/fluxrs_bypass.c:245-279 | the tags a lookup may answer are exactly those of the longest covering inputs |
| TagConflicts.SortDecidesExactly | kmod/fluxrs_bypass.c:303-335 | for every request and packet, two sets that answer the request may give opposite verdicts if and only if the mode is whitelist, the destination is not self, and its longest covering inputs include a POLICY one and another |
| TagConflicts.MixedIsReservedBesidePolicy | kmod/fluxrs_bypass.c:361-379 | with tags the module accepts, mixed longest inputs are a RESERVED one beside a POLICY one |
| TagConflicts.VerdictDetermined | kmod/fluxrs_bypass.c:125-154 | a request without conflicting tags determines every verdict, whatever the sort |
| TagConflicts.ConflictingTagsDependOnOrder | kmod/fluxrs_bypass.c:125-154 | one request, one packet to 10.0.0.0, and two sets that answer the request, one sending it direct and one not |
| BpfBypass.TrieIsLpm | bpf/flux.bpf.c:374-398 | a trie holding the keys of an epoch has exactly one answer, the policy's longest-prefix match |
| BpfBypass.BpfAgrees | bpf/flux.bpf.c:358-409 | bypass_hit may answer exactly bypass_direct of the epoch in the named bank, under the leaf's mode |
| BpfBypass.ModuleAgreesWithBpf | bpf/flux.bpf.c:405-409 | module and BPF programs serving one epoch give one verdict |
| BypassRcu.InvKept | kmod/fluxrs_bypass.c:477-536 | every step of every interleaving keeps ownership, content, mutual exclusion and read protection |
| BypassRcu.NothingFreedTwiceOrLost | kmod/fluxrs_bypass.c:338-536 | in every run no freed set is read, none is freed twice, every set ever allocated is in the heap or freed, and one in the heap is live or owned by exactly one call |
| BypassRcu.VerdictFromOneLiveSet | kmod/fluxrs_bypass.c:338-348 | a reader uses exactly the complete set that was live when it dereferenced |
| ConcurrentVerdict.ReaderAnswersLiveEpoch | kmod/fluxrs_bypass.c:338-348 | in every run in which each SET_BYPASS publishes an epoch, a reader answers every destination as the epoch live at its dereference |
| CaptureProtocol.InvKept | bpf/flux.bpf.c:522-688 | every access of every invocation and every daemon step keeps the protocol invariant |
| CaptureProtocol.DecisionWrittenOnce | bpf/flux.bpf.c:634-643 | in every run a socket's decision, once stored, never changes |
| CaptureProtocol.CapturedNeverLeaks | bpf/flux.bpf.c:556-586 | once captured, every packet that arrives later ends in redirect or drop, whatever policy and control do meanwhile |
| CaptureProtocol.AdmissionUnderOneEpoch | bpf/flux.bpf.c:624-636 | for every step that stores a CAPTURED decision there is an earlier step of the run, its invocation's read of the control leaf, whose live epoch captures the flow and whose active leaf gives the generation |
| CaptureProtocol.StoredUnderOneEpoch | bpf/flux.bpf.c:624-643 | every CAPTURED decision in storage was inserted by a step of the run and goes back in this way to one read of the control leaf |
| CaptureOutcomes.StoredDecidedRightly | bpf/flux.bpf.c:602-671 | every stored decision of every run is CAPTURED if and only if capture was on in the leaf its invocation read, the epoch live then captures the flow, and the listener lookup found one; else it is DIRECT |
| CaptureOutcomes.UnexaminedIsLeft | bpf/flux.bpf.c:522-547 | packets that are not examined are left to the stack at once |
| CaptureOutcomes.ActionHasReason | bpf/flux.bpf.c:522-688 | every action of every run has its reason: a packet is left to the stack, dropped or redirected only in the stated cases |
| CaptureOutcomes.DaemonSteps | crates/flux-core/src/policy_epoch.rs:107-122 | a policy commit puts exactly the committed epoch in force and leaves activity and generation alone; nothing else changes the epoch in force |
| CaptureProtocol.NeverCorrupt | bpf/flux.bpf.c:561-575 | the corrupt-decision drop is never taken |
| CaptureProtocol.AdvanceMakesProgress | bpf/flux.bpf.c:522-688 | no interleaving makes an invocation go back |
| UidTable.Table.Prepare | kmod/fluxrs_hook.c:121-142 | filter, sort and compaction give exactly the input UIDs other than 0 and 65534, strictly increasing |
| UidTable.Table.SetUids | kmod/fluxrs_hook.c:113-148 | errors leave the table; success publishes exactly the filtered input |
| UidTable.Table.Selected | kmod/fluxrs_hook.c:166-186 | the search is membership while nobody writes |
| UidTable.InvKept | kmod/fluxrs_hook.c:143-186 | every word read or written keeps every running search covered by tables it overlapped |
| UidTable.HitNamesOverlappingTable | kmod/fluxrs_hook.c:166-186 | a hit names a UID of a table published or being written between the read of the count and the answer |
| UidTable.UndisturbedIsExact | kmod/fluxrs_hook.c:166-186 | with no rewrite overlapping it the answer is membership in the filtered request last published |
| UidTable.TableOfLastRequest | kmod/fluxrs_hook.c:113-148 | in every run an idle table is the filtered request of the last publication not cleared since |
| UidTable.RewriteHidesAll | kmod/fluxrs_hook.c:142-145 | a search that reads the count during a rewrite misses every UID |
| UidTable.MissNeedsRewrite | kmod/fluxrs_hook.c:166-186 | a selected UID is missed only by a search that a rewrite overlaps |
| UidTable.RepublishingHides | kmod/fluxrs_hook.c:142-145 | after every run, publishing the same table again can hide any of its UIDs from a search |
| UidMisses.HarmlessRewritesAreUnseen | kmod/fluxrs_hook.c:166-186 | a search that begins on an idle table holding its UID is never missed while every overlapping rewrite is harmless: no word it puts on the search's path to the UID points the wrong way |
| UidMisses.PlaceDecides | kmod/fluxrs_hook.c:174-184 | where the new table reaches the UID's place, it is harmless if and only if the UID keeps that place |
| UidMisses.MissedExactly | kmod/fluxrs_hook.c:142-186 | for every run ending idle, every UID of the table and every next table, some interleaving of a new search with rewrites to that table misses the UID if and only if that table is not harmless |
| UidMisses.MovedUidMayBeMissed | kmod/fluxrs_hook.c:142-186 | after every run, a UID that the next table holds at another place may be missed by a search that read the count of an idle table, though every table it overlaps holds the UID |
| UidMisses.SelectedUidMayBeTorn | kmod/fluxrs_hook.c:142-186 | some run does this, for any three UIDs in order |
| UidTable.SearchIsBounded | kmod/fluxrs_hook.c:174-184 | no read is out of bounds and no search makes more than eleven |
| StealQueue.InvKept | kmod/fluxrs_hook.c:76-88 | every hook, worker and purge step keeps the conservation invariants |
| StealQueue.StolenConserved | kmod/fluxrs_hook.c:511-567 | a packet answered NF_STOLEN is queued, in the worker, freed once or delivered once; an accepted one is untouched |
| StealQueue.NoLostWakeup | kmod/fluxrs_hook.c:511-567 | in every run a queue that is not empty has the work pending or running, a purge under way, or a hook about to schedule |
| StealQueue.StolenPacketsEnd | kmod/fluxrs_hook.c:511-567 | at rest every packet answered NF_STOLEN has been freed or delivered, exactly once |
| StealOutcomes.AcceptedExactly | kmod/fluxrs_hook.c:522-567 | in every run the hook leaves a packet to the stack if and only if one of its tests failed for it |
| StealOutcomes.StolenPassedAll | kmod/fluxrs_hook.c:522-567 | a stolen packet has passed each of them |
| StealOutcomes.FreedExactly | kmod/fluxrs_hook.c:419-509 | a packet is freed if and only if the worker met the module not live, no listeners, or a negative answer of a lookup or test for it, or a purge took it |
| StealOutcomes.DeliveredExactly | kmod/fluxrs_hook.c:419-518 | a stolen packet that has left queue and worker is delivered if and only if none of this happened |
| StealOutcomes.DeliveredPassedAll | kmod/fluxrs_hook.c:419-509 | a delivered packet has passed every stage of the worker |
| StealOutcomes.DeliveredWithItsSocket | kmod/fluxrs_hook.c:499-503 | a delivered packet was assigned a socket, the last one looked up at that time |
| StealOutcomes.PassEnds | kmod/fluxrs_hook.c:419-509 | the worker never goes back with a packet |
| StealOutcomes.PurgeCompletes | kmod/fluxrs_hook.c:76-88 | a purge under way can always be completed, and then the queue is empty |
| StealOutcomes.SwitchesFollowControl | kmod/fluxrs_hook.c:76-94 | in every run the module is live exactly while the control node is open, and the listeners are those last set since |
| StealQueue.ReferencesReleasedOnce | kmod/fluxrs_hook.c:419-509 | every looked-up socket reference is put or assigned exactly once, none remains when the worker idles, and the stolen counter counts assignments |
| StealQueue.QueueBounded | kmod/fluxrs_hook.c:560-563 | with N concurrent hooks the queue never exceeds 4096 + N - 1 |
| StealQueue.BoundIsReached | kmod/fluxrs_hook.c:560-563 | some run reaches that length, for every N |
| PacketParser.ParsePkt | bpf/flux.bpf.c:239-356 | the branch structure of the decoder computes the specified result |
| PacketParser.WalkExtensions | bpf/flux.bpf.c:284-328 | the loop over extension headers is the recursive walk |
| PacketParser.ResultsAreExclusive | bpf/flux.bpf.c:211-213 | nothing, or a fragment without L4, or a readable TCP or UDP header |
| PacketWriter.ReadBack4 | bpf/flux.bpf.c:252-282 | every IPv4 packet written from its fields is read back: destination, protocol, place of the transport header and its flags, or that it is a fragment; other protocols are refused |
| PacketWriter.ReadBack6 | bpf/flux.bpf.c:283-356 | the same for IPv6 behind every chain of extension headers within the limits, and refusal behind every other |
| PacketWriter.WalkOfChain | bpf/flux.bpf.c:284-328 | the walk along any chain of headers, in and out of the limits |
| PacketParser.L4ExactlyBehindChain | bpf/flux.bpf.c:284-328 | TCP or UDP is found exactly when a chain of at most four extension headers and 256 bytes leads to it |
| PacketParser.FragmentExactlyBehindChain | bpf/flux.bpf.c:289-297 | a fragment is recognised exactly behind at most three extension headers |
| PacketParser.PullBoundSuffices | bpf/include/flux_abi.h:370-373 | after pulling 330 bytes every packet parses as if it were all linear, on both entry paths |
| PacketParser.PullBoundIsTight | bpf/include/flux_abi.h:370-373 | an IPv6 packet exists that any shorter pull rejects |
| PacketParser.Ipv4MatchesBoundsTable | crates/flux-core/src/parse_bounds.rs:9-20 | the u32 predicates describe exactly the IPv4 packets the decoder accepts |
| PacketParser.Ipv6MatchesBoundsTable | crates/flux-core/src/parse_bounds.rs:9-25 | the same for IPv6, saturation included |
| IngressFastPath.Program.FastPath | bpf/flux.bpf.c:737-795 | it answers as specified, bumping one counter, and never assigns |
| IngressFastPath.Program.FlxIn | bpf/flux.bpf.c:804-902 | action, counter and assignment of a run are those of the specified verdict |
| IngressFastPath.FastRefinesSlow | bpf/flux.bpf.c:839-871 | where the decoder accepts, a fast answer is the slow path's action and counter, with no assignment |
| IngressFastPath.NeverAnswersForAdmission | bpf/flux.bpf.c:734-736 | a bare SYN or a UDP datagram takes the slow path, for every packet, even one the decoder rejects, and however much of it is linear |
| IngressFastPath.AssignedIsNeverFast | bpf/flux.bpf.c:734-736 | a packet the decoder accepts as UDP or a bare SYN is never answered fast |
| IngressFastPath.FastPathChangesExactly | bpf/flux.bpf.c:839-871 | the program differs from itself without the fast path exactly on answered packets whose length fields are wrong |
| IngressFastPath.FastPassesWhatParseRejects | bpf/flux.bpf.c:748-768 | a packet exists that flx_in passes with the fast path and drops without it |
| IngressOutcomes.PassedRightly | bpf/flux.bpf.c:804-902 | for every packet and every outcome of the helpers: nothing passes but a fragment, a TCP segment that is no bare SYN, and an assigned bare SYN or datagram; every counter stands for its case and no drop counter goes with a pass |
| IngressOutcomes.AdmittedExactly | bpf/flux.bpf.c:871-902 | a typed and pulled packet whose headers ask for admission is assigned, and passes, if and only if the decoder accepts it and lookup, guard and assignment succeed |
| Lifecycle.Plan | crates/flux-core/src/runtime.rs:409-422 | the planner numbers the table's commands consecutively and advances the phase |
| Lifecycle.FlagOnlyInActive | crates/flux-core/src/runtime.rs:200-405 | over every run the capture flag is set only in Active |
| Lifecycle.NothingStopsUnderCapture | crates/flux-core/src/runtime.rs:200-422 | StopEngine, RestartWithBackoff and ExitProcess never run while the flag is set |
| Lifecycle.ObservationHypothesisIsExact | crates/flux-core/src/runtime.rs:475-493 | an observation is safe after every run that set the flag if and only if its bits show no shutdown, disable or pause, and an engine with a committed data plane; any other one is exposed by the next stimulus of a run |
| Lifecycle.IdsCountUp | crates/flux-core/src/runtime.rs:409-422 | command ids of a whole run count up from one until they saturate |
| Lifecycle.UpHasAnEntry | crates/flux-core/src/runtime.rs:200-405 | a run that ends in Active entered it by a commit taken in Activating or by an observation that sees Active, and stayed; one that ends in Activating, by core drift in Active or by an observation |
| Lifecycle.FlagSinceCommit | crates/flux-core/src/runtime.rs:200-422 | while the flag is set, the run holds the commit that set it, and since then every event found Active with the flag set and froze nothing |
| Lifecycle.NoiseDoesNotMatter | crates/flux-core/src/runtime.rs:424-427 | leaving capture-side drift and unexpected events out of any run leaves a run with the same final phase and flag |
| Lifecycle.IssuedExactly | crates/flux-core/src/runtime.rs:200-405 | the table read backwards: every command is issued exactly in the listed phases and for the listed stimuli |
| Lifecycle.MovedExactly | crates/flux-core/src/runtime.rs:200-405 | every phase is entered exactly from the listed phases by the listed stimuli |
| Lifecycle.ObservedExactly | crates/flux-core/src/runtime.rs:475-493 | what the bits of an observation are for each phase it yields |
| Migration.PrepareDocs | crates/flux-core/src/migration.rs:88-187 | the loops over moved keys produce the union of settings, and fail exactly when one conflicts |
| Migration.PrepareAgain | crates/flux-core/src/migration.rs:80-84 | preparing again after the advanced file was published gives the same result |
| Migration.PreparedIsCurrent | crates/flux-core/src/migration.rs:80-87 | a prepared main file needs no further migration, under either default |
| Migration.MainKept | crates/flux-core/src/migration.rs:117-181 | other keys of the main file, of nodes and of apps stay, and an explicit mode stands |
| Migration.SourcesKept | crates/flux-core/src/migration.rs:124-146 | the old list leads the sources in order, the URL is among them, nothing else is, and all are strings |
| Migration.AdvancedKept | crates/flux-core/src/migration.rs:148-175 | every moved setting arrives and no advanced setting is lost or changed |
| Migration.PartsCover | crates/flux-core/src/migration.rs:148-180 | every legacy key is moved by exactly one of the loops |
| Migration.NothingLegacyLeft | crates/flux-core/src/migration.rs:65-87 | files are left alone exactly if they parse and carry nothing legacy, and a prepared main file carries nothing legacy |
| Migration.PlainFilesMigrate | crates/flux-core/src/migration.rs:88-187 | migration succeeds on every main file of known settings, none given twice, beside an advanced file without nodes |
| Install.Disk.BackupOnce | crates/fluxd/src/install.rs:158-187 | an original backup is written once and never replaced |
| Install.Disk.InstallLocked | crates/fluxd/src/install.rs:85-156 | an installation stopped after any number of writes has made exactly that prefix of its plan; an invalid candidate changes nothing |
| Install.PlanResumes | crates/fluxd/src/install.rs:122-154 | after a crash at any write the new plan is the rest of the old one |
| Install.CrashesDoNotMatter | crates/fluxd/src/install.rs:85-156 | any sequence of interrupted attempts ends in the files of one uninterrupted run |
| Install.FinishIsTarget | crates/fluxd/src/install.rs:138-154 | a finished run leaves the target in place, and another run writes nothing |
| Install.InstalledIsValid | crates/fluxd/src/install.rs:115-122 | after every accepted installation the main and advanced files pass the schema check |
| Install.RefusedChangesNothing | crates/fluxd/src/install.rs:115-122 | where the check refuses every candidate, no sequence of attempts changes a file |
| Install.FreshInstall | crates/fluxd/src/install.rs:90-114 | onto an empty system exactly the three defaults are installed |
| Install.Upgrade | crates/fluxd/src/install.rs:90-156 | over an existing main file the result is what migration makes of the pair, refused exactly if migration fails or the check does, with the replaced documents backed up and the template kept |
| Install.BackupsHoldOriginals | crates/fluxd/src/install.rs:122-137 | at every point a backup holds the pre-install document, and one exists whenever that document is gone |
| Install.DefaultHypothesisIsExact | crates/fluxd/src/install.rs:95-110 | for every setup and files, all sequences of interrupted attempts finish as one uninterrupted run if and only if the plan is refused, the main file exists, the flag is off, or the default is marked or migrated before publication |
| Install.BlankDefaultIsMigratedLater | crates/fluxd/src/install.rs:95-110 | with a blank default under the legacy flag the next run replaces the main file the first run installed |
| LogRotation.Logger.Append | crates/fluxd/src/logger.rs:47-63 | rotates exactly at the size limit, appends what reached the disk, and keeps the files a suffix of everything written |
| LogRotation.Logger.Rotate | crates/fluxd/src/logger.rs:81-119 | shifts every kept file by one, overwriting none, and leaves at most `retain` closed files |
| LogRotation.Logger.ShiftUp | crates/fluxd/src/logger.rs:105-112 | the descending renames never replace a file, for any set of numbers |
| LogRotation.RotationKeepsSuffix | crates/fluxd/src/logger.rs:81-119 | oldest to newest, the files after a rotation are a suffix of those before |
| CivilCalendar.SourcesAgree | crates/fluxd/src/time.rs:19-30 | the truncating and the Euclidean form agree on every day number |
| CivilCalendar.Successor | xtask/src/zip.rs:107-118 | day z + 1 is the calendar successor of day z, and both are valid dates |
| CivilCalendar.CivilIsCalendar | crates/fluxd/src/time.rs:19-30 | both forms give the Gregorian calendar counted day by day from 1970-01-01, forwards and backwards |
| DosTimestamp.ZipStampReadsBack | xtask/src/zip.rs:91-103 | within the format's range the packed stamp unpacks to the calendar date and time of the second; earlier seconds give the DOS epoch |
| DosTimestamp.StampsAgreeExactly | crates/fluxd/src/bugreport.rs:896-909 | the two writers stamp a second alike exactly within the range, or on the stated coincidences outside it |
| Crc32.ShiftsAreLinear | xtask/src/zip.rs:121-139 | any number of shifts distributes over exclusive or |
| Crc32.TableStep | xtask/src/zip.rs:134-137 | a table lookup and a byte shift do what eight bit steps do |
| Crc32.TableCrc32 | xtask/src/zip.rs:121-139 | the table-driven sum is the bitwise checksum of every byte string |
| Crc32.BitwiseCrc32 | crates/fluxd/src/bugreport.rs:911-921 | so is the masked bit loop |
| Crc32.ChecksumIsRemainder | crates/fluxd/src/bugreport.rs:911-921 | the checksum is the mirrored, complemented remainder of the message, bits in sending order, in long division by the IEEE 802.3 generator |
| EditDistance.DistanceIsLeast | crates/flux-core/src/config.rs:941-957 | the recurrence is the length of a shortest path of single-character edits |
| EditDistance.Levenshtein | crates/flux-core/src/config.rs:941-957 | the two swapped rows compute it |
| EditDistance.ClosestKey | crates/flux-core/src/config.rs:933-939 | the first key at the least distance, or none of none |
| JsoncMask.Strip | crates/flux-core/src/engine_config.rs:324-375 | the byte loop computes the mask |
| JsoncMask.MaskIsLexical | crates/flux-core/src/engine_config.rs:321-323 | however a grammar of strings, comments and bytes reads the input, the mask renders that reading with comments blanked |
| JsoncMask.EveryInputLexes | crates/flux-core/src/engine_config.rs:324-375 | the grammar reads every input |
| JsoncMask.TokensKept | crates/flux-core/src/engine_config.rs:321-323 | strings, plain bytes and an unterminated block keep their bytes in place; comments are blanked |
| JsoncMask.BreaksKept | crates/flux-core/src/engine_config.rs:361-365 | every byte stays or becomes a space, and line breaks stay |
| JsoncMask.MaskIdempotent | crates/flux-core/src/engine_config.rs:324-375 | masking twice is masking once |
| JsoncMask.MaskKeepsUtf8 | crates/flux-core/src/engine_config.rs:372-374 | valid UTF-8 stays valid, so the final conversion cannot fail |
| ElfModinfo.RelocElfWithModinfo | crates/flux-core/src/modinfo.rs:62-104 | the buffer filled field by field is the laid-out file |
| ElfModinfo.Elf64Section | crates/flux-core/src/modinfo.rs:118-160 | the loop with early returns is the section search |
| ElfModinfo.ElfRoundTrip | crates/flux-core/src/modinfo.rs:118-160 | reading .modinfo out of the written file gives exactly the blob |
| ElfModinfo.VermagicThroughElf | crates/flux-core/src/modinfo.rs:37-42 | vermagic read through the file is vermagic read from the blob |
| ElfModinfo.VermagicIsFirstNamed | crates/flux-core/src/modinfo.rs:21-31 | among NUL-separated records it is the value of the first that names one, if none up to there is invalid UTF-8 |

## Left out

- Weak memory: step machines run on sequentially consistent memory.
- User memory changing between the two copies of one ioctl, and the contents of padding.
- The dual-bank writer inside the daemon: an environment step with a stated contract, not verified code.
- Kernel internals: socket lookup, nf_tproxy, buffer allocation, route lookup and BPF LPM tries are outcomes or specifications; header offsets of the IPv6 stack lookup are not modelled.
- IPv6 fixed destinations and listener addresses (`fluxrs_reserved_dest`): one boolean test of the steal hook.
- Fault latch, per-UID statistics and the ring buffer of the BPF programs.
- Steal stages below 6.
- PacketParser.ParsePkt: the u16 arithmetic of offsets is unbounded here; no accepted packet reaches its limit.
- LogRotation.Logger.Rotate: file system errors in the middle of a rotation are not modelled; a short write is.
- Logger names that are not canonical numbers, which rotation skips.
- Migration.PrepareDocs: a file is its TOML tree, so comments, ordering and quoting are not modelled, nor which of several errors is reported first.
- Install: file modes, ownership checks, size caps and the adoption of logs and caches after the configuration is in place; the daemon stop and lock.
- CivilCalendar.CivilIsCalendar: days are unbounded integers; the i64 sums overflow only beyond year 25 quadrillion.
- The ZIP containers around the checksums and timestamps.
- Prefix text parsing and `contains_prefix`; canonical prefixes and both mask functions are modelled.
- DosTimestamp.ZipStampReadsBack: the or of disjoint bit fields is written as their sum.
- ElfModinfo.ElfRoundTrip: states the blob length for which 64-bit offsets do not overflow.
- Lifecycle: the generation counter and the status projection, which would add only easy members.
- BypassKernel.BypassModule.SetBypass: publication is one assignment there; its interleaving is BypassRcu.
- Subscription mapping, redaction, configuration schema, engine supervision, netlink, device probes and the web shell.
