# Verified model of the SNI probing engines and the bot's login guard

This project models the parts of the repository whose correctness is hardest to see by reading: the
bounded worker pipelines of `sni_probe`, the two-stage Go engine of `sni_tester`, the crash-safe
three-phase run, the login guard of the aegis bot, the hand-written codecs, and two small data
structures (an LRU cache and a weighted selector). Everything is proved for all inputs, all schedules
and all runs; there is no bound on sizes, and the network is an arbitrary oracle throughout.

`dafny verify dfyconfig.toml` checks the whole project.

| file | what it covers |
|---|---|
| `Pipeline.dfy`, `Stages.dfy` | permits, workers, bounded channel and drainer of the three probe phases, as a step relation; what a completed phase hands on |
| `AsnBlocklist.dfy` | the threshold counter shared by racing workers |
| `FailureStore.dfy` | paired value and expiry tables that imitate a TTL map |
| `ProbeEngine.dfy`, `EngineRun.dfy` | the Go engine: feeder, DNS pool, TLS pool, collector, three channels, closing order, cancellation; history filter and filing of results |
| `LoginGuard.dfy`, `LoginRace.dfy` | failure windows, lock ladder and the login step, over whole runs; overlapping attempts, one critical section at a time |
| `Wire.dfy`, `DomainList.dfy`, `RunState.dfy` | varints, length prefixes, the pool file codec, the nested state file codec |
| `Http2Head.dfy` | the incremental HTTP/2 frame loop against parsing the whole byte string |
| `Json.dfy`, `SetupPayload.dfy` | the installer's JSON writer against an independent reader for sections 2, 4 and 7 of RFC 8259 |
| `SortedNames.dfy`, `PoolMerge.dfy`, `PoolFiles.dfy` | canonical pools, merging directories, rewriting country files |
| `Resume.dfy` | the three phases with a crash possible between any two steps |
| `LruCache.dfy` | map plus linked list against "the most recently touched keys", and the memoised GeoIP lookups |
| `WeightedDns.dfy` | DNS server weights and drawing without replacement |
| `Wrappers.dfy`, `Counting.dfy`, `Bytes.dfy` | shared helpers |

Concurrent code is a machine with one action per atomic step; a schedule is any sequence of enabled
actions, and main results quantify over all of them. Code that updates fields or buffers is a class or
a method with loops, each proved equal to a pure function whose meaning is then established by lemmas.

## What the proofs found

* The two phases that dispatch everything before they drain deadlock on every schedule as soon as
  3·workers accepted entries come before the last dispatched one, and complete on every schedule
  otherwise (`Pipeline.DispatchThenDrainOutcome`). The phase that drains concurrently never does.
* The ASN blocklist lets max(threshold, 1) + workers − 1 probes fail, and some schedule reaches that
  number; with a threshold of 0 it is `workers` (`AsnBlocklist.FailuresBounded`,
  `AsnBlocklist.FailuresBoundReached`).
* The budget of max_attempts·(2 + ⌊T/window⌋) wrong codes holds for all runs exactly when the window is
  shorter than the 900 s global lock, or equals it with a single attempt allowed
  (`LoginGuard.BudgetHoldsExactly`); for longer windows the lemmas construct runs that exceed it.
* A cancelled Go engine can send on the closed results channel, because TLS workers may all leave
  while a DNS worker still holds a domain. For a given network some schedule does so exactly when, for
  some domain, at least `workers` others pass the DNS stage, one of them earlier in the list if there
  is a single worker (`ProbeEngine.PanicsExactly`). A caller who cannot know the network is safe
  exactly with no more domains than workers (`ProbeEngine.NeverPanicsExactly`).
* In the weighted selection every draw selects a new server, and the loop always ends, exactly when the
  names are distinct or at most one server is wanted. With fewer distinct names than servers to select
  it never ends, whatever is drawn, and only then (`WeightedDns.SelectionExactly`).
* Of k overlapping login attempts, max_attempts + k − 1 wrong codes can be evaluated within one window
  and one global lock after a reset, and no more (`LoginRace.WrongCodesInFlight`,
  `LoginRace.WrongCodesInFlightReached`). Overlapping attempts can replace a global lock by one that
  ends sooner, because an attempt is counted with the time at which it arrived: within that stretch
  exactly when more attempts can be in flight than failures are allowed and they do not all arrive at
  one instant (`LoginRace.LockShortenedExactly`). Sequential attempts never do.
* The installer's payload is always well-formed JSON, and a reader gets the same bytes back if and only
  if every field is UTF-8 (`SetupPayload.SetupRoundTrip`).
* The pool decoder reads tags as single bytes. Unknown fields of a number and wire type are therefore
  ignored without exception exactly up to number 15 (`DomainList.IgnoredExactlyUpTo15`); from 16 on,
  for every number and type, some well-formed field makes a readable file unreadable, although others,
  such as field 16 with the value 152, happen to be harmless.
* Redoing phase three after a crash ends in the same pool files even if a file that was there before
  does not decode (it then counts as empty every time), and even if several spellings of a country
  share one file (`PoolFiles.RewriteTwice`, `Resume.PoolsIndependentOfCrashes`).
* A comment on phase three's entries in `state.rs` says their address is empty; the code stores the
  accepted entries with their addresses, and the model follows the code.

## Model

| member | source | states |
|---|---|---|
| Pipeline.InvariantAlways | sni_probe/src/pipeline.rs:230-382 | Every reachable state of either shape, under every schedule and verdict, keeps the joint invariant of stages, channel log, counters and closing order. |
| Pipeline.BoundsAlways | sni_probe/src/pipeline.rs:230-366 | Permits plus workers holding one equal `workers`, the channel never exceeds 2·workers, and kept, dropped and still probed entries add up to those dispatched. |
| Pipeline.CompletionDeliversAccepted | sni_probe/src/pipeline.rs:230-396 | At completion the collected list is a permutation of exactly the accepted inputs, kept + dropped = total, and all permits are back. |
| Pipeline.AcceptedPositionsMeaning | sni_probe/src/pipeline.rs:258-361 | The reference list holds exactly the accepted positions, in increasing order. |
| Pipeline.SchedulesAreBounded | sni_probe/src/pipeline.rs:233-382 | Every schedule has at most five steps per entry plus two: a measure falls with each step. |
| Pipeline.StuckIsFinishedOrDeadlocked | sni_probe/src/pipeline.rs:73-113 | A state that cannot move has finished, or is the one deadlock: drain-last shape, all permits on senders, channel at 2·workers. |
| Pipeline.RunsUntilStuck | sni_probe/src/pipeline.rs:73-113 | Every schedule of either shape extends to one that cannot go on. |
| Pipeline.ConcurrentNeverStuck | sni_probe/src/pipeline.rs:233-382 | Draining while dispatching, a schedule that cannot go on has finished. |
| Pipeline.ConcurrentCompletes | sni_probe/src/pipeline.rs:233-382 | Every schedule of the concurrent shape extends to a completed one. |
| Pipeline.DispatchThenDrainOutcome | sni_probe/src/pipeline.rs:73-113 | Dispatching before draining completes on every schedule if and only if fewer than 3·workers accepted entries precede the last dispatched one; otherwise every maximal schedule ends deadlocked. |
| Pipeline.DispatchThenDrainEnds | sni_probe/src/pipeline.rs:73-113 | Every schedule of the drain-last shape extends to one that has finished, or that is deadlocked for good, as the same condition says. |
| Pipeline.SafeInputSizeForDispatchThenDrain | sni_probe/src/pipeline.rs:150-181 | Inputs of up to 3·workers entries always complete; any longer input that is accepted throughout always deadlocks. |
| Pipeline.LastDispatched | sni_probe/src/pipeline.rs:150-166 | Finds the last entry that needs a worker, after which all entries lack an address. |
| Stages.OutputDelivers | sni_probe/src/pipeline.rs:100-113 | Whatever the schedule, a completed phase hands on exactly the kept entries, in some order. |
| Stages.PickPermutation | sni_probe/src/pipeline.rs:100-113 | Receiving the same messages in another order gives the same bag of entries. |
| Stages.DeliveredIsSubBag | sni_probe/src/run.rs:159-197 | A phase makes up and duplicates no entry. |
| AsnBlocklist.Blocklist.constructor | sni_probe/src/storage.rs:512-519 | Starts with the known systems blocked and no counts. |
| AsnBlocklist.Blocklist.RecordFailure | sni_probe/src/storage.rs:531-544 | The counter and the set change as one atomic record; the answer says whether this failure blocked the system. |
| AsnBlocklist.InvariantAlways | sni_probe/src/pipeline.rs:256-361 | On every interleaving of checks, probes and records, failed probes equal recorded plus pending ones and stay bounded with those still running. |
| AsnBlocklist.FailuresBounded | sni_probe/src/pipeline.rs:256-361 | At most max(threshold, 1) + workers − 1 probes under an initially unblocked system ever fail; exactly one record announces the block, once the threshold is reached. |
| AsnBlocklist.FailuresBoundReached | sni_probe/src/pipeline.rs:256-361 | Some interleaving reaches that bound, so it cannot be improved. |
| AsnBlocklist.BlockedForGood | sni_probe/src/pipeline.rs:256-361 | A blocked system stays blocked and no worker starts probing under it any more. |
| AsnBlocklist.KnownNeverProbed | sni_probe/src/pipeline.rs:256-361 | On every interleaving, nothing is ever probed under an initially known system, so nothing fails there and no block is announced. |
| FailureStore.Store.AppendFailures | sni_probe/src/storage.rs:151-172 | Both tables keep the same keys; the history is updated for exactly the given domains. |
| FailureStore.Store.ClearAll | sni_probe/src/storage.rs:343-367 | Both tables and the history become empty. |
| FailureStore.Store.IsFailedRecently | sni_probe/src/storage.rs:126-148 | True exactly when the domain's last failure is at most the TTL old. |
| FailureStore.Store.CountActiveFailures | sni_probe/src/storage.rs:370-380 | Equals the number of domains for which `IsFailedRecently` is true. |
| FailureStore.HistoryIsLastAppend | sni_probe/src/storage.rs:151-172 | After any run of appends and clears, a domain is in the history exactly when it was appended since the last clear, with the time of its last append. |
| FailureStore.RecentMeansLastAppendWithinTtl | sni_probe/src/storage.rs:126-148 | Over whole runs, recently failed means the last append since the last clear is at most the TTL old. |
| ProbeEngine.ProcessDomain | sni_tester/pkg/engine.go:395-469 | The sequential form reaches the verdict that the DNS stage followed by the TLS stage reaches, and that is a success exactly under the conditions of `SuccessExactly`. |
| ProbeEngine.SuccessExactly | sni_tester/pkg/engine.go:395-469 | A verdict is a success if and only if the domain has a first address, which is in none of CN, HK, MO, IR, RU, KP and not Cloudflare's, and whose probe has a good handshake and is valid; it is post-quantum exactly as that handshake says. |
| ProbeEngine.SuccessReports | sni_tester/pkg/engine.go:441-469 | A success reports the handshake's address or else the first one, the first one's owner, and its country, with a second lookup if that was unknown. |
| ProbeEngine.FailureReports | sni_tester/pkg/engine.go:402-469 | Every failure reports what was known by then: nothing, address and country, also the owner, or all that an invalid site shows. |
| ProbeEngine.InvariantAlways | sni_tester/pkg/engine.go:154-379 | Every reachable state, cancelled or not, keeps the joint invariant of channels, workers, results and closing order. |
| ProbeEngine.BoundsAlways | sni_tester/pkg/engine.go:154-379 | Workers of both pools are always accounted for, no channel exceeds 2·workers, and no domain is reported twice or under another name, even after cancellation. |
| ProbeEngine.ResultsClosedLast | sni_tester/pkg/engine.go:238-328 | Without cancellation, `results` is closed only after every DNS and TLS worker has exited and every domain is reported. |
| ProbeEngine.EveryDomainOnce | sni_tester/pkg/engine.go:154-379 | An uncancelled run that is done has delivered each tested domain exactly once, each with its sequential verdict. |
| ProbeEngine.SchedulesAreBounded | sni_tester/pkg/engine.go:154-379 | Every schedule has at most 8 steps per domain, 2 per worker and 6 more. |
| ProbeEngine.NeverStuck | sni_tester/pkg/engine.go:154-379 | The only states without a next step are a finished run and a panic. |
| ProbeEngine.RunsComplete | sni_tester/pkg/engine.go:154-379 | Every schedule can be carried on to the end; without cancellation that end is a finished run. |
| ProbeEngine.PanicNeedsCancellation | sni_tester/pkg/engine.go:246-328 | A send on the closed results channel happens only after a cancellation, and only where `PanicsExactly` allows it. |
| ProbeEngine.PanicsExactly | sni_tester/pkg/engine.go:168-328 | For a given world some schedule sends on the closed results channel if and only if, for some domain, at least `workers` others pass the DNS stage, one of them earlier if there is one worker. |
| ProbeEngine.NeverPanicsExactly | sni_tester/pkg/engine.go:168-328 | No world and no schedule leads there if and only if there are at most as many domains as workers. |
| EngineRun.FilterHistory | sni_tester/pkg/engine.go:103-134 | Tested plus skipped is all; the tested list is the unknown domains in order, and earlier successes go to the classic pool of their country. |
| EngineRun.UntestedMeaning | sni_tester/pkg/engine.go:107-131 | A domain is tested exactly when no part of the history knows it. |
| EngineRun.TestedExactly | sni_tester/pkg/engine.go:103-134 | A domain is tested if and only if a retry is forced or it is in none of the three parts of the history; a forced run tests all of them. |
| EngineRun.PlaceMeaning | sni_tester/pkg/engine.go:103-350 | Which country's post-quantum pool, which classic pool or the failure list a domain belongs in, in terms of the history, of `success`, `isPq` and the country. |
| EngineRun.Collector.Collect | sni_tester/pkg/engine.go:338-350 | A result goes to its own bin and to no other, and one of the two counters moves. |
| EngineRun.AllFiledContent | sni_tester/pkg/engine.go:335-350 | Filing results one by one adds to every bin exactly the domains that belong there, in order. |
| EngineRun.Collector.CollectAll | sni_tester/pkg/engine.go:335-377 | After all results every bin holds what belongs in it, in order, and Success + Failed grew by their number. |
| EngineRun.FiledPermutation | sni_tester/pkg/engine.go:335-377 | The order in which results arrive does not change what a bin contains. |
| EngineRun.SuccessesAndFailures | sni_tester/pkg/engine.go:338-350 | Successes and failed domains partition the results. |
| EngineRun.RunMatchesSequentialRun | sni_tester/pkg/engine.go:154-379 | On every uncancelled schedule each pool is a permutation of what testing the domains one by one files there, with the same Success count, and Success + Failed equals the number tested. |
| EngineRun.FiledExactlyWhereExpected | sni_tester/pkg/engine.go:338-350 | A domain ends up in a bin exactly when it was tested and its verdict belongs there, hence in exactly one. |
| EngineRun.FinalContent | sni_tester/pkg/engine.go:99-379 | At the end each bin holds the remembered successes followed by a permutation of the expected ones; a domain is in it exactly when its history or its verdict puts it there. |
| EngineRun.RunEngine | sni_tester/pkg/engine.go:99-379 | Filter, uncancelled run and collector together: that content for every bin, hence in the post-quantum pool, the classic pool and the failure list exactly the domains that history and verdict put there; the Success count of sequential testing; Success + Failed + Skipped equal to the number of domains, none skipped if a retry is forced. |
| LoginGuard.AppState.RecordAuthSuccess | rust/aegis/src/app/state.rs:312-334 | Opens the session, forgets the identity's failures and resets the global window. |
| LoginGuard.AppState.RecordGlobalFailure | rust/aegis/src/app/state.rs:336-356 | Counts one global failure, with window roll-over and the 900 s lock. |
| LoginGuard.AppState.GlobalCooldownRemaining | rust/aegis/src/app/state.rs:358-367 | Time left on the global lock, clearing one that has run out. |
| LoginGuard.AppState.RecordAuthFailure | rust/aegis/src/app/state.rs:369-428 | Records one failure for identity and globally. Unless the global lock is in force, it locks the identity exactly when this failure completes the quota of its window, by the rung that applies, and otherwise says how many there were. |
| LoginGuard.AppState.AuthCooldownRemaining | rust/aegis/src/app/state.rs:430-458 | The longer of the two locks, clearing expired ones. |
| LoginGuard.AppState.ProcessAuthCode | rust/aegis/src/app/auth.rs:58-205 | One attempt: refused while locked, otherwise evaluated and recorded. |
| LoginGuard.GlobalSoundAlways | rust/aegis/src/app/state.rs:336-367 | In every run the global count stays below the limit and the global lock never has more than 900 s left. |
| LoginGuard.WrongCodesBounded | rust/aegis/src/app/state.rs:336-458 | Between two successes, however many identities take part, at most max_attempts·(2 + ⌊T/window⌋) wrong codes are evaluated in time T. |
| LoginGuard.WrongCodesBoundedFromReset | rust/aegis/src/app/state.rs:312-458 | Counted from a success or from start-up the factor is 1 + ⌊T/window⌋. |
| LoginGuard.BudgetHoldsExactly | rust/aegis/src/app/state.rs:336-458 | The budget holds for all runs if and only if the window is shorter than the global lock, or equal to it with one attempt. |
| LoginGuard.LongWindowRefutes | rust/aegis/src/app/state.rs:336-356 | With two or more attempts and a window of 900 s or more, a run exceeds the budget. |
| LoginGuard.SingleAttemptRefutes | rust/aegis/src/app/state.rs:336-356 | With one attempt and a window beyond 900 s, a run exceeds the budget. |
| LoginGuard.SessionIsLastSuccess | rust/aegis/src/app/state.rs:312-334 | In every run an identity has a session exactly when one of its own right codes was evaluated, dated at the last one. |
| LoginGuard.LevelCountsLocks | rust/aegis/src/app/state.rs:369-428 | An identity's level is the number of its own locks since its last success, capped at the top rung. |
| LoginGuard.LockFollowsLadder | rust/aegis/src/app/state.rs:369-428 | The k-th own lock since the last success lasts rung min(k, length). |
| LoginGuard.OwnLockComesExactly | rust/aegis/src/app/state.rs:369-428 | In every run a wrong code locks its identity if and only if it is the max_attempts-th since the last success, own lock or roll-over of the window; before that the reply says how many there were. |
| LoginGuard.QuotaLocks | rust/aegis/src/app/state.rs:369-428 | max_attempts wrong codes of one identity within a window get the replies 1, 2, ... and then the first rung of the ladder. |
| LoginGuard.GlobalLockComesExactly | rust/aegis/src/app/state.rs:336-356 | In every run a wrong code sets the global lock if and only if it is the max_attempts-th of anybody in the current window, and the lock is 900 s long. |
| LoginGuard.RefusedExactly | rust/aegis/src/app/state.rs:430-458 | An attempt is refused if and only if its own or the global lock is in force, with the longer of the two as the time to wait; otherwise it is granted exactly if the code is right. |
| LoginGuard.OwnLockEnforced | rust/aegis/src/app/auth.rs:68-80 | While an own lock runs no code of that identity is evaluated, whatever others do. |
| LoginGuard.GlobalLockEnforced | rust/aegis/src/app/auth.rs:68-80 | While the global lock runs no code of anyone is evaluated. |
| LoginRace.AloneIsSequential | rust/aegis/src/app/auth.rs:68-205 | The critical sections of one attempt, run without interruption, do what one sequential step does with a wrong code. |
| LoginRace.InvariantAlways | rust/aegis/src/app/state.rs:336-458 | On every interleaving after a reset (start-up or a success) the global record counts the recorded failures until it locks, and is then locked for the rest of the stretch. |
| LoginRace.WrongCodesInFlight | rust/aegis/src/app/state.rs:336-458 | With k attempts in flight at most max_attempts + k − 1 wrong codes are evaluated within one window and one global lock after a reset. |
| LoginRace.WrongCodesInFlightReached | rust/aegis/src/app/state.rs:336-458 | Some interleaving reaches that bound, for every policy, every k and every state of the other records. |
| LoginRace.SuccessResets | rust/aegis/src/app/state.rs:312-334 | Start-up and every success leave the global window reset, so the race results apply from there. |
| LoginRace.LockShortenedExactly | rust/aegis/src/app/state.rs:336-367 | Some interleaving replaces a global lock by one that ends sooner if and only if more attempts can be in flight than max_attempts and they do not all arrive at one instant. |
| Wire.PutVarint | sni_probe/src/pb.rs:17-23 | Appends exactly the varint of the value. |
| Wire.ReadVarintAt | sni_probe/src/pb.rs:46-61 | The position-advancing reader agrees with the reader on the remaining bytes, errors included. |
| Wire.VarintRoundTrip | sni_probe/src/state.rs:57-118 | Reading undoes writing for every 64-bit value, whatever follows. |
| Wire.VarintAtMostTen | sni_probe/src/state.rs:57-63 | Ten bytes suffice for every 64-bit value. |
| Wire.VarintDigits | sni_probe/src/pb.rs:17-23 | The varint of a number is its shortest row of base-128 digits, lowest first, each but the last with the top bit set. |
| Wire.ReadVarintExactly | sni_probe/src/pb.rs:46-61 | A varint can be read if and only if one of the first ten bytes ends it. |
| Wire.DelimitedRoundTrip | sni_probe/src/state.rs:65-69 | A length-prefixed payload reads back, with what follows it. |
| Wire.TakeAt | sni_probe/src/state.rs:84-91 | Slices a length-prefixed payload out of the buffer, or fails exactly when it is cut short. |
| Wire.SkipAt | sni_probe/src/pb.rs:86-104 | Skips an unknown field's payload by wire type, or fails exactly when it is malformed. |
| Wire.SkipPayloadLocal | sni_probe/src/pb.rs:86-104 | Skipping a field never looks beyond it. |
| Wire.SkipMeaning | sni_probe/src/pb.rs:86-104 | Wire type 0 skips a varint, 2 a length-prefixed payload, 1 eight bytes and 5 four; other types and short payloads are errors. |
| DomainList.Encode | sni_probe/src/pb.rs:35-44 | Writes both pools as tagged fields in order, leaving out empty names. |
| DomainList.Decode | sni_probe/src/pb.rs:64-108 | Terminates on every buffer and agrees with field-by-field reading, errors included. |
| DomainList.DecodePrefix | sni_probe/src/pb.rs:64-108 | A decodable prefix contributes its pools in front of whatever follows. |
| DomainList.DecodeConcatenation | sni_probe/src/pb.rs:64-108 | Concatenated files decode to concatenated pools. |
| DomainList.RoundTrip | sni_probe/src/pb.rs:35-108 | Decoding an encoding returns both lists minus empty strings. |
| DomainList.TagMeaning | sni_probe/src/pb.rs:69-85 | Tag byte 0x0A is a post-quantum name and 0x12 a classic one. |
| DomainList.DecodedIsValid | sni_probe/src/pb.rs:70-85 | Whatever decodes consists of well-formed UTF-8 names. |
| DomainList.UnknownFieldIgnored | sni_probe/src/pb.rs:86-104 | A well-formed unknown field with a one-byte tag changes nothing at any field boundary. |
| DomainList.LongTagLeavesValue | sni_probe/src/pb.rs:69-104 | A varint field whose tag is longer than a byte is not skipped: its value is read as the next field. |
| DomainList.LongTagSpoils | sni_probe/src/pb.rs:69-104 | For every field number from 16 on and every wire type, a well-formed field is given that makes the file unreadable. |
| DomainList.IgnoredExactlyUpTo15 | sni_probe/src/pb.rs:69-104 | Every well-formed unknown field of a number and wire type is ignored at every boundary if and only if the number is at most 15. |
| RunState.EncodeEntry | sni_probe/src/state.rs:71-78 | Writes the domain and, if there is one, the printed address. |
| RunState.Encode | sni_probe/src/state.rs:121-138 | Writes the three phases as nested entries and the mask unless it is zero. |
| RunState.DecodeEntry | sni_probe/src/state.rs:80-101 | The position-advancing decoder agrees with field-by-field reading, errors included. |
| RunState.Decode | sni_probe/src/state.rs:140-183 | The position-advancing decoder agrees with field-by-field reading, errors included. |
| RunState.EntryRoundTrip | sni_probe/src/state.rs:71-101 | An entry with or without an address decodes to itself. |
| RunState.RoundTrip | sni_probe/src/state.rs:121-183 | decode(encode(s)) = s for all lists, optional addresses and 32-bit masks. |
| RunState.EntryTags | sni_probe/src/state.rs:80-101 | In an entry, tag byte 0x0A is the domain and 0x12 the address, which is dropped if it does not parse. |
| RunState.StateTags | sni_probe/src/state.rs:140-158 | In the state, tag bytes 0x0A, 0x12 and 0x1A are entries of phases one, two and three. |
| RunState.MaskTag | sni_probe/src/state.rs:159-161 | Tag byte 0x20 is the mask, of which the low 32 bits are kept. |
| Http2Head.WriteFrame | sni_probe/src/h2.rs:42-49 | Appends exactly the frame's header and payload. |
| Http2Head.DecodeStatic | sni_probe/src/h2.rs:60-80 | Yields the indexed static fields at the front of the block and stops at any other form. |
| Http2Head.Drain | sni_probe/src/h2.rs:118-143 | Handles the complete frames in the buffer; what it leaves starts with an incomplete frame, and answering it and what follows completes the answer to the whole input. |
| Http2Head.Head | sni_probe/src/h2.rs:107-146 | For every split of the peer's bytes into reads, headers and acknowledgements are those of parsing the whole byte string up to the first HEADERS with a `:status`, counted and named as in `AnswerMeaning`. |
| Http2Head.AnswerMeaning | sni_probe/src/h2.rs:107-146 | One acknowledgement is sent for every frame of type 4 with an even flags byte before the first final frame, and the headers are those of that frame, or none. |
| Http2Head.FinalExactly | sni_probe/src/h2.rs:126-133 | A frame is final if and only if it is of type 1 with one of the bytes 0x88 to 0x8E among the indexed fields at its front; the last of them is the status. |
| Http2Head.FieldsMeaning | sni_probe/src/h2.rs:60-80 | A header is found if and only if one of the bytes read stands for it; the last such byte gives its value. |
| Http2Head.IndexedFields | sni_probe/src/h2.rs:24-40 | The fifteen fields that the bytes 0x81 to 0x8F stand for, written out. |
| Http2Head.FrameLayout | sni_probe/src/h2.rs:42-49 | Three bytes of length, one of type, one of flags, four of stream identifier, most significant first, then the payload. |
| Http2Head.FrameExactly | sni_probe/src/h2.rs:115-125 | A frame is read off the front of a buffer if and only if the buffer starts with that frame's bytes. |
| Http2Head.FrameRoundTrip | sni_probe/src/h2.rs:42-49 | A written frame parses back, for every type, flags, stream and payload that fit the header. |
| Http2Head.FramesRoundTrip | sni_probe/src/h2.rs:107-146 | A serialised sequence of frames parses back to itself. |
| Http2Head.AnswerToPeer | sni_probe/src/h2.rs:107-146 | A peer that sends given frames, split anyhow, gets exactly the answer they call for. |
| SortedNames.SortAndDedup | sni_probe/src/merge.rs:18-23 | `sort` then `dedup` gives the canonical list of the names. |
| SortedNames.LessMeaning | sni_probe/src/merge.rs:18-23 | The order: the name that ends first or has the smaller byte at the first difference. |
| SortedNames.CanonicalMeaning | sni_probe/src/merge.rs:18-23 | That list is strictly increasing and has exactly the given names. |
| SortedNames.IncreasingUnique | sni_probe/src/merge.rs:18-23 | A strictly increasing list is determined by its elements. |
| PoolMerge.DedupeSorted | sni_probe/src/merge.rs:18-23 | Drops empty names, then sorts and deduplicates. |
| PoolMerge.CollectDir | sni_probe/src/merge.rs:41-79 | Gathers the readable, decodable, non-excluded files and resolves both pools. |
| PoolMerge.MergedMeaning | sni_probe/src/merge.rs:41-79 | Merged pools are strictly increasing, hold no empty name, are disjoint with PQ winning, and cover exactly the union of the inputs that count. |
| PoolMerge.ContributionMeaning | sni_probe/src/upgrade.rs:308-321 | What a file adds in either format, unless it is one of the six excluded ones, unreadable or malformed: in the old format the names of both fields are classic. |
| PoolMerge.MergedNames | sni_probe/src/merge.rs:41-79 | A name is in a merged pool exactly when the files themselves put it there, for both formats. |
| PoolMerge.FileOrderIrrelevant | sni_probe/src/merge.rs:49-50 | The order of files, and repeating one, make no difference. |
| PoolMerge.MergingAgainIsIdentity | sni_probe/src/merge.rs:102-113 | Writing the merged pools and merging that file again changes nothing, in either format. |
| PoolFiles.Bucketed | sni_probe/src/pipeline.rs:370-381 | Every received entry goes to exactly one of the two lists of its country. |
| PoolFiles.BucketMembers | sni_probe/src/pipeline.rs:370-381 | A name is in a country's list exactly when an accepted entry with that verdict carries it. |
| PoolFiles.WriteCountry | sni_probe/src/pipeline.rs:676-699 | Merges the bucket into what the file holds and writes the canonical result, which decodes and holds in each pool what the file had there and what the bucket brings for it. |
| PoolFiles.RewrittenHolds | sni_probe/src/pipeline.rs:676-699 | The written file decodes, and each of its pools holds exactly what the same pool held before together with what the bucket has for it. |
| PoolFiles.RewrittenOrdered | sni_probe/src/pipeline.rs:690-697 | Both pools of the written file are strictly increasing and have no empty name. |
| PoolFiles.RewriteTwice | sni_probe/src/pipeline.rs:676-699 | Writing one bucket and then another gives the bytes of writing both at once, whatever was there first. |
| PoolFiles.RewriteIdempotent | sni_probe/src/pipeline.rs:676-699 | Writing the same bucket again, even reordered, changes no byte, whatever was there first. |
| PoolFiles.RewriteByMembers | sni_probe/src/pipeline.rs:676-699 | Only which names are in the bucket matters. |
| Resume.InvariantAlways | sni_probe/src/run.rs:121-208 | Through any sequence of steps, crashes and restarts, disk, memory and pool files keep their joint invariant. |
| Resume.SavedStateAlwaysConsistent | sni_probe/src/run.rs:121-208 | The state file always loads, its mask is 0, 1, 3 or 7, and phase3 ⊆ phase2 ⊆ phase1 as multisets. |
| Resume.SavedPhasesStay | sni_probe/src/state.rs:186-215 | What a saved phase recorded never changes. |
| Resume.SavedPhasesNeverRerun | sni_probe/src/run.rs:134-208 | A saved phase never runs again. |
| Resume.WriteMerges | sni_probe/src/pipeline.rs:681-697 | Writing a country's names adds exactly them to what its file holds, whether or not an earlier process did, also when several spellings share the file. |
| Resume.PoolsIndependentOfCrashes | sni_probe/src/run.rs:178-208 | Once phase three is saved, every pool file holds what one uninterrupted run would have written, however often it was redone. |
| Resume.PoolsHoldExactly | sni_probe/src/run.rs:178-208 | Once phase three is saved, however often it was redone, a name is in a pool of a file if and only if that pool held it at the start or an entry of phase two with an address was judged to belong there. |
| Resume.PhaseThreeExactly | sni_probe/src/run.rs:159-208 | Phase two saves only entries with an address, and phase three exactly those of them that the deep probe put in a pool, each as often as phase two has it. |
| Resume.RunsToTheEnd | sni_probe/src/run.rs:121-208 | However a run has gone so far, it extends without a further crash to one with all three phases saved. |
| LruCache.Lru.Get | sni_tester_app/go_engine/pkg/lru.go:28-38 | Returns what is stored and makes it the most recent; map and list stay in bijection. |
| LruCache.Lru.Set | sni_tester_app/go_engine/pkg/lru.go:40-57 | Stores and makes most recent, dropping the least recent beyond the limit; map and list stay in bijection. |
| LruCache.HoldsMostRecentKeys | sni_tester_app/go_engine/pkg/lru.go:28-57 | After any run the cache holds exactly the maxSize most recently touched distinct keys. |
| LruCache.RecencyIsByLastTouch | sni_tester_app/go_engine/pkg/lru.go:28-57 | Those keys are ordered by their last touch. |
| LruCache.HoldsLastStoredValues | sni_tester_app/go_engine/pkg/lru.go:40-57 | Each key has the value it was last stored with. |
| LruCache.GetCachedCountry | sni_tester_app/go_engine/pkg/geo.go:20-37 | With a fixed database the memoised country equals the uncached lookup. |
| LruCache.CountryMeaning | sni_tester_app/go_engine/pkg/geo.go:25-33 | The country comes before the registered country, and "UNKNOWN" stands for neither and for a failed lookup. |
| LruCache.GetCachedAsn | sni_tester_app/go_engine/pkg/geo.go:39-56 | With a fixed database the memoised ASN equals the uncached lookup. |
| WeightedDns.Weight | sni_tester/pkg/dns.go:120-137 | No server is ever ruled out: every weight is at least the minimum. What a weight is worth is in `WeightIsSuccessShare` and the two rows after it. |
| WeightedDns.WeightBelowOne | sni_tester/pkg/dns.go:120-137 | A weight is a fraction as long as the counters have not wrapped. |
| WeightedDns.WeightIsSuccessShare | sni_tester/pkg/dns.go:120-137 | Until three failures in a row the weight is successes / (lookups + 10), at least 0.05; without history it is 0.1. |
| WeightedDns.FailureInARowHalves | sni_tester/pkg/dns.go:129-135 | From the third on, one more failure in a row halves the weight, down to 0.05. |
| WeightedDns.HealthierWeighsMore | sni_tester/pkg/dns.go:120-137 | Of two servers asked equally often, more successes and fewer failures in a row never weigh less. |
| WeightedDns.HealthMap.Update | sni_tester/pkg/dns.go:139-156 | One outcome changes one server's counters and weight, and nothing else. |
| WeightedDns.CountersCount | sni_tester/pkg/dns.go:139-156 | Over any run of outcomes the counters are the number of successes, the number of failures, and the length of the last stretch of failures. |
| WeightedDns.RecordedWeight | sni_tester/pkg/dns.go:142-153 | A success raises the recorded weight by half, up to 1; a failure sets it to the weight of the new record. |
| WeightedDns.RecordedWeightIsFraction | sni_tester/pkg/dns.go:139-156 | Over any run of outcomes before the counters can wrap, they count the outcomes and the recorded weight stays in [0, 1]. |
| WeightedDns.NeverFailedNeverBoosted | sni_tester/pkg/dns.go:139-156 | A server that has never failed keeps the recorded weight 0, so the boost has nothing to multiply. |
| WeightedDns.Walk | sni_tester/pkg/dns.go:183-198 | The loop over the list finds the first unused server at which the running sum reaches the draw. |
| WeightedDns.WalkHits | sni_tester/pkg/dns.go:183-198 | That server is the one whose share of the unused weight the draw hits; none is found only when the draw lies beyond all unused weight. |
| WeightedDns.WeightsMeaning | sni_tester/pkg/dns.go:163-175 | Position by position a server has the weight of its own record, and 0.1 if it has none. |
| WeightedDns.ShareIsWeight | sni_tester/pkg/dns.go:177-199 | The draws in [0, 1] that pick a server are an interval whose length is the server's share of the total weight. |
| WeightedDns.RunConsistent | sni_tester/pkg/dns.go:177-199 | Whatever the names and the draws, the selected servers are distinct, from the list, and at most min(count, n). |
| WeightedDns.SafeRun | sni_tester/pkg/dns.go:177-199 | With distinct names, or one server wanted, every draw selects; the running total stays the sum of the unused weights, and the selection is a drawing without replacement. |
| WeightedDns.SelectWeightedServers | sni_tester/pkg/dns.go:158-209 | For any servers, backing array, count and draws: the selection of the loop, or that it still waits for a draw; a negative count panics, and an empty list gives what lies behind it or panics. |
| WeightedDns.SelectionIsDrawn | sni_tester/pkg/dns.go:158-209 | With distinct names, or one server wanted, min(count, n) draws give that many distinct members of the input, drawn exactly as from a list that shrinks. |
| WeightedDns.EndedLeavesNothing | sni_tester/pkg/dns.go:200-208 | Whatever the names, a loop that has ended leaves the filling loop nothing to add. |
| WeightedDns.EveryDrawSelectsExactly | sni_tester/pkg/dns.go:177-199 | Over all lists of weights: every draw selects, and the loop ends whatever is drawn, if and only if names are distinct or count is at most 1. |
| WeightedDns.NeverEndsExactly | sni_tester/pkg/dns.go:177-199 | Over all lists of weights: no draws end the loop if and only if there are fewer distinct names than min(count, n). |
| WeightedDns.SelectionExactly | sni_tester/pkg/dns.go:158-199 | Both conditions for a call, in terms of its servers and count. |
| SetupPayload.AppendJsonEscaped | go/installer/main.go:255-285 | Appends the literal of the value, escaped byte by byte, or null for a nil slice. |
| SetupPayload.LiteralReads | go/installer/main.go:255-285 | Every literal reads back as the value, or as its bytes taken as code points if it is not UTF-8. |
| SetupPayload.Spellings | go/installer/main.go:255-285 | The short escapes, the \u00xx form for other control characters and for bytes that are no UTF-8, and other ASCII bytes as they are, written out. |
| Json.CharacterExactly | go/installer/main.go:260-260 | The UTF-8 check accepts a character exactly if it is the encoding of a scalar value. |
| SetupPayload.TextIsValueIffUtf8 | go/installer/main.go:260-282 | A reader always gets well-formed text, and the same bytes if and only if the value was UTF-8. |
| SetupPayload.AppendField | go/installer/main.go:530-537 | Appends a field with a comma unless it is the first written, or nothing if it is empty. |
| SetupPayload.BuildSetupPayload | go/installer/main.go:525-621 | Writes the eleven fields in order. |
| SetupPayload.PayloadReads | go/installer/main.go:525-621 | Whatever the fields, the payload parses as one object with the non-empty fields in order. |
| SetupPayload.SetupRoundTrip | go/installer/main.go:525-621 | Every setup payload is one well-formed JSON object; parsing it returns exactly the non-empty fields with the same bytes if and only if all are UTF-8. |
| SetupPayload.ValueUnderName | go/installer/main.go:525-621 | Under each of the eleven names the reader finds that answer's text, or nothing if it was empty. |

## Left out

- DNS queries, TLS handshakes, HTTP, sockets and GeoIP databases: verdicts, addresses, countries and ASNs are oracles.
- Cryptography, including TOTP derivation; whether a code is right is an oracle.
- Telegram, Matrix and SimpleX gateways, contact re-pinning after a login, messages and wording of errors, progress output and callbacks.
- Platform selection tables, wizards, self-destruct flow, resource budget and timeout controller: they would only add easy members.
- LoginRace.WrongCodesInFlight: overlapping attempts are followed within one window and one global lock after a reset. Over longer stretches, where an attempt counted with an old arrival time can end a lock sooner, the budget is proved for sequential attempts only. Successes are left out of the race.
- An empty lock ladder is modelled as an optimised build behaves, where the unsigned `len − 1` wraps; a debug build panics there. Ladder results assume a non-empty ladder.
- Floating-point rounding in the weights and the draws: both are exact reals. Draws are given as a list of numbers in [0, 1).
- Releasing a worker's permit and its sender is one step, and so is a probe together with its counter.
- ProbeEngine.ProcessDomain: both forms use the same probe oracle, although the sources call two different probe functions; writes to the storage during a run are left out.
- After a cancellation the check that a worker makes right after receiving may also be passed, as if the cancellation came just after it.
- Http2Head.Head: read errors, timeouts, the request that is sent first, and HPACK beyond the static-index prefix are left out; CONTINUATION and padding are not implemented by the source either.
- Buffers shorter than 2^64 bytes are assumed where lengths are 64-bit in the source.
- IP addresses stand for their printed text; that the library parses a printed address back is assumed.
- PoolMerge.CollectDir: the listing and sorting of directory entries is replaced by an arbitrary list of files, each with its name already in upper case.
- PoolFiles.WriteCountry: takes the file it rewrites as given; which file a country's pool is in is an arbitrary function in `Resume`, of which upper-casing the country is one.
- DomainList.IgnoredExactlyUpTo15: field numbers go up to 2^29 − 1, the limit of the protobuf wire format.
- Resume: a state save and the writing of one pool file are each one atomic step, and the deep probe's verdicts are the same when phase three is redone.
- Resume: I/O errors end a process like a crash does; the gates that wait for the right network are left out.
- SetupPayload.BuildSetupPayload: the block that the source repeats for each of the eleven fields is one loop over the list of fields.
- Success, blocked and seed tables of the stores, the phase runners that read and write text files, and the Flutter copy of the Go engine apart from the LRU cache.
