# Deaddrop core, verified

A Dafny model of the parts of Deaddrop whose correctness is a claim about every run:

- **QR symbols** (`Gf256`, `GfOrder`, `ReedSolomon`, `CodeDistance`, `QrBits`, `BitNumbers`, `QrCodewords`, `QrGrid`, `QrVisits`, `QrCode`, `QrFormat`, `QrLayout`, `QrSymbol`): the table-driven field arithmetic, the Reed-Solomon encoder and what damage its code withstands, the bit buffer, the zig-zag placement, the masks and the format information, up to a reader that gets the text back out of the finished modules and to what every single module shows.
- **The message bus** (`BusModel`, `BusRuns`, `BusDelivery`, `BusLaws`, `Bus`): the gateway's hold-until-all-ack mailboxes as a class whose lock sections are proved to compute value functions, runs of those functions, and what each of them does to the tables.
- **Flood control and pacing** (`RateLimit`, `RecipientLimit`, `TransportModel`, `Transport`, `TransportRuns`, `PaceLaws`): the token bucket and the per-subject limiter, the client's adaptive pacer with retransmission and hand-off, and the two together.
- **Multi-device maps** (`Units`, `Lww`, `Normalize`, `NormalizeLaws`, `BuddyLists`, `Gossip`, `GroupLists`, `ListLaws`, `GroupFolds`, `GroupGossip`): adoption of buddy and group frames, convergence, termination of re-broadcast, and the coercion of what is stored and received. Group maps are ordered objects that every load cuts to 512 entries.
- **Message lifetimes** (`Vault`, `LifetimeModel`, `LifetimeLaws`, `Lifetime`, `BurnRace`, `ViewRace`, `BurnTiers`, `Keyvault`): timers and sweeps in one tab, the burn latch and the countdowns under any number of tabs, and the memory/disk record store.
- **End to end** (`EndToEnd`, `GroupReceiver`): ack only after the durable effect, from the bus to the record store through crashes.
- **The account registry** (`RegistryModel`, `UserStore`, `RegistryRuns`, `RegistryLaws`, `RegistryCounts`, `Challenges`, `Requests`): devices, epochs, key packages and proof-of-work challenges as a relational state machine, and requests whose checks and transactions interleave.
- **Short authentication strings** (`Sas`, `SasLaws`).

Objects that the source updates in place are classes; each method is proved equal to a value function (or meets an outright specification), and the properties are lemmas over those functions and over whole runs. The modules whose names end in `Laws`, with `QrLayout`, `QrCodewords` and `RecipientLimit`, say what the functions come to without using them: in numbers, in pictures, and in the rows of the tables. `Wrappers` holds the option type, `FiniteSets` facts about the sizes of sets.

Assumptions made throughout: a published frame's id is new to its sender's transport, and on the bus an id that repeats belongs to a retransmission; random identifiers and challenges are new; a process's clock does not run backwards, while the registry's transactions may carry any times, since a request takes its time when it starts (control-plane/public/index.php:95); each bus method is atomic because it holds the lock, and each database method because it is one transaction (a request is several, see `Requests`, and spending a challenge is two statements, see `Challenges`); in `LifetimeModel` and `Lifetime` each operation of the manager is one step, although the source awaits inside them, and `BurnRace` and `ViewRace` take them apart at the awaits; adopting a frame and making a local edit of a buddy or group map are one atomic step each, although the client awaits between loading and saving and starts adoptions without waiting for earlier ones (client/src/controller.ts:304-306, 1071-1101), so two that overlap on one device could lose an entry; token counts are reals, decryption is a pure function of the blob, and cryptography obeys only the law it is used for (a record opens to what was sealed in it while its key exists; a MAC is right only for a pair that was issued).

Where the code does not do what its comments say, the model follows the code:

- The buddy and group maps are plain objects, so an incoming key that names an inherited property (`constructor`, `toString`, ...) never counts as newer than "nothing" and is never adopted (client/src/controller.ts:1080-1085). `InheritedNamesStayOut` gives the exact exception; the convergence theorems ask for plain keys.
- A group label breaks a tie only between two entries that both carry one, so a labelled and an unlabelled entry of one stamp keep whichever came first (client/src/controller.ts:1278-1287). `GroupOrderMatters` gives the exact condition for any starting map and any frames, `LabelsAgreeIff` the exact condition for whole runs of devices; `MixedTieDiverges` shows two devices that stay apart.
- Adopting a frame can leave more than 512 entries in a group map, removed groups included; the next load keeps the first 512, and that is what is sent (client/src/controller.ts:183-215, 1126, 1246-1252, 1270). `GroupMapRoundTrip` is the exact condition for a map to come back, `GroupNamesSurviveIff` for every name received to be readable. With 513 names re-broadcasting need never end: `CycleAt513`, `NeverQuiet` and `EndlessGossip`, against `GroupGossipEnds` for up to 512.
- A version more than a day ahead of the receiver's clock is refused (client/src/controller.ts:1073-1079), so a device whose clock runs that far ahead keeps entries nobody else takes: `ClockAheadDiverges`; `RefusalMatters` is the exact condition for one delivery. Local edits stamp the clock without looking at the old version, so an edit can also fall behind the entry it replaces: `LoweringEditDiverges`. `EditMatters` gives the exact condition for any edit to keep every device covered, `EditSettles` the exact condition for devices to agree again once an edit of one entry has been delivered (`BuddyEditSettles` and `GroupEditSettles` for the two maps).
- `storeIncoming` looks up and writes in separate steps and takes no lock, so two tabs storing one envelope can put a readable copy over a burn tombstone (client/src/lifetime.ts:81-91). `TombstonesStayIff` gives the exact condition over whole runs: no such write lands on a tombstone. `LateWriteResurrects` and `SplitStoreShowsTwice` show the failure.
- Nor does `armOnView` take a lock (client/src/lifetime.ts:104-115), so a view's write can move an expiry that another tab has set, or bring back a message that has been erased since. `CountdownsStandIff` gives the exact condition over whole runs; `OverlappingViews` is a run that does both.
- With history off each tab keeps new records in a memory of its own (client/src/idb.ts:123-134), so two tabs that receive one burn message can show it once each. `ShownInTwoIff` gives the exact condition, `HistoryOffShowsTwice` the case.
- `put` updates a memory-held record in place without evicting, so moving one into a full conversation exceeds the ceiling (client/src/idb.ts:123-127). `UpdateStaysBounded` is the exact condition, carried by the contract of `Put`.
- `upsertDevice` does not ask whether the account exists (control-plane/src/UserStore.php:330-358); its only caller has authenticated the account, but in an earlier step (control-plane/src/Api.php:177-188), and a deletion can commit in between (control-plane/src/Api.php:289-297). `DeletedMeanwhile` is a run that leaves a device without an account and then an account whose epoch does not count its revoked rows. Over whole runs `StraysIff` and `MiscountsIff` give the exact conditions, and `CallsFromEmpty` shows that both properties hold when no account is deleted under a request that has shown its secret. Unique keys, single hand-out of packages, the burning of revoked keys and the monotony of epochs do not depend on any of this (`FromEmpty`, `RevokedStays`, `EpochStays`).
- A last-resort upload first deletes the device's last-resort package and then inserts its own, ignoring a clash (control-plane/src/UserStore.php:768-788), so one under the reference of a consumed package leaves the device with none: `LastResortLost`. `LastResortEnds` is the exact condition for any batch, `PublishOffers` the one for one-time packages.
- A spent challenge is forgotten when a request that began at or past its expiry prunes, but a request that began before takes it for live whenever it gets to its insert (control-plane/src/UserStore.php:206-228), so two requests can spend one challenge: `SpentTwice`. `SpendsOnceIff` gives the exact condition over whole runs; it is met while clocks do not run backwards (`ClockedSpendsOnce`).

## Model

| member | source | states |
|---|---|---|
| Gf256.MulLinear | client/src/qr.ts:35-40 | multiplication distributes over XOR on both sides |
| Gf256.MulCommutes | client/src/qr.ts:35-40 | multiplication commutes |
| GfOrder.PowNotOne | client/src/qr.ts:18-33 | no smaller positive power of two than the 255th is one, so the power table runs through 255 values before it repeats |
| GfOrder.PowDistinct | client/src/qr.ts:18-33 | the first 255 powers are pairwise different |
| GfOrder.LogExists | client/src/qr.ts:18-33 | every nonzero byte is one of them, so the logarithm table is total on nonzero bytes |
| GfOrder.MulAssociates | client/src/qr.ts:35-40 | multiplication associates |
| GfOrder.MulNoZeroDivisors | client/src/qr.ts:35-40 | a product is zero only if a factor is |
| Gf256.XorSays | client/src/qr.ts:18-40 | exclusive or adds binary digits modulo two |
| ReedSolomon.FieldSays | client/src/qr.ts:18-33 | times one is nothing, times two shifts and takes 0x11d off when the ninth bit appears, and each power is twice the one before |
| ReedSolomon.GfTables.constructor | client/src/qr.ts:18-33 | the loops fill the tables with the powers of two and their logarithms |
| ReedSolomon.GfTables.GfMul | client/src/qr.ts:35-40 | the table look-up equals schoolbook multiplication modulo 0x11d, zero operands included |
| ReedSolomon.GfTables.RsGenerator | client/src/qr.ts:43-54 | the in-place products compute the generator polynomial of the degree |
| ReedSolomon.GeneratorRoots | client/src/qr.ts:43-54 | the generator vanishes at alpha^0 to alpha^(degree-1) |
| ReedSolomon.GeneratorMonic | client/src/qr.ts:43-54 | it is monic of that degree |
| ReedSolomon.GfTables.RsEncode | client/src/qr.ts:57-70 | data followed by the result vanishes at alpha^0 to alpha^(ec-1), for every data sequence and every count the tables reach |
| ReedSolomon.TooManyRoots | client/src/qr.ts:57-70 | a polynomial with as many distinct roots as coefficients is zero |
| ReedSolomon.CompletionUnique | client/src/qr.ts:57-70 | for counts up to 255 there is only one such completion of given data, so the encoder's answer is the only right one |
| CodeDistance.Distance | client/src/qr.ts:57-70 | two different codewords of one length up to 255 differ in more than ec places |
| CodeDistance.DistanceTight | client/src/qr.ts:43-54 | which is exact: at every length the generator, padded, is a codeword ec + 1 places from zero |
| CodeDistance.CorrectionUnique | client/src/qr.ts:57-70 | so a block with at most half of ec codewords damaged came from one codeword only |
| CodeDistance.WeightedVanishes | client/src/qr.ts:57-70 | for a codeword, every weighted sum of powers below the number of its roots is zero |
| QrBits.NumberBitsOf | client/src/qr.ts:95-99 | the bits pushed for a value write that value |
| QrBits.BitBuffer.Put | client/src/qr.ts:95-99 | appends exactly the low bits of the value, most significant first |
| QrBits.BitBuffer.Terminate | client/src/qr.ts:373-378 | appends the terminator of at most four zeros and then zeros to a byte boundary |
| QrBits.BitBuffer.ToBytes | client/src/qr.ts:103-111 | bit i of the bytes is bit i of the buffer, zero beyond it |
| QrBits.DataCodewords | client/src/qr.ts:366-383 | mode, length, bytes, terminator and alternating pad fill exactly the data codewords |
| QrBits.ParsePayload | client/src/qr.ts:366-383 | any codewords that start with mode, length and bytes parse back to those bytes |
| QrCodewords.DataEncodes | client/src/qr.ts:366-390 | byte by byte: 4 and the length, each byte's halves shifted by four bits, the zero terminator, then 0xec and 0x11 in turn, and the error correction completes them |
| QrGrid.PathDistinct | client/src/qr.ts:197-222 | the zig-zag visits no module twice |
| QrGrid.PathCovers | client/src/qr.ts:197-222 | and visits every module outside the vertical timing column |
| QrVisits.VisitAt | client/src/qr.ts:202-221 | on any odd grid larger than 7 the zig-zag starts upwards at the right: visit 2np + 2i + d is row n - 1 - i for even p and i for odd p, in column n - 1 - 2p, one less from column 6 on, less d |
| QrVisits.FreeVisit | client/src/qr.ts:210-216 | and its k-th unreserved module is the visit with k unreserved visits before it |
| QrGrid.FreeMember | client/src/qr.ts:210-216 | the free path is the path's unreserved modules |
| QrGrid.FreeDistinct | client/src/qr.ts:210-216 | and still visits none twice, for any reservation map |
| QrGrid.Capacity | client/src/qr.ts:175-194 | versions 1 to 5 leave 208, 359, 567, 807 and 1079 modules free |
| QrCode.PickVersion | client/src/qr.ts:80-89 | the smallest version whose capacity fits, or zero when none does |
| QrCode.Matrix.SetModule | client/src/qr.ts:125-130 | sets and reserves one module and nothing else |
| QrCode.Matrix.PlaceFinder | client/src/qr.ts:132-147 | draws and reserves a finder with its separator, clipped to the grid |
| QrCode.Matrix.PlaceAlignment | client/src/qr.ts:149-156 | draws and reserves the alignment pattern |
| QrCode.Matrix.PlaceTiming | client/src/qr.ts:181-186 | draws and reserves both timing lines |
| QrCode.Matrix.ReserveFormat | client/src/qr.ts:159-173 | reserves both format strips and sets the always-dark module |
| QrCode.BuildFunctionalPatterns | client/src/qr.ts:175-194 | reserves exactly the functional modules and draws each as its pattern says, the dark module included |
| QrCode.Matrix.PlaceData | client/src/qr.ts:197-222 | the k-th free module of the zig-zag carries bit k of the bytes, zero past their end, for any reservation map; by visits, the module visited after k free ones carries bit k; nothing else changes |
| QrCode.Matrix.ApplyMask | client/src/qr.ts:397-403 | flips exactly the unreserved modules the mask condition selects |
| QrLayout.FinderLooks | client/src/qr.ts:132-147 | a finder with its separator is the picture of nine by nine |
| QrLayout.AlignmentLooks | client/src/qr.ts:149-156 | an alignment pattern is the picture of five by five |
| QrLayout.DataModules | client/src/qr.ts:175-194 | which modules of each version carry data |
| QrLayout.BitIs | client/src/qr.ts:201 | the bit placed is the one of its byte by powers of two, zero past the end |
| QrLayout.MaskFlips | client/src/qr.ts:226-245 | which modules each of the eight masks flips, by remainders |
| QrFormat.FormatBits | client/src/qr.ts:319-328 | the division by the generator computes the eight published words of level L |
| QrFormat.FormatDistance | client/src/qr.ts:319-328 | two of them differ in at least seven bits, so three damaged ones are corrected |
| QrLayout.FormatLooks | client/src/qr.ts:319-328 | bit by bit, the words as strings of digits |
| QrSymbol.WordsBack | client/src/qr.ts:197-245 | reading the free modules back under the mask gives every byte placed |
| QrSymbol.Room | client/src/qr.ts:75-77 | every version has room for all its codewords |
| QrSymbol.RoundTrip | client/src/qr.ts:357-401 | modules that carry data and error-correction codewords decode to the text |
| QrSymbol.CarriesLaidOut | client/src/qr.ts:197-222 | what is carried along the free path is, visit by visit, bit k where k data modules were visited before, inverted where the mask says so |
| QrSymbol.FinishedLooks | client/src/qr.ts:331-353 | every pattern module, the dark module and both copies of the format in a finished grid are as pictured |
| QrSymbol.BuildMasked | client/src/qr.ts:394-403 | one masked candidate carries all codewords and its format bits |
| QrSymbol.ChooseMask | client/src/qr.ts:391-412 | all eight masks are tried and the first grid of least score wins |
| QrSymbol.QrMatrix | client/src/qr.ts:357-401 | every text of up to 106 bytes becomes modules from which a reader gets exactly its bytes, under the first mask of least penalty; the codewords are the text's byte by byte, every data module shows its bit by visits and every other module its picture; longer texts are refused |
| BusModel.NewMessage | gateway/internal/bus/bus.go:478-486 | expiry is the lifetime after now; ten minutes for none, a day for a longer one |
| Bus.InProcess.constructor | gateway/internal/bus/bus.go:140-149 | a new bus is the empty state |
| Bus.InProcess.Publish | gateway/internal/bus/bus.go:151-177 | delivery to live channels, hold and overflow compute the publish function; false once closed |
| Bus.InProcess.HoldBlob | gateway/internal/bus/bus.go:181-187 | appends, dropping the oldest blob of a full queue |
| Bus.InProcess.RegisterConsumer | gateway/internal/bus/bus.go:192-223 | registers or refreshes, evicting only a stalest registration past the floor |
| Bus.InProcess.PruneConsumerRegistry | gateway/internal/bus/bus.go:229-233 | an idle subject loses its registry |
| Bus.InProcess.Subscribe | gateway/internal/bus/bus.go:235-289 | the new channel opens with the backlog, sized to hold it |
| Bus.InProcess.Detach | gateway/internal/bus/bus.go:291-308 | removes and closes the channel if it is still listed |
| Bus.InProcess.Ack | gateway/internal/bus/bus.go:310-317 | a legacy ack drops the blob only when nobody is registered |
| Bus.InProcess.AckAcross | gateway/internal/bus/bus.go:323-333 | one lock section equals the acks one after another |
| Bus.InProcess.AckLocked | gateway/internal/bus/bus.go:335-358 | marks, drops what everyone has acked, prunes |
| Bus.InProcess.DropFullyAcked | gateway/internal/bus/bus.go:380-404 | keeps exactly the blobs some registered consumer has not acked |
| Bus.InProcess.Sweep | gateway/internal/bus/bus.go:422-455 | expired blobs, stale registrations and fully acked blobs go, and nothing else |
| Bus.InProcess.Close | gateway/internal/bus/bus.go:457-473 | closes every subscribed channel once and empties all state |
| BusLaws.PublishSays | gateway/internal/bus/bus.go:151-187 | a publish is placed on exactly the channels with room, and held, the oldest of 1024 making way, if and only if somebody is registered or no channel has room; nothing else changes |
| BusLaws.RegisterSays | gateway/internal/bus/bus.go:192-223 | a consumer is registered at this time if and only if it was already, or its subject has fewer than 128 or one last seen 90 seconds ago or more, or is new among fewer than 100000; no other registration changes but for the one that makes room |
| BusLaws.SubscribeRegisters | gateway/internal/bus/bus.go:235-245 | so after a subscribe |
| BusLaws.AckRegisters | gateway/internal/bus/bus.go:335-358 | and after an ack, unless it leaves the subject idle: then nobody is registered |
| BusLaws.AckHolds | gateway/internal/bus/bus.go:335-404 | after an ack under a name exactly what some registered consumer has yet to ack is held |
| BusLaws.LegacyAck | gateway/internal/bus/bus.go:335-376 | an ack without a name drops every copy of the blob and nothing else where nobody is registered, and does nothing elsewhere |
| BusLaws.LegacySubscribe | gateway/internal/bus/bus.go:247-281 | a subscribe without a name is handed everything held, in order, which is then kept only where somebody is registered |
| BusLaws.SweepHolds | gateway/internal/bus/bus.go:422-455 | a sweep keeps exactly what has not expired and, where someone has been seen within two hours, what one of those has yet to ack |
| BusLaws.SweepRegisters | gateway/internal/bus/bus.go:422-455 | and exactly the registrations of those two hours of subjects with a subscriber or something held |
| BusLaws.DetachSays | gateway/internal/bus/bus.go:291-308 | a detach closes its channel, takes it off the list, and changes nothing else but the registry of a subject left idle |
| BusLaws.CloseSays | gateway/internal/bus/bus.go:457-473 | a close closes every channel and empties every table |
| BusLaws.ClosedSays | gateway/internal/bus/bus.go:151-345 | after which publish, subscribe and ack do nothing |
| BusRuns.ApplyInv | gateway/internal/bus/bus.go:151-473 | every operation keeps the bus invariant: lists without duplicates, open channels subscribed, queues and logs in publish order, bounds, no registry of an idle subject |
| BusDelivery.OwedStep | gateway/internal/bus/bus.go:335-404 | no operation but the consumer's own ack, a sweep at or after expiry, or overflow takes an unacked blob from a registered consumer |
| BusDelivery.NoLoss | gateway/internal/bus/bus.go:235-404 | over any stretch of any run in which the consumer stays registered, a blob owed is still owed or one of those three happened |
| BusDelivery.PublishOwes | gateway/internal/bus/bus.go:151-187 | a publish to a registered consumer creates that debt, whoever is listening live |
| BusLaws.SubscribeThenPublish | gateway/internal/bus/bus.go:151-289 | a consumer that subscribes where there is a place for it is owed whatever is published next |
| BusLaws.FirstDelivery | gateway/internal/bus/bus.go:140-289 | over every run from a new bus that starts so, the debt stands until it is excused |
| BusDelivery.PublishReaches | gateway/internal/bus/bus.go:151-177 | a publish reaches every live subscriber with room, and a blob that reached nobody is held |
| BusDelivery.OnlyPublishOwes | gateway/internal/bus/bus.go:151-187 | nothing but a blob's own publish makes it owed |
| BusDelivery.AckDischarges | gateway/internal/bus/bus.go:335-358 | a registered ack settles that consumer's debt under the id, every copy of it |
| BusDelivery.AckReleases | gateway/internal/bus/bus.go:380-404 | and lets go of every blob everyone has acked |
| BusDelivery.SweepReaps | gateway/internal/bus/bus.go:422-455 | after a sweep nothing held has expired and someone waits for everything held |
| BusDelivery.SubscribeReplays | gateway/internal/bus/bus.go:241-281 | a registered subscribe opens with exactly the held blobs this consumer has not acked, with headroom |
| BusDelivery.LogGrows | gateway/internal/bus/bus.go:151-177 | what was placed on a channel stays in front of everything later, and nothing is placed on a closed one |
| BusDelivery.LogGrowsRun | gateway/internal/bus/bus.go:151-177 | so the backlog precedes every later live message over whole runs |
| BusDelivery.Redelivered | gateway/internal/bus/bus.go:235-289 | published while registered and subscribed again later: the blob is in the backlog delivered first |
| BusDelivery.ChannelsInOrder | gateway/internal/bus/bus.go:151-308 | every channel of every reachable state is strictly in publish order, of its own subject, never over capacity |
| BusDelivery.Bounded | gateway/internal/bus/bus.go:181-233 | at most 1024 blobs and 128 consumers a subject and 100000 registries; none empty, none of an idle subject |
| BusDelivery.EvictionFloor | gateway/internal/bus/bus.go:192-223 | a consumer leaves a registry only as the stalest one past 90 seconds, by two hours of silence, by its subject going idle, or by close |
| BusDelivery.AckAcrossKeeps | gateway/internal/bus/bus.go:323-333 | a section over distinct subjects discharges no debt but the one it names |
| RateLimit.Bucket.Allow | gateway/internal/ws/ratelimit.go:31-46 | refill, cap and spend compute the level functions; the first request finds a full bucket |
| RateLimit.Potential | gateway/internal/ws/ratelimit.go:31-46 | tokens left plus events allowed never exceed the starting level plus the refill |
| RateLimit.WindowBound | gateway/internal/ws/ratelimit.go:31-46 | at most burst + rate * length events pass in any window of any request sequence |
| RateLimit.NothingDeniedIff | gateway/internal/ws/ratelimit.go:31-46 | a fresh bucket denies nothing of a request sequence if and only if every window of it fits burst + rate * length |
| RateLimit.BurstHonoured | gateway/internal/ws/ratelimit.go:31-46 | the first burst of requests is always allowed |
| RateLimit.SpacedNeverDenied | gateway/internal/ws/ratelimit.go:31-46 | requests spaced by at least one refilled token are never denied |
| RateLimit.TooFastIsDenied | gateway/internal/ws/ratelimit.go:31-46 | and that spacing is exact: any shorter even spacing is eventually denied |
| RateLimit.SubjectLimiter.Allow | gateway/internal/ws/ratelimit.go:71-90 | the look-up, the opportunistic sweep and the spend compute the map functions; disabled limiters always allow |
| RateLimit.IdleIsFull | gateway/internal/ws/ratelimit.go:77-88 | a bucket idle for five minutes answers like one never seen |
| RateLimit.SweepUnobservable | gateway/internal/ws/ratelimit.go:60-90 | on every trace over all subjects the sweeping limiter decides like one that never deletes |
| RecipientLimit.OwnBucket | gateway/internal/ws/ratelimit.go:71-90 | on every trace the answer to a request is that of one fresh bucket, of the rate and twice it as burst, after this recipient's earlier requests alone |
| RecipientLimit.RecipientBound | gateway/internal/ws/ratelimit.go:60-90 | so in any window at most 2 rate + rate * length requests for one recipient pass, whatever is asked for others |
| RecipientLimit.RecipientUnhindered | gateway/internal/ws/ratelimit.go:60-90 | and none of them is denied if and only if every window of its own requests fits that |
| RecipientLimit.SweepForgets | gateway/internal/ws/ratelimit.go:77-86 | a sweep forgets exactly the recipients unasked for more than five minutes, and only for a new one at a full map |
| Transport.Transport.Publish | client/src/transport.ts:114-118 | queues and drains |
| Transport.Transport.DrainPublishQueue | client/src/transport.ts:119-151 | sends the head at most once a gap, remembers it as unconfirmed, forgets the oldest past 256, keeps it queued when the send fails |
| Transport.Transport.OnRateLimited | client/src/transport.ts:157-172 | slows down and schedules a retry of everything unconfirmed |
| Transport.Transport.FireRetryTimer | client/src/transport.ts:157-172 | unconfirmed frames go back in front of the queue in order |
| Transport.Transport.OnDelivered | client/src/transport.ts:176-182 | forgets the receipted frame and eases the pace after a clean streak |
| Transport.Transport.TakePending | client/src/transport.ts:187-199 | hands over unconfirmed then queued frames and stops |
| Transport.Transport.Close | client/src/transport.ts:216-228 | cancels timers and clears both buffers |
| PaceLaws.DrainSays | client/src/transport.ts:119-151 | an idle pacer sends the head, waits one gap, and remembers it as the newest of at most 256 unconfirmed; otherwise nothing happens |
| PaceLaws.ReceiptSays | client/src/transport.ts:176-182 | a receipt forgets the frame of its id and no other |
| PaceLaws.StopSays | client/src/transport.ts:187-228 | a hand-off and a close leave no frame and no timer |
| PaceLaws.LimitSays | client/src/transport.ts:157-172 | a rate limit makes the gap half as long again, rounded up and at most 1000 ms, and arms the retry one such gap later unless it is armed |
| PaceLaws.EasesOnEighth | client/src/transport.ts:176-182 | over any stretch of any run without a rate limit the gap stays until the eighth receipt, which takes it to two thirds, rounded down and at least 55 ms |
| PaceLaws.Recovers | client/src/transport.ts:176-182 | so 64 receipts bring any gap back to 55 ms |
| PaceLaws.SlowsDown | client/src/transport.ts:157-172 | and eight rate limits with no receipt between bring any gap to 1000 ms |
| TransportRuns.ApplyInv | client/src/transport.ts:87-228 | every event keeps the transport's invariant |
| TransportRuns.OrderAndConservation | client/src/transport.ts:87-199 | in every run unconfirmed followed by queued is without duplicates and in publish order, and every published frame is there, receipted, handed off, dropped by the cap or cleared |
| TransportRuns.QueueDrains | client/src/transport.ts:119-151 | as many due timer firings as queued frames put them all on the wire, in order |
| TransportRuns.TimersKeepComing | client/src/transport.ts:119-151 | behind a pending timer there are as many due firings to be had as queued frames |
| TransportRuns.RetryResends | client/src/transport.ts:157-172 | after a retry every unconfirmed frame goes out again, then what was queued: the first at once from an idle pacer with a willing socket, the others one per due firing |
| TransportRuns.RetryGoesOn | client/src/transport.ts:157-172 | a retry leaves the pacer's timer pending if and only if it was, or the socket took the first frame; otherwise all stays pending in order for the hand-off |
| TransportRuns.Replay | client/src/transport.ts:187-199 | publishing what was handed over to an idle transport makes exactly that pending there, in the same order, with the first frame on the wire |
| TransportRuns.Paced | client/src/transport.ts:96-150 | no two sends before a close or hand-off are closer than 55 ms |
| TransportRuns.NeverRateLimited | gateway/internal/ws/ws.go:234-245 | so the gateway's bucket of 20 a second and burst 40 denies none of them, nor any of the handshake relays that share it, even when the network holds up each frame by its own time of up to 2.15 s less 0.055 s for each relay |
| TransportRuns.JitterIff | gateway/internal/config/config.go:60 | and that delay is exact for every number of relays: over all runs and arrivals held up by at most a given time none is denied if and only if that time is within it |
| TransportRuns.SteadyRun | client/src/transport.ts:114-151 | a run sends up to 256 frames at exactly the pacer's floor |
| Lww.LessTotal | client/src/controller.ts:1089-1092 | string comparison is total |
| ListLaws.LessSays | client/src/controller.ts:1089-1092 | a text precedes another where they first differ by the smaller unit, or by being its beginning |
| Lww.FoldIsMaximal | client/src/controller.ts:1071-1097 | folding frames leaves each key at a candidate that no candidate beats, and at one exactly when there is one |
| BuddyLists.BuddyStore.AdoptBuddies | client/src/controller.ts:1061-1104 | the loop adopts exactly the entries that take precedence, and re-broadcasts exactly when the map changed |
| ListLaws.BuddiesAdopted | client/src/controller.ts:1075-1097 | entry by entry: taken if stamped at most a day ahead and new, or of a later version, or at a tie a removal, or then the greater verified key; every other entry stays |
| BuddyLists.BuddiesFoldToMaximum | client/src/controller.ts:1071-1097 | any order and repetition of frames leaves each username at the greatest version, removal and verified key among everything received in time |
| BuddyLists.InheritedNamesStayOut | client/src/controller.ts:1080-1085 | the exception, exactly: an inherited property name not in the map stays out |
| BuddyLists.BuddyReplicasAgree | client/src/controller.ts:1071-1097 | replicas with the same candidates agree on every rank |
| GroupLists.GroupStore.AdoptGroups | client/src/controller.ts:1258-1298 | the loop over what was loaded stores the adopted object, in its key order, and re-broadcasts what is then loaded, exactly when an entry was newer |
| ListLaws.GroupsAdopted | client/src/controller.ts:1274-1291 | the same for groups, where a label decides only against a label |
| ListLaws.StoredSays | client/src/controller.ts:1269-1298 | what is stored is what was loaded with those entries, or exactly what was stored if there are none |
| ListLaws.IndexSays | client/src/controller.ts:1288-1290 | the names an object lists first are the decimal numbers below 4294967295 |
| ListLaws.NewNamePlace | client/src/controller.ts:1288-1290 | a new name goes to its place among those, or to the end, which keeps the object's order |
| GroupLists.AdoptIntoMap | client/src/controller.ts:1269-1291 | entry by entry into the ordered object is adoption of the map, and changes the object only if it changes the map |
| GroupFolds.FoldWithin | client/src/controller.ts:1113-1127 | with at most 512 names, loading and saving around every frame is folding maps, and loses no name |
| GroupFolds.GroupNamesSurviveIff | client/src/controller.ts:1113-1127 | every name there is an entry for, at the start or received in time, can be read back if and only if there are at most 512 of them |
| GroupFolds.GroupsFoldToTop | client/src/controller.ts:1269-1291 | with at most 512 names, each name ends at a candidate of greatest version and removal that no other label beats, and is there exactly when it has a candidate |
| GroupFolds.GroupReplicasAgree | client/src/controller.ts:1269-1291 | so replicas with the same candidates agree on version and removal always, and on the label when the top candidates agree on carrying one |
| GroupFolds.GroupOrderMatters | client/src/controller.ts:1278-1287 | for any starting map and any frames: no rearrangement of the frames changes a name's label if and only if its starting entry is itself on top or the top candidates agree on carrying a label |
| GroupFolds.GroupOrderExample | client/src/controller.ts:1278-1287 | two concrete frames whose order decides the label |
| Gossip.DeliverSpends | client/src/controller.ts:1074-1103 | every delivery among any number of devices spends a unit of a finite budget |
| Gossip.BuddyGossipEnds | client/src/controller.ts:1074-1103 | after the last edit no run of buddy deliveries is longer than the frames in flight plus one per other device and pending improvement |
| GroupGossip.GroupGossipEnds | client/src/controller.ts:1258-1298 | the same for stored group objects, while there are at most 512 names |
| GroupGossip.DeliverOf | client/src/controller.ts:1258-1298 | with at most 512 names a delivery to a stored object, loads included, is the delivery to the map it stands for |
| GroupGossip.TakenAndLost | client/src/controller.ts:1246-1291 | a device that holds 511 shared names and one more takes in a 513th and loses it on its next load |
| GroupGossip.CycleAt513 | client/src/controller.ts:1246-1298 | two devices with 511 shared names and one more each get into a state that two deliveries lead back to |
| GroupGossip.NeverQuiet | client/src/controller.ts:1246-1298 | so runs of deliveries of every length follow it: the bound of 512 names is exact |
| GroupGossip.SharedAndTwo | client/src/controller.ts:183-215 | there are such names: 511 shared and two more, all well formed |
| GroupGossip.EndlessGossip | client/src/controller.ts:1246-1298 | so some net of two devices with one frame in flight can be delivered to for ever |
| Gossip.RunKeepsCovered | client/src/controller.ts:1071-1103 | through raising edits and deliveries that refuse no winner, every device has, or has coming, an entry as high as any other device's |
| Gossip.BuddyDevicesAgree | client/src/controller.ts:1071-1103 | after such a run devices that started alike agree on every buddy's rank whenever nothing is in flight |
| Gossip.RefusalMatters | client/src/controller.ts:1073-1097 | one delivery leaves the receiver as high as the frame at a name if and only if the entry was in time or the receiver was as high already |
| Gossip.ClockAheadDiverges | client/src/controller.ts:1073-1079 | an entry stamped more than a day ahead is refused by everyone else, who stay apart from its author with nothing in flight |
| GroupGossip.GroupDevicesAgree | client/src/controller.ts:1258-1298 | with at most 512 names, after raising edits and deliveries that refuse no winner, devices that started alike agree on every group's version, removal and label whenever nothing is in flight, where entries of a name that tie agree on carrying a label |
| GroupGossip.GroupStampsAgree | client/src/controller.ts:1258-1298 | and on version and removal whatever the labels |
| GroupGossip.LabelsAgreeIff | client/src/controller.ts:1258-1298 | the condition on labels is exact: over all such runs of any number of devices, agreement always follows if and only if entries of a name that tie agree on carrying one |
| GroupGossip.MixedTieDiverges | client/src/controller.ts:1278-1287 | two devices that hold a labelled and an unlabelled entry of one stamp refuse each other's and stay apart |
| Gossip.LoweringEditDiverges | client/src/controller.ts:1071-1097 | an edit stamped behind the entry it replaces leaves two devices apart for good |
| Gossip.EditMatters | client/src/controller.ts:1071-1103 | with nothing in flight, an edit leaves every device covered if and only if it takes no entry below where it was |
| Gossip.EditSettles | client/src/controller.ts:1071-1103 | for any order that adoption follows strictly: devices in agreement of which one edits one entry agree again once everything has been delivered, if and only if the new entry is not lower than the old one |
| Gossip.BuddyEditSettles | client/src/controller.ts:994-1043 | so for an edit of one buddy, on every rank |
| GroupGossip.GroupEditSettles | client/src/controller.ts:1169-1225 | and for an edit of one group, on every version, removal and label, with at most 512 names and ties that agree on carrying a label |
| Normalize.SanitizedIsClean | client/src/controller.ts:168-171 | a sanitized name is at most 32 units, has no control characters and no edge whitespace |
| Normalize.SanitizeFixes | client/src/controller.ts:168-171 | sanitizing changes a name exactly when it lacks one of those, so it is idempotent |
| NormalizeLaws.SanitizeSays | client/src/controller.ts:168-171 | any text becomes the trimmed first 32 units of its trimmed text without control characters |
| NormalizeLaws.FiltersOnce | client/src/controller.ts:168-171 | of which filtering leaves no choice |
| NormalizeLaws.TrimsOnce | client/src/controller.ts:168-171 | nor does trimming |
| Normalize.NormalizeGroupMap | client/src/controller.ts:183-215 | the loop keeps, in order, the coerced entries of valid keys until 512 are kept |
| NormalizeLaws.GroupsLoad | client/src/controller.ts:183-215 | entry by entry, malformed ones included: which load, in which place, with which fields |
| Normalize.NormalizedOk | client/src/controller.ts:183-215 | its result has at most 512 entries, each key and label one the program could have written |
| Normalize.GroupMapRoundTrip | client/src/controller.ts:183-215 | an ordered group object written out comes back unchanged if and only if it is such a result |
| Normalize.LoadCuts | client/src/controller.ts:1113-1127 | loading a stored object of well-formed entries keeps exactly its first 512 |
| Normalize.NormalizeBuddyMap | client/src/controller.ts:111-139 | the loops compute the folds of the current and the legacy shape |
| NormalizeLaws.LegacyLoads | client/src/controller.ts:112-121 | every name of a legacy list loads as its last entry, in the default group at version zero |
| NormalizeLaws.BuddiesLoad | client/src/controller.ts:123-137 | and every name of a current map, with each field as given or by its default |
| Normalize.BuddyMapRoundTrip | client/src/controller.ts:123-137 | a buddy map written out in any order comes back if and only if its names, groups and keys are well formed |
| Vault.ArmingLater | client/src/vault.ts:131-150 | a record stored unarmed and armed on view starts the countdown that sealing then would have, and arming again changes nothing |
| Lifetime.LifetimeManager.StoreIncoming | client/src/lifetime.ts:63-91 | stores only an absent id, and arms at once only when asked |
| Lifetime.LifetimeManager.ArmOnView | client/src/lifetime.ts:104-115 | starts the countdown of an unarmed stored duration record and of nothing else |
| Lifetime.LifetimeManager.Arm | client/src/lifetime.ts:118-131 | schedules the expiry, or erases at once when it has passed |
| Lifetime.LifetimeManager.SweepExpired | client/src/lifetime.ts:138-150 | erases and announces exactly what is overdue and gives every other armed record without a timer one |
| Lifetime.LifetimeManager.OpenBurnOnRead | client/src/lifetime.ts:159-170 | returns the plaintext of an unread burn record of this key and leaves a tombstone |
| Lifetime.LifetimeManager.Expire | client/src/lifetime.ts:177-190 | cancels, deletes and announces, once |
| LifetimeLaws.ViewStarts | client/src/lifetime.ts:104-131 | a first view of a stored unarmed message of d seconds gives it the expiry and the timer now + 1000 d, or erases and announces it if that has passed; everything else stays |
| LifetimeLaws.ViewChangesIff | client/src/lifetime.ts:104-115 | any other view changes nothing |
| LifetimeLaws.ViewedThenGone | client/src/lifetime.ts:104-190 | over every run after it the message is there with that expiry and timer until the timer fires, a sweep comes then or later, or it is revoked; and gone from then on |
| LifetimeLaws.ReceiveSays | client/src/lifetime.ts:63-91 | what is stored of an incoming message, field by field, and when it counts down at once |
| LifetimeLaws.EraseSays | client/src/lifetime.ts:173-190 | a fired timer and a revoke leave neither record nor timer, and announce what was there |
| LifetimeLaws.ReadSays | client/src/lifetime.ts:159-170 | a read shows exactly an unread burn message and leaves a row that no key opens |
| LifetimeLaws.SweepSays | client/src/lifetime.ts:138-150 | a sweep keeps exactly what is not overdue, announces the rest once, and times every countdown |
| LifetimeModel.SweepCompletes | client/src/lifetime.ts:138-150 | after a sweep nothing is overdue and every armed record has a timer due exactly at its expiry |
| LifetimeModel.SessionKeepsTimers | client/src/lifetime.ts:81-150 | and from a session's first sweep on that stays so through every later operation |
| LifetimeModel.OverdueIffTimerDue | client/src/lifetime.ts:118-150 | so a record is overdue exactly when its own timer is due and has not run |
| LifetimeModel.ExpiryNeverMoves | client/src/vault.ts:145-150 | operation by operation, in one tab, a set expiry never changes while the record exists |
| LifetimeModel.BurnReadsOnce | client/src/lifetime.ts:159-170 | a stored burn message reads back exactly what was sealed, once, and a redelivery does not bring it back |
| BurnRace.StepInv | client/src/lifetime.ts:28-34 | every interleaved step of every tab keeps the latch invariant, short of a store's late write onto a tombstone |
| BurnRace.CrashSays | client/src/lifetime.ts:28-34 | a tab that closes lets go of its locks and changes nothing stored |
| BurnRace.ShownAtMostOnce | client/src/lifetime.ts:159-170 | however tabs interleave and crash without such a write, each burn message's plaintext is returned at most once and only a tombstone is left |
| BurnRace.BurnedForever | client/src/lifetime.ts:194-203 | a tombstone never becomes readable again, redelivery included |
| BurnRace.TombstonesStayIff | client/src/lifetime.ts:81-91 | over any run of any tabs no tombstone is ever undone if and only if no store's late write lands on one |
| BurnRace.LateWriteResurrects | client/src/lifetime.ts:81-91 | one such write keeps a tombstone if and only if it is for another message, and makes its own readable again |
| BurnRace.SplitStoreShowsTwice | client/src/lifetime.ts:81-91 | a concrete run of two tabs that shows one burn message twice |
| ViewRace.StandsIff | client/src/lifetime.ts:104-115 | one step leaves every set expiry as it was, and brings nothing back that is gone but by storing it, if and only if it does not write over a record armed for another time, nor a view over one that is gone |
| ViewRace.CountdownsStandIff | client/src/lifetime.ts:104-115 | and so over any run of any tabs |
| ViewRace.OverlappingViews | client/src/lifetime.ts:104-115 | a run of three views that moves a set expiry and brings an erased message back readable |
| BurnTiers.CanShowIff | client/src/idb.ts:123-134 | a tab that keeps its own records can show a burn message without storing it anew if and only if it holds an unread copy |
| BurnTiers.ShownInTwoIff | client/src/idb.ts:123-134 | so two tabs can show one message if and only if two of them hold unread copies |
| BurnTiers.HistoryOffShowsTwice | client/src/idb.ts:123-134 | as two tabs do that have each stored the same envelope in their own memory |
| Keyvault.KeyvaultStore.SetEphemeral | client/src/idb.ts:103-108 | leaving history-off drops what memory held and nothing else; the ceiling of 500 a conversation stays |
| Keyvault.KeyvaultStore.Get | client/src/idb.ts:114-121 | answers as the one map of both tiers |
| Keyvault.KeyvaultStore.Put | client/src/idb.ts:123-140 | updates the one map, less what was evicted; a disk-born record stays on disk, a memory-held one in memory; memory keeps within 500 a conversation unless an update moves a record into a full one |
| Keyvault.KeyvaultStore.EvictOldest | client/src/idb.ts:143-152 | drops exactly as many of a conversation's records as exceed 500, each older than every one kept |
| Keyvault.KeyvaultStore.SortByAge | client/src/idb.ts:148-149 | a stable order by age containing every position |
| Keyvault.KeyvaultStore.Delete | client/src/idb.ts:154-158 | removes the id from the one map and keeps the ceiling |
| Keyvault.KeyvaultStore.List | client/src/idb.ts:160-164 | every record of the one map exactly once |
| Keyvault.KeyvaultStore.ListByConversation | client/src/idb.ts:169-179 | exactly one conversation's records of it, each once |
| Keyvault.KeyvaultStore.PurgeDurable | client/src/idb.ts:184-187 | leaves exactly what memory holds, and the ceiling |
| Keyvault.EvictionDetermined | client/src/idb.ts:143-152 | those conditions leave no choice in what is evicted |
| Keyvault.InsertStaysBounded | client/src/idb.ts:130-134 | inserting keeps every conversation within 500 memory records |
| Keyvault.UpdateStaysBounded | client/src/idb.ts:124-127 | updating in place does so if and only if it does not move a record into a full conversation |
| Keyvault.FewerBounded | client/src/idb.ts:154-158 | removing records keeps every conversation within 500 |
| Keyvault.NewRecordDropped | client/src/idb.ts:130-134 | the record just put is itself the one dropped if and only if its conversation was full of later ones |
| EndToEnd.StepInv | client/src/groupchannel.ts:2245-2266 | whatever may be acked has been stored, through bus operations, receipts, settled and failed applies, and crashes |
| EndToEnd.StoredOrOwedStep | client/src/groupchannel.ts:2245-2266 | no step leaves a kept message neither stored nor owed, short of expiry or overflow |
| EndToEnd.NothingLost | client/src/groupchannel.ts:2245-2266 | over any stretch of any run with the consumer registered, a message owed is later stored or still owed, or was excused on the way |
| EndToEnd.PublishedIsOwed | gateway/internal/bus/bus.go:151-177 | which starts at its publish |
| EndToEnd.RedeliveryHarmless | client/src/lifetime.ts:81-91 | applying a redelivery while the record exists leaves the store as it was |
| EndToEnd.OrderKept | client/src/groupchannel.ts:319-330 | each step keeps: in every conversation what has settled, then what is queued, is what arrived, in order |
| EndToEnd.OrderAlong | client/src/groupchannel.ts:319-330 | and so does every run |
| EndToEnd.RecallFindsItsMessage | client/src/groupchannel.ts:2223-2244 | in every run of a freshly set up device, when a recall comes up every message that arrived before it in its conversation has been stored or has failed |
| EndToEnd.RecallSays | client/src/controller.ts:2034-2050 | a recall erases its target, announced once, if and only if it is stored in the recall's conversation, was sent as recallable, and is not the account's own unless the recall is; otherwise it changes nothing |
| EndToEnd.KeepSays | client/src/controller.ts:2009-2021 | a message that settles for the first time is stored readable and unarmed, and nothing else changes |
| EndToEnd.AckSays | client/src/groupchannel.ts:2245-2266 | what may be acked is what has settled well or has nothing to apply |
| EndToEnd.CrashSays | client/src/groupchannel.ts:319-330 | a crash loses the queued applies and the timers and nothing stored or owed |
| GroupReceiver.Receiver.EnqueueApply | client/src/groupchannel.ts:319-330 | an apply joins the end of its conversation's chain |
| GroupReceiver.Receiver.SettleNext | client/src/groupchannel.ts:2248-2266 | the oldest apply runs, and only a successful one may be acked |
| GroupReceiver.Receiver.ApplyInboundRevoke | client/src/controller.ts:2034-2050 | erases only a recallable record of the same conversation, an outgoing one only for the own account |
| UserStore.UserStore.Register | control-plane/src/UserStore.php:89-113 | creates the account with its device or leaves the tables as they were |
| UserStore.UserStore.UpsertDevice | control-plane/src/UserStore.php:330-358 | created, refreshed, refused as revoked or as another account's, by the unique device key |
| UserStore.UserStore.RevokeDevice | control-plane/src/UserStore.php:475-503 | burns the row, raises the epoch only on a live device, deletes its packages |
| UserStore.UserStore.ReapOrphanDevices | control-plane/src/UserStore.php:515-544 | deletes exactly the aged live rows with no package |
| UserStore.UserStore.DeleteAccount | control-plane/src/UserStore.php:552-571 | removes the account with its devices and packages |
| UserStore.UserStore.BackfillAccountEpoch | control-plane/src/Db.php:191-199 | seeds accounts still at zero |
| UserStore.UserStore.PublishKeyPackages | control-plane/src/UserStore.php:752-795 | replaces the backlog, inserting what breaks no unique index, and counts what was stored |
| UserStore.UserStore.TakeKeyPackages | control-plane/src/UserStore.php:911-944 | one claim per active device that has a package, oldest device first |
| UserStore.UserStore.ClaimOne | control-plane/src/UserStore.php:960-978 | an oldest unconsumed one-time package, else the last-resort one, else nothing |
| UserStore.UserStore.SpendChallenge | control-plane/src/UserStore.php:206-228 | prunes, then succeeds exactly for a live genuine solved challenge not on record |
| UserStore.LeadingZeroBits | control-plane/src/UserStore.php:231-244 | the position of the first one bit of the digest |
| RegistryLaws.RegisterSays | control-plane/src/UserStore.php:89-113 | a new name with a new key gets an account at epoch zero and a live device, both or neither, and no other row changes |
| RegistryLaws.AddSays | control-plane/src/UserStore.php:330-358 | a free key is added, a key of the account's live device is seen again, and any other key changes nothing |
| RegistryLaws.RevokeSays | control-plane/src/UserStore.php:475-503 | the row keeps the time it was first revoked at, its packages go, and the epoch rises by one exactly if it was live |
| RegistryLaws.ReapSays | control-plane/src/UserStore.php:515-544 | a row goes if and only if it is of the account, live, unseen for 600 seconds, named by no package and not the excluded one; nothing else changes |
| RegistryLaws.DeleteSays | control-plane/src/UserStore.php:552-571 | the account's rows go and no others |
| RegistryLaws.BackfillSays | control-plane/src/Db.php:191-199 | an epoch of zero becomes the number of revoked rows and no other changes |
| RegistryLaws.RowStandsIff | control-plane/src/UserStore.php:89-571 | over any stretch of any run a device's row stays if and only if its account is not deleted and no reap comes while the row is abandoned |
| RegistryLaws.PackagedStays | control-plane/src/UserStore.php:515-544 | so while a package names a device only its account's deletion removes its row |
| RegistryLaws.AuthorizedStays | control-plane/src/UserStore.php:515-795 | and a device with a package keeps its row and one until it is revoked, its account is deleted or it publishes anew |
| RegistryLaws.PublishOffers | control-plane/src/UserStore.php:762-788 | after any batch a one-time package stands under a reference if and only if one was consumed under it or an upload found no last-resort package of the same reference; nothing of the old backlog is left |
| RegistryLaws.LastResortEnds | control-plane/src/UserStore.php:768-788 | the last last-resort upload of a batch ends on record, alone, if and only if its reference is neither a consumed package's nor an earlier one-time upload's |
| RegistryLaws.LastResortStays | control-plane/src/UserStore.php:768-788 | without one the old last-resort package stays |
| RegistryLaws.LastResortLost | control-plane/src/UserStore.php:768-788 | a batch that leaves a device without the last-resort package it had |
| RegistryLaws.StoredCounts | control-plane/src/UserStore.php:752-795 | the answer counts the uploads whose row was there right after them |
| RegistryLaws.TakeSays | control-plane/src/UserStore.php:911-944 | a take marks the one-time packages it hands out and changes nothing else |
| RegistryLaws.TakeChooses | control-plane/src/UserStore.php:911-978 | it hands out one package for each live device that has one to give, an oldest one-time one, else the last-resort one, oldest device first |
| RegistryLaws.SpendSays | control-plane/src/UserStore.php:206-228 | a spend succeeds if and only if the challenge is genuine, live and not on record as live; expired records go |
| RegistryRuns.ApplyInv | control-plane/src/UserStore.php:89-978 | every transaction, at any time, keeps the registry's invariant |
| RegistryRuns.RevokeCounts | control-plane/src/UserStore.php:484-494 | revoking keeps each epoch equal to the number of revoked rows |
| RegistryRuns.RegisterCountsIff | control-plane/src/UserStore.php:89-113 | a registration that succeeds keeps each epoch equal to the number of revoked rows if and only if no revoked row is already filed under its name |
| RegistryRuns.BackfillSeeds | control-plane/src/Db.php:191-199 | start-up seeding makes every count right if and only if the accounts not at zero already are |
| RegistryRuns.FromEmpty | control-plane/src/Db.php:65-84 | in every run of transactions from an empty database device keys are unique and no one-time package is handed out twice |
| RegistryRuns.RevokedNeverActive | control-plane/src/UserStore.php:330-358 | over any stretch of any run in which its account is not deleted, a revoked key is never active again under any account |
| RegistryRuns.EpochNeverFalls | control-plane/src/UserStore.php:484-494 | over any stretch of any run in which an account is not deleted its epoch never goes down, restarts included |
| RegistryRuns.ClaimIsFresh | control-plane/src/UserStore.php:960-978 | a one-time package about to be handed out was never handed out before, even if its reference is published again |
| RegistryRuns.ReapedMayReturn | control-plane/src/UserStore.php:506-544 | the key of a reaped device can enroll again as a new device |
| RegistryRuns.EnrollingBeforeRegistering | control-plane/src/UserStore.php:330-358 | enrolling under a name nobody has registered leaves the later account with a revoked row and epoch zero |
| RegistryCounts.HousedIff | control-plane/src/UserStore.php:330-358 | a transaction leaves a device row without its account if and only if it adds a device to an account that is not there |
| RegistryCounts.StraysIff | control-plane/src/Api.php:166-203 | over any run every device row always has its account if and only if no device is added to an account that is not there |
| RegistryCounts.CountsIff | control-plane/src/UserStore.php:89-113 | a transaction makes an epoch differ from the number of revoked rows if and only if it registers a name over rows revoked under it |
| RegistryCounts.MiscountsIff | control-plane/src/Api.php:37-67 | over any run epochs always count if and only if no name is registered over revoked rows |
| Challenges.WinsStay | control-plane/src/UserStore.php:219-224 | a challenge on record stays there until, and only until, a prune at or past its expiry |
| Challenges.SpendIsTwoSteps | control-plane/src/UserStore.php:206-228 | the prune followed by the insert is the spend |
| Challenges.SpendsOnceIff | control-plane/src/UserStore.php:206-228 | over any run, with any times, no challenge is spent twice if and only if no prune at or past its expiry comes between two of its inserts the later of which still takes it for live |
| Challenges.ClockedSpendsOnce | control-plane/src/UserStore.php:206-228 | so none is while clocks do not run backwards |
| Challenges.SpentTwice | control-plane/public/index.php:95 | a run from an empty database in which two requests that began before the expiry both spend one challenge |
| Requests.RunOf | control-plane/src/Api.php:37-297 | interleaved requests are a run of transactions, so all of this holds of them |
| Requests.NeedsSay | control-plane/src/Api.php:166-297 | adding a device takes a shown secret, and revoking, publishing and deleting a session of the account |
| Requests.TicketsSay | control-plane/src/Api.php:98-297 | a request has what it has shown until it acts, opens a session or leaves |
| Requests.SessionsSay | control-plane/src/Api.php:98-297 | an account may have a session once one is opened, until it is deleted |
| Requests.RevokedStays | control-plane/src/UserStore.php:330-358 | however requests interleave, a revoked key is never active again while its account is not deleted |
| Requests.EpochStays | control-plane/src/UserStore.php:484-494 | and its epoch never goes down |
| Requests.CallsFromEmpty | control-plane/src/Api.php:166-297 | in every run of requests from an empty database keys are unique, no one-time package is handed out twice, and no challenge is spent twice while clocks do not run backwards; and when no account is deleted while a request that has shown its secret is still to act, epochs count and every device row has its account |
| Requests.DeletedMeanwhile | control-plane/src/Api.php:98-109 | an account deleted between a request's check and its transaction leaves a device without an account, and the name registered anew an epoch of zero over a revoked row |
| Sas.SasWordInjective | client/src/sas.ts:18-28 | the 2048 tokens are distinct |
| SasLaws.WordSays | client/src/sas.ts:18-28 | a token is one of 16 onsets, one of 8 vowels and one of 16 codas for the top four, next three and last four bits |
| SasLaws.GroupSays | client/src/sas.ts:35-53 | word i stands for the i-th eleven bits from the top of the digest as one number |
| SasLaws.PhraseSays | client/src/sas.ts:35-53 | so the phrase is those words in order with single spaces |
| Sas.RenderSasWords | client/src/sas.ts:35-53 | an error exactly for a digest with too few bits, else the joined words of its groups of eleven bits |
| Sas.PhrasesAgree | client/src/sas.ts:35-53 | for every word count two long-enough digests render alike if and only if the bits shown agree |

## Left out

- The penalty score is a parameter of `QrSymbol.QrMatrix` (any score); the first-copy placement of format bits is as the code has it and not compared with section 7.9 of ISO/IEC 18004:2015.
- QR grids are two-dimensional arrays rather than flat ones; text arrives as its UTF-8 bytes.
- Go channels are entries of a channel table with handles; goroutines that wait for a context to end become detach operations, and receiving is a drain operation. A message's stamp, the history, the eviction victim and the transport's log are observers no operation reads.
- BusDelivery.AckAcrossKeeps: asks for distinct subjects, which a connection's mailbox map guarantees (gateway/internal/ws/ws.go:367-377).
- Token counts and times of the limiter are reals, so rounding of floating point is not modelled.
- Versions in buddy and group frames are reals, so a JSON number that overflows to infinity is not modelled. Text of the maps is UTF-16 code units and compares by them.
- Gossip.BuddyDevicesAgree: asks that edits lower no entry and that no delivery refuses an entry that would have won; `EditSettles` and `RefusalMatters` are exact for one edit and one delivery, `LoweringEditDiverges` and `ClockAheadDiverges` show what happens otherwise. Which group a buddy is filed under and when it was added may differ at equal rank.
- GroupGossip.GroupDevicesAgree: asks the same, that there are at most 512 names, and that entries of a name that tie agree on carrying a label (exact, by `LabelsAgreeIff`). A group's sort order may differ at equal stamp.
- `Normalize.Groups` appends in listing order, which is an object's own order because a listing comes from an object (array-index keys first); listings that no object has are covered as well.
- Records deleted behind the lifetime manager's back (history purge, eviction, another tab's erasure) while a timer is pending are not modelled in `LifetimeModel`; burn-once is not claimed across explicit deletion.
- BurnRace.ShownAtMostOnce: covers runs in which no store's late write lands on a tombstone, the exact condition of `TombstonesStayIff` for tombstones to stay. It is about one store; with history off there is one for each tab, and `ShownInTwoIff` is exact for two. Eviction from memory, after which a redelivery is stored anew, is not part of these models.
- TransportRuns.NeverRateLimited: is about the connection's own bucket; the per-recipient limiter, which other senders share, may still refuse (gateway/internal/ws/ws.go:240-243).
- IndexedDB's key order of a full listing is not modelled: `Keyvault` lists disk records in some order, then memory.
- `EndToEnd` follows the message and recall branches of one device with a lifetime manager; the degraded main-thread controller without one acks without storing (client/src/controller.ts:2016-2018) and is not modelled. Handshake, identity and away traffic is acked freely. What a blob decrypts to, and so whether its conversation is held, is fixed per blob; the client decides it from the sessions it holds when the blob arrives (client/src/groupchannel.ts:2160-2162).
- Requests.CallsFromEmpty: for the epoch count and the rows' accounts asks that no account is deleted while a request that has shown its secret is still to act; `DeletedMeanwhile` shows what happens otherwise, and `StraysIff` and `MiscountsIff` are exact. For single spends it asks for clocks that do not run backwards; `SpendsOnceIff` is exact.
- Ordering of equal timestamps in the registry's queries is any order; session lifetimes and which device a session is bound to, presence, away and rate tables, passwords and the legacy schema migration are not modelled. Row deletion by an interrupted transaction rolls back as a whole.
- MLS, staged-commit arbitration, WebSocket, HTTP, WebRTC, protobuf, service worker, Electron and UI code, fixed-offset codecs, and the strength of any cryptography.
- `renderSasHex` and `renderContactPhraseHex` only decode hexadecimal around `Sas.RenderSasWords`.
