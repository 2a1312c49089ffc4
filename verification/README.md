# Verification of the househelp API's protocols and transformations

A Dafny 4.11 model of the parts of the Go service under `App/househelp-api/internal` whose correctness spans several
functions, transactions or processes, with proofs of what they promise. `dafny verify dfyconfig.toml` checks everything.

Each Go method that changes state is a Dafny method proved against a specification function; each protocol that can
interleave is a state machine over its steps; and the main results are lemmas over every input, every run or every
reachable state.

## What is modelled

**Bookings** (`Bookings`, `Capacity`, `Accepting`, `Handouts`, `Cancelling`, `BookingRepository`). Capacity is not stored: a gated
insert or move takes an advisory lock on (locality, date), counts the committed bookings whose padded window (duration
plus 15 minutes) overlaps the wanted slot, and writes. `Capacity` splits each such transaction into begin, lock, re-count,
write, commit or abort, and interleaves any number of them with status moves. At most roster-minus-leave committed
bookings share a start, so the overcommit of any slot is bounded by the starts that can reach it. That no slot is ever
overcommitted is false: the gate counts only the slot being booked. `OutOfOrderOvercommits` shows a pair of bookings that
breaks it, `CommitSafeIff` says for every commit exactly when it does not, and `InOrderNeverOvercommits` proves the claim for
runs placed in start order. `Accepting` interleaves the lock, check, claim and commit of accepts and of the dispatcher's
assignments with everything else that writes a booking's helper or status: cancellations, completions, releases back to the
dispatcher, reschedules and reassignments (whose check and write are two steps each). An accept counts what its helper holds,
the dispatcher probes for a clash of padded windows, and neither makes the other's check. `Handouts` says over every run
exactly when no helper exceeds the maximum (`MaximumHoldsIff`) and when none is booked twice at a time
(`NeverDoubleBookedIff`), and that under the lock each check protects its own promise: without reassignments only the
dispatcher breaks the maximum (`OnlyDispatchOverfills`), and without reassignments and moves only accepts book a helper twice
at a time (`OnlyAcceptsDouble`). `Cancelling` follows the money over whole runs.

**Server-driven pages** (`Json`, `Refs`, `Validator`, `Resolver`, `PageTheorems`, `PageContents`, `Includes`, `IncludeOrder`,
`Hydrator`, `Freshness`, `Pipeline`, `Whitelist`, `History`, `Lifecycle`, `Versions`). A page config is a small template language. The theorems connect the
functions that each walk it on their own: what key extraction fetches and what the validator admits is what the resolver
needs, so validated pages do not go wrong and depend on nothing else. `PageContents` says what a page shows, place by place
and section by section. `Includes` proves the expander, with its depth limit and its shared visited set, equal to a plain
flattening of the include tree, and `IncludeOrder` says what that is in terms of the places of the tree. `Hydrator` runs the per-source and
batch tasks and proves every key's fate independent of the order of their effects; `Pipeline` joins extraction, hydration
and resolution. `Whitelist` bounds staleness over runs of many processes sharing Redis. `Lifecycle` proves what the draft,
staged, active and archived states keep, and that a rollback undoes an activation; an update's two statements are two steps.

**Compliance** (`Scrub`, `InPlaceScrub`, `Backfill`, `Streamer`). The redaction is characterised place by place, and the walk
that overwrites shared maps in place is proved to perform it; the keyset-paginated backfill equals one map over the table,
survives interruption and repeats without effect; the streaming writer equals a plain serializer, whose text a parser for
the grammar of RFC 8259 (sections 4 and 5) reads back.

**Limits and versions** (`RateLimit`, `AppVersion`, `Versions`, `VersionText`). The OTP limiter's counters have an exact bound over every
interval; the update middleware's per-platform index answers as the ordered lookup does, less than a minute late.

## Where the code and its comments differ

- `auth/ratelimit.go:12` speaks of sliding windows. The windows are fixed: `BoundIsReached` lets 2·max − 1 hits through
  within one window's length, and `IntervalBound` proves that no interval lets more through.
- `bff/hydrator.go:59-62` says critical failures are returned. Lines 149-160 swallow every failure that is a deadline or a
  cancellation, be it the time budget's, the source's own timeout or the task group's: `DeadlineLosesCriticalKey` is a request
  that succeeds without its critical key, and `SilentLossIff` says exactly when one succeeds with keys lost.
- `bff/repository.go:261` says an update enforces If-Match. The tag is checked in one statement and the row written in
  another that is guarded by the status only; `LostUpdateHappens` loses an update, and `LostUpdateIff` says exactly when.
- `booking/service.go:2304-2315` refuses to reschedule closed and started bookings, but checks before its transaction, whose
  write is guarded by the id only. `MoveReopensCancelled` reopens a cancelled booking and `SettledTwice` refunds one twice;
  `TerminalForeverIff` and `SettledAgainIff` say exactly in which runs that is so.
- `booking/repository.go:432-434` speaks of a maximum of active bookings. Only accepts count: `DispatchExceedsTheMaximum`
  gives a helper one more exactly when the windows are apart, and `SwapsOutrunTheCheck` does it by two reassignments that both
  find the helper idle. `MaximumHoldsIff` says exactly which runs keep the maximum.
- `matching/assigner.go:484-495` says the lock and the probe stop one pro being given two overlapping bookings. An accept does
  not probe (`AcceptsDoubleBook`), and the window probed is the one loaded before the lock (`StaleWindowDoubleBooks`).
  `NeverDoubleBookedIff` says exactly which runs keep bookings apart.
- `appversion/appversion.go:171-191` does not ask its rows how they ended, so a read that breaks off replaces the index;
  `CutIndexRightIff` says when the answer is right all the same.
- `bff/validator.go` and `bff/handler.go` do not look below a section that is itself a `$ref`, but the resolver still reads
  that section's `visible` field; `RefSectionHidesVisibility` says exactly when a key is overlooked this way.
- `compliance/jsonb_scrub_repo.go:214` walks "every populated row". Rows whose id is at or below the first cursor (id 0,
  or the all-zero UUID) are not visited; `FullPassIsOneMap` is an equivalence with that condition.
- `booking/repository.go:242-261` promises that the fee and the refund make up the net amount paid. That holds exactly when
  the refund is routable (`Routable`): with no wallet repository, or a payment method other than wallet and cashfree, the
  rest of the money does not move. `RunConservesIff` is an equivalence with it over whole runs.

## Model

Paths are relative to the repository root.

| member | source | states |
|---|---|---|
| Capacity.RunKeepsStartBound | App/househelp-api/internal/booking/repository.go:779-794 | over every interleaving of gated inserts, moves and status changes, at most roster minus leave committed bookings of a locality share a start |
| Capacity.StartsAreStaffed | App/househelp-api/internal/booking/capacity.go:154-178 | so over every run the bookings that start together, and the helpers of the locality on leave that day, are together no more than its roster |
| Capacity.CommitKeepsBound | App/househelp-api/internal/booking/repository.go:739-794 | the seat counted under the lock pays for the row that is written, and no other open transaction's seat is taken |
| Capacity.StartersHold | App/househelp-api/internal/booking/capacity.go:92-108 | every booking that starts with a slot is counted by the overlap count of that slot |
| Capacity.OvercommitBound | App/househelp-api/internal/booking/capacity.go:92-108 | any slot holds at most the number of slot starts whose padded window can reach it times the largest limit of the locality at those starts |
| Capacity.CommitSafeIff | App/househelp-api/internal/booking/repository.go:787-793 | a write keeps every slot of a date within its limit exactly when every slot of the date that its row spills into still had a seat |
| Capacity.OverlapEmbeds | App/househelp-api/internal/booking/capacity.go:92-108 | on a disjoint grid, what overlaps a later slot also overlaps the slot of the booking placed last |
| Capacity.InOrderNeverOvercommits | App/househelp-api/internal/booking/repository.go:739-794 | if a date's bookings are placed in nondecreasing start order, and those of other dates do not reach into it, no slot of the date ever exceeds its roster minus leave, moves included |
| Capacity.SlotsAreStaffed | App/househelp-api/internal/booking/capacity.go:154-178 | under the same conditions the bookings that overlap a slot and the helpers on leave that day are together no more than the roster |
| Capacity.HeadroomIff | App/househelp-api/internal/booking/capacity.go:154-178 | n more bookings are admitted by the headroom exactly when they, those that overlap the slot and the helpers on leave fit into the roster |
| Capacity.HoldsIff | App/househelp-api/internal/booking/capacity.go:92-108 | a booking counts for a slot exactly when it is neither completed nor cancelled and some minute of the slot lies in it or in the 15 minutes after it |
| Capacity.OutOfOrderOvercommits | App/househelp-api/internal/booking/repository.go:787-793 | with one helper, a 10:00 and then a 09:30 job are both admitted and the 10:00 slot holds two |
| Capacity.WholeOutcome | App/househelp-api/internal/booking/repository.go:779-794 | an uninterrupted gated transaction writes its row exactly when its own slot has a seat, and frees its lock either way |
| Capacity.WholeAlone | App/househelp-api/internal/booking/repository.go:759-794 | the same with nothing else open, inactive slots being refused before the lock |
| BookingRepository.Repository.CreateScheduledBooking | App/househelp-api/internal/booking/repository.go:718-794 | the gate runs only for the scheduled flow; it refuses exactly inactive slots and those where the overlapping bookings, this one and the helpers on leave exceed the roster; otherwise the pending row is inserted |
| BookingRepository.Repository.RescheduleBooking | App/househelp-api/internal/booking/service.go:2373-2429 | a move succeeds exactly when the new slot is active and, the row itself left out, roster less leave has room for it; an assigned helper is released, the booking pending again, and nothing else changes |
| BookingRepository.Repository.CapacityForDate | App/househelp-api/internal/booking/capacity.go:205-249 | one window a slot of the day, in order, with roster, leave and overlapping bookings, and their difference cut at zero as free seats |
| BookingRepository.Repository.GetSlotAvailability | App/househelp-api/internal/booking/capacity.go:312-362 | a slot stays available exactly while one more booking would still have a helper on the roster and not on leave |
| Accepting.RunKeepsInv | App/househelp-api/internal/booking/repository.go:445-512 | over every interleaving of accepts and dispatches with cancellations, completions, releases, moves and reassignments: a booking is taken twice only with a release in between, the log's last taker holds it, and no helper exceeds the maximum by more than the bookings they were given without a count |
| Accepting.StepKeepsInv | App/househelp-api/internal/booking/repository.go:445-512 | each step keeps helper locks, claims and reassigned rows exclusive, the log alternating, and every counted attempt below the maximum and its helper's grants |
| Accepting.TerminalForeverIff | App/househelp-api/internal/booking/service.go:2304-2414 | a closed booking stays closed, with its status and helper, over a run exactly when no reschedule whose status check is out of date writes it while it is assigned |
| Accepting.MoveReopensCancelled | App/househelp-api/internal/booking/service.go:2304-2414 | checked while accepted, cancelled, then moved: the booking is pending again |
| Accepting.LosersChangeNothing | App/househelp-api/internal/booking/repository.go:474-497 | an accept or dispatch that does not win leaves every row as each of its steps found it |
| Accepting.WholeOutcome | App/househelp-api/internal/booking/repository.go:445-512 | alone, an accept wins exactly below the maximum and on an unclaimed row, and fails with the right error otherwise |
| Accepting.DispatchOutcome | App/househelp-api/internal/matching/assigner.go:501-584 | alone, the dispatcher wins exactly when no busy booking of the helper overlaps the padded window and the row is pending and unassigned, and fails with the right error otherwise |
| Accepting.ClashIff | App/househelp-api/internal/matching/assigner.go:523-544 | the probe finds a clash exactly when at some minute of the padded window another booking of the helper, accepted, arrived or in progress, has them in its own padded window |
| Handouts.MaximumHoldsIff | App/househelp-api/internal/booking/repository.go:432-472 | over every run, no helper ever exceeds the maximum exactly when no commit or reassignment hands a booking to a helper who holds the maximum at that moment |
| Handouts.OnlyDispatchOverfills | App/househelp-api/internal/booking/repository.go:442-472 | without reassignments the lock keeps the count true: accepts never overfill, and the maximum is exceeded exactly when the dispatcher hands a booking to a helper who is full |
| Handouts.AcceptsKeepTheMaximum | App/househelp-api/internal/booking/repository.go:462-472 | while bookings are handed out by accepts only, releases and moves included, no helper ever exceeds the maximum |
| Handouts.DispatchExceedsTheMaximum | App/househelp-api/internal/matching/assigner.go:509-562 | at a maximum of one, the dispatcher gives the helper of an accepted booking a second one exactly when their padded windows are apart |
| Handouts.SwapsOutrunTheCheck | App/househelp-api/internal/crm/orders/orders.go:646-664 | two reassignments that both find a helper idle give them two bookings |
| Handouts.NeverDoubleBookedIff | App/househelp-api/internal/matching/assigner.go:484-495 | over every run, no helper is ever busy with two bookings whose padded windows overlap exactly when no step hands a booking to a helper busy in its window as it then is |
| Handouts.ApartIff | App/househelp-api/internal/matching/assigner.go:484-495 | being apart means that no helper is wanted by two bookings at any minute |
| Handouts.OnlyAcceptsDouble | App/househelp-api/internal/matching/assigner.go:508-547 | with nothing moved or reassigned the lock keeps the probe true: the dispatcher never double-books, and it happens exactly when an accept does it |
| Handouts.AcceptsDoubleBook | App/househelp-api/internal/booking/repository.go:462-497 | at a maximum of two, a helper may accept two bookings whether they overlap or not |
| Handouts.StaleWindowDoubleBooks | App/househelp-api/internal/matching/assigner.go:687-711 | a booking moved after the dispatcher has loaded it is probed in its old window and handed out in its new one, clash or not |
| BookingRepository.Repository.Assign | App/househelp-api/internal/matching/assigner.go:501-584 | the method does what the dispatcher's steps do when run alone: busy exactly when another booking has the helper at some minute of the padded window, else it claims a pending, unassigned row, and changes nothing else |
| BookingRepository.Repository.AcceptBooking | App/househelp-api/internal/booking/repository.go:445-512 | the method does what the interleavable steps do when run alone: refused at the maximum of accepted and started bookings, else it claims a pending or searching row, and changes nothing else |
| BookingRepository.Repository.UpdateBookingStatus | App/househelp-api/internal/booking/repository.go:207-240 | succeeds exactly on a known row and a permitted move, and changes that row's status only |
| Bookings.TransitionsClimb | App/househelp-api/internal/booking/repository.go:207-217 | a permitted move is the next of pending, accepted, started and completed, or a cancellation of one not completed |
| Cancelling.SettlementExact | App/househelp-api/internal/booking/repository.go:298-337 | 0 ≤ fee ≤ min(notional, net paid); fee plus money moved is the net paid exactly when the refund is routable; unpaid rows move nothing (`OverRefundIff`: only a negative notional fee refunds more than was paid) |
| Cancelling.FeeIsGreatest | App/househelp-api/internal/booking/repository.go:298-313 | the fee kept is the greatest that is no more than the notional fee and no more than a paid booking's amount less its discount; whoever gets anything back has been charged the whole notional fee |
| Cancelling.RoutedIff | App/househelp-api/internal/wallet/booking_refund.go:37-97 | there is one right way to route a refund (all of a wallet payment to the wallet; of a gateway payment as much to the wallet as was taken from it and the rest to the queue unless it has a row), and the router takes it |
| Cancelling.CancelMoves | App/househelp-api/internal/booking/repository.go:327-337 | a settlement adds to wallets and refund queue exactly what its rails carry |
| Cancelling.RunConservesIff | App/househelp-api/internal/booking/repository.go:283-353 | over every run, the dispatcher's refunds, other cancellations, reschedules and payments included, what is given back and retained never exceeds the net collected on the settled bookings, and makes it up exactly when every settlement was routable |
| Cancelling.RunConserves | App/househelp-api/internal/booking/repository.go:316-337 | when every cancellation settles, total refunds plus the fees on cancelled rows equal the net collected on them, exactly when all were routable |
| Cancelling.SettledAgainIff | App/househelp-api/internal/booking/repository.go:283-296 | over every run, a booking is settled more than once exactly when between two settlements a late reschedule reopens it |
| Cancelling.SettledOncePerOpening | App/househelp-api/internal/booking/repository.go:283-296 | never more often than once and once more for each reopening; a closed booking not even that once |
| Cancelling.SettledTwice | App/househelp-api/internal/booking/service.go:2407-2417 | such a reschedule does get the net refunded twice |
| BookingRepository.Repository.CancelBookingWithFee | App/househelp-api/internal/booking/repository.go:262-354 | only pending or accepted rows; the fee kept, and stamped on the row, is the greatest that notional fee and net paid allow; money moves only if the whole notional fee was kept |
| BookingRepository.Repository.RecordBookingRefund | App/househelp-api/internal/wallet/booking_refund.go:26-97 | wallet credit, split between wallet and refund queue, or nothing, by payment method |
| Refs.WalkExtractRefs | App/househelp-api/internal/bff/handler.go:290-307 | appends exactly the keys below the node, in whatever order maps are walked, and removes nothing |
| Refs.ExtractRefKeys | App/househelp-api/internal/bff/handler.go:278-288 | the keys of a whole section list |
| Validator.ValidationResult.LintRef | App/househelp-api/internal/bff/validator.go:222-253 | a reference node adds no problem exactly when it is well formed and registered |
| Validator.ValidationResult.WalkRefs | App/househelp-api/internal/bff/validator.go:222-265 | a tree adds no problem exactly when all its reference nodes are fine |
| Validator.Validate | App/househelp-api/internal/bff/validator.go:68-150 | no errors exactly for configs within the section and include limits whose sections all lint |
| Resolver.FilterByIDs | App/househelp-api/internal/bff/resolver.go:352-383 | picks the rows asked for, or leaves a value that is not a list of rows alone |
| Resolver.PickIsOrdered | App/househelp-api/internal/bff/resolver.go:352-383 | what is picked carries the wanted ids, in their order, and misses none that exists |
| Resolver.Resolve | App/househelp-api/internal/bff/resolver.go:50-119 | the page of an include-free config: sections in order, hidden and rolled-out ones dropped, the first failure fatal |
| PageTheorems.WalkSucceedsIff | App/househelp-api/internal/bff/resolver.go:263-343 | resolution succeeds exactly when every reference node of the tree resolves |
| PageTheorems.WalkIsIdentity | App/househelp-api/internal/bff/resolver.go:263-299 | a tree without references comes out unchanged |
| PageTheorems.LintSeesRefNodes | App/househelp-api/internal/bff/validator.go:222-265 | the validator checks exactly the reference nodes that the resolver resolves |
| PageTheorems.ExtractionSeesRefNodes | App/househelp-api/internal/bff/handler.go:290-307 | a key is extracted exactly when some reference node the resolver meets names it |
| PageTheorems.RefResolvesIff | App/househelp-api/internal/bff/resolver.go:301-343 | a linted reference resolves exactly when it has a value of its type (or a source that may be wrong) or, without a value, a default |
| PageTheorems.LintIsExact | App/househelp-api/internal/bff/validator.go:222-253 | the lint admits exactly the references that can resolve, whose key hydration knows, whose default stands in whenever there is no value, and whose every id can pick a row |
| PageTheorems.StagedIff | App/househelp-api/internal/bff/validator.go:68-150 | a config is admitted exactly with at most twenty sections, at most five include keys, none twice, and only such references elsewhere |
| PageTheorems.KeysAreKnown | App/househelp-api/internal/bff/validator.go:231-240 | every key extracted from an admitted include-free page is a translation or registered |
| PageContents.RefResolvesTo | App/househelp-api/internal/bff/resolver.go:301-343 | what a reference resolves to: its delivered, well-typed value or the rows of it that its ids ask for, whatever the default; only without such a value its default; null only for a mistyped value of an uncritical source; there is no other outcome |
| PageContents.WalkAtPlace | App/househelp-api/internal/bff/resolver.go:263-299 | at every path of the resolved tree: outside reference nodes the old value, siblings of references included; at a reference node what may stand for it, and below it what that holds there |
| PageContents.PageContents | App/househelp-api/internal/bff/resolver.go:66-119 | the page is the sections whose visibility and rollout admit the request, once each and in order, every place of them as it resolves |
| PageContents.VisibleIff | App/househelp-api/internal/bff/resolver.go:385-411 | a literal decides for itself, a reference by its delivered value whatever its default, or else by its default; nothing but the boolean true shows a section |
| PageContents.PageSucceedsIff | App/househelp-api/internal/bff/resolver.go:66-119 | any page, validated or not, resolves exactly when its sections are objects or null and something may stand for each reference in their bodies |
| PageTheorems.PageResolvesIff | App/househelp-api/internal/bff/resolver.go:66-119 | however much of the hydration failed, a validated page resolves exactly when every reference in a section body is so answered; visibility never matters |
| PageTheorems.ValidatedPageResolves | App/househelp-api/internal/bff/resolver.go:66-119 | a validated include-free config with complete, well-typed, non-null hydration always resolves |
| PageTheorems.PageDependsOnKeys | App/househelp-api/internal/bff/resolver.go:66-119 | the page depends on the hydrated values of the extracted keys only, visibility included |
| PageTheorems.RefSectionHidesVisibility | App/househelp-api/internal/bff/handler.go:290-307 | the keys of a section's visibility are extracted exactly when the section is not itself a reference (or names the same key) |
| PageTheorems.RolloutNested | App/househelp-api/internal/bff/resolver.go:452-476 | raising a section's rollout percentage takes the section away from nobody who passed its rollout, version gate included |
| PageTheorems.RolloutIff | App/househelp-api/internal/bff/resolver.go:452-476 | a section goes to everyone without a rollout, else to whoever has the minimum version to three segments and a bucket of user and section id below the percentage |
| PageTheorems.SharePasses | App/househelp-api/internal/bff/resolver.go:462-467 | a percentage below a hundred lets exactly that many of the hundred buckets through, any other lets all |
| Includes.Expander.LoadInclude | App/househelp-api/internal/bff/resolver.go:182-244 | terminates for every loader; succeeds exactly when the tree flattens within depth 5 and loads no key twice, with the flattening as result |
| Includes.Expander.LoadItems | App/househelp-api/internal/bff/resolver.go:196-244 | the items of a payload in order, the first failure fatal |
| Includes.Expander.ExpandItem | App/househelp-api/internal/bff/resolver.go:199-225 | one item: a nested load checked against the visited set, or a section renamed after the loading key |
| Includes.Expander.ExpandIncludes | App/househelp-api/internal/bff/resolver.go:146-180 | the section list expands exactly when there are at most five directives and each tree is loadable, each with its own visited set |
| IncludeOrder.FlattenInOrder | App/househelp-api/internal/bff/resolver.go:182-259 | what a key expands to is the plain sections of its include tree, each once and in the order of their places, with the id behind the loading key and every other field unchanged |
| IncludeOrder.FlattenFailsIff | App/househelp-api/internal/bff/resolver.go:182-244 | a key fails to expand exactly when at some place of its tree a key does not load, loads no list, object or null, or lies too deep, or an item is no object |
| IncludeOrder.ExpansionInOrder | App/househelp-api/internal/bff/resolver.go:146-180 | the expanded list is the list's own sections, unchanged, and at each directive those of its tree; nothing else, in order |
| Includes.FlattenIsIncludeFree | App/househelp-api/internal/bff/resolver.go:182-259 | what an include brings in holds no directive and is named after the key that loaded it |
| Includes.ExpansionIsIncludeFree | App/househelp-api/internal/bff/resolver.go:146-180 | the expanded section list is include-free |
| Includes.CyclicIncludesNeverFlatten | App/househelp-api/internal/bff/resolver.go:182-244 | whatever leads into a cycle of includes, of any length, never expands, at any depth |
| Includes.FlattenAlong | App/househelp-api/internal/bff/resolver.go:182-187 | what expands leads, along any path of directives, only to what expands within the depth that is left |
| Hydrator.DedupeStrings | App/househelp-api/internal/bff/hydrator.go:410-425 | computes the deduplication |
| Hydrator.DedupeKeeps | App/househelp-api/internal/bff/hydrator.go:410-425 | the deduplication has the same keys, none twice, in the order in which they are first met |
| Hydrator.Hydrator.FetchOne | App/househelp-api/internal/bff/hydrator.go:169-227 | cached value, else fetched and written through; a failure is missing or, for a critical source, fatal |
| Hydrator.Hydrator.FetchBatch | App/househelp-api/internal/bff/hydrator.go:233-354 | splits the batch's keys into values and missing keys, each by its fate; fails exactly when the fetch fails and a key left to fetch is critical |
| Hydrator.Hydrator.Classify | App/househelp-api/internal/bff/hydrator.go:66-89 | divides the keys into sources of their own and batches, in order, dropping keys nobody serves |
| Hydrator.Hydrator.RunOwn | App/househelp-api/internal/bff/hydrator.go:113-128 | the tasks of single sources leave their keys' values, absences, failures and cache entries |
| Hydrator.Hydrator.RunBatches | App/househelp-api/internal/bff/hydrator.go:130-147 | the same for batches, in any order of the map's iteration |
| Hydrator.Hydrator.Settle | App/househelp-api/internal/bff/hydrator.go:95-109 | the shared map comes out the same under every order of the tasks' steps, and so do the members of the list, without duplicates |
| Hydrator.Hydrator.Hydrate | App/househelp-api/internal/bff/hydrator.go:63-163 | result, missing keys and cache by the keys' fates, whatever the order of the tasks, and the error by the failure that came first |
| Hydrator.LostIff | App/househelp-api/internal/bff/hydrator.go:217-223 | a key is lost exactly when it is served, its fetch failed, and a critical key that Redis does not answer hangs on that fetch |
| Hydrator.CoverageIff | App/househelp-api/internal/bff/hydrator.go:59-62 | found and missing keys are apart, and cover every served key exactly when no fetch failed a critical uncached key |
| Hydrator.SilentLossIff | App/househelp-api/internal/bff/hydrator.go:149-160 | success is reported although keys are lost exactly when the first fatal failure was a deadline or a cancellation, whosesoever, and the caller's context is not over |
| Hydrator.DeadlineLosesCriticalKey | App/househelp-api/internal/bff/hydrator.go:149-160 | one critical source that answers with a deadline error: no value, nothing missing, no error |
| Hydrator.TruthComesOut | App/househelp-api/internal/bff/hydrator.go:233-354 | with answering sources and a coherent cache every served key gets its value, or is missing if its batch has none for it |
| Hydrator.CacheMakesNoDifference | App/househelp-api/internal/bff/hydrator.go:243-263 | which keys were already cached makes no difference to any key's fate |
| Hydrator.EntriesAreShared | App/househelp-api/internal/bff/hydrator.go:358-366 | two requests share a cache entry of a user-scoped source exactly when they are the same user's (no id counting as guest), and of any other source exactly in the same zone |
| Hydrator.OthersEntriesStay | App/househelp-api/internal/bff/hydrator.go:205-213 | a request leaves alone every cache entry that another user, or for a source not user-scoped another zone, may read |
| Hydrator.CachedIsServed | App/househelp-api/internal/bff/hydrator.go:205-213 | what a request caches for a key is the fetched value it serves, for the source's own time to live, or thirty seconds for a batch key without one |
| Freshness.ServedIsRecent | App/househelp-api/internal/bff/hydrator.go:169-227 | over any run of requests, a served value was given by the source within its TTL, to a request of the same user id (no id counting as guest) if the source is user-scoped and of the same zone if not |
| Freshness.CacheSpares | App/househelp-api/internal/bff/hydrator.go:174-213 | once a value is cached, the same user's (zone's) later calls within its TTL are served it and do not ask the source |
| Freshness.RunKeepsInv | App/househelp-api/internal/bff/hydrator.go:205-213 | every cache entry stems from a fetch by a request that shares it, one TTL before it expires |
| Pipeline.RunPipeline | App/househelp-api/internal/bff/handler.go:195-219 | extraction, hydration and resolution joined: when hydration is the failure, and a validated page resolves exactly when it is not and every reference in the bodies is answered by what was found or has a default |
| Pipeline.ServedPageResolves | App/househelp-api/internal/bff/handler.go:195-219 | a validated page whose keys are all served neither fails in hydration nor in resolution |
| Pipeline.NoKeyIsDropped | App/househelp-api/internal/bff/hydrator.go:66-89 | if every registered source has a fetch or a batch, hydration drops no key of a validated page |
| Pipeline.PageIgnoresCache | App/househelp-api/internal/bff/handler.go:195-219 | with answering sources the page depends neither on the cache nor on the order of the keys |
| Whitelist.ActionWhitelist.All | App/househelp-api/internal/bff/security.go:49-70 | local copy while fresh, else Redis, else the table, writing back what was read |
| Whitelist.ActionWhitelist.Allows | App/househelp-api/internal/bff/security.go:73-90 | allowed exactly when the first row of the endpoint lists the method, up to the case of its letters |
| Whitelist.ActionWhitelist.Invalidate | App/househelp-api/internal/bff/security.go:94-102 | drops the local copy, and the Redis one when the delete goes through |
| Whitelist.ReadsAreRecent | App/househelp-api/internal/bff/security.go:49-70 | over any run of any processes, a list read at t was the table's content at some instant after t − 2·TTL |
| Whitelist.InvalidationIsSeen | App/househelp-api/internal/bff/security.go:94-131 | after a successful invalidation the invalidating process at once, and everyone one TTL later, reads newer content only |
| Whitelist.StaleForTwoTtls | App/househelp-api/internal/bff/security.go:58-61 | the two-TTL bound is sharp |
| Lifecycle.ConfigRepository.Rollback | App/househelp-api/internal/bff/repository.go:455-537 | shelves the active row and restores the latest archived one |
| Lifecycle.RunKeepsInv | App/househelp-api/internal/bff/repository.go:262-537 | over all runs of creating, updating (in its two statements), deleting, staging, activating and rolling back (the methods of `ConfigRepository`: `Create`, `Update`, `Delete`, `StageVersion`, `ActivateVersion`): at most one active config, for good once there is one; archived rows have their time; an archived row implies an active one |
| Lifecycle.RollbackRestores | App/househelp-api/internal/bff/repository.go:477-512 | whatever replaced the active version, and whatever drafting followed, the next rollback restores it |
| Lifecycle.ActivateThenRollback | App/househelp-api/internal/bff/repository.go:407-512 | activation and rollback restore the active version and leave every other row alone |
| Lifecycle.RollbackTwice | App/househelp-api/internal/bff/repository.go:477-512 | two rollbacks restore every version's status and content |
| Lifecycle.UpdateOutcome | App/househelp-api/internal/bff/repository.go:262-319 | what an update does depends on the row at its check and the row at its write, and on nothing in between |
| Lifecycle.LostUpdateIff | App/househelp-api/internal/bff/repository.go:262-319 | of two updates prepared from one tag, the second overwrites the first, unseen, exactly when its check comes before the first one's write; otherwise it is refused |
| Lifecycle.LostUpdateHappens | App/househelp-api/internal/bff/repository.go:262-319 | both checks, then both writes: both succeed and the first content is gone |
| Lifecycle.OutdatedActivationRefused | App/househelp-api/internal/bff/repository.go:380-424 | over every run, an activation under the tag of an earlier instant goes through exactly when the version is staged, was staged then and has the content it had; otherwise it is refused and changes nothing |
| InPlaceScrub.ScrubJSONB | App/househelp-api/internal/compliance/jsonb_scrub.go:69-93 | the walk overwrites a decoded document in place: every reference into it sees the scrubbed document, nothing outside it changes, and the flag is true exactly when the content changed |
| InPlaceScrub.ScrubNode | App/househelp-api/internal/compliance/jsonb_scrub.go:72-84 | the entries of one map, in any order of its iteration |
| InPlaceScrub.ScrubEntry | App/househelp-api/internal/compliance/jsonb_scrub.go:74-83 | one entry is overwritten or walked, and no other entry changes |
| InPlaceScrub.ScrubList | App/househelp-api/internal/compliance/jsonb_scrub.go:85-90 | the elements of a list; the list itself stays |
| InPlaceScrub.Decode | App/househelp-api/internal/compliance/jsonb_scrub_repo.go:147-150 | a decoded document shares no node with anything, nor within itself |
| InPlaceScrub.ScrubDocument | App/househelp-api/internal/compliance/jsonb_scrub_repo.go:143-159 | decoding, scrubbing in place and encoding gives the scrub of the document |
| InPlaceScrub.MeansStays | App/househelp-api/internal/compliance/jsonb_scrub.go:54-56 | what a decoded value stands for depends on its own nodes only |
| InPlaceScrub.PrunedApart | App/househelp-api/internal/compliance/jsonb_scrub.go:66-68 | a scrubbed value is again a document that can be scrubbed |
| Scrub.ScrubAtPlace | App/househelp-api/internal/compliance/jsonb_scrub.go:54-68 | at every path: the sentinel under a denied key outside other redacted values, nothing below it, the old value elsewhere |
| Scrub.ListedIsRedacted | App/househelp-api/internal/compliance/jsonb_scrub.go:69-84 | a key that equals a listed one up to the case of its letters holds the sentinel, and one that equals none holds what is left of its own value |
| Scrub.DeniedIff | App/househelp-api/internal/compliance/jsonb_scrub.go:18-22 | exactly the listed keys are denied, in whatever case they are written |
| Scrub.ScrubIdempotent | App/househelp-api/internal/compliance/jsonb_scrub.go:66-68 | scrubbing again changes nothing |
| Backfill.AuditTable.ScrubRaw | App/househelp-api/internal/compliance/jsonb_scrub_repo.go:143-159 | one column value scrubbed, NULL left alone, the flag true exactly when it changed |
| Backfill.AuditTable.Batch | App/househelp-api/internal/compliance/jsonb_scrub_repo.go:270-341 | scans the next page, counts the rows the scrub changes, and writes exactly those unless it is a dry run |
| Backfill.AuditTable.Pass | App/househelp-api/internal/compliance/jsonb_scrub_repo.go:235-248 | terminates for every batch size; scans the populated rows above the cursor in ascending order, each once; an interrupted pass has done a prefix; counts do not depend on the dry run |
| Backfill.ListedAfter | App/househelp-api/internal/compliance/jsonb_scrub_repo.go:271-278 | a query from a page's last id lists exactly what the earlier query listed after that page |
| Backfill.WriteIsScrub | App/househelp-api/internal/compliance/jsonb_scrub_repo.go:319-337 | writing the collected updates scrubs exactly the scanned rows |
| Backfill.BackfillJSONBScrub | App/househelp-api/internal/compliance/jsonb_scrub_repo.go:229-268 | both tables in turn with the default batch size; the four counters; a fault in the first leaves the second alone |
| Backfill.FullPassIsOneMap | App/househelp-api/internal/compliance/jsonb_scrub_repo.go:214-268 | a full pass is a single map of the scrub over the table exactly when no row at or below the first cursor needs it |
| Backfill.SecondPassScrubsNone | App/househelp-api/internal/compliance/jsonb_scrub_repo.go:216-218 | a second pass scans the same rows and scrubs none |
| Backfill.ResumedPass | App/househelp-api/internal/compliance/jsonb_scrub_repo.go:220-223 | a pass cut short anywhere and run again ends as one full pass, with the same counts |
| Streamer.ParseSerialize | App/househelp-api/internal/compliance/export.go:833-837 | the serialization of any document parses back to it, whatever follows |
| Streamer.JsonStreamer.Section | App/househelp-api/internal/compliance/export.go:884-892 | a comma unless the frame is fresh, the name and a colon; the frame is marked |
| Streamer.JsonStreamer.ArrayElem | App/househelp-api/internal/compliance/export.go:896-902 | a comma unless the frame is fresh, then the value; the frame is marked |
| Streamer.JsonStreamer.WriteRaw | App/househelp-api/internal/compliance/export.go:848-853 | writes while healthy; a short write sets the sticky error |
| Streamer.JsonStreamer.Drive | App/househelp-api/internal/compliance/export.go:841-928 | the calls for one document write its text in order and leave the frame stack as it was |
| Streamer.DisciplineRenders | App/househelp-api/internal/compliance/export.go:884-914 | a disciplined document is written as it serializes, or as the part of it before a value that does not marshal |
| Streamer.WritesSerializationIff | App/househelp-api/internal/compliance/export.go:884-902 | the text is the serialization exactly when no array of two or more elements holds a container |
| Streamer.DrivenOutcome | App/househelp-api/internal/compliance/export.go:848-914 | on a writer that fails at any point: an error exactly when room or marshalling gives out, and then a proper prefix |
| Streamer.CutShortIsNoDocument | App/househelp-api/internal/compliance/export.go:833-837 | a document's text cut short is the text of no document |
| Streamer.RunSections | App/househelp-api/internal/compliance/export.go:108-118 | the section loop drives a prefix of the sections; on success all of them, with none of their queries failed |
| Streamer.ExportUserData | App/househelp-api/internal/compliance/export.go:55-122 | succeeds exactly when nothing failed, and exactly then what was written is a document: the one of all sections |
| RateLimit.OTPRateLimiter.Bump | App/househelp-api/internal/auth/ratelimit.go:105-130 | counts the hit; lets it through exactly while the count is at most the maximum or without Redis; names what is left of the window as wait, after which it is over (`HitIsTimely`: no window ever ends later than one window from now) |
| RateLimit.OTPRateLimiter.CheckSend | App/househelp-api/internal/auth/ratelimit.go:71-84 | phone first, address only when the phone passes; each counter moves on its own |
| RateLimit.OTPRateLimiter.CheckVerify | App/househelp-api/internal/auth/ratelimit.go:88-93 | the verify counter of the phone |
| RateLimit.OTPRateLimiter.ResetVerify | App/househelp-api/internal/auth/ratelimit.go:97-102 | forgets the verify counter when Redis answers |
| RateLimit.KeysApart | App/househelp-api/internal/auth/ratelimit.go:75-101 | the three families of counters never share a key |
| RateLimit.CounterIsPosition | App/househelp-api/internal/auth/ratelimit.go:109-123 | the counter is the position in the window opened by the first hit, and rejected hits never extend it |
| RateLimit.WindowAdmitsExactly | App/househelp-api/internal/auth/ratelimit.go:109-123 | each window lets through exactly min(hits, max): its first hits |
| RateLimit.IntervalBound | App/househelp-api/internal/auth/ratelimit.go:105-130 | any half-open interval of a window's length lets through at most 2·max − 1 hits |
| RateLimit.CallPassesIff | App/househelp-api/internal/auth/ratelimit.go:105-130 | in any run of calls on any keys, a call that finds Redis up is answered with no error exactly when its hit is among the first max of its window |
| RateLimit.AnswersInInterval | App/househelp-api/internal/auth/ratelimit.go:105-130 | so in any half-open interval of a window's length at most 2·max − 1 calls on a key are answered with no error |
| RateLimit.AnswersInWindow | App/househelp-api/internal/auth/ratelimit.go:105-130 | and of the calls of one window exactly min(hits, max) |
| RateLimit.ThreeCodesInTwoMinutes | App/househelp-api/internal/auth/ratelimit.go:71-84 | of four requests for a phone within two minutes the first three are let through, and after two minutes the next one is |
| RateLimit.BoundIsReached | App/househelp-api/internal/auth/ratelimit.go:12-30 | that many hits do pass, for every maximum and every window longer than a tick |
| RateLimit.UnstampedIsForever | App/househelp-api/internal/auth/ratelimit.go:114-120 | a counter whose expiry was lost twice lets max hits through once and nothing ever after |
| Versions.CompareVersions | App/househelp-api/internal/appversion/appversion.go:244-281 | the comparison is the order of the parsed segments |
| Versions.CompareSegments | App/househelp-api/internal/appversion/appversion.go:247-263 | −1, 0 or 1 by the first segment that differs, missing segments reading as zero |
| Versions.OrderIsTotalPreorder | App/househelp-api/internal/appversion/appversion.go:242-264 | a total preorder whose ties are the versions with equal padded segments |
| Versions.TrailingZeros | App/househelp-api/internal/appversion/appversion.go:247-255 | trailing zero segments never matter |
| VersionText.SegmentsOfPrint | App/househelp-api/internal/appversion/appversion.go:266-281 | the segments of a printed list of numbers, in blanks and with any suffix from a hyphen or a plus on, are the numbers |
| VersionText.SplitVersionOfPrint | App/househelp-api/internal/bff/resolver.go:502-520 | the rollout gate's parser takes it too, suffix and all but without blanks |
| Versions.CheckSemverGTE | App/househelp-api/internal/bff/resolver.go:478-500 | the rollout gate's own comparison, which is the version order cut to three segments (`SemverIsOrder`) |
| AppVersion.Service.PolicyFor | App/househelp-api/internal/appversion/appversion.go:82-110 | returns a row that the query's order puts first, or none when none applies |
| AppVersion.Service.Check | App/househelp-api/internal/appversion/appversion.go:59-78 | the verdict of a first row: update needed exactly below its minimum, never without a version or a policy; then with its terms and the platform's own store |
| AppVersion.PlatformIs | App/househelp-api/internal/appversion/appversion.go:220-226 | blanks around a platform and its case do not matter, and what is neither iOS nor Android is any |
| AppVersion.Service.Refresh | App/househelp-api/internal/appversion/appversion.go:158-192 | the cache becomes the newest row of each platform scanned, also when the rows break off; it stays when the query fails |
| AppVersion.Service.CachedPolicy | App/househelp-api/internal/appversion/appversion.go:140-156 | the index is kept for a minute and then reread if the database answers; the platform's row or the `any` row of it |
| AppVersion.Service.Middleware | App/househelp-api/internal/appversion/appversion.go:118-136 | blocks exactly a versioned request below a forced minimum of the index it holds after that |
| AppVersion.DecisionsAreRecent | App/househelp-api/internal/appversion/appversion.go:138-192 | over any run whose reads do not break off, a request for which the database answers is decided by the index of the table as it was less than a minute before |
| AppVersion.StaleForAMinute | App/househelp-api/internal/appversion/appversion.go:142-146 | that bound is sharp |
| AppVersion.CutIndexRightIff | App/househelp-api/internal/appversion/appversion.go:171-191 | an index whose read broke off answers rightly exactly when the row that decides for the platform was scanned |
| AppVersion.IndexIsFirst | App/househelp-api/internal/appversion/appversion.go:140-192 | the index with its fallback yields a row the ordered lookup may return, whenever there is one |
| AppVersion.AgreesIffNoTopTie | App/househelp-api/internal/appversion/appversion.go:90-96 | the index gives every answer the lookup may give exactly when no two applicable rows of equal rank and time stand at the top of the table |
| AppVersion.TiesDiffer | App/househelp-api/internal/appversion/appversion.go:161-165 | with such a tie they can differ |
| AppVersion.BlockedIffForced | App/househelp-api/internal/appversion/appversion.go:59-136 | on one table with distinct times, a request is blocked exactly when the check reports a forced update, with the same message, store and minimum |

## Left out

- Ungated inserts (`enforceCapacity` false, instant and cart bookings) take no part in the capacity runs; the insert method itself models them.
- Roster, leave and the slot grid are fixed during a run, and a booking's `scheduled_time` is its slot's start, as the booking service computes it.
- BookingRepository.Repository.RescheduleBooking: is the transaction alone; the status check before it is a step of its own in `Accepting`, and the ownership check, the arrival flag and the slot lookup errors are not modelled.
- Other writers of capacity columns are not part of the capacity runs: the ASAP path that stamps `scheduled_time` (booking/service.go:898) and the renaming of a locality (crm/localities/localities.go:135).
- Accepting.RunKeepsInv: the choice of candidates before an assignment (eligibility, travel time, order) and a reassignment's checks of category and approval are not modelled, so more helpers are covered than the code tries; travel buffers are not negative; the purge of a deleted helper's rows (compliance/purge.go:625-645) is not an event, and bookings are not inserted during a run, which starts from a table that has them all.
- BookingRepository.Repository.UpdateBookingStatus: is one atomic step, although the code reads the row and writes it in two statements without a lock.
- BookingRepository.Repository.CreateScheduledBooking: does not model prices, promo codes, the service items, or the failure modes of single statements.
- The price and duration totals, outbox events, push notifications, audit rows, actors and log lines are not part of this model.
- Capacity.InOrderNeverOvercommits: bookings of another date that reach over midnight are excluded, because they are gated under that date's lock and not serialised with this one's.
- Cancelling.RunConservesIff: assumes non-negative notional fees, because a negative one refunds more than was paid (OverRefundIff). The wallet part of a split booking that was never paid (booking/service.go:403-443) is returned by a transaction of its own, which is not an event.
- Advisory locks hash their key to 64 bits; hash collisions, which only serialise more, are not modelled. Config tags are taken to be injective.
- Integers are unbounded where the code uses int64 paise, counts and durations.
- Validator.Validate: leaves out the JSON schema, the action whitelist lint, warnings and the parsing of raw bytes.
- Resolver.Resolve: takes the list after include expansion and leaves out the content hash, the log line for unknown section types and the page's metadata; a section that resolves to something that is not an object, where the code panics, is an error of its own.
- Includes.Expander.LoadInclude: a JSON null among the items of a payload, on which the code panics, is an error of its own.
- References inside included sections: extraction runs before expansion, so the page theorems are about include-free configs.
- A `$ref` inside another node's `$default` is neither extracted, linted nor resolved by the code, and so not by the model.
- Hydrator.Hydrator.Hydrate: each task's fetch is one step, and tasks then take their steps on the shared result in any order. Singleflight, the circuit breaker, the semaphore and timeouts are folded into the answers of the sources; sharing one flight among callers is not modelled.
- Freshness.ServedIsRecent: is about single sources; a batch flight is keyed without the scope, so no such claim is made for batches.
- Cache keys are pairs of reference key and scope; collisions of the code's joined strings are not modelled. Zones are opaque labels.
- Whitelist.ReadsAreRecent: one read is an atomic step; concurrent reads by two goroutines of one process are not interleaved.
- Lifecycle runs are for one page and environment, with strictly increasing times. Activation and rollback are whole transactions; an update's check and write are two steps. A patch may set descriptive and experiment columns, but what they hold is not modelled.
- InPlaceScrub.ScrubJSONB: lists are values, since the code never writes to them; only decoded documents, whose nodes are all distinct, are walked. Key case folding is ASCII.
- Backfill: ids are integers (a UUID by its value), JSON columns are decoded values, and rows do not change under the pass.
- Streamer.JsonStreamer.Drive: the writer fails between tokens, not inside one; escaping and number formats belong to the marshaller and are not modelled.
- Streamer.ExportUserData: the exporters' queries are the documents they drive; that each of them puts plain values only into its arrays is assumed of the sections.
- RateLimit.IntervalBound: is about one key with Redis up, an expiry that was stamped and no reset; UnstampedIsForever says what a lost expiry does. Retry waits are in milliseconds where Redis rounds to seconds.
- Rollout buckets hash code units modulo 256 rather than UTF-8 bytes; version strings, platforms and methods fold ASCII case only.
- HTTP handlers, WebSocket tracking, SMS, tokens, push messages, cart pricing, addresses, analytics and the client applications.
