# Verified model of akash_lease_core

A Dafny model of the sans-I/O decision core that buys and tracks Akash leases, with
proofs of what its documentation and its tests promise.

| files | component |
|---|---|
| `Placement`, `PlacementSearch`, `Capacity`, `NodeOrder` | the exact placement search: multidimensional bin packing with a state budget |
| `ProviderFit`, `Decimals`, `ProviderStatus` | one provider's verdict under missing data, and the adapter that builds it |
| `Bids`, `AuctionRules`, `AuctionProperties`, `AuctionSnapshot`, `AuctionTraces`, `Auctions` | the sealed auction: observing, deciding, snapshot and restore |
| `Evidence`, `Admission`, `AdmissionRuns`, `PreRedemption` | the compare-and-swap admission protocol and its runs |
| `AppendOnly`, `Journal`, `JournalRuns` | the hash-chained create journal |
| `Liability`, `LiabilityRuns` | the lifetime-liability ledger |
| `Tokens`, `WorkloadIdentity`, `IdentityNames`, `SdlNames` | `idv1` names, their parser, and the renaming of an SDL document |
| `Bech32`, `GaloisField`, `Syndromes`, `ChainIdentity` | the canonical owner check and what its checksum detects |
| `RecoveryCodec`, `CodecProperties`, `RecoverySchema` | the schema-directed recovery codec, and the types it admits |
| `Sorting`, `Wrappers` | stable sorting and result types |

Conventions. Quantities and fractions are reals; a float at or above 2^53, which the
source refuses to place, is the constructor `Inexact`. The heuristic difficulty order is
any permutation that does not depend on the order of the nodes. A digest is the value it
digests, so equal digests mean equal values. A raised exception is a `Failure`, a `None`
or a returned error. Where the source validates a record in its constructor, the rules
that later code relies on are a `Valid` predicate; type tests and schema versions are
types. Whatever the source updates in place (the auction object, the search's stack and
seen set, the shape counter, the running totals) is a class field, an array or a loop,
and each such method is tied to the function its properties are proved about.

## Findings

Four promised or natural properties do not hold without a condition. The code is
modelled as it is; each entry gives the exact condition and an input that fails it.

1. `from_provider_status` promises to drop bad quantities, not to raise. It tests
   over-reporting on the numbers as given but adds up the decimals they print as, so a
   float beside an integer can make it raise: 72057594037927937 allocatable with
   7.205759403792794e16 available (`ProviderStatus.MixedPairRaises`). It raises exactly
   when, in a dimension no node over-reports, the free decimals exceed the allocatable
   ones, or when a tested half is the decimal sNaN, which no JSON text can be
   (`ProviderStatus.AdapterRaisesExactly`); and never when the halves of each pair have
   one number type (`ProviderStatus.NeverRaisesOnUniformPairs`).
2. Under CHEAPEST a decision stands, except that a fallback decision raises
   `MixedBidDenominations` exactly when the later pool mixes denominations
   (`AuctionProperties.CheapestDecisionStands`), as one later bid can bring about
   (`AuctionProperties.FallbackDecisionOverturned`).
3. `confirm_redeemed_permit` does not know whether its pre-redemption state was ever
   stored. The authorization carries the revision of the redemption if and only if the
   operation was still reserved in the state stored just before the confirmed one
   (`PreRedemption.RevisionIsTheRedemption`). Any two requests that one leaf can have
   reserved together give a run, with permits issued for what the store held, in which a
   made-up state breaks it (`PreRedemption.ShiftedRevisionExists`, with the requests of
   `PreRedemption.CiRequestsAreReservable`); the permit digest stays the same
   (`AdmissionRuns.PermitDigestIsPinned`).
4. A printed name is read back exactly when no other registered namespace shadows it;
   otherwise the parser returns None (`IdentityNames.ParseUndoesFormat`, with the register
   of `IdentityNames.ShadowedNameIsLost`).

A remark on a helper rather than a failure: called by itself, `_replicas_fit_nodes`
depends on the order of its nodes exactly when unread and unsupported ones are mixed
(`NodeOrder.NodeOrderMatters`, `NodeOrder.SwappedNodesChangeTheVerdict`). Its only caller
passes readable nodes, so a provider's verdict never depends on the order
(`NodeOrder.FitIgnoresNodeOrder`).

## Model

| member | source | states |
|---|---|---|
| `PlacementSearch.EqualNodesEqualChildren` | src/akash_lease_core/capacity.py:255-273 | nodes with equal remaining capacity lead to the same canonical state, so the `tried` skip loses nothing |
| `PlacementSearch.ExpandCovers` | src/akash_lease_core/capacity.py:255-273 | one expansion pushes every child not yet seen, only children, each once, and loses no pending state |
| `PlacementSearch.DecideExact` | src/akash_lease_core/capacity.py:193-274 | for any limit, FIT only if a placement exists and INSUFFICIENT only if none does |
| `PlacementSearch.DecideStable` | src/akash_lease_core/capacity.py:224-274 | a larger limit keeps every definite verdict; permuting the nodes keeps every verdict |
| `PlacementSearch.DecideComplete` | src/akash_lease_core/capacity.py:224-274 | a limit no smaller than the reachable canonical states always decides |
| `PlacementSearch.Run` | src/akash_lease_core/capacity.py:239-274 | the loop over stack and seen set computes that verdict, terminates, and never holds more than max(1, limit) states |
| `Placement.FeasibleGivesPlacement` | src/akash_lease_core/capacity.py:193-274 | a successful one-by-one placement is an assignment whose loads stay within every node in every dimension |
| `Placement.PlacementGivesFeasible` | src/akash_lease_core/capacity.py:193-274 | every such assignment is found by placing the replicas one by one |
| `Placement.FeasiblePermuteRequests` | src/akash_lease_core/capacity.py:229-238 | trying the replicas in another order loses no placement |
| `Capacity.ReadNodeRows` | src/akash_lease_core/capacity.py:212-223 | rows are read node by node and the first unread or unsupported cell decides the fault |
| `Capacity.FindPlacement` | src/akash_lease_core/capacity.py:193-274 | the whole search on provider records: definite verdicts agree with the existence of an assignment |
| `Capacity.ReplicasFitExact` | src/akash_lease_core/capacity.py:193-274 | the same for the function, for all nonempty replica lists and any limit |
| `Capacity.ReplicasFitDecides` | src/akash_lease_core/capacity.py:193-274 | with exact, complete quantities and enough states the verdict is FIT if and only if an assignment exists |
| `NodeOrder.NodeOrderMatters` | src/akash_lease_core/capacity.py:212-223 | the verdict is the same for every order of the nodes if and only if unread and unsupported nodes are not mixed |
| `NodeOrder.SwappedNodesChangeTheVerdict` | src/akash_lease_core/capacity.py:212-223 | two nodes whose swap changes the verdict |
| `NodeOrder.FitIgnoresNodeOrder` | src/akash_lease_core/capacity.py:390-436 | a provider's verdict on a group is the same for every order of its nodes |
| `ProviderFit.FitSurvivesMissingData` | src/akash_lease_core/capacity.py:390-436 | FIT means a placement on the readable nodes, and it survives any values of the unread ones |
| `ProviderFit.HostingMeetsAggregate` | src/akash_lease_core/capacity.py:390-461 | a provider that does not contradict its nodes and can host a group also has the aggregate for it |
| `ProviderFit.InsufficientIsProven` | src/akash_lease_core/capacity.py:390-461 | INSUFFICIENT with a node list means every node was read and no placement exists |
| `ProviderFit.AggregateInsufficientIsProven` | src/akash_lease_core/capacity.py:390-436 | without a node list, INSUFFICIENT rules out every distribution of the aggregate |
| `ProviderFit.GroupFitDecides` | src/akash_lease_core/capacity.py:390-436 | on exact, complete, consistent evidence FIT and INSUFFICIENT decide placement |
| `ProviderFit.ScoreIsBindingFraction` | src/akash_lease_core/capacity.py:463-485 | a score exists only with a complete ranking and FIT, and is the least requested fraction, between 0 and 1 |
| `Placement.DemandWithinCapacity` | src/akash_lease_core/capacity.py:438-461 | double counting: what a distribution places is at most what its nodes hold together |
| `Decimals.ExactSum` | src/akash_lease_core/capacity.py:528-547 | doubling the precision ends for every finite list with the exact sum |
| `ProviderStatus.SummarizeDimension` | src/akash_lease_core/capacity.py:550-632 | a signaling NaN raises; over-reporting is judged on the raw numbers; node cells and both decimal sums accumulate from the same counted pairs, and one over-reported pair leaves the dimension unread |
| `ProviderStatus.FromProviderStatus` | src/akash_lease_core/capacity.py:634-680 | the adapter's loops compute the record, or the exception, its properties are proved about |
| `ProviderStatus.AdapterRaisesExactly` | src/akash_lease_core/capacity.py:338-680 | it raises exactly when a signaling NaN is tested or when, in a dimension no node over-reports, the free decimals exceed the allocatable ones; otherwise its record passes its own validation |
| `ProviderStatus.NeverRaisesOnUniformPairs` | src/akash_lease_core/capacity.py:550-680 | it never raises when no pair mixes a float with another kind of number or holds a signaling NaN |
| `ProviderStatus.MixedPairRaises` | src/akash_lease_core/capacity.py:593-600 | one node with an integer and a float on which it raises |
| `ProviderStatus.StatusNeverContradictsItself` | src/akash_lease_core/capacity.py:438-461 | the built record never contradicts its own node list |
| `Auctions.Auction.BindResourceProfile` | src/akash_lease_core/auction.py:543-566 | one profile per group, earlier bids back-filled; a conflict changes nothing |
| `Auctions.Auction.ObserveBid` | src/akash_lease_core/auction.py:568-626 | the new book, or an error that leaves the auction unchanged |
| `Auctions.Auction.ObserveMany` | src/akash_lease_core/auction.py:628-634 | observations one by one; a refused one raises and leaves the bids accepted before it |
| `Bids.AcceptedIsPrefix` | src/akash_lease_core/auction.py:628-634 | what several observations leave behind are the bids of a longest accepted prefix, and the next one is the one refused |
| `Bids.ObserveShape` | src/akash_lease_core/auction.py:543-626 | exactly when an observation is accepted, and the whole new book |
| `Bids.RunKeeps` | src/akash_lease_core/auction.py:543-626 | over every run a stored bid keeps arrival, provider, known group and known profile, and groups share one profile |
| `Bids.ObserveCommutes` | src/akash_lease_core/auction.py:543-626 | two bids with different keys may be observed in either order |
| `Bids.ObservationOrderIrrelevant` | src/akash_lease_core/auction.py:543-634 | any order of bids with distinct keys raises alike or stores the same bids and profiles |
| `AuctionRules.BatchOrderNeverShows` | src/akash_lease_core/auction.py:799-985 | results, with considered and rejected lists, do not depend on the order of a batch, now or after later bids |
| `AuctionRules.StoredBidsPartition` | src/akash_lease_core/auction.py:817-843 | each stored bid is in exactly one of candidates and rejected |
| `AuctionRules.ChoiceIsLeast` | src/akash_lease_core/auction.py:917-963 | the considered list is the sorted pool and the winner is its least bid |
| `Auctions.Auction.PartitionBids` | src/akash_lease_core/auction.py:817-843 | the loop that fills candidates and rejections |
| `Auctions.Auction.EvaluateAt` | src/akash_lease_core/auction.py:799-985 | the decision the properties below are proved about |
| `AuctionProperties.EvidenceIsNeverLost` | src/akash_lease_core/auction.py:921-963 | the two internal assertion errors are unreachable |
| `AuctionProperties.EmptiestWinnerHasPlacement` | src/akash_lease_core/auction.py:844-963 | under EMPTIEST a winner with a profile has a real placement on its readable nodes |
| `AuctionProperties.EmptiestAvoidsTaken` | src/akash_lease_core/auction.py:936-963 | an already selected provider wins only when every provider of the pool is already selected |
| `AuctionProperties.RoundsPickDistinctProviders` | src/akash_lease_core/auction.py:936-963 | k rounds pick k distinct providers, up to the number in the pool |
| `AuctionProperties.CheapestDecisionStands` | src/akash_lease_core/auction.py:817-985 | after only later bids, CHEAPEST selects the same bid; it raises exactly when a fallback pool mixes denominations |
| `AuctionProperties.FallbackDecisionOverturned` | src/akash_lease_core/auction.py:893-916 | a decided fallback auction that raises after one later bid in another denomination |
| `Auctions.Auction.Snapshot` | src/akash_lease_core/auction.py:636-684 | the version, scope, policy, clock start, and every bid in insertion order with its time unshifted; an empty scope is refused |
| `Auctions.RestoreAuction` | src/akash_lease_core/auction.py:687-797 | replays a snapshot through `observe` into a fresh auction, or fails without one |
| `AuctionSnapshot.ReplayRebuilds` | src/akash_lease_core/auction.py:673-797 | replaying the stored bids of any valid auction rebuilds it, order and profile table included |
| `AuctionSnapshot.RestoreIsInverse` | src/akash_lease_core/auction.py:636-797 | with a clock at 0, restoring a snapshot gives the same auction |
| `AuctionSnapshot.RestoreRebases` | src/akash_lease_core/auction.py:687-797 | restoring onto another clock gives the auction with all times shifted |
| `AuctionSnapshot.RestoredIsValid` | src/akash_lease_core/auction.py:687-797 | whatever snapshot is accepted, the result has a valid book holding every listed bid, and with valid bids and a valid policy it is a valid auction |
| `AuctionSnapshot.ObserveShifts` | src/akash_lease_core/auction.py:568-626 | a shifted auction accepts the shifted bid exactly when the auction accepts the bid, with the shifted book or the same error |
| `AuctionSnapshot.EvaluateShifts` | src/akash_lease_core/auction.py:799-985 | evaluating a shifted auction at a shifted time gives the shifted result |
| `AuctionTraces.TraceShifts` | src/akash_lease_core/auction.py:568-985 | every sequence of observations and evaluations on a shifted auction gives the same errors and the shifted results |
| `AuctionTraces.RestoredBehavesAlike` | src/akash_lease_core/auction.py:636-985 | an auction restored onto another clock answers every later sequence of calls as the original does, shifted |
| `Admission.ReserveCapacity` | src/akash_lease_core/creation_admission.py:881-1013 | the budget loops with their early returns compute the decision the runs are proved about |
| `AdmissionRuns.ReserveKeepsContained` | src/akash_lease_core/creation_admission.py:881-1013 | an accepted reservation keeps every ceiling and rebinds every census population it touches |
| `AdmissionRuns.ProjectionsAreUsage` | src/akash_lease_core/creation_admission.py:827-834 | each accepted projection is the usage recomputed from the proposed state, within its limits |
| `AdmissionRuns.RedeemAdvances` | src/akash_lease_core/creation_admission.py:1087-1147 | a redemption moves one reservation to SUBMITTING and changes nothing else |
| `AdmissionRuns.TransitionAdvances` | src/akash_lease_core/creation_admission.py:1211-1318 | a transition advances one reservation at the expected revision, or repeats recorded evidence unchanged |
| `AdmissionRuns.HistoryStaysContained` | src/akash_lease_core/creation_admission.py:827-1318 | over every compare-and-swap run by any number of brokers with stale reads, usage stays within all ceilings and census bindings match |
| `AdmissionRuns.HistoryEvolves` | src/akash_lease_core/creation_admission.py:881-1318 | budgets keep scope and limits, reservations keep their request, stages only advance |
| `AdmissionRuns.RedeemedOnce` | src/akash_lease_core/creation_admission.py:1087-1147 | an operation enters SUBMITTING at most once in every run |
| `AdmissionRuns.OneAuthorizationPerOperation` | src/akash_lease_core/creation_admission.py:1150-1208 | authorizations for one operation, on stored states, share permit digest and revision, inside the permit window |
| `AdmissionRuns.PermitDigestIsPinned` | src/akash_lease_core/creation_admission.py:1150-1208 | they name the same permit even when a pre-redemption state was made up |
| `PreRedemption.RevisionIsTheRedemption` | src/akash_lease_core/creation_admission.py:1150-1208 | the operation was redeemed by exactly one step, and an authorization carries that step's revision if and only if the operation was reserved in the state stored just before |
| `PreRedemption.ShiftedRevisionExists` | src/akash_lease_core/creation_admission.py:1017-1208 | for any two requests one leaf can have reserved together: a run from no reservations, with both permits issued by the confirmation of what was persisted, in which a never stored state yields a second authorization at a later revision |
| `PreRedemption.CiRequestsAreReservable` | src/akash_lease_core/creation_admission.py:333-386 | two operations of one CI job, with run and attempt and all times 1, are such requests |
| `PreRedemption.MadeUpStateShiftsTheRevision` | src/akash_lease_core/creation_admission.py:1150-1208 | a valid such state exists whenever the operation is still submitting at a later revision, under any evidence of the broker |
| `AdmissionRuns.PermitValidityNeverPredatesIssuance` | src/akash_lease_core/creation_admission.py:658-709 | issuing a permit never fails the check that its validity cannot predate its issuance |
| `Liability.AddLiabilities` | src/akash_lease_core/operation_exposure.py:132-143 | one dictionary filled quantity by quantity is the sum of all vectors |
| `Liability.CheckRecord` | src/akash_lease_core/operation_exposure.py:473-518 | the validation loop accepts exactly the records each of whose observations follows the ones before it |
| `Liability.RecordShape` | src/akash_lease_core/operation_exposure.py:473-518 | at most three observations, one transaction hash, times in order, settled after three, or never signed |
| `Liability.ChargeShrinks` | src/akash_lease_core/operation_exposure.py:529-537 | an accepted observation only lowers the charge, which still covers the fees unless nothing was signed |
| `LiabilityRuns.EffectAccepted` | src/akash_lease_core/operation_exposure.py:692-771 | exactly when an effect is accepted: authorized, sharing no permanent identity, within what is left of the maximum |
| `LiabilityRuns.EffectRaisesUsage` | src/akash_lease_core/operation_exposure.py:603-608 | a proposed effect raises usage by exactly its maximum debit |
| `LiabilityRuns.ObservationLowersUsage` | src/akash_lease_core/operation_exposure.py:603-608 | an observation never raises usage and lowers it by what its effect releases |
| `LiabilityRuns.ObservationAccepted` | src/akash_lease_core/operation_exposure.py:774-818 | once the record accepts an observation the new operation state cannot be refused |
| `LiabilityRuns.UsageStaysCovered` | src/akash_lease_core/operation_exposure.py:548-600 | over every run usage is covered by the first maximum and the revision counts all retained events |
| `LiabilityRuns.NothingIsForgotten` | src/akash_lease_core/operation_exposure.py:692-818 | intents and attempts are never removed or changed, observations only grow, charges only shrink |
| `LiabilityRuns.HeadDeterminesHistory` | src/akash_lease_core/operation_exposure.py:541-560 | a state determines every state before it through the digests of its predecessors |
| `Journal.CheckJournal` | src/akash_lease_core/create_journal.py:1012-1021 | the replay accepts exactly the journals each of whose entries is accepted after its prefix, and reports the first fault |
| `Journal.Append` | src/akash_lease_core/create_journal.py:1031-1050 | appending checks exactly the next entry and returns the journal with it |
| `AppendOnly.PrefixIsLog` | src/akash_lease_core/create_journal.py:1012-1021 | every prefix of a valid journal is a valid journal |
| `JournalRuns.OperationIsPath` | src/akash_lease_core/create_journal.py:828-850 | the entries of each operation are a path from PREPARED, strictly further on at each step |
| `JournalRuns.AtMostTenEntries` | src/akash_lease_core/create_journal.py:828-850 | at most ten entries, at most one CREATED, never both CREATED and FALLBACK_SAFE |
| `JournalRuns.OneOperationPerDeployment` | src/akash_lease_core/create_journal.py:983-986 | no deployment is bound to two operations |
| `JournalRuns.LaterPayloadsNameBound` | src/akash_lease_core/create_journal.py:987-992 | every payload that names a deployment names the bound one |
| `JournalRuns.AfterCreation` | src/akash_lease_core/create_journal.py:987-992 | after its creation an operation's entries speak only of that deployment |
| `JournalRuns.OneOperationPerAllocation` | src/akash_lease_core/create_journal.py:915-926 | no two operations are prepared under one lifecycle identity and ordinal |
| `JournalRuns.RedundantChecks` | src/akash_lease_core/create_journal.py:915-934 | two of the checks can never be the one that refuses an entry |
| `JournalRuns.HeadDeterminesJournal` | src/akash_lease_core/create_journal.py:1027-1029 | two valid journals with the same head digest are identical |
| `WorkloadIdentity.CheckRegister` | src/akash_lease_core/workload_identity.py:107-137 | the loop accepts exactly the valid registers and maps every stem back to its prefix |
| `IdentityNames.TailParses` | src/akash_lease_core/workload_identity.py:192-197 | the tail expression reads back every printed field |
| `IdentityNames.MarkStandsFirst` | src/akash_lease_core/workload_identity.py:153-178 | `idv1-class-` cannot occur a second time after a stem, whatever the release token is |
| `IdentityNames.FormatInjective` | src/akash_lease_core/workload_identity.py:153-178 | printing is injective over all identities of a register |
| `IdentityNames.ParseUndoesFormat` | src/akash_lease_core/workload_identity.py:181-215 | parsing undoes printing if and only if no other namespace shadows the name, and otherwise returns None |
| `IdentityNames.ParseIsSound` | src/akash_lease_core/workload_identity.py:181-215 | what is parsed prints as exactly the name that was read |
| `IdentityNames.ShadowedNameIsLost` | src/akash_lease_core/workload_identity.py:187-189 | a valid register and identity whose name is not read back |
| `SdlNames.ClassifyGroups` | src/akash_lease_core/workload_identity.py:218-274 | a population is released exactly when it is complete, every name parses, groups are 1 to N as observed, and lifecycles agree |
| `SdlNames.OwnNamesClassify` | src/akash_lease_core/workload_identity.py:302-310 | on a document's own names that check comes down to unshadowed names and one lifecycle |
| `SdlNames.NamesAreOneToOne` | src/akash_lease_core/workload_identity.py:296-301 | different placements get different names |
| `SdlNames.TransformSdl` | src/akash_lease_core/workload_identity.py:277-326 | exactly which documents are renamed, and that nothing but keys changes |
| `SdlNames.ReferencesResolve` | src/akash_lease_core/workload_identity.py:311-326 | every service reference resolves to the same placement body as before, in a well-formed document |
| `Bech32.Polymod` | src/akash_lease_core/chain_identity.py:16-25 | the nested loops compute the iterated checksum step |
| `Bech32.MixIsLinear` | src/akash_lease_core/chain_identity.py:16-25 | the step is linear over exclusive or |
| `Bech32.MixIsInjective` | src/akash_lease_core/chain_identity.py:16-25 | the step is injective on 30-bit words |
| `Bech32.BurstChangesChecksum` | src/akash_lease_core/chain_identity.py:16-25 | data that differ only within six neighbouring symbols have different checksums |
| `ChainIdentity.ConvertFiveToEight` | src/akash_lease_core/chain_identity.py:36-50 | the unmasked accumulator succeeds exactly with at most four zero padding bits and spells the same number in bytes; where it refuses, no bytes spell it |
| `ChainIdentity.ConversionIsOneToOne` | src/akash_lease_core/chain_identity.py:36-50 | equal symbols if and only if equal bytes |
| `ChainIdentity.TwentyBytesAre32Symbols` | src/akash_lease_core/chain_identity.py:36-50 | twenty bytes come only from 32 symbols |
| `ChainIdentity.IsCanonicalOwner` | src/akash_lease_core/chain_identity.py:53-71 | the guards accept exactly the 44-character owners with the right prefix, alphabet and checksum |
| `ChainIdentity.OwnersDifferWidely` | src/akash_lease_core/chain_identity.py:53-71 | no two accepted owners differ only within six neighbouring characters, so not in one character |
| `GaloisField.NoEarlyReturn` | src/akash_lease_core/chain_identity.py:16-25 | in the field of the checksum's roots no element but zero comes back after fewer than 1023 multiplications by x |
| `Syndromes.EvaluateMix` | src/akash_lease_core/chain_identity.py:16-25 | a checksum step multiplies the word's value at each of three roots of the generator by that root |
| `Syndromes.ThreeSubstitutionsChangeChecksum` | src/akash_lease_core/chain_identity.py:16-25 | data that differ in one to three symbols, anywhere within 1023 neighbours, have different checksums |
| `ChainIdentity.OwnersDifferInFourPlaces` | src/akash_lease_core/chain_identity.py:53-71 | two different accepted owners differ in at least four characters, wherever they are |
| `ChainIdentity.PayloadDeterminesOwner` | src/akash_lease_core/chain_identity.py:53-71 | equal account bytes, equal owner |
| `RecoveryCodec.CheckShape` | src/akash_lease_core/recovery_codec.py:83-92 | with one shared counter, accepts exactly the trees within the node count and the depth |
| `RecoveryCodec.UniqueObject` | src/akash_lease_core/recovery_codec.py:70-76 | fills a dictionary of all members, or refuses a repeated key |
| `RecoveryCodec.DecodeTree` | src/akash_lease_core/recovery_codec.py:140-157 | the decoder with its bounds, typed decoding and canonical comparison |
| `CodecProperties.RoundTrip` | src/akash_lease_core/recovery_codec.py:95-137 | decoding the canonical tree of a typed value returns that value, unions included |
| `CodecProperties.TypedIsTyped` | src/akash_lease_core/recovery_codec.py:95-137 | whatever decodes is a value of the requested type |
| `CodecProperties.DecodeIsExact` | src/akash_lease_core/recovery_codec.py:140-157 | decoding yields a value if and only if the tree is its canonical encoding, typed and within the bounds |
| `CodecProperties.EncodingIsInjective` | src/akash_lease_core/create_journal.py:139-163 | different typed values have different canonical encodings |
| `CodecProperties.TaggedUnionIsDiscriminated` | src/akash_lease_core/create_journal.py:752-760 | unions of data types are told apart by their tags |
| `CodecProperties.OptionalIsDiscriminated` | src/akash_lease_core/financial_codec.py:91-99 | optional fields are told apart from null |
| `CodecProperties.UnionReturnsExactly` | src/akash_lease_core/recovery_codec.py:95-103 | in any union, a value comes back if and only if no option before the first of its types decodes its tree |
| `CodecProperties.AmbiguousUnionForgets` | src/akash_lease_core/recovery_codec.py:95-103 | the failing side: an enumeration after a string in one union comes back as the string |
| `RecoverySchema.RecoverableIsWellFormed` | src/akash_lease_core/recovery_codec.py:30-61 | the thirty admitted types repeat no field name and have only discriminated unions |
| `RecoverySchema.RootsAreRecovered` | src/akash_lease_core/recovery_codec.py:160-177 | for each of the four roots, a value is recovered if and only if the tree is its canonical encoding, typed and within the bounds |

## Left out

- IEEE rounding: fractions and times are reals; kept are the refusal of floats at or above 2^53, as a flag, the difference between a float and the decimal it prints as, and the overflow of a sum. Of printing itself only that it keeps the order of floats is used.
- Capacity.ReplicasFitDecides: a requested dimension that is empty on all nodes makes the difficulty sum add a `Fraction` to the float 0.0 (capacity.py:236), and a ratio above about 1.8e308 then raises OverflowError instead of giving a verdict.
- The difficulty order of replicas is any permutation, so its own rounding and ties do not matter.
- `NodeCapacity.fit`, `ProviderCapacity.from_totals`, `available_fraction`, `is_readable`: single expressions or another entry to the same record.
- The field codecs of a snapshot (numbers, enums and lists as JSON) and its version check; the snapshot is a record of typed fields.
- Constructor checks that no later rule reads: ASCII and length limits, digests' hexadecimal form, reason codes, evidence heights and sources. Fields no rule reads are gathered in `detail`.
- SHA-256, JSON text, UTF-8 and base64: library code. A digest is its value, a tree stands for its text, base64 is a pair of functions of which decoding undoes encoding.
- The financial codec's own list of types: its decoder is the same, and the codec is proved for every schema whose field names are distinct and whose unions are discriminated.
- RecoverySchema.RecoverableIsWellFormed: what the constructors accept is a parameter.
- Sorted tuples that stand for sets or dictionaries (native vectors, registrations' populations) are maps and sets; iteration over them is in any order, which no result depends on.
- WorkloadIdentity.Parse: the tail's regular expression is read token by token between hyphens, which no field can contain; an unknown workload class cannot be written.
- SdlNames.ClassifyGroups: the reason text of a held population and the counts in it are not modelled, only the identities and whether it is held.
- ChainIdentity.ConvertFiveToEight: negative symbols, which the alphabet never yields, are not representable.
- Syndromes.ThreeSubstitutionsChangeChecksum: three roots in progression give three substitutions. That four are detected up to length 89, which BIP-173 also claims, rests on a search over all such errors and is not proved.
- `is_canonical_akash_dseq`: one regular expression and one comparison.
- External census refresh, policy changes, authentication and persistence belong to the broker; the store is assumed to accept a state only as the next revision (admission) or as naming the digest of the one it replaces (liability).
- `transition_reservation` returns the unchanged state for repeated evidence before it looks at the expected revision, so the store's comparison of revisions, not the function, keeps such a proposal from being stored twice.
- close_policy.py, lease_recovery.py, orders.py, qualification.py, wallets.py, funding.py and the wire code of `__init__.py`: guards and single folds that would add only easy members.
