# Vaduno, verified

A Dafny model of the parts of Vaduno whose correctness is hardest to see from one function:

- the RFC 9162 Merkle log, the cosigning witness and the quorum check built on it
  (`Merkle`, `Consistency`, `SignedNote`, `Witness`, `Quorum`, `QuorumMeaning`, `Parties`,
  `SplitView`);
- the rolling-window spend limiter and its memory, file and SQL stores
  (`SpendWindow`, `SpendBook`, `SpendLimiter`, `StoredLimiters`);
- the guard's payment pipeline, run by any number of processes that share a limiter and a
  consume registry (`GuardProtocol`, `Pipeline`, `GuardSafety`, `Custody`, `ConsumeStore`,
  `Settlement`);
- the hash-chained ledger and the canonical serializer under it
  (`JsonText`, `JsonNumber`, `CanonicalJson`, `Ledger`, `LedgerWriters`);
- the revocation registry, its replay, its published list and the remote verifier
  (`Bitstring`, `RevocationStore`, `Registry`, `KillEffects`, `Publication`, `RevocationRegistry`,
  `ListBuilding`, `ListLimits`);
- the typed-data walk and the signer's wire codec (`TypedData`, `WireCodec`);
- the C2SP signed-note text (`Encoding`, `Note`).

`KnownAnswers` pins the formats to outputs their standards fix.

`Prelude` and `Text` hold small shared definitions. `dafny verify dfyconfig.toml` checks the
project.

## How it is modelled

SHA-256 is a free constructor in the Merkle tree, with a constructor for digests nobody can
invert, and a collision-free function on text in the ledger. Signatures are an arbitrary
check; where a theorem speaks of honest signers it says what a verifying signature attests.

Objects that the source updates in place are classes. Their methods are proved against
functions on values, and the theorems are about those functions over all runs.

Concurrency is a state machine: one step for each stretch of code between two awaits, the
schedule an arbitrary list of actions, store failures before or after taking effect included.
A file under its mutex and a transaction are one step each.

Numbers follow JavaScript where it matters: window sums are rounded doubles, `>>>` reduces
modulo 2^32, number text is ECMAScript's shortest decimal, and strings are UTF-16 code units
in the serializer, the wire codec and the note text.

## What turned out false, and exactly when it holds

- Witness names sharing any key are documented as one party (`cosign.ts:591-595`). The one-pass
  grouping keeps two parties apart when a later witness holds a key of each. The promise holds
  iff no witness bridges two parties on arrival (`Parties.OnePartyIffNeverBridges`): read off
  the list, iff both keys of a witness that occur before it are joined there by a chain of
  shared keys (`Parties.OnePartyIffKeysComeJoined`).
- The SQL limiter is documented to reproduce the reference exactly. An operator window named
  `SPEND_WINDOW_INVALID` can change which refusal code is reported, never whether a payment is
  refused (`StoredLimiters.SameCodeIffInOrder`, `StoredLimiters.SqlRefusesAlike`).
- Hydration rebuilds the registry except after an agent-wide kill of a mandate that was since
  linked to another agent (`Registry.StepSync`, `Registry.RelinkingDiverges`); even then only
  which agent a mandate is linked to can differ (`Registry.RunIsSound`).
- A denial gives back the budget it took (`guard.ts:1402-1425`) except exactly when its intent
  was committed while it held the reservation; as long as no hand release takes a reservation
  still needed, that is exactly when a caller reported the intent as executed meanwhile
  (`Custody.DenialLeavesNothing`, `Custody.ReportedDenialKeepsItsRow`).
- `releaseSpend` is documented as unable to un-count a successful execution (`guard.ts:508-511`).
  It can when the payment's own commit, which is best-effort, had failed; a payment stays
  counted exactly while every release of its id found it committed
  (`Custody.PaymentCountedIff`, `Custody.MistakenReleaseForgetsACharge`).
- A suspension list need not hold a mandate suspended all through its build, and may hold one
  never suspended (`ListLimits.MissedThoughMarkedThroughout`, `ListLimits.ListedThoughNeverMarked`).
  Whatever the moments of its awaits, a build lists a bit for certain iff it is killed when the
  build begins or listed then by an agent that stays blocked, and may list it iff it is killed
  then or listed by an agent at or after a moment of that agent's block
  (`ListBuilding.EveryBuildListsIff`, `ListBuilding.SomeBuildListsIff`).
- A newer revocation list may lack a bit of an older one whose build overlapped it
  (`ListLimits.OverlappingListsDisagree`). It is certain to hold a bit iff that was marked when
  its own build began (`ListBuilding.EveryRevocationListIff`), hence all bits of a list whose
  build had ended by then (`ListBuilding.NewerKeepsRevocations`).
- `checkpointBody` prints a size-zero checkpoint with any root; `parseNote` refuses all but the
  empty root (`Note.PrinterOutrunsParser`).
- The bit array addresses distinct bits only for lists of at most 2^32 entries
  (`Bitstring.FaithfulIffFitsWord`).

## Model

| member | source | states |
|---|---|---|
| `Merkle.SplitPoint` | packages/transparency/src/merkle.ts:82-90 | the doubling loop finds the one power of two k with k < n <= 2k |
| `Merkle.SubtreeRoot` | packages/transparency/src/merkle.ts:92-102 | the recursion over index ranges gives MTH of that slice of the leaves (RFC 9162 section 2.1.1) |
| `Merkle.RootIsInjective` | packages/transparency/src/merkle.ts:92-110 | at a fixed size the root determines every leaf |
| `Merkle.RootByLevels` | packages/transparency/src/merkle.ts:92-102 | the recursive split and bottom-up pairing of neighbours build the same root, for every leaf list |
| `KnownAnswers.ThreeLeaves` | packages/transparency/src/merkle.ts:92-161 | the root and two inclusion paths of three leaves |
| `Merkle.PathByLevels` | packages/transparency/src/merkle.ts:131-161 | a path is the sibling of the node followed by the path of its parent one level up: the bridge from the prover's recursion to the verifier's shifts |
| `Merkle.ProveInclusion` | packages/transparency/src/merkle.ts:131-161 | the prover's loop yields PATH(m, D[n]) and refuses exactly the invalid sizes and indexes |
| `Merkle.VerifyInclusion` | packages/transparency/src/merkle.ts:210-256 | the shift loop accepts exactly when the bounds hold and the walk ends at the root |
| `Merkle.WalkIsExact` | packages/transparency/src/merkle.ts:226-256 | from any level, the fn/sn walk reaches the root of that level iff the node is the one claimed and the path is the tree's own |
| `Merkle.InclusionExact` | packages/transparency/src/merkle.ts:210-256 | for a leaf list with the given root, a proof is accepted iff it names the real leaf at that index and is the prover's path, which always fits the 64-node cap |
| `Merkle.PathIsShort` | packages/transparency/src/merkle.ts:22-31 | a tree of at most 2^e leaves has inclusion paths of at most e nodes |
| `Consistency.Subproof` | packages/transparency/src/merkle.ts:180-202 | the recursion that pushes into an output list yields SUBPROOF(m, D[n], b) appended to it |
| `Consistency.ProveConsistency` | packages/transparency/src/merkle.ts:164-178 | the prover yields PROOF(m, D[n]) for 1 <= m <= n and refuses every other pair of sizes |
| `Consistency.PowerOfTwoTest` | packages/transparency/src/merkle.ts:263-327 | `n & (n - 1) == 0` recognises exactly the powers of two |
| `Consistency.VerifyConsistency` | packages/transparency/src/merkle.ts:263-327 | the shift-loop verifier decides the acceptance predicate, error cases included |
| `Consistency.HonestProofShape` | packages/transparency/src/merkle.ts:164-202 | the prover omits the leading hash exactly when m is a power of two below n; what remains is an inclusion path one tree up |
| `Consistency.RootsReachedExact` | packages/transparency/src/merkle.ts:285-327 | the two accumulators reach both roots iff the node list is the one node and path the trees fix |
| `Consistency.HonestProofFits` | packages/transparency/src/merkle.ts:22-31 | honest consistency proofs have at most 54 nodes for every size below 2^53, so the cap of 130 never rejects one |
| `Consistency.ConsistencyExact` | packages/transparency/src/merkle.ts:263-327 | with the later leaves fixed, acceptance holds iff the earlier root is the root of the first m leaves and the path is the prover's: completeness and uniqueness at once |
| `Consistency.ConsistencySound` | packages/transparency/src/merkle.ts:263-327 | an accepted proof commits every list behind the later root to the earlier root, and any earlier list with that root is a prefix |
| `Consistency.ExtendsTransitive` | packages/transparency/src/witness.ts:243-303 | commitments of roots to earlier roots compose |
| `SignedNote.VerifyNoteSignature` | packages/transparency/src/checkpoint.ts:378-398 | true iff some line with this name and key id verifies over the exact body |
| `Witness.Decide` | packages/transparency/src/witness.ts:183-310 | the branches of the cosigning decision, in order, with both verifiers run; `CosignsIff` and `RefusesIff` say what they decide |
| `Witness.NoObjectionFollows` | packages/transparency/src/witness.ts:243-303 | whatever the baseline check lets through extends the last cosigned body |
| `Witness.CosignKeepsAppendOnly` | packages/transparency/src/witness.ts:183-310 | one request keeps the cosigned history append-only |
| `Witness.RunIsAppendOnly` | packages/transparency/src/witness.ts:183-310 | over any sequence of requests, every two cosigned checkpoints are consistent, equal sizes have equal bodies, and all are of the configured origin |
| `Witness.HonestGrowthIsCosigned` | packages/transparency/src/witness.ts:183-310 | a log that really grew, or did not change, is cosigned from every baseline: none, an empty tree, or any earlier state with the prover's path |
| `Witness.CosignsIff` | packages/transparency/src/witness.ts:183-310 | a checkpoint is cosigned iff it is a readable one of this log, some line is the log's signature over its body, and it goes on from the last one cosigned; then it becomes the baseline |
| `Witness.RefusesIff` | packages/transparency/src/witness.ts:183-303 | each refusal code is given exactly for its own condition on the request and the baseline |
| `Witness.RunIsSigned` | packages/transparency/src/witness.ts:183-360 | over any run, every body cosigned came in some request for this log with the log's signature on it |
| `Witness.CosigningWitness.Cosign` | packages/transparency/src/witness.ts:312-360 | the stateful witness signs and adopts only what its log signed, as the new baseline; a refusal leaves its state unchanged |
| `Quorum.VerifyOneCosignature` | packages/transparency/src/cosign.ts:402-498 | the first line that carries an acceptable timestamp and verifies under this key, per algorithm |
| `Quorum.VerifyCosignatures` | packages/transparency/src/cosign.ts:500-542 | all verified cosignatures, one pass over distinct names, ML-DSA only where available |
| `Quorum.GroupPartiesLoop` | packages/transparency/src/cosign.ts:596-633 | the one-pass assignment of names and keys to parties |
| `Quorum.UniqueByNameLoop` | packages/transparency/src/cosign.ts:647-656 | the first witness of each name is kept, in order |
| `Quorum.CheckCosignatureQuorum` | packages/transparency/src/cosign.ts:647-733 | ok iff the note is bound to this log and at least k parties verifiably cosigned it |
| `QuorumMeaning.VerifiedIsALine` | packages/transparency/src/cosign.ts:395-542 | every verified cosignature is a line of the note with that witness's name and key id, a signature over the body with its own timestamp, and that timestamp within the bounds |
| `QuorumMeaning.CountedIff` | packages/transparency/src/cosign.ts:500-733 | a party is counted iff one of its witnesses cosigned the note in time |
| `QuorumMeaning.QuorumIff` | packages/transparency/src/cosign.ts:658-733 | the check passes iff the note carries the pinned log's signature and at least k different parties, k positive, cosigned it in time: an honest quorum always passes |
| `QuorumMeaning.MostSignificantFirst` | packages/transparency/src/cosign.ts:395-440 | the eight timestamp bytes are read most significant first |
| `Parties.OnePartyIffNeverBridges` | packages/transparency/src/cosign.ts:591-633 | names sharing a key are one party exactly when no witness, on arrival, holds keys already filed under two parties |
| `Parties.OnePartyIffKeysComeJoined` | packages/transparency/src/cosign.ts:591-633 | the same condition on the witness list alone: whenever both keys of a witness occur before it, a chain of shared keys among the earlier witnesses joins them |
| `Parties.BridgingExample` | packages/transparency/src/cosign.ts:591-633 | three witnesses for which the documented grouping fails |
| `SplitView.PartiesHaveOneOwner` | packages/transparency/src/cosign.ts:596-633 | when each name's keys have one operator, each party has one operator |
| `SplitView.CountedPartyIsAttested` | packages/transparency/src/cosign.ts:402-733 | a counted party with an honest operator cosigned this very size and root, whichever key it used |
| `SplitView.NoSplitView` | packages/transparency/src/cosign.ts:596-733 | with at most f dishonest parties of n and 2k > n + f, two checkpoints that both pass the quorum check never contradict each other |
| `SplitView.NoSplitViewSingleKey` | packages/transparency/src/cosign.ts:596-733 | the same for single-key witnesses, counted by distinct keys |
| `SplitView.NoSplitViewOfRunningWitnesses` | packages/transparency/src/witness.ts:183-360 | the same with nothing assumed of honest histories: each honest operator runs the cosigning witness, started fresh, on whatever requests reach it |
| `SpendWindow.RoundAroundTwo53` | packages/guard/src/enforce/spend-limiter.ts:168-180 | sums below 2^53 are exact in doubles, and none at or above it rounds back below |
| `SpendWindow.CapCheckIsExact` | packages/guard/src/enforce/spend-limiter.ts:175-183 | the guarded comparison on the double sum is the comparison on exact integers |
| `SpendWindow.FirstViolatedWindow` | packages/guard/src/enforce/spend-limiter.ts:122-194 | the loops over doubles return the exact-integer verdict, with the refusal codes in the code's order |
| `SpendWindow.VerdictOfPermutation` | packages/guard/src/enforce/spend-limiter.ts:122-194 | the verdict depends only on the multiset of in-scope records |
| `SpendWindow.VerdictOfRecent` | packages/postgres/src/spend-limiter.ts:86-106 | dropping the rows at or before now minus the widest window changes nothing |
| `SpendWindow.RefusedIff` | packages/guard/src/enforce/spend-limiter.ts:122-194 | a payment is refused iff a window or the amount is malformed, or some window asks for a missing merchant key or would be exceeded by the records younger than its length and, for a merchant window, of that merchant or of none |
| `SpendWindow.RefusalNamesFirst` | packages/guard/src/enforce/spend-limiter.ts:122-194 | the code is that of malformed windows, then of a malformed amount, then of the first window that blocks |
| `SpendWindow.OtherMerchantsDoNotMatter` | packages/guard/src/enforce/spend-limiter.ts:168-172 | spends of another merchant never change what a merchant window says |
| `SpendBook.ReservedIff` | packages/guard/src/enforce/spend-limiter.ts:220-259 | a reservation is made iff its id is new, the request well formed, and every window leaves room among the records of its own scope and currency |
| `SpendBook.RollingCap` | packages/guard/src/enforce/spend-limiter.ts:122-292 | after any run of reserve, commit, release and prune, with times in any order, no interval of the window's length holds more than the cap or count, per merchant for merchant windows |
| `SpendBook.ReleaseKeepsRolling` | packages/guard/src/enforce/spend-limiter.ts:266-277 | releasing keeps every window's history rolling |
| `SpendBook.PruneKeepsRolling` | packages/guard/src/enforce/spend-limiter.ts:279-292 | pruning keeps every window's history rolling |
| `SpendBook.RollingMeansCap` | packages/guard/src/enforce/spend-limiter.ts:150-194 | the insertion-order invariant bounds every instant's window |
| `SpendLimiter.ScopeKeyIsInjective` | packages/guard/src/enforce/spend-limiter.ts:197-205 | no two (scope, currency) budgets share a key |
| `SpendLimiter.MemorySpendLimiter.Reserve` | packages/guard/src/enforce/spend-limiter.ts:220-259 | the two-index store answers and books as the reference, and both indexes keep the same records |
| `SpendLimiter.MemorySpendLimiter.Commit` | packages/guard/src/enforce/spend-limiter.ts:261-264 | marks a held reservation committed in place, seen through both indexes |
| `SpendLimiter.MemorySpendLimiter.Release` | packages/guard/src/enforce/spend-limiter.ts:266-277 | removes an uncommitted reservation from both indexes, never a committed one |
| `SpendLimiter.MemorySpendLimiter.PruneBefore` | packages/guard/src/enforce/spend-limiter.ts:279-292 | keeps exactly the records at or after the instant in both indexes, in order, and counts what went |
| `SpendLimiter.RemoveFiles` | packages/guard/src/enforce/spend-limiter.ts:266-277 | splicing one list and deleting one id keeps the two indexes in step |
| `StoredLimiters.FileSpendLimiter.Reserve` | packages/guard/src/enforce/file-spend-limiter.ts:90-133 | the keyed file store, read in any order, answers and books as the reference |
| `StoredLimiters.FileSpendLimiter.Commit` | packages/guard/src/enforce/file-spend-limiter.ts:135-143 | commits as the reference |
| `StoredLimiters.FileSpendLimiter.Release` | packages/guard/src/enforce/file-spend-limiter.ts:145-155 | releases as the reference |
| `StoredLimiters.FileSpendLimiter.PruneBefore` | packages/guard/src/enforce/file-spend-limiter.ts:157-170 | prunes as the reference |
| `StoredLimiters.PostgresSpendLimiter.Reserve` | packages/postgres/src/spend-limiter.ts:54-132 | the table, filtered by the widest window, books as the reference; only the refusal code can differ |
| `StoredLimiters.PostgresSpendLimiter.Commit` | packages/postgres/src/spend-limiter.ts:134-139 | commits as the reference |
| `StoredLimiters.PostgresSpendLimiter.Release` | packages/postgres/src/spend-limiter.ts:141-148 | releases as the reference |
| `StoredLimiters.PostgresSpendLimiter.PruneBefore` | packages/postgres/src/spend-limiter.ts:150-156 | prunes as the reference |
| `StoredLimiters.SqlRefusesAlike` | packages/postgres/src/spend-limiter.ts:75-115 | on equal books the SQL store allows, replays and refuses exactly when the others do |
| `StoredLimiters.SameCodeIffInOrder` | packages/postgres/src/spend-limiter.ts:75-84 | the refusal codes also agree for every configuration with given window codes iff no window named like the malformed-window code comes after one that is not |
| `GuardProtocol.StepKeepsInv` | packages/guard/src/guard.ts:1268-1593 | every step of every attempt, with store failures, late settlement and any hand release at any time, keeps the ownership invariant |
| `GuardProtocol.RunKeepsInv` | packages/guard/src/guard.ts:1268-1593 | the invariant holds in every reachable world |
| `Pipeline.BeginsAtPolicy` | packages/guard/src/guard.ts:1160-1182 | every attempt begins at the policy gate |
| `Pipeline.OpenGateLeadsOn` | packages/guard/src/guard.ts:1179-1525 | whoever is let through a gate waits at the next; past the last, and only there, the payment is on the rail |
| `Pipeline.RailIffPassed` | packages/guard/src/guard.ts:1179-1525 | over any schedule, a payment is on the rail iff every gate was opened for it in order: policy, free budget, mandate known, valid and with a use left, a reservation of its own, no freeze, start recorded |
| `Pipeline.OpenedAt` | packages/guard/src/guard.ts:1179-1525 | a gate that was passed was opened by one action of the schedule, at a moment when the gate before it had been passed |
| `Pipeline.RefusedIsNeverSent` | packages/guard/src/guard.ts:1179-1525 | a refusal at any gate stops the payment for good: it is never on the rail, and its answer is a denial, or a replay exactly when it was found made or claimed before |
| `Pipeline.ExecutionEnds` | packages/guard/src/guard.ts:1527-1593 | what the executor's return, the commit and the release make of an attempt |
| `GuardSafety.RailOwnsReservation` | packages/guard/src/guard.ts:1380-1425 | every payment sent to the rail stands on a reservation it took itself, unless that was given back on request: after the money provably never moved, or by a hand release while it was needed |
| `GuardSafety.ChargedAtMostOnce` | packages/guard/src/guard.ts:497-514 | no two payments that moved money, or may yet, share an intent id, unless a hand release took the reservation of one while it was needed |
| `GuardSafety.RailAtMostOnce` | packages/guard/src/guard.ts:1268-1525 | an intent id is sent to the rail a second time only after the earlier payment provably moved no money and its reservation was asked back, or by a mistaken hand release; otherwise at most once, whatever mandates it is presented under |
| `GuardSafety.MistakenIff` | packages/guard/src/guard.ts:497-514 | which intents count as mistakenly released, read off the schedule: some hand release found the reservation uncommitted and still needed |
| `GuardSafety.RailReservationStays` | packages/guard/src/guard.ts:1527-1561 | the reservation under a payment is never released later, unless its money provably never moved and someone asked for it back, or by a mistaken hand release |
| `GuardSafety.EveryReservationAccounted` | packages/guard/src/guard.ts:1318-1400 | each reservation belongs to a running attempt, one sent to the rail, one that saw a store call fail, or one committed by a report (or, after a mistaken hand release of its id, by another attempt) |
| `Custody.DenialLeavesNothing` | packages/guard/src/guard.ts:1318-1400 | a denial or replay with no store exception leaves a reservation of its own behind iff its intent was committed while it held it; with no mistaken hand release, iff it was reported as executed meanwhile |
| `Custody.UnreportedDenialLeavesNothing` | packages/guard/src/guard.ts:1318-1425 | an intent nobody reports as executed nor releases by hand leaves nothing behind when it is denied |
| `Custody.ReportedDenialKeepsItsRow` | packages/guard/src/guard.ts:366-376 | a schedule where that happens |
| `Custody.SecureIffCommittedWhileHeld` | packages/guard/src/enforce/spend-limiter.ts:261-277 | a reservation is held and committed iff it was committed while held: from then on nothing takes it away |
| `Custody.HeldUntilReleased` | packages/guard/src/enforce/spend-limiter.ts:266-277 | any reservation is held by the attempt that made it until a release reaches the store before its commit, and no longer |
| `Custody.PaymentCountedIff` | packages/guard/src/guard.ts:497-514 | a payment sent to the rail keeps its row iff every release of its id that reached the store while it held the row came after its commit or a report of it |
| `Custody.MistakenReleaseForgetsACharge` | packages/guard/src/guard.ts:508-514 | a payment executed and charged whose commit failed is un-counted by a hand release |
| `GuardSafety.MandateUsesBounded` | packages/guard/src/mandate/mandate.ts:1029-1089 | no mandate is claimed, nor paid under, more often than its use count; should presenters differ, than the largest presented |
| `GuardSafety.PaidStaysWithinCap` | packages/guard/src/guard.ts:1268-1593 | however attempts interleave, the payments that moved money or may yet stay within every policy window, but for intents whose reservation a mistaken hand release took |
| `ConsumeStore.MemoryConsumeStore.Claim` | packages/guard/src/enforce/consume-store.ts:126-138 | duplicate check, budget check and insert in one step, on the map keyed by text |
| `ConsumeStore.MemoryConsumeStore.Settle` | packages/guard/src/enforce/consume-store.ts:140-146 | first write wins; settling what was never claimed does nothing |
| `ConsumeStore.MemoryConsumeStore.CountClaims` | packages/guard/src/enforce/consume-store.ts:165-171 | counts the claims of one mandate |
| `ConsumeStore.KeyIsInjective` | packages/guard/src/enforce/consume-store.ts:115-118 | no two (mandate, use) pairs share a key |
| `ConsumeStore.RegistryKeepsPromises` | packages/guard/src/enforce/consume-store.ts:126-146 | over any run a claimed use stays claimed with its digest, and a settled one keeps its outcome |
| `ConsumeStore.ClaimWonIff` | packages/guard/src/enforce/consume-store.ts:126-138 | a claim is won iff its use is new and its mandate has one left; it is then there, unsettled and counted, and otherwise nothing changes |
| `ConsumeStore.FirstSettleStands` | packages/guard/src/enforce/consume-store.ts:140-146 | the first outcome reported for a claimed use stands through any run |
| `ConsumeStore.ClaimStepFollowsStore` | packages/guard/src/mandate/mandate.ts:1029-1065 | the protocol's claim step takes the branch the store's answer says, denies if the call threw, and leaves the registry the store would |
| `ConsumeStore.RunFollowsStore` | packages/guard/src/enforce/consume-store.ts:123-146 | over any schedule the protocol's registry is what a sequence of this store's claims builds |
| `Settlement.Guard.RecordSettlement` | packages/guard/src/guard.ts:391-495 | the backward search for the current authorization and the outcome-keyed dedupe append exactly the specified row, or nothing |
| `Settlement.OneSuccessPerAuthorization` | packages/guard/src/guard.ts:391-495 | no two countable self-reported successes settle one authorization, and each carries its money, even when trail reads fail |
| `Settlement.OneSuccessPerSnapshot` | packages/guard/src/guard.ts:391-495 | while trails can be read, every self-reported success after an authorization carries its money and is the only one for it |
| `Settlement.ExecutedLands` | packages/guard/src/guard.ts:391-495 | after an authorization, whatever failures, failed writes, unread trails and other intents come in between, reporting it executed adds exactly one success with the authorized amounts, unless a success was already written since: then nothing |
| `Settlement.FailedLands` | packages/guard/src/guard.ts:391-495 | likewise reporting it failed adds exactly one failure, unless any result of the intent was already written since |
| `Settlement.UnreadOutcomeLands` | packages/guard/src/guard.ts:391-495 | an outcome reported while the trail cannot be read is recorded, without amounts |
| `Settlement.RestoredIsExact` | packages/guard/src/guard.ts:600-667 | the restored counter is what execute() recorded plus each settled authorization once |
| `JsonText.QuotedSplits` | packages/guard/src/ledger/hash.ts:84-91 | a quoted string at the head of a text determines the string and the rest, for all UTF-16 strings |
| `JsonNumber.NumberTextIsInjective` | packages/guard/src/ledger/hash.ts:93-103 | two finite numbers share a text iff they are equal or both zero |
| `JsonNumber.MagnitudeRoundTrip` | packages/guard/src/ledger/hash.ts:93-103 | reading the shortest decimal text back gives digits and exponent, in each of the five layouts |
| `CanonicalJson.CanonicalJson` | packages/guard/src/ledger/hash.ts:80-82 | the serializer, loops and refusals included, computes the canonical text |
| `CanonicalJson.SerializeObject` | packages/guard/src/ledger/hash.ts:130-153 | sorted keys, undefined properties skipped, any refused property refuses the object |
| `CanonicalJson.SortedAscends` | packages/guard/src/ledger/hash.ts:142-142 | keys are written once each in code-unit order |
| `CanonicalJson.TextDetermines` | packages/guard/src/ledger/hash.ts:84-153 | unique readability: equal text before delimited rests means equal values and equal rests |
| `CanonicalJson.CanonicalIsInjective` | packages/guard/src/ledger/hash.ts:80-153 | two accepted values have the same text iff they are equal up to undefined properties and the sign of zero |
| `CanonicalJson.CanonicalIff` | packages/guard/src/ledger/hash.ts:84-153 | a value has a canonical text iff everything at the end of any path into it, at depth at most 256, is something JSON can say |
| `KnownAnswers.QuotedStrings` | packages/guard/src/ledger/hash.ts:88-91 | the JSON text of control characters, quote, backslash and a lone surrogate |
| `KnownAnswers.NumberLayouts` | packages/guard/src/ledger/hash.ts:93-103 | the number layouts on both sides of 10^21 and 10^-6 |
| `KnownAnswers.CanonicalObject` | packages/guard/src/ledger/hash.ts:105-153 | the whole text of an object with two properties and an array |
| `CanonicalJson.TextIsWellFormed` | packages/guard/src/ledger/hash.ts:155-157 | canonical text has no lone surrogate, so hashing its UTF-8 bytes loses nothing |
| `Ledger.HashDetermines` | packages/guard/src/ledger/ledger.ts:110-112 | without hash collisions, equal entry hashes mean equal entries field by field |
| `Ledger.Verify` | packages/guard/src/ledger/ledger.ts:265-335 | the verification loop reports the first entry that does not extend the ones before it, with the right problem, then checks the head |
| `Ledger.IntactIsChain` | packages/guard/src/ledger/ledger.ts:265-325 | verification finds no fault iff the ledger is one chain: seq = index, links and hashes right |
| `Ledger.ChainHasHead` | packages/guard/src/ledger/ledger.ts:243-257 | a chain is given a head, and verifies against it |
| `Ledger.VerdictMeans` | packages/guard/src/ledger/ledger.ts:265-335 | each verdict read off the ledger itself: intact iff every entry is right and the head agrees, a problem iff it is the first wrong entry's, a head mismatch iff nothing else is wrong |
| `Ledger.VerifiedAgainstOneHead` | packages/guard/src/ledger/ledger.ts:259-335 | two ledgers that verify against the same retained head are equal entry by entry |
| `LedgerWriters.MemoryLedgerStore.Append` | packages/guard/src/ledger/stores/memory.ts:21-34 | compare-and-append: persists on a matching tip, reports the real tip otherwise |
| `LedgerWriters.AuditLedger.Append` | packages/guard/src/ledger/ledger.ts:155-208 | the retry loop, whatever rivals commit in between, adds its one entry at the tip or none, keeps one chain, and gives up only after 32 rival commits |
| `LedgerWriters.BuiltIffRecordable` | packages/guard/src/ledger/ledger.ts:155-181 | a draft can be recorded iff its data is absent or can be written canonically |
| `LedgerWriters.StepKeeps` | packages/guard/src/ledger/ledger.ts:155-208 | each step of any writer keeps one chain, one author per entry |
| `LedgerWriters.EveryLedgerVerifies` | packages/guard/src/ledger/ledger.ts:155-335 | under any interleaving of writers the ledger verifies, alone and against its head |
| `LedgerWriters.OneEntryEach` | packages/guard/src/ledger/ledger.ts:155-208 | a writer that succeeded has exactly one entry carrying its request; any other has none |
| `LedgerWriters.FailureMeansRivals` | packages/guard/src/ledger/ledger.ts:114-123 | an attempt fails only if a rival committed since the tip was read |
| `LedgerWriters.LedgerOnlyGrows` | packages/guard/src/ledger/ledger.ts:155-208 | history is never rewritten |
| `Bitstring.FaithfulIffFitsWord` | packages/revocation/src/bitstring.ts:61-70 | the 32-bit shift keeps indices apart exactly for lists of at most 2^32 entries |
| `Bitstring.LeftMostFirst` | packages/revocation/src/bitstring.ts:61-75 | the first bit of a byte is its left-most one |
| `Bitstring.Bitstring.Set` | packages/revocation/src/bitstring.ts:77-81 | sets or clears one bit and no other; out-of-range indices change nothing |
| `Bitstring.Bitstring.Get` | packages/revocation/src/bitstring.ts:72-75 | reads the bit of an index, left-most bit first |
| `Bitstring.Bitstring.SetIndices` | packages/revocation/src/bitstring.ts:84-94 | lists exactly the set positions, ascending |
| `RevocationStore.MemoryRevocationStore.Allocate` | packages/revocation/src/store.ts:82-97 | idempotent allocation of the next index with linking; a full list does neither |
| `RevocationStore.MemoryRevocationStore.BlockAgent` | packages/revocation/src/store.ts:135-140 | a permanent block is never replaced |
| `RevocationStore.AllocateKeeps` | packages/revocation/src/store.ts:82-108 | allocation keeps bits unshared, records indexed and links known |
| `Registry.RunIsSound` | packages/revocation/src/registry.ts:179-421 | in every reachable registry, relinks and restarts included, no two mandates share a bit, and replaying its ledger rebuilds every bit, record, block, list and the version floor, all but which agent a mandate is linked to |
| `Registry.PermanentForever` | packages/revocation/src/registry.ts:329-368 | a permanent kill or block is never lifted nor rewritten by any later operation or restart |
| `KillEffects.RevokeMandateKills` | packages/revocation/src/registry.ts:370-421 | after a kill the mandate has a record with exactly the purpose, reason, issuer, agent and bit asked for, or the permanent one it had; nothing else is touched |
| `KillEffects.RevokeAgentKills` | packages/revocation/src/registry.ts:286-327 | after an agent-wide kill the agent is blocked as asked, or for good as before, and every mandate it lists has a record as asked or permanent as before; nothing else is touched |
| `KillEffects.UnsuspendLifts` | packages/revocation/src/registry.ts:329-345 | a suspension is removed and nothing else; a permanent kill is not |
| `KillEffects.UnblockLifts` | packages/revocation/src/registry.ts:352-364 | a suspended agent is freed and nothing else; a permanent block stays |
| `KillEffects.AssignGivesABit` | packages/revocation/src/registry.ts:255-271 | a mandate gets a bit no other has and is linked, or the list is full and nothing changes |
| `KillEffects.KilledForGood` | packages/revocation/src/registry.ts:286-421 | once a run holds a permanent kill of a mandate, by itself or with the agent that lists it, it stays permanently killed whatever follows |
| `KillEffects.AgentBlockedForGood` | packages/revocation/src/registry.ts:286-368 | likewise a permanent block of an agent |
| `Registry.StepSync` | packages/revocation/src/registry.ts:179-421 | an operation leaves the registry rebuildable from its ledger iff it is not an agent-wide kill of a mandate since linked to another agent |
| `Registry.OneAgentRunsRebuild` | packages/revocation/src/registry.ts:179-245 | with one agent per mandate, replaying the ledger of any run rebuilds indices, links, records, blocks and the version floor, full-list and agentless kills included |
| `Registry.RestartIsInvisible` | packages/revocation/src/registry.ts:179-245 | with one agent per mandate, a restart at any point of a run changes nothing |
| `Registry.RelinkingDiverges` | packages/revocation/src/registry.ts:286-327 | a run with a relinked mandate whose replay differs |
| `Publication.PublicationIsExact` | packages/revocation/src/registry.ts:526-546 | a mandate's bit is set iff it is killed under the purpose or linked to an agent blocked under it |
| `Publication.RemoteAgreesWithLocal` | packages/revocation/src/guard-hook.ts:27-57 | for a mandate held by its one agent, the two published lists show a set bit iff the issuer's own check denies |
| `Publication.NoVersionTwice` | packages/revocation/src/registry.ts:503-576 | however publishes overlap and signatures fail, no version is issued twice |
| `Publication.ReservedIsNewer` | packages/revocation/src/registry.ts:503-560 | a version reserved after another was issued is greater |
| `Publication.PublishingGoesOn` | packages/revocation/src/registry.ts:503-576 | a version is reserved iff it is a safe integer above all published or being signed, and issued when its signature succeeds |
| `Publication.StatusListCheck.Check` | packages/revocation/src/guard-hook.ts:161-240 | the verifier's verdict and floor: allowed iff a trustworthy list that is no rollback shows the bit clear, killed iff one shows it set |
| `Publication.VerdictIff` | packages/revocation/src/status-list.ts:225-285 | a mandate is let through iff its index is known and a list that is no rollback, authentic, of the expected purpose, id and issuer, in date, whole and long enough shows its bit clear; it is reported killed iff such a list shows it set |
| `Publication.RefusalMeans` | packages/revocation/src/guard-hook.ts:161-240 | every other refusal names a check that really fails, identity before dates before contents |
| `Publication.RemotePartyAgrees` | packages/revocation/src/guard-hook.ts:27-57 | over any one-agent run, a party that asks both published lists lets a mandate through iff the issuer's own check does not deny it |
| `Publication.NeverRolledBack` | packages/revocation/src/guard-hook.ts:161-240 | after acting on an authentic list the verifier later allows only on a newer version or the very same list |
| `Publication.RevokedUntilNewer` | packages/revocation/src/guard-hook.ts:211-233 | having seen a mandate revoked, it allows it again only on a newer version |
| `RevocationRegistry.RevocationRegistry.AssignIndex` | packages/revocation/src/registry.ts:255-271 | allocates, links and records, or reports a full list |
| `RevocationRegistry.RevocationRegistry.KillLocally` | packages/revocation/src/registry.ts:370-421 | writes the kill once, with a bit if one is left, and its event |
| `RevocationRegistry.RevocationRegistry.RevokeAgent` | packages/revocation/src/registry.ts:286-327 | blocks first, then kills each linked mandate in order |
| `RevocationRegistry.RevocationRegistry.UnsuspendMandate` | packages/revocation/src/registry.ts:329-345 | lifts a suspension; a permanent kill is refused |
| `RevocationRegistry.RevocationRegistry.UnblockAgent` | packages/revocation/src/registry.ts:352-364 | lifts an agent suspension; a permanent block is refused |
| `RevocationRegistry.RevocationRegistry.HydrateFromLedger` | packages/revocation/src/registry.ts:179-245 | the replay loop folds the ledger's events in order; a fresh object becomes the registry a restart leaves |
| `RevocationRegistry.RevocationRegistry.BeginPublish` | packages/revocation/src/registry.ts:117-121 | reserves a version iff it is above everything published or being signed |
| `RevocationRegistry.RevocationRegistry.EndPublish` | packages/revocation/src/registry.ts:547-575 | a signed version raises the floor and is recorded; a failed signature leaves everything as it was and frees the version |
| `ListBuilding.BuildList` | packages/revocation/src/registry.ts:522-546 | built across awaits while the registry changes, the list holds exactly the kills of the snapshot and, of each agent blocked when its block was read, the mandates it listed when those were read |
| `ListBuilding.RunsGoOn` | packages/revocation/src/store.ts:82-149 | the stores any run passes through, relinks and restarts included, go on as the build relies on: bits, listings and permanent kills are kept |
| `ListBuilding.KilledIsListed` | packages/revocation/src/registry.ts:526-536 | a mandate killed when the build begins is on the list, lifted meanwhile or not |
| `ListBuilding.BlockedThroughoutIsListed` | packages/revocation/src/registry.ts:537-546 | so is a mandate linked to an agent that stays blocked all along |
| `ListBuilding.ListedHasCause` | packages/revocation/src/registry.ts:526-546 | a set bit means a kill at the beginning, or an agent blocked at one moment that lists the mandate then or later |
| `ListBuilding.EveryBuildListsIff` | packages/revocation/src/registry.ts:526-546 | every build, whatever moments its awaits fall on, lists a bit iff it is killed at the beginning or listed then by an agent that stays blocked |
| `ListBuilding.SomeBuildListsIff` | packages/revocation/src/registry.ts:526-546 | some build lists a bit iff it is killed at the beginning, or listed by an agent at or after a moment of that agent's block |
| `ListBuilding.BoundedByMoments` | packages/revocation/src/registry.ts:526-546 | while no agent block of the purpose is lifted, all that is marked at the beginning is set, and what is set was marked at some moment |
| `ListBuilding.RevocationsBetween` | packages/revocation/src/registry.ts:526-546 | a revocation list lies between what was marked when its build began and what is when it ends, with nothing assumed |
| `ListBuilding.EveryRevocationListIff` | packages/revocation/src/registry.ts:526-546 | every build of a revocation list holds a bit iff it was marked when that build began |
| `ListBuilding.ListedIffKilled` | packages/revocation/src/registry.ts:526-546 | a mandate permanently killed or blocked when the build began has its bit set, and a set bit means its own mandate is when it ends |
| `ListBuilding.QuietListIsExact` | packages/revocation/src/registry.ts:526-546 | when nothing changes meanwhile the list is exactly the marked bits |
| `ListBuilding.NewerKeepsRevocations` | packages/revocation/src/registry.ts:503-576 | a revocation list whose build began after another's ended keeps every bit of it |
| `ListLimits.OverlappingListsDisagree` | packages/revocation/src/registry.ts:503-576 | two overlapping builds, the newer of which lacks a bit of the older |
| `ListLimits.ListedThoughNeverMarked` | packages/revocation/src/registry.ts:537-546 | a suspension list with a mandate that was never suspended |
| `ListLimits.MissedThoughMarkedThroughout` | packages/revocation/src/registry.ts:526-546 | a suspension list without a mandate that was suspended all along |
| `TypedData.ResolveStructRef` | packages/cloudflare/src/guarded-signer.ts:720-746 | the length-and-prefix loop equals the recursive lookup, and gives up exactly past 32 stripped suffixes |
| `TypedData.LookupMeans` | packages/cloudflare/src/guarded-signer.ts:720-746 | a declared name refers to itself, an array of anything to what that refers to, one suffix at a time |
| `TypedData.LookupOfPlain` | packages/cloudflare/src/guarded-signer.ts:720-746 | any other name that is not declared refers to nothing |
| `TypedData.Walk.Visit` | packages/cloudflare/src/guarded-signer.ts:638-681 | the depth-bounded walk explores whatever it records and records only what is reachable |
| `TypedData.CommittedFieldSet` | packages/cloudflare/src/guarded-signer.ts:632-682 | when computed, the record holds exactly the declared structs reachable from the primary type with their field names; when refused, there is a reason |
| `TypedData.FewStructsFit` | packages/cloudflare/src/guarded-signer.ts:646-664 | with at most 33 declared structs, depth is never the reason for refusal |
| `WireCodec.RoundTrip` | packages/cloudflare/src/signer-host.ts:117-228 | whatever encodes also decodes, to the same value, tags and escapes at any nesting included |
| `WireCodec.EncodingIsInjective` | packages/cloudflare/src/signer-host.ts:117-175 | no two values share a wire form |
| `WireCodec.EncodableIff` | packages/cloudflare/src/signer-host.ts:117-175 | a value encodes iff everything in it, at any depth, survives JSON or has a tag |
| `WireCodec.DecodedIsEncodable` | packages/cloudflare/src/signer-host.ts:178-228 | whatever decodes is a value that encodes |
| `WireCodec.EncodeWire` | packages/cloudflare/src/signer-host.ts:117-175 | the recursive encoder and its refusals |
| `WireCodec.DecodeWire` | packages/cloudflare/src/signer-host.ts:178-228 | the recursive decoder and its refusals |
| `Encoding.Base64RoundTrip` | packages/transparency/src/checkpoint.ts:171-171 | decoding what was encoded gives the bytes back |
| `Encoding.HexOfUnhex` | packages/transparency/src/checkpoint.ts:198-198 | lowercase hexadecimal survives decoding and encoding |
| `KnownAnswers.Base64Vectors` | packages/transparency/src/checkpoint.ts:171-171 | the encodings of one, two and three bytes in section 10 of RFC 4648 |
| `Note.CheckpointBody` | packages/transparency/src/checkpoint.ts:162-183 | prints a checkpoint, or refuses it |
| `KnownAnswers.CheckpointText` | packages/transparency/src/checkpoint.ts:162-200 | the whole text of a note with one extension and one signature |
| `Note.ParseNote` | packages/transparency/src/checkpoint.ts:258-369 | the parser with its limits, counting malformed signature lines |
| `Note.NoteRoundTrip` | packages/transparency/src/checkpoint.ts:162-369 | within the limits an assembled note parses to the same checkpoint, exact body and signatures in order, counting lines too short to hold one; a mislabelled empty tree is refused |
| `Note.PrinterOutrunsParser` | packages/transparency/src/checkpoint.ts:162-183 | with non-empty signatures the round trip is exact iff a tree of size zero carries the empty root |
| `Note.ParsedIsPrintable` | packages/transparency/src/checkpoint.ts:258-369 | every parsed checkpoint is printable, and the body is the text before the blank line |
| `Note.ReprintedParses` | packages/transparency/src/checkpoint.ts:162-369 | printing a parsed note's checkpoint and signatures again, within the size limit, parses to the very same, with no malformed line |

## Left out

- Real cryptography: SHA-256, Ed25519, ML-DSA, keccak and EIP-712 hashing, gzip; key parsing and PEM handling.
- File locking, SQL, connection pools, fetch, timers, approval handlers and rail fan-out: external calls. A mutex section or transaction is one step.
- Policy evaluation, mandate validity checks, risk scoring and revocation answers inside the guard pipeline: the schedule chooses their verdicts.
- `witnessObserve`, `detectSplitView`, the anchor assessment, the tree store and the ledger mirror: easier relatives of what is proved.
- Refusal message texts, `missing` and `duplicateKeys` lists of the quorum result, and logging.
- Freeze and unfreeze bookkeeping: the pipeline reads a freeze flag that may change at any step; its persistence is not modelled.
- `hydrate` and `totalsSince` of the limiters and `pruneMandates` of the consume registry; pruning the limiter is excluded from the guard protocol because it forgets replay ids.
- Stored outcomes of claimed uses are kept in ConsumeStore but not followed through the guard protocol, where a replay is an answer without its outcome.
- SpendWindow.FirstViolatedWindow: clock readings are integers and window starts are exact reals, so the rounding of `nowMs - windowMs`, possible only for a fractional `windowMs`, is not modelled; sums stay below the largest double.
- SpendLimiter.MemorySpendLimiter.Reserve: amounts and times of stored rows are integers; rows with other values come only from `hydrate`.
- SplitView.NoSplitView: assumes the keys configured under one name belong to one operator, which single-key witnesses satisfy by definition.
- Quorum.CheckCosignatureQuorum: takes the parsed note as given; the text layer is proved separately in Note.
- Ledger.Verify: entries have the declared field types and no extra properties.
- LedgerWriters.AuditLedger.Append: a store that answers without a compare-and-append result is not modelled.
- CanonicalJson.CanonicalJson: numbers are given by their shortest decimal digits; getters and proxies are not modelled.
- Registry.OneAgentRunsRebuild: timestamps are dropped, and every ledger append succeeds.
- ListBuilding.BuildList: the count of unpublishable kills is not modelled.
- Publication.StatusListCheck.Check: with rollback rejection on, as by default; versions are integers.
- TypedData.CommittedFieldSet: type entries that are not arrays count as undeclared, as the code treats them.
- WireCodec.RoundTrip: property order and prototypes are not part of a value; the JSON text between encoder and decoder is not modelled.
- Note.NoteRoundTrip: key identifiers are eight lowercase hexadecimal digits, as `keyId` produces.
- Settlement.OneSuccessPerAuthorization: one guard, whose critical section makes the read, the check and the append one step.
