# Verification of the receipt log, its protocol, the fact ledger and the gateway

This project models four parts of agent-custody and proves what they promise:

- **The Merkle log** (`BitWalk`, `Hashing`, `Merkle`, `Climbing`, `Proofs`, `SubtreeCache`, `AppendCost`, `MerkleLog`).
  The recursive definitions of sections 2.1.3.1 and 2.1.4.1 of RFC 9162 are the specification. The memoised tree refines
  them, what the two iterative verifiers of sections 2.1.3.2 and 2.1.4.2 accept is given exactly, for byte strings of any
  length, and the cost of an append is counted exactly.
- **The protocol around the log** (`PostgresLog`, `Pae`, `Wire`, `Witness`, `WitnessGap`, `Checkpoints`,
  `Publication`, `Overlap`). Many instances share one table; a publisher writes signed heads to several stores; a witness
  countersigns only what extends the head it signed last. These are state machines, and the results are about all their
  runs.
- **The bitemporal fact ledger** (`FactLog`, `Ledger`, `Superseders`, `Supersession`, `Beliefs`, `Retention`,
  `LedgerStore`, `Blast`). An event log with supersession, retraction, confirmation, holds and erasure in place, read through
  pushed-down selections.
- **The gateway, its verifier, delegation and the rate limiter** (`Delegation`, `Verify`, `Gateway`, `Hosting`,
  `Agreement`, `RateLimiter`, `Eviction`). The producer and the checker of receipts agree on every path.

Code that changes state is modelled by classes and loops, each proved against a specification function; the theorems are
about those functions. Everything below them is values: a byte is an octet from outside or one of the 32 bytes of the
hash of some string, so that distinct strings have distinct digests while digests can be cut up and joined; a signature
is the statement its key made over a payload type and a payload; canonical JSON is an arbitrary function from envelopes
to strings, required to be injective only where a proof needs it. What lookups, policy, log, upstreams, networks and
clocks do is a parameter that every theorem ranges over.

## What the proofs found

- `log.ts:92` tests for a power of two with a 32-bit operator. It is exact up to 2^32; above, it is wrong for precisely the
  sizes `BitWalk.MisjudgedExactly` names, and for these the consistency verifier refuses every proof, honest ones
  included. The witness would then refuse an honest log (`Publication.AlarmExactly`).
- `log.ts:91` takes proof entries of any length and `log.ts:23` joins what it is given. The inclusion verifier is exact all
  the same (`Proofs.InclusionExact`). The consistency verifier is not: for every list and every proper prefix it accepts
  false older roots, made by moving the cut between the first two hashes (`Proofs.FalseRootAccepted`), and it accepts
  nothing else that is false (`Proofs.ConsistencyExact`). No list stands behind such a root (`Proofs.ConsistencySound`),
  but it can stand between two lists that do not nest: a witness can be led to sign all three
  (`WitnessGap.WitnessFooled`). Letting only proofs of 32-byte entries through is exactly what prevents that
  (`WitnessGap.ListsNestExactly`).
- A consistency proof from size 0 is accepted for any claimed older root (`Proofs.ConsistencyExact`, the m = 0 case).
- `CheckpointPublisher.start` runs passes on a timer without waiting for the one before. Two overlapping passes can put a
  directory's `latest.json` back to a smaller head, and the witness then reports an honest log as shrunk
  (`Overlap.OverlapRaisesAlarm`). The witness reads what a directory holds in every setting the code offers, and refuses
  an honest log exactly when that has fallen below the head it last signed, or on a misjudged size
  (`Publication.AlarmExactly`). Passes that take turns prevent the first, and so would a table in the directory's place
  (`Publication.NoFalseAlarm`, `Overlap.OverlapHarmlessExactly`).
- The comment at `verify.ts:27` says every tree head in a bundle must name the expected log. The code checks the
  receipt's head only, so the promise is kept for all bundles without an authorization and not for all bundles with one
  (`Verify.LogIdCheckedExactly`), and the order of the two leaves means something only if both heads are known to be of
  one log (the hypothesis of `Verify.VerifiedIsLogged`). What the gateway issues keeps it
  (`Agreement.AuthorizationVerifies`).
- In observe mode a call outside the grant's scopes is forwarded, and if it ran its receipt does not verify; that is the
  only verifier check the gateway's own branches can fail (`Agreement.ReceiptVerifiesExactly`).
- `get` and `facts` can disagree in two ways, and no other (`Supersession.ViewsAgreeExactly`): about a superseded fact whose
  id is the empty string, and about a fact whose last assert supersedes its own id, until another fact supersedes it.
- A confirmation outlasts later asserts of its id: the fact is shown as attested even if it was asserted again as verified
  (`Beliefs.AsOfExactly`).
- A sweep over a ledger with a reused id can stop half way: it throws at the second of two asserts of one fact that is not
  held (`Retention.SweepFinishesExactly`).
- A fact can get a second live superseder exactly when its id is asserted again after, or by, the first
  (`Superseders.ForksExactly`); as long as that never happens, ids may be reused (`Superseders.OneLiveUnlessReopened`).
- Dropping idle rate-limit buckets keeps the bound, and goes unnoticed, if and only if `60 * perSecond >= burst` or
  `burst < 1`. The defaults satisfy it; for every other setting there is a run that is allowed too much
  (`Eviction.EvictionExactly`).

## Model

| member | source | states |
|---|---|---|
| `BitWalk.ComputeSplit` | packages/receipts/src/log.ts:25-30 | The doubling loop returns Split(n), characterised by the next two rows as the one power of two k with k < n <= 2k. |
| `BitWalk.SplitUnique` | packages/receipts/src/log.ts:25-30 | Any power of two k with k < n <= 2k is the split point: the loop's result is determined by that property alone. |
| `BitWalk.PowerTestMeans` | packages/receipts/src/log.ts:92 | What the 32-bit test `(n & (n - 1)) === 0` decides, for every n >= 1: the low 32 bits are zero or a power of two. |
| `BitWalk.MisjudgedExactly` | packages/receipts/src/log.ts:92 | The test is wrong about "n is a power of two" exactly for non-powers above 2^32 whose low 32 bits are zero or a power of two, and then always by saying yes. |
| `BitWalk.FirstMisjudgedSize` | packages/receipts/src/log.ts:92 | 2^32 + 1 is misjudged and no smaller size is. |
| `BitWalk.WalkIsPathSides` | packages/receipts/src/log.ts:129-152 | Agreement of the two directions: the left/right sides the inclusion loop reads from the bits of (index, size - 1), leaf upwards, are the splits the recursive path takes from the root downwards. |
| `BitWalk.WalkIsSubproofSides` | packages/receipts/src/log.ts:86-117 | The same for consistency: after stripping trailing ones, the loop's bits are the splits of the recursive subproof. |
| `BitWalk.LeftSpineIffPow2` | packages/receipts/src/log.ts:86-98 | The older tree hangs on the left spine of the newer one (so that the proof must be given the older root) if and only if the older size is a power of two. |
| `Hashing.NodeHashExact` | packages/receipts/src/log.ts:23 | Two nodes are equal exactly when what they join is equal once concatenated, wherever it was cut. |
| `Hashing.NodeHashSplits` | packages/receipts/src/log.ts:23 | Where one of the two parts has the length of a digest, the parts of a node over two digests are fixed. |
| `Merkle.MthInjective` | packages/receipts/src/log.ts:43-57 | Lists of equal length with equal roots are equal, whatever 32 bytes the leaves are. |
| `Merkle.RootFixesLog` | packages/receipts/src/log.ts:15-57 | A root fixes the log it is the root of, its length included: the roots of two lists of contents are equal if and only if the lists are, which rests on the prefixes that set leaves and nodes apart. |
| `Climbing.ClimbExact` | packages/receipts/src/log.ts:129-152 | From any leaf hash and byte strings of any lengths, a climb along a leaf's sides reaches the root if and only if it starts at that leaf and uses exactly that leaf's path. |
| `Climbing.LowestIsRight` | packages/receipts/src/log.ts:95-113 | The first hash of a consistency walk is always joined on its right, so only the cut between the first two can move. |
| `Climbing.ConsistencyClimbExact` | packages/receipts/src/log.ts:99-116 | For byte strings of any lengths: a climb along the consistency sides reaches the newer root if and only if the strings are the subproof's hashes, but for where the first two are cut apart. |
| `Climbing.OldRootRebuilt` | packages/receipts/src/log.ts:99-116 | From such strings, joining on the left only makes the root of the first m leaves with the first string in the place of their last complete subtree. |
| `Climbing.PatchedExact` | packages/receipts/src/log.ts:99-116 | That is the true root of the first m leaves if and only if the first string is the honest first hash. |
| `Climbing.PatchedIsRoot` | packages/receipts/src/log.ts:99-116 | It is the root of any list of m leaves at all only if the first string is as long as a digest. |
| `Merkle.SubproofOmitsOldRoot` | packages/receipts/src/log.ts:64-69 | With b true the subproof leaves out the older root exactly when it would have come first. |
| `Proofs.VerifyInclusion` | packages/receipts/src/log.ts:129-152 | The loop over fn, sn and r accepts exactly when the index is in range, the number of hashes is the length of the walk, and the climb ends at the root; the walk is tied to the recursive definitions by InclusionExact. |
| `Proofs.VerifyConsistency` | packages/receipts/src/log.ts:86-117 | The loop over fn, sn, fr and sr, with all its early returns, accepts exactly when both climbs end at their roots; tied to the recursive definitions by ConsistencyExact. |
| `Proofs.ClimbBoth` | packages/receipts/src/log.ts:99-116 | The main loop alone, from any starting position of fn and sn. |
| `Proofs.InclusionExact` | packages/receipts/src/log.ts:129-152 | Completeness and soundness for all inputs, hashes of any length: against the root of d, (leaf hash, index, hashes) is accepted if and only if the index is in range, the leaf is d[index], and the hashes are its path. |
| `Proofs.ConsistencyExact` | packages/receipts/src/log.ts:86-117 | For all inputs, proof entries and roots of any length: against the root of d, the verifier accepts if and only if the older size is in range and: for equal sizes the roots are equal and the proof empty; for size 0 the proof is empty; otherwise m is not misjudged, the strings are the generator's hashes but for where the first two are cut apart, and the older root is what the first piece makes. |
| `Proofs.DigestProofExact` | packages/receipts/src/log.ts:64-117 | If every proof entry is as long as a digest, that is: the proof is the one the generator gives, and the older root that of the first m leaves (any root when m is 0 and d is not empty). |
| `Proofs.OldRootTrueExactly` | packages/receipts/src/log.ts:91-117 | Of an accepted proper prefix: the older root is the true one if and only if the first hash the loop runs over is as long as a digest. |
| `Proofs.FalseRootAccepted` | packages/receipts/src/log.ts:91-117 | For every list and every proper non-empty prefix of a size judged rightly, and every cut but the honest one, a proof and a false older root that the verifier accepts against the true newer root. |
| `Proofs.ConsistencySound` | packages/receipts/src/log.ts:86-117 | No bound on sizes or lengths: if anything is accepted against the root of d, any list behind the older root is a prefix of d. |
| `Proofs.MisjudgedRejectsAll` | packages/receipts/src/log.ts:92 | For a misjudged older size every proof is refused, the honest one included; the failure is one of completeness only. |
| `Proofs.HonestProofRefused` | packages/receipts/src/log.ts:78-117 | Every log of more than 2^32 + 1 leaves has an honest proof that its own verifier refuses. |
| `SubtreeCache.FaithfulAsListGrows` | packages/receipts/src/log.ts:32-42 | No cached entry goes stale when the leaf list grows. |
| `SubtreeCache.MthRunCorrect` | packages/receipts/src/log.ts:43-57 | From any faithful cache, the memoised hash of a range is the plain recursion on it, and the cache stays faithful. |
| `SubtreeCache.PathRunCorrect` | packages/receipts/src/log.ts:58-63 | The same for the memoised path. |
| `SubtreeCache.SubproofRunCorrect` | packages/receipts/src/log.ts:64-69 | The same for the memoised subproof. |
| `SubtreeCache.Cache.Mth` | packages/receipts/src/log.ts:43-57 | The method: result, the map it leaves, and the node hashes computed are those of the run function. |
| `SubtreeCache.Cache.Path` | packages/receipts/src/log.ts:58-63 | The method against its run function. |
| `SubtreeCache.Cache.Subproof` | packages/receipts/src/log.ts:64-69 | The method against its run function. |
| `AppendCost.WarmAppend` | packages/receipts/src/log.ts:32-63 | If every aligned power-of-two range of the first n - 1 leaves is cached, the append reaching n computes exactly FreshCost(n) node hashes and leaves every such range of n leaves cached. |
| `AppendCost.FreshCostClosedForm` | packages/receipts/src/log.ts:32-36 | That cost is trailing-zeros(n) + popcount(n) - 1. |
| `AppendCost.FreshCostLogarithmic` | packages/receipts/src/log.ts:32-36 | That cost is at most floor(log2 n). |
| `MerkleLog.CacheNeverShows` | packages/receipts/src/log.ts:154-216 | Over any interleaving of appends and queries on a log loaded from any file, each answer is the plain recursion on the lines at that moment. |
| `MerkleLog.AppendCostExact` | packages/receipts/src/log.ts:200-204 | In a log grown from empty with any queries in between, the append that reaches size n computes exactly trailing-zeros(n) + popcount(n) - 1 node hashes, at most floor(log2 n). |
| `MerkleLog.AppendProvesItsLeaf` | packages/receipts/src/log.ts:184-204 | The proof returned by an append is accepted for that leaf and no other. |
| `MerkleLog.OwnProofsAccepted` | packages/receipts/src/log.ts:206-216 | A log's consistency answers are accepted against its own roots if and only if the older size is not misjudged. |
| `MerkleLog.ReloadAnswersAlike` | packages/receipts/src/log.ts:159-173 | A log reloaded from its file answers as the one that wrote it. |
| `MerkleLog.PruningChangesNothing` | packages/receipts/src/log.ts:164-169 | Replacing leaves of the file by their hashes changes no answer. |
| `MerkleLog.MerkleLog.Append` | packages/receipts/src/log.ts:184-204 | The method against the step function of the log. |
| `MerkleLog.MerkleLog.Root` | packages/receipts/src/log.ts:206-209 | The method against the step function, out-of-range sizes included. |
| `MerkleLog.MerkleLog.Consistency` | packages/receipts/src/log.ts:211-216 | The method against the step function, out-of-range sizes included. |
| `PostgresLog.CommitExact` | packages/receipts/src/log-store.ts:161-179 | From any instance whose list is a prefix of a gap-free table: the row lands at the end or nowhere according to how the transaction ends, an answered append is the sequential log's, the primary key never collides, and the instance is a prefix again. |
| `PostgresLog.ReadExact` | packages/receipts/src/log-store.ts:150-210 | A read on any such instance answers from the whole table as it stands. |
| `PostgresLog.ManyInstancesOneLog` | packages/receipts/src/log-store.ts:114-210 | Any number of instances and any order of commits, rollbacks before or after the reload, lost commit answers and reads: rows stay 0..n-1 without gaps, every instance is a prefix of the table, and each event adds and answers what one sequential log would. |
| `PostgresLog.PostgresLog.CatchUp` | packages/receipts/src/log-store.ts:150-154 | The method re-reads the table exactly when the counts differ, replacing list and cache together. |
| `PostgresLog.PostgresLog.Commit` | packages/receipts/src/log-store.ts:161-179 | The method against the step function: table, instance and answer. |
| `PostgresLog.PostgresLog.Root` | packages/receipts/src/log-store.ts:195-200 | The method against the step function. |
| `PostgresLog.PostgresLog.Consistency` | packages/receipts/src/log-store.ts:202-208 | The method against the step function. |
| `Pae.EncodeInjective` | packages/receipts/src/crypto.ts:92-95 | The signed bytes determine payload type and payload, which is why a signature here may be taken to name both. |
| `Wire.RunDsseVerify` | packages/receipts/src/crypto.ts:132-152 | The loop: the first signature by a trusted key decides; a later good one does not help. |
| `Wire.GoodMeansSigned` | packages/receipts/src/crypto.ts:132-152 | A good verdict names a trusted key that signed exactly this payload under this type. |
| `Wire.FirstTrustedDecides` | packages/receipts/src/crypto.ts:132-152 | A verdict is good if and only if the first signature by a trusted key is one over this payload under this type; a later one does not help, and one by a key that is not trusted does no harm. |
| `Wire.VerifiersExact` | packages/receipts/src/crypto.ts:114-125 | The keys said to have signed are exactly the trusted ones with a signature over this payload under this type. |
| `Wire.SignThenVerify` | packages/receipts/src/crypto.ts:97-105 | What a key signs verifies if and only if the verifier trusts the key. |
| `Wire.CountersignAddsOne` | packages/receipts/src/crypto.ts:107-125 | A countersignature leaves payload and type alone, adds its key to those that signed them, takes no other away, and changes no verdict for those who do not trust it. |
| `Witness.Witness.Judgement` | packages/receipts/src/witness.ts:131-147 | All branches of one look at a checkpoint, in order, with the proof checked by the loop above; what they come to over all runs is stated by EveryLook and ForkRaisesAlarm. |
| `Witness.Witness.WitnessOne` | packages/receipts/src/witness.ts:131-165 | One tenant's pass changes that tenant's folder as Write says and no other. |
| `Witness.Witness.RunOnce` | packages/receipts/src/witness.ts:109-129 | One pass: the files left on disk and the outcomes reported, input by input, and nothing at all when the key document cannot be read. |
| `Witness.RunPassesKeep` | packages/receipts/src/witness.ts:109-157 | Over any passes against arbitrary keys, checkpoints and proofs: each folder's records form a chain of accepted extensions countersigned by this witness, and its state is the last of them; and if only proofs of digests are served, all were accepted on such proofs. |
| `Witness.EarlierRootsFixed` | packages/receipts/src/witness.ts:138-155 | Where only proofs of digests were accepted, leaves behind one countersigned head fix the root of every earlier non-empty one as that of their prefix. |
| `Witness.WitnessSafety` | packages/receipts/src/witness.ts:109-157 | After any run of passes, two records of one folder have increasing sizes and one log id; and two readers holding leaves behind them hold a prefix and its extension, if the heads were signed one after the other or all proofs served were of digests. |
| `Witness.EveryLook` | packages/receipts/src/witness.ts:109-187 | Wherever in a pass of any run a look comes: its report is the one the tenant's countersigned records call for (a first head, a larger one with an accepted proof, the same one again, a larger one without a proof, anything else), a signed head is recorded with the countersigned envelope, a refusal adds one alarm, and no other folder changes. |
| `Witness.ForkRaisesAlarm` | packages/receipts/src/witness.ts:131-187 | A log that shows two histories is found out: after any run, a served head of another log, of a smaller size, of the same size with another root, or with lists behind it and the last signed head that do not nest, is refused once a proof is fetched, and so is anything no given key signed as a tree head; the refusal leaves one more alarm and no other change. |
| `WitnessGap.WitnessFooled` | packages/receipts/src/witness.ts:138-155 | For any eight leaves, a run of three passes in which the witness signs heads of five, six and eight leaves, and lists stand behind the first and the last of which neither contains the other; a piece cut from two digests makes the middle root. |
| `WitnessGap.ListsNestExactly` | packages/receipts/src/witness.ts:109-157 | Over all runs, lists behind the heads a witness has signed nest if and only if only proofs of digests are let through to it. |
| `Checkpoints.SaveReaches` | packages/receipts/src/checkpoints.ts:39-44 | A save no smaller than what a store holds brings the store, directory or table, to its size. |
| `Checkpoints.SaveIsIdempotent` | packages/receipts/src/checkpoints.ts:74-77 | Saving twice is saving once, in a directory and in a table. |
| `Checkpoints.TableNeverFallsBack` | packages/receipts/src/checkpoints.ts:74-86 | Whatever is saved and in whatever order, a table's latest size does not fall. |
| `Checkpoints.DirectoryExactly` | packages/receipts/src/checkpoints.ts:39-44 | After any saves, a directory has as its latest the last checkpoint saved, and under each size the last one of that size. |
| `Checkpoints.TableExactly` | packages/receipts/src/checkpoints.ts:74-77 | After any saves, a table has exactly one row for each size saved: the root the first save of that size gave it, whatever came after, with the time and envelope of the last save that agreed on it. |
| `Checkpoints.BothCheckpoints.SaveAll` | packages/receipts/src/checkpoints.ts:97-99 | Stores are written in turn; an exception leaves exactly those before it written. |
| `Checkpoints.BothCheckpoints.LatestOfAll` | packages/receipts/src/checkpoints.ts:101-109 | The loop returns the store furthest behind, or nothing as soon as one store has nothing. |
| `Checkpoints.BehindExactly` | packages/receipts/src/checkpoints.ts:90-109 | Asked together, stores answer with the latest checkpoint of the first of those furthest behind, if and only if each has one. |
| `Publication.CheckpointPublisher.PublishTenant` | packages/receipts/src/log-sink.ts:291-312 | One tenant's part of a publishing pass: what it saves, and that it reports a checkpoint exactly when one was due and every save succeeded. |
| `Publication.PassCatchesUp` | packages/receipts/src/log-sink.ts:291-312 | After a pass whose saves all succeed, every store has reached the size the pass read, including one that had missed writes. |
| `Publication.PublishesExactly` | packages/receipts/src/log-sink.ts:291-312 | A pass publishes if and only if the log is not empty and some store has nothing, or the one furthest behind is below the log's size or holds a checkpoint no younger than the heartbeat; and it publishes the log's size, root and id at that moment, signed by its key. |
| `Overlap.PassIsItsSteps` | packages/receipts/src/log-sink.ts:291-312 | A pass taken as one step, failing at any save or none, leaves the stores as its own steps do. |
| `Publication.LookExact` | packages/receipts/src/witness.ts:131-157 | In any state in which everything saved or signed is a head of this log: the witness refuses if and only if the store it reads has fallen below the head it last signed, or it is asked to extend a head of a misjudged size; and it countersigns, at the size the store has reached, if and only if it is served a checkpoint that is its first or larger than its last, with the proof, from a size judged rightly. |
| `Publication.AlarmExactly` | packages/receipts/src/log-sink.ts:291-319 | Over every interleaving of appends, passes with failing saves, overlapping or not, and looks, with any stores: the witness refuses an honest log if and only if the store it reads has fallen below the head it last signed, or it is asked to extend a head of a misjudged size. |
| `Publication.NoFalseAlarm` | packages/receipts/src/log-sink.ts:291-312 | Hence, where passes take turns or a table is read, it refuses exactly on a misjudged size, and never up to 2^32 + 1 leaves. |
| `Publication.FinishedPassReached` | packages/receipts/src/checkpoints.ts:90-109 | In every run with passes in turn, a pass whose saves have all succeeded leaves each store at the size it read, and a pass with nothing to do finds each store at the log's size. |
| `Overlap.FinishedPassInTables` | packages/receipts/src/checkpoints.ts:74-99 | However passes overlap, a pass whose saves have all succeeded leaves each table at the size it read or beyond. |
| `Overlap.OverlapRaisesAlarm` | packages/receipts/src/log-sink.ts:314-319 | For any stores of which the watched one is a directory, a run in which two overlapping passes put its latest.json back to a smaller size and the witness reports an honest log of two leaves as shrunk; the timer does not wait for the pass before. |
| `Overlap.OverlapHarmlessExactly` | packages/receipts/src/log-sink.ts:314-319 | For any stores, directories and tables: overlapping passes never cause an alarm on a log of at most 2^32 + 1 leaves if and only if the store the witness reads is a table. The code serves latest.json from a directory only. |
| `FactLog.SelectAboutExact` | packages/state/src/storage.ts:56-69 | For every log and query, asOf over the transitive in-memory selection equals asOf over every event up to txAt followed by the filters. |
| `FactLog.SelectSqlExact` | packages/state/src/storage.ts:138-149 | The same for the one-level selection of the SQL stores. |
| `FactLog.RetractionUndoes` | packages/state/src/ledger.ts:362-386 | Once b is retracted or forgotten, asOf equals asOf of the log with b's assert and every event about b deleted, whatever superseded b and whatever b superseded. |
| `FactLog.ScanIsTrack` | packages/state/src/ledger.ts:366-375 | What the loop's table holds of one id depends on that id's history alone. |
| `Beliefs.AsOfExactly` | packages/state/src/ledger.ts:361-386 | For every log, query and fact: asOf returns the fact if and only if it is the last assert of its id by txAt, attested where some confirmation by then is of its id, ending where its last replacement not withdrawn by then begins, itself not withdrawn by then, holding at validAt, of the space, subject and attribute asked for, and of the least provenance asked for in the order claimed, attested, verified. |
| `Beliefs.ConfirmationShows` | packages/state/src/ledger.ts:275-283 | After an accepted confirmation, a fact a read returned is returned attested, by that read and by the one that asks for attested facts, and in no other state. |
| `Beliefs.AssertShows` | packages/state/src/ledger.ts:231-257 | After an accepted assert, a read from its start on returns the fact field by field as it was given, unless its id had been withdrawn or it replaces itself. |
| `Beliefs.GetExactly` | packages/state/src/ledger.ts:388-422 | For every log and id: get returns the last assert of the id, ending where its last live replacement recorded after that begins, and nothing if and only if the id was never asserted. |
| `Beliefs.OperationExactly` | packages/state/src/ledger.ts:219-354 | For every log: an assert, retraction, confirmation, hold, release or erasure is carried out if and only if the history allows it (known, open and not withdrawn; claimed and not yet confirmed; on hold or not; not yet forgotten), and then records exactly what was asked, with the digest of the last value where one is kept; refused, it changes nothing. |
| `Ledger.SelectForExact` | packages/state/src/storage.ts:71-74 | The events of one fact answer every question about it as the whole log does: its value and interval, retraction, hold. |
| `Ledger.PastIsFixed` | packages/state/src/ledger.ts:336-386 | After any operations later than txAt, asOf at txAt returns the same facts in the same order, except that a fact forgotten by them shows the mark of its erased value in place. |
| `Ledger.KnownThen` | packages/state/src/ledger.ts:336-365 | With a clock that does not go back, what a ledger knows up to txAt is the ledger as it stood then, with the values forgotten since erased in it. |
| `Retention.HoldProtects` | packages/state/src/ledger.ts:286-345 | A fact put on hold and not released since stays so, with every assert of it untouched, through any run of operations, sweeps included, that does not release it. |
| `Retention.ForgetErases` | packages/state/src/ledger.ts:336-354 | Forgetting erases every assert of the fact, marking each, changes no other event, and appends the forget event with the same mark. |
| `Retention.SweepLeavesNothing` | packages/state/src/ledger.ts:309-328 | A sweep that finishes leaves every fact learned before the cutoff in its space on hold or erased. |
| `Retention.SweepFinishesExactly` | packages/state/src/ledger.ts:316-328 | In every ledger, a sweep finishes if and only if no fact that is not on hold was asserted twice before the cutoff in its space without being forgotten since; otherwise the second forget throws. |
| `Retention.SweepTouchesOnlyDue` | packages/state/src/ledger.ts:309-328 | A sweep, finished or not, changes nothing but the values of facts that are due and not on hold, and appends nothing but that these were forgotten. |
| `Retention.SweepFinishesIfFresh` | packages/state/src/ledger.ts:316-328 | With fresh ids a sweep always finishes. |
| `Superseders.AlwaysGrounded` | packages/state/src/ledger.ts:220-257 | In every ledger, whatever ids are used: a replacement comes after the fact it replaces and does not start before it, and asserts are recorded open-ended. |
| `Superseders.ForksExactly` | packages/state/src/ledger.ts:220-257 | In every ledger, an accepted assert brings about a second live superseder of a fact if and only if the fact was asserted again after, or by, the first one, and the new id is not already retracted. |
| `Superseders.OneLiveUnlessReopened` | packages/state/src/ledger.ts:220-257 | Over every run that never asserts an id which something live then supersedes, no fact has two live superseders; ids may otherwise be reused. |
| `Superseders.ReachableInv` | packages/state/src/ledger.ts:220-257 | In every ledger built with fresh ids: each fact asserted once, replacements after and not starting before what they replace, and at most one live superseder per fact. |
| `Supersession.ValidityTiles` | packages/state/src/ledger.ts:362-386 | By what the ledger knew at any txAt (with a clock that does not go back, or at a txAt past every event): along a supersession chain with no link retracted by then, exactly one member is believed at every instant from the first one's start on. |
| `Supersession.ViewsAgree` | packages/state/src/ledger.ts:361-422 | In every ledger, where get and facts agree on an id: asOf as of now returns a fact of that id if and only if get has one that is not retracted and whose interval contains the instant, and then returns that fact, up to the provenance a confirmation gives it. |
| `Supersession.ViewsAgreeExactly` | packages/state/src/ledger.ts:393-422 | In every ledger, whatever ids are used: get and facts agree on an id if and only if the last event that asserts it or supersedes it while live does not close it in one of the two only; get does not close a fact by its own assert, facts none with the empty id. |
| `Supersession.ApartIfFresh` | packages/state/src/ledger.ts:393-422 | With fresh ids they differ on the empty id alone, and exactly while something live supersedes it. |
| `Supersession.EmptyIdDisagrees` | packages/state/src/ledger.ts:401-419 | The failing runs: in every run that asserts a fact with the empty id and then replaces it, it is superseded for get and open for facts, because only one of them tests the id for truth. |
| `Supersession.SelfReplacedDisagrees` | packages/state/src/ledger.ts:393-422 | In every run that asserts a non-empty id and then replaces it by itself, the fact is open for get and ends where it starts for facts. |
| `Superseders.ReusedIdForks` | packages/state/src/ledger.ts:220-257 | Such runs exist, with any contents: an id asserted, superseded and asserted again is open for a second superseder, which is then live beside the first. |
| `Ledger.SweepSelectionExact` | packages/state/src/ledger.ts:310-313 | What a sweep learns from the store's selection before the cutoff is what it would learn from the whole log. |
| `LedgerStore.JsonlStore.MatchedIds` | packages/state/src/storage.ts:57-66 | The first loop collects the ids of the matched facts. |
| `LedgerStore.JsonlStore.CloseOver` | packages/state/src/storage.ts:67 | The second loop adds, in order, every fact that supersedes one already in the set. |
| `LedgerStore.JsonlStore.EventsAbout` | packages/state/src/storage.ts:56-69 | The three loops together return the transitive selection. |
| `LedgerStore.JsonlStore.EventsFor` | packages/state/src/storage.ts:72-74 | The filter returns the events of one fact. |
| `LedgerStore.JsonlStore.Append` | packages/state/src/storage.ts:104-108 | The store grows by the event at its end. |
| `LedgerStore.JsonlStore.EraseAsserts` | packages/state/src/ledger.ts:345-349 | The in-place rewrite changes the asserts of one fact, and in them the value and mark only. |
| `LedgerStore.Ledger.AsOf` | packages/state/src/ledger.ts:362-386 | The method, on the pushed-down selection, returns the full-scan answer, whose contents AsOfExactly gives. |
| `LedgerStore.Ledger.FactById` | packages/state/src/ledger.ts:415-422 | The loop over one fact's events returns the fact the specification describes. |
| `LedgerStore.Ledger.HeldNow` | packages/state/src/ledger.ts:286-290 | The last hold or release decides. |
| `LedgerStore.Ledger.Assert` | packages/state/src/ledger.ts:231-257 | Whole new store and acceptance, refusals leaving it unchanged. |
| `LedgerStore.Ledger.Retract` | packages/state/src/ledger.ts:259-273 | Likewise. |
| `LedgerStore.Ledger.Confirm` | packages/state/src/ledger.ts:275-283 | Likewise. |
| `LedgerStore.Ledger.Hold` | packages/state/src/ledger.ts:292-300 | Likewise. |
| `LedgerStore.Ledger.Release` | packages/state/src/ledger.ts:302-307 | Likewise. |
| `LedgerStore.Ledger.Forget` | packages/state/src/ledger.ts:336-354 | Likewise, with the erasure and the event. |
| `LedgerStore.Ledger.Sweep` | packages/state/src/ledger.ts:316-328 | The loop over what was learned before the cutoff, skipping held facts and stopping at one that cannot be forgotten, earlier erasures kept. |
| `Blast.BlastRadius` | packages/state/src/blast.ts:45-66 | The loop ends and returns exactly the least sets closed under "shown a fact" and "written in a receipt". |
| `Blast.ReachedExactly` | packages/state/src/blast.ts:45-66 | What the loop returns is what chains reach: a fact if and only if a chain of facts from the root ends at it, each written in a call made in view of the one before; a receipt if and only if its call was shown the root or such a fact. |
| `Blast.OrderIsIrrelevant` | packages/state/src/blast.ts:45-66 | Two least closures over the same receipts and facts are equal, so order and repetition in the lists do not matter. |
| `Delegation.AcceptedExactly` | packages/receipts/src/delegation.ts:18-126 | A grant is accepted if and only if its chain has at most 4 links, all complete, the first signed by a trusted key, each embedding the one above, signed by the key that names, with its principal, none but its scopes, and a window inside its window; reported are the last grant, the first one's signer and all links. |
| `Delegation.DelegationNarrows` | packages/receipts/src/delegation.ts:98-132 | An accepted chain has at most 4 links with one principal, each signed by the key its parent names, and every scope and every valid instant of the leaf belongs to each ancestor. |
| `Delegation.DelegateFromAccepted` | packages/receipts/src/delegation.ts:68-126 | Below an accepted grant, what delegateFrom returns is accepted as the grant asked for, field by field with the defaults of those left out, at the end of a chain one longer, exactly while the chain has fewer than 4 links; and what it refuses to sign no verifier would accept if it were signed. |
| `Delegation.DelegateFrom` | packages/receipts/src/delegation.ts:68-80 | For any parent: a grant is returned if and only if the parent is a complete grant that names the caller's key, the scopes asked for are some of its scopes and at least one, the window lies inside its window, and the sub-agent has a name; it is then signed by that key and is the grant asked for. |
| `Verify.VerifyBundle` | packages/receipts/src/verify.ts:38-148 | The checks collected in order all pass if and only if the bundle has everything Holds asks, which VerifiedIsLogged, VerifiedNamesTheAgent and VerifiedEvidence give in terms of the receipt's own fields; the statement is returned exactly when signature and type are right. |
| `Verify.CheckGrant` | packages/receipts/src/verify.ts:64-82 | Grant checks: chain accepted, principal and agent bound, window, scope of a call that ran; or a claimed principal without a grant. |
| `Verify.CheckPolicy` | packages/receipts/src/verify.ts:97-102 | Policy checks: an enforced deny beside a denied call and nowhere else, no errors on an allow. |
| `Verify.CheckAuthorization` | packages/receipts/src/verify.ts:105-127 | Authorization checks: same signer, same call, allowed, in the log, earlier leaf and no larger tree than the receipt's. |
| `Verify.CheckTreeHead` | packages/receipts/src/verify.ts:128-146 | Tree head checks: signature and type, expected log, size, inclusion by the verifier's loop, and a copy of the log where one is given. |
| `Verify.VerifiedIsLogged` | packages/receipts/src/verify.ts:38-148 | A verified receipt, against true heads of one growing log: it is the leaf at its index and no other envelope can be, under a head signed by a trusted key of the log expected; its arguments have the digest it names; a verifier's copy of the log begins with that log; a committed authorization is a leaf strictly before it, signed by the same key, of the same receipt id, tool, arguments, agent and principal, allowed. |
| `Verify.VerifiedNamesTheAgent` | packages/receipts/src/verify.ts:53-102 | A verified receipt names as the agent the one a sound chain's last grant names, inside its window, for the principal its first signer attests, or only claims a principal where it carries no grant; and it is of a denied call if and only if an enforced policy denied it. |
| `Verify.VerifiedEvidence` | packages/receipts/src/verify.ts:85-96 | Upstream evidence in a verified receipt, for a verifier with the means to judge it: a trusted upstream key signed this receipt id, tool, content and error flag, or the delivery passes the secret's check for this result. |
| `Verify.VerifiedWasPermitted` | packages/receipts/src/verify.ts:59-102 | A verified gateway receipt of a call that ran: every grant up the chain held the tool and was in its window, and the policy allowed it without errors or was not being enforced. |
| `Verify.AuthorizationElsewhere` | packages/receipts/src/verify.ts:27 | The comment promises that every tree head must name the expected log; the code asks it of the receipt's head only. For every expected log, every other log and every verifier with an issuer key and no copy of the log, a bundle it accepts whose authorization sits in the other log. |
| `Verify.LogIdCheckedExactly` | packages/receipts/src/verify.ts:105-146 | For every such verifier: all accepted bundles that carry an authorization, or all that carry none, name the expected log in every head if and only if they carry none. |
| `Verify.AuditExtends` | packages/receipts/src/verify.ts:166-190 | The audit of two heads passes exactly when both are signed heads of one log (the expected one if given), the sizes are in order, the proof is accepted, and a witness signed if any was asked for. |
| `Verify.AuditSound` | packages/receipts/src/verify.ts:156-190 | After a passed audit against the true newer head, any list behind the older head is a prefix. |
| `Verify.AuditExactly` | packages/receipts/src/verify.ts:166-190 | Of two heads of lists that are not empty, with the proof the log gives: the audit passes if and only if both are signed and name one log, the expected one if given, the older list is a prefix of the newer one of a size not misjudged, and some witness key signed the newer head where any is asked for. |
| `Gateway.ResolveArgs` | packages/receipts/src/gateway.ts:47-63 | Lookup arguments: all templates filled, or nothing as soon as a named call argument is missing. |
| `Hosting.ClaimTools` | packages/receipts/src/gateway.ts:130-154 | Each tool gets one owner: the loops over upstreams and their tools fail exactly when some tool is offered twice. |
| `Hosting.Connect` | packages/receipts/src/gateway.ts:120-180 | A host starts and a session opens if and only if no lookup uses a tool precommit names, no tool is listed twice, and the grant is accepted and inside its window now; the session is the grant's. |
| `Gateway.LogSink.Append` | packages/receipts/src/log-sink.ts:31-57 | The leaf goes in after whatever others appended, and the answer is the log's own, signed with its key; on a refusal nothing is returned. |
| `Gateway.Gateway.GatherFacts` | packages/receipts/src/gateway.ts:162-173 | The lookup loop: in configured order, optional ones skipped, the first failure ending it with no facts kept. |
| `Gateway.Gateway.NoteServedFacts` | packages/receipts/src/gateway.ts:182-188 | Ids are added in order of first sight, once. |
| `Gateway.Gateway.HandleCall` | packages/receipts/src/gateway.ts:190-291 | One call, step by step: log, consumed list, reply, bundle and the order of what others can see, as Handle says; what Handle comes to, in the fields of host, session and environment, is stated by the Agreement rows. |
| `Agreement.RunSafe` | packages/receipts/src/gateway.ts:190-291 | Over every run in enforce mode, for every behaviour of lookups, policy, log and upstreams: a call goes out only in scope and, when precommit has its tool or the star, after an authorization of exactly that call is a leaf of the log, where it stays; a tool precommit names is never used for a lookup. |
| `Agreement.SentExactly` | packages/receipts/src/gateway.ts:190-262 | In both directions: a call is sent, once, if and only if some upstream lists its tool and either the mode is observe, or the tool is in scope, no lookup breaks, the policy allows without errors, and not (precommit covers the tool and the log refuses the authorization). |
| `Agreement.DecisionExactly` | packages/receipts/src/gateway.ts:205-223 | The decision on a receipt is an allow exactly for a permitted call, is enforced exactly in enforce mode, and has the policy's own reasons and errors if it was asked, some error if it was not. |
| `Agreement.LookupsExactly` | packages/receipts/src/gateway.ts:162-173 | The lookups a call causes: for a tool in scope each configured one that applies up to the first that breaks, with the arguments filled in; for any other tool none. |
| `Agreement.LogGrowsExactly` | packages/receipts/src/gateway.ts:239-277 | What a handled call adds to the log: the leaf of an authorization naming the call if it is permitted and covered by precommit, and the leaf of its receipt, each unless the log refuses and after what others appended; the receipt carries the authorization exactly if its leaf was taken. |
| `Agreement.RunAllowed` | packages/receipts/src/gateway.ts:205-223 | Over every such run, each call that goes out is one the agent made, in scope, with every lookup gone through and an allow without errors from the policy. |
| `Agreement.GatherExact` | packages/receipts/src/gateway.ts:162-173 | Gathering fails if and only if some lookup for the tool breaks it, and then no fact is kept; otherwise every fact is what its lookup returned for the resolved arguments, the last of a name winning, and none that applies is missing. |
| `Agreement.ReceiptFactsObserved` | packages/receipts/src/gateway.ts:200-234 | The facts a receipt lists are those observed for its call, or none when the tool is out of scope or a lookup failed. |
| `Agreement.ReceiptTellsTruth` | packages/receipts/src/gateway.ts:225-291 | In any mode, if the log takes the receipt: it is signed by the gateway, the last leaf, names this call, agent, principal and grant, and says what became of the call (what the upstream did if it was sent, else denied with the policy's reasons, withheld, or no upstream); and the agent gets the upstream's result if and only if the call was sent and answered. If the log refuses it, the agent gets no result. |
| `Agreement.ConsumedExact` | packages/receipts/src/gateway.ts:182-197 | After any calls of a session, the ids the next receipt lists as consumed are, without repeats, exactly those declared in the results of those calls, and none from its own call. |
| `Agreement.ReceivedInLog` | packages/receipts/src/issue.ts:37-45 | What the log answers for an appended envelope passes every log check of a verifier that trusts the log's key. |
| `Agreement.AuthorizationVerifies` | packages/receipts/src/issue.ts:30-47 | The authorization a receipt embeds passes all its checks against the place the receipt itself gets, whatever others append in between, and both tree heads name the gateway's log. |
| `Agreement.ReceiptVerifiesExactly` | packages/receipts/src/verify.ts:38-148 | Producer and checker agree: an issued receipt verifies if and only if the grant's window holds the call, a call that ran was in scope, upstream evidence passes, and the log is the expected one; every other check passes on every path and in both modes. |
| `Agreement.EnforcedReceiptVerifies` | packages/receipts/src/gateway.ts:190-291 | In enforce mode every receipt issued inside the grant's window verifies, for a verifier that expects this log and holds no means to judge upstream evidence. |
| `RateLimiter.RateLimiter.TakeOne` | packages/receipts/src/log-store.ts:523-535 | The method: buckets and verdict, with the eviction loop, as the step function says. |
| `RateLimiter.WindowBound` | packages/receipts/src/log-store.ts:513-536 | From any reachable state, the takes of one key allowed in any stretch of a run number at most burst + perSecond * t: for any limits of a limiter that drops nothing, and for one that drops idle buckets wherever EvictionExactly says it can hold. |
| `RateLimiter.StepLevel` | packages/receipts/src/log-store.ts:524-534 | A take spends exactly one token of its own key if allowed, none otherwise, none of any other key's, and never goes below zero: for any limits where nothing is dropped, and with dropping wherever it is harmless. |
| `RateLimiter.AllowedFromLevel` | packages/receipts/src/log-store.ts:523-531 | More precisely, and for the same limits: at most what the bucket held at the first take plus what arrived up to the last. |
| `RateLimiter.ForgettingUnseen` | packages/receipts/src/log-store.ts:533 | If a minute refills a burst, or no burst holds a whole token, a limiter that drops idle buckets answers every take as one that never does. |
| `Eviction.BadRunBreaks` | packages/receipts/src/log-store.ts:523-535 | For every other setting, one run from an empty limiter that drops idle buckets: it empties a bucket, leaves it idle for just over a minute, brings in enough other keys to have it dropped, and empties it again. It is allowed more than burst + perSecond * t, and answered differently from a limiter that drops nothing. |
| `Eviction.EvictionExactly` | packages/receipts/src/log-store.ts:513-536 | Over all runs from an empty limiter that drops idle buckets, the bound holds for every key in every stretch if and only if 60 * perSecond >= burst or burst < 1; and exactly then every run is answered as by a limiter that drops nothing. |

## Left out

- Hashing, signing, PEM, base64 and JSON text: hashes and signatures are free terms, and payloads travel as values.
- Hex text: roots and proof entries are byte strings of any length. Text that is not hex decodes to a shorter string, which is covered; a root that is not the lower-case hex of its bytes never equals a computed one, and is not told apart from its bytes in the branches that compare the two given roots.
- `Proofs.InclusionExact`: the leaf is 32 bytes, as every caller gives it; the function would take others.
- Sizes and indexes are integers without a bound; a JavaScript number is exact up to 2^53 only. The one place where the code's integer width shows below that, the 32-bit power-of-two test, is modelled as it is.
- Tree heads and other payloads with missing fields or fields of the wrong type, and envelopes that are not objects: payloads here have the type their predicate names or are other text, and other text fails the checks that read it.
- Messages and details: failures carry a short text or a reason, reports and check details are not modelled; the names of the checks are kept but no theorem is about them.
- Crashes between the witness's three file writes and overlapping `runOnce` passes: one look at one tenant is one step. A `state.json` that is lost reads as a first contact, as in the code, and ends what the witness can promise about earlier heads.
- Interleaving inside one `PostgresLog` instance: its commit, and each of its reads, is one step; different instances interleave freely. A commit whose answer is lost is included.
- A checkpoint pass reads size, latest checkpoint and root in one step and saves store by store; several tenants in one pass are one after another.
- `Publication.FinishedPassReached`: assumes passes in turn, because a directory can fall back; tables need no such assumption (`Overlap.FinishedPassInTables`).
- `Verify.LogIdCheckedExactly`: leaves out verifiers that hold a copy of the log, for whom the receipts in question are those in their copy, and verifiers without an issuer key, who accept nothing.
- `RateLimiter.WindowBound`: for rates and bursts that are not negative; the options are not validated by the code, and a negative burst makes the stated bound negative.
- Retries of the HTTP log client, tokens, quotas and timeouts: a refused or unanswered append may leave anything in the log, this leaf included, which covers a retry that appended twice.
- A log that answers an append with a false proof or head: the gateway does not check the answer, so its receipts are only as good as the log; here the log behind the gateway answers as the modelled log does.
- Concurrent calls in one gateway session: calls are handled one at a time, while other writers of the log come in between every two of its steps.
- The policy engine: an answer given per call, with the code's rule that a failure, an error or a crash is a deny.
- Fields nobody checks: result digests, session, model, versions, the upstream a tool belongs to, the subject's name, exporters, and the files the issuer writes.
- The provider-delivery check of `upstream.ts` is an opaque predicate of the verifier's; the upstream-signature check is modelled.
- `Wire.RunDsseVerify`: does not tell a malformed envelope from one without a trusted signature; both are refused.
- Floating point: the rate limiter's arithmetic is over real numbers, without rounding.
- Clock readings: a ledger operation and a handled call read the clock once; timestamps are integers, and only their order matters.
- Event ids: `replaceAssert` addresses events by a random id taken to be unique, so erasing a fact rewrites its asserts together.
- SQL text and indexes: the one-level selection is modelled by what it selects, and raw event lists of the two selections are not claimed equal, only what is read from them.
- External identifiers, confidence, reasons and sources other than the receipt id in ledger events, and the digest bytes of a forgotten value.
- Concurrent callers of one ledger: operations run one at a time.
- "At most one belief per chain" after a middle link is retracted, which is false by design: `Supersession.ValidityTiles` is about chains without a retracted link.
- The bundle verifier of the web page, HTTP servers, the sidecar, exporters, the command line, the SDK adapters and the admin pages.
