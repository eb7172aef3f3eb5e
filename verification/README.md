# A verified model of the beacon log

The repository runs a public randomness beacon and a write-once decision log. This project models
its decision-making code in Dafny and proves what the code is for. Every result holds for all
inputs and, where parties keep state, for all runs.

* **Merkle log.** `Hashing`, `MerkleTree`, `Inclusion`, `Consistency`, `TLog` and `AnchorLib` hold
  the recursive provers (section 2.1 of RFC 6962) and the bit-shifting loop verifiers (sections
  2.1.3.2 and 2.1.4.2 of RFC 9162). The two are connected one tree level at a time: pairing
  neighbours keeps the root, an audit path is a sibling followed by the path one level up, and the
  `fn`/`sn` pair of a verifier is a node and the last node of the level it has reached. `Archive`
  holds the bottom-up builder and its proofs.
* **Parties that keep a head.** `Witness`, `OwnHead`, `Client`, `Publisher` and `Mirror`.
* **Decision log.** `DecisionLog` is the table under any interleaving of submits, lookups and
  checkpoint requests, one database statement a step; `Submissions` says what a submission is answered
  with, `Receipts` and `Authority` what clients make of it, and `EndToEnd` follows a log, its mirror and an
  offline client through a whole run.
* **Custody.** `EntropyHost` is the host. `Custody` cuts every aggregator command at its host
  calls, each of which may not arrive, lose its reply, or be answered, with a crash possible
  anywhere, and proves one inductive invariant. A publish is a git commit and a push, and the push can
  fail on its own. `CustodyRuns`, `CustodyTimes`, `CustodyRecords`, `CustodyProgress` and `CustodyRecovery`
  say what it means over whole runs, from the checkout as a crash leaves it, with the wall clock and the reveal deadline in the
  events; a run may include an operator who pushes or resets the checkout by hand, and what can still
  happen is always said of the program's own commands. `Pulse` and `Cycle` hold the commands and the hourly cycle as imperative code: a command
  is a sequence of those events, and a phase of the cycle carries out exactly its plan, the events it
  issues in that order. `CycleProgress` proves that the plan reaches its goal when it is answered, that it
  leaves no commit unresolved and no refusal unpublished, and when one cycle gets out what an earlier
  one could not push.
* **Canonical text.** `JsonValues`, `Canonical` and `CanonicalText` hold normalisation, checking and
  the canonical encoding (section 3.2 of RFC 8785); `Normalizing` says what they do to each part of a
  value, and `JsonReader` is a reader written from the grammar of JSON (RFC 8259) that reads every
  canonical text back. `Template` holds the prebuilt datagram printer,
  `TemplateExact`, `TemplateMarks` and `TemplateForms` say exactly when its text is the fresh one, and
  `Cadence` and `CadenceReads` apply them to the trigger statement and its eleven sentinels.
* **Consumers.** `Derive` (seeded bytes, ranges, shuffles), `CommitBound` (the pre-round rule as a walk)
  and `CommitRule` (what its answers mean).

Where a result is about a constant of the program, the number is written out in the statement.

The hash is a parameter `H` from byte strings to 32-byte strings. Nothing is assumed about it; a
soundness result ends in "or `CollisionIn(H, S)`", where `S` is the finite set of strings hashed by
the parties named in the statement. Signatures are booleans or predicates.

## What the proofs found

* `verify_consistency` accepts an old root that is not the prefix's root when its starting hash is
  not 32 bytes long, whatever the hash function (`TLog.WrongLengthRootAccepted`). With a 32-byte
  starting hash it never does (`TLog.StartingHashDecides` is the exact condition). A verifier that
  builds the proof from its own leaves is not affected (`TLog.OwnProofOldRoot`).
* `verify_inclusion` does not compare the index with the size. In a tree whose size is a power of two any
  integer is judged as its remainder (`TLog.IndexModuloSize`); its callers check the range first, and
  `Receipts.ReceiptIsOfTheTree` is the law of one of them.
* A contract submitted again under a statement that differs elsewhere is answered with the old
  entry, and the client's `verify_receipt` then rejects that answer (`Receipts.ReceiptsVerify` is the
  exact condition, `Receipts.ResubmissionIsRejected` a run).
* `_check_mirror` takes the first number of INDEX.json as it stands. A negative one names a file outside
  the tree, which no check then reads: under the genuine signed root, any leaf signed for the
  namespace as its first is answered as authoritative (`Authority.ForgedIndexAnswers`). The answer is about the least leaf of
  the namespace if and only if the number is not negative (`Authority.AnswerIsLeastIff`), and then one
  root never makes two contracts authoritative (`Authority.OneAuthority`).
* A commit pulse that was committed to git and whose push failed stalls the log: git shows nothing to
  publish, no skip can follow a commit, and every other command wants a synced checkout
  (`CustodyProgress.StalledForever`, `CustodyProgress.StallHappens`). That is the one way to stall
  (`CustodyProgress.GoesOnIff`). Any other pulse in that state leaves only with a skip minted while
  origin is out of reach (`CycleProgress.WaitingPulsesOutIff`).
* A host that signed a commit whose reply was lost, followed by two skip pulses with no successful
  recover in between, holds its secret below the head for good, and no commit statement is ever
  signed again (`CustodyRecovery.StrandingHappens`, `CustodyRecovery.StrandedForever`). The exact
  condition for going on is `CustodyRecovery.NextCommitIff`.
* A published commit can still be revealed exactly while the checkout holds a sealed reveal of it, or is
  synced with the reveal deadline not past and the host not abandoning
  (`CustodyProgress.CommitCanBeRevealedIff`). A sealed reveal is pushed however late. A published
  commit can always be resolved, and never stops the next one
  (`CustodyProgress.CommitCanAlwaysBeResolved`, `CustodyRecovery.CommitAfterCommit`).
* A head of size 0 is compared with nothing: a site checkpoint of size 0 is called consistent with
  any git head (`Client.SiteBehind`), and any larger site checkpoint is called consistent with a git
  head of size 0, its root unread (`Client.SiteInFront` is the exact condition).
* A row of the archive shares its leaf with another row if and only if its name or its sha text holds
  a NUL (`Archive.RowSharedIff`; `Archive.RowAmbiguous` is one such pair). If the listed rows hold
  none, a proof for any row names a listed one (`Archive.VerifiedRowIsListed`).
* `build_template` asserts that every sentinel has a slot, and its comment says each occurs once. The
  assertion holds whenever every sentinel is among the parts (`TemplateExact.AssertionMeans`); it does
  not see a second place. In the trigger statement it always holds
  (`Cadence.TemplateAssertionHolds`), and the datagram is right if and only if no sentinel is among the
  split parts of the values after its place (`Cadence.DatagramIsRightIff`). An epoch row with a TAI
  offset of -777777001, or of -7777770012, spoils the datagram of every event
  (`Cadence.LaterTwinBreaks`, `Cadence.TwinsFound`); a ring row's offset can make a sentinel stand twice
  and does no harm (`Cadence.EarlierTwinIsHarmless`).
* The witness keys its state by the origin with every unusual character replaced. Two origins share a
  head if and only if they have one length and differ only where both characters become an underscore
  (`Witness.SharedNameIff`; `Witness.SharedNameExample` is one such pair). A first request for the
  second origin is then refused with the first one's size (`Witness.FirstRequestAfter`).

## Model

| member | source | states |
|---|---|---|
| MerkleTree.LevelRoot | tlog.py:39-43 | pairing neighbours and promoting an odd last node leaves the recursive largest-power-of-two root unchanged, for every list of hashes |
| MerkleTree.PathLevel | tlog.py:45-49 | the recursive audit path is the sibling on the lowest level followed by the audit path one level up |
| MerkleTree.SplitPointUnique | tlog.py:33-36 | the split point is the only power of two k with k < n <= 2k |
| Inclusion.ClimbComplete | tlog.py:62-72 | the loop climbing the recursive audit path of any node reaches the recursive root |
| Inclusion.ClimbSound | tlog.py:62-72 | a climb of a 32-byte hash, along elements of any length, that reaches the root started at that node, or collision |
| Inclusion.ClimbUnique | tlog.py:62-72 | two climbs at one position and size with one result have the same start and the same path, or collision |
| Consistency.PowerOfTwoTest | tlog.py:78 | m & (m - 1) == 0 exactly for powers of two |
| Consistency.DoubleClimbSides | tlog.py:79-89 | the two-sided loop is the inclusion climb on the new side with the old side reading only the left siblings |
| Consistency.OldSideSound | tlog.py:79-89 | when the new side reaches a tree's root the old side has reached the root of exactly the nodes up to the start, or collision |
| Consistency.OldTreeSound | tlog.py:79-89 | when both sides reach roots of actual trees, the old tree is a prefix, or collision |
| Consistency.ProofShape | tlog.py:51-60 | the recursive consistency proof is the node on the first odd level, left out when it is the old root, followed by that node's audit path |
| TLog.LargestPow2Below | tlog.py:33-36 | the doubling loop returns the split point, the one power of two k with k < n <= 2k |
| TLog.MthMeans | tlog.py:30-43 | the root is the one of section 2.1 of RFC 6962, its two prefix bytes and its split written out |
| TLog.MthIsRoot | worker/decisions.js:39-43 | the Python root over leaves and the JavaScript root over leaf hashes are the same |
| TLog.InclusionPathIsPath | worker/decisions.js:44-49 | the Python and the JavaScript audit paths are the same |
| TLog.ConsistencyProofOverHashes | worker/decisions.js:50-56 | the Python and the JavaScript consistency proofs are the same |
| TLog.VerifyInclusion | tlog.py:62-72 | the loop over fn, sn, r answers exactly the climb predicate, for any index, size and path |
| TLog.VerifyConsistency | tlog.py:74-89 | the loop over fn, sn, fr, sr answers exactly the two-sided climb predicate; equal sizes, an empty old tree, a smaller new tree and an empty proof are answered as the code says |
| TLog.InclusionComplete | tlog.py:45-72 | every leaf's audit path is accepted against the tree's root |
| TLog.InclusionSound | tlog.py:62-72 | an accepted 32-byte leaf hash at index i is the hash of leaf i, for path elements of any length, or collision |
| TLog.InclusionSoundData | tlog.py:62-72 | data accepted at index i is leaf i, or collision |
| TLog.InclusionUnambiguous | tlog.py:62-72 | for any root, two accepted pairs of leaf hash and path at one index and size are equal, or collision |
| TLog.IndexModuloSize | tlog.py:62-72 | for every size that is a power of two, any integer index is judged as its remainder |
| TLog.ConsistencyComplete | tlog.py:51-89 | for every prefix, power-of-two sizes, zero and the whole included, the proof is accepted against both roots |
| TLog.ConsistencyExtends | tlog.py:74-89 | if the old root is a tree's root, that tree is a prefix of the new one, with nothing assumed of the proof, or collision |
| TLog.StartingHashDecides | tlog.py:74-89 | an accepted old root is the prefix's root if and only if the starting hash has 32 bytes, or collision |
| TLog.WrongLengthRootAccepted | tlog.py:74-89 | for every hash function and every two leaves some old root that is not the prefix's root is accepted |
| TLog.OwnProofOldRoot | tlog.py:238-242 | a verifier using the proof from its own leaves accepts only the prefix's root, or collision |
| TLog.OwnProofNewRoot | tlog.py:238-242 | given the prefix's root, such a verifier accepts exactly its own leaves' root |
| TLog.MthInjective | tlog.py:30-43 | one root determines the leaves, whatever the two sizes, or collision |
| AnchorLib.RootFromInclusion | ci/anchor_lib.py:133-145 | the second loop returns what the climb returns, None where the path runs past the root or stops short |
| AnchorLib.RootRecovered | ci/anchor_lib.py:133-145 | for every leaf's audit path it returns the tree's root |
| Witness.Witness.AddCheckpoint | witness/nbwitness.py:76-103 | each body gets exactly the status of the code's branches, in the request's own fields; only a signed body of a configured log is ever cosigned, and only a cosigned one moves the head and is remembered with its origin and signature |
| Witness.NeverBack | witness/nbwitness.py:93-103 | over every run cosigned sizes never decrease and one size is only cosigned with one root |
| Witness.EveryMoveSigned | witness/nbwitness.py:85-103 | over every run each checkpoint cosigned under an origin's name came with a valid signature of a configured log of that name, of that very log if no other shares the name |
| Witness.WitnessSafetyIff | witness/nbwitness.py:93-103 | if the head is the tree of some leaves, every checkpoint ever cosigned in the run is the tree of a prefix of them if and only if every accepted proof began with a 32-byte hash, or collision |
| Witness.RunningWitnessSafetyIff | witness/nbwitness.py:63-103 | the same for a running witness and any origin it has cosigned for |
| Witness.SharedNameIff | witness/nbwitness.py:57 | two origins have one state file if and only if they have one length and differ only where both characters become an underscore |
| Witness.FirstRequestAfter | witness/nbwitness.py:93-103 | after a checkpoint is cosigned for one origin, a first request for another is refused with that checkpoint's size when the names collide, and judged by its own head when they do not |
| OwnHead.MovesExtend | cli/notbefore/tlogcheck.py:137 | a head check with one's own proof passes for every extension, and passing means extension, or collision |
| OwnHead.HeadsArePrefixes | cli/notbefore/tlogcheck.py:130-145 | over a run every earlier head's leaves are a prefix of every later head's, or collision |
| OwnHead.EveryHeadRecomputes | cli/notbefore/tlogcheck.py:130-145 | every root ever kept is the root of that many of the newest leaves, or collision |
| Client.Client.Check | cli/notbefore/tlogcheck.py:87-145 | each status is given by the note, the pulses read and the cached head in plain terms, an unsigned note first; every asked pulse the checkpoint covers is proved included; the cached head moves only when everything passes |
| Client.ProveIncluded | cli/notbefore/tlogcheck.py:109-114 | one answer for each asked pulse in order: included where the checkpoint covers it, not yet provable elsewhere; an inclusion check never fails |
| Client.ClientRun | cli/notbefore/tlogcheck.py:103-145 | over every run the cached size never decreases and every cached head recomputes from the newest accepted leaves, or collision |
| Client.CheckDecidesPrefix | cli/notbefore/tlogcheck.py:130-142 | for a head that recomputes the answer is exactly whether the leaves seen before are a prefix, or collision |
| Client.SiteUncompared | cli/notbefore/tlogcheck.py:69-83 | nothing is compared exactly when the notes are the same, or the site is more than 12 pulses in front or in front by pulses that could not be had |
| Client.SiteBehind | cli/notbefore/tlogcheck.py:59-85 | a smaller site head called consistent is the root of a prefix, or collision; size 0 is never compared |
| Client.SiteInFront | cli/notbefore/tlogcheck.py:70-85 | a larger site head is called consistent exactly when the git head has size 0 or its root recomputes from the extended leaves |
| Publisher.Publisher.WriteCheckpoint | tlog.py:226-252 | a new head is written exactly when the own-proof check passes and something is new; a shorter chain is a rollback; no later refusal is reachable |
| Publisher.PublishedRun | tlog.py:236-252 | every checkpoint ever published recomputes from the newest chain, or collision |
| Publisher.WitnessSubmit | tlog.py:156-174 | at most two posts against a witness nobody else moves; a cosignature leaves it at this head, anything else leaves it as it was; it is stale exactly when the witness holds more; if the witness holds nothing or a non-empty prefix's head, it succeeds |
| Publisher.ReadyAnswers | witness/nbwitness.py:93-103 | such a witness cosigns for the size it holds and answers any other size with the one it holds |
| Archive.BuildLevels | merkle/merkle_proof.py:31-38 | the nested loops build exactly the levels of pairing with promotion |
| Archive.ArchiveRootIsMth | merkle/merkle_proof.py:31-42 | the bottom-up root is the recursive root over the same leaves, for every non-empty archive |
| Archive.Prove | merkle/merkle_proof.py:44-52 | the loop over the levels produces the path with an empty step wherever the node was promoted |
| Archive.ProofPathIsAuditPath | merkle/merkle_proof.py:47-52 | with the empty steps dropped the path is the recursive audit path of that index |
| Archive.ProofFolds | merkle/merkle_proof.py:65-71 | every produced path folds to the root |
| Archive.Verify | merkle/merkle_proof.py:65-71 | the loop answers whether the fold of the row's leaf reaches the root |
| Archive.ArchiveSound | merkle/merkle_proof.py:65-71 | data folding to the root, sides and skipped steps chosen freely, is listed, or collision |
| Archive.RowDetermined | merkle/merkle_proof.py:30 | a leaf determines name and sha when neither sha text has a NUL |
| Archive.RowSharedIff | merkle/merkle_proof.py:30 | some other row has the same leaf text if and only if the name or the sha text holds a NUL |
| Archive.VerifiedRowIsListed | merkle/merkle_proof.py:30-71 | if the listed rows hold no NUL, a valid proof for any row at all names a row of the archive, or collision |
| DecisionLog.ApplyKeeps | worker/decisions.js:95-128 | every single database step of any request keeps the invariant and changes no existing row |
| DecisionLog.RunKeeps | worker/decisions.js:107-128 | under any interleaving rows stay dense, each leaf's index is its row, each number is one more than the earlier rows of its namespace, stored checkpoints are signed roots of prefixes, and a submission is only answered from a leaf that reads back with its key id, decision id and contract |
| DecisionLog.RowsNeverChange | worker/decisions.js:107-128 | no row is ever changed or removed |
| DecisionLog.AuthoritativeNeverChanges | worker/decisions.js:107-128 | the entry numbered 1 of a namespace is its earliest row, the only one so numbered, and the same for ever |
| DecisionLog.LeastSeqIsEarliest | worker/decisions.js:181-185 | the first row of a lookup ordered by number is the earliest row of the namespace |
| Submissions.AnswerIsForTheSubmission | worker/decisions.js:107-128 | in every run an answered submission was posted and verifies, and its leaf is a row that reads back with the submitted key id, decision id and contract; a row made for it carries its statement, signature and attachments |
| Submissions.LookupFindsIff | worker/decisions.js:108-123 | in every run the lookup finds a row exactly if its leaf names this key id, decision id and contract, and finds nothing exactly if no leaf does; it then appends, at first and after three races, and gives up after the fourth |
| Submissions.NewContractIsAppended | worker/decisions.js:107-119 | a submission of a contract no leaf of the namespace names, undisturbed, adds exactly one row that carries it, with the next index and the next number, and changes no other |
| Submissions.InsertsIff | worker/decisions.js:117-125 | in every run an insert makes its row exactly if the table does not refuse it and no row was made since the count; otherwise nothing is made and the lookup comes again |
| Submissions.FourAttempts | worker/decisions.js:110-127 | in every run no submission has a fifth attempt, and one is given up only after four inserts |
| Receipts.ReceiptsVerify | cli/notbefore/decisionlog.py:104-121 | every receipt of any run verifies; against the submitted statement it verifies exactly when the entry carries that statement |
| Receipts.ReceiptIsOfTheTree | cli/notbefore/decisionlog.py:104-121 | a receipt that verifies, whoever sent it, has a signed note and shows the leaf at its index of the tree under the note's root, or collision; the leaf reads back at that index, its statement verifies and is the one submitted |
| Receipts.ReceiptOfLeafVerifies | cli/notbefore/decisionlog.py:104-121 | a receipt with the audit path of a leaf at its own index verifies, against that leaf's statement too |
| Receipts.ResubmissionIsRejected | worker/decisions.js:107-109 | a run in which the answer to a resubmission is rejected by the client |
| Mirror.IndexKeyInjective | decisions_mirror.py:76-78 | keys of 16-character key ids and decision ids are told apart by the joined index key |
| Mirror.IndexFirst | decisions_mirror.py:76-78 | a key is listed exactly when some leaf has it, and its first entry is the earliest such leaf |
| Mirror.Mirror.Sync | decisions_mirror.py:38-83 | entries only grow; success means a signed note, entries that recompute to it, and each entry reading back at its own index under a signature that verifies; an honest log always succeeds and is copied exactly |
| Mirror.Fetch | decisions_mirror.py:50-57 | the page loop ends with every leaf verified at its index, with an honest log's leaves, or with the first problem |
| Mirror.VerifyPage | decisions_mirror.py:28-36 | a page is good exactly when each of its leaves reads back at its own index with a key id and signature that verify |
| Mirror.BuildIndex | decisions_mirror.py:76-78 | the loop builds the namespace index of the leaves |
| Authority.CheckMirror | cli/notbefore/decisionlog.py:155-182 | the scan gives the code's answer on any set of mirror files, right or wrong, negative index numbers included |
| Authority.AnswerIsSigned | cli/notbefore/decisionlog.py:155-182 | an answer of authority from any checkout is about the leaf file listed first, signed under this key as the first of the namespace and carrying the contract exactly when it says so, beside a complete tree under the signed root, with every earlier file readable and of another namespace |
| Authority.AnswerIsLeastIff | cli/notbefore/decisionlog.py:155-182 | an answer of authority from any checkout is about the least leaf of the namespace in the tree under the signed root if and only if the number listed first is not negative |
| Authority.ForgedIndexAnswers | cli/notbefore/decisionlog.py:164-180 | beside any checkout with an answer, a negative number and a file of that number holding any leaf signed for the namespace as its first make that leaf authoritative under the same note |
| Authority.OneAuthority | cli/notbefore/decisionlog.py:155-182 | one root never makes two contracts authoritative for a namespace when neither index lists a negative number first, or collision |
| Authority.MirrorAnswersEarliest | cli/notbefore/decisionlog.py:155-182 | after any interleaved submits and a mirror run, authoritative exactly when the earliest row carries this contract |
| Authority.MirrorAnswersUnregistered | cli/notbefore/decisionlog.py:155-182 | not registered exactly when no mirrored row is of the namespace |
| Authority.RunServesHonestly | worker/decisions.js:99-106 | what the log serves after any run is what a mirror run needs to succeed |
| Authority.OnlineAnswerIsSigned | cli/notbefore/decisionlog.py:123-153 | an online answer of authority, whatever the server sends, is about the leaf at that index of the tree under the signed root, or collision; that leaf is signed under this key as the first of the namespace, and carries the contract exactly when the answer says so |
| Authority.LookupAnswersEarliest | cli/notbefore/decisionlog.py:123-153 | an online lookup of any run is answered from the earliest row of the namespace |
| EndToEnd.SyncAndAsk | decisions_mirror.py:38-83 | a mirror of an earlier state of the log syncs at a later one, and the offline client then answers from the earliest mirrored row |
| EndToEnd.MirrorAndAsk | cli/notbefore/decisionlog.py:155-182 | along any run every mirror run succeeds, every answer is that of the earliest mirrored row, and once some row answers the answer never changes |
| EntropyHost.Host.Commit | hosts/entropy_host.py:37-68 | one statement is signed and one secret stored, only if none is pending and the seq resolved no published commit |
| EntropyHost.Host.MustRefuse | hosts/entropy_host.py:70-83 | the four-state scan is the equivocation guard |
| EntropyHost.Host.FindFile | hosts/entropy_host.py:85-89 | the first listed state under which the seq has a file |
| EntropyHost.CommitSignsIff | hosts/entropy_host.py:37-83 | a commit is signed exactly when nothing is held and the seq resolved no published commit, and it adds that one file |
| EntropyHost.RolledBack | pulse.py:252-259 | abandoned and finalized against the zero hash, a seq is held no more and its E is gone |
| EntropyHost.Host.RevealPrepare | hosts/entropy_host.py:91-112 | the file moves to revealing before any check; a statement carries the E of that file, which opens its commitment, and only once the host has seen the target round |
| EntropyHost.Host.AbandonPrepare | hosts/entropy_host.py:114-123 | the failure is signed exactly when the seq is held in any of the three states, and the file moves to abandoning |
| EntropyHost.Host.Finalize | hosts/entropy_host.py:125-141 | exactly a seq being revealed or abandoned is finalized, to the record of its kind, without E and with the resolver; anything else changes nothing |
| Custody.CommitKeeps | hosts/entropy_host.py:37-68 | a signed statement means the seq was not blocked and its secret is now held; otherwise no file changed |
| Custody.FinalizeKeeps | hosts/entropy_host.py:125-141 | finalizing touches one seq and keeps it blocked when the resolver is a pulse |
| Custody.ApplyKeeps | pulse.py:211-457 | every event, lost replies and crashes included, keeps the custody invariant |
| Custody.RunKeeps | pulse.py:211-457 | the custody invariant holds in every state of every run |
| CustodyRuns.OneSecretAtATime | hosts/entropy_host.py:39-41 | in every state of every run the host holds at most one secret |
| CustodyRuns.UnresolvedCommitIsHeld | hosts/entropy_host.py:50-63 | a commit at the published or the local head still has an E that opens it |
| CustodyRuns.PublishedOnlyGrows | pulse.py:188-200 | nothing published is ever changed or taken back in a run |
| CustodyRuns.NoSecondStatement | hosts/entropy_host.py:70-83 | once a seq is public no later event of the run signs a commit statement for it |
| CustodyRuns.PublishedCommitIsFinal | hosts/entropy_host.py:70-83 | a published commit carries the last commitment signed for its seq and the host refuses another for any target and entropy |
| CustodyRuns.CountViolations | ci/verify_chain.py:53-57 | the loop's tally is the number of illegal steps of the chain |
| CustodyRuns.NoViolationsMeans | ci/verify_chain.py:53-57 | no violation exactly when every commit with a successor is followed by its resolver, resolvers follow only commits, and no old pulse follows a new one |
| CustodyRuns.RunChainIsLegal | ci/verify_chain.py:53-57 | every published chain of every run passes, and each reveal or failure names the pulse before it by number, hash and commitment |
| CustodyTimes.CommitsPrecedeTheirRound | pulse.py:248-249 | in every run each commit pulse is for a round that a commit command of the run targeted 50 seconds or more before 1692803367 + (round - 1) * 3 |
| CustodyTimes.RevealsFollowTheirRound | pulse.py:307-318 | in every run each reveal pulse opens the commit right before it, after the host had seen that round, in a command that started at most 600 seconds after it by either clock |
| CustodyRecords.EntropyOnlyWhilePending | hosts/entropy_host.py:125-141 | in every state of every run a file holds an E, one that opens its commitment, exactly while it is held, being revealed or being abandoned |
| CustodyRecords.RecordNamesItsResolver | hosts/entropy_host.py:125-141 | in every state of every run a finalized record stands for a commit that never entered the chain or names the published pulse right after its commit, a reveal if it says revealed and a failure if it says abandoned |
| CustodyProgress.CommitCanAlwaysBeResolved | beacon-cycle.py:73-88 | after any run, from the checkout a crash leaves, a published commit is resolved in public by the next commands: the push of the resolver the checkout holds, or a failure |
| CustodyProgress.RevealPublishesIff | pulse.py:302-352 | one answered attempt and push: on a synced checkout an opening of the head commit exactly when the round is out, neither clock is past the deadline and the host has not begun to abandon it; on any other the push of what was sealed before, if git sees it |
| CustodyProgress.NeverRevealed | pulse.py:307-318 | with no reveal of a public commit sealed in the checkout or under way, and the deadline past, the host abandoning, or another resolver sealed, no command publishes a reveal of it |
| CustodyProgress.CommitCanBeRevealedIff | pulse.py:302-352 | after any run and crash, from any time on, some continuation by the program's commands publishes a reveal of the head commit if and only if the checkout holds a sealed one, or is synced with the deadline not past and the host not abandoning |
| CustodyProgress.StalledForever | beacon-cycle.py:65-71 | a commit pulse in git whose push failed: no command ever changes anything at origin, in the checkout or on the host |
| CustodyProgress.StallHappens | beacon-cycle.py:65-71 | a run of the commands that stalls |
| CustodyProgress.GoesOnIff | beacon-cycle.py:252-257 | after any run some continuation publishes something if and only if it has not stalled |
| CustodyRecovery.RecoverClearsIff | pulse.py:398-432 | an answered recover or abort retires the held file exactly when its seq never entered the chain or its resolver is published; otherwise nothing changes |
| CustodyRecovery.StrandedForever | pulse.py:398-416 | with a leftover that recover will not clear no commit statement is ever signed again, whatever commands follow |
| CustodyRecovery.NextCommitIff | pulse.py:398-418 | after any run and crash, from any time on, some continuation by the program's commands signs another commit if and only if git would push an unresolved commit at the head of the checkout, or, with none there, recover clears whatever is held on the chain the checkout must publish first |
| CustodyRecovery.StrandingHappens | pulse.py:434-457 | a run of the commands that reaches such a leftover |
| CustodyRecovery.ResolvedCommitClears | pulse.py:355-396 | once a published commit is resolved, by failing it or by the push of a sealed resolver, nothing held is in the way of the next |
| CustodyRecovery.CommitAfterCommit | pulse.py:398-418 | with a commit at the published head another commit is always possible |
| Pulse.Aggregator.Commit | pulse.py:211-300 | the command with its rollback is these events of the model; it mints one commit with the host's commitment or nothing, and only 50 seconds or more before the round; with less room, unsynced or behind a commit the host is not asked; answered and in time with a free host it does mint |
| Pulse.Aggregator.Rollback | pulse.py:252-259 | ask, abandon, finalize with the zero hash, stopping at the first lost call; all answered, the seq is held no more and its E is gone |
| Pulse.Aggregator.Reveal | pulse.py:302-352 | the command is these events; a minted reveal opens the commitment of the head commit at most 600 seconds after its round on both clocks; past that the host is not asked |
| Pulse.Aggregator.Fail | pulse.py:355-385 | the command is these events; it mints one failure after a head commit or nothing |
| Pulse.Aggregator.Finalize | pulse.py:387-396 | only a published resolver is finalized, against its own hash |
| Pulse.Aggregator.Skip | pulse.py:434-457 | a skip is minted exactly when the checkout is synced or origin is out of reach and the head is not a commit |
| Pulse.Aggregator.Recover | pulse.py:398-432 | the loop over the pending files is these events, ending at the first lost call, and it reports whether it went through |
| Cycle.CommitPhase | beacon-cycle.py:318-336 | it carries out exactly its plan: commit and publish, a published skip for a refused commit, a failure for one published too late or whose publish raised; it goes on exactly when a commit of this cycle is published, and then 20 seconds or more before its round |
| Cycle.RevealPhase | beacon-cycle.py:379-397 | it carries out exactly its plan: outside the window fail; inside it reveal, publish, finalize, or fail when refused; a reported resolution is published, a reveal only if begun at most 510 seconds after the round |
| Cycle.FailPhase | beacon-cycle.py:73-88 | it carries out exactly its plan: the failure command, then publish and finalize when the push succeeds, and reports which of the endings was reached |
| Cycle.Prepare | beacon-cycle.py:252-275 | it carries out exactly its plan: publish what is left, recover, and a published skip when the recover stopped; it goes on exactly when the recover went through |
| Cycle.OneCycle | beacon-cycle.py:252-467 | a whole cycle, with a pull that may fail and the handler around it, carries out exactly its plan and reports its ending; it keeps the custody invariant, takes back nothing published, and a reported resolution is of the commit right before it |
| CycleProgress.FailPhaseSucceeds | beacon-cycle.py:73-88 | on a synced checkout with a commit at its head, an answered failure that is pushed ends published |
| CycleProgress.RevealPhaseResolves | beacon-cycle.py:379-397 | on a synced checkout at a commit, however the reveal fares, if what it mints is pushed and the failure is answered and pushed, a reveal or a failure of it is published |
| CycleProgress.RefusedCommitIsSkipped | beacon-cycle.py:318-322 | on a synced checkout a refused commit, its rollback in whatever state, ends with a skip published if that is pushed |
| CycleProgress.LateCommitIsFailed | beacon-cycle.py:334-335 | a commit pushed less than 20 seconds before its round is followed by its published failure if that is answered and pushed |
| CycleProgress.GoodCycleReveals | beacon-cycle.py:252-397 | from any state that admits a cycle, one whose pull, calls and pushes succeed ends with what waited, its own commit and the reveal of it published, and nothing held |
| CycleProgress.RunAdmits | beacon-cycle.py:252-275 | after any run and crash, if another commit is possible, none heads the checkout and git would push what waits, the next cycle is admitted |
| CycleProgress.WaitingPulsesOutIff | beacon-cycle.py:252-275 | pulses an earlier cycle did not push are at origin after a cycle if and only if git saw them and the push of catch_up, or without a pull the handler's, went through, or a skip was minted offline and pushed; otherwise nothing changes there |
| JsonValues.NormalizedIsAccepted | hosts/attest_lib.py:16-40 | whatever normalize returns passes the check |
| JsonValues.AcceptedIsNormal | hosts/attest_lib.py:16-40 | a value that passes the check is its own normal form |
| JsonValues.NormalizeIdempotent | hosts/attest_lib.py:16-24 | normalizing twice is normalizing once |
| Normalizing.AcceptedIff | hosts/attest_lib.py:26-40 | a value is accepted exactly if no value inside it is a float, a tuple, unsupported or an integer beyond 2^53 - 1 in size, and every key inside it is a string |
| Normalizing.NormalizesIff | hosts/attest_lib.py:16-24 | normalize raises exactly on a value with a non-finite float or an unsupported object somewhere in it |
| Normalizing.ScalarsKeepTheirValue | hosts/attest_lib.py:16-22 | an integer stays itself up to 2^53 - 1 in size and becomes a string that reads as it beyond; a float becomes its repr |
| Normalizing.ListsKeepPlaces | hosts/attest_lib.py:23 | a list or tuple becomes a list of as many values, each the normal form of the one at its place |
| Normalizing.LastKeyWins | hosts/attest_lib.py:22 | a dictionary holds under each string the normal form of the last value whose key prints as it, and nothing else |
| Canonical.SortKeysOrders | hosts/attest_lib.py:42-44 | sorting keys orders every object strictly and changes no meaning |
| Canonical.OrderedUnique | hosts/attest_lib.py:42-44 | a meaning has one ordered value |
| CanonicalText.TextSplits | hosts/attest_lib.py:42-44 | a value's text followed by whatever may follow is read back in only one way |
| CanonicalText.CanonIffSameMeaning | hosts/attest_lib.py:42-44 | two accepted values have the same canonical text if and only if they mean the same |
| CanonicalText.InsertionOrderIsInvisible | worker/decisions.js:28-32 | the text does not depend on the order keys were inserted in |
| CanonicalText.NormalizedHasText | hosts/attest_lib.py:16-44 | canon's check and printer never refuse what normalize returned; its UTF-8 step is outside |
| JsonReader.CanonReadsBack | hosts/attest_lib.py:42-44 | a reader written from the grammar of JSON reads the whole canonical text of every accepted value as what the value means |
| JsonReader.ShortestEscape | hosts/attest_lib.py:42-44 | characters are escaped exactly where JSON asks for it, in two characters where it can be, else in six with lower-case digits |
| JsonReader.ReadsDecimal | hosts/attest_lib.py:18 | the decimal text of every integer reads back as it |
| JsonReader.LessIff | hosts/attest_lib.py:42-44 | keys are sorted by the first character where they differ, a proper prefix first |
| Template.Prebuilt.Build | hosts/beacon-cadence.py:135-149 | the parts are the split text, the slots the last place of each sentinel, and the assertion counts slots |
| Template.Prebuilt.Fill | hosts/beacon-cadence.py:152-160 | the text is the join of a copy of the parts with the slots overwritten |
| Template.PartsOfPieces | hosts/beacon-cadence.py:144-147 | when sentinels occur only as values the split finds exactly their places |
| Template.PiecesAreText | hosts/beacon-cadence.py:136-147 | a statement's text with sentinels as slots, filled, is the text of the statement with the values |
| Template.PrebuiltIsFresh | hosts/beacon-cadence.py:129-160 | when each sentinel is a value and stands in the text once, the filled text is the fresh canonical text |
| TemplateExact.OverwriteFillsLast | hosts/beacon-cadence.py:148-160 | when sentinels stand only as values, the overwrite fills exactly the last place of each |
| TemplateExact.PrebuiltIsFreshIff | hosts/beacon-cadence.py:129-160 | with the sentinels only as values and filled values unlike them, the filled text is the canonical text of the statement with all places filled if and only if each sentinel stands exactly once |
| TemplateExact.AssertionMeans | hosts/beacon-cadence.py:149 | the assertion holds exactly when every sentinel is among the parts, however often |
| TemplateMarks.QuietOnlyAsValues | hosts/beacon-cadence.py:144-147 | if a sentinel is the whole of a string or integer or stands in none, and in no key, its only places in the text are those values |
| TemplateForms.PrefilledIsLast | hosts/beacon-cadence.py:144-160 | in any text at all the overwrite fills the last match of each sentinel and nothing else |
| TemplateForms.PrebuiltIsFormIff | hosts/beacon-cadence.py:135-160 | for every statement with places for the sentinels, the filled text is the canonical text with the numbers in just these places if and only if no sentinel is among the split parts of the values after its place |
| Cadence.DatagramIsRightIff | hosts/beacon-cadence.py:133-160 | for any given values, the trigger datagram carries the statement with the event's numbers if and only if no sentinel is among the split parts of the given values after its place |
| Cadence.TemplateAssertionHolds | hosts/beacon-cadence.py:149 | the assertion holds for the trigger statement whatever its given values hold |
| Cadence.SendText | hosts/beacon-cadence.py:135-160 | the two steps on one dictionary give that text |
| CadenceReads.DatagramReads | hosts/beacon-cadence.py:133-160 | whenever the datagram is right, a reader of JSON finds in its statement each number of the event under its own key and each given value as it was given |
| Cadence.LaterTwinBreaks | hosts/beacon-cadence.py:140 | an epoch row whose TAI offset holds the edge's sentinel among its parts passes the assertion, and the datagram is wrong for every event |
| Cadence.TwinsFound | hosts/beacon-cadence.py:132-147 | -777777001 and -7777770012 are two such offsets |
| Cadence.EarlierTwinIsHarmless | hosts/beacon-cadence.py:141-142 | with any integer as a ring row's offset, a sentinel or not, the datagram is right for every event |
| Derive.Stream | cli/notbefore/derive.py:62-66 | the loop returns the first n bytes of the counter-mode blocks |
| Derive.StreamGrows | cli/notbefore/derive.py:62-66 | asking for more bytes only appends |
| Derive.StreamBytes | cli/notbefore/derive.py:62-66 | byte k of the stream is byte k mod 32 of the hash of domain, key and the eight bytes of k div 32, and nothing else is the stream |
| Derive.CounterBytes | cli/notbefore/derive.py:65 | the eight bytes are the counter, the most significant first |
| Derive.RandRange | cli/notbefore/derive.py:72-82 | the errors, the one-value range, and otherwise the value of the first accepted counter, inside the range |
| Derive.ChunkBytes | cli/notbefore/derive.py:81 | a chunk is the number whose eight bytes start the hash of the range domain, the key and the counter |
| Derive.RangeIsUnbiased | cli/notbefore/derive.py:72-82 | every value has exactly floor(2^64 / span) accepted chunks and more than half of all chunks are accepted |
| Derive.ShuffleIsDetermined | cli/notbefore/derive.py:24-32 | the shuffle rearranges the records; any list of them in ascending order of the hash of domain, key, position and record, ties by the record, is the shuffle |
| Derive.BytesLessIff | cli/notbefore/derive.py:31 | ranks and records compare by the first byte where they differ, a proper prefix first |
| Derive.AssignIsBalanced | cli/notbefore/derive.py:51-54 | the list is the shuffle, every record once, place i in arm i mod arms; each arm gets floor(n / arms) records, the first n mod arms arms one more; it raises exactly for fewer than one arm |
| CommitBound.SelectCommit | cli/notbefore/commitbound.py:100-153 | the walk returns the least candidate not proved ineligible, and at it what its evidence says; a selected commit is current, not known to be bad, released at or after the given time, verified, stamped before its round and public before it |
| CommitBound.Judge | cli/notbefore/commitbound.py:108-126 | one pulse is passed over, halted at, waited at or selected exactly as its own fields, its check, Rekor's answer and the times say |
| CommitRule.SelectedIff | cli/notbefore/commitbound.py:100-153 | a commit is the one selected if and only if it is usable and every pulse before it from seq 20 on is there and is no commit of the rule or an unusable one; likewise for waiting, halting and no commit |
| CommitRule.SelectedGives | cli/notbefore/commitbound.py:129-151 | the label and the randomness of a selected commit in terms of the next pulse, the time, the window of 600 seconds and the relays |
| CommitBound.RhoIsTheRounds | cli/notbefore/commitbound.py:129-151 | whatever the label, the randomness handed out is the hash of a signature that verifies for the commit's own round |
| CommitBound.LabelSettles | cli/notbefore/commitbound.py:129-151 | a fully attested label is final with its randomness, no label is still waiting after the deadline, a fallback beside a published next pulse never becomes attested, and randomness comes with exactly two labels |
| CommitBound.SelectionIsOne | cli/notbefore/commitbound.py:100-153 | the rule determines one answer |
| CommitBound.NextPulseCannotMoveIt | cli/notbefore/commitbound.py:129-140 | whatever comes after the commit that stops the walk, the walk stops there for the same reason |
| CommitBound.ValueCannotBeSteered | cli/notbefore/commitbound.py:34-37 | at one time the value is the same whether the next pulse is a reveal, a bad reveal, a failure, a skip or absent |
| CommitBound.ValueIsTheSameLater | cli/notbefore/commitbound.py:34-37 | a value computed at a later time, over a log that has since grown, is the value computed at first |
| CommitBound.ValueBinds | cli/notbefore/commitbound.py:34-37 | one value comes from one commitment, randomness, chain and round, or collision |
| CommitBound.InputFields | cli/notbefore/commitbound.py:34-37 | what is hashed is 129 bytes: domain, commitment, randomness, chain and round, each at its place |
| CommitBound.VerdictIsStable | cli/notbefore/commitbound.py:72-98 | with an append-only Rekor that answers, a decided verdict never changes later |
| CommitBound.NoLateEligibility | cli/notbefore/commitbound.py:72-98 | once the round is out nothing can make a commit eligible, or take it away |
| CommitBound.SelectionIsStable | cli/notbefore/commitbound.py:100-126 | a commit once selected is the one selected at every later time |

## Left out

- CommitBound.VerdictIsStable: is about Rekor's own answers; a local anchor record used when Rekor is out of reach can be edited and is not covered.
- CommitBound.ValueCannotBeSteered: assumes one valid signature per round and that a verifying reveal carries it; both belong to BLS and the pulse verifier.
- JsonReader.CanonReadsBack: the reader takes no white space, no fractions and no surrogate escapes, none of which a canonical text has.
- Derive.RandRange: assumes that some counter is accepted, without which the code does not stop.
- Derive.Stream: counters above 2^64, where the code raises, are excluded by the length asked for.
- Custody.RunKeeps: runs start from a log of old-kind pulses and an empty host, no pulse hashes to the all-zero string that stands for an unpublished commit, and one aggregator moves the published chain.
- CommitBound.ValueIsTheSameLater: carries the same two assumptions, and an append-only Rekor that answers.
- CommitBound.SelectionIsStable: assumes that the checks of one commit and of one pair answer alike at both times; `check_commit` also reads the log around them.
- CommitBound.LabelSettles: carries the same assumption for the pair of a commit and its reveal.
- CustodyProgress.CommitCanBeRevealedIff: says nothing of an operator who pushes or resets the checkout by hand; such acts may come before, not in the continuation.
- Mirror.Mirror.Sync: assumes that whoever passes the full statement check passes the mirror's signature check, which is part of it; a leaf is read by one parser, which also demands the fields the mirror does not look at.
- Cadence.DatagramIsRightIff: the numbers of the event are safe integers and not their own sentinels; dictionaries among the given values come with their keys in order, which canon makes no difference to.
- Pulse.Aggregator.Recover: takes the host's answer to "pending" as given, in any order that lists exactly the held files.
- Publisher.WitnessSubmit: the witness is moved by nobody else during the posts; then the two last of the four tries of the code are never made.
- DecisionLog.RunKeeps: the canonical text of a leaf and its reader are parameters that round trip; idempotent resubmission is not claimed under concurrency, where the lookup precedes the counts.
- SHA-256, Ed25519, ECDSA, BLS, X25519 sealing, RFC 3161 tokens and OpenTimestamps: the hash is a parameter and signatures are predicates.
- HTTP, git, subprocesses, SSH and TCP framing, SQL text, threads, file formats and clocks: commands and database statements are atomic steps, files and tables are maps, times are parameters and whole seconds.
- A crash inside seal: sealing is atomic, and temporary files such a crash leaves under chain/, which git would see as changes, do not exist here.
- A crash inside the host's finalize, between the overwrite and the rename: finalize is atomic.
- Host calls that arrive after a later one: calls are serialised, as the agent daemon serialises them.
- The statements of the clock, GNSS and witness hosts in a pulse, the timestamp tokens of a commit and the pulse signature: an aggregator may refuse at any of these points, which is an event.
- Checkpoint sizes written as negative numbers: sizes in the client and publisher are natural numbers; the witness reads integers.
- Checkpoint file names sort by size up to six digits; larger logs are not modelled.
- The hash and chain-link checks on pulses fetched from the site, and the witness quorum.
- The JavaScript consistency prover raises for an old size of zero or beyond the tree, where the Python one returns the empty proof: the model follows Python.
- CanonicalText.NormalizedHasText: strings hold no lone surrogates, which make the UTF-8 step of canon raise; that step is not modelled.
- JavaScript sorts keys by UTF-16 units and Python by code points: they agree on ASCII keys, and the model follows Python.
- Dictionaries inside a normalized value whose keys differ but print alike collapse as in the code; keys that Python itself calls equal, such as 1 and True, are not told apart.
- `seed`, `pseudonym`, `sample`, `split` and the key-length check of `shuffle`: one-line expressions.
- Rendering of receipts, bundles, benchmarks, databases, timing profiles, probes and the command line: branch-by-branch reading.
