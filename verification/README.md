# Shielded pool: a verified model

A Dafny model of a multi-asset shielded pool: the sparse Merkle commitment store, the pool ledger
and its circuit statements, the wallet client, the sponge hash and its packings, note encryption,
the proof-buffer upload, the on-chain anchor ring with its client-side mirror, and paged scanning.
`dafny verify dfyconfig.toml` checks everything.

## What is proved

| area | files | main results |
|---|---|---|
| Commitment tree | `MerkleTree`, `Store` | the one-path in-place update refines full recomputation; witnesses are complete within capacity and sound against every past root |
| Circuit statements | `Proofs` | the checking loops decide exactly the declarative statements; what the digest binds |
| Pool ledger | `Ledger`, `Anchors`, `Answers`, `Safety`, `Exactness`, `Conservation`, `Counterexamples`, `MockChain` | no inflation, single spend and unique nonces over every run; how long an anchor lives; each answer's exact condition; the books of every run balance, and exactly when nothing is lost; what slot packing and clean refusals are for, with the runs that fail without them; the chain object follows the ledger |
| Wallet | `Wallet`, `Completeness`, `Delivery`, `Recovery`, `Agreement`, `Composition`, `Consistency` | the honest prover is always accepted; what was asked for is what payee, payer and log get; recovery from the seed agrees with the online wallet, and pool safety supplies the distinct nonces it needs |
| Hashing | `Bytes`, `Sponge` | the streaming sponge refines block folding; its input encoding and the ciphertext packing are injective; a collision of the hash is a collision of the permutation |
| Encryption | `NoteEncryption` | byte codecs and decryption round trips, with the exact failing cases; what any ciphertext yields under any key |
| Upload | `ProofBuffer`, `Inputs` | chunked upload, then either parser, gives back what was sent |
| On-chain roots | `TreeState`, `LocalModel`, `LocalSync`, `LockStep` | the ring refines a sliding window; exactly when program and mirror stay in lock step over a run |
| Scanning | `Paging` | the cursor loop is complete; exactly when it terminates |

Lemmas switch automatic induction off: every induction is written out in its lemma's body. `hide`
statements keep definitions a proof does not need out of the solver's way.

## How the system is idealised

- In the tree, ledger and wallet, field elements are free terms: a literal, a Poseidon2 digest of a
  vector, or the x-coordinate of a multiple of the generator kept as a multiset of scalars. Distinct
  terms are distinct values, so collision resistance, domain separation and "a digest is never zero"
  come from the datatype. `Sponge` proves what stands behind it: distinct inputs look distinct to the
  permutation.
- Proof bytes are the prover run that produced them. The verifier accepts public inputs when some
  successful run has the same digest; the digest leaves out the ciphertext hashes, as
  client/src/proofs.rs:193-244 does, so nothing is claimed to bind those. Bytes that carry a digest
  without a successful run (client/src/proofs.rs:250-252, for tests) are not proofs here.
- Every operation is one sequential step. Random draws are parameters ("coins"). A run is any list of
  shield, transfer and unshield requests by anybody, well formed or not.
- The wallet is generic in its encryption scheme and needs one law, `Wallet.Correct`: the right key
  and diversifier decrypt to the note. `Consistency.CorrectIsConsistent` shows that the law can be met.
  `NoteEncryption` proves it for the production scheme at byte level, over integers modulo p, from an
  abstract cyclic group and an AEAD (section 2.8 of RFC 8439) whose laws
  `NoteEncryption.LawsAreConsistent` shows to be satisfiable; there the one exception is an ephemeral
  point that is the identity (a zero ephemeral secret or diversifier scalar).
- Amounts are 64-bit words where the program stores them and unbounded where it sums: the 128-bit
  checked additions cannot overflow (`Proofs.InputSum`, `Proofs.OutputsDone`). Leaf counts are
  unbounded in the store and 64-bit on chain, where the overflow error is modelled.

## Assumptions of the main theorems

- `Safety.NoInflation`, `Safety.SingleSpend`, `Safety.OutputNoncesNeverRepeat`: enabled input slots
  come first. The count check compares totals only (client/src/proofs.rs:357-360) while the chain
  walks the first `input_count` nullifiers and skips zeros (client/src/traits.rs:768-770,
  client/src/mock.rs:800-804). `Exactness.AllRecordedIffPacked` shows that an accepted transfer
  reveals new, distinct nullifiers and records them all exactly under this condition;
  `Counterexamples.UnpackedSlotsInflate` and `Counterexamples.UnpackedSlotsDoubleSpend` are runs in
  which all three properties fail without it; `Completeness.RebuiltIsProven` shows that the wallet
  always meets it.
  `Conservation.EveryRunBalances` holds without it and says what such a run gains.
- `Conservation.ConservationExact` needs packing only, and is an equivalence with a condition on each
  request and the state it meets. `Conservation.CleanRunsConserve` is a sufficient condition in terms
  of nonces: clean operations (a transfer whose anchor and proof stand either goes through or meets a
  recorded nullifier first, `Exactness.RefusedUnchangedIffClean`) and deposits whose nonces, which the
  depositor chooses, are apart. `Counterexamples.RefusalLosesValue` and
  `Counterexamples.RepeatedDepositLoses` lose value for want of one each.
- `Agreement.RecoveryAgrees`: one device; nobody else spends with its key except by replaying a
  recorded spend; notes found for the key have distinct nonces; for equality, every payment notice
  has been processed. `Agreement.RepeatedNonceDiverges` is a history in which a repeated nonce makes
  the two disagree. `Composition.PackedRecoveryAgrees` replaces the assumption on found notes by one
  on the deposits among them, when the transfers of others are packed;
  `Composition.UnpackedSpendIsFoundTwice` shows what an unpacked one does.
- `Paging.ScanAllPages`: a page is not empty and crosses every transaction before the last output.
  `Paging.ScanCompletesIff` shows that this is exactly when the scan ends; three outputs a page are
  enough on every reachable chain, and with one or two `Counterexamples.ReachableScanStandsStill` does
  not end.
- Witness acceptance needs a leaf index below 2^depth; insertion does not check it
  (client/src/mock.rs:195-238), and refinement of the tree holds without it.

## Where the code and its documentation differ

- README.md:107 and docs/circuit-security-requirements.md:454-464 require a fixed path depth.
  `verify_local` checks no length and pairs siblings with bits up to the shorter list. The model
  follows the code; `MerkleTree.PathLengthForced` shows that domain separation forces the length.
- client/src/note.rs:24-26 calls the asset id the hash of the token address. The code hashes the
  address reduced modulo the field order, so distinct mints can share an asset id
  (`Traits.AssetIdCollision`). All accounting here is per asset id.
- client/src/hash.rs:41-44 does not claim `ciphertext_hash` to be injective over bytes. What it feeds
  to the permutation is, up to the 32-bit cast of the vector's length
  (`Sponge.CiphertextEncodingInjective`).
- programs/masp-verifier/src/lib.rs:23 counts eight public inputs for an unshield; the pool program
  and the client use nine (programs/solana-masp/src/inputs.rs:419), and so does the model.
- client/src/client.rs:548-558 describes an unshield that finds a note for the amount. It takes the
  first note that covers the amount and then insists on equality (`Completeness.ExactNoteCanBeMissed`).
- The key derivation reads the little-endian x-coordinate of the ephemeral key as a big-endian number
  (client/src/encryption.rs:1085-1095, 1098-1105). Both sides do, so decryption is unaffected.
- The mirror inserts enabled outputs with zero commitments (client/src/backends/solana.rs:1242-1252)
  that the program skips (programs/solana-masp/src/instructions.rs:566-586), and both stop at the
  output count, which the circuit compares with the number of enabled slots only
  (client/src/proofs.rs:357-360, circuits/masp/transfer/src/main.nr:276-309). A verified transfer with a gap before an output is accepted, puts the
  pair out of step for good, and its note is never inserted (`LockStep.SkippedOutputIsLost`);
  `LockStep.OutputsInsertedIffPacked` is the exact condition.
- client/src/backends/solana.rs:348-349 says that contact syncs the mirror with the on-chain state. It
  syncs the count; the leaves below read as zero (`LockStep.ReconnectForgets`).
- client/src/client.rs:480-485 and 572-577 name the balance in an error. It is summed, with overflow
  checks on (Cargo.toml:15-16), whether or not the error arises, so a balance past 64 bits aborts every
  transfer and withdrawal of the asset (`Completeness.TransferSucceedsIff`).

## Model

| member | source | states |
|---|---|---|
| Bytes.FieldToBytes | client/src/hash.rs:152-161 | the reversed copy loop yields the 32-byte big-endian form of the value |
| Bytes.FieldRoundTrip | client/src/hash.rs:152-166 | every field element is read back from its bytes |
| Bytes.BytesRoundTrip | client/src/hash.rs:164-166 | 32 bytes survive reading and writing exactly when they are below the field order; others are reduced |
| Bytes.RecipientToLimbs | client/src/tx_binding.rs:109-115 | the limb loop reads four little-endian words |
| Bytes.RecipientFromLimbs | client/src/tx_binding.rs:118-124 | the loop back writes the four words in order |
| Bytes.RecipientLimbsInverse | client/src/tx_binding.rs:106-124 | recipient bytes and limbs are in bijection, both compositions are the identity |
| Bytes.LimbsAreWords | client/src/tx_binding.rs:109-115 | limb j is the j-th group of eight bytes, read little endian |
| Bytes.LePlaces | client/src/hash.rs:152-166 | little endian: what follows the first i bytes weighs 256^i |
| Bytes.BePlaces | client/src/hash.rs:152-166 | big endian: the first i bytes weigh 256 to the number of bytes that follow |
| Field.OpenNote | client/src/note.rs:123-137 | a term opens to a note only when it is that note's commitment |
| Field.RecipientFixesKey | client/src/keys.rs:198-239 | equal recipient fields mean the same spending key and the same diversifier index |
| Field.NullifierOfNoteUnique | client/src/nullifier.rs:33-35 | all keys able to spend a note are one key, so the note has one nullifier |
| Field.TxBindingFixesNullifiers | client/src/tx_binding.rs:50-71 | equal transfer bindings mean equal anchor, counts and padded nullifier array |
| Field.TxBindingFixesWithdrawal | client/src/tx_binding.rs:73-103 | equal unshield bindings mean equal anchor, nullifier, amount, recipient and asset |
| Field.DomainsSeparate | masp-protocol/src/domain.rs:8-60 | commitments, nullifiers, tree nodes, both bindings and nonces never coincide, nor with zero |
| MerkleTree.NodeBindsLeaves | client/src/mock.rs:195-216 | two trees agree at a node if and only if they agree on every leaf below it |
| MerkleTree.WriteTouchesOnlyPath | client/src/mock.rs:202-216 | writing one leaf changes no node off that leaf's path, at any level |
| MerkleTree.EmptyNodesAgree | client/src/mock.rs:107-133 | all empty subtrees of one height share one hash, which is what the default table relies on |
| MerkleTree.FourLeafRoot | client/src/mock.rs:202-216 | left before right at every level: the root of a tree of three leaves and an empty one |
| MerkleTree.AncestorAtTop | client/src/mock.rs:202-216 | halving `depth` times reaches the root index if and only if the leaf index is within capacity |
| MerkleTree.DescendSpellsBits | client/src/mock.rs:344-353 | the direction bits are the binary digits of the leaf index they lead to |
| MerkleTree.PathClimbs | client/src/proofs.rs:92-116 | a leaf's own path climbs to each of its ancestors in the fully recomputed tree |
| MerkleTree.PathPinsLeaf | client/src/proofs.rs:92-116 | a path that climbs from cm to a node proves that cm is the leaf its bits spell |
| MerkleTree.PathLengthForced | client/src/proofs.rs:92-116 | although no length is checked, a path of any length from a note commitment to a node at level L has length L |
| MerkleTree.VerifyLocal | client/src/proofs.rs:92-116 | the folding loop decides acceptance; non-Merkle witnesses are refused |
| MerkleTree.WitnessAcceptedWithinCapacity | client/src/mock.rs:370-382 | a handed-out witness is accepted if and only if the leaf's top ancestor carries the root's value, always so within capacity |
| MerkleTree.AcceptedMeansLeaf | client/src/proofs.rs:92-116 | a witness accepted against any past root names a leaf of that past tree that is still in every later tree |
| Store.InsertedWellFormed | client/src/mock.rs:195-238 | inserting keeps indices fresh and the index at the latest leaf of each commitment, and removes no leaf |
| Store.MockStore.EmptyLevels | client/src/mock.rs:107-115 | the table of empty hashes is the recomputed empty tree, level by level |
| Store.MockStore.constructor | client/src/mock.rs:107-133 | a new store refines the empty tree of its depth |
| Store.MockStore.InsertInternal | client/src/mock.rs:195-238 | the one-path update ends in the state where every node, at every level and index, equals full recomputation |
| Store.MockStore.UpdatePath | client/src/mock.rs:199-216 | after the level loop the sparse table with empty defaults equals the recomputed tree with the new leaf |
| Store.MockStore.WriteNode | client/src/mock.rs:204-216 | one step of the loop extends that agreement by one level and keeps the levels above as they were |
| Store.MockStore.Record | client/src/mock.rs:218-235 | index, transaction log, count and the root history capped at 16 entries |
| Store.MockStore.InsertOutput | client/src/mock.rs:279-302 | the commitment is inserted, and the ciphertext with its hash appended, under one transaction |
| Store.MockStore.SyncLeafCount | client/src/mock.rs:318-323 | the count only jumps forward; the gap leaves are zero and the node table still refines the tree |
| Store.MockStore.GetMerklePath | client/src/mock.rs:340-356 | the loop returns the siblings and directions of the recomputed tree |
| Store.MockStore.GetWitness | client/src/mock.rs:370-382 | unknown commitments are NotFound; known ones get a depth-long path that verifies against the current root within capacity |
| Store.MockStore.IsValidAnchor | client/src/mock.rs:247-250 | a ghost list of all roots the store ever had shows what the capped history means: valid if and only if among the sixteen newest roots |
| Store.MockStore.InsertNullifier | client/src/mock.rs:259-269 | refused if and only if present, and present afterwards in either case |
| Sponge.Poseidon2HashNoir | client/src/hash.rs:97-149 | the cache-and-flush loop equals folding absorb-then-permute over blocks of three, with exactly one permutation per block, whatever the cache held |
| Sponge.PerformDuplex | client/src/hash.rs:112-119 | absorbs the live cache cells only, then permutes |
| Sponge.Push | client/src/hash.rs:121-131 | absorbing one element flushes a full cache and keeps the sponge in step with the message so far |
| Sponge.Squeeze | client/src/hash.rs:146-148 | the final duplex completes the fold |
| Sponge.BlockCount | client/src/hash.rs:121-148 | max(1, ceil(n/3)) blocks for n absorbed elements |
| Sponge.PaddingIsInvisible | client/src/hash.rs:112-119 | absorbing a short block and absorbing it zero-padded are the same |
| Sponge.EncodingInjective | client/src/hash.rs:97-149 | capacity value and padded blocks coincide if and only if the absorbed prefix and the fixed or variable mode do |
| Sponge.ShortMessages | client/src/hash.rs:97-149 | short messages written out: lanes, capacity, the closing 1 of a prefix, the second block |
| Sponge.HashCollisionIsPermutations | client/src/hash.rs:97-149 | two uses of the hash with one digest absorb the same, or the states visited hold a collision of the permutation in the squeezed lane or the capacity, or a hit on an initial capacity |
| Sponge.CiphertextHash | client/src/hash.rs:45-73 | the chunk loop hashes domain, length and 31-byte chunks, with the 32-bit cast of the vector length |
| Sponge.PackRoundTrip | client/src/hash.rs:45-73 | unpacking the vector gives the bytes back, because every chunk is below the field order |
| Sponge.PackInjective | client/src/hash.rs:45-73 | distinct byte strings pack to distinct vectors |
| Sponge.PackShape | client/src/hash.rs:45-73 | domain, byte length, then every 31 bytes as one little-endian number |
| Sponge.CiphertextEncodingInjective | client/src/hash.rs:45-73 | two byte strings look alike to the permutation if and only if they are equal, or both overflow the 32-bit length cast to the same count with the same absorbed prefix |
| Traits.AssetIdCollision | client/src/note.rs:167-171 | two mints share an asset id if and only if their addresses agree modulo the field order |
| Traits.AssetIdCollisionWitness | client/src/note.rs:167-171 | two distinct mint addresses that do share one |
| Traits.CtHashBinds | client/src/hash.rs:45-73 | the ciphertext hash binds ephemeral key and ciphertext |
| Proofs.CheckInput | client/src/proofs.rs:366-418 | one slot passes if and only if membership, preimage, ownership and nullifier hold, or the slot is disabled with a zero nullifier |
| Proofs.FoldInput | client/src/proofs.rs:420-433 | running sum and asset; refusal means two assets are mixed |
| Proofs.CheckInputs | client/src/proofs.rs:362-434 | the input loop accepts only slots that all hold, with the exact sum and asset |
| Proofs.CheckOutput | client/src/proofs.rs:443-469 | one output passes if and only if commitment, derived nonce and asset hold, or it is disabled with a zero commitment |
| Proofs.CheckOutputs | client/src/proofs.rs:438-474 | the output loop accepts only outputs that all hold, with the exact sum; a refusal names a failing slot |
| Proofs.CheckCtHashes | client/src/proofs.rs:488-501 | non-zero hash if and only if enabled, in every slot |
| Proofs.MockCheckTransfer | client/src/proofs.rs:332-504 | Ok if and only if the declarative transfer statement holds, and exactly when the error is InvalidPublicInputs |
| Proofs.MockCheckUnshield | client/src/proofs.rs:506-578 | Ok if and only if the declarative unshield statement holds, VerificationFailed otherwise |
| Proofs.Prove | client/src/proofs.rs:583-637 | proofs exist exactly for true statements, and one verifies exactly for public inputs that differ at most in ciphertext hashes |
| Proofs.SlotsHoldIff | client/src/proofs.rs:362-474 | what one input and one output slot must satisfy, written out down to the digests |
| Proofs.TransferProvableIff | client/src/proofs.rs:332-504 | exactly the transfers a proof exists for: binding, counts, slots, marked ciphertexts, one asset, balance |
| Proofs.OthersProvableIff | client/src/proofs.rs:506-637 | exactly the deposits and withdrawals a proof exists for |
| Proofs.PublicInputsHashBinds | client/src/proofs.rs:193-244 | the digest binds every public input except the ciphertext hashes, and nothing less |
| Proofs.AcceptedTransfer | client/src/mock.rs:772-797 | an accepted request's rebuilt public inputs satisfy the transfer statement for some ciphertext hashes |
| Proofs.AcceptedShield | client/src/mock.rs:715-737 | an accepted deposit's commitment hides exactly the deposited asset and amount |
| Proofs.AcceptedUnshield | client/src/mock.rs:852-876 | an accepted withdrawal satisfies the unshield statement as rebuilt by the chain |
| Answers.ProofPaysOneRecipient | client/src/mock.rs:852-876 | one withdrawal proof pays one recipient one amount of one asset, whatever request carries it, and its public limbs decode to that recipient |
| Answers.ProofFixesTransfer | client/src/mock.rs:772-797 | one transfer proof fixes anchor, nullifiers, counts and output commitments |
| Answers.BindingFixesWithdrawal | client/src/proofs.rs:506-578 | two accepted withdrawals under one binding are the same withdrawal |
| Answers.ShieldAnswer | client/src/mock.rs:711-759 | a deposit is refused for its proof alone; accepted, its commitment is the next leaf and its ciphertext the next entry |
| Answers.TransferAnswer | client/src/mock.rs:761-827 | each complaint exactly when it is due, in order; accepted, exactly the real outputs go on chain, under a new signature |
| Answers.UnshieldAnswer | client/src/mock.rs:839-884 | each complaint exactly when it is due; accepted, one nullifier and nothing else |
| Answers.OutputsPutOnChain | client/src/mock.rs:806-820 | leaves, indexer and transaction log gain the outputs with a commitment, in order, each with its hash, and nothing else changes |
| Safety.InsertNullifiersEffect | client/src/mock.rs:799-804 | success means all non-zero nullifiers were new and pairwise distinct and are all recorded; failure records only some of them |
| Safety.InsertOutputsEffect | client/src/mock.rs:806-820 | the tree gains exactly the notes of the enabled output slots and loses nothing |
| Safety.MemberIsInTree | client/src/proofs.rs:392-399 | a membership proof against any recorded root means the note is in the current tree |
| Safety.SlotsSpendOnce | client/src/proofs.rs:410-418 | with distinct nullifiers no note is spent by two slots of one transfer |
| Safety.CreatedNoncesDistinct | client/src/proofs.rs:458-463 | outputs of one transfer have distinct nonces |
| Safety.BalancedPerAsset | client/src/proofs.rs:420-480 | a true transfer statement balances in every asset separately |
| Safety.EstablishTransferFacts | client/src/mock.rs:761-797 | an accepted transfer spends notes in the tree under their nullifiers, balances per asset, and derives its nonces |
| Safety.PackedTransferSpends | client/src/mock.rs:799-804 | with packed slots the spent notes are distinct, were unspent, and are spent afterwards |
| Safety.SpendAndCreate | client/src/mock.rs:761-827 | unspent value moves by at most created minus spent, in every asset |
| Safety.NewNoncesAreNew | client/src/tx_binding.rs:132-141 | a transfer with fresh nullifiers derives nonces that no earlier transfer derived |
| Safety.ShieldKeepsInv | client/src/mock.rs:711-759 | deposits keep the pool invariant |
| Safety.TransferKeepsInv | client/src/mock.rs:761-827 | transfers keep it, accepted or refused halfway through their nullifiers |
| Safety.UnshieldKeepsInv | client/src/mock.rs:839-884 | withdrawals keep it |
| Safety.RunKeepsInv | client/src/mock.rs:711-884 | the pool invariant holds after every run from genesis |
| Safety.RunIsSound | client/src/mock.rs:711-884 | tree and anchors stay sound after every run, packed or not |
| Safety.NoInflation | client/src/mock.rs:711-884 | for every run and asset, withdrawn plus the value of distinct unspent commitments is at most deposited |
| Safety.SingleSpend | client/src/mock.rs:761-884 | over every run no commitment is consumed by two accepted spends or two slots |
| Safety.OutputNoncesNeverRepeat | client/src/tx_binding.rs:132-141 | over every run no two outputs of accepted transfers share a nonce |
| Exactness.RunProvenance | client/src/mock.rs:799-804 | on every run each recorded nullifier belongs to a logged spend or was burnt by a refused transfer |
| Exactness.BurntNothingIffAtomic | client/src/mock.rs:799-804 | a run burns nothing if and only if every operation is clean in the state it meets |
| Exactness.InsertionSucceedsIff | client/src/mock.rs:799-804 | the nullifier loop goes through if and only if the real nullifiers are pairwise distinct and all new |
| Exactness.RefusalCleanIff | client/src/mock.rs:799-804 | a refused loop leaves the set as it was if and only if its FIRST real nullifier was already recorded |
| Exactness.RefusedUnchangedIffClean | client/src/mock.rs:761-827 | an operation that is refused changes no nullifier if and only if it is clean, a condition on request and state before the call |
| Exactness.CreatedNoncesApartIff | client/src/mock.rs:711-827 | nonces of all created notes are distinct if and only if deposits use distinct nonces and none that a transfer derived |
| Exactness.LogBalance | client/src/mock.rs:711-884 | over a sound log, created value plus withdrawals equals spent value plus deposits, per asset |
| Conservation.ConservationExact | client/src/mock.rs:711-884 | a packed run conserves an asset exactly if and only if each operation is lossless in the state it meets: what it puts out of reach is worth nothing |
| Conservation.InsertionRecords | client/src/mock.rs:799-804 | accepted or refused, the nullifier loop records exactly the real nullifiers up to the first that is known or repeats |
| Conservation.StepBalances | client/src/mock.rs:711-884 | for any operation in any sound state: missing value grows by what the step loses and shrinks by what it spends without consuming |
| Conservation.EveryRunBalances | client/src/mock.rs:711-884 | for every run, packed or not: deposited minus withdrawn minus unspent is the total lost minus the total gained |
| Conservation.NoInflationIff | client/src/mock.rs:711-884 | for every run: no inflation if and only if gains do not exceed losses, and nothing is gained if and only if every declared note of worth is consumed, once |
| Conservation.PackedGainsNothing | client/src/traits.rs:768-770 | a packed operation, accepted or refused, gains nothing |
| Conservation.DepositLosslessIff | client/src/mock.rs:711-759 | an accepted deposit loses nothing if and only if its note is neither in the tree nor marked spent, or is worth nothing |
| Conservation.WithdrawalLosslessIff | client/src/mock.rs:839-884 | an accepted withdrawal loses nothing if and only if no other unspent note of worth shares its nullifier |
| Conservation.TransferLosslessIff | client/src/mock.rs:761-827 | an accepted transfer loses nothing if and only if no other unspent note of worth shares a walked nullifier and every created note of worth is new and unmarked |
| Conservation.RefusalLosslessIff | client/src/mock.rs:799-804 | a refused operation loses nothing if and only if no unspent note of worth stands behind a nullifier its loop reached |
| Conservation.ConservationGap | client/src/mock.rs:711-884 | seen from the end of a packed run, what is missing are notes created again and notes marked spent that nobody spent; conservation is exact if and only if both are worth nothing |
| Conservation.CleanRunsConserve | client/src/mock.rs:711-884 | clean operations and deposits that keep their nonces apart conserve every asset |
| Exactness.TransferRecords | client/src/mock.rs:799-804 | an accepted transfer records exactly the non-zero nullifiers of the walked prefix |
| Exactness.AllRecordedIffPacked | client/src/traits.rs:768-770 | for every accepted transfer: it reveals distinct, so far unrecorded nullifiers and records all of them, if and only if its slots are packed |
| Counterexamples.UnpackedSlotsInflate | client/src/mock.rs:799-804 | a two-step run from genesis with an unpacked slot: five units deposited, ten unspent |
| Counterexamples.UnpackedSlotsDoubleSpend | client/src/mock.rs:799-804 | the same request accepted twice: one note is spent twice and two outputs carry one nonce |
| Counterexamples.RefusalLosesValue | client/src/mock.rs:799-804 | a run from genesis in which a packed, refused transfer burns a nullifier: ten deposited, five withdrawn, nothing unspent |
| Counterexamples.RepeatedDepositLoses | client/src/mock.rs:711-759 | a packed, clean run from genesis that deposits one note twice: ten deposited, five unspent, nothing withdrawn |
| Counterexamples.ReachableScanStandsStill | client/src/traits.rs:1023-1044 | a run from genesis whose paged scan with one or two outputs a page has more to come after every number of requests |
| MockChains.MockChain.constructor | client/src/mock.rs:584-599 | a chain over an empty store is the genesis ledger |
| MockChains.MockChain.Shield | client/src/mock.rs:711-759 | the object's new state and answer are the ledger step's |
| MockChains.MockChain.Transfer | client/src/mock.rs:761-827 | likewise, on all four outcomes |
| MockChains.MockChain.Unshield | client/src/mock.rs:839-884 | likewise |
| MockChains.MockChain.SpendAll | client/src/mock.rs:799-804 | the nullifier loop stops at the first known one and leaves the earlier ones recorded |
| MockChains.MockChain.InsertAll | client/src/mock.rs:806-820 | the output loop skips zero commitments and keeps order |
| MockChains.MockChain.InsertNullifier | client/src/mock.rs:651-657 | refused without change when known; recorded under a fresh signature otherwise |
| MockChains.MockChain.UpdateAnchorHistory | client/src/mock.rs:612-622 | a changed root is appended and the oldest dropped beyond the cap |
| Anchors.HistoryKeepsNewest | client/src/mock.rs:612-622 | on every run the history holds the newest roots the tree has had, as many as the cap allows |
| Anchors.ValidAnchorIff | client/src/mock.rs:663-667 | on every run an anchor is accepted if and only if it is the current root or among the newest `max_anchors` roots the tree has had |
| Anchors.AnchorLifetime | client/src/mock.rs:612-667 | a current root survives the next `max_anchors - 1` root changes, and no more unless it came back |
| MockChains.MockChain.IsValidAnchor | client/src/mock.rs:663-667 | current root or recorded root |
| MockChains.MockChain.BatchCheckNullifiers | client/src/mock.rs:830-837 | one flag per nullifier, in order |
| Paging.ScanOutputsSince | client/src/mock.rs:407-435 | everything after the first output of the cursor; nothing for an unknown cursor |
| Paging.ScanOutputsPaginated | client/src/traits.rs:1023-1044 | the page, its cursor and whether more follows |
| Paging.StartIff | client/src/mock.rs:407-435 | the scan starts behind the first output of the cursor's transaction, or at the end when there is none |
| Paging.UnlimitedPage | client/src/traits.rs:1023-1044 | without a limit everything behind the cursor comes at once and nothing more is announced |
| Paging.CursorAdvances | client/src/traits.rs:1023-1044 | when a page crosses every transaction before the last output, the cursor of a full page strictly moves the start forward |
| Paging.ScanAllPages | client/src/traits.rs:1023-1044 | the repeated scan terminates and delivers every output at least as often as it occurs, and nothing else |
| Paging.SmallPagesGetStuck | client/src/traits.rs:1023-1044 | any log whose first transaction has more outputs than a page and more behind it: from the second request on, the same page for ever |
| Paging.CursorRepeatsIff | client/src/traits.rs:1023-1044 | exactly when a full page from the cursor of a transaction returns that same cursor |
| Paging.EmptyPagesGetStuck | client/src/traits.rs:1023-1044 | a page of no outputs stands still from the start, on any log with an output |
| Paging.ScanCompletesIff | client/src/traits.rs:1023-1044 | on a contiguous log the repeated scan ends if and only if a page crosses every transaction before the last output |
| Paging.RunIsOrderly | client/src/mock.rs:806-820 | on every run outputs carry past signatures in order, those of one transaction within three positions |
| Paging.ReachableLogsSpan | client/src/mock.rs:806-820 | hence outputs of one transaction stand next to each other, at most three of them |
| Paging.ReachableLogsScannable | client/src/mock.rs:806-820 | so three outputs a page are enough to scan every reachable chain |
| TreeStates.TreeState.constructor | programs/solana-masp/src/state.rs:192-203 | a fresh state is sixteen placeholders and the placeholder root |
| TreeStates.TreeState.IsValidAnchor | programs/solana-masp/src/state.rs:206-220 | accepted if and only if among the last 17 entries of sixteen placeholders followed by all roots so far |
| TreeStates.TreeState.UpdateRoot | programs/solana-masp/src/state.rs:223-230 | the ring write refines appending to the list of all roots |
| TreeStates.TreeState.IncrementLeafCount | programs/solana-masp/src/state.rs:233-236 | counts up, and refuses only at the 64-bit limit |
| TreeStates.WindowMembers | programs/solana-masp/src/state.rs:206-230 | window membership in terms of update ages, both directions |
| TreeStates.CurrentRootSurvives | programs/solana-masp/src/state.rs:206-230 | an accepted root survives the next 16 updates and no more, unless recorded again |
| LocalSync.Program.ProcessInitialize | programs/solana-masp/src/instructions.rs:106-162 | the first signer creates the state and becomes its authority; each complaint exactly when it is due |
| LocalSync.Program.CheckCall | programs/solana-masp/src/instructions.rs:443-495 | the shared opening checks: each complaint if and only if its check is the first to fail |
| LocalSync.Program.ProcessShield | programs/solana-masp/src/instructions.rs:305-426 | succeeds if and only if signed, on the state account, not paused, with a shield buffer, proof accepted and the count fits; counts one leaf; each complaint exactly when it is due |
| LocalSync.Program.CreateNullifierAccounts | programs/solana-masp/src/instructions.rs:534-564 | succeeds if and only if every real nullifier is new and none repeats |
| LocalSync.Program.CountOutputs | programs/solana-masp/src/instructions.rs:566-583 | one count per non-zero enabled output, refused only at the 64-bit limit |
| LocalSync.Program.ProcessTransfer | programs/solana-masp/src/instructions.rs:443-594 | success, the whole new state, and each complaint exactly when it is due: signature, account, pause, circuit, anchor, proof, counts, nullifiers, leaf count |
| LocalSync.Program.ProcessUnshield | programs/solana-masp/src/instructions.rs:610-727 | success, the one new account, and each complaint exactly when it is due |
| LocalSync.Program.ProcessUpdateRoot | programs/solana-masp/src/instructions.rs:780-843 | a root is taken over if and only if the authority signs and the expected count is the chain's; each complaint exactly when it is due |
| LocalSync.SolanaChain.EnsureInitialized | client/src/backends/solana.rs:350-396 | once only: a set-up program brings the mirror in step if and only if the mirror was not ahead; a missing one is created with this payer as authority |
| LocalSync.SolanaChain.SyncRootToChain | client/src/backends/solana.rs:888-914 | the push succeeds if and only if in step and authorised, and then both roots agree and the root is an accepted anchor |
| LocalSync.SolanaChain.Shield | client/src/backends/solana.rs:1098-1110 | when the program accepts, for any payer and any pair; in step before if and only if in step after; then the root push succeeds if and only if the payer is the authority and the pair is in step |
| LocalSync.SolanaChain.MirrorNullifiers | client/src/backends/solana.rs:1238-1240 | exactly the walked nullifiers are marked, zeros included |
| LocalSync.SolanaChain.MirrorOutputs | client/src/backends/solana.rs:1242-1252 | every enabled output is inserted in order, zero commitments included |
| LocalSync.SolanaChain.Transfer | client/src/backends/solana.rs:1235-1255 | exactly when the program accepts; then a pair in step stays in step if and only if every enabled output is non-zero, and the push succeeds if and only if authorised and in step |
| LocalSync.SolanaChain.Unshield | client/src/backends/solana.rs:1352-1358 | exactly when it succeeds, for any pair; neither tree moves, being in step and agreement of roots are kept, one nullifier on both sides |
| LocalSync.SolanaChain.Perform | client/src/backends/solana.rs:1029-1031 | a whole backend operation, contact first, is one step of the pair's specification |
| LockStep.LockStepIff | client/src/backends/solana.rs:888-1255 | over every run of a backend from deployment, program and mirror are in step if and only if no accepted transfer enabled a blank output; then the mirror's root is current and accepted |
| LockStep.NeverBackInStep | client/src/backends/solana.rs:888-914 | a pair out of step stays so, whatever is called |
| LockStep.OutputsInsertedIffPacked | programs/solana-masp/src/instructions.rs:566-583 | an accepted, verified transfer counts every note it creates, inserts every one, and keeps a pair in step, each if and only if its outputs are packed |
| LockStep.MirrorPutsOnChain | client/src/backends/solana.rs:1242-1252 | the mirror's leaves, indexer and transaction log gain the enabled outputs, in order, and nothing else changes |
| LockStep.HonestOutputsPacked | client/src/client.rs:1073-1121 | the wallet's outputs are packed |
| LockStep.SkippedOutputIsLost | programs/solana-masp/src/instructions.rs:566-583 | a two-call run with a verified transfer whose only output sits in the second slot: the deposited note is spent, the created one is in no leaf, and the pair is out of step |
| LockStep.ReconnectForgets | client/src/backends/solana.rs:362-374 | a mirror that reconnects is in step at once and has none of the earlier leaves: every commitment is unknown |
| LockStep.ReconnectReplacesRoot | client/src/backends/solana.rs:888-914 | its first deposit makes current a root under which only that deposit has a witness, and seventeen updates later the root before is no anchor any more |
| ProofBuffer.InitProofBuffer | programs/solana-masp/src/instructions.rs:178-238 | size and header for the announced number of public inputs; exact refusals |
| ProofBuffer.InitVerifierBuffer | programs/masp-verifier/src/lib.rs:137-195 | header written in place if and only if circuit and count are in range |
| ProofBuffer.LengthInHeader | programs/solana-masp/src/instructions.rs:223-230 | the header holds status, circuit, length low byte first, and input count |
| ProofBuffer.UploadChunk | programs/solana-masp/src/instructions.rs:252-290 | accepted exactly when it fits and the buffer is open, with the exact complaint otherwise; then only the chunk range and the length field change |
| ProofBuffer.UploadInChunks | client/src/backends/solana.rs:541-587 | the chunk loop succeeds if and only if the data fits the buffer and the 16-bit offset, and leaves exactly the data after the header |
| ProofBuffer.UploadProof | client/src/backends/solana.rs:592-723 | the same for either branch of the pool program's flow |
| ProofBuffer.ParseForVerify | programs/masp-verifier/src/lib.rs:258-326 | which buffers parse, and that inputs and proof are the right slices |
| ProofBuffer.VerifierSeesUpload | programs/masp-verifier/src/lib.rs:258-320 | after an upload the verifier reads exactly the uploaded inputs, and finds a full proof, the first 2144 bytes of what was sent, if and only if that many were sent |
| CircuitInputs.TransferToPublicInputs | programs/solana-masp/src/inputs.rs:264-297 | thirteen fields in circuit order, filled by index |
| CircuitInputs.TransferCircuitOrder | circuits/masp/transfer/src/main.nr:67-86 | where the transfer circuit finds each public input, with counts as numbers |
| CircuitInputs.OtherCircuitsOrder | programs/solana-masp/src/inputs.rs:120-125 | where the shield and unshield circuits find theirs |
| CircuitInputs.TransferFromBuffer | programs/solana-masp/src/inputs.rs:169-249 | the moving-offset parser reads field i at 5+32i; short buffers are refused |
| CircuitInputs.ShieldFromBuffer | programs/solana-masp/src/inputs.rs:64-108 | likewise for four fields |
| CircuitInputs.UnshieldFromBuffer | programs/solana-masp/src/inputs.rs:338-405 | likewise for nine fields with four limbs |
| CircuitInputs.NumbersWriteBack | programs/solana-masp/src/inputs.rs:169-249 | re-encoding a read number gives the field back if and only if its unread bytes are zero |
| CircuitInputs.TransferUploadParses | programs/solana-masp/src/inputs.rs:169-297 | upload then parse is the identity on transfer inputs |
| CircuitInputs.ShieldUploadParses | programs/solana-masp/src/inputs.rs:64-127 | upload then parse is the identity on shield inputs |
| CircuitInputs.UnshieldUploadParses | programs/solana-masp/src/inputs.rs:338-436 | upload then parse is the identity on unshield inputs |
| CircuitInputs.TransferParseSerialises | programs/solana-masp/src/inputs.rs:169-297 | parse then serialise is the identity if and only if the unread bytes of both counts are zero |
| Wallet.FindByCommitment | client/src/client.rs:170-172 | the first entry with the commitment |
| Wallet.FindSpendable | client/src/client.rs:479-488 | the first unspent entry of the asset that covers the amount |
| Wallet.PrepareSpend | client/src/client.rs:208-232 | what is handed out is an unspent entry of the wallet under that commitment |
| Wallet.TryDecryptOutput | client/src/client.rs:804-853 | an accepted note has the published commitment |
| Delivery.OutputTakenIff | client/src/client.rs:804-853 | an output is taken if and only if it decrypts, opens its commitment, and has the hash it committed to |
| Wallet.MaspClient.FindNote | client/src/client.rs:170-172 | the search loop finds the first match |
| Wallet.MaspClient.MarkNoteSpent | client/src/client.rs:201-205 | only the first match changes, and only its flag |
| Wallet.MaspClient.GetBalance | client/src/client.rs:153-159 | the sum over unspent entries of the asset, or an abort exactly when it passes 64 bits |
| Wallet.MaspClient.SelectNote | client/src/client.rs:479-488 | the selection loop finds the first spendable entry |
| Wallet.MaspClient.Prepare | client/src/client.rs:208-232 | witness and errors as the pure specification says |
| Wallet.MaspClient.Shield | client/src/client.rs:388-455 | chain, note list and answer after a deposit |
| Wallet.MaspClient.TransferTo | client/src/client.rs:469-546 | chain, note list and answer after a transfer, on every failure path too |
| Delivery.TransferPays | client/src/client.rs:469-546 | a successful `transfer_to` costs the payer exactly the amount, in that asset and no other, and its first output pays it to the recipient, encrypted to that address |
| Delivery.PayeeFinds | client/src/client.rs:692-712 | the payee's scan, at whatever diversifier it was paid, finds that note in the output and nothing else |
| Delivery.HashesMatchSlots | client/src/client.rs:1073-1121 | each ciphertext hash in an honest request is that of the ciphertext in the same slot |
| Delivery.ShieldCredits | client/src/client.rs:388-455 | a deposit adds exactly the amount to the token's asset, in an own note with the drawn nonce that a scan finds |
| Delivery.UnshieldDebits | client/src/client.rs:559-651 | a withdrawal takes exactly the amount out of the token's asset |
| Delivery.UnshieldMeans | client/src/client.rs:590-640 | the submitted withdrawal, and the limbs its proof is about, name the recipient, amount and token asked for |
| Delivery.HistoryMeans | client/src/client.rs:388-651 | over every history, an own action that the chain accepts is logged as what was asked for: asset, amount, payee, and the change kept |
| Wallet.MaspClient.Unshield | client/src/client.rs:559-651 | chain, note list and answer after a withdrawal, on every failure path too |
| Wallet.MaspClient.SyncFromChain | client/src/client.rs:692-744 | the three passes append exactly the found, unspent notes; received_found = already_spent + notes_added |
| Delivery.ScanFindsAt | client/src/client.rs:692-712 | a scan at an index finds the note of every honest output addressed there, in its place |
| Wallet.MaspClient.Recover | client/src/client.rs:659-664 | a fresh client ends with exactly the found, unspent notes |
| Wallet.MaspClient.ReceivePayment | client/src/client.rs:859-888 | returns the notes found in the transaction, in order; those neither known nor spent are added |
| Delivery.PaidNotesAreFound | client/src/client.rs:859-888 | what is reported is what a scan finds among the outputs of that transaction |
| Delivery.ReceivedExactly | client/src/client.rs:859-888 | what is added is every unspent, unknown note of the transaction, once, and nothing else |
| Completeness.StoreWitnessAccepted | client/src/mock.rs:370-382 | the store's witness for a spendable note verifies against the current root |
| Completeness.BuiltTransferBalances | client/src/client.rs:289-358 | payment and change add up to the spent note, in one asset |
| Completeness.BuiltTransferHolds | client/src/client.rs:289-358 | for every spendable note and amount up to its value the built transfer satisfies the whole transfer statement |
| Completeness.RebuiltIsProven | client/src/client.rs:1073-1121 | the public inputs the chain rebuilds are the proven ones, and the slots are packed |
| Completeness.HonestTransferAccepted | client/src/mock.rs:761-827 | the chain accepts the wallet's transfer if and only if the nullifier is unspent; otherwise DoubleSpend and no change |
| Completeness.HonestShieldAccepted | client/src/client.rs:388-455 | the wallet's deposit is always accepted, owned and indexed |
| Completeness.HonestUnshieldAccepted | client/src/client.rs:579-640 | the chain accepts the wallet's withdrawal if and only if the nullifier is unspent |
| Completeness.TransferSucceedsIff | client/src/client.rs:469-546 | `transfer_to` succeeds if and only if a first covering note exists, is unspent on chain, and the balance it sums on the way fits in 64 bits; a failure changes nothing and names its cause |
| Completeness.UnshieldSucceedsIff | client/src/client.rs:559-651 | `unshield` succeeds if and only if the first covering note has exactly the amount and is unspent on chain, and the balance fits in 64 bits; a failure names its cause |
| Completeness.PrepareRefuses | client/src/client.rs:208-232 | unknown entry, spent entry, unindexed commitment: each refusal when it is due |
| Completeness.ExactNoteCanBeMissed | client/src/client.rs:571-590 | a larger note listed first makes a withdrawal fail although another note fits exactly |
| Recovery.FoundConcat | client/src/client.rs:692-712 | scanning is compositional: later outputs only append to what was found |
| Recovery.ReceivedKeeps | client/src/client.rs:859-888 | processing a notice brings in every note of that transaction and keeps the wallet invariant |
| Recovery.ForeignNullifiers | client/src/mock.rs:799-804 | operations of others record no new nullifier of this key, even when they fail halfway |
| Recovery.HonestOutputsInserted | client/src/mock.rs:806-820 | an own transfer appends the payment's and then the change's ciphertext |
| Recovery.TransferOutcome | client/src/client.rs:469-546 | an own transfer spends one entry, records its nullifier, and its change is what a scan finds after the payment |
| Recovery.ShieldKeepsDevice | client/src/client.rs:388-455 | deposits keep the wallet invariant |
| Recovery.TransferKeepsDevice | client/src/client.rs:469-546 | transfers keep it |
| Recovery.UnshieldKeepsDevice | client/src/client.rs:559-651 | withdrawals keep it |
| Recovery.OthersKeepInv | client/src/mock.rs:711-884 | everybody else's operations keep it |
| Recovery.HistoryKeepsInv | client/src/client.rs:388-651 | the wallet invariant holds after every single-device history |
| Agreement.RecoveryAgrees | client/src/client.rs:659-744 | a fresh client recovers at least the online wallet's unspent notes, and exactly that multiset once all payment notices are processed |
| Agreement.RecoveredBalance | client/src/client.rs:153-159 | hence the balance of every asset is the online one |
| Agreement.SharedNonceDiverges | client/src/client.rs:713-740 | an unspent entry that shares its nonce with the one just withdrawn stays listed, and no scan recovers it |
| Agreement.WithdrawalKeepsAgreementIff | client/src/client.rs:559-651 | a withdrawal keeps online list and scan in agreement if and only if no other unspent entry carries the spent nonce |
| Agreement.RepeatedNonceDiverges | client/src/client.rs:713-740 | a three-step history from genesis, one nonce used for two deposits: the online and the recovered multiset differ with no notice pending |
| Composition.HistoryIsRun | client/src/client.rs:388-651 | for every history the device sees the very ledger that the run of its and others' requests produces |
| Composition.HistoryPacked | client/src/client.rs:1073-1121 | own requests are packed, so a history is a packed run when the requests of others are |
| Composition.TransferExplained | client/src/mock.rs:806-820 | what a scan finds among a transfer's outputs are notes it created, with distinct nonces |
| Composition.RunFoundDistinct | client/src/tx_binding.rs:132-141 | over every packed run the notes found for a key have distinct nonces as long as its deposits keep theirs apart |
| Composition.PackedRecoveryAgrees | client/src/client.rs:659-744 | recovery agrees with the online wallet, in notes and in balances, with an assumption on deposit nonces only |
| Composition.UnpackedSpendIsFoundTwice | client/src/mock.rs:799-820 | a run from genesis in which an unpacked transfer, accepted twice, makes a scan find one nonce twice although no deposit pays the key |
| NoteEncryption.SharedPoint | client/src/keys.rs:198-214 | sender and recipient reach the same Diffie-Hellman point |
| NoteEncryption.SerializeNote | client/src/encryption.rs:1126-1136 | the appended bytes are the six fields in order |
| NoteEncryption.NoteRoundTrip | client/src/encryption.rs:1126-1178 | a written note is read back, whatever follows it |
| NoteEncryption.NoteLayout | client/src/encryption.rs:1126-1136 | offset and byte order of each of the six fields |
| NoteEncryption.NoteBytesRoundTrip | client/src/encryption.rs:1126-1178 | 144 bytes survive reading and writing if and only if the four field elements are canonical |
| NoteEncryption.ToBytes | client/src/encryption.rs:344-351 | index, ephemeral key, nonce, ciphertext in order |
| NoteEncryption.FromBytes | client/src/encryption.rs:354-381 | the inverse by copying slices; shorter than 84 bytes is refused |
| NoteEncryption.EncryptedRoundTrip | client/src/encryption.rs:344-381 | both compositions are the identity |
| NoteEncryption.EncryptedLayout | client/src/encryption.rs:344-351 | offset and byte order of index, ephemeral key, nonce and ciphertext |
| NoteEncryption.PointRoundTrip | client/src/encryption.rs:1098-1123 | a serialised point is read back, except the identity, which is refused |
| NoteEncryption.DecryptOutcome | client/src/encryption.rs:689-801 | the result of decrypting a note encrypted to an own address, in every case |
| NoteEncryption.EncryptSeals | client/src/encryption.rs:689-744 | the note is sealed under the key its recipient will derive, with the drawn nonce, bound to index and ephemeral key |
| NoteEncryption.TryDecryptOkIff | client/src/encryption.rs:748-801 | any ciphertext, any key: a note comes out if and only if index and point are good, the cipher opens under the derived key and associated data, the message parses to it, and it names an own address |
| NoteEncryption.TryDecryptRefusals | client/src/encryption.rs:748-801 | each of the four refusals exactly when it is due |
| NoteEncryption.ForeignNoteRefused | client/src/encryption.rs:748-801 | a note for another address is never handed out |
| NoteEncryption.SealedForAnother | client/src/encryption.rs:748-801 | sealed for somebody else: with an authentic ciphertext and no hash collision, a key with another shared point gets DecryptionFailed |
| NoteEncryption.KeyBindsSecret | client/src/encryption.rs:1085-1095 | without a hash collision equal keys mean equal shared points and ephemeral x-coordinates |
| NoteEncryption.AddressParts | client/src/keys.rs:198-239 | without a hash collision the incoming key determines both key coordinates and the base point its index |
| NoteEncryption.AssociatedDataBinds | client/src/encryption.rs:770-773 | equal associated data mean equal index and ephemeral key |
| NoteEncryption.NoteEncryptionRoundTrip | client/src/encryption.rs:689-801 | through its 244 bytes the note comes back if and only if the ephemeral point is not the identity |
| NoteEncryption.EncryptOutgoing | client/src/encryption.rs:545-585 | seals the ephemeral secret and the note under the outgoing key, bound to the commitment |
| NoteEncryption.OutgoingSealed | client/src/encryption.rs:545-585 | drawn nonce, derived key, and the commitment as associated data |
| NoteEncryption.OutgoingKeyBinds | client/src/encryption.rs:526-543 | without a hash collision the outgoing key binds viewing key, ephemeral x-coordinate and commitment |
| NoteEncryption.DecryptOutgoingOutcome | client/src/encryption.rs:600-650 | refused when the cipher does not open or the length is wrong, otherwise exactly what the opened bytes spell |
| NoteEncryption.OutgoingLayout | client/src/encryption.rs:557-561 | where secret, coordinate and note stand in both formats |
| NoteEncryption.OutgoingFormats | client/src/encryption.rs:623-650 | the two plaintext formats are told apart by length; every other length is refused |
| NoteEncryption.OutgoingRoundTrip | client/src/encryption.rs:545-650 | the sender's viewing key recovers what was sent, in either format |
| NoteEncryption.OutputRoundTrip | client/src/encryption.rs:484-510 | the ciphertext pair survives its byte form if and only if the note ciphertext has its nominal length |
| NoteEncryption.OutputLayout | client/src/encryption.rs:484-510 | where commitment, encrypted note, outgoing nonce and outgoing ciphertext stand |
| NoteEncryption.BothPartiesRead | client/src/encryption.rs:824-889 | from the bytes of one output the sender always gets note, recipient and ephemeral secret, and the recipient gets the note if and only if the ephemeral point is not the identity |

## Left out

- Safety.NoInflation: assumes packed input slots, because without them it is false of the code (`Counterexamples.UnpackedSlotsInflate`); the value of unspent notes is counted per distinct note, so re-inserted commitments count once.
- Safety.SingleSpend: assumes packed input slots; without them it is false of the code (`Counterexamples.UnpackedSlotsDoubleSpend`).
- Safety.OutputNoncesNeverRepeat: assumes packed input slots; without them it is false of the code (`Counterexamples.UnpackedSlotsDoubleSpend`).
- Safety.RunKeepsInv: assumes packed input slots, as does Safety.TransferKeepsInv; the invariant contains the three properties above.
- Conservation.ConservationExact: assumes packed input slots, as do Conservation.ConservationGap and Conservation.CleanRunsConserve; without them `Conservation.EveryRunBalances` has a gain to account for.
- Composition.PackedRecoveryAgrees: assumes packed transfers of others, as does Composition.RunFoundDistinct; without them it is false of the code (`Composition.UnpackedSpendIsFoundTwice`).
- LockStep.LockStepIff: one backend per program; what two of them do to each other's mirrors is not modelled beyond the reconnect.
- Agreement.RecoveryAgrees: covers diversifier 0 only, the one that `recover` and `receive_payment` scan, and speaks of a fresh client; a second scan of a non-empty wallet appends again (client/src/client.rs:732-737).
- LocalSync.Program.CheckCall: whether the state account's key is the derived one enters as a Boolean, like the verdict on the proof in the handlers; malformed instruction bytes are not modelled.
- NoteEncryption.DecryptOutcome: is about honest ciphertexts; `NoteEncryption.TryDecryptRefusals` covers all others, as a function of what the AEAD answers. That it refuses a wrong key is assumed of one ciphertext at a time (`NoteEncryption.OpensOnlyUnder`); with a 16-byte tag it cannot hold of all associated data at once.
- NoteEncryption.PointRoundTrip: a point off the curve is the error that `deserialize_point` returns; what the curve library's own constructor does with it is not part of this model.
- The real UltraPlonk and Groth16 circuits and verifiers, command-line backends and build scripts: external tools.
- RPC, keypair loading, transaction building, account rent and derived addresses: foreign calls; each instruction is one atomic step.
- The insides of Poseidon2, Poseidon, Grumpkin arithmetic and ChaCha20-Poly1305: parameters or term constructors.
- `insert_commitment` and `insert_nullifier` as steps of a run: proof-free building blocks of the mock chain.
- `post_ciphertexts` and retrieval of ciphertexts by hash: the outputs here carry their ciphertexts with them.
- SPL token movement: still to be written in the handlers; deposits and withdrawals are totals over the log of accepted operations.
- `sync_incremental`, `import_note`, `refresh_spent_status`, `build_shield`, `to_request`: thin variants of modelled operations, without ciphertexts or with an explicit cursor.
- `MockEncryption`, the out-of-band channel, backend configuration, the Light and Photon clients, and the mock commitment store program: test doubles or thin adapters.
- Concurrency, lock behaviour, serialisation libraries and the quality of randomness.
