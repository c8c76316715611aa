/** The honest prover is always accepted: what the wallet builds is what the chain verifies. */
module Completeness {
  import opened Words
  import opened Bytes
  import opened Field
  import opened MerkleTree
  import opened Traits
  import opened Store
  import opened Proofs
  import opened Ledger
  import opened Wallet

  /** The note is in the tree, at an indexed leaf within the tree's capacity, and sk may spend it. */
  ghost predicate SpendableNote(s: StoreState, note: Note, sk: Fr) {
    && s.WellFormed()
    && note.Commitment() in s.index && s.index[note.Commitment()] < Pow2(s.depth)
    && OwnedBy(note, sk)
  }

  function StoreWitness(s: StoreState, cm: Fr): MembershipWitness
    requires cm in s.index
  {
    WitnessOf(s.leaves, s.index[cm], s.depth)
  }

  lemma {:induction false} StoreWitnessAccepted(s: StoreState, note: Note, sk: Fr)
    requires SpendableNote(s, note, sk)
    ensures Accepted(StoreWitness(s, note.Commitment()), note.Commitment())
    ensures StoreWitness(s, note.Commitment()).root == s.Root()
  {
    var i := s.index[note.Commitment()];
    WitnessAcceptedWithinCapacity(s.leaves, i, s.depth);
  }

  // ---------------------------------------------------------------------------
  // Transfers
  // ---------------------------------------------------------------------------

  lemma {:induction false} OneSpent(slots: Inputs3)
    requires slots[0].enabled && !slots[1].enabled && !slots[2].enabled
    ensures SpentNotes(slots) == [slots[0].note] && Total(SpentNotes(slots)) == slots[0].note.amount
  {
    assert slots[..3] == slots && slots[..0] == [];
    SpentNotesStep(slots, 0);
    SpentNotesStep(slots, 1);
    SpentNotesStep(slots, 2);
    TotalStep([], slots[0].note);
    assert [] + [slots[0].note] == [slots[0].note];
  }

  lemma {:induction false} PaymentAndChange(slots: Outputs3)
    requires slots[0].enabled && !slots[2].enabled
    ensures CreatedNotes(slots) == [slots[0].note] + (if slots[1].enabled then [slots[1].note] else [])
    ensures Total(CreatedNotes(slots)) == slots[0].note.amount + (if slots[1].enabled then slots[1].note.amount else 0)
  {
    var first := slots[0].note;
    assert slots[..3] == slots && slots[..0] == [];
    CreatedNotesStep(slots, 0);
    CreatedNotesStep(slots, 1);
    CreatedNotesStep(slots, 2);
    TotalStep([], first);
    TotalStep([first], slots[1].note);
    assert [] + [first] == [first] && [first] + [] == [first];
  }

  /** Real ciphertext hashes stand in the enabled output slots and nowhere else. */
  predicate HashesMarkOutputs(data: TransferData, ctHashes: Fr3) {
    ctHashes[0] != ZERO && (ctHashes[1] != ZERO <==> data.change.Some?) && ctHashes[2] == ZERO
  }

  /** The built transfer balances: same asset throughout, payment plus change is the note spent. */
  lemma {:induction false} BuiltTransferBalances(sk: Fr, owned: OwnedNote, w: MembershipWitness, to: Address,
          amount: u64, coins: TransferCoins)
    requires amount <= owned.note.amount
    ensures var data := BuildTransfer(sk, owned, w, to, amount, coins);
            var priv := SpendPrivate(data, sk);
      && SpentNotes(priv.inputs) == [owned.note]
      && |CreatedNotes(priv.outputs)| == data.OutputCount()
      && Total(SpentNotes(priv.inputs)) == Total(CreatedNotes(priv.outputs))
      && SingleAsset(priv)
  {
    hide DeriveOutputNonce, TxBindingTransfer, AddressField, NullifierOf;
    var data := BuildTransfer(sk, owned, w, to, amount, coins);
    var priv := SpendPrivate(data, sk);
    OneSpent(priv.inputs);
    PaymentAndChange(priv.outputs);
  }

  /**
   Completeness of the transfer circuit: for every spendable note and every amount up to its
   value, what the wallet builds satisfies the whole transfer statement.
   */
  lemma {:induction false} BuiltTransferHolds(s: StoreState, sk: Fr, owned: OwnedNote, to: Address, amount: u64,
          coins: TransferCoins, ctHashes: Fr3)
    requires SpendableNote(s, owned.note, sk) && amount <= owned.note.amount
    requires var data := BuildTransfer(sk, owned, StoreWitness(s, owned.note.Commitment()), to, amount, coins);
             HashesMarkOutputs(data, ctHashes)
    ensures var data := BuildTransfer(sk, owned, StoreWitness(s, owned.note.Commitment()), to, amount, coins);
            TransferStatement(SpendPublic(data, ctHashes), SpendPrivate(data, sk))
  {
    hide Accepted, SingleAsset, OwnedBy, NullifierOf, TxBindingTransfer, DeriveOutputNonce, AddressField, StoreWitness;
    var w := StoreWitness(s, owned.note.Commitment());
    var data := BuildTransfer(sk, owned, w, to, amount, coins);
    var pub, priv := SpendPublic(data, ctHashes), SpendPrivate(data, sk);
    StoreWitnessAccepted(s, owned.note, sk);
    BuiltTransferBalances(sk, owned, w, to, amount, coins);
    assert InputHolds(pub, priv.inputs[0], 0);
    assert OutputHolds(pub, priv.outputs[0], 0) && OutputHolds(pub, priv.outputs[1], 1);
  }

  lemma {:induction false} EncryptionMarksOutputs(e: Encryption, sk: Fr, data: TransferData, to: Address,
          coins: TransferCoins)
    ensures HashesMarkOutputs(data, EncryptedOutputs(e, sk, data, to, coins).1)
  {
  }

  /**
   The public inputs that the chain rebuilds from the submitted request are the proven ones:
   the counts recomputed from non-zero commitments, the padding and the binding all agree.
   */
  lemma {:induction false} RebuiltIsProven(e: Encryption, sk: Fr, data: TransferData, to: Address, coins: TransferCoins)
    ensures var req := HonestTransfer(e, sk, data, to, coins);
      && req.spendProof.public == TransferPublic(TransferPublicOf(req))
      && Packed(TransferOp(req))
      && WalkedNullifiers(req) == [data.nullifier]
  {
    hide CtHash;
    var req := HonestTransfer(e, sk, data, to, coins);
    CommitmentBinding(data.output);
    CommitmentIsNotNode(data.output.Commitment(), ZERO, ZERO);
    if data.change.Some? {
      CommitmentBinding(data.change.value);
      CommitmentIsNotNode(data.change.value.Commitment(), ZERO, ZERO);
    }
    assert req.outputCount == data.OutputCount();
    var proven, rebuilt := req.spendProof.public.transfer, TransferPublicOf(req);
    assert proven.outputCommitments == rebuilt.outputCommitments;
  }

  lemma {:induction false} SingleNullifierGoesIn(s: LedgerState, nf: Fr)
    requires nf != ZERO
    ensures InsertNullifiers(s, [nf]).1 <==> nf !in s.nullifiers
    ensures nf in s.nullifiers ==> InsertNullifiers(s, [nf]).0 == s
  {
    assert [nf][1..] == [];
  }

  /**
   Honest prover completeness: for every spendable note and every amount up to its value the
   chain accepts the wallet's transfer exactly while the nullifier is unspent; otherwise the
   only complaint is a double spend, and nothing changes.
   */
  lemma {:induction false} HonestTransferAccepted(e: Encryption, s: LedgerState, sk: Fr, owned: OwnedNote,
          to: Address, amount: u64, coins: TransferCoins)
    requires SpendableNote(s.store, owned.note, sk) && amount <= owned.note.amount
    ensures var data := BuildTransfer(sk, owned, StoreWitness(s.store, owned.note.Commitment()), to, amount, coins);
            var req := HonestTransfer(e, sk, data, to, coins);
      && Provable(req.spendProof.public, req.spendProof.private)
      && (ExecTransfer(s, req).1.Ok? <==> NullifierOf(owned.note, sk) !in s.nullifiers)
      && (NullifierOf(owned.note, sk) in s.nullifiers ==> ExecTransfer(s, req) == (s, Err(DoubleSpend)))
  {
    hide TransferStatement, SpendPublic, SpendPrivate, EncryptedOutputs, StoreWitness, TxBindingTransfer,
         DeriveOutputNonce;
    var w := StoreWitness(s.store, owned.note.Commitment());
    var data := BuildTransfer(sk, owned, w, to, amount, coins);
    var req := HonestTransfer(e, sk, data, to, coins);
    EncryptionMarksOutputs(e, sk, data, to, coins);
    BuiltTransferHolds(s.store, sk, owned, to, amount, coins, EncryptedOutputs(e, sk, data, to, coins).1);
    RebuiltIsProven(e, sk, data, to, coins);
    StoreWitnessAccepted(s.store, owned.note, sk);
    SingleNullifierGoesIn(s, data.nullifier);
  }

  // ---------------------------------------------------------------------------
  // Deposits and withdrawals
  // ---------------------------------------------------------------------------

  /** The wallet's deposit is always accepted and its note is in the tree afterwards. */
  lemma {:induction false} HonestShieldAccepted(e: Encryption, s: LedgerState, sk: Fr, token: Bytes32, amount: u64,
          coins: ShieldCoins)
    requires s.store.WellFormed()
    ensures var req := HonestShield(e, sk, token, amount, coins);
            var (t, r) := ExecShield(s, req);
            var cm := ShieldedNote(sk, token, amount, coins).Commitment();
      && r.Ok? && cm in t.store.index && t.store.leaves[t.store.index[cm]] == cm
      && OwnedBy(ShieldedNote(sk, token, amount, coins), sk)
  {
    hide CtHash, ComputeAssetId;
    var req := HonestShield(e, sk, token, amount, coins);
    assert req.ctHash != ZERO by {
      CiphertextHashNotZero(e.encrypt(ShieldedNote(sk, token, amount, coins), AddressOf(sk, 0), coins.encryption));
    }
    assert req.shieldProof.public == ShieldPublic(ShieldPublicOf(req));
  }

  lemma {:induction false} CiphertextHashNotZero(encrypted: (seq<byte>, seq<byte>))
    ensures CtHash(encrypted.1, encrypted.0) != ZERO
  {
  }

  /** The wallet's withdrawal of a whole note is accepted exactly while its nullifier is unspent. */
  lemma {:induction false} HonestUnshieldAccepted(s: LedgerState, sk: Fr, owned: OwnedNote, to: Bytes32, token: Bytes32)
    requires SpendableNote(s.store, owned.note, sk) && owned.note.assetId == ComputeAssetId(token)
    ensures var req := HonestUnshield(sk, owned, StoreWitness(s.store, owned.note.Commitment()), to,
            owned.note.amount, token);
      && Provable(req.spendProof.public, req.spendProof.private)
      && (ExecUnshield(s, req).1.Ok? <==> NullifierOf(owned.note, sk) !in s.nullifiers)
      && (NullifierOf(owned.note, sk) in s.nullifiers ==> ExecUnshield(s, req) == (s, Err(DoubleSpend)))
  {
    hide StoreWitness, TxBindingUnshield, ComputeAssetId, RecipientLimbs;
    StoreWitnessAccepted(s.store, owned.note, sk);
    var req := HonestUnshield(sk, owned, StoreWitness(s.store, owned.note.Commitment()), to, owned.note.amount, token);
    assert req.spendProof.public == UnshieldPublic(UnshieldPublicOf(req));
  }

  // ---------------------------------------------------------------------------
  // When the wallet's own operations succeed
  // ---------------------------------------------------------------------------

  /** Every entry is a spendable note of sk under its true commitment, and no commitment repeats. */
  ghost predicate WalletSound(s: StoreState, notes: seq<OwnedNote>, sk: Fr) {
    && (forall k :: 0 <= k < |notes| ==>
          notes[k].commitment == notes[k].note.Commitment() && SpendableNote(s, notes[k].note, sk))
    && (forall j, k :: 0 <= j < k < |notes| ==> notes[j].commitment != notes[k].commitment)
  }

  lemma {:induction false} CommitmentNamesEntry(notes: seq<OwnedNote>, i: nat)
    requires i < |notes|
    requires forall j, k :: 0 <= j < k < |notes| ==> notes[j].commitment != notes[k].commitment
    ensures FindByCommitment(notes, notes[i].commitment) == i
  {
  }

  /** Preparing a spend: unknown entry, spent entry, or a commitment the store has not indexed. */
  lemma {:induction false} PrepareRefuses(s: StoreState, notes: seq<OwnedNote>, cm: Fr)
    ensures var r := PrepareSpend(s, notes, cm);
      && (r == Err(NoteNotFound) <==> forall k :: 0 <= k < |notes| ==> notes[k].commitment != cm)
      && (r == Err(AlreadySpent) <==> exists k ::
            0 <= k < |notes| && notes[k].commitment == cm && notes[k].spent
            && forall j :: 0 <= j < k ==> notes[j].commitment != cm)
      && (r == Err(StoreFailed(NotFound)) ==> cm !in s.index)
      && (r.Ok? ==> cm in s.index && r.value.1 == StoreWitness(s, cm))
  {
    var i := FindByCommitment(notes, cm);
  }

  lemma {:induction false} PrepareSucceeds(s: StoreState, notes: seq<OwnedNote>, sk: Fr, i: nat)
    requires WalletSound(s, notes, sk) && i < |notes| && !notes[i].spent
    ensures PrepareSpend(s, notes, notes[i].commitment) == Ok((notes[i], StoreWitness(s, notes[i].commitment)))
  {
    CommitmentNamesEntry(notes, i);
  }

  /**
   `transfer_to` succeeds exactly when some unspent note of the asset covers the amount and the
   first such note has not been spent on chain behind the wallet's back, while the balance of the
   asset, summed for an error that may not arise, fits in 64 bits.
   */
  lemma {:induction false} TransferSucceedsIff(e: Encryption, sk: Fr, s: LedgerState, notes: seq<OwnedNote>,
          to: Address, amount: u64, asset: Fr, coins: TransferCoins)
    requires WalletSound(s.store, notes, sk)
    ensures var i := FindSpendable(notes, asset, amount);
            var (t, after, r) := WalletTransfer(e, sk, s, notes, to, amount, asset, coins);
      && (r.Ok? <==>
            i < |notes| && NullifierOf(notes[i].note, sk) !in s.nullifiers && Balance(notes, asset) < TWO_64)
      && (r.Err? ==> t == s && after == notes)
      && (r.Err? ==>
            r.error == if Balance(notes, asset) >= TWO_64 then Aborted
            else if i == |notes| then InsufficientBalance(Balance(notes, asset), amount)
            else ChainFailed(DoubleSpend))
  {
    hide ExecTransfer, HonestTransfer, BuildTransfer, Provable, StoreWitness, AfterTransfer, NullifierOf, SpendableNote;
    var i := FindSpendable(notes, asset, amount);
    if i < |notes| {
      PrepareSucceeds(s.store, notes, sk, i);
      HonestTransferAccepted(e, s, sk, notes[i], to, amount, coins);
    }
  }

  /**
   `unshield` gives no change: it succeeds exactly when the FIRST unspent note of the asset that
   covers the amount has exactly that amount and is unspent on chain, and the balance fits in 64 bits.
   */
  lemma {:induction false} UnshieldSucceedsIff(sk: Fr, s: LedgerState, notes: seq<OwnedNote>, to: Bytes32,
          amount: u64, token: Bytes32)
    requires WalletSound(s.store, notes, sk)
    ensures var i := FindSpendable(notes, ComputeAssetId(token), amount);
            var (t, after, r) := WalletUnshield(sk, s, notes, to, amount, token);
      && (r.Ok? <==>
            && i < |notes| && notes[i].note.amount == amount && NullifierOf(notes[i].note, sk) !in s.nullifiers
            && Balance(notes, ComputeAssetId(token)) < TWO_64)
      && (r.Err? ==> t == s && after == notes)
      && (r.Err? ==>
            r.error == if Balance(notes, ComputeAssetId(token)) >= TWO_64 then Aborted
            else if i == |notes| then InsufficientBalance(Balance(notes, ComputeAssetId(token)), amount)
            else if notes[i].note.amount != amount then InsufficientBalance(notes[i].note.amount, amount)
            else ChainFailed(DoubleSpend))
  {
    hide ExecUnshield, HonestUnshield, Provable, StoreWitness, NullifierOf, SpendableNote, MarkSpent, ComputeAssetId;
    var i := FindSpendable(notes, ComputeAssetId(token), amount);
    if i < |notes| {
      PrepareSucceeds(s.store, notes, sk, i);
      if notes[i].note.amount == amount {
        HonestUnshieldAccepted(s, sk, notes[i], to, token);
      }
    }
  }

  /** A larger note listed first hides an exact one: the withdrawal is refused though a note fits. */
  lemma {:induction false} ExactNoteCanBeMissed(sk: Fr, s: LedgerState, large: OwnedNote, exact: OwnedNote,
          to: Bytes32, token: Bytes32)
    requires WalletSound(s.store, [large, exact], sk)
    requires Spendable(large, ComputeAssetId(token), exact.note.amount) && large.note.amount > exact.note.amount
    requires Spendable(exact, ComputeAssetId(token), exact.note.amount)
    ensures WalletUnshield(sk, s, [large, exact], to, exact.note.amount, token).2.Err?
    ensures NullifierOf(exact.note, sk) !in s.nullifiers ==>
      WalletUnshield(sk, s, [exact], to, exact.note.amount, token).2.Ok?
  {
    var both := [large, exact];
    assert both[0] == large && both[1] == exact;
    assert FindSpendable(both, ComputeAssetId(token), exact.note.amount) == 0;
    UnshieldSucceedsIff(sk, s, both, to, exact.note.amount, token);
    assert WalletSound(s.store, [exact], sk);
    assert [exact][..0] == [] && Balance([exact], ComputeAssetId(token)) == exact.note.amount;
    UnshieldSucceedsIff(sk, s, [exact], to, exact.note.amount, token);
  }
}
