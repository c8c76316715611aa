/**
 What the wallet asks for is what happens: who is paid how much, what the payer keeps, and what the
 payee's scan finds (client/src/client.rs).
 */
module Delivery {
  import opened Words
  import opened Bytes
  import opened Field
  import opened MerkleTree
  import opened Traits
  import opened Store
  import opened Proofs
  import opened Ledger
  import opened Wallet
  import opened Completeness
  import opened Recovery
  import opened Agreement
  import opened Composition
  import opened Answers

  /** Entries carry the commitments of their notes. */
  predicate Named(notes: seq<OwnedNote>) {
    forall k :: 0 <= k < |notes| ==> notes[k].commitment == notes[k].note.Commitment()
  }

  /** The wallet prepares the very entry it selected. */
  lemma {:induction false} SelectedIsPrepared(s: StoreState, notes: seq<OwnedNote>, asset: Fr, amount: u64)
    requires Named(notes)
    ensures var i := FindSpendable(notes, asset, amount);
            i < |notes| && PrepareSpend(s, notes, notes[i].commitment).Ok? ==>
              && PrepareSpend(s, notes, notes[i].commitment).value.0 == notes[i]
              && FindByCommitment(notes, notes[i].commitment) == i
  {
    var i := FindSpendable(notes, asset, amount);
    if i < |notes| && PrepareSpend(s, notes, notes[i].commitment).Ok? {
      var j := FindByCommitment(notes, notes[i].commitment);
      assert notes[j].commitment == notes[i].commitment;
      CommitmentInjective(notes[j].note, notes[i].note);
      assert j == i;
    }
  }

  /** Spending entry i takes its amount out of the balance of its asset, and of no other. */
  lemma {:induction false} BalanceAfterSpend(notes: seq<OwnedNote>, i: nat, asset: Fr)
    requires i < |notes|
    ensures Balance(notes[i := notes[i].(spent := true)], asset) == Balance(notes, asset) - Counted(notes[i], asset)
  {
    hide Balance;
    var after := notes[i := notes[i].(spent := true)];
    BalanceRemove(notes, i, asset);
    BalanceRemove(after, i, asset);
    assert after[..i] + after[i + 1..] == notes[..i] + notes[i + 1..];
  }

  // ---------------------------------------------------------------------------
  // Transfers
  // ---------------------------------------------------------------------------

  /** An output that pays this amount of this asset to this address, encrypted to it. */
  ghost predicate Pays(e: Encryption, o: OutputCiphertext, note: Note, to: Address, amount: u64, asset: Fr,
                       coins: TransferCoins) {
    && note.amount == amount && note.assetId == asset
    && note.recipient == to.pkdX && note.diversifierIndex == to.diversifierIndex
    && note.noteRandomness == coins.output
    && o.commitment == note.Commitment()
    && (o.ciphertext, o.ephemeralKey) == e.encrypt(note, to, coins.outputEncryption)
    && o.committedCtHash == Some(CtHash(o.ephemeralKey, o.ciphertext))
  }

  /** What a successful `transfer_to` did: one entry of the asset spent, payment out, change kept. */
  ghost predicate Delivered(e: Encryption, sk: Fr, s: LedgerState, notes: seq<OwnedNote>, t: LedgerState,
                            after: seq<OwnedNote>, tx: TxSig, i: nat, data: TransferData, to: Address, amount: u64,
                            asset: Fr, coins: TransferCoins) {
    && i < |notes| && !notes[i].spent && notes[i].note.assetId == asset && amount <= notes[i].note.amount
    && data.output.amount == amount && data.output.assetId == asset
    && data.output.recipient == to.pkdX && data.output.diversifierIndex == to.diversifierIndex
    && data.output.noteRandomness == coins.output
    && (data.change.None? <==> notes[i].note.amount == amount)
    && (data.change.Some? ==>
          var change := data.change.value;
          && change.amount == notes[i].note.amount - amount && change.assetId == asset && OwnedBy(change, sk)
          && change.diversifierIndex == 0 && change.noteRandomness == coins.change)
    && after == notes[i := notes[i].(spent := true)]
         + (if data.change.Some? then [NewOwned(data.change.value, tx)] else [])
    && t.store.ciphertexts == s.store.ciphertexts + HonestCiphertexts(e, sk, data, to, coins, tx)
    && t.nullifiers == s.nullifiers + {NullifierOf(notes[i].note, sk)}
  }

  /** A transfer that the chain takes put exactly its honest ciphertexts there. */
  lemma {:induction false} TransferDelivered(e: Encryption, sk: Fr, s: LedgerState, notes: seq<OwnedNote>, to: Address,
          amount: u64, asset: Fr, coins: TransferCoins)
    requires Named(notes) && WalletTransfer(e, sk, s, notes, to, amount, asset, coins).2.Ok?
    ensures var (t, after, r) := WalletTransfer(e, sk, s, notes, to, amount, asset, coins);
            exists i, data :: Delivered(e, sk, s, notes, t, after, r.value, i, data, to, amount, asset, coins)
  {
    hide HonestTransfer, ExecTransfer, Provable, HonestCiphertexts, PrepareSpend, Balance, TxBindingTransfer,
         DeriveOutputNonce, NullifierOf, AddressField;
    var (t, after, r) := WalletTransfer(e, sk, s, notes, to, amount, asset, coins);
    var i := FindSpendable(notes, asset, amount);
    SelectedIsPrepared(s.store, notes, asset, amount);
    var (owned, w) := PrepareSpend(s.store, notes, notes[i].commitment).value;
    var data := BuildTransfer(sk, owned, w, to, amount, coins);
    assert data.nullifier != ZERO by { NullifierNotZero(owned.note, sk); }
    HonestTransferEffect(e, sk, s, data, to, coins);
    assert OwnAddress(sk, data);
    assert Delivered(e, sk, s, notes, t, after, r.value, i, data, to, amount, asset, coins);
  }

  predicate OwnAddress(sk: Fr, data: TransferData) {
    data.change.Some? ==> data.change.value.recipient == AddressField(sk, 0) && data.change.value.diversifierIndex == 0
  }

  lemma {:induction false} NullifierNotZero(note: Note, sk: Fr)
    ensures NullifierOf(note, sk) != ZERO
  {
  }

  /**
   A successful `transfer_to` costs the payer exactly the amount, in that asset and no other, and the
   first output on chain pays it to the recipient.
   */
  lemma {:induction false} TransferPays(e: Encryption, sk: Fr, s: LedgerState, notes: seq<OwnedNote>, to: Address,
          amount: u64, asset: Fr, coins: TransferCoins)
    requires Named(notes) && WalletTransfer(e, sk, s, notes, to, amount, asset, coins).2.Ok?
    ensures var (t, after, r) := WalletTransfer(e, sk, s, notes, to, amount, asset, coins);
            var outputs := NewOutputs(s, t);
      && Balance(after, asset) == Balance(notes, asset) - amount
      && (forall other :: other != asset ==> Balance(after, other) == Balance(notes, other))
      && outputs != [] && outputs[0].txSig == r.value
      && exists payment :: Pays(e, outputs[0], payment, to, amount, asset, coins)
  {
    hide WalletTransfer, Balance, Delivered, CtHash, OwnedBy, NullifierOf;
    var (t, after, r) := WalletTransfer(e, sk, s, notes, to, amount, asset, coins);
    TransferDelivered(e, sk, s, notes, to, amount, asset, coins);
    var i, data :| Delivered(e, sk, s, notes, t, after, r.value, i, data, to, amount, asset, coins);
    forall a: Fr ensures Balance(after, a) == Balance(notes, a) - (if a == asset then amount else 0) {
      DeliveredBalance(e, sk, s, notes, t, after, r.value, i, data, to, amount, asset, coins, a);
    }
    DeliveredOutput(e, sk, s, notes, t, after, r.value, i, data, to, amount, asset, coins);
    assert Pays(e, NewOutputs(s, t)[0], data.output, to, amount, asset, coins);
  }

  lemma {:induction false} DeliveredBalance(e: Encryption, sk: Fr, s: LedgerState, notes: seq<OwnedNote>,
          t: LedgerState,
          after: seq<OwnedNote>, tx: TxSig, i: nat, data: TransferData, to: Address, amount: u64, asset: Fr,
          coins: TransferCoins, a: Fr)
    requires Delivered(e, sk, s, notes, t, after, tx, i, data, to, amount, asset, coins)
    ensures Balance(after, a) == Balance(notes, a) - (if a == asset then amount else 0)
  {
    hide Balance, OwnedBy, NullifierOf, HonestCiphertexts;
    var marked := notes[i := notes[i].(spent := true)];
    BalanceAfterSpend(notes, i, a);
    if data.change.Some? {
      BalanceAppend(marked, NewOwned(data.change.value, tx), a);
    } else {
      assert marked + [] == marked;
    }
  }

  lemma {:induction false} DeliveredOutput(e: Encryption, sk: Fr, s: LedgerState, notes: seq<OwnedNote>, t: LedgerState,
          after: seq<OwnedNote>, tx: TxSig, i: nat, data: TransferData, to: Address, amount: u64, asset: Fr,
          coins: TransferCoins)
    requires Delivered(e, sk, s, notes, t, after, tx, i, data, to, amount, asset, coins)
    ensures var outputs := NewOutputs(s, t);
      && outputs == HonestCiphertexts(e, sk, data, to, coins, tx) && outputs != []
      && Pays(e, outputs[0], data.output, to, amount, asset, coins) && outputs[0].txSig == tx
  {
    hide CtHash, OwnedBy, NullifierOf;
  }

  /** The payee, at whatever diversifier it was paid, finds that note and nothing else in the output. */
  lemma {:induction false} PayeeFinds(e: Encryption, payee: Fr, o: OutputCiphertext, note: Note, to: Address,
          amount: u64,
          asset: Fr, coins: TransferCoins, index: u64)
    requires Correct(e) && to == AddressOf(payee, index) && Pays(e, o, note, to, amount, asset, coins)
    ensures Found(e, payee, [o], index) == [(note, o.txSig)]
    ensures OwnedBy(note, payee)
  {
    hide CtHash, TryDecryptOutput;
    OutputDecryptsAt(e, payee, o, note, index, coins.outputEncryption);
    assert [o][..0] == [];
    assert Found(e, payee, [o][..0], index) == [];
  }

  /** Each ciphertext hash in an honest request is that of the ciphertext in the same slot; empty slots have none. */
  lemma {:induction false} HashesMatchSlots(e: Encryption, sk: Fr, data: TransferData, to: Address,
          coins: TransferCoins,
          token: Bytes32, amount: u64, drawn: ShieldCoins)
    ensures var req := HonestTransfer(e, sk, data, to, coins);
            forall j :: 0 <= j < MAX_OUTPUTS ==>
              var o := req.outputs[j];
              && (o.ciphertext.Some? <==> o.ephemeralKey.Some?) && (o.ciphertext.Some? <==> o.commitment != ZERO)
              && req.ctHashes[j] == if o.ciphertext.Some?
                 then CtHash(o.ephemeralKey.value, o.ciphertext.value) else ZERO
    ensures var req := HonestShield(e, sk, token, amount, drawn);
            req.ciphertext.Some? && req.ephemeralKey.Some?
                && req.ctHash == CtHash(req.ephemeralKey.value, req.ciphertext.value)
  {
    hide CtHash, SpendPublic, SpendPrivate, ComputeAssetId;
    CommitmentNotZero(data.output);
    if data.change.Some? {
      CommitmentNotZero(data.change.value);
    }
  }

  // ---------------------------------------------------------------------------
  // Scans at any diversifier
  // ---------------------------------------------------------------------------

  /** An output is taken exactly when it decrypts, opens its commitment, and has the hash it committed to. */
  lemma {:induction false} OutputTakenIff(e: Encryption, sk: Fr, o: OutputCiphertext, index: u64, note: Note)
    ensures TryDecryptOutput(e, sk, o, index) == Some(note) <==>
      && e.decrypt(o.ciphertext, sk, index) == Some(note)
      && note.Commitment() == o.commitment
      && (o.committedCtHash.None? || o.committedCtHash == Some(CtHash(o.ephemeralKey, o.ciphertext)))
  {
    hide CtHash;
  }

  /** An honest output for a note addressed at this index decrypts there. */
  lemma {:induction false} OutputDecryptsAt(e: Encryption, sk: Fr, o: OutputCiphertext, note: Note, index: u64,
          coins: nat)
    requires Correct(e) && note.recipient == AddressField(sk, index) && note.diversifierIndex == index
    requires o.commitment == note.Commitment()
    requires (o.ciphertext, o.ephemeralKey) == e.encrypt(note, AddressOf(sk, index), coins)
    requires o.committedCtHash == Some(CtHash(o.ephemeralKey, o.ciphertext))
    ensures TryDecryptOutput(e, sk, o, index) == Some(note) && OwnedBy(note, sk)
  {
    hide CtHash;
    assert OwnedBy(note, sk);
    assert e.decrypt(e.encrypt(note, AddressOf(sk, note.diversifierIndex), coins).0, sk, note.diversifierIndex)
           == Some(note);
    OutputTakenIff(e, sk, o, index, note);
  }

  /** A scan at an index finds the note of every honest output addressed there, in its place. */
  lemma {:induction false} ScanFindsAt(e: Encryption, sk: Fr, before: seq<OutputCiphertext>, o: OutputCiphertext,
          behind: seq<OutputCiphertext>, note: Note, index: u64, coins: nat)
    requires Correct(e) && note.recipient == AddressField(sk, index) && note.diversifierIndex == index
    requires o.commitment == note.Commitment()
    requires (o.ciphertext, o.ephemeralKey) == e.encrypt(note, AddressOf(sk, index), coins)
    requires o.committedCtHash == Some(CtHash(o.ephemeralKey, o.ciphertext))
    ensures Found(e, sk, before + [o] + behind, index)
         == Found(e, sk, before, index) + [(note, o.txSig)] + Found(e, sk, behind, index)
  {
    hide CtHash, TryDecryptOutput, OwnedBy, AddressField;
    FoundConcat(e, sk, before + [o], behind, index);
    FoundConcat(e, sk, before, [o], index);
    OutputDecryptsAt(e, sk, o, note, index, coins);
    assert [o][..0] == [];
    assert Found(e, sk, [o], index) == [(note, o.txSig)];
  }

  // ---------------------------------------------------------------------------
  // Received payments
  // ---------------------------------------------------------------------------

  function OfTx(outputs: seq<OutputCiphertext>, tx: TxSig): seq<OutputCiphertext> {
    if outputs == [] then []
    else
      var last := outputs[|outputs| - 1];
      OfTx(outputs[..|outputs| - 1], tx) + (if last.txSig == tx then [last] else [])
  }

  function NotesOf(found: seq<(Note, TxSig)>): seq<Note> {
    seq(|found|, i requires 0 <= i < |found| => found[i].0)
  }

  /** `receive_payment` reports exactly what a scan finds among the outputs of that transaction. */
  lemma {:induction false} PaidNotesAreFound(e: Encryption, sk: Fr, outputs: seq<OutputCiphertext>, tx: TxSig)
    ensures PaidNotes(e, sk, outputs, tx) == NotesOf(Found(e, sk, OfTx(outputs, tx), 0))
  {
    hide TryDecryptOutput, Found;
    if outputs == [] {
      FoundNone(e, sk);
    } else {
      var front, last := outputs[..|outputs| - 1], outputs[|outputs| - 1];
      var before := OfTx(front, tx);
      PaidNotesAreFound(e, sk, front, tx);
      if last.txSig == tx {
        FoundConcat(e, sk, before, [last], 0);
        FoundOne(e, sk, last);
      } else {
        assert before + [] == before;
      }
    }
  }

  /** The wallet has an entry under this commitment. */
  ghost predicate Knows(notes: seq<OwnedNote>, cm: Fr) {
    exists k :: 0 <= k < |notes| && notes[k].commitment == cm
  }

  /** What a processed notice adds: unspent notes of that transaction, none known before, none twice. */
  ghost predicate AddedBy(sk: Fr, nfs: set<Fr>, notes: seq<OwnedNote>, after: seq<OwnedNote>, paid: seq<Note>,
          tx: TxSig) {
    && |notes| <= |after| && after[..|notes|] == notes
    && (forall k :: |notes| <= k < |after| ==>
          && after[k].note in paid && after[k] == NewOwned(after[k].note, tx)
          && NullifierOf(after[k].note, sk) !in nfs)
    && (forall j, k :: 0 <= j < k < |after| && |notes| <= k ==> after[j].commitment != after[k].commitment)
    && (forall n :: n in paid ==> Knows(after, n.Commitment()) || NullifierOf(n, sk) in nfs)
  }

  lemma {:induction false} KnowsIff(notes: seq<OwnedNote>, cm: Fr)
    ensures FindByCommitment(notes, cm) < |notes| <==> Knows(notes, cm)
  {
  }

  lemma {:induction false} AddedOne(sk: Fr, nfs: set<Fr>, notes: seq<OwnedNote>, before: seq<OwnedNote>,
          paid: seq<Note>,
          tx: TxSig, note: Note)
    requires AddedBy(sk, nfs, notes, before, paid, tx)
    ensures Knows(before, note.Commitment()) || NullifierOf(note, sk) in nfs ==>
              AddedBy(sk, nfs, notes, before, paid + [note], tx)
    ensures !Knows(before, note.Commitment()) && NullifierOf(note, sk) !in nfs ==>
              AddedBy(sk, nfs, notes, before + [NewOwned(note, tx)], paid + [note], tx)
  {
    hide NullifierOf;
    var after := before + [NewOwned(note, tx)];
    assert after[|before|].commitment == note.Commitment();
    forall cm | Knows(before, cm) ensures Knows(after, cm) {
      var k :| 0 <= k < |before| && before[k].commitment == cm;
      assert after[k] == before[k];
    }
  }

  /** `receive_payment` adds every unspent, unknown note of the transaction once, and nothing else. */
  lemma {:induction false} ReceivedExactly(e: Encryption, sk: Fr, s: LedgerState, notes: seq<OwnedNote>,
          outputs: seq<OutputCiphertext>, tx: TxSig)
    ensures AddedBy(sk, s.nullifiers, notes, Received(e, sk, s, notes, outputs, tx), PaidNotes(e, sk, outputs, tx), tx)
  {
    hide TryDecryptOutput, AddedBy, NullifierOf, Knows;
    if outputs == [] {
      NothingAdded(sk, s.nullifiers, notes, tx);
    } else {
      var front, o := outputs[..|outputs| - 1], outputs[|outputs| - 1];
      ReceivedExactly(e, sk, s, notes, front, tx);
      var before, paid := Received(e, sk, s, notes, front, tx), PaidNotes(e, sk, front, tx);
      var r := TryDecryptOutput(e, sk, o, 0);
      if o.txSig == tx && r.Some? {
        AddedOne(sk, s.nullifiers, notes, before, paid, tx, r.value);
        KnowsIff(before, r.value.Commitment());
      } else {
        assert paid + [] == paid;
      }
    }
  }

  lemma {:induction false} NothingAdded(sk: Fr, nfs: set<Fr>, notes: seq<OwnedNote>, tx: TxSig)
    ensures AddedBy(sk, nfs, notes, notes, [], tx)
  {
  }

  // ---------------------------------------------------------------------------
  // Deposits and withdrawals
  // ---------------------------------------------------------------------------

  /**
   A deposit adds the amount to the balance of the token's asset and to no other; its note is the
   depositor's, with the drawn nonce, and what the chain shows of it is found by a scan.
   */
  lemma {:induction false} ShieldCredits(e: Encryption, sk: Fr, s: LedgerState, notes: seq<OwnedNote>, token: Bytes32,
          amount: u64, coins: ShieldCoins)
    requires WalletShield(e, sk, s, notes, token, amount, coins).2.Ok?
    ensures var (t, after, r) := WalletShield(e, sk, s, notes, token, amount, coins);
            var asset := ComputeAssetId(token);
      && |after| == |notes| + 1 && after[..|notes|] == notes
      && var own := after[|notes|];
      && OwnedBy(own.note, sk) && own.note.diversifierIndex == 0 && !own.spent && own.txSig == r.value
      && own.note.nullifierNonce == coins.nonce && own.note.noteRandomness == coins.randomness
      && Balance(after, asset) == Balance(notes, asset) + amount
      && (forall other :: other != asset ==> Balance(after, other) == Balance(notes, other))
      && (Correct(e) ==> Found(e, sk, NewOutputs(s, t), 0) == [(own.note, r.value)])
  {
    hide ExecShield, HonestShield, Balance, ComputeAssetId, Found, Correct, NewOutputs;
    var note := ShieldedNote(sk, token, amount, coins);
    var r := WalletShield(e, sk, s, notes, token, amount, coins).2;
    forall a: Fr ensures Balance(notes + [NewOwned(note, r.value)], a)
                      == Balance(notes, a) + (if a == ComputeAssetId(token) then amount else 0) {
      BalanceAppend(notes, NewOwned(note, r.value), a);
    }
    if Correct(e) {
      ShieldOutcome(e, sk, s, notes, token, amount, coins);
    }
  }

  /** A withdrawal takes exactly the amount out of the balance of the token's asset, and of no other. */
  lemma {:induction false} UnshieldDebits(sk: Fr, s: LedgerState, notes: seq<OwnedNote>, to: Bytes32, amount: u64,
          token: Bytes32)
    requires Named(notes) && WalletUnshield(sk, s, notes, to, amount, token).2.Ok?
    ensures var (t, after, r) := WalletUnshield(sk, s, notes, to, amount, token);
            var asset := ComputeAssetId(token);
      && Balance(after, asset) == Balance(notes, asset) - amount
      && (forall other :: other != asset ==> Balance(after, other) == Balance(notes, other))
  {
    hide Balance, ComputeAssetId, ExecUnshield, Provable, HonestUnshield, PrepareSpend, NullifierOf;
    WithdrawalOutcome(sk, s, notes, to, amount, token);
    SelectedIsPrepared(s.store, notes, ComputeAssetId(token), amount);
    var i := FindSpendable(notes, ComputeAssetId(token), amount);
    forall a: Fr ensures Balance(notes[i := notes[i].(spent := true)], a)
                      == Balance(notes, a) - (if a == ComputeAssetId(token) then amount else 0) {
      BalanceAfterSpend(notes, i, a);
    }
  }

  // ---------------------------------------------------------------------------
  // Histories: what each own action logs
  // ---------------------------------------------------------------------------

  /** The event that an own action stands for. */
  ghost predicate Means(sk: Fr, a: Action, e: Event) {
    match a
    case SelfShield(token, amount, coins) =>
      && e.Shielded? && e.asset == ComputeAssetId(token) && e.amount == amount
      && OwnedBy(e.note, sk) && e.note.nullifierNonce == coins.nonce
    case SelfTransfer(to, amount, asset, coins) =>
      && e.Transferred? && |e.spent| == 1 && 1 <= |e.created| <= 2
      && e.spent[0].assetId == asset && OwnedBy(e.spent[0], sk)
      && e.created[0].amount == amount && e.created[0].assetId == asset
      && e.created[0].recipient == to.pkdX && e.created[0].diversifierIndex == to.diversifierIndex
      && (|e.created| == 2 ==> OwnedBy(e.created[1], sk) && e.created[1].assetId == asset)
      && e.spent[0].amount == amount + (if |e.created| == 2 then e.created[1].amount else 0)
    case SelfUnshield(to, amount, token) =>
      && e.Unshielded? && e.asset == ComputeAssetId(token) && e.amount == amount && e.recipient == to
      && OwnedBy(e.note, sk)
    case _ => true
  }

  /** Whatever an own action submits, if the chain takes it, is logged as what was asked for. */
  lemma {:induction false} SubmittedMeans(e: Encryption, sk: Fr, d: Device, a: Action)
    requires Named(d.notes)
    ensures forall op :: op in Submitted(e, sk, d, a) && Exec(d.ledger, op).1.Ok? ==>
            Means(sk, a, EventOf(d.ledger, op))
  {
    match a
    case SelfShield(token, amount, coins) => ShieldMeans(e, sk, d.ledger, token, amount, coins);
    case SelfTransfer(to, amount, asset, coins) =>
      forall op | op in Submitted(e, sk, d, a) && Exec(d.ledger, op).1.Ok? ensures Means(sk, a, EventOf(d.ledger, op)) {
        TransferMeans(e, sk, d.ledger, d.notes, to, amount, asset, coins, op);
      }
    case SelfUnshield(to, amount, token) =>
      forall op | op in Submitted(e, sk, d, a) && Exec(d.ledger, op).1.Ok? ensures Means(sk, a, EventOf(d.ledger, op)) {
        UnshieldMeans(sk, d.ledger, d.notes, to, amount, token, op);
      }
    case _ =>
  }

  lemma {:induction false} ShieldMeans(e: Encryption, sk: Fr, s: LedgerState, token: Bytes32, amount: u64,
          coins: ShieldCoins)
    requires ExecShield(s, HonestShield(e, sk, token, amount, coins)).1.Ok?
    ensures var op := ShieldOp(HonestShield(e, sk, token, amount, coins));
            Means(sk, SelfShield(token, amount, coins), EventOf(s, op))
  {
    hide ComputeAssetId, CtHash;
  }

  lemma {:induction false} TransferMeans(e: Encryption, sk: Fr, s: LedgerState, notes: seq<OwnedNote>, to: Address,
          amount: u64, asset: Fr, coins: TransferCoins, op: Op)
    requires Named(notes) && op in SubmittedTransfer(e, sk, s.store, notes, to, amount, asset, coins)
             && Exec(s, op).1.Ok?
    ensures Means(sk, SelfTransfer(to, amount, asset, coins), EventOf(s, op))
  {
    hide Balance, PrepareSpend, ExecTransfer, EventOf, HonestTransfer, BuildTransfer, Means;
    var i := FindSpendable(notes, asset, amount);
    SelectedIsPrepared(s.store, notes, asset, amount);
    var (owned, w) := PrepareSpend(s.store, notes, notes[i].commitment).value;
    BuiltMeans(e, sk, s, owned, w, to, amount, coins);
  }

  lemma {:induction false} BuiltMeans(e: Encryption, sk: Fr, s: LedgerState, owned: OwnedNote, w: MembershipWitness,
          to: Address, amount: u64, coins: TransferCoins)
    requires amount <= owned.note.amount
    requires var req := HonestTransfer(e, sk, BuildTransfer(sk, owned, w, to, amount, coins), to, coins);
             Provable(req.spendProof.public, req.spendProof.private) && ExecTransfer(s, req).1.Ok?
    ensures var req := HonestTransfer(e, sk, BuildTransfer(sk, owned, w, to, amount, coins), to, coins);
            Means(sk, SelfTransfer(to, amount, owned.note.assetId, coins), EventOf(s, TransferOp(req)))
  {
    hide CtHash, TxBindingTransfer, DeriveOutputNonce, NullifierOf, SpentNotes, CreatedNotes, ExecTransfer, Verifies,
         Provable;
    var data := BuildTransfer(sk, owned, w, to, amount, coins);
    var priv := SpendPrivate(data, sk);
    var req := HonestTransfer(e, sk, data, to, coins);
    OneSpent(priv.inputs);
    PaymentAndChange(priv.outputs);
    ProvableSpends(req.spendProof.public, priv);
  }

  lemma {:induction false} ProvableSpends(pub: ProofPublicInputs, priv: TransferPrivateInputs)
    requires Provable(pub, TransferPrivate(priv)) && priv.inputs[0].enabled
    ensures OwnedBy(priv.inputs[0].note, priv.inputs[0].spendingKey)
  {
    assert InputHolds(pub.transfer, priv.inputs[0], 0);
  }

  lemma {:induction false} UnshieldMeans(sk: Fr, s: LedgerState, notes: seq<OwnedNote>, to: Bytes32, amount: u64,
          token: Bytes32, op: Op)
    requires op in SubmittedUnshield(sk, s.store, notes, to, amount, token) && Exec(s, op).1.Ok?
    ensures Means(sk, SelfUnshield(to, amount, token), EventOf(s, op))
    ensures op.UnshieldOp? && op.unshield.recipient == to && op.unshield.amount == amount
    ensures op.unshield.tokenAddress == token && op.unshield.spendProof.public.UnshieldPublic?
    ensures RecipientBytes(op.unshield.spendProof.public.unshield.publicRecipientLimbs) == to
  {
    hide Balance, PrepareSpend, ComputeAssetId, TxBindingUnshield, RecipientBytes, RecipientLimbs, FindSpendable;
    RecipientLimbsInverse(to, RecipientLimbs(to));
    ProofPaysOneRecipient(op.unshield, op.unshield);
    AcceptedUnshield(UnshieldPublicOf(op.unshield), op.unshield.spendProof);
  }

  lemma {:induction false} ReceivedNamed(e: Encryption, sk: Fr, s: LedgerState, notes: seq<OwnedNote>,
          outputs: seq<OutputCiphertext>, tx: TxSig)
    requires Named(notes)
    ensures Named(Received(e, sk, s, notes, outputs, tx))
  {
    hide TryDecryptOutput;
    if outputs != [] {
      ReceivedNamed(e, sk, s, notes, outputs[..|outputs| - 1], tx);
    }
  }

  lemma {:induction false} NamedChanges(notes: seq<OwnedNote>, cm: Fr, note: Note, tx: TxSig)
    requires Named(notes)
    ensures Named(MarkSpent(notes, cm)) && Named(notes + [NewOwned(note, tx)])
  {
  }

  lemma {:induction false} AfterTransferNamed(notes: seq<OwnedNote>, data: TransferData, tx: TxSig)
    requires Named(notes)
    ensures Named(AfterTransfer(notes, data, tx))
  {
    hide Named, MarkSpent;
    NamedChanges(notes, data.spentCommitment, data.output, tx);
    var marked := MarkSpent(notes, data.spentCommitment);
    if data.change.Some? {
      NamedChanges(marked, ZERO, data.change.value, tx);
    } else {
      assert marked + [] == marked;
    }
  }

  lemma {:induction false} ActNamed(e: Encryption, sk: Fr, d: Device, a: Action)
    requires Named(d.notes)
    ensures Named(Act(e, sk, d, a).notes)
  {
    hide ExecShield, ExecTransfer, ExecUnshield, HonestShield, HonestTransfer, HonestUnshield, BuildTransfer, MarkSpent,
         PrepareSpend, Provable, Found, Received, NewOutputs, Balance, ComputeAssetId, ShieldedNote, AfterTransfer,
             Named;
    match a
    case SelfShield(token, amount, coins) =>
      forall tx ensures Named(d.notes + [NewOwned(ShieldedNote(sk, token, amount, coins), tx)]) {
        NamedChanges(d.notes, ZERO, ShieldedNote(sk, token, amount, coins), tx);
      }
    case SelfTransfer(to, amount, asset, coins) =>
      forall data, tx ensures Named(AfterTransfer(d.notes, data, tx)) {
        AfterTransferNamed(d.notes, data, tx);
      }
    case SelfUnshield(to, amount, token) =>
      forall cm ensures Named(MarkSpent(d.notes, cm)) {
        NamedChanges(d.notes, cm, ZERO_NOTE, MockTx(0));
      }
    case Receive(tx) => ReceivedNamed(e, sk, d.ledger, d.notes, d.ledger.store.ciphertexts, tx);
    case Others(_) =>
  }

  /** Whatever happened, every entry carries its note's commitment. */
  lemma {:induction false} HistoryNamed(e: Encryption, sk: Fr, depth: nat, maxAnchors: nat, actions: seq<Action>)
    ensures Named(History(e, sk, depth, maxAnchors, actions).notes)
  {
    hide Act;
    if actions != [] {
      var k := |actions| - 1;
      HistoryNamed(e, sk, depth, maxAnchors, actions[..k]);
      ActNamed(e, sk, History(e, sk, depth, maxAnchors, actions[..k]), actions[k]);
    }
  }

  /**
   Over every history of one device: when an own action makes the log grow, the new event is what the
   action asked for, in asset, amount and payee.
   */
  lemma {:induction false} HistoryMeans(e: Encryption, sk: Fr, depth: nat, maxAnchors: nat, actions: seq<Action>,
          a: Action)
    ensures var before := Run(depth, maxAnchors, HistoryOps(e, sk, depth, maxAnchors, actions)).log;
            var after := Run(depth, maxAnchors, HistoryOps(e, sk, depth, maxAnchors, actions + [a])).log;
            after == before || (|after| == |before| + 1 && after[..|before|] == before && Means(sk, a, after[|before|]))
  {
    hide Submitted, Exec, EventOf, Means, Act, Named, HistoryOps, History, Run;
    var d := History(e, sk, depth, maxAnchors, actions);
    var ops := HistoryOps(e, sk, depth, maxAnchors, actions);
    var added := Submitted(e, sk, d, a);
    var w := Run(depth, maxAnchors, ops);
    HistoryNamed(e, sk, depth, maxAnchors, actions);
    HistoryOpsSnoc(e, sk, depth, maxAnchors, actions, a);
    SubmittedMeans(e, sk, d, a);
    HistoryIsRun(e, sk, depth, maxAnchors, actions);
    if added == [] {
      assert ops + added == ops;
    } else {
      var op := added[0];
      assert added == [op] && op in added;
      LogSnoc(depth, maxAnchors, ops, op);
    }
  }

  lemma {:induction false} HistoryOpsSnoc(e: Encryption, sk: Fr, depth: nat, maxAnchors: nat, actions: seq<Action>,
          a: Action)
    ensures HistoryOps(e, sk, depth, maxAnchors, actions + [a])
         == HistoryOps(e, sk, depth, maxAnchors, actions)
          + Submitted(e, sk, History(e, sk, depth, maxAnchors, actions), a)
  {
    hide Submitted, History;
    assert (actions + [a])[..|actions|] == actions;
  }

  lemma {:induction false} LogSnoc(depth: nat, maxAnchors: nat, ops: seq<Op>, op: Op)
    ensures var w := Run(depth, maxAnchors, ops);
            var after := Run(depth, maxAnchors, ops + [op]).log;
            after == if Exec(w.ledger, op).1.Ok? then w.log + [EventOf(w.ledger, op)] else w.log
  {
    hide Exec, EventOf;
    assert (ops + [op])[..|ops|] == ops;
  }
}
