/**
 Recovery from the seed agrees with the online wallet: one device that shields, transfers,
 unshields and processes payment notices while everybody else uses the chain too, against a
 fresh client that only scans the chain (client/src/client.rs).
 */
module Recovery {
  import opened Words
  import opened Bytes
  import opened Field
  import opened MerkleTree
  import opened Traits
  import opened Store
  import opened Proofs
  import opened Value
  import opened Ledger
  import opened Safety
  import opened Wallet
  import opened Completeness

  // ---------------------------------------------------------------------------
  // Histories of one device
  // ---------------------------------------------------------------------------

  /** Ledger, the device's note list, and the payment notices it has not processed yet. */
  datatype Device = Device(ledger: LedgerState, notes: seq<OwnedNote>, pending: set<TxSig>)

  datatype Action =
    | SelfShield(token: Bytes32, deposit: u64, shieldCoins: ShieldCoins)
    | SelfTransfer(to: Address, payment: u64, asset: Fr, transferCoins: TransferCoins)
    | SelfUnshield(recipient: Bytes32, withdrawal: u64, token: Bytes32)
    | Receive(tx: TxSig)
    | Others(op: Op)

  function NewCiphertexts(s: StoreState, t: StoreState): seq<OutputCiphertext> {
    if |s.ciphertexts| <= |t.ciphertexts| then t.ciphertexts[|s.ciphertexts|..] else []
  }

  function NewOutputs(s: LedgerState, t: LedgerState): seq<OutputCiphertext> { NewCiphertexts(s.store, t.store) }

  /** The payment of an own transfer comes first; the change after it is the wallet's own business. */
  function PaymentOutput(outputs: seq<OutputCiphertext>): seq<OutputCiphertext> {
    if outputs == [] then [] else outputs[..1]
  }

  /** Transactions among these outputs that pay the key. */
  function PayingTxs(e: Encryption, sk: Fr, outputs: seq<OutputCiphertext>): set<TxSig> {
    set p | p in Found(e, sk, outputs, 0) :: p.1
  }

  function Act(e: Encryption, sk: Fr, d: Device, a: Action): Device {
    match a
    case SelfShield(token, amount, coins) =>
      var (t, notes, _) := WalletShield(e, sk, d.ledger, d.notes, token, amount, coins);
      Device(t, notes, d.pending)
    case SelfTransfer(to, amount, asset, coins) =>
      var (t, notes, _) := WalletTransfer(e, sk, d.ledger, d.notes, to, amount, asset, coins);
      Device(t, notes, d.pending + PayingTxs(e, sk, PaymentOutput(NewOutputs(d.ledger, t))))
    case SelfUnshield(to, amount, token) =>
      var (t, notes, _) := WalletUnshield(sk, d.ledger, d.notes, to, amount, token);
      Device(t, notes, d.pending)
    case Receive(tx) =>
      Device(d.ledger, Received(e, sk, d.ledger, d.notes, d.ledger.store.ciphertexts, tx), d.pending - {tx})
    case Others(op) =>
      var t := Exec(d.ledger, op).0;
      Device(t, d.notes, d.pending + PayingTxs(e, sk, NewOutputs(d.ledger, t)))
  }

  function History(e: Encryption, sk: Fr, depth: nat, maxAnchors: nat, actions: seq<Action>): Device {
    if actions == [] then Device(Genesis(depth, maxAnchors), [], {})
    else Act(e, sk, History(e, sk, depth, maxAnchors, actions[..|actions| - 1]), actions[|actions| - 1])
  }

  /** Nobody else spends with this key, except by replaying a spend that is already recorded. */
  ghost predicate Foreign(s: LedgerState, op: Op, sk: Fr) {
    match op
    case ShieldOp(_) => true
    case TransferOp(req) =>
      Verifies(TransferPublic(TransferPublicOf(req)), req.spendProof) && req.spendProof.private.TransferPrivate? ==>
        forall i :: 0 <= i < MAX_INPUTS ==> ForeignSlot(s, req.spendProof.private.transfer.inputs[i], sk)
    case UnshieldOp(req) =>
      Verifies(UnshieldPublic(UnshieldPublicOf(req)), req.spendProof) && req.spendProof.private.UnshieldPrivate? ==>
        var priv := req.spendProof.private.unshield;
        priv.spendingKey == sk ==> NullifierOf(priv.note, sk) in s.nullifiers
  }

  predicate ForeignSlot(s: LedgerState, slot: InputSlot, sk: Fr) {
    slot.enabled && slot.spendingKey == sk ==> NullifierOf(slot.note, sk) in s.nullifiers
  }

  ghost predicate SingleDevice(e: Encryption, sk: Fr, depth: nat, maxAnchors: nat, actions: seq<Action>) {
    actions != [] ==>
      var k := |actions| - 1;
      && SingleDevice(e, sk, depth, maxAnchors, actions[..k])
      && (actions[k].Others? ==> Foreign(History(e, sk, depth, maxAnchors, actions[..k]).ledger, actions[k].op, sk))
  }

  predicate DistinctNonces(found: seq<(Note, TxSig)>) {
    forall i, j :: 0 <= i < j < |found| ==> found[i].0.nullifierNonce != found[j].0.nullifierNonce
  }

  // ---------------------------------------------------------------------------
  // The invariant
  // ---------------------------------------------------------------------------

  /** Entries were found on chain and carry their true commitment. */
  ghost predicate EntriesFound(notes: seq<OwnedNote>, found: seq<(Note, TxSig)>) {
    forall k :: 0 <= k < |notes| ==>
      notes[k].commitment == notes[k].note.Commitment() && (notes[k].note, notes[k].txSig) in found
  }

  predicate NoncesApart(notes: seq<OwnedNote>) {
    forall j, k :: 0 <= j < k < |notes| ==> notes[j].note.nullifierNonce != notes[k].note.nullifierNonce
  }

  ghost predicate SpentMatches(notes: seq<OwnedNote>, nfs: set<Fr>, sk: Fr) {
    forall k :: 0 <= k < |notes| ==> (notes[k].spent <==> NullifierOf(notes[k].note, sk) in nfs)
  }

  ghost predicate HasNonce(notes: seq<OwnedNote>, x: Fr) {
    exists k :: 0 <= k < |notes| && notes[k].note.nullifierNonce == x
  }

  /** Every recorded nullifier of the key belongs to an entry. */
  ghost predicate NullifiersExplained(notes: seq<OwnedNote>, nfs: set<Fr>, sk: Fr) {
    forall x: Fr :: ComputeNullifier(Nsk(sk), x) in nfs ==> HasNonce(notes, x)
  }

  ghost predicate Good(notes: seq<OwnedNote>, found: seq<(Note, TxSig)>, nfs: set<Fr>, sk: Fr) {
    EntriesFound(notes, found) && NoncesApart(notes) && SpentMatches(notes, nfs, sk)
        && NullifiersExplained(notes, nfs, sk)
  }

  ghost predicate HasNote(notes: seq<OwnedNote>, p: (Note, TxSig)) {
    exists k :: 0 <= k < |notes| && notes[k].note == p.0 && notes[k].txSig == p.1
  }

  /** Whatever is on chain for the key is in the wallet or still announced. */
  ghost predicate Covered(notes: seq<OwnedNote>, found: seq<(Note, TxSig)>, pending: set<TxSig>) {
    forall p :: p in found ==> HasNote(notes, p) || p.1 in pending
  }

  function FoundOn(e: Encryption, sk: Fr, s: LedgerState): seq<(Note, TxSig)> {
    Found(e, sk, s.store.ciphertexts, 0)
  }

  ghost predicate DeviceInv(e: Encryption, sk: Fr, d: Device) {
    var found := FoundOn(e, sk, d.ledger);
    Good(d.notes, found, d.ledger.nullifiers, sk) && Covered(d.notes, found, d.pending)
  }

  // ---------------------------------------------------------------------------
  // Effects on the note list
  // ---------------------------------------------------------------------------

  lemma {:induction false} GoodGrows(notes: seq<OwnedNote>, found: seq<(Note, TxSig)>, more: seq<(Note, TxSig)>,
          nfs: set<Fr>, sk: Fr)
    requires Good(notes, found, nfs, sk)
    ensures Good(notes, found + more, nfs, sk)
  {
  }

  lemma {:induction false} AddKeepsGood(notes: seq<OwnedNote>, found: seq<(Note, TxSig)>, nfs: set<Fr>, sk: Fr,
          note: Note, tx: TxSig)
    requires Good(notes, found, nfs, sk)
    requires (note, tx) in found && !HasNonce(notes, note.nullifierNonce)
    ensures Good(notes + [NewOwned(note, tx)], found, nfs, sk)
  {
    var after := notes + [NewOwned(note, tx)];
    forall x: Fr | ComputeNullifier(Nsk(sk), x) in nfs ensures HasNonce(after, x) {
      var k :| 0 <= k < |notes| && notes[k].note.nullifierNonce == x;
      assert after[k] == notes[k];
    }
  }

  lemma {:induction false} CommitmentFindsEntry(notes: seq<OwnedNote>, found: seq<(Note, TxSig)>, i: nat)
    requires EntriesFound(notes, found) && NoncesApart(notes) && i < |notes|
    ensures FindByCommitment(notes, notes[i].commitment) == i
  {
    forall j | 0 <= j < |notes| && notes[j].commitment == notes[i].commitment ensures j == i {
      CommitmentInjective(notes[j].note, notes[i].note);
    }
  }

  lemma {:induction false} SpendKeepsGood(notes: seq<OwnedNote>, found: seq<(Note, TxSig)>, nfs: set<Fr>, sk: Fr,
          i: nat)
    requires Good(notes, found, nfs, sk) && i < |notes|
    ensures Good(MarkSpent(notes, notes[i].commitment), found, nfs + {NullifierOf(notes[i].note, sk)}, sk)
  {
    CommitmentFindsEntry(notes, found, i);
    var after := MarkSpent(notes, notes[i].commitment);
    var nfs' := nfs + {NullifierOf(notes[i].note, sk)};
    assert after == notes[i := notes[i].(spent := true)];
    forall x: Fr | ComputeNullifier(Nsk(sk), x) in nfs' ensures HasNonce(after, x) {
      if ComputeNullifier(Nsk(sk), x) in nfs {
        var k :| 0 <= k < |notes| && notes[k].note.nullifierNonce == x;
        assert after[k].note == notes[k].note;
      } else {
        assert after[i].note.nullifierNonce == x;
      }
    }
  }

  lemma {:induction false} ForeignKeepsGood(notes: seq<OwnedNote>, found: seq<(Note, TxSig)>, nfs: set<Fr>,
          nfs': set<Fr>, sk: Fr)
    requires Good(notes, found, nfs, sk) && nfs <= nfs'
    requires forall x: Fr :: ComputeNullifier(Nsk(sk), x) in nfs' ==> ComputeNullifier(Nsk(sk), x) in nfs
    ensures Good(notes, found, nfs', sk)
  {
  }

  lemma {:induction false} HasNoteAfterSpend(notes: seq<OwnedNote>, cm: Fr, p: (Note, TxSig))
    requires HasNote(notes, p)
    ensures HasNote(MarkSpent(notes, cm), p)
  {
    var k :| 0 <= k < |notes| && notes[k].note == p.0 && notes[k].txSig == p.1;
    assert MarkSpent(notes, cm)[k].note == p.0 && MarkSpent(notes, cm)[k].txSig == p.1;
  }

  lemma {:induction false} HasNoteAfterAdd(notes: seq<OwnedNote>, note: Note, tx: TxSig)
    ensures HasNote(notes + [NewOwned(note, tx)], (note, tx))
    ensures forall p :: HasNote(notes, p) ==> HasNote(notes + [NewOwned(note, tx)], p)
  {
    var after := notes + [NewOwned(note, tx)];
    assert after[|notes|] == NewOwned(note, tx);
    forall p | HasNote(notes, p) ensures HasNote(after, p) {
      var k :| 0 <= k < |notes| && notes[k].note == p.0 && notes[k].txSig == p.1;
      assert after[k] == notes[k];
    }
  }

  /** A note found among later outputs has a nonce no entry has. */
  lemma {:induction false} LaterNonceIsNew(notes: seq<OwnedNote>, found: seq<(Note, TxSig)>, more: seq<(Note, TxSig)>,
          p: (Note, TxSig))
    requires EntriesFound(notes, found) && DistinctNonces(found + more) && p in more
    ensures !HasNonce(notes, p.0.nullifierNonce)
  {
    var j :| 0 <= j < |more| && more[j] == p;
    assert (found + more)[|found| + j] == p;
    forall k | 0 <= k < |notes| ensures notes[k].note.nullifierNonce != p.0.nullifierNonce {
      var i :| 0 <= i < |found| && found[i] == (notes[k].note, notes[k].txSig);
      assert (found + more)[i] == found[i];
    }
  }

  /** Equal nonces among the found notes mean the same output. */
  lemma {:induction false} SameNonceSameOutput(found: seq<(Note, TxSig)>, p: (Note, TxSig), q: (Note, TxSig))
    requires DistinctNonces(found) && p in found && q in found && p.0.nullifierNonce == q.0.nullifierNonce
    ensures p == q
  {
    var i :| 0 <= i < |found| && found[i] == p;
    var j :| 0 <= j < |found| && found[j] == q;
  }

  // ---------------------------------------------------------------------------
  // Scanning
  // ---------------------------------------------------------------------------

  lemma {:induction false} FoundConcat(e: Encryption, sk: Fr, a: seq<OutputCiphertext>, b: seq<OutputCiphertext>,
          index: u64)
    ensures Found(e, sk, a + b, index) == Found(e, sk, a, index) + Found(e, sk, b, index)
  {
    hide TryDecryptOutput;
    if b == [] {
      assert a + b == a;
    } else {
      FoundConcat(e, sk, a, b[..|b| - 1], index);
      assert (a + b)[..|a + b| - 1] == a + b[..|b| - 1];
    }
  }

  lemma {:induction false} FoundOne(e: Encryption, sk: Fr, o: OutputCiphertext)
    ensures var r := TryDecryptOutput(e, sk, o, 0);
            Found(e, sk, [o], 0) == if r.Some? then [(r.value, o.txSig)] else []
  {
    assert [o][..0] == [];
  }

  /** One received output: its note ends up in the wallet, and nothing is lost. */
  lemma {:induction false} ReceiveOneKeeps(e: Encryption, sk: Fr, s: LedgerState, notes: seq<OwnedNote>,
          o: OutputCiphertext, found: seq<(Note, TxSig)>)
    requires Good(notes, found, s.nullifiers, sk) && DistinctNonces(found)
    requires forall note: Note :: TryDecryptOutput(e, sk, o, 0) == Some(note) ==> (note, o.txSig) in found
    ensures var after := ReceiveOutput(e, sk, s, notes, o);
      && Good(after, found, s.nullifiers, sk)
      && (forall p :: HasNote(notes, p) ==> HasNote(after, p))
      && (forall note: Note :: TryDecryptOutput(e, sk, o, 0) == Some(note) ==> HasNote(after, (note, o.txSig)))
  {
    hide TryDecryptOutput, Good, NullifierOf;
    var r := TryDecryptOutput(e, sk, o, 0);
    if r.Some? {
      var note := r.value;
      assert (note, o.txSig) in found;
      var k := FindByCommitment(notes, note.Commitment());
      if HasNonce(notes, note.nullifierNonce) {
        KnownNonceMeansKnown(notes, found, s.nullifiers, sk, (note, o.txSig));
      } else {
        UnknownNonceIsUnspent(notes, found, s.nullifiers, sk, note);
        AddKeepsGood(notes, found, s.nullifiers, sk, note, o.txSig);
        HasNoteAfterAdd(notes, note, o.txSig);
      }
    }
  }

  lemma {:induction false} KnownNonceMeansKnown(notes: seq<OwnedNote>, found: seq<(Note, TxSig)>, nfs: set<Fr>,
          sk: Fr, p: (Note, TxSig))
    requires Good(notes, found, nfs, sk) && DistinctNonces(found) && p in found && HasNonce(notes, p.0.nullifierNonce)
    ensures HasNote(notes, p) && FindByCommitment(notes, p.0.Commitment()) < |notes|
  {
    var k :| 0 <= k < |notes| && notes[k].note.nullifierNonce == p.0.nullifierNonce;
    SameNonceSameOutput(found, (notes[k].note, notes[k].txSig), p);
    assert notes[k].commitment == p.0.Commitment();
  }

  lemma {:induction false} UnknownNonceIsUnspent(notes: seq<OwnedNote>, found: seq<(Note, TxSig)>, nfs: set<Fr>,
          sk: Fr, note: Note)
    requires Good(notes, found, nfs, sk) && !HasNonce(notes, note.nullifierNonce)
    ensures NullifierOf(note, sk) !in nfs && FindByCommitment(notes, note.Commitment()) == |notes|
  {
    forall k | 0 <= k < |notes| ensures notes[k].commitment != note.Commitment() {
      DifferentNonceDifferentCommitment(notes[k].note, note);
    }
  }

  lemma {:induction false} DifferentNonceDifferentCommitment(a: Note, b: Note)
    requires a.nullifierNonce != b.nullifierNonce
    ensures a.Commitment() != b.Commitment()
  {
    if a.Commitment() == b.Commitment() {
      CommitmentInjective(a, b);
    }
  }

  /** Processing a payment notice brings every note of that transaction into the wallet. */
  lemma {:induction false} ReceivedKeeps(e: Encryption, sk: Fr, s: LedgerState, notes: seq<OwnedNote>,
                                         outputs: seq<OutputCiphertext>, tx: TxSig, found: seq<(Note, TxSig)>)
    requires Good(notes, found, s.nullifiers, sk) && DistinctNonces(found)
    requires forall p :: p in Found(e, sk, outputs, 0) ==> p in found
    ensures var after := Received(e, sk, s, notes, outputs, tx);
      && Good(after, found, s.nullifiers, sk)
      && (forall p :: HasNote(notes, p) ==> HasNote(after, p))
      && (forall p :: p in Found(e, sk, outputs, 0) && p.1 == tx ==> HasNote(after, p))
  {
    hide Good, HasNote, TryDecryptOutput, ReceiveOutput;
    if outputs != [] {
      var n := |outputs| - 1;
      var o := outputs[n];
      assert outputs == outputs[..n] + [o];
      FoundConcat(e, sk, outputs[..n], [o], 0);
      FoundOne(e, sk, o);
      ReceivedKeeps(e, sk, s, notes, outputs[..n], tx, found);
      var before := Received(e, sk, s, notes, outputs[..n], tx);
      if o.txSig == tx {
        forall note: Note | TryDecryptOutput(e, sk, o, 0) == Some(note) ensures (note, o.txSig) in found {
          assert (note, o.txSig) in Found(e, sk, [o], 0);
        }
        ReceiveOneKeeps(e, sk, s, before, o, found);
      }
    }
  }

  // ---------------------------------------------------------------------------
  // Effects on the ledger
  // ---------------------------------------------------------------------------

  /** The indexer's list of ciphertexts only grows at its end. */
  ghost predicate Extends(s: LedgerState, t: LedgerState) {
    t.store.ciphertexts == s.store.ciphertexts + NewOutputs(s, t)
  }

  lemma {:induction false} ExecExtends(s: LedgerState, op: Op)
    ensures Extends(s, Exec(s, op).0)
  {
    hide Verifies, InsertOutputs, InsertNullifiers;
    match op
    case ShieldOp(_) =>
    case TransferOp(req) =>
      InsertNullifiersEffect(s, WalkedNullifiers(req));
      var u := InsertNullifiers(s, WalkedNullifiers(req)).0;
      InsertOutputsAppend(s.store, req.outputs, MockTx(u.txCounter + 1));
    case UnshieldOp(_) =>
  }

  lemma {:induction false} ForeignNullifiers(s: LedgerState, op: Op, sk: Fr)
    requires Foreign(s, op, sk)
    ensures s.nullifiers <= Exec(s, op).0.nullifiers
    ensures forall x: Fr :: ComputeNullifier(Nsk(sk), x) in Exec(s, op).0.nullifiers ==>
      ComputeNullifier(Nsk(sk), x) in s.nullifiers
  {
    match op
    case ShieldOp(_) =>
    case TransferOp(req) => ForeignTransfer(s, req, sk);
    case UnshieldOp(req) =>
      hide UnshieldPublicOf, Accepted;
      if ExecUnshield(s, req).1.Ok? {
        AcceptedUnshield(UnshieldPublicOf(req), req.spendProof);
      }
  }

  lemma {:induction false} TransferNullifiers(s: LedgerState, req: TransferRequest)
    ensures var t := ExecTransfer(s, req).0;
      && s.nullifiers <= t.nullifiers <= s.nullifiers + NonZero(WalkedNullifiers(req))
      && (t.nullifiers == s.nullifiers || Verifies(TransferPublic(TransferPublicOf(req)), req.spendProof))
  {
    hide Verifies, InsertOutputs;
    InsertNullifiersEffect(s, WalkedNullifiers(req));
  }

  lemma {:induction false} ForeignTransfer(s: LedgerState, req: TransferRequest, sk: Fr)
    requires Foreign(s, TransferOp(req), sk)
    ensures s.nullifiers <= ExecTransfer(s, req).0.nullifiers
    ensures forall x: Fr :: ComputeNullifier(Nsk(sk), x) in ExecTransfer(s, req).0.nullifiers ==>
      ComputeNullifier(Nsk(sk), x) in s.nullifiers
  {
    hide ExecTransfer, Verifies, ForeignSlot, ComputeNullifier, Nsk, WalkedNullifiers;
    TransferNullifiers(s, req);
    var t := ExecTransfer(s, req).0;
    forall x: Fr | ComputeNullifier(Nsk(sk), x) in t.nullifiers && t.nullifiers != s.nullifiers
      ensures ComputeNullifier(Nsk(sk), x) in s.nullifiers
    {
      AcceptedTransfer(TransferPublicOf(req), req.spendProof);
      if ComputeNullifier(Nsk(sk), x) !in s.nullifiers {
        ForeignNullifier(s, req, req.spendProof.private.transfer, sk, x);
      }
    }
  }

  lemma {:induction false} ForeignNullifier(s: LedgerState, req: TransferRequest, priv: TransferPrivateInputs, sk: Fr,
          x: Fr)
    requires exists ctHashes: Fr3 :: TransferStatement(TransferPublicOf(req).(ctHashes := ctHashes), priv)
    requires forall i :: 0 <= i < MAX_INPUTS ==> ForeignSlot(s, priv.inputs[i], sk)
    requires ComputeNullifier(Nsk(sk), x) in NonZero(WalkedNullifiers(req))
    ensures ComputeNullifier(Nsk(sk), x) in s.nullifiers
  {
    hide Accepted, SpentNotes, CreatedNotes, Total, SingleAsset, OutputHolds, AddressField;
    var ctHashes: Fr3 :| TransferStatement(TransferPublicOf(req).(ctHashes := ctHashes), priv);
    var pub := TransferPublicOf(req).(ctHashes := ctHashes);
    var i :| 0 <= i < |WalkedNullifiers(req)| && WalkedNullifiers(req)[i] == ComputeNullifier(Nsk(sk), x);
    assert pub.nullifiers[i] == ComputeNullifier(Nsk(sk), x);
    assert InputHolds(pub, priv.inputs[i], i);
    assert ForeignSlot(s, priv.inputs[i], sk);
  }

  // ---------------------------------------------------------------------------
  // Each action keeps the invariant
  // ---------------------------------------------------------------------------

  lemma {:induction false} OthersKeepInv(e: Encryption, sk: Fr, d: Device, op: Op)
    requires DeviceInv(e, sk, d) && Foreign(d.ledger, op, sk)
    ensures DeviceInv(e, sk, Act(e, sk, d, Others(op)))
  {
    hide Exec, Good, Foreign, Found, HasNote;
    var t := Exec(d.ledger, op).0;
    ExecExtends(d.ledger, op);
    ForeignNullifiers(d.ledger, op, sk);
    var found, more := FoundOn(e, sk, d.ledger), Found(e, sk, NewOutputs(d.ledger, t), 0);
    FoundConcat(e, sk, d.ledger.store.ciphertexts, NewOutputs(d.ledger, t), 0);
    GoodGrows(d.notes, found, more, d.ledger.nullifiers, sk);
    ForeignKeepsGood(d.notes, found + more, d.ledger.nullifiers, t.nullifiers, sk);
  }

  lemma {:induction false} ReceiveKeepsInv(e: Encryption, sk: Fr, d: Device, tx: TxSig)
    requires DeviceInv(e, sk, d) && DistinctNonces(FoundOn(e, sk, d.ledger))
    ensures DeviceInv(e, sk, Act(e, sk, d, Receive(tx)))
  {
    hide Good, Found, HasNote, Received;
    ReceivedKeeps(e, sk, d.ledger, d.notes, d.ledger.store.ciphertexts, tx, FoundOn(e, sk, d.ledger));
  }

  /** The scheme returns the wallet's own notes at diversifier 0. */
  lemma {:induction false} OwnOutputDecrypts(e: Encryption, sk: Fr, note: Note, coins: nat, tx: TxSig)
    requires Correct(e) && OwnedBy(note, sk) && note.diversifierIndex == 0
    ensures var (ciphertext, epk) := e.encrypt(note, AddressOf(sk, 0), coins);
            TryDecryptOutput(e, sk,
                OutputCiphertext(note.Commitment(), ciphertext, epk, tx, Some(CtHash(epk, ciphertext))), 0)
              == Some(note)
  {
    hide CtHash;
    assert e.decrypt(e.encrypt(note, AddressOf(sk, note.diversifierIndex), coins).0, sk, note.diversifierIndex)
           == Some(note);
  }

  lemma {:induction false} ShieldOutcome(e: Encryption, sk: Fr, s: LedgerState, notes: seq<OwnedNote>, token: Bytes32,
          amount: u64, coins: ShieldCoins)
    requires Correct(e)
    ensures var (t, after, r) := WalletShield(e, sk, s, notes, token, amount, coins);
            var note := ShieldedNote(sk, token, amount, coins);
      && t.nullifiers == s.nullifiers && Extends(s, t)
      && (r.Err? ==> after == notes && NewOutputs(s, t) == [])
      && (r.Ok? ==>
            after == notes + [NewOwned(note, r.value)] && Found(e, sk, NewOutputs(s, t), 0) == [(note, r.value)])
  {
    hide Verifies, CtHash, ComputeAssetId, Inserted, TryDecryptOutput;
    var (t, after, r) := WalletShield(e, sk, s, notes, token, amount, coins);
    if r.Ok? {
      var note := ShieldedNote(sk, token, amount, coins);
      var (ct, epk) := e.encrypt(note, AddressOf(sk, 0), coins.encryption);
      var o := OutputCiphertext(note.Commitment(), ct, epk, r.value, Some(CtHash(epk, ct)));
      InsertedKeepsCiphertexts(s.store, note.Commitment(), r.value);
      assert t.store.ciphertexts == s.store.ciphertexts + [o];
      assert NewOutputs(s, t) == [o];
      OwnOutputDecrypts(e, sk, note, coins.encryption, r.value);
      FoundOne(e, sk, o);
    } else {
      assert t.store == s.store;
    }
  }

  lemma {:induction false} InsertedKeepsCiphertexts(s: StoreState, cm: Fr, tx: TxSig)
    ensures Inserted(s, cm, tx).ciphertexts == s.ciphertexts
  {
  }

  lemma {:induction false} ShieldKeepsDevice(e: Encryption, sk: Fr, d: Device, token: Bytes32, amount: u64,
          coins: ShieldCoins)
    requires DeviceInv(e, sk, d) && Correct(e)
    requires DistinctNonces(FoundOn(e, sk, Act(e, sk, d, SelfShield(token, amount, coins)).ledger))
    ensures DeviceInv(e, sk, Act(e, sk, d, SelfShield(token, amount, coins)))
  {
    hide WalletShield, Good, Found, HasNote, ShieldedNote, Correct;
    var (t, after, r) := WalletShield(e, sk, d.ledger, d.notes, token, amount, coins);
    ShieldOutcome(e, sk, d.ledger, d.notes, token, amount, coins);
    var found, more := FoundOn(e, sk, d.ledger), Found(e, sk, NewOutputs(d.ledger, t), 0);
    FoundConcat(e, sk, d.ledger.store.ciphertexts, NewOutputs(d.ledger, t), 0);
    GoodGrows(d.notes, found, more, d.ledger.nullifiers, sk);
    if r.Ok? {
      OwnNoteKeeps(d.notes, found, more, t.nullifiers, sk, ShieldedNote(sk, token, amount, coins), r.value);
    } else {
      FoundNone(e, sk);
    }
  }

  lemma {:induction false} FoundNone(e: Encryption, sk: Fr)
    ensures Found(e, sk, [], 0) == []
  {
  }

  lemma {:induction false} OwnNoteKeeps(notes: seq<OwnedNote>, found: seq<(Note, TxSig)>, more: seq<(Note, TxSig)>,
          nfs: set<Fr>, sk: Fr, note: Note, tx: TxSig)
    requires Good(notes, found, nfs, sk)
    requires DistinctNonces(found + more) && (note, tx) in more
    ensures Good(notes + [NewOwned(note, tx)], found + more, nfs, sk)
    ensures HasNote(notes + [NewOwned(note, tx)], (note, tx))
    ensures forall p :: HasNote(notes, p) ==> HasNote(notes + [NewOwned(note, tx)], p)
  {
    GoodGrows(notes, found, more, nfs, sk);
    LaterNonceIsNew(notes, found, more, (note, tx));
    AddKeepsGood(notes, found + more, nfs, sk, note, tx);
    HasNoteAfterAdd(notes, note, tx);
  }

  // ---------------------------------------------------------------------------
  // Own transfers
  // ---------------------------------------------------------------------------

  function PaidCiphertext(e: Encryption, data: TransferData, to: Address, coins: TransferCoins,
          tx: TxSig): OutputCiphertext {
    var (ct, epk) := e.encrypt(data.output, to, coins.outputEncryption);
    OutputCiphertext(data.output.Commitment(), ct, epk, tx, Some(CtHash(epk, ct)))
  }

  function ChangeCiphertext(e: Encryption, sk: Fr, change: Note, coins: TransferCoins, tx: TxSig): OutputCiphertext {
    var (ct, epk) := e.encrypt(change, AddressOf(sk, 0), coins.changeEncryption);
    OutputCiphertext(change.Commitment(), ct, epk, tx, Some(CtHash(epk, ct)))
  }

  function HonestCiphertexts(e: Encryption, sk: Fr, data: TransferData, to: Address, coins: TransferCoins,
          tx: TxSig): seq<OutputCiphertext> {
    [PaidCiphertext(e, data, to, coins, tx)]
    + (if data.change.Some? then [ChangeCiphertext(e, sk, data.change.value, coins, tx)] else [])
  }

  lemma {:induction false} CommitmentNotZero(note: Note)
    ensures note.Commitment() != ZERO
  {
  }

  /** Inserting one real output and then the rest. */
  lemma {:induction false} InsertOneOutput(s: StoreState, outputs: seq<TransferOutput>, tx: TxSig, ct: seq<byte>,
          epk: seq<byte>)
    requires outputs != [] && outputs[0].commitment != ZERO
    requires outputs[0].ciphertext == Some(ct) && outputs[0].ephemeralKey == Some(epk)
    ensures var o := OutputCiphertext(outputs[0].commitment, ct, epk, tx, Some(CtHash(epk, ct)));
            exists mid: StoreState :: mid.ciphertexts == s.ciphertexts + [o]
                && InsertOutputs(s, outputs, tx) == InsertOutputs(mid, outputs[1..], tx)
  {
    hide CtHash;
    var mid := OutputInserted(s, outputs[0].commitment, tx, Some(CiphertextData(ct, epk)));
    assert mid.ciphertexts
           == s.ciphertexts + [OutputCiphertext(outputs[0].commitment, ct, epk, tx, Some(CtHash(epk, ct)))];
  }

  lemma {:induction false} InsertNoOutputs(s: StoreState, tx: TxSig)
    ensures InsertOutputs(s, [NO_OUTPUT], tx) == s && InsertOutputs(s, [NO_OUTPUT, NO_OUTPUT], tx) == s
  {
    assert [NO_OUTPUT][1..] == [] && [NO_OUTPUT, NO_OUTPUT][1..] == [NO_OUTPUT];
  }

  lemma {:induction false} HonestOutputsInserted(e: Encryption, sk: Fr, data: TransferData, to: Address,
          coins: TransferCoins, s: StoreState, tx: TxSig)
    ensures InsertOutputs(s, HonestTransfer(e, sk, data, to, coins).outputs, tx).ciphertexts
         == s.ciphertexts + HonestCiphertexts(e, sk, data, to, coins, tx)
  {
    hide InsertOutputs, CtHash;
    var outputs := HonestTransfer(e, sk, data, to, coins).outputs;
    var (ct0, epk0) := e.encrypt(data.output, to, coins.outputEncryption);
    CommitmentNotZero(data.output);
    InsertOneOutput(s, outputs, tx, ct0, epk0);
    var mid: StoreState :| mid.ciphertexts == s.ciphertexts + [PaidCiphertext(e, data, to, coins, tx)]
      && InsertOutputs(s, outputs, tx) == InsertOutputs(mid, outputs[1..], tx);
    if data.change.Some? {
      var (ct1, epk1) := e.encrypt(data.change.value, AddressOf(sk, 0), coins.changeEncryption);
      CommitmentNotZero(data.change.value);
      InsertOneOutput(mid, outputs[1..], tx, ct1, epk1);
      var last: StoreState :|
        last.ciphertexts == mid.ciphertexts + [ChangeCiphertext(e, sk, data.change.value, coins, tx)]
        && InsertOutputs(mid, outputs[1..], tx) == InsertOutputs(last, outputs[1..][1..], tx);
      assert outputs[1..][1..] == [NO_OUTPUT];
      InsertNoOutputs(last, tx);
    } else {
      assert outputs[1..] == [NO_OUTPUT, NO_OUTPUT];
      InsertNoOutputs(mid, tx);
    }
  }

  /** What an honest transfer request does to nullifiers and ciphertexts, accepted or not. */
  lemma {:induction false} HonestTransferEffect(e: Encryption, sk: Fr, s: LedgerState, data: TransferData,
          to: Address, coins: TransferCoins)
    requires data.nullifier != ZERO
    ensures var (t, r) := ExecTransfer(s, HonestTransfer(e, sk, data, to, coins));
      && (r.Err? ==> t.store == s.store && t.nullifiers == s.nullifiers)
      && (r.Ok? ==>
            && t.nullifiers == s.nullifiers + {data.nullifier}
            && t.store.ciphertexts == s.store.ciphertexts + HonestCiphertexts(e, sk, data, to, coins, r.value))
  {
    hide HonestTransfer, Verifies, InsertNullifiers, InsertOutputs, HonestCiphertexts, NonZero;
    var req := HonestTransfer(e, sk, data, to, coins);
    var nf := data.nullifier;
    RebuiltIsProven(e, sk, data, to, coins);
    InsertNullifiersEffect(s, [nf]);
    SingleNullifierGoesIn(s, nf);
    NonZeroSingle(nf);
    var u := InsertNullifiers(s, [nf]).0;
    HonestOutputsInserted(e, sk, data, to, coins, s.store, MockTx(u.txCounter + 1));
  }

  lemma {:induction false} NonZeroSingle(nf: Fr)
    requires nf != ZERO
    ensures NonZero([nf]) == {nf}
  {
  }

  /** The notes a scan finds among the outputs of an own transfer: maybe the payment, then the change. */
  lemma {:induction false} HonestCiphertextsFound(e: Encryption, sk: Fr, data: TransferData, to: Address,
          coins: TransferCoins, tx: TxSig)
    requires Correct(e)
    requires data.change.Some? ==> OwnedBy(data.change.value, sk) && data.change.value.diversifierIndex == 0
    ensures var outputs := HonestCiphertexts(e, sk, data, to, coins, tx);
            Found(e, sk, outputs, 0) == Found(e, sk, PaymentOutput(outputs), 0)
              + (if data.change.Some? then [(data.change.value, tx)] else [])
  {
    hide Found, PaidCiphertext, TryDecryptOutput, Correct, OwnedBy;
    var outputs := HonestCiphertexts(e, sk, data, to, coins, tx);
    assert PaymentOutput(outputs) == [PaidCiphertext(e, data, to, coins, tx)];
    if data.change.Some? {
      var o := ChangeCiphertext(e, sk, data.change.value, coins, tx);
      assert outputs == PaymentOutput(outputs) + [o];
      FoundConcat(e, sk, PaymentOutput(outputs), [o], 0);
      OwnOutputDecrypts(e, sk, data.change.value, coins.changeEncryption, tx);
      FoundOne(e, sk, o);
    } else {
      assert outputs == PaymentOutput(outputs);
      assert Found(e, sk, outputs, 0) + [] == Found(e, sk, outputs, 0);
    }
  }

  /** Outcome of an own transfer that was accepted: entry i is spent, the change is kept. */
  ghost predicate TransferDone(e: Encryption, sk: Fr, s: LedgerState, notes: seq<OwnedNote>, i: nat,
                               t: LedgerState, after: seq<OwnedNote>, data: TransferData, tx: TxSig)
    requires i < |notes|
  {
    && data.spentCommitment == notes[i].commitment && after == AfterTransfer(notes, data, tx)
    && t.nullifiers == s.nullifiers + {NullifierOf(notes[i].note, sk)}
    && Found(e, sk, NewOutputs(s, t), 0) == Found(e, sk, PaymentOutput(NewOutputs(s, t)), 0)
         + (if data.change.Some? then [(data.change.value, tx)] else [])
  }

  lemma {:induction false} ExtendsBy(s: LedgerState, t: LedgerState, outputs: seq<OutputCiphertext>)
    requires t.store.ciphertexts == s.store.ciphertexts + outputs
    ensures Extends(s, t) && NewOutputs(s, t) == outputs
  {
  }

  lemma {:induction false} TransferOutcome(e: Encryption, sk: Fr, s: LedgerState, notes: seq<OwnedNote>,
          found: seq<(Note, TxSig)>, to: Address, amount: u64, asset: Fr, coins: TransferCoins)
    requires Correct(e) && EntriesFound(notes, found) && NoncesApart(notes)
    ensures var (t, after, r) := WalletTransfer(e, sk, s, notes, to, amount, asset, coins);
            var i := FindSpendable(notes, asset, amount);
      && Extends(s, t)
      && (r.Err? ==> after == notes && t.nullifiers == s.nullifiers && NewOutputs(s, t) == [])
      && (r.Ok? ==> i < |notes| && exists data :: TransferDone(e, sk, s, notes, i, t, after, data, r.value))
  {
    hide HonestTransfer, ExecTransfer, Provable, HonestCiphertexts, Found, EntriesFound, NoncesApart, AfterTransfer,
         Extends, TxBindingTransfer, Correct, NewOutputs, PaymentOutput, Balance;
    var i := FindSpendable(notes, asset, amount);
    var (t, after, r) := WalletTransfer(e, sk, s, notes, to, amount, asset, coins);
    ExtendsBy(s, s, []);
    if i < |notes| {
      CommitmentFindsEntry(notes, found, i);
      var prepared := PrepareSpend(s.store, notes, notes[i].commitment);
      if prepared.Ok? {
        var (owned, w) := prepared.value;
        var data := BuildTransfer(sk, owned, w, to, amount, coins);
        HonestTransferEffect(e, sk, s, data, to, coins);
        var (t', r') := ExecTransfer(s, HonestTransfer(e, sk, data, to, coins));
        if r'.Ok? {
          HonestCiphertextsFound(e, sk, data, to, coins, r'.value);
          ExtendsBy(s, t', HonestCiphertexts(e, sk, data, to, coins, r'.value));
          assert r.Ok? ==> TransferDone(e, sk, s, notes, i, t, after, data, r.value);
        } else {
          ExtendsBy(s, t', []);
        }
      }
    }
  }

  /** Spending entry i and keeping the change keeps the note list good and loses nothing. */
  lemma {:induction false} AfterTransferKeeps(notes: seq<OwnedNote>, found: seq<(Note, TxSig)>,
          more: seq<(Note, TxSig)>, nfs: set<Fr>, sk: Fr, i: nat, data: TransferData, tx: TxSig)
    requires Good(notes, found, nfs, sk) && DistinctNonces(found + more)
    requires i < |notes| && data.spentCommitment == notes[i].commitment
    requires data.change.Some? ==> (data.change.value, tx) in more
    ensures var after := AfterTransfer(notes, data, tx);
      && Good(after, found + more, nfs + {NullifierOf(notes[i].note, sk)}, sk)
      && (forall p :: HasNote(notes, p) ==> HasNote(after, p))
      && (data.change.Some? ==> HasNote(after, (data.change.value, tx)))
  {
    hide Good, HasNote, NullifierOf, MarkSpent;
    var marked, nfs' := MarkSpent(notes, notes[i].commitment), nfs + {NullifierOf(notes[i].note, sk)};
    SpendKeepsGood(notes, found, nfs, sk, i);
    forall p | HasNote(notes, p) ensures HasNote(marked, p) {
      HasNoteAfterSpend(notes, notes[i].commitment, p);
    }
    if data.change.Some? {
      OwnNoteKeeps(marked, found, more, nfs', sk, data.change.value, tx);
    } else {
      GoodGrows(marked, found, more, nfs', sk);
      assert marked + [] == marked;
    }
  }

  lemma {:induction false} TransferKeepsDevice(e: Encryption, sk: Fr, d: Device, to: Address, amount: u64, asset: Fr,
          coins: TransferCoins)
    requires DeviceInv(e, sk, d) && Correct(e)
    requires DistinctNonces(FoundOn(e, sk, Act(e, sk, d, SelfTransfer(to, amount, asset, coins)).ledger))
    ensures DeviceInv(e, sk, Act(e, sk, d, SelfTransfer(to, amount, asset, coins)))
  {
    hide WalletTransfer, Found, HasNote, Correct, AfterTransfer, NewOutputs, PaymentOutput, DistinctNonces,
         EntriesFound, NoncesApart, SpentMatches, NullifiersExplained;
    var s, notes := d.ledger, d.notes;
    var (t, after, r) := WalletTransfer(e, sk, s, notes, to, amount, asset, coins);
    var found, more := FoundOn(e, sk, s), Found(e, sk, NewOutputs(s, t), 0);
    TransferOutcome(e, sk, s, notes, found, to, amount, asset, coins);
    FoundConcat(e, sk, s.store.ciphertexts, NewOutputs(s, t), 0);
    if r.Ok? {
      var i := FindSpendable(notes, asset, amount);
      var data :| TransferDone(e, sk, s, notes, i, t, after, data, r.value);
      AfterTransferKeeps(notes, found, more, s.nullifiers, sk, i, data, r.value);
    } else {
      FoundNone(e, sk);
      GoodGrows(notes, found, more, s.nullifiers, sk);
    }
  }

  // ---------------------------------------------------------------------------
  // Own withdrawals
  // ---------------------------------------------------------------------------

  lemma {:induction false} UnshieldOutcome(sk: Fr, s: LedgerState, notes: seq<OwnedNote>, found: seq<(Note, TxSig)>,
          to: Bytes32, amount: u64, token: Bytes32)
    requires EntriesFound(notes, found) && NoncesApart(notes)
    ensures var (t, after, r) := WalletUnshield(sk, s, notes, to, amount, token);
            var i := FindSpendable(notes, ComputeAssetId(token), amount);
      && t.store == s.store
      && (r.Err? ==> after == notes && t.nullifiers == s.nullifiers)
      && (r.Ok? ==> i < |notes| && after == MarkSpent(notes, notes[i].commitment)
                    && t.nullifiers == s.nullifiers + {NullifierOf(notes[i].note, sk)})
  {
    hide Provable, EntriesFound, NoncesApart, TxBindingUnshield, ComputeAssetId, Verifies, NullifierOf, MarkSpent;
    var i := FindSpendable(notes, ComputeAssetId(token), amount);
    if i < |notes| {
      CommitmentFindsEntry(notes, found, i);
    }
  }

  lemma {:induction false} UnshieldKeepsDevice(e: Encryption, sk: Fr, d: Device, to: Bytes32, amount: u64,
          token: Bytes32)
    requires DeviceInv(e, sk, d)
    ensures DeviceInv(e, sk, Act(e, sk, d, SelfUnshield(to, amount, token)))
  {
    hide WalletUnshield, Found, HasNote, EntriesFound, NoncesApart, SpentMatches, NullifiersExplained, MarkSpent,
         ComputeAssetId;
    var notes := d.notes;
    var (t, after, r) := WalletUnshield(sk, d.ledger, notes, to, amount, token);
    var found := FoundOn(e, sk, d.ledger);
    UnshieldOutcome(sk, d.ledger, notes, found, to, amount, token);
    if r.Ok? {
      var i := FindSpendable(notes, ComputeAssetId(token), amount);
      SpendKeepsGood(notes, found, d.ledger.nullifiers, sk, i);
      forall p | HasNote(notes, p) ensures HasNote(after, p) {
        HasNoteAfterSpend(notes, notes[i].commitment, p);
      }
    }
  }

  // ---------------------------------------------------------------------------
  // Whole histories
  // ---------------------------------------------------------------------------

  /** Every wallet operation leaves the ledger alone or submits one request. */
  lemma {:induction false} ActExtends(e: Encryption, sk: Fr, d: Device, a: Action)
    ensures Extends(d.ledger, Act(e, sk, d, a).ledger)
  {
    hide ExecShield, ExecTransfer, ExecUnshield, Found, Received, PrepareSpend, Provable, AfterTransfer, NewOutputs,
         Extends, HonestShield, HonestTransfer, HonestUnshield, BuildTransfer, ComputeAssetId;
    var s := d.ledger;
    ExtendsBy(s, s, []);
    match a
    case SelfShield(token, amount, coins) => ExecExtends(s, ShieldOp(HonestShield(e, sk, token, amount, coins)));
    case SelfTransfer(to, amount, asset, coins) =>
      forall req ensures Extends(s, ExecTransfer(s, req).0) {
        ExecExtends(s, TransferOp(req));
      }
    case SelfUnshield(to, amount, token) =>
      forall req ensures Extends(s, ExecUnshield(s, req).0) {
        ExecExtends(s, UnshieldOp(req));
      }
    case Receive(_) =>
    case Others(op) => ExecExtends(s, op);
  }

  /** Distinct nonces now mean distinct nonces before: scans only grow at the end. */
  lemma {:induction false} DistinctBefore(e: Encryption, sk: Fr, s: LedgerState, t: LedgerState)
    requires Extends(s, t) && DistinctNonces(FoundOn(e, sk, t))
    ensures DistinctNonces(FoundOn(e, sk, s))
  {
    hide Found;
    FoundConcat(e, sk, s.store.ciphertexts, NewOutputs(s, t), 0);
    var found, all := FoundOn(e, sk, s), FoundOn(e, sk, t);
    assert forall i :: 0 <= i < |found| ==> all[i] == found[i];
  }

  lemma {:induction false} ActKeepsInv(e: Encryption, sk: Fr, d: Device, a: Action)
    requires DeviceInv(e, sk, d) && Correct(e)
    requires DistinctNonces(FoundOn(e, sk, Act(e, sk, d, a).ledger))
    requires a.Others? ==> Foreign(d.ledger, a.op, sk)
    ensures DeviceInv(e, sk, Act(e, sk, d, a))
  {
    hide DeviceInv, Act, Foreign, Correct, DistinctNonces, Extends;
    ActExtends(e, sk, d, a);
    DistinctBefore(e, sk, d.ledger, Act(e, sk, d, a).ledger);
    match a
    case SelfShield(token, amount, coins) => ShieldKeepsDevice(e, sk, d, token, amount, coins);
    case SelfTransfer(to, amount, asset, coins) => TransferKeepsDevice(e, sk, d, to, amount, asset, coins);
    case SelfUnshield(to, amount, token) => UnshieldKeepsDevice(e, sk, d, to, amount, token);
    case Receive(tx) => ReceiveKeepsInv(e, sk, d, tx);
    case Others(op) => OthersKeepInv(e, sk, d, op);
  }

  lemma {:induction false} FreshDeviceInv(e: Encryption, sk: Fr, depth: nat, maxAnchors: nat)
    ensures DeviceInv(e, sk, Device(Genesis(depth, maxAnchors), [], {}))
  {
  }

  lemma {:induction false} HistoryKeepsInv(e: Encryption, sk: Fr, depth: nat, maxAnchors: nat, actions: seq<Action>)
    requires Correct(e) && SingleDevice(e, sk, depth, maxAnchors, actions)
    requires DistinctNonces(FoundOn(e, sk, History(e, sk, depth, maxAnchors, actions).ledger))
    ensures DeviceInv(e, sk, History(e, sk, depth, maxAnchors, actions))
  {
    hide DeviceInv, Act, Foreign, Correct, DistinctNonces;
    if actions == [] {
      FreshDeviceInv(e, sk, depth, maxAnchors);
    } else {
      var k := |actions| - 1;
      var d := History(e, sk, depth, maxAnchors, actions[..k]);
      ActExtends(e, sk, d, actions[k]);
      DistinctBefore(e, sk, d.ledger, Act(e, sk, d, actions[k]).ledger);
      HistoryKeepsInv(e, sk, depth, maxAnchors, actions[..k]);
      ActKeepsInv(e, sk, d, actions[k]);
    }
  }
}
