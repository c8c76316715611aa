/**
 The shielded pool as a state machine: what one chain operation does (client/src/mock.rs,
 `MockChain`), runs of operations, and the log of accepted ones.
 */
module Ledger {
  import opened Words
  import opened Bytes
  import opened Field
  import opened Traits
  import opened Store
  import opened Proofs
  import opened Value

  datatype LedgerState = LedgerState(
    store: StoreState,
    nullifiers: set<Fr>,
    anchors: seq<Fr>,
    maxAnchors: nat,
    txCounter: nat)

  function Genesis(depth: nat, maxAnchors: nat): LedgerState {
    LedgerState(EmptyStore(depth), {}, [EmptyStore(depth).Root()], maxAnchors, 0)
  }

  predicate ValidAnchor(s: LedgerState, anchor: Fr) {
    anchor == s.store.Root() || anchor in s.anchors
  }

  function NextTx(s: LedgerState): LedgerState {
    s.(txCounter := s.txCounter + 1)
  }

  function UpdateAnchors(s: LedgerState): LedgerState {
    var root := s.store.Root();
    if s.anchors != [] && s.anchors[|s.anchors| - 1] == root then s
    else
      var history := s.anchors + [root];
      s.(anchors := if |history| > s.maxAnchors then history[1..] else history)
  }

  /** Nullifiers go in one by one; the first one already present stops the insertion where it is. */
  function InsertNullifiers(s: LedgerState, nfs: seq<Fr>): (LedgerState, bool)
    decreases |nfs|
  {
    if nfs == [] then (s, true)
    else if nfs[0] == ZERO then InsertNullifiers(s, nfs[1..])
    else if nfs[0] in s.nullifiers then (s, false)
    else InsertNullifiers(NextTx(s).(nullifiers := s.nullifiers + {nfs[0]}), nfs[1..])
  }

  function InsertOutputs(s: StoreState, outputs: seq<TransferOutput>, tx: TxSig): StoreState
    decreases |outputs|
  {
    if outputs == [] then s
    else if outputs[0].commitment == ZERO then InsertOutputs(s, outputs[1..], tx)
    else
      var data := AttachedCiphertext(outputs[0].ciphertext, outputs[0].ephemeralKey);
      InsertOutputs(OutputInserted(s, outputs[0].commitment, tx, data), outputs[1..], tx)
  }

  /** At most n new outputs behind the old ones, all of one transaction. */
  ghost predicate Appended(before: seq<OutputCiphertext>, after: seq<OutputCiphertext>, tx: TxSig, n: nat) {
    && |before| <= |after| <= |before| + n
    && after[..|before|] == before
    && (forall i :: |before| <= i < |after| ==> after[i].txSig == tx)
  }

  lemma {:induction false} InsertOutputsAppend(s: StoreState, outputs: seq<TransferOutput>, tx: TxSig)
    ensures Appended(s.ciphertexts, InsertOutputs(s, outputs, tx).ciphertexts, tx, |outputs|)
    decreases |outputs|
  {
    if outputs != [] {
      var data := AttachedCiphertext(outputs[0].ciphertext, outputs[0].ephemeralKey);
      var mid := if outputs[0].commitment == ZERO then s else OutputInserted(s, outputs[0].commitment, tx, data);
      assert Appended(s.ciphertexts, mid.ciphertexts, tx, 1);
      InsertOutputsAppend(mid, outputs[1..], tx);
      var after := InsertOutputs(mid, outputs[1..], tx).ciphertexts;
      assert after[..|s.ciphertexts|] == after[..|mid.ciphertexts|][..|s.ciphertexts|];
    }
  }

  /** The nullifiers the chain walks over: the first `inputCount` slots. */
  function WalkedNullifiers(req: TransferRequest): seq<Fr> {
    if req.inputCount <= MAX_INPUTS then req.nullifiers[..req.inputCount] else req.nullifiers
  }

  function ExecShield(s: LedgerState, req: ShieldRequest): (LedgerState, Result<TxSig, ChainError>) {
    var t := NextTx(s);
    if !Verifies(ShieldPublic(ShieldPublicOf(req)), req.shieldProof) then (t, Err(InvalidProof))
    else
      var tx := MockTx(t.txCounter);
      var data := AttachedCiphertext(req.ciphertext, req.ephemeralKey);
      (UpdateAnchors(t.(store := OutputInserted(t.store, req.commitment, tx, data))), Ok(tx))
  }

  function ExecTransfer(s: LedgerState, req: TransferRequest): (LedgerState, Result<TxSig, ChainError>) {
    if !ValidAnchor(s, req.anchor) then (s, Err(InvalidAnchor))
    else if !Verifies(TransferPublic(TransferPublicOf(req)), req.spendProof) then (s, Err(InvalidProof))
    else
      var (t, allNew) := InsertNullifiers(s, WalkedNullifiers(req));
      if !allNew then (t, Err(DoubleSpend))
      else
        var u := NextTx(t);
        var tx := MockTx(u.txCounter);
        (UpdateAnchors(u.(store := InsertOutputs(u.store, req.outputs, tx))), Ok(tx))
  }

  function ExecUnshield(s: LedgerState, req: UnshieldRequest): (LedgerState, Result<TxSig, ChainError>) {
    if !ValidAnchor(s, req.anchor) then (s, Err(InvalidAnchor))
    else if !Verifies(UnshieldPublic(UnshieldPublicOf(req)), req.spendProof) then (s, Err(InvalidProof))
    else if req.nullifier in s.nullifiers then (s, Err(DoubleSpend))
    else
      var t := NextTx(s).(nullifiers := s.nullifiers + {req.nullifier});
      (t, Ok(MockTx(t.txCounter)))
  }

  datatype Op =
    | ShieldOp(shield: ShieldRequest)
    | TransferOp(transfer: TransferRequest)
    | UnshieldOp(unshield: UnshieldRequest)

  function Exec(s: LedgerState, op: Op): (LedgerState, Result<TxSig, ChainError>) {
    match op
    case ShieldOp(req) => ExecShield(s, req)
    case TransferOp(req) => ExecTransfer(s, req)
    case UnshieldOp(req) => ExecUnshield(s, req)
  }

  // ---------------------------------------------------------------------------
  // Runs
  // ---------------------------------------------------------------------------

  /**
   What an accepted operation did: the notes its proof's private inputs tell of, and at the
   transparent boundary the asset, amount and recipient of the public request.
   */
  datatype Event =
    | Shielded(note: Note, asset: Fr, amount: u64)
    | Transferred(public: TransferPublicInputs, spent: seq<Note>, created: seq<Note>)
    | Unshielded(note: Note, asset: Fr, amount: u64, recipient: Bytes32)

  function EventOf(s: LedgerState, op: Op): Event
    requires Exec(s, op).1.Ok?
  {
    match op
    case ShieldOp(req) =>
      AcceptedShield(ShieldPublicOf(req), req.shieldProof);
      Shielded(req.shieldProof.private.note, ComputeAssetId(req.tokenAddress), req.amount)
    case TransferOp(req) =>
      AcceptedTransfer(TransferPublicOf(req), req.spendProof);
      var priv := req.spendProof.private.transfer;
      Transferred(TransferPublicOf(req), SpentNotes(priv.inputs), CreatedNotes(priv.outputs))
    case UnshieldOp(req) =>
      AcceptedUnshield(UnshieldPublicOf(req), req.spendProof);
      Unshielded(req.spendProof.private.unshield.note, ComputeAssetId(req.tokenAddress), req.amount, req.recipient)
  }

  /** A ledger together with the log of everything accepted so far. */
  datatype World = World(ledger: LedgerState, log: seq<Event>)

  function Step(w: World, op: Op): World {
    var (s, r) := Exec(w.ledger, op);
    World(s, if r.Ok? then w.log + [EventOf(w.ledger, op)] else w.log)
  }

  lemma {:induction false} StepLedger(w: World, op: Op)
    ensures Step(w, op).ledger == Exec(w.ledger, op).0
  {
    hide Exec;
  }

  function Run(depth: nat, maxAnchors: nat, ops: seq<Op>): World {
    if ops == [] then World(Genesis(depth, maxAnchors), [])
    else Step(Run(depth, maxAnchors, ops[..|ops| - 1]), ops[|ops| - 1])
  }

  /** Enabled input slots come first: no nullifier sits beyond the walked prefix. */
  predicate Packed(op: Op) {
    op.TransferOp? ==>
      forall i :: op.transfer.inputCount <= i < MAX_INPUTS ==> op.transfer.nullifiers[i] == ZERO
  }

  predicate AllPacked(ops: seq<Op>) {
    forall i :: 0 <= i < |ops| ==> Packed(ops[i])
  }

  // ---------------------------------------------------------------------------
  // Totals over the log
  // ---------------------------------------------------------------------------

  function SpentBy(e: Event): seq<Note> {
    match e
    case Shielded(_, _, _) => []
    case Transferred(_, spent, _) => spent
    case Unshielded(note, _, _, _) => [note]
  }

  function CreatedBy(e: Event): seq<Note> {
    match e
    case Shielded(note, _, _) => [note]
    case Transferred(_, _, created) => created
    case Unshielded(_, _, _, _) => []
  }

  /** Notes consumed by accepted spends, in order. */
  function AllSpent(log: seq<Event>): seq<Note> {
    if log == [] then [] else AllSpent(log[..|log| - 1]) + SpentBy(log[|log| - 1])
  }

  /** Notes created by accepted operations, in order. */
  function AllCreated(log: seq<Event>): seq<Note> {
    if log == [] then [] else AllCreated(log[..|log| - 1]) + CreatedBy(log[|log| - 1])
  }

  function Nonces(notes: seq<Note>): seq<Fr> {
    seq(|notes|, i requires 0 <= i < |notes| => notes[i].nullifierNonce)
  }

  /** Nonces of transfer outputs only; a depositor picks the nonce of a shielded note freely. */
  function OutputNonces(log: seq<Event>): seq<Fr> {
    if log == [] then []
    else
      var e := log[|log| - 1];
      OutputNonces(log[..|log| - 1]) + (if e.Transferred? then Nonces(e.created) else [])
  }

  /** Tokens of this asset that the request moved across the boundary. */
  function Moved(e: Event, asset: Fr): nat
    requires !e.Transferred?
  {
    if e.asset == asset then e.amount else 0
  }

  function Deposited(log: seq<Event>, asset: Fr): nat {
    if log == [] then 0
    else
      var e := log[|log| - 1];
      Deposited(log[..|log| - 1], asset) + (if e.Shielded? then Moved(e, asset) else 0)
  }

  function Withdrawn(log: seq<Event>, asset: Fr): nat {
    if log == [] then 0
    else
      var e := log[|log| - 1];
      Withdrawn(log[..|log| - 1], asset) + (if e.Unshielded? then Moved(e, asset) else 0)
  }

  // ---------------------------------------------------------------------------
  // Unspent value
  // ---------------------------------------------------------------------------

  /** The distinct notes whose commitments are in the tree. */
  ghost function TreeNotes(leaves: map<nat, Fr>): set<Note> {
    set i | i in leaves && IsNoteCommitment(leaves[i]) :: OpenNote(leaves[i]).value
  }

  /** Some key that may spend the note has its nullifier recorded. */
  ghost predicate IsSpent(note: Note, nullifiers: set<Fr>) {
    exists sk: Fr :: OwnedBy(note, sk) && NullifierOf(note, sk) in nullifiers
  }

  ghost function UnspentNotes(s: LedgerState): set<Note> {
    set n | n in TreeNotes(s.store.leaves) && !IsSpent(n, s.nullifiers)
  }

  /** Value of distinct unspent commitments in the tree. */
  ghost function UnspentValue(s: LedgerState, asset: Fr): nat {
    SetValue(UnspentNotes(s), asset)
  }
}
