/** The wallet client of client/src/client.rs over the mock chain and its indexer. */
module Wallet {
  import opened Words
  import opened Bytes
  import opened Field
  import opened MerkleTree
  import opened Traits
  import opened Store
  import opened Proofs
  import opened Ledger
  import opened MockChains

  datatype Address = Address(diversifierIndex: u64, pkdX: Fr)

  function AddressOf(sk: Fr, index: u64): Address { Address(index, AddressField(sk, index)) }

  /**
   A note encryption scheme: `encrypt` turns a note, an address and random coins into the
   serialised ciphertext and the ephemeral key; `decrypt` tries a serialised ciphertext with
   the viewing key of a spending key at one diversifier.
   */
  datatype Encryption = Encryption(
    encrypt: (Note, Address, nat) -> (seq<byte>, seq<byte>),
    decrypt: (seq<byte>, Fr, u64) -> Option<Note>)

  /** Decryption with the right key and diversifier returns the note. */
  ghost predicate Correct(e: Encryption) {
    forall note: Note, sk: Fr, coins: nat ::
      OwnedBy(note, sk) ==>
        e.decrypt(e.encrypt(note, AddressOf(sk, note.diversifierIndex), coins).0, sk, note.diversifierIndex)
            == Some(note)
  }

  datatype OwnedNote = OwnedNote(note: Note, commitment: Fr, txSig: TxSig, spent: bool)

  datatype ClientError =
    | StoreFailed(store: StoreError)
    | ChainFailed(chain: ChainError)
    | ProofFailed
    | NoteNotFound
    | InsufficientBalance(have: u64, need: u64)
    | AlreadySpent
    | Aborted

  // ---------------------------------------------------------------------------
  // Local note list
  // ---------------------------------------------------------------------------

  function NewOwned(note: Note, tx: TxSig): OwnedNote { OwnedNote(note, note.Commitment(), tx, false) }

  /** First note with this commitment, or the length. */
  function FindByCommitment(notes: seq<OwnedNote>, cm: Fr): (i: nat)
    ensures i <= |notes|
    ensures i < |notes| ==> notes[i].commitment == cm
    ensures forall k :: 0 <= k < i ==> notes[k].commitment != cm
  {
    if notes == [] then 0
    else if notes[0].commitment == cm then 0
    else
      var rest := FindByCommitment(notes[1..], cm);
      assert forall k :: 0 < k < 1 + rest ==> notes[k] == notes[1..][k - 1];
      1 + rest
  }

  predicate Spendable(n: OwnedNote, asset: Fr, amount: u64) {
    !n.spent && n.note.assetId == asset && n.note.amount >= amount
  }

  /** First unspent note of the asset that covers the amount, or the length. */
  function FindSpendable(notes: seq<OwnedNote>, asset: Fr, amount: u64): (i: nat)
    ensures i <= |notes|
    ensures i < |notes| ==> Spendable(notes[i], asset, amount)
    ensures forall k :: 0 <= k < i ==> !Spendable(notes[k], asset, amount)
  {
    if notes == [] then 0
    else if Spendable(notes[0], asset, amount) then 0
    else
      var rest := FindSpendable(notes[1..], asset, amount);
      assert forall k :: 0 < k < 1 + rest ==> notes[k] == notes[1..][k - 1];
      1 + rest
  }

  function MarkSpent(notes: seq<OwnedNote>, cm: Fr): (r: seq<OwnedNote>)
    ensures |r| == |notes|
  {
    var i := FindByCommitment(notes, cm);
    if i < |notes| then notes[i := notes[i].(spent := true)] else notes
  }

  function Balance(notes: seq<OwnedNote>, asset: Fr): nat {
    if notes == [] then 0
    else
      var n := notes[|notes| - 1];
      Balance(notes[..|notes| - 1], asset) + (if !n.spent && n.note.assetId == asset then n.note.amount else 0)
  }

  lemma {:induction false} BalanceGrows(notes: seq<OwnedNote>, i: nat, asset: Fr)
    requires i <= |notes|
    ensures Balance(notes[..i], asset) <= Balance(notes, asset)
  {
    if i == |notes| {
      assert notes[..i] == notes;
    } else {
      var k := |notes| - 1;
      BalanceGrows(notes[..k], i, asset);
      assert notes[..k][..i] == notes[..i];
    }
  }

  // ---------------------------------------------------------------------------
  // Building requests
  // ---------------------------------------------------------------------------

  /** Randomness drawn while shielding. */
  datatype ShieldCoins = ShieldCoins(nonce: Fr, randomness: Fr, encryption: nat)

  /** Randomness drawn while transferring: output, change, and their encryptions. */
  datatype TransferCoins = TransferCoins(output: Fr, change: Fr, outputEncryption: nat, changeEncryption: nat)

  function ShieldedNote(sk: Fr, token: Bytes32, amount: u64, coins: ShieldCoins): Note {
    Note(ComputeAssetId(token), amount, AddressField(sk, 0), 0, coins.nonce, coins.randomness)
  }

  function HonestShield(e: Encryption, sk: Fr, token: Bytes32, amount: u64, coins: ShieldCoins): ShieldRequest {
    var note := ShieldedNote(sk, token, amount, coins);
    var (ciphertext, epk) := e.encrypt(note, AddressOf(sk, 0), coins.encryption);
    var public := ShieldPublicInputs(note.Commitment(), note.assetId, amount, CtHash(epk, ciphertext));
    ShieldRequest(token, amount, note.Commitment(), ProverRun(ShieldPublic(public), ShieldPrivate(note)),
                  Some(ciphertext), Some(epk), CtHash(epk, ciphertext))
  }

  datatype TransferData = TransferData(
    anchor: Fr,
    spentCommitment: Fr,
    membershipWitness: MembershipWitness,
    nullifier: Fr,
    txBinding: Fr,
    spendNote: Note,
    output: Note,
    change: Option<Note>)
  {
    function Nullifiers(): Fr3 { [nullifier, ZERO, ZERO] }

    function OutputCount(): u32 { if change.Some? then 2 else 1 }
  }

  /** Payment and, when value is left over, change back to diversifier 0. */
  function BuildTransfer(sk: Fr, owned: OwnedNote, w: MembershipWitness, recipient: Address, amount: u64,
                         coins: TransferCoins): TransferData
    requires amount <= owned.note.amount
  {
    var nullifier := NullifierOf(owned.note, sk);
    var outputCount: u32 := if owned.note.amount > amount then 2 else 1;
    var binding := TxBindingTransfer(w.root, [nullifier, ZERO, ZERO], 1, outputCount);
    var output := Note(owned.note.assetId, amount, recipient.pkdX, recipient.diversifierIndex,
                       DeriveOutputNonce(binding, 0), coins.output);
    var change :=
      if owned.note.amount > amount then
        Some(Note(owned.note.assetId, owned.note.amount - amount, AddressField(sk, 0), 0,
                  DeriveOutputNonce(binding, 1), coins.change))
      else None;
    TransferData(w.root, owned.commitment, w, nullifier, binding, owned.note, output, change)
  }

  function SpendPublic(data: TransferData, ctHashes: Fr3): TransferPublicInputs {
    var out1 := if data.change.Some? then data.change.value.Commitment() else ZERO;
    TransferPublicInputs(data.anchor, data.Nullifiers(), [data.output.Commitment(), out1, ZERO], 1, data.OutputCount(),
                         ctHashes, data.txBinding)
  }

  function SpendPrivate(data: TransferData, sk: Fr): TransferPrivateInputs {
    var out1 := if data.change.Some? then OutputSlot(true, data.change.value) else DEFAULT_OUTPUT;
    TransferPrivateInputs(
      [InputSlot(true, data.spendNote, sk, data.membershipWitness), DEFAULT_INPUT, DEFAULT_INPUT],
      [OutputSlot(true, data.output), out1, DEFAULT_OUTPUT])
  }

  /** Missing outputs become empty slots; the count is the number of non-zero commitments. */
  function ToRequestWithOutputs(data: TransferData, proof: ProverRun, outputs: seq<TransferOutput>,
          ctHashes: Fr3): TransferRequest
    requires outputs != []
  {
    var o1 := if |outputs| > 1 then outputs[1] else NO_OUTPUT;
    var o2 := if |outputs| > 2 then outputs[2] else NO_OUTPUT;
    var count: u32 := (if outputs[0].commitment != ZERO then 1 else 0) + (if o1.commitment != ZERO then 1 else 0)
                      + (if o2.commitment != ZERO then 1 else 0);
    TransferRequest(data.anchor, data.Nullifiers(), 1, count, ctHashes, data.txBinding, proof, [outputs[0], o1, o2])
  }

  /** Encrypted outputs and their hashes, payment first. */
  function EncryptedOutputs(e: Encryption, sk: Fr, data: TransferData, recipient: Address,
          coins: TransferCoins): (r: (seq<TransferOutput>, Fr3))
    ensures |r.0| > 0
  {
    var (ct0, epk0) := e.encrypt(data.output, recipient, coins.outputEncryption);
    var out0 := TransferOutput(data.output.Commitment(), Some(ct0), Some(epk0));
    match data.change
    case None => ([out0], [CtHash(epk0, ct0), ZERO, ZERO])
    case Some(change) =>
      var (ct1, epk1) := e.encrypt(change, AddressOf(sk, 0), coins.changeEncryption);
      ([out0, TransferOutput(change.Commitment(), Some(ct1), Some(epk1))], [CtHash(epk0, ct0), CtHash(epk1, ct1), ZERO])
  }

  function HonestTransfer(e: Encryption, sk: Fr, data: TransferData, recipient: Address,
          coins: TransferCoins): TransferRequest {
    var (outputs, ctHashes) := EncryptedOutputs(e, sk, data, recipient, coins);
    var run := ProverRun(TransferPublic(SpendPublic(data, ctHashes)), TransferPrivate(SpendPrivate(data, sk)));
    ToRequestWithOutputs(data, run, outputs, ctHashes)
  }

  function HonestUnshield(sk: Fr, owned: OwnedNote, w: MembershipWitness, recipient: Bytes32, amount: u64,
          token: Bytes32): UnshieldRequest {
    var limbs, asset := RecipientLimbs(recipient), ComputeAssetId(token);
    var nullifier := NullifierOf(owned.note, sk);
    var binding := TxBindingUnshield(w.root, nullifier, amount, limbs, asset);
    var public := UnshieldPublicInputs(w.root, nullifier, binding, amount, limbs, asset);
    var run := ProverRun(UnshieldPublic(public), UnshieldPrivate(UnshieldPrivateInputs(sk, owned.note, w)));
    UnshieldRequest(w.root, nullifier, binding, run, recipient, amount, token)
  }

  // ---------------------------------------------------------------------------
  // Wallet operations as functions of ledger and note list
  // ---------------------------------------------------------------------------

  function PrepareSpend(s: StoreState, notes: seq<OwnedNote>,
          cm: Fr): (r: Result<(OwnedNote, MembershipWitness), ClientError>)
    ensures r.Ok? ==> r.value.0 in notes && r.value.0.commitment == cm && !r.value.0.spent
  {
    var i := FindByCommitment(notes, cm);
    if i == |notes| then Err(NoteNotFound)
    else if notes[i].spent then Err(AlreadySpent)
    else if cm !in s.index then Err(StoreFailed(NotFound))
    else Ok((notes[i], WitnessOf(s.leaves, s.index[cm], s.depth)))
  }

  function WalletShield(e: Encryption, sk: Fr, s: LedgerState, notes: seq<OwnedNote>, token: Bytes32, amount: u64,
                        coins: ShieldCoins): (LedgerState, seq<OwnedNote>, Result<TxSig, ClientError>) {
    var (t, r) := ExecShield(s, HonestShield(e, sk, token, amount, coins));
    match r
    case Err(c) => (t, notes, Err(ChainFailed(c)))
    case Ok(tx) => (t, notes + [NewOwned(ShieldedNote(sk, token, amount, coins), tx)], Ok(tx))
  }

  function AfterTransfer(notes: seq<OwnedNote>, data: TransferData, tx: TxSig): seq<OwnedNote> {
    MarkSpent(notes, data.spentCommitment) + (if data.change.Some? then [NewOwned(data.change.value, tx)] else [])
  }

  function WalletTransfer(e: Encryption, sk: Fr, s: LedgerState, notes: seq<OwnedNote>, recipient: Address, amount: u64,
                          asset: Fr, coins: TransferCoins): (LedgerState, seq<OwnedNote>, Result<TxSig, ClientError>) {
    var i := FindSpendable(notes, asset, amount);
    if Balance(notes, asset) >= TWO_64 then (s, notes, Err(Aborted))
    else if i == |notes| then (s, notes, Err(InsufficientBalance(Balance(notes, asset), amount)))
    else
      match PrepareSpend(s.store, notes, notes[i].commitment)
      case Err(c) => (s, notes, Err(c))
      case Ok(p) =>
        if p.0.note.amount < amount then (s, notes, Err(InsufficientBalance(p.0.note.amount, amount)))
        else
          var data := BuildTransfer(sk, p.0, p.1, recipient, amount, coins);
          var req := HonestTransfer(e, sk, data, recipient, coins);
          if !Provable(req.spendProof.public, req.spendProof.private) then (s, notes, Err(ProofFailed))
          else
            var (t, r) := ExecTransfer(s, req);
            match r
            case Err(c) => (t, notes, Err(ChainFailed(c)))
            case Ok(tx) => (t, AfterTransfer(notes, data, tx), Ok(tx))
  }

  function WalletUnshield(sk: Fr, s: LedgerState, notes: seq<OwnedNote>, recipient: Bytes32, amount: u64,
          token: Bytes32)
    : (LedgerState, seq<OwnedNote>, Result<TxSig, ClientError>)
  {
    var asset := ComputeAssetId(token);
    var i := FindSpendable(notes, asset, amount);
    if Balance(notes, asset) >= TWO_64 then (s, notes, Err(Aborted))
    else if i == |notes| then (s, notes, Err(InsufficientBalance(Balance(notes, asset), amount)))
    else
      match PrepareSpend(s.store, notes, notes[i].commitment)
      case Err(c) => (s, notes, Err(c))
      case Ok(p) =>
        if p.0.note.amount != amount then (s, notes, Err(InsufficientBalance(p.0.note.amount, amount)))
        else
          var req := HonestUnshield(sk, p.0, p.1, recipient, amount, token);
          if !Provable(req.spendProof.public, req.spendProof.private) then (s, notes, Err(ProofFailed))
          else
            var (t, r) := ExecUnshield(s, req);
            match r
            case Err(c) => (t, notes, Err(ChainFailed(c)))
            case Ok(tx) => (t, MarkSpent(notes, notes[i].commitment), Ok(tx))
  }

  /** The three wallet checks: it decrypts, the commitment matches, the ciphertext hash matches. */
  function TryDecryptOutput(e: Encryption, sk: Fr, o: OutputCiphertext, index: u64): (r: Option<Note>)
    ensures r.Some? ==> r.value.Commitment() == o.commitment
  {
    match e.decrypt(o.ciphertext, sk, index)
    case None => None
    case Some(note) =>
      if note.Commitment() != o.commitment then None
      else if o.committedCtHash.Some? && o.committedCtHash.value != CtHash(o.ephemeralKey, o.ciphertext) then None
      else Some(note)
  }

  /** Notes found among the outputs, in order, each with the transaction it came from. */
  function Found(e: Encryption, sk: Fr, outputs: seq<OutputCiphertext>, index: u64): seq<(Note, TxSig)> {
    if outputs == [] then []
    else
      var o := outputs[|outputs| - 1];
      var r := TryDecryptOutput(e, sk, o, index);
      Found(e, sk, outputs[..|outputs| - 1], index) + (if r.Some? then [(r.value, o.txSig)] else [])
  }

  /** The found notes whose nullifier is not recorded, as wallet entries. */
  function Unspent(found: seq<(Note, TxSig)>, sk: Fr, nullifiers: set<Fr>): seq<OwnedNote> {
    if found == [] then []
    else
      var (note, tx) := found[|found| - 1];
      Unspent(found[..|found| - 1], sk, nullifiers)
      + (if NullifierOf(note, sk) in nullifiers then [] else [NewOwned(note, tx)])
  }

  datatype SyncResult = SyncResult(outputsScanned: nat, receivedFound: nat, alreadySpent: nat, notesAdded: nat)

  /** One output of a paid transaction: add the note unless it is known or spent. */
  function ReceiveOutput(e: Encryption, sk: Fr, s: LedgerState, notes: seq<OwnedNote>,
          o: OutputCiphertext): seq<OwnedNote> {
    match TryDecryptOutput(e, sk, o, 0)
    case None => notes
    case Some(note) =>
      if FindByCommitment(notes, note.Commitment()) < |notes| then notes
      else if NullifierOf(note, sk) in s.nullifiers then notes
      else notes + [NewOwned(note, o.txSig)]
  }

  /** `receive_payment`: all outputs of one transaction, in order. */
  function Received(e: Encryption, sk: Fr, s: LedgerState, notes: seq<OwnedNote>, outputs: seq<OutputCiphertext>,
          tx: TxSig): seq<OwnedNote> {
    if outputs == [] then notes
    else
      var o := outputs[|outputs| - 1];
      var before := Received(e, sk, s, notes, outputs[..|outputs| - 1], tx);
      if o.txSig == tx then ReceiveOutput(e, sk, s, before, o) else before
  }

  /** What `receive_payment` reports: the notes of that transaction, known or not, spent or not. */
  function PaidNotes(e: Encryption, sk: Fr, outputs: seq<OutputCiphertext>, tx: TxSig): seq<Note> {
    if outputs == [] then []
    else
      var o := outputs[|outputs| - 1];
      var r := TryDecryptOutput(e, sk, o, 0);
      PaidNotes(e, sk, outputs[..|outputs| - 1], tx) + (if o.txSig == tx && r.Some? then [r.value] else [])
  }

  // ---------------------------------------------------------------------------
  // The client object
  // ---------------------------------------------------------------------------

  class MaspClient {
    const spendingKey: Fr
    const chain: MockChain
    const encryption: Encryption
    var notes: seq<OwnedNote>

    ghost predicate Valid()
      reads this, chain, chain.noteStore
    {
      chain.Valid()
    }

    constructor (spendingKey: Fr, chain: MockChain, encryption: Encryption)
      requires chain.Valid()
      ensures Valid() && notes == []
      ensures this.spendingKey == spendingKey && this.chain == chain && this.encryption == encryption
    {
      this.spendingKey, this.chain, this.encryption, notes := spendingKey, chain, encryption, [];
    }

    method AddNote(note: Note, txSig: TxSig)
      modifies `notes
      ensures notes == old(notes) + [NewOwned(note, txSig)]
    {
      notes := notes + [OwnedNote(note, note.Commitment(), txSig, false)];
    }

    method FindNote(commitment: Fr) returns (i: nat)
      ensures i == FindByCommitment(notes, commitment)
    {
      i := 0;
      while i < |notes| && notes[i].commitment != commitment
        invariant 0 <= i <= |notes|
        invariant forall k :: 0 <= k < i ==> notes[k].commitment != commitment
      {
        i := i + 1;
      }
    }

    method MarkNoteSpent(commitment: Fr)
      modifies `notes
      ensures notes == MarkSpent(old(notes), commitment)
    {
      var i := FindNote(commitment);
      if i < |notes| {
        notes := notes[i := notes[i].(spent := true)];
      }
    }

    /** The 64-bit sum; past that limit the checked addition aborts. */
    method GetBalance(asset: Fr) returns (r: Option<u64>)
      ensures r == if Balance(notes, asset) < TWO_64 then Some(Balance(notes, asset)) else None
    {
      var total: u64 := 0;
      var i := 0;
      while i < |notes|
        invariant 0 <= i <= |notes| && total == Balance(notes[..i], asset)
      {
        assert notes[..i + 1][..i] == notes[..i];
        BalanceGrows(notes, i + 1, asset);
        if !notes[i].spent && notes[i].note.assetId == asset {
          if total + notes[i].note.amount >= TWO_64 {
            return None;
          }
          total := total + notes[i].note.amount;
        }
        i := i + 1;
      }
      assert notes[..|notes|] == notes;
      r := Some(total);
    }

    method SelectNote(asset: Fr, amount: u64) returns (i: nat)
      ensures i == FindSpendable(notes, asset, amount)
    {
      i := 0;
      while i < |notes| && !Spendable(notes[i], asset, amount)
        invariant 0 <= i <= |notes|
        invariant forall k :: 0 <= k < i ==> !Spendable(notes[k], asset, amount)
      {
        i := i + 1;
      }
    }

    method Prepare(commitment: Fr) returns (r: Result<(OwnedNote, MembershipWitness), ClientError>)
      requires Valid()
      ensures r == PrepareSpend(chain.noteStore.State(), notes, commitment)
    {
      var i := FindNote(commitment);
      if i == |notes| {
        return Err(NoteNotFound);
      }
      if notes[i].spent {
        return Err(AlreadySpent);
      }
      var w := chain.noteStore.GetWitness(commitment);
      if w.Err? {
        return Err(StoreFailed(w.error));
      }
      return Ok((notes[i], w.value));
    }

    method Shield(token: Bytes32, amount: u64, coins: ShieldCoins) returns (r: Result<TxSig, ClientError>)
      requires Valid()
      modifies `notes, chain, chain.noteStore
      ensures Valid()
      ensures (chain.State(), notes, r)
              == WalletShield(encryption, spendingKey, old(chain.State()), old(notes), token, amount, coins)
    {
      hide ExecShield, HonestShield, ShieldedNote;
      var result := chain.Shield(HonestShield(encryption, spendingKey, token, amount, coins));
      if result.Err? {
        return Err(ChainFailed(result.error));
      }
      AddNote(ShieldedNote(spendingKey, token, amount, coins), result.value);
      return Ok(result.value);
    }

    method TransferTo(recipient: Address, amount: u64, asset: Fr,
            coins: TransferCoins) returns (r: Result<TxSig, ClientError>)
      requires Valid()
      modifies `notes, chain, chain.noteStore
      ensures Valid()
      ensures (chain.State(), notes, r)
           == WalletTransfer(encryption, spendingKey, old(chain.State()), old(notes), recipient, amount, asset, coins)
    {
      hide ExecTransfer, HonestTransfer, BuildTransfer, PrepareSpend, Provable, MarkSpent;
      var i := SelectNote(asset, amount);
      var have := GetBalance(asset);
      if have.None? {
        return Err(Aborted);
      }
      if i == |notes| {
        return Err(InsufficientBalance(have.value, amount));
      }
      var spendCommitment := notes[i].commitment;
      var prepared := Prepare(spendCommitment);
      if prepared.Err? {
        return Err(prepared.error);
      }
      var (owned, w) := prepared.value;
      if owned.note.amount < amount {
        return Err(InsufficientBalance(owned.note.amount, amount));
      }
      var data := BuildTransfer(spendingKey, owned, w, recipient, amount, coins);
      var request := HonestTransfer(encryption, spendingKey, data, recipient, coins);
      if !Provable(request.spendProof.public, request.spendProof.private) {
        return Err(ProofFailed);
      }
      var result := chain.Transfer(request);
      if result.Err? {
        return Err(ChainFailed(result.error));
      }
      MarkNoteSpent(data.spentCommitment);
      if data.change.Some? {
        AddNote(data.change.value, result.value);
      } else {
        assert notes + [] == notes;
      }
      return Ok(result.value);
    }

    method Unshield(recipient: Bytes32, amount: u64, token: Bytes32) returns (r: Result<TxSig, ClientError>)
      requires Valid()
      modifies `notes, chain, chain.noteStore
      ensures Valid()
      ensures (chain.State(), notes, r)
              == WalletUnshield(spendingKey, old(chain.State()), old(notes), recipient, amount, token)
    {
      hide ExecUnshield, HonestUnshield, PrepareSpend, Provable, MarkSpent;
      var asset := ComputeAssetId(token);
      var i := SelectNote(asset, amount);
      var have := GetBalance(asset);
      if have.None? {
        return Err(Aborted);
      }
      if i == |notes| {
        return Err(InsufficientBalance(have.value, amount));
      }
      var spendCommitment := notes[i].commitment;
      var prepared := Prepare(spendCommitment);
      if prepared.Err? {
        return Err(prepared.error);
      }
      var (owned, w) := prepared.value;
      if owned.note.amount != amount {
        return Err(InsufficientBalance(owned.note.amount, amount));
      }
      var request := HonestUnshield(spendingKey, owned, w, recipient, amount, token);
      if !Provable(request.spendProof.public, request.spendProof.private) {
        return Err(ProofFailed);
      }
      var result := chain.Unshield(request);
      if result.Err? {
        return Err(ChainFailed(result.error));
      }
      MarkNoteSpent(spendCommitment);
      return Ok(result.value);
    }

    /**
     Full scan: decrypt every output, batch-check the nullifiers, keep the unspent notes. It
     appends to whatever the wallet already holds.
     */
    method SyncFromChain(diversifierIndex: u64) returns (r: SyncResult)
      requires Valid()
      modifies `notes
      ensures var found := Found(encryption, spendingKey, chain.noteStore.ciphertexts, diversifierIndex);
        && notes == old(notes) + Unspent(found, spendingKey, chain.nullifierSet)
        && r.outputsScanned == |chain.noteStore.ciphertexts| && r.receivedFound == |found|
        && r.notesAdded == |notes| - |old(notes)| && r.receivedFound == r.alreadySpent + r.notesAdded
    {
      var outputs := chain.noteStore.ciphertexts;
      var found: seq<(Note, TxSig)> := [];
      var i := 0;
      while i < |outputs|
        invariant 0 <= i <= |outputs| && found == Found(encryption, spendingKey, outputs[..i], diversifierIndex)
      {
        assert outputs[..i + 1][..i] == outputs[..i];
        var note := TryDecryptOutput(encryption, spendingKey, outputs[i], diversifierIndex);
        if note.Some? {
          found := found + [(note.value, outputs[i].txSig)];
        }
        i := i + 1;
      }
      assert outputs[..|outputs|] == outputs;

      var nullifiers := seq(|found|, k requires 0 <= k < |found| => NullifierOf(found[k].0, spendingKey));
      var spentFlags := chain.BatchCheckNullifiers(nullifiers);
      var alreadySpent, notesAdded := 0, 0;
      var before := notes;
      i := 0;
      while i < |found|
        invariant 0 <= i <= |found| && notes == before + Unspent(found[..i], spendingKey, chain.nullifierSet)
        invariant alreadySpent + notesAdded == i && notesAdded == |notes| - |before|
      {
        assert found[..i + 1][..i] == found[..i];
        if spentFlags[i] {
          alreadySpent := alreadySpent + 1;
        } else {
          notes := notes + [OwnedNote(found[i].0, found[i].0.Commitment(), found[i].1, false)];
          notesAdded := notesAdded + 1;
        }
        i := i + 1;
      }
      assert found[..|found|] == found;
      r := SyncResult(|outputs|, |found|, alreadySpent, notesAdded);
    }

    /** Recovery of a fresh client from its seed: a full scan at diversifier 0. */
    method Recover() returns (r: SyncResult)
      requires Valid() && notes == []
      modifies `notes
      ensures var found := Found(encryption, spendingKey, chain.State().store.ciphertexts, 0);
        && notes == Unspent(found, spendingKey, chain.State().nullifiers)
        && r.outputsScanned == |chain.State().store.ciphertexts| && r.notesAdded == |notes|
        && r.receivedFound == |found| == r.alreadySpent + r.notesAdded
    {
      r := SyncFromChain(0);
    }

    /** Scan the outputs of one transaction, as told by the payer. */
    method ReceivePayment(txSig: TxSig) returns (found: seq<Note>)
      requires Valid()
      modifies `notes
      ensures notes == Received(encryption, spendingKey, chain.State(), old(notes), chain.noteStore.ciphertexts, txSig)
      ensures found == PaidNotes(encryption, spendingKey, chain.noteStore.ciphertexts, txSig)
    {
      var outputs := chain.noteStore.ciphertexts;
      found := [];
      var i := 0;
      while i < |outputs|
        invariant 0 <= i <= |outputs|
        invariant notes == Received(encryption, spendingKey, chain.State(), old(notes), outputs[..i], txSig)
        invariant found == PaidNotes(encryption, spendingKey, outputs[..i], txSig)
      {
        assert outputs[..i + 1][..i] == outputs[..i];
        if outputs[i].txSig == txSig {
          var note := TryDecryptOutput(encryption, spendingKey, outputs[i], 0);
          if note.Some? {
            found := found + [note.value];
            var known := FindNote(note.value.Commitment());
            if known == |notes| && NullifierOf(note.value, spendingKey) !in chain.nullifierSet {
              AddNote(note.value, txSig);
            }
          }
        }
        i := i + 1;
      }
      assert outputs[..|outputs|] == outputs;
    }
  }
}
