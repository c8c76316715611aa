/** The circuit statements as the reference prover checks them (client/src/proofs.rs). */
module Proofs {
  import opened Words
  import opened Field
  import opened MerkleTree
  import opened Traits

  // ---------------------------------------------------------------------------
  // Statements
  // ---------------------------------------------------------------------------

  predicate ShieldStatement(pub: ShieldPublicInputs, note: Note) {
    && note.Commitment() == pub.newCommitment
    && pub.publicAmount == note.amount
    && pub.publicAssetId == note.assetId
    && pub.ctHash != ZERO
  }

  /** Membership, preimage, ownership and nullifier of one enabled input; a zero nullifier otherwise. */
  predicate InputHolds(pub: TransferPublicInputs, slot: InputSlot, i: nat)
    requires i < MAX_INPUTS
  {
    if slot.enabled then
      && slot.membershipWitness.root == pub.anchor
      && Accepted(slot.membershipWitness, slot.note.Commitment())
      && OwnedBy(slot.note, slot.spendingKey)
      && NullifierOf(slot.note, slot.spendingKey) == pub.nullifiers[i]
    else
      pub.nullifiers[i] == ZERO
  }

  /** Commitment and derived nonce of one enabled output; a zero commitment otherwise. */
  predicate OutputHolds(pub: TransferPublicInputs, slot: OutputSlot, j: nat)
    requires j < MAX_OUTPUTS
  {
    if slot.enabled then
      && slot.note.Commitment() == pub.outputCommitments[j]
      && slot.note.nullifierNonce == DeriveOutputNonce(pub.txBinding, j)
    else
      pub.outputCommitments[j] == ZERO
  }

  predicate SingleAsset(priv: TransferPrivateInputs) {
    && (forall i, k :: 0 <= i < MAX_INPUTS && 0 <= k < MAX_INPUTS && priv.inputs[i].enabled && priv.inputs[k].enabled
          ==> priv.inputs[i].note.assetId == priv.inputs[k].note.assetId)
    && (forall i, j :: 0 <= i < MAX_INPUTS && 0 <= j < MAX_OUTPUTS && priv.inputs[i].enabled && priv.outputs[j].enabled
          ==> priv.inputs[i].note.assetId == priv.outputs[j].note.assetId)
  }

  predicate BindingHolds(pub: TransferPublicInputs) {
    pub.txBinding == TxBindingTransfer(pub.anchor, pub.nullifiers, pub.inputCount, pub.outputCount)
  }

  predicate CountsHold(pub: TransferPublicInputs, priv: TransferPrivateInputs) {
    |SpentNotes(priv.inputs)| == pub.inputCount && |CreatedNotes(priv.outputs)| == pub.outputCount
  }

  predicate InputsHold(pub: TransferPublicInputs, priv: TransferPrivateInputs) {
    forall i :: 0 <= i < MAX_INPUTS ==> InputHolds(pub, priv.inputs[i], i)
  }

  predicate TransferStatement(pub: TransferPublicInputs, priv: TransferPrivateInputs) {
    && BindingHolds(pub)
    && CountsHold(pub, priv)
    && InputsHold(pub, priv)
    && SpentNotes(priv.inputs) != []
    && SingleAsset(priv)
    && (forall j :: 0 <= j < MAX_OUTPUTS ==> OutputHolds(pub, priv.outputs[j], j))
    && Total(SpentNotes(priv.inputs)) == Total(CreatedNotes(priv.outputs))
    && (forall j :: 0 <= j < MAX_OUTPUTS ==> (priv.outputs[j].enabled <==> pub.ctHashes[j] != ZERO))
  }

  predicate UnshieldStatement(pub: UnshieldPublicInputs, priv: UnshieldPrivateInputs) {
    && pub.txBinding == TxBindingUnshield(pub.anchor, pub.nullifier, pub.publicAmount, pub.publicRecipientLimbs,
       pub.publicAssetId)
    && priv.membershipWitness.root == pub.anchor
    && Accepted(priv.membershipWitness, priv.note.Commitment())
    && OwnedBy(priv.note, priv.spendingKey)
    && NullifierOf(priv.note, priv.spendingKey) == pub.nullifier
    && pub.publicAssetId == priv.note.assetId
    && pub.publicAmount == priv.note.amount
  }

  // ---------------------------------------------------------------------------
  // The transfer check
  // ---------------------------------------------------------------------------

  lemma {:induction false} SpentNotesStep(slots: seq<InputSlot>, i: nat)
    requires i < |slots|
    ensures SpentNotes(slots[..i + 1])
         == if slots[i].enabled then SpentNotes(slots[..i]) + [slots[i].note] else SpentNotes(slots[..i])
  {
    assert slots[..i + 1][..i] == slots[..i];
  }

  lemma {:induction false} CreatedNotesStep(slots: seq<OutputSlot>, i: nat)
    requires i < |slots|
    ensures CreatedNotes(slots[..i + 1])
         == if slots[i].enabled then CreatedNotes(slots[..i]) + [slots[i].note] else CreatedNotes(slots[..i])
  {
    assert slots[..i + 1][..i] == slots[..i];
  }

  lemma {:induction false} TotalStep(notes: seq<Note>, note: Note)
    ensures Total(notes + [note]) == Total(notes) + note.amount
  {
    assert (notes + [note])[..|notes|] == notes;
  }

  /** After i input slots: the sum so far, and the asset once one is known. */
  ghost predicate InputSum(priv: TransferPrivateInputs, i: nat, inSum: nat, asset: Option<Fr>)
    requires i <= MAX_INPUTS
  {
    var notes := SpentNotes(priv.inputs[..i]);
    && inSum == Total(notes) && inSum <= i * TWO_64
    && (asset.None? <==> notes == [])
    && (asset.None? ==> forall k :: 0 <= k < i ==> !priv.inputs[k].enabled)
    && (asset.Some? ==> forall k :: 0 <= k < i && priv.inputs[k].enabled ==> priv.inputs[k].note.assetId == asset.value)
    && (asset.Some? ==> exists k :: 0 <= k < i && priv.inputs[k].enabled && priv.inputs[k].note.assetId == asset.value)
  }

  ghost predicate InputsHoldUpTo(pub: TransferPublicInputs, priv: TransferPrivateInputs, i: nat)
    requires i <= MAX_INPUTS
  {
    forall k :: 0 <= k < i ==> InputHolds(pub, priv.inputs[k], k)
  }

  ghost predicate OutputsDone(pub: TransferPublicInputs, priv: TransferPrivateInputs, j: nat, outSum: nat, asset: Fr)
    requires j <= MAX_OUTPUTS
  {
    && (forall k :: 0 <= k < j ==> OutputHolds(pub, priv.outputs[k], k))
    && (forall k :: 0 <= k < j && priv.outputs[k].enabled ==> priv.outputs[k].note.assetId == asset)
    && outSum == Total(CreatedNotes(priv.outputs[..j])) && outSum <= j * TWO_64
  }

  method CheckInput(pub: TransferPublicInputs, slot: InputSlot, i: nat) returns (ok: bool)
    requires i < MAX_INPUTS
    ensures ok == InputHolds(pub, slot, i)
  {
    if !slot.enabled {
      return pub.nullifiers[i] == ZERO;
    }
    var inputCommitment := slot.note.Commitment();
    if slot.membershipWitness.root != pub.anchor {
      return false;
    }
    var member := VerifyLocal(slot.membershipWitness, inputCommitment);
    if !member {
      return false;
    }
    if slot.note.recipient != AddressField(slot.spendingKey, slot.note.diversifierIndex) {
      return false;
    }
    return ComputeNullifier(Nsk(slot.spendingKey), slot.note.nullifierNonce) == pub.nullifiers[i];
  }

  lemma {:induction false} InputSumStep(priv: TransferPrivateInputs, i: nat, inSum: nat, asset: Option<Fr>)
    requires i < MAX_INPUTS && InputSum(priv, i, inSum, asset)
    ensures var slot := priv.inputs[i];
            if !slot.enabled then InputSum(priv, i + 1, inSum, asset)
            else if asset.None? || asset.value == slot.note.assetId then
              InputSum(priv, i + 1, inSum + slot.note.amount, Some(slot.note.assetId))
            else !SingleAsset(priv) && SpentNotes(priv.inputs) != []
  {
    hide SpentNotes, Total;
    var slot := priv.inputs[i];
    SpentNotesStep(priv.inputs, i);
    if slot.enabled {
      TotalStep(SpentNotes(priv.inputs[..i]), slot.note);
      EnabledMeansSpent(priv.inputs, i);
    }
  }

  /** The asset and sum bookkeeping of one enabled slot. */
  method FoldInput(priv: TransferPrivateInputs, i: nat, inSum: nat, asset: Option<Fr>)
    returns (ok: bool, newSum: nat, newAsset: Option<Fr>)
    requires i < MAX_INPUTS && InputSum(priv, i, inSum, asset)
    ensures ok ==> InputSum(priv, i + 1, newSum, newAsset)
    ensures !ok ==> !SingleAsset(priv) && SpentNotes(priv.inputs) != []
  {
    var slot := priv.inputs[i];
    InputSumStep(priv, i, inSum, asset);
    if !slot.enabled {
      return true, inSum, asset;
    }
    if asset.Some? && asset.value != slot.note.assetId {
      return false, inSum, asset;
    }
    // the 128-bit checked add cannot overflow: inSum <= i * 2^64
    return true, inSum + slot.note.amount, Some(slot.note.assetId);
  }

  method CheckInputs(pub: TransferPublicInputs, priv: TransferPrivateInputs)
    returns (ok: bool, inSum: nat, asset: Option<Fr>)
    ensures ok ==> InputsHold(pub, priv) && InputSum(priv, MAX_INPUTS, inSum, asset)
    ensures !ok ==> !InputsHold(pub, priv) || (!SingleAsset(priv) && SpentNotes(priv.inputs) != [])
  {
    hide InputHolds;
    inSum, asset := 0, None;
    assert InputSum(priv, 0, inSum, asset);
    var i := 0;
    while i < MAX_INPUTS
      invariant i <= MAX_INPUTS
      invariant InputsHoldUpTo(pub, priv, i) && InputSum(priv, i, inSum, asset)
    {
      var holds := CheckInput(pub, priv.inputs[i], i);
      if !holds {
        return false, inSum, asset;
      }
      ok, inSum, asset := FoldInput(priv, i, inSum, asset);
      if !ok {
        return;
      }
      i := i + 1;
    }
    ok := true;
  }

  lemma {:induction false} EnabledMeansSpent(slots: seq<InputSlot>, i: nat)
    requires i < |slots| && slots[i].enabled
    ensures slots[i].note in SpentNotes(slots)
  {
    var n := |slots| - 1;
    if i < n {
      EnabledMeansSpent(slots[..n], i);
      assert SpentNotes(slots) == SpentNotes(slots[..n]) + (if slots[n].enabled then [slots[n].note] else []);
    }
  }

  ghost predicate OutputFails(pub: TransferPublicInputs, priv: TransferPrivateInputs, j: nat, asset: Fr) {
    && j < MAX_OUTPUTS
    && (!OutputHolds(pub, priv.outputs[j], j) || (priv.outputs[j].enabled && priv.outputs[j].note.assetId != asset))
  }

  lemma {:induction false} OutputsDoneStep(pub: TransferPublicInputs, priv: TransferPrivateInputs, j: nat,
          outSum: nat, asset: Fr)
    requires j < MAX_OUTPUTS && OutputsDone(pub, priv, j, outSum, asset) && !OutputFails(pub, priv, j, asset)
    ensures OutputsDone(pub, priv, j + 1,
                        outSum + (if priv.outputs[j].enabled then priv.outputs[j].note.amount else 0), asset)
  {
    CreatedNotesStep(priv.outputs, j);
    if priv.outputs[j].enabled {
      TotalStep(CreatedNotes(priv.outputs[..j]), priv.outputs[j].note);
    }
  }

  method CheckOutput(pub: TransferPublicInputs, slot: OutputSlot, j: nat, asset: Fr) returns (ok: bool)
    requires j < MAX_OUTPUTS
    ensures ok == (OutputHolds(pub, slot, j) && (slot.enabled ==> slot.note.assetId == asset))
  {
    if !slot.enabled {
      return pub.outputCommitments[j] == ZERO;
    }
    if slot.note.Commitment() != pub.outputCommitments[j] {
      return false;
    }
    if slot.note.nullifierNonce != DeriveOutputNonce(pub.txBinding, j) {
      return false;
    }
    return slot.note.assetId == asset;
  }

  method CheckOutputs(pub: TransferPublicInputs, priv: TransferPrivateInputs, asset: Fr) returns (ok: bool, outSum: nat)
    ensures ok ==> OutputsDone(pub, priv, MAX_OUTPUTS, outSum, asset)
    ensures !ok ==> exists j :: OutputFails(pub, priv, j, asset)
  {
    outSum := 0;
    var j := 0;
    while j < MAX_OUTPUTS
      invariant j <= MAX_OUTPUTS
      invariant OutputsDone(pub, priv, j, outSum, asset)
    {
      var slot := priv.outputs[j];
      var holds := CheckOutput(pub, slot, j, asset);
      if !holds {
        assert OutputFails(pub, priv, j, asset);
        return false, outSum;
      }
      OutputsDoneStep(pub, priv, j, outSum, asset);
      if slot.enabled {
        outSum := outSum + slot.note.amount;
      }
      j := j + 1;
    }
    ok := true;
  }

  method CheckCtHashes(pub: TransferPublicInputs, priv: TransferPrivateInputs) returns (ok: bool)
    ensures ok <==> forall j :: 0 <= j < MAX_OUTPUTS ==> (priv.outputs[j].enabled <==> pub.ctHashes[j] != ZERO)
  {
    var j := 0;
    while j < MAX_OUTPUTS
      invariant j <= MAX_OUTPUTS
      invariant forall k :: 0 <= k < j ==> (priv.outputs[k].enabled <==> pub.ctHashes[k] != ZERO)
    {
      if priv.outputs[j].enabled {
        if pub.ctHashes[j] == ZERO {
          return false;
        }
      } else {
        if pub.ctHashes[j] != ZERO {
          return false;
        }
      }
      j := j + 1;
    }
    return true;
  }

  /** What the two loops together decide about assets and sums. */
  lemma {:induction false} LoopsDecide(pub: TransferPublicInputs, priv: TransferPrivateInputs, inSum: nat,
          asset: Option<Fr>)
    requires InputSum(priv, MAX_INPUTS, inSum, asset)
    ensures asset.None? <==> SpentNotes(priv.inputs) == []
    ensures inSum == Total(SpentNotes(priv.inputs))
    ensures asset.Some? ==>
      forall outSum: nat :: OutputsDone(pub, priv, MAX_OUTPUTS, outSum, asset.value) ==>
        SingleAsset(priv) && outSum == Total(CreatedNotes(priv.outputs))
    ensures asset.Some? ==>
      forall j: nat :: OutputFails(pub, priv, j, asset.value) ==>
          !OutputHolds(pub, priv.outputs[j], j) || !SingleAsset(priv)
  {
    assert priv.inputs[..3] == priv.inputs && priv.outputs[..3] == priv.outputs;
  }

  /**
   The transfer check accepts exactly the statement; it blames the public inputs exactly when the
   binding is right and either the counts are wrong or every input slot is correctly disabled.
   */
  method MockCheckTransfer(pub: TransferPublicInputs,
          priv: TransferPrivateInputs) returns (r: Result<(), ProofSystemError>)
    ensures r.Ok? <==> TransferStatement(pub, priv)
    ensures r == Err(InvalidPublicInputs) <==>
      BindingHolds(pub) && (!CountsHold(pub, priv) || (InputsHold(pub, priv) && SpentNotes(priv.inputs) == []))
  {
    if pub.txBinding != TxBindingTransfer(pub.anchor, pub.nullifiers, pub.inputCount, pub.outputCount) {
      return Err(VerificationFailed);
    }
    if |SpentNotes(priv.inputs)| != pub.inputCount || |CreatedNotes(priv.outputs)| != pub.outputCount {
      return Err(InvalidPublicInputs);
    }
    var ok, inSum, assetId := CheckInputs(pub, priv);
    if !ok {
      return Err(VerificationFailed);
    }
    LoopsDecide(pub, priv, inSum, assetId);
    if assetId.None? {
      return Err(InvalidPublicInputs);
    }
    var outOk, outSum := CheckOutputs(pub, priv, assetId.value);
    if !outOk {
      return Err(VerificationFailed);
    }
    if inSum != outSum {
      return Err(VerificationFailed);
    }
    var hashesOk := CheckCtHashes(pub, priv);
    return if hashesOk then Ok(()) else Err(VerificationFailed);
  }

  // ---------------------------------------------------------------------------
  // Prover and verifier
  // ---------------------------------------------------------------------------

  predicate Provable(pub: ProofPublicInputs, priv: ProofPrivateInputs) {
    match pub
    case ShieldPublic(pi) => priv.ShieldPrivate? && ShieldStatement(pi, priv.note)
    case TransferPublic(pi) => priv.TransferPrivate? && TransferStatement(pi, priv.transfer)
    case UnshieldPublic(pi) => priv.UnshieldPrivate? && UnshieldStatement(pi, priv.unshield)
  }

  /** One slot each, written out down to the digests. */
  lemma {:induction false} SlotsHoldIff(pub: TransferPublicInputs, input: InputSlot, i: nat, output: OutputSlot, j: nat)
    requires i < MAX_INPUTS && j < MAX_OUTPUTS
    ensures !input.enabled ==> (InputHolds(pub, input, i) <==> pub.nullifiers[i] == ZERO)
    ensures input.enabled ==> (InputHolds(pub, input, i) <==>
      && input.membershipWitness.root == pub.anchor
      && Accepted(input.membershipWitness, input.note.Commitment())
      && input.note.recipient == AddressField(input.spendingKey, input.note.diversifierIndex)
      && pub.nullifiers[i] == ComputeNullifier(Nsk(input.spendingKey), input.note.nullifierNonce))
    ensures !output.enabled ==> (OutputHolds(pub, output, j) <==> pub.outputCommitments[j] == ZERO)
    ensures output.enabled ==> (OutputHolds(pub, output, j) <==>
      && pub.outputCommitments[j] == output.note.Commitment()
      && output.note.nullifierNonce == DeriveOutputNonce(pub.txBinding, j))
  {
    hide Accepted, DeriveOutputNonce, AddressField, ComputeNullifier;
  }

  /** What a transfer proof exists for, and no other private inputs. */
  lemma {:induction false} TransferProvableIff(pub: TransferPublicInputs, priv: TransferPrivateInputs)
    ensures Provable(TransferPublic(pub), TransferPrivate(priv)) <==>
      && pub.txBinding == TxBindingTransfer(pub.anchor, pub.nullifiers, pub.inputCount, pub.outputCount)
      && 0 < |SpentNotes(priv.inputs)| == pub.inputCount && |CreatedNotes(priv.outputs)| == pub.outputCount
      && (forall i :: 0 <= i < MAX_INPUTS ==> InputHolds(pub, priv.inputs[i], i))
      && (forall j :: 0 <= j < MAX_OUTPUTS ==> OutputHolds(pub, priv.outputs[j], j))
      && (forall j :: 0 <= j < MAX_OUTPUTS ==> (priv.outputs[j].enabled <==> pub.ctHashes[j] != ZERO))
      && OneAsset(priv)
      && Total(SpentNotes(priv.inputs)) == Total(CreatedNotes(priv.outputs))
  {
    hide InputHolds, OutputHolds, SpentNotes, CreatedNotes, Total, TxBindingTransfer;
    if SpentNotes(priv.inputs) != [] {
      OneAssetIff(priv);
    }
  }

  predicate AllInAsset(priv: TransferPrivateInputs, asset: Fr) {
    && (forall i :: 0 <= i < MAX_INPUTS && priv.inputs[i].enabled ==> priv.inputs[i].note.assetId == asset)
    && (forall j :: 0 <= j < MAX_OUTPUTS && priv.outputs[j].enabled ==> priv.outputs[j].note.assetId == asset)
  }

  /** Some asset is that of every enabled slot. */
  ghost predicate OneAsset(priv: TransferPrivateInputs) { exists asset: Fr :: AllInAsset(priv, asset) }

  lemma {:induction false} OneAssetIff(priv: TransferPrivateInputs)
    requires SpentNotes(priv.inputs) != []
    ensures SingleAsset(priv) <==> OneAsset(priv)
  {
    var i :| 0 <= i < MAX_INPUTS && priv.inputs[i].enabled by { SomeEnabled(priv.inputs); }
    if SingleAsset(priv) {
      assert AllInAsset(priv, priv.inputs[i].note.assetId);
    }
  }

  lemma {:induction false} SomeEnabled(slots: seq<InputSlot>)
    requires SpentNotes(slots) != []
    ensures exists i :: 0 <= i < |slots| && slots[i].enabled
  {
    if !slots[|slots| - 1].enabled {
      SomeEnabled(slots[..|slots| - 1]);
      var i :| 0 <= i < |slots| - 1 && slots[..|slots| - 1][i].enabled;
      assert slots[i].enabled;
    }
  }

  /** The other two statements, and no private inputs of another kind. */
  lemma {:induction false} OthersProvableIff(pub: ProofPublicInputs, priv: ProofPrivateInputs)
    ensures pub.ShieldPublic? ==>
      (Provable(pub, priv) <==>
        && priv.ShieldPrivate? && pub.shield.newCommitment == priv.note.Commitment()
        && pub.shield.publicAmount == priv.note.amount && pub.shield.publicAssetId == priv.note.assetId
        && pub.shield.ctHash != ZERO)
    ensures pub.TransferPublic? ==> (Provable(pub, priv) ==> priv.TransferPrivate?)
    ensures pub.UnshieldPublic? ==>
      (Provable(pub, priv) <==>
        && priv.UnshieldPrivate?
        && var pi, own := pub.unshield, priv.unshield;
        && pi.txBinding == TxBindingUnshield(pi.anchor, pi.nullifier, pi.publicAmount, pi.publicRecipientLimbs,
                                             pi.publicAssetId)
        && own.membershipWitness.root == pi.anchor && Accepted(own.membershipWitness, own.note.Commitment())
        && own.note.recipient == AddressField(own.spendingKey, own.note.diversifierIndex)
        && pi.nullifier == ComputeNullifier(Nsk(own.spendingKey), own.note.nullifierNonce)
        && pi.publicAssetId == own.note.assetId && pi.publicAmount == own.note.amount)
  {
    hide Accepted, TxBindingUnshield, AddressField, ComputeNullifier, TransferStatement;
  }

  /** The digest carried by a mock proof: all public inputs except the ciphertext hashes. */
  function PublicInputsHash(pub: ProofPublicInputs): Fr {
    match pub
    case ShieldPublic(pi) =>
      Hash(In3(DOM_TX_BINDING, Num(1), pi.newCommitment, In(pi.publicAssetId, In(Num(pi.publicAmount), End))))
    case TransferPublic(pi) =>
      var nf, cm := pi.nullifiers, pi.outputCommitments;
      Hash(In3(DOM_TX_BINDING, Num(2), pi.anchor, In(Num(pi.inputCount), In(Num(pi.outputCount),
           In3(nf[0], nf[1], nf[2], In3(cm[0], cm[1], cm[2], In(pi.txBinding, End)))))))
    case UnshieldPublic(pi) =>
      var limbs := pi.publicRecipientLimbs;
      Hash(In3(DOM_TX_BINDING, Num(3), pi.anchor, In3(pi.nullifier, pi.txBinding, Num(pi.publicAmount),
           In3(Num(limbs[0]), Num(limbs[1]), Num(limbs[2]), In(Num(limbs[3]), In(pi.publicAssetId, End))))))
  }

  /** Same statement about the pool; the ciphertext hashes may differ. */
  predicate SameButCiphertexts(a: ProofPublicInputs, b: ProofPublicInputs) {
    match (a, b)
    case (ShieldPublic(x), ShieldPublic(y)) => x == y.(ctHash := x.ctHash)
    case (TransferPublic(x), TransferPublic(y)) => x == y.(ctHashes := x.ctHashes)
    case (UnshieldPublic(x), UnshieldPublic(y)) => x == y
    case _ => false
  }

  /** The digest binds every public input except the ciphertext hashes, and nothing more. */
  lemma {:induction false} PublicInputsHashBinds(a: ProofPublicInputs, b: ProofPublicInputs)
    ensures PublicInputsHash(a) == PublicInputsHash(b) <==> SameButCiphertexts(a, b)
  {
    match (a, b)
    case (TransferPublic(x), TransferPublic(y)) =>
      if PublicInputsHash(a) == PublicInputsHash(b) {
        assert x.nullifiers == y.nullifiers && x.outputCommitments == y.outputCommitments;
      }
    case (UnshieldPublic(x), UnshieldPublic(y)) =>
      if PublicInputsHash(a) == PublicInputsHash(b) {
        assert x.publicRecipientLimbs == y.publicRecipientLimbs;
      }
    case _ =>
  }

  /** The verifier accepts proof bytes for `pub`: a successful prover run produced this very digest. */
  predicate Verifies(pub: ProofPublicInputs, proof: ProverRun) {
    Provable(proof.public, proof.private) && PublicInputsHash(proof.public) == PublicInputsHash(pub)
  }

  /** What an accepted transfer proof guarantees about the public inputs the chain rebuilt. */
  lemma {:induction false} AcceptedTransfer(pub: TransferPublicInputs, proof: ProverRun)
    requires Verifies(TransferPublic(pub), proof)
    ensures proof.private.TransferPrivate?
    ensures exists ctHashes: Fr3 :: TransferStatement(pub.(ctHashes := ctHashes), proof.private.transfer)
  {
    PublicInputsHashBinds(proof.public, TransferPublic(pub));
    var proven := proof.public.transfer;
    assert proven == pub.(ctHashes := proven.ctHashes);
  }

  lemma {:induction false} AcceptedShield(pub: ShieldPublicInputs, proof: ProverRun)
    requires Verifies(ShieldPublic(pub), proof)
    ensures proof.private.ShieldPrivate?
    ensures var note := proof.private.note;
            note.Commitment() == pub.newCommitment && note.amount == pub.publicAmount
                && note.assetId == pub.publicAssetId
  {
    PublicInputsHashBinds(proof.public, ShieldPublic(pub));
  }

  lemma {:induction false} AcceptedUnshield(pub: UnshieldPublicInputs, proof: ProverRun)
    requires Verifies(UnshieldPublic(pub), proof)
    ensures proof.private.UnshieldPrivate? && UnshieldStatement(pub, proof.private.unshield)
  {
    PublicInputsHashBinds(proof.public, UnshieldPublic(pub));
  }

  method MockCheckUnshield(pub: UnshieldPublicInputs,
          priv: UnshieldPrivateInputs) returns (r: Result<(), ProofSystemError>)
    ensures r == if UnshieldStatement(pub, priv) then Ok(()) else Err(VerificationFailed)
  {
    var inputCommitment := priv.note.Commitment();
    var binding := TxBindingUnshield(pub.anchor, pub.nullifier, pub.publicAmount, pub.publicRecipientLimbs,
        pub.publicAssetId);
    if pub.txBinding != binding {
      return Err(VerificationFailed);
    }
    if priv.membershipWitness.root != pub.anchor {
      return Err(VerificationFailed);
    }
    var member := VerifyLocal(priv.membershipWitness, inputCommitment);
    if !member {
      return Err(VerificationFailed);
    }
    if priv.note.recipient != AddressField(priv.spendingKey, priv.note.diversifierIndex) {
      return Err(VerificationFailed);
    }
    if ComputeNullifier(Nsk(priv.spendingKey), priv.note.nullifierNonce) != pub.nullifier {
      return Err(VerificationFailed);
    }
    if pub.publicAssetId != priv.note.assetId {
      return Err(VerificationFailed);
    }
    if pub.publicAmount != priv.note.amount {
      return Err(VerificationFailed);
    }
    return Ok(());
  }

  /**
   The reference prover: it produces a proof exactly for true statements, and what it produces
   verifies against public inputs exactly when they agree with the proven ones up to the
   ciphertext hashes.
   */
  method Prove(pub: ProofPublicInputs, priv: ProofPrivateInputs) returns (r: Result<ProverRun, ProofSystemError>)
    ensures r.Ok? <==> Provable(pub, priv)
    ensures pub.ShieldPublic? != priv.ShieldPrivate? || pub.TransferPublic? != priv.TransferPrivate? ==>
      r == Err(InvalidPublicInputs)
    ensures (pub.ShieldPublic? && priv.ShieldPrivate?) || (pub.UnshieldPublic? && priv.UnshieldPrivate?) ==>
      r.Ok? || r == Err(VerificationFailed)
    ensures r.Ok? ==> forall other :: Verifies(other, r.value) <==> SameButCiphertexts(pub, other)
  {
    match (pub, priv) {
      case (ShieldPublic(pi), ShieldPrivate(note)) =>
        if note.Commitment() != pi.newCommitment || pi.publicAmount != note.amount || pi.publicAssetId != note.assetId
           || pi.ctHash == ZERO {
          return Err(VerificationFailed);
        }
      case (TransferPublic(pi), TransferPrivate(transfer)) =>
        var checked := MockCheckTransfer(pi, transfer);
        if checked.Err? {
          return Err(checked.error);
        }
      case (UnshieldPublic(pi), UnshieldPrivate(unshield)) =>
        var checked := MockCheckUnshield(pi, unshield);
        if checked.Err? {
          return Err(checked.error);
        }
      case _ =>
        return Err(InvalidPublicInputs);
    }
    r := Ok(ProverRun(pub, priv));
    forall other ensures Verifies(other, r.value) <==> SameButCiphertexts(pub, other) {
      PublicInputsHashBinds(pub, other);
    }
  }
}
