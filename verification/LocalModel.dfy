/**
 LocalSync mode on values: what the on-chain program and the client's mirror store hold together, and
 how the backend's operations change it (client/src/backends/solana.rs).
 */
module LocalModel {
  import opened Words
  import opened Field
  import opened MerkleTree
  import opened Traits
  import opened Store
  import opened TreeStates
  import opened Value

  /** Commitments among the first `count` outputs that the program inserts. */
  function NonZeroCount(outputs: seq<Fr>): nat {
    if outputs == [] then 0
    else NonZeroCount(outputs[..|outputs| - 1]) + (if outputs[|outputs| - 1] != ZERO then 1 else 0)
  }

  lemma {:induction false} NonZeroCountFull(outputs: seq<Fr>)
    ensures NonZeroCount(outputs) <= |outputs|
    ensures NonZeroCount(outputs) == |outputs| <==> ZERO !in outputs
  {
    if outputs != [] {
      var k := |outputs| - 1;
      NonZeroCountFull(outputs[..k]);
      assert outputs == outputs[..k] + [outputs[k]];
    }
  }

  lemma {:induction false} NonZeroCountGrows(outputs: seq<Fr>, j: nat)
    requires j <= |outputs|
    ensures NonZeroCount(outputs[..j]) <= NonZeroCount(outputs)
  {
    if j < |outputs| {
      var k := |outputs| - 1;
      NonZeroCountGrows(outputs[..k], j);
      assert outputs[..k][..j] == outputs[..j];
    } else {
      assert outputs[..j] == outputs;
    }
  }

  /** Every real nullifier is without an account and none is listed twice. */
  predicate FreshDistinct(nullifiers: seq<Fr>, accounts: set<Fr>) {
    forall i :: 0 <= i < |nullifiers| && nullifiers[i] != ZERO ==>
      nullifiers[i] !in accounts && nullifiers[i] !in nullifiers[..i]
  }

  function Mirrored(s: StoreState, outputs: seq<TransferOutput>, tx: TxSig): StoreState {
    if outputs == [] then s
    else
      var o := outputs[|outputs| - 1];
      OutputInserted(Mirrored(s, outputs[..|outputs| - 1], tx), o.commitment, tx,
          AttachedCiphertext(o.ciphertext, o.ephemeralKey))
  }

  lemma {:induction false} InsertCounts(s: StoreState, cm: Fr, tx: TxSig, data: Option<OutputCiphertextData>)
    ensures OutputInserted(s, cm, tx, data).leafCount == s.leafCount + 1
  {
  }

  lemma {:induction false} MirroredCount(s: StoreState, outputs: seq<TransferOutput>, tx: TxSig)
    ensures Mirrored(s, outputs, tx).leafCount == s.leafCount + |outputs|
  {
    if outputs != [] {
      MirroredCount(s, outputs[..|outputs| - 1], tx);
    }
  }

  function Commitments(outputs: TransferOutputs3): Fr3 {
    [outputs[0].commitment, outputs[1].commitment, outputs[2].commitment]
  }

  lemma {:induction false} AllRealCount(outputs: TransferOutputs3, count: nat)
    requires count <= MAX_OUTPUTS
    ensures NonZeroCount(Commitments(outputs)[..count]) == count <==>
            forall j :: 0 <= j < count ==> outputs[j].commitment != ZERO
    ensures NonZeroCount(Commitments(outputs)[..count]) <= count
  {
    var enabled := Commitments(outputs)[..count];
    NonZeroCountFull(enabled);
    assert forall j :: 0 <= j < count ==> enabled[j] == outputs[j].commitment;
  }

  lemma {:induction false} NewestInWindow(zero: Fr, roots: seq<Fr>)
    requires roots != []
    ensures roots[|roots| - 1] in Window(zero, roots)
  {
    assert Window(zero, roots)[TreeStates.ANCHOR_HISTORY_SIZE] == roots[|roots| - 1];
  }

  // ---------------------------------------------------------------------------
  // Program and mirror side by side
  // ---------------------------------------------------------------------------

  /** The program's tree state and nullifier accounts, and the backend's flag and mirror. */
  datatype Pair = Pair(
    created: bool,
    paused: bool,
    authority: nat,
    leafCount: nat,
    roots: seq<Fr>,
    accounts: set<Fr>,
    initialized: bool,
    store: StoreState)
  {
    /** Leaf counts on chain and in the mirror agree. */
    predicate InStep() { leafCount == store.leafCount }

    /** The mirror's root is the newest on-chain root. */
    predicate RootsAgree() { roots != [] && roots[|roots| - 1] == store.Root() }

    predicate Accepts(anchor: Fr) { roots != [] && anchor in Window(ZERO, roots) }
  }

  /** First contact: catch up with a program that is set up, or set it up. */
  function Connected(p: Pair, payer: nat): Pair {
    if p.initialized then p
    else if p.created then
      p.(initialized := true,
         store := p.store.(leafCount := if p.leafCount > p.store.leafCount then p.leafCount else p.store.leafCount))
    else p.(initialized := true, created := true, authority := payer)
  }

  /** The program takes over the mirror's root from its authority when the counts agree. */
  predicate PushTaken(p: Pair, payer: nat) { p.created && payer == p.authority && p.InStep() }

  function Pushed(p: Pair, payer: nat): Pair {
    if PushTaken(p, payer) then p.(roots := p.roots + [p.store.Root()]) else p
  }

  datatype LocalCall =
    | ShieldCall(commitment: Fr, data: Option<OutputCiphertextData>, tx: TxSig, proofVerifies: bool)
    | TransferCall(anchor: Fr, nullifiers: Fr3, inputCount: nat, outputs: TransferOutputs3, outputCount: nat, tx: TxSig,
        proofVerifies: bool)
    | UnshieldCall(anchor: Fr, nullifier: Fr, proofVerifies: bool)

  /** The program accepts the call. */
  predicate Taken(p: Pair, call: LocalCall) {
    && p.created && !p.paused && call.proofVerifies
    && match call
       case ShieldCall(_, _, _, _) => p.leafCount + 1 < TWO_64
       case TransferCall(anchor, nullifiers, inputCount, outputs, outputCount, _, _) =>
         && p.Accepts(anchor) && inputCount <= MAX_INPUTS && outputCount <= MAX_OUTPUTS
         && FreshDistinct(nullifiers[..inputCount], p.accounts)
         && p.leafCount + NonZeroCount(Commitments(outputs)[..outputCount]) < TWO_64
       case UnshieldCall(anchor, nullifier, _) => p.Accepts(anchor) && nullifier !in p.accounts
  }

  /** Program and mirror after a call that the program accepted, before the root is pushed. */
  function Performed(p: Pair, call: LocalCall): Pair
    requires Taken(p, call)
  {
    match call
    case ShieldCall(commitment, data, tx, _) =>
      p.(leafCount := p.leafCount + 1, store := OutputInserted(p.store, commitment, tx, data))
    case TransferCall(_, nullifiers, inputCount, outputs, outputCount, tx, _) =>
      p.(leafCount := p.leafCount + NonZeroCount(Commitments(outputs)[..outputCount]),
         accounts := p.accounts + NonZero(nullifiers[..inputCount]),
         store := Mirrored(p.store.(nullifiers := p.store.nullifiers + Elements(nullifiers[..inputCount])),
                           outputs[..outputCount], tx))
    case UnshieldCall(_, nullifier, _) =>
      p.(accounts := p.accounts + {nullifier}, store := p.store.(nullifiers := p.store.nullifiers + {nullifier}))
  }

  /** A transfer keeps the pair in step exactly when every enabled output is non-zero. */
  lemma {:induction false} TransferLeavesStep(p: Pair, call: LocalCall)
    requires call.TransferCall?
    ensures Taken(p, call) && p.InStep() ==>
      (Performed(p, call).InStep() <==>
       forall j :: 0 <= j < call.outputCount && j < MAX_OUTPUTS ==> call.outputs[j].commitment != ZERO)
  {
    hide FreshDistinct, Mirrored, NonZeroCount, NonZero, Elements, Window, Node;
    if Taken(p, call) {
      AllRealCount(call.outputs, call.outputCount);
      var marked := p.store.(nullifiers := p.store.nullifiers + Elements(call.nullifiers[..call.inputCount]));
      MirroredCount(marked, call.outputs[..call.outputCount], call.tx);
    }
  }

  /** Program, mirror, then root push for calls that create notes; a refused call changes nothing. */
  function Operated(p: Pair, payer: nat, call: LocalCall): Pair {
    if !Taken(p, call) then p
    else if call.UnshieldCall? then Performed(p, call)
    else Pushed(Performed(p, call), payer)
  }

  /** A backend operation from the start: contact first. */
  function LocalStep(p: Pair, payer: nat, call: LocalCall): Pair { Operated(Connected(p, payer), payer, call) }

  function LocalRun(p: Pair, payer: nat, calls: seq<LocalCall>): Pair {
    if calls == [] then p
    else LocalStep(LocalRun(p, payer, calls[..|calls| - 1]), payer, calls[|calls| - 1])
  }
}
