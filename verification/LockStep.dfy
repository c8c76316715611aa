/**
 Lock step of program and mirror over whole runs of the backend: exactly when it lasts, the note that
 is lost when it ends, and what a reconnecting mirror has forgotten.
 */
module LockStep {
  import opened Words
  import opened Bytes
  import opened Field
  import opened MerkleTree
  import opened Traits
  import opened Store
  import opened TreeStates
  import opened Proofs
  import opened Value
  import opened Ledger
  import opened Safety
  import opened Wallet
  import opened LocalModel
  import opened Counterexamples
  import Composition
  import Answers

  // ---------------------------------------------------------------------------
  // Every run of one backend
  // ---------------------------------------------------------------------------

  /** A program that nobody has set up, and an empty mirror. */
  function Deployed(depth: nat): Pair { Pair(false, false, 0, 0, [ZERO], {}, false, EmptyStore(depth)) }

  /** Checked before the call: an accepted transfer enables no output without a commitment. */
  predicate Blankless(p: Pair, payer: nat, call: LocalCall) {
    call.TransferCall? && Taken(Connected(p, payer), call) ==>
      forall j :: 0 <= j < call.outputCount ==> call.outputs[j].commitment != ZERO
  }

  /** The mirror is never behind; in step, the roots agree as soon as there is a leaf. */
  predicate Paired(p: Pair, payer: nat) {
    && p.roots != [] && p.leafCount <= p.store.leafCount
    && (if p.initialized then p.created && p.authority == payer else !p.created && p.store.leafCount == 0)
    && (p.InStep() ==> p.RootsAgree() || (p.store.leafCount == 0 && p.roots == [ZERO]))
  }

  /** How far a call lets the mirror run ahead: by the enabled outputs without a commitment. */
  lemma {:induction false} PerformedGap(p: Pair, call: LocalCall)
    requires Taken(p, call)
    ensures var t := Performed(p, call);
            var blanks := if call.TransferCall?
                          then call.outputCount - NonZeroCount(Commitments(call.outputs)[..call.outputCount]) else 0;
      && blanks >= 0 && t.store.leafCount - t.leafCount == p.store.leafCount - p.leafCount + blanks
      && (blanks == 0 <==> call.TransferCall? ==>
            forall j :: 0 <= j < call.outputCount ==> call.outputs[j].commitment != ZERO)
      && t.roots == p.roots && t.created == p.created && t.authority == p.authority && t.initialized == p.initialized
  {
    hide FreshDistinct, Mirrored, NonZeroCount, NonZero, Elements, Window, Node, OutputInserted;
    match call
    case ShieldCall(commitment, data, tx, _) => InsertCounts(p.store, commitment, tx, data);
    case TransferCall(_, nullifiers, inputCount, outputs, outputCount, tx, _) =>
      AllRealCount(outputs, outputCount);
      MirroredCount(p.store.(nullifiers := p.store.nullifiers + Elements(nullifiers[..inputCount])),
                    outputs[..outputCount], tx);
    case UnshieldCall(_, _, _) =>
  }

  lemma {:induction false} StepKeepsPaired(p: Pair, payer: nat, call: LocalCall)
    requires Paired(p, payer)
    ensures Paired(LocalStep(p, payer, call), payer)
    ensures LocalStep(p, payer, call).InStep() <==> p.InStep() && Blankless(p, payer, call)
  {
    hide Performed, Taken, Node, Window;
    var q := Connected(p, payer);
    assert Paired(q, payer) && (q.InStep() <==> p.InStep());
    if Taken(q, call) {
      PerformedGap(q, call);
      if call.UnshieldCall? {
        UnshieldKeepsRoot(q, call);
      }
    }
  }

  lemma {:induction false} UnshieldKeepsRoot(p: Pair, call: LocalCall)
    requires call.UnshieldCall? && Taken(p, call)
    ensures Performed(p, call).store.Root() == p.store.Root()
    ensures Performed(p, call).store.leafCount == p.store.leafCount
  {
  }

  /** Every call of the run is blankless in the pair it meets. */
  predicate AllBlankless(p: Pair, payer: nat, calls: seq<LocalCall>) {
    forall k :: 0 <= k < |calls| ==> Blankless(LocalRun(p, payer, calls[..k]), payer, calls[k])
  }

  lemma {:induction false} AllBlanklessSnoc(p: Pair, payer: nat, calls: seq<LocalCall>)
    requires calls != []
    ensures var before := calls[..|calls| - 1];
            AllBlankless(p, payer, calls) <==>
            AllBlankless(p, payer, before) && Blankless(LocalRun(p, payer, before), payer, calls[|calls| - 1])
  {
    hide LocalRun, Blankless;
    var before := calls[..|calls| - 1];
    assert forall k :: 0 <= k < |before| ==> before[..k] == calls[..k] && before[k] == calls[k];
  }

  /**
   Over every run of a backend from deployment on, program and mirror are in step if and only if no
   accepted transfer enabled a blank output; and then the mirror's root is current and accepted.
   */
  lemma {:induction false} LockStepIff(depth: nat, payer: nat, calls: seq<LocalCall>)
    ensures var p := LocalRun(Deployed(depth), payer, calls);
      && (p.InStep() <==> AllBlankless(Deployed(depth), payer, calls))
      && (p.InStep() && p.store.leafCount > 0 ==> p.RootsAgree() && p.Accepts(p.store.Root()))
      && Paired(p, payer)
  {
    hide LocalStep, Blankless, Node, Window, Paired, AllBlankless, Deployed;
    var start := Deployed(depth);
    if calls == [] {
      DeployedIsPaired(depth, payer);
      assert AllBlankless(start, payer, calls) by { NothingBlank(start, payer); }
    } else {
      var last := |calls| - 1;
      LockStepIff(depth, payer, calls[..last]);
      StepKeepsPaired(LocalRun(start, payer, calls[..last]), payer, calls[last]);
      AllBlanklessSnoc(start, payer, calls);
    }
    PairedRootAccepted(LocalRun(start, payer, calls), payer);
  }

  lemma {:induction false} NothingBlank(p: Pair, payer: nat)
    ensures AllBlankless(p, payer, [])
  {
  }

  lemma {:induction false} DeployedIsPaired(depth: nat, payer: nat)
    ensures Paired(Deployed(depth), payer) && Deployed(depth).InStep()
  {
  }

  lemma {:induction false} PairedRootAccepted(p: Pair, payer: nat)
    requires Paired(p, payer)
    ensures p.InStep() && p.store.leafCount > 0 ==> p.RootsAgree() && p.Accepts(p.store.Root())
  {
    hide Node, Window;
    NewestInWindow(ZERO, p.roots);
  }

  /** Once out of step, whatever is called later leaves it so. */
  lemma {:induction false} NeverBackInStep(p: Pair, payer: nat, calls: seq<LocalCall>)
    requires Paired(p, payer) && !p.InStep()
    ensures Paired(LocalRun(p, payer, calls), payer) && !LocalRun(p, payer, calls).InStep()
  {
    hide LocalStep, Blankless, Paired;
    if calls != [] {
      var last := |calls| - 1;
      NeverBackInStep(p, payer, calls[..last]);
      StepKeepsPaired(LocalRun(p, payer, calls[..last]), payer, calls[last]);
    }
  }

  // ---------------------------------------------------------------------------
  // Verified transfers: what packing of the outputs is for
  // ---------------------------------------------------------------------------

  /** Enabled output slots come first: no commitment sits beyond the walked prefix. */
  predicate OutputsPacked(req: TransferRequest) {
    forall j :: req.outputCount <= j < MAX_OUTPUTS ==> req.outputs[j].commitment == ZERO
  }

  function CallOf(req: TransferRequest, tx: TxSig): LocalCall {
    TransferCall(req.anchor, req.nullifiers, req.inputCount, req.outputs, req.outputCount, tx, true)
  }

  lemma {:induction false} RealWhereEnabled(outputs: TransferOutputs3, slots: Outputs3)
    requires OutputsCarry(outputs, slots) && Composition.SlotNoncesApart(slots)
    ensures NonZeroCount(Commitments(outputs)) == |CreatedNotes(slots)|
    ensures forall i, j :: 0 <= i < j < MAX_OUTPUTS && outputs[i].commitment != ZERO ==>
              outputs[i].commitment != outputs[j].commitment
  {
    hide NonZeroCount, CreatedNotes;
    NotesOfOutputs(slots);
    CountOfThree(Commitments(outputs));
    forall j | 0 <= j < MAX_OUTPUTS ensures outputs[j].commitment != ZERO <==> slots[j].enabled {
      CommitmentIsNotNode(slots[j].note.Commitment(), ZERO, ZERO);
    }
    forall i, j | 0 <= i < j < MAX_OUTPUTS && slots[i].enabled && slots[j].enabled
      ensures outputs[i].commitment != outputs[j].commitment
    {
      var a, b := slots[i].note, slots[j].note;
      if a.Commitment() == b.Commitment() {
        CommitmentInjective(a, b);
      }
    }
  }

  /** The circuit's count is the number of commitments, wherever they sit; and they are distinct. */
  lemma {:induction false} VerifiedCommitments(req: TransferRequest)
    requires Verifies(TransferPublic(TransferPublicOf(req)), req.spendProof)
    ensures NonZeroCount(Commitments(req.outputs)) == req.outputCount
    ensures forall i, j :: 0 <= i < j < MAX_OUTPUTS && req.outputs[i].commitment != ZERO ==>
              req.outputs[i].commitment != req.outputs[j].commitment
  {
    hide Verifies, InputsHold, Total, SingleAsset, TxBindingTransfer, NonZeroCount, CreatedNotes, SpentNotes,
         OutputHolds;
    Composition.VerifiedOutputs(req);
    AcceptedTransfer(TransferPublicOf(req), req.spendProof);
    RealWhereEnabled(req.outputs, req.spendProof.private.transfer.outputs);
  }

  lemma {:induction false} CountOfThree(cms: Fr3)
    ensures NonZeroCount(cms) == (if cms[0] != ZERO then 1 else 0) + (if cms[1] != ZERO then 1 else 0)
                               + (if cms[2] != ZERO then 1 else 0)
  {
    assert cms[..2][..1] == cms[..1] && cms[..1][..0] == [] && cms[..2][1] == cms[1] && cms[..1][0] == cms[0];
    assert NonZeroCount(cms[..1]) == if cms[0] != ZERO then 1 else 0;
    assert NonZeroCount(cms[..2]) == NonZeroCount(cms[..1]) + if cms[1] != ZERO then 1 else 0;
  }

  /**
   What a verified transfer does once the program takes it: every note it creates is counted, every
   note is inserted, and a pair in step stays in step, each exactly when its outputs are packed.
   */
  lemma {:induction false} OutputsInsertedIffPacked(p: Pair, req: TransferRequest, tx: TxSig)
    requires Verifies(TransferPublic(TransferPublicOf(req)), req.spendProof)
    requires Taken(p, CallOf(req, tx))
    ensures var t, walked := Performed(p, CallOf(req, tx)), Commitments(req.outputs)[..req.outputCount];
      && (t.leafCount == p.leafCount + req.outputCount <==> OutputsPacked(req))
      && ((forall cm :: cm in Commitments(req.outputs) && cm != ZERO ==> cm in walked) <==> OutputsPacked(req))
      && (p.InStep() ==> (t.InStep() <==> OutputsPacked(req)))
  {
    hide Verifies, Mirrored, FreshDistinct, Window, Node, NonZeroCount, NonZero, Elements;
    var cms, n := Commitments(req.outputs), req.outputCount;
    VerifiedCommitments(req);
    CountOfThree(cms);
    AllRealCount(req.outputs, n);
    TransferLeavesStep(p, CallOf(req, tx));
    PackedIffPrefixReal(cms, n);
    if !OutputsPacked(req) {
      var j :| n <= j < MAX_OUTPUTS && req.outputs[j].commitment != ZERO;
      assert cms[j] in cms && cms[j] !in cms[..n];
    } else {
      forall cm | cm in cms && cm != ZERO ensures cm in cms[..n] {
        var j :| 0 <= j < MAX_OUTPUTS && cms[j] == cm;
        assert j < n && cms[..n][j] == cm;
      }
    }
  }

  /** The mirror takes in the enabled outputs as they are: next leaves, indexer and transaction log. */
  lemma {:induction false} MirrorPutsOnChain(s: StoreState, outputs: seq<TransferOutput>, tx: TxSig)
    ensures Answers.PutOnChain(s, Mirrored(s, outputs, tx), outputs, tx)
  {
    hide Answers.PutOnChain, OutputInserted, AttachedCiphertext;
    if outputs == [] {
      Answers.NothingPutOnChain(s, tx);
    } else {
      var front, o := outputs[..|outputs| - 1], outputs[|outputs| - 1];
      MirrorPutsOnChain(s, front, tx);
      Answers.OneOutputOnChain(Mirrored(s, front, tx), o, tx);
      Answers.PutOnChainTwice(s, Mirrored(s, front, tx), Mirrored(s, outputs, tx), front, [o], tx);
      assert outputs == front + [o];
    }
  }

  lemma {:induction false} PackedIffPrefixReal(cms: Fr3, n: nat)
    requires n <= MAX_OUTPUTS && NonZeroCount(cms) == n
    ensures (forall j :: n <= j < MAX_OUTPUTS ==> cms[j] == ZERO) <==> (forall j :: 0 <= j < n ==> cms[j] != ZERO)
  {
    hide NonZeroCount;
    CountOfThree(cms);
  }

  /** The wallet puts the payment first and the change second: its outputs are packed. */
  lemma {:induction false} HonestOutputsPacked(e: Encryption, sk: Fr, data: TransferData, to: Address,
          coins: TransferCoins)
    ensures OutputsPacked(HonestTransfer(e, sk, data, to, coins))
  {
    hide CtHash, SpendPublic, SpendPrivate;
    CommitmentIsNotNode(data.output.Commitment(), ZERO, ZERO);
    if data.change.Some? {
      CommitmentIsNotNode(data.change.value.Commitment(), ZERO, ZERO);
    }
  }

  // ---------------------------------------------------------------------------
  // A note that is never inserted
  // ---------------------------------------------------------------------------

  function SkippedBinding(depth: nat): Fr { TxBindingTransfer(SoleAnchor(depth), FirstRevealed(), 1, 1) }

  function SkippedNote(depth: nat): Note { Back(5, SkippedBinding(depth), 1) }

  function SkippedPrivate(depth: nat): TransferPrivateInputs {
    TransferPrivateInputs([SpendSlot(FirstNote(), SoleLeaf(), 0, depth), DEFAULT_INPUT, DEFAULT_INPUT],
                          [DEFAULT_OUTPUT, OutputSlot(true, SkippedNote(depth)), DEFAULT_OUTPUT])
  }

  /** Packed inputs, and one output in the second slot. */
  function SkippedSpend(depth: nat): TransferRequest {
    Crafted(SoleAnchor(depth), FirstRevealed(), 1, 1, SkippedPrivate(depth), None)
  }

  lemma {:induction false} SkippedSpendVerifies(depth: nat)
    ensures Verifies(TransferPublic(TransferPublicOf(SkippedSpend(depth))), SkippedSpend(depth).spendProof)
  {
    hide SpentNotes, CreatedNotes, WitnessOf, TxBindingTransfer, NullifierOf, AddressField, ComputeAssetId, Total,
         InputHolds, Verifies, Node;
    var priv, note := SkippedPrivate(depth), SkippedNote(depth);
    var pub := CraftedPublic(SoleAnchor(depth), FirstRevealed(), 1, 1, priv.outputs);
    NotesOfInputs(priv.inputs);
    NotesOfOutputs(priv.outputs);
    assert SpentNotes(priv.inputs) == [] + [FirstNote()] && CreatedNotes(priv.outputs) == [] + [note];
    TotalStep([], FirstNote());
    TotalStep([], note);
    AncestorAtTop(0, depth);
    SpendSlotHolds(Num(7), SoleLeaf(), 0, depth, pub, 0);
    DisabledInput(pub, 1);
    DisabledInput(pub, 2);
    CraftedVerifies(SoleAnchor(depth), FirstRevealed(), 1, 1, priv, None, ComputeAssetId(ZERO_32));
  }

  function SkippingCalls(depth: nat): seq<LocalCall> {
    [ShieldCall(FirstNote().Commitment(), None, MockTx(1), true), CallOf(SkippedSpend(depth), MockTx(2))]
  }

  lemma {:induction false} RunOfTwo(p: Pair, payer: nat, a: LocalCall, b: LocalCall)
    ensures LocalRun(p, payer, [a]) == LocalStep(p, payer, a)
    ensures LocalRun(p, payer, [a, b]) == LocalStep(LocalStep(p, payer, a), payer, b)
  {
    hide LocalStep;
    assert [a][..0] == [] && [a, b][..1] == [a];
    assert LocalRun(p, payer, []) == p;
    assert LocalRun(p, payer, [a]) == LocalStep(p, payer, a);
  }

  /** The pair after the deposit. */
  lemma {:induction false} FirstLocalDeposit(depth: nat, payer: nat)
    ensures var p := LocalStep(Deployed(depth), payer, SkippingCalls(depth)[0]);
      && p.created && !p.paused && p.initialized && p.authority == payer && p.leafCount == 1 == p.store.leafCount
      && p.roots == [ZERO, SoleAnchor(depth)] && p.accounts == {} && p.store.leaves == SoleLeaf()
      && p.store.depth == depth
  {
    hide Node, Window, NoteWith;
  }

  /**
   The transfer is verified, its input slots are packed, and the program takes it: the deposited note
   is spent, the created one is in no leaf, and program and mirror are out of step.
   */
  lemma {:induction false} SkippedOutputIsLost(depth: nat, payer: nat)
    ensures var req, calls := SkippedSpend(depth), SkippingCalls(depth);
            var p, q := LocalRun(Deployed(depth), payer, calls[..1]), LocalRun(Deployed(depth), payer, calls);
      && Verifies(TransferPublic(TransferPublicOf(req)), req.spendProof)
      && Packed(TransferOp(req)) && !OutputsPacked(req)
      && p.InStep() && Taken(p, calls[1])
      && NullifierOf(FirstNote(), KEY) in q.accounts
      && SkippedNote(depth) in CreatedNotes(req.spendProof.private.transfer.outputs)
      && (forall i :: i in q.store.leaves ==> q.store.leaves[i] != SkippedNote(depth).Commitment())
      && !q.InStep()
  {
    hide Verifies, Node, Window, NullifierOf, NoteWith, Back, LocalRun, LocalStep, Taken, CraftedPublic;
    var req, calls := SkippedSpend(depth), SkippingCalls(depth);
    var p := LocalStep(Deployed(depth), payer, calls[0]);
    assert calls[..1] == [calls[0]] && calls == [calls[0], calls[1]];
    RunOfTwo(Deployed(depth), payer, calls[0], calls[1]);
    SkippedSpendVerifies(depth);
    SkippedNotes(depth);
    FirstLocalDeposit(depth, payer);
    SkippedStep(p, payer, depth);
    LeavesAreOld(depth);
  }

  lemma {:induction false} SkippedNotes(depth: nat)
    ensures CreatedNotes(SkippedPrivate(depth).outputs) == [SkippedNote(depth)]
  {
    hide SkippedNote;
    NotesOfOutputs(SkippedPrivate(depth).outputs);
  }

  /** The transfer on the pair after the deposit. */
  lemma {:induction false} SkippedStep(p: Pair, payer: nat, depth: nat)
    requires p.created && !p.paused && p.initialized && p.authority == payer && p.leafCount == 1 == p.store.leafCount
    requires p.roots == [ZERO, SoleAnchor(depth)] && p.accounts == {} && p.store.leaves == SoleLeaf()
    ensures var call := CallOf(SkippedSpend(depth), MockTx(2));
            var q := LocalStep(p, payer, call);
      && Taken(p, call) && q.accounts == {NullifierOf(FirstNote(), KEY)}
      && q.leafCount == 1 && q.store.leafCount == 2 && q.store.leaves == SoleLeaf()[1 := ZERO]
  {
    hide Node, Window, NullifierOf, NoteWith, CraftedPublic, Taken, SoleLeaf;
    var call := CallOf(SkippedSpend(depth), MockTx(2));
    SkippedTaken(p, depth);
    var marked := p.store.(nullifiers := p.store.nullifiers + Elements(call.nullifiers[..1]));
    var outs := call.outputs[..1];
    assert outs == [NO_OUTPUT] && outs[..0] == [];
    assert Mirrored(marked, outs, call.tx) == OutputInserted(marked, ZERO, call.tx, None);
    var t := Performed(p, call);
    assert !t.InStep() && Pushed(t, payer) == t;
  }

  lemma {:induction false} SkippedTaken(p: Pair, depth: nat)
    requires p.created && !p.paused && p.leafCount == 1 && p.accounts == {}
    requires p.roots == [ZERO, SoleAnchor(depth)]
    ensures var call := CallOf(SkippedSpend(depth), MockTx(2));
      && Taken(p, call) && NonZeroCount(Commitments(call.outputs)[..call.outputCount]) == 0
      && NonZero(call.nullifiers[..call.inputCount]) == {NullifierOf(FirstNote(), KEY)}
  {
    hide Node, Window, NullifierOf, NoteWith, CraftedPublic;
    var req := SkippedSpend(depth);
    var nfs, cms := req.nullifiers[..1], Commitments(req.outputs)[..1];
    NewestInWindow(ZERO, p.roots);
    NullifiersDiffer();
    assert nfs == [FirstNullifier()] && NonZero(nfs) == {FirstNullifier()};
    assert cms == [ZERO] && cms[..0] == [];
    assert NonZeroCount(cms) == 0;
    assert p.Accepts(req.anchor);
    assert FreshDistinct(nfs, {});
  }

  lemma {:induction false} LeavesAreOld(depth: nat)
    ensures var leaves := SoleLeaf()[1 := ZERO];
            forall i :: i in leaves ==> leaves[i] != SkippedNote(depth).Commitment()
  {
    assert FirstNote().nullifierNonce != SkippedNote(depth).nullifierNonce;
    if FirstNote().Commitment() == SkippedNote(depth).Commitment() {
      CommitmentInjective(FirstNote(), SkippedNote(depth));
    }
  }

  // ---------------------------------------------------------------------------
  // Reconnecting with an empty mirror
  // ---------------------------------------------------------------------------

  /** A new backend on a chain that has leaves: in step at once, and without a single one of them. */
  lemma {:induction false} ReconnectForgets(p: Pair, payer: nat)
    requires p.created && !p.initialized && p.store == EmptyStore(p.store.depth)
    ensures var q := Connected(p, payer);
      && q.InStep() && q.leafCount == p.leafCount && q.roots == p.roots
      && (forall i :: Leaf(q.store.leaves, i) == ZERO)
      && (forall cm :: cm !in q.store.index)
  {
  }

  /**
   Its first deposit puts a root on chain that knows the deposited note only, and starts the clock
   for the root before it: sixteen more updates, and notes of earlier leaves have no accepted anchor.
   */
  lemma {:induction false} ReconnectReplacesRoot(p: Pair, payer: nat, note: Note, data: Option<OutputCiphertextData>,
          tx: TxSig)
    requires p.created && !p.initialized && p.store == EmptyStore(p.store.depth) && p.roots != []
    requires payer == p.authority
    requires Taken(Connected(p, payer), ShieldCall(note.Commitment(), data, tx, true))
    ensures var q := LocalStep(p, payer, ShieldCall(note.Commitment(), data, tx, true));
            var root := Node(map[p.leafCount := note.Commitment()], p.store.depth, 0);
      && q.InStep() && q.RootsAgree() && q.roots == p.roots + [root]
      && (forall w: MembershipWitness, n: Note :: w.root == root && Accepted(w, n.Commitment()) ==> n == note)
      && (forall later: seq<Fr> :: |later| >= ANCHOR_UPDATES && p.roots[|p.roots| - 1] !in [root] + later ==>
            p.roots[|p.roots| - 1] !in Window(ZERO, q.roots + later))
  {
    hide Node, Window, Accepted;
    var call := ShieldCall(note.Commitment(), data, tx, true);
    var leaves := map[p.leafCount := note.Commitment()];
    var root := Node(leaves, p.store.depth, 0);
    var c := Connected(p, payer);
    InsertCounts(c.store, note.Commitment(), tx, data);
    assert OutputInserted(c.store, note.Commitment(), tx, data).leaves == leaves;
    forall w: MembershipWitness, n: Note | w.root == root && Accepted(w, n.Commitment()) ensures n == note {
      CommitmentBinding(note);
      AcceptedMeansLeaf(leaves, leaves, p.store.depth, w, n);
      CommitmentInjective(n, note);
    }
    var q := LocalStep(p, payer, call);
    forall later: seq<Fr> | |later| >= ANCHOR_UPDATES && p.roots[|p.roots| - 1] !in [root] + later
      ensures p.roots[|p.roots| - 1] !in Window(ZERO, q.roots + later)
    {
      CurrentRootSurvives(ZERO, p.roots, [root] + later);
      assert p.roots + ([root] + later) == q.roots + later;
    }
  }

  const ANCHOR_UPDATES: nat := TreeStates.ANCHOR_HISTORY_SIZE
}
