/**
 Runs from genesis that show where the safety theorems need their conditions: spends through an
 unpacked slot, value lost in a transfer that is refused halfway or in a note deposited twice, and a
 scan that stands still.
 */
module Counterexamples {
  import opened Words
  import opened Bytes
  import opened Field
  import opened MerkleTree
  import opened Traits
  import opened Store
  import opened Proofs
  import opened Value
  import opened Ledger
  import opened Safety
  import opened Exactness
  import opened Paging
  import Recovery

  const KEY: Fr := Num(42)

  /** Five units for KEY, told apart by their nonces. */
  function NoteWith(nonce: Fr): Note {
    Note(ComputeAssetId(ZERO_32), 5, AddressField(KEY, 0), 0, nonce, Num(8))
  }

  function FirstNote(): Note { NoteWith(Num(7)) }

  function SecondNote(): Note { NoteWith(Num(9)) }

  // ---------------------------------------------------------------------------
  // Deposits
  // ---------------------------------------------------------------------------

  function Deposit(note: Note): ShieldRequest {
    var public := ShieldPublicInputs(note.Commitment(), note.assetId, note.amount, Num(1));
    ShieldRequest(ZERO_32, note.amount, note.Commitment(), ProverRun(ShieldPublic(public), ShieldPrivate(note)),
                  None, None, Num(1))
  }

  lemma {:induction false} DepositRuns(w: World, nonce: Fr)
    ensures var note := NoteWith(nonce);
            var t := Step(w, ShieldOp(Deposit(note)));
      && t.log == w.log + [Shielded(note, note.assetId, 5)]
      && t.ledger.store.leaves == w.ledger.store.leaves[w.ledger.store.leafCount := note.Commitment()]
      && t.ledger.store.leafCount == w.ledger.store.leafCount + 1
      && t.ledger.store.depth == w.ledger.store.depth
      && t.ledger.nullifiers == w.ledger.nullifiers && t.ledger.maxAnchors == w.ledger.maxAnchors
  {
    hide ComputeAssetId, AddressField;
    var note := NoteWith(nonce);
    assert Deposit(note).shieldProof.public == ShieldPublic(ShieldPublicOf(Deposit(note))) by {
      assert ShieldPublicOf(Deposit(note)).publicAssetId == note.assetId;
    }
  }

  // ---------------------------------------------------------------------------
  // Crafted transfers
  // ---------------------------------------------------------------------------

  function SlotCommitment(slot: OutputSlot): Fr {
    if slot.enabled then slot.note.Commitment() else ZERO
  }

  function SlotMark(slot: OutputSlot): Fr {
    if slot.enabled then Num(1) else ZERO
  }

  function SlotOutput(slot: OutputSlot, ciphertext: Option<seq<byte>>): TransferOutput {
    if slot.enabled then TransferOutput(slot.note.Commitment(), ciphertext, ciphertext) else NO_OUTPUT
  }

  function CraftedPublic(anchor: Fr, nfs: Fr3, inputCount: u32, outputCount: u32,
          outs: Outputs3): TransferPublicInputs {
    TransferPublicInputs(anchor, nfs, [SlotCommitment(outs[0]), SlotCommitment(outs[1]), SlotCommitment(outs[2])],
                         inputCount, outputCount, [SlotMark(outs[0]), SlotMark(outs[1]), SlotMark(outs[2])],
                         TxBindingTransfer(anchor, nfs, inputCount, outputCount))
  }

  function Crafted(anchor: Fr, nfs: Fr3, inputCount: u32, outputCount: u32, priv: TransferPrivateInputs,
        ciphertext: Option<seq<byte>>): TransferRequest {
    var pub := CraftedPublic(anchor, nfs, inputCount, outputCount, priv.outputs);
    TransferRequest(anchor, nfs, inputCount, outputCount, pub.ctHashes, pub.txBinding,
                    ProverRun(TransferPublic(pub), TransferPrivate(priv)),
                    [SlotOutput(priv.outputs[0], ciphertext), SlotOutput(priv.outputs[1], ciphertext),
                     SlotOutput(priv.outputs[2], ciphertext)])
  }

  function OneIn(slot: InputSlot): seq<Note> { if slot.enabled then [slot.note] else [] }

  function OneOut(slot: OutputSlot): seq<Note> { if slot.enabled then [slot.note] else [] }

  lemma {:induction false} NotesOfInputs(slots: Inputs3)
    ensures SpentNotes(slots) == OneIn(slots[0]) + OneIn(slots[1]) + OneIn(slots[2])
  {
    assert slots[..3] == slots && slots[..0] == [];
    SpentNotesStep(slots, 0);
    SpentNotesStep(slots, 1);
    SpentNotesStep(slots, 2);
  }

  lemma {:induction false} NotesOfOutputs(slots: Outputs3)
    ensures CreatedNotes(slots) == OneOut(slots[0]) + OneOut(slots[1]) + OneOut(slots[2])
  {
    assert slots[..3] == slots && slots[..0] == [];
    CreatedNotesStep(slots, 0);
    CreatedNotesStep(slots, 1);
    CreatedNotesStep(slots, 2);
  }

  /** A crafted transfer verifies as soon as its slots, counts, nonces and sums are right. */
  lemma {:induction false} CraftedVerifies(anchor: Fr, nfs: Fr3, inputCount: u32, outputCount: u32,
          priv: TransferPrivateInputs, ciphertext: Option<seq<byte>>, asset: Fr)
    requires var pub := CraftedPublic(anchor, nfs, inputCount, outputCount, priv.outputs);
      && InputsHold(pub, priv) && CountsHold(pub, priv) && inputCount > 0
      && NoncesDerived(pub.txBinding, priv.outputs)
    requires forall i :: 0 <= i < MAX_INPUTS && priv.inputs[i].enabled ==> priv.inputs[i].note.assetId == asset
    requires forall j :: 0 <= j < MAX_OUTPUTS && priv.outputs[j].enabled ==> priv.outputs[j].note.assetId == asset
    requires Total(SpentNotes(priv.inputs)) == Total(CreatedNotes(priv.outputs))
    ensures var req := Crafted(anchor, nfs, inputCount, outputCount, priv, ciphertext);
      && Verifies(TransferPublic(TransferPublicOf(req)), req.spendProof)
      && req.spendProof.public.transfer == TransferPublicOf(req)
  {
    hide InputHolds, SpentNotes, CreatedNotes, Total, TxBindingTransfer, DeriveOutputNonce;
    var req := Crafted(anchor, nfs, inputCount, outputCount, priv, ciphertext);
    var pub := CraftedPublic(anchor, nfs, inputCount, outputCount, priv.outputs);
    assert TransferPublicOf(req) == pub;
    forall j | 0 <= j < MAX_OUTPUTS
      ensures OutputHolds(pub, priv.outputs[j], j) && (priv.outputs[j].enabled <==> pub.ctHashes[j] != ZERO)
    {
    }
    assert TransferStatement(pub, priv);
  }

  /** The slot that spends the note at leaf i. */
  function SpendSlot(note: Note, leaves: map<nat, Fr>, i: nat, depth: nat): InputSlot {
    InputSlot(true, note, KEY, WitnessOf(leaves, i, depth))
  }

  lemma {:induction false} SpendSlotHolds(nonce: Fr, leaves: map<nat, Fr>, i: nat, depth: nat,
          pub: TransferPublicInputs, k: nat)
    requires i < Pow2(depth) && Leaf(leaves, i) == NoteWith(nonce).Commitment() && k < MAX_INPUTS
    requires pub.anchor == Node(leaves, depth, 0) && pub.nullifiers[k] == NullifierOf(NoteWith(nonce), KEY)
    ensures InputHolds(pub, SpendSlot(NoteWith(nonce), leaves, i, depth), k)
  {
    hide PathSiblings, PathBits, Climb, NullifierOf;
    WitnessAcceptedWithinCapacity(leaves, i, depth);
  }

  lemma {:induction false} DisabledInput(pub: TransferPublicInputs, i: nat)
    requires i < MAX_INPUTS && pub.nullifiers[i] == ZERO
    ensures InputHolds(pub, DEFAULT_INPUT, i)
  {
  }

  /** Output j of a transfer with this binding, back to KEY. */
  function Back(amount: u64, binding: Fr, j: u64): Note {
    Note(ComputeAssetId(ZERO_32), amount, AddressField(KEY, 0), 0, DeriveOutputNonce(binding, j), Num(8))
  }

  // ---------------------------------------------------------------------------
  // Spending through an unpacked slot
  // ---------------------------------------------------------------------------

  function SoleLeaf(): map<nat, Fr> { map[0 := FirstNote().Commitment()] }

  function SoleAnchor(depth: nat): Fr { Node(SoleLeaf(), depth, 0) }

  /** The nullifier sits in slot 1, beyond the one slot the chain walks. */
  function HiddenNullifier(): Fr3 { [ZERO, NullifierOf(FirstNote(), KEY), ZERO] }

  function HiddenBinding(depth: nat): Fr { TxBindingTransfer(SoleAnchor(depth), HiddenNullifier(), 1, 1) }

  function Copy(depth: nat): Note { Back(5, HiddenBinding(depth), 0) }

  function HiddenPrivate(depth: nat): TransferPrivateInputs {
    TransferPrivateInputs([DEFAULT_INPUT, SpendSlot(FirstNote(), SoleLeaf(), 0, depth), DEFAULT_INPUT],
                          [OutputSlot(true, Copy(depth)), DEFAULT_OUTPUT, DEFAULT_OUTPUT])
  }

  function HiddenSpend(depth: nat): TransferRequest {
    Crafted(SoleAnchor(depth), HiddenNullifier(), 1, 1, HiddenPrivate(depth), None)
  }

  lemma {:induction false} HiddenSpendNotes(depth: nat)
    ensures SpentNotes(HiddenPrivate(depth).inputs) == [FirstNote()]
    ensures CreatedNotes(HiddenPrivate(depth).outputs) == [Copy(depth)]
    ensures Total([FirstNote()]) == 5 == Total([Copy(depth)])
  {
    hide SpentNotes, CreatedNotes, WitnessOf, HiddenBinding, NullifierOf, AddressField, ComputeAssetId;
    NotesOfInputs(HiddenPrivate(depth).inputs);
    NotesOfOutputs(HiddenPrivate(depth).outputs);
    TotalStep([], FirstNote());
    TotalStep([], Copy(depth));
    assert [] + [FirstNote()] == [FirstNote()] && [] + [Copy(depth)] == [Copy(depth)];
  }

  lemma {:induction false} HiddenSpendVerifies(depth: nat)
    ensures Verifies(TransferPublic(TransferPublicOf(HiddenSpend(depth))), HiddenSpend(depth).spendProof)
    ensures TransferPublicOf(HiddenSpend(depth)).txBinding == HiddenBinding(depth)
  {
    hide SpentNotes, CreatedNotes, WitnessOf, TxBindingTransfer, NullifierOf, AddressField, ComputeAssetId, Total,
         InputHolds, Verifies, Node;
    var priv := HiddenPrivate(depth);
    var pub := CraftedPublic(SoleAnchor(depth), HiddenNullifier(), 1, 1, priv.outputs);
    HiddenSpendNotes(depth);
    AncestorAtTop(0, depth);
    SpendSlotHolds(Num(7), SoleLeaf(), 0, depth, pub, 1);
    DisabledInput(pub, 0);
    DisabledInput(pub, 2);
    CraftedVerifies(SoleAnchor(depth), HiddenNullifier(), 1, 1, priv, None, ComputeAssetId(ZERO_32));
  }

  /** The chain accepts the transfer again and again: no nullifier is ever recorded. */
  lemma {:induction false} HiddenSpendRuns(w: World, depth: nat)
    requires ValidAnchor(w.ledger, SoleAnchor(depth))
    ensures var t := Step(w, TransferOp(HiddenSpend(depth)));
      && Exec(w.ledger, TransferOp(HiddenSpend(depth))).1.Ok?
      && t.log == w.log + [Transferred(TransferPublicOf(HiddenSpend(depth)), [FirstNote()], [Copy(depth)])]
      && t.ledger.nullifiers == w.ledger.nullifiers && t.ledger.maxAnchors == w.ledger.maxAnchors
  {
    hide Verifies, SpentNotes, CreatedNotes, InsertOutputs;
    var req := HiddenSpend(depth);
    HiddenSpendVerifies(depth);
    HiddenSpendNotes(depth);
    var nfs := WalkedNullifiers(req);
    assert nfs == [ZERO] && nfs[1..] == [];
    assert InsertNullifiers(w.ledger, nfs) == InsertNullifiers(w.ledger, []);
  }

  lemma {:induction false} HiddenSpendGrows(w: World, depth: nat)
    requires StateSound(w.ledger) && ValidAnchor(w.ledger, SoleAnchor(depth))
    ensures var t := Step(w, TransferOp(HiddenSpend(depth)));
            TreeNotes(t.ledger.store.leaves) == TreeNotes(w.ledger.store.leaves) + {Copy(depth)}
  {
    hide Verifies, StateSound, TreeNotes, InsertNullifiers, HiddenBinding;
    var s, req, priv := w.ledger, HiddenSpend(depth), HiddenPrivate(depth);
    HiddenSpendRuns(w, depth);
    HiddenSpendNotes(depth);
    InsertNullifiersEffect(s, WalkedNullifiers(req));
    var u := InsertNullifiers(s, WalkedNullifiers(req)).0;
    TransferGrows(s, NextTx(u), req, priv, ExecTransfer(s, req).1.value);
    assert Elements([Copy(depth)]) == {Copy(depth)};
  }

  lemma {:induction false} RunSnoc(depth: nat, maxAnchors: nat, ops: seq<Op>, op: Op)
    ensures Run(depth, maxAnchors, ops + [op]) == Step(Run(depth, maxAnchors, ops), op)
  {
    assert (ops + [op])[..|ops|] == ops;
  }

  /** Genesis and the deposit of the first note. */
  lemma {:induction false} FirstDeposit(depth: nat, maxAnchors: nat)
    ensures var w := Run(depth, maxAnchors, [ShieldOp(Deposit(FirstNote()))]);
      && Inv(w) && w.log == [Shielded(FirstNote(), FirstNote().assetId, 5)]
      && w.ledger.store.leaves == SoleLeaf() && w.ledger.store.leafCount == 1 && w.ledger.store.depth == depth
      && w.ledger.nullifiers == {} && w.ledger.maxAnchors == maxAnchors
      && ValidAnchor(w.ledger, SoleAnchor(depth)) && TreeNotes(w.ledger.store.leaves) == {FirstNote()}
  {
    hide Step, Inv, NoteWith, Deposit, TreeNotes;
    var w := World(Genesis(depth, maxAnchors), []);
    GenesisInv(depth, maxAnchors);
    DepositRuns(w, Num(7));
    ShieldKeepsInv(w, Deposit(FirstNote()));
    RunSnoc(depth, maxAnchors, [], ShieldOp(Deposit(FirstNote())));
    assert [] + [ShieldOp(Deposit(FirstNote()))] == [ShieldOp(Deposit(FirstNote()))];
    OneLeafNotes(FirstNote());
  }

  lemma {:induction false} OneLeafNotes(note: Note)
    ensures TreeNotes(map[0 := note.Commitment()]) == {note}
  {
    var leaves := map[0 := note.Commitment()];
    forall n ensures n in TreeNotes(leaves) <==> n == note {
      TreeNotesMember(leaves, n);
      if n in TreeNotes(leaves) {
        CommitmentInjective(n, note);
      } else {
        assert leaves[0] == note.Commitment();
      }
    }
  }

  lemma {:induction false} CopyIsNew(depth: nat)
    ensures FirstNote() != Copy(depth) && Copy(depth).assetId == FirstNote().assetId
  {
    assert FirstNote().nullifierNonce != Copy(depth).nullifierNonce;
  }

  lemma {:induction false} TwoUnspentNotes(t: LedgerState, a: Note, b: Note, asset: Fr)
    requires t.nullifiers == {} && a in TreeNotes(t.store.leaves) && b in TreeNotes(t.store.leaves) && a != b
    ensures UnspentValue(t, asset) >= AmountIn(a, asset) + AmountIn(b, asset)
  {
    hide TreeNotes;
    assert {a, b} <= UnspentNotes(t);
    SetValueMonotone({a, b}, UnspentNotes(t), asset);
    SetValueAdd({a}, b, asset);
    SetValueAdd({}, a, asset);
    assert {} + {a} == {a} && {a} + {b} == {a, b};
  }

  function HiddenOps(depth: nat): seq<Op> { [ShieldOp(Deposit(FirstNote())), TransferOp(HiddenSpend(depth))] }

  /** Without packed slots conservation fails: five units deposited, ten spendable afterwards. */
  lemma {:induction false} UnpackedSlotsInflate(depth: nat, maxAnchors: nat)
    ensures !Packed(HiddenOps(depth)[1])
    ensures var w := Run(depth, maxAnchors, HiddenOps(depth));
            var asset := FirstNote().assetId;
            Deposited(w.log, asset) == 5 && UnspentValue(w.ledger, asset) >= 10
  {
    hide Run, Step, Inv, StateSound, LogSound, TreeNotes, UnspentValue, Deposited;
    var op1, op2 := ShieldOp(Deposit(FirstNote())), TransferOp(HiddenSpend(depth));
    var asset := FirstNote().assetId;
    var w := Run(depth, maxAnchors, [op1]);
    FirstDeposit(depth, maxAnchors);
    InvIsSound(w);
    HiddenSpendRuns(w, depth);
    HiddenSpendGrows(w, depth);
    RunSnoc(depth, maxAnchors, [op1], op2);
    assert [op1] + [op2] == HiddenOps(depth);
    var t := Step(w, op2);
    CopyIsNew(depth);
    TwoUnspentNotes(t.ledger, FirstNote(), Copy(depth), asset);
    LogStep([], w.log[0], asset);
    LogStep(w.log, t.log[1], asset);
    assert [] + w.log == w.log && [w.log[0]] == w.log && Deposited([], asset) == 0 by { EmptyDeposits(asset); }
    assert HiddenSpend(depth).nullifiers[1] != ZERO;
  }

  lemma {:induction false} EmptyDeposits(asset: Fr)
    ensures Deposited([], asset) == 0 == Withdrawn([], asset)
  {
  }

  /** An anchor that is the current root stays valid through the next root change when two are kept. */
  lemma {:induction false} AnchorKept(w: World, req: TransferRequest, anchor: Fr)
    requires w.ledger.maxAnchors >= 2 && w.ledger.anchors != []
    requires w.ledger.anchors[|w.ledger.anchors| - 1] == anchor
    ensures ValidAnchor(Step(w, TransferOp(req)).ledger, anchor)
  {
    hide InsertOutputs, Verifies, Node;
    InsertNullifiersEffect(w.ledger, WalkedNullifiers(req));
    var before, after := w.ledger.anchors, Step(w, TransferOp(req)).ledger.anchors;
    if after != before {
      var root := after[|after| - 1];
      assert after == before + [root] || after == (before + [root])[1..];
      assert |after| >= 2 && after[|after| - 2] == anchor;
    } else {
      assert before[|before| - 1] in after;
    }
  }

  lemma {:induction false} FirstDepositAnchor(depth: nat, maxAnchors: nat)
    ensures var anchors := Run(depth, maxAnchors, [ShieldOp(Deposit(FirstNote()))]).ledger.anchors;
            anchors != [] && anchors[|anchors| - 1] == SoleAnchor(depth)
  {
    hide Run, NoteWith, Deposit, Verifies, Node;
    var w := World(Genesis(depth, maxAnchors), []);
    RunSnoc(depth, maxAnchors, [], ShieldOp(Deposit(FirstNote())));
    assert [] + [ShieldOp(Deposit(FirstNote()))] == [ShieldOp(Deposit(FirstNote()))];
    FirstDeposit(depth, maxAnchors);
    assert Run(depth, maxAnchors, []) == w by { EmptyRun(depth, maxAnchors); }
    DepositRuns(w, Num(7));
    DepositAnchors(w.ledger, Deposit(FirstNote()));
  }

  lemma {:induction false} EmptyRun(depth: nat, maxAnchors: nat)
    ensures Run(depth, maxAnchors, []) == World(Genesis(depth, maxAnchors), [])
  {
  }

  lemma {:induction false} DepositAnchors(s: LedgerState, req: ShieldRequest)
    requires s.anchors != [] && ExecShield(s, req).1.Ok?
    ensures var t := ExecShield(s, req).0;
            t.anchors != [] && t.anchors[|t.anchors| - 1] == t.store.Root()
  {
    hide Verifies, Node;
  }

  /**
   Without packed slots one note is spent by two accepted transfers, and their outputs share a
   nonce: every request of the run is accepted.
   */
  lemma {:induction false} UnpackedSlotsDoubleSpend(depth: nat, maxAnchors: nat)
    requires maxAnchors >= 2
    ensures var log := Run(depth, maxAnchors, HiddenOps(depth) + [TransferOp(HiddenSpend(depth))]).log;
      && |log| == 3 && AllSpent(log) == [FirstNote(), FirstNote()]
      && OutputNonces(log) == [Copy(depth).nullifierNonce, Copy(depth).nullifierNonce]
  {
    hide Run, Step, Inv, TreeNotes, HiddenSpend, NoteWith, Back, AllSpent, OutputNonces, Copy;
    var op1, op2 := ShieldOp(Deposit(FirstNote())), TransferOp(HiddenSpend(depth));
    var w := Run(depth, maxAnchors, [op1]);
    FirstDeposit(depth, maxAnchors);
    FirstDepositAnchor(depth, maxAnchors);
    RunSnoc(depth, maxAnchors, [op1], op2);
    RunSnoc(depth, maxAnchors, HiddenOps(depth), op2);
    assert [op1] + [op2] == HiddenOps(depth);
    HiddenSpendRuns(w, depth);
    AnchorKept(w, HiddenSpend(depth), SoleAnchor(depth));
    HiddenSpendRuns(Step(w, op2), depth);
    var e := Transferred(TransferPublicOf(HiddenSpend(depth)), [FirstNote()], [Copy(depth)]);
    LoggedTwice(w.log, e);
    OneDepositLog(w.log[0]);
    assert w.log == [w.log[0]];
    assert Nonces([Copy(depth)]) == [Copy(depth).nullifierNonce];
  }

  /** The same transfer logged twice. */
  lemma {:induction false} LoggedTwice(log: seq<Event>, e: Event)
    requires e.Transferred?
    ensures AllSpent(log + [e] + [e]) == AllSpent(log) + e.spent + e.spent
    ensures OutputNonces(log + [e] + [e]) == OutputNonces(log) + Nonces(e.created) + Nonces(e.created)
  {
    hide Nonces, AllSpent, AllCreated, OutputNonces, Deposited, Withdrawn;
    LogStep(log, e, ZERO);
    LogStep(log + [e], e, ZERO);
  }

  lemma {:induction false} OneDepositLog(first: Event)
    requires first.Shielded?
    ensures AllSpent([first]) == [] && OutputNonces([first]) == []
  {
    hide AllSpent, AllCreated, OutputNonces, Deposited, Withdrawn;
    LogStep([], first, ZERO);
    assert [] + [first] == [first];
    EmptyLog();
  }

  lemma {:induction false} EmptyLog()
    ensures AllSpent([]) == [] && OutputNonces([]) == [] && AllCreated([]) == []
  {
  }

  // ---------------------------------------------------------------------------
  // Value lost in a refused transfer
  // ---------------------------------------------------------------------------

  function PairLeaves(): map<nat, Fr> { map[0 := FirstNote().Commitment(), 1 := SecondNote().Commitment()] }

  function PairAnchor(depth: nat): Fr { Node(PairLeaves(), depth, 0) }

  function FirstNullifier(): Fr { NullifierOf(FirstNote(), KEY) }

  function SecondNullifier(): Fr { NullifierOf(SecondNote(), KEY) }

  /** Withdrawal of the second note. */
  function WithdrawSecond(depth: nat): UnshieldRequest {
    var limbs, asset := RecipientLimbs(ZERO_32), ComputeAssetId(ZERO_32);
    var binding := TxBindingUnshield(PairAnchor(depth), SecondNullifier(), 5, limbs, asset);
    var public := UnshieldPublicInputs(PairAnchor(depth), SecondNullifier(), binding, 5, limbs, asset);
    var private := UnshieldPrivateInputs(KEY, SecondNote(), WitnessOf(PairLeaves(), 1, depth));
    UnshieldRequest(PairAnchor(depth), SecondNullifier(), binding,
                    ProverRun(UnshieldPublic(public), UnshieldPrivate(private)), ZERO_32, 5, ZERO_32)
  }

  function PairNullifiers(): Fr3 { [FirstNullifier(), SecondNullifier(), ZERO] }

  function JoinBinding(depth: nat): Fr { TxBindingTransfer(PairAnchor(depth), PairNullifiers(), 2, 1) }

  function JoinPrivate(depth: nat): TransferPrivateInputs {
    TransferPrivateInputs(
      [SpendSlot(FirstNote(), PairLeaves(), 0, depth), SpendSlot(SecondNote(), PairLeaves(), 1, depth), DEFAULT_INPUT],
      [OutputSlot(true, Back(10, JoinBinding(depth), 0)), DEFAULT_OUTPUT, DEFAULT_OUTPUT])
  }

  /** A packed transfer of both notes into one of ten units. */
  function Join(depth: nat): TransferRequest {
    Crafted(PairAnchor(depth), PairNullifiers(), 2, 1, JoinPrivate(depth), None)
  }

  lemma {:induction false} JoinVerifies(depth: nat)
    requires depth >= 1
    ensures Verifies(TransferPublic(TransferPublicOf(Join(depth))), Join(depth).spendProof)
  {
    hide SpentNotes, CreatedNotes, WitnessOf, TxBindingTransfer, NullifierOf, AddressField, ComputeAssetId, Total,
         InputHolds, Verifies, Node;
    var priv := JoinPrivate(depth);
    var out := Back(10, JoinBinding(depth), 0);
    var pub := CraftedPublic(PairAnchor(depth), PairNullifiers(), 2, 1, priv.outputs);
    NotesOfInputs(priv.inputs);
    NotesOfOutputs(priv.outputs);
    TotalStep([], FirstNote());
    TotalStep([FirstNote()], SecondNote());
    TotalStep([], out);
    assert [] + [FirstNote()] == [FirstNote()] && [] + [out] == [out];
    assert SpentNotes(priv.inputs) == [FirstNote()] + [SecondNote()] && CreatedNotes(priv.outputs) == [out];
    TotalOfNone();
    assert Pow2(depth) == 2 * Pow2(depth - 1);
    SpendSlotHolds(Num(7), PairLeaves(), 0, depth, pub, 0);
    SpendSlotHolds(Num(9), PairLeaves(), 1, depth, pub, 1);
    DisabledInput(pub, 2);
    CraftedVerifies(PairAnchor(depth), PairNullifiers(), 2, 1, priv, None, ComputeAssetId(ZERO_32));
  }

  lemma {:induction false} TotalOfNone()
    ensures Total([]) == 0
  {
  }

  lemma {:induction false} WithdrawSecondVerifies(depth: nat)
    requires depth >= 1
    ensures var req := WithdrawSecond(depth);
      && Verifies(UnshieldPublic(UnshieldPublicOf(req)), req.spendProof)
      && req.spendProof.private
         == UnshieldPrivate(UnshieldPrivateInputs(KEY, SecondNote(), WitnessOf(PairLeaves(), 1, depth)))
  {
    hide NullifierOf, ComputeAssetId, RecipientLimbs, TxBindingUnshield, AddressField, PathSiblings, PathBits, Climb,
         Node;
    assert Pow2(depth) == 2 * Pow2(depth - 1);
    WitnessAcceptedWithinCapacity(PairLeaves(), 1, depth);
    var req := WithdrawSecond(depth);
    assert req.spendProof.public == UnshieldPublic(UnshieldPublicOf(req));
  }

  lemma {:induction false} NullifiersDiffer()
    ensures FirstNullifier() != SecondNullifier() && FirstNullifier() != ZERO && SecondNullifier() != ZERO
  {
  }

  function LosingOps(depth: nat): seq<Op> {
    [ShieldOp(Deposit(FirstNote())), ShieldOp(Deposit(SecondNote())), UnshieldOp(WithdrawSecond(depth)),
     TransferOp(Join(depth))]
  }

  lemma {:induction false} JoinRefused(w: World, depth: nat)
    requires depth >= 1 && w.ledger.nullifiers == {SecondNullifier()} && ValidAnchor(w.ledger, PairAnchor(depth))
    ensures var t := Step(w, TransferOp(Join(depth)));
      && Exec(w.ledger, TransferOp(Join(depth))).1 == Err(DoubleSpend)
      && t.log == w.log && t.ledger.store == w.ledger.store
      && t.ledger.nullifiers == {SecondNullifier(), FirstNullifier()}
      && !Clean(w.ledger, TransferOp(Join(depth)))
  {
    hide Verifies, NullifierOf, InsertOutputs, Clean;
    var req := Join(depth);
    JoinVerifies(depth);
    NullifiersDiffer();
    var s, nfs := w.ledger, WalkedNullifiers(req);
    assert nfs == [FirstNullifier(), SecondNullifier()] && nfs[1..] == [SecondNullifier()];
    var mid := NextTx(s).(nullifiers := s.nullifiers + {FirstNullifier()});
    assert InsertNullifiers(s, nfs) == InsertNullifiers(mid, nfs[1..]) == (mid, false);
    RefusedUnchangedIffClean(s, TransferOp(req));
    assert FirstNullifier() in mid.nullifiers && FirstNullifier() !in s.nullifiers;
  }

  lemma {:induction false} WithdrawSecondRuns(w: World, depth: nat)
    requires depth >= 1 && w.ledger.nullifiers == {} && ValidAnchor(w.ledger, PairAnchor(depth))
    ensures var t := Step(w, UnshieldOp(WithdrawSecond(depth)));
      && t.log == w.log + [Unshielded(SecondNote(), FirstNote().assetId, 5, ZERO_32)]
      && t.ledger.store == w.ledger.store && t.ledger.nullifiers == {SecondNullifier()}
  {
    hide Verifies, NullifierOf, WitnessOf;
    WithdrawSecondVerifies(depth);
  }

  lemma {:induction false} PairSpent(t: LedgerState, asset: Fr)
    requires t.store.leaves == PairLeaves() && t.nullifiers == {SecondNullifier(), FirstNullifier()}
    ensures UnspentValue(t, asset) == 0
  {
    hide NullifierOf, TreeNotes;
    forall n ensures n !in UnspentNotes(t) {
      TreeNotesMember(t.store.leaves, n);
      if n in TreeNotes(t.store.leaves) {
        var i :| i in t.store.leaves && t.store.leaves[i] == n.Commitment();
        CommitmentInjective(n, if i == 0 then FirstNote() else SecondNote());
        assert OwnedBy(n, KEY) && NullifierOf(n, KEY) in t.nullifiers;
      }
    }
    assert UnspentNotes(t) == {};
  }

  /**
   Why conservation is only an inequality: ten units in, five out, nothing left to spend. The last
   transfer is refused for its second nullifier after its first was recorded; every other
   condition of exact conservation is met.
   */
  lemma {:induction false} RefusalLosesValue(depth: nat, maxAnchors: nat)
    requires depth >= 1
    ensures var w := Run(depth, maxAnchors, LosingOps(depth));
            var asset := FirstNote().assetId;
      && AllPacked(LosingOps(depth)) && DepositNoncesApart(w.log)
      && !Clean(Run(depth, maxAnchors, LosingOps(depth)[..3]).ledger, LosingOps(depth)[3])
      && Deposited(w.log, asset) == 10 && Withdrawn(w.log, asset) == 5 && UnspentValue(w.ledger, asset) == 0
  {
    hide Run, Step, Exec, Inv, NoteWith, Deposit, TreeNotes, Join, WithdrawSecond, UnspentValue, Node, NullifierOf,
         DepositNoncesApart, Deposited, Withdrawn, Clean;
    var ops, asset := LosingOps(depth), FirstNote().assetId;
    var w1 := Run(depth, maxAnchors, [ops[0]]);
    FirstDeposit(depth, maxAnchors);
    RunSnoc(depth, maxAnchors, [ops[0]], ops[1]);
    var w2 := Step(w1, ops[1]);
    DepositRuns(w1, Num(9));
    assert w2.ledger.store.leaves == PairLeaves();
    assert [ops[0]] + [ops[1]] == ops[..2];
    RunSnoc(depth, maxAnchors, ops[..2], ops[2]);
    WithdrawSecondRuns(w2, depth);
    var w3 := Step(w2, ops[2]);
    assert ops[..2] + [ops[2]] == ops[..3];
    RunSnoc(depth, maxAnchors, ops[..3], ops[3]);
    JoinRefused(w3, depth);
    assert ops[..3] + [ops[3]] == ops;
    PairSpent(Step(w3, ops[3]).ledger, asset);
    LosingLog(w3.log, asset);
    JoinPacked(depth);
  }

  lemma {:induction false} JoinPacked(depth: nat)
    ensures AllPacked(LosingOps(depth))
  {
    hide NullifierOf, JoinPrivate, Deposit, WithdrawSecond, PairAnchor, CraftedPublic;
    assert Packed(TransferOp(Join(depth)));
  }

  lemma {:induction false} LosingLog(log: seq<Event>, asset: Fr)
    requires asset == FirstNote().assetId
    requires log == [Shielded(FirstNote(), asset, 5)] + [Shielded(SecondNote(), SecondNote().assetId, 5)]
      + [Unshielded(SecondNote(), asset, 5, ZERO_32)]
    ensures Deposited(log, asset) == 10 && Withdrawn(log, asset) == 5 && DepositNoncesApart(log)
  {
    hide ComputeAssetId, AddressField, AllSpent, AllCreated, DepositNonces;
    var e1, e2, e3 := log[0], log[1], log[2];
    LogStep([], e1, asset);
    LogStep([e1], e2, asset);
    LogStep([e1] + [e2], e3, asset);
    assert [] + [e1] == [e1] && log == [e1] + [e2] + [e3];
    EmptyDeposits(asset);
    DepositStep([], e1);
    DepositStep([e1], e2);
    DepositStep([e1] + [e2], e3);
    assert DepositNonces(log) == [Num(7)] + [Num(9)] && OutputNonces(log) == [] by { NoDeposits(); }
  }

  lemma {:induction false} NoDeposits()
    ensures DepositNonces([]) == [] && OutputNonces([]) == []
  {
  }

  lemma {:induction false} DepositStep(log: seq<Event>, e: Event)
    ensures DepositNonces(log + [e]) == DepositNonces(log) + (if e.Shielded? then [e.note.nullifierNonce] else [])
  {
    assert (log + [e])[..|log|] == log;
  }

  // ---------------------------------------------------------------------------
  // Value lost in a repeated deposit
  // ---------------------------------------------------------------------------

  function TwiceDeposited(): seq<Op> { [ShieldOp(Deposit(FirstNote())), ShieldOp(Deposit(FirstNote()))] }

  lemma {:induction false} SoleNoteUnspent(t: LedgerState, asset: Fr)
    requires t.nullifiers == {} && asset == FirstNote().assetId
    requires t.store.leaves == map[0 := FirstNote().Commitment(), 1 := FirstNote().Commitment()]
    ensures UnspentValue(t, asset) == 5
  {
    hide TreeNotes, ComputeAssetId, AddressField;
    var note := FirstNote();
    forall n ensures n in UnspentNotes(t) <==> n == note {
      TreeNotesMember(t.store.leaves, n);
      if n in TreeNotes(t.store.leaves) {
        CommitmentInjective(n, note);
      } else {
        assert t.store.leaves[0] == note.Commitment();
      }
    }
    assert UnspentNotes(t) == {} + {note};
    SetValueAdd({}, note, asset);
  }

  /**
   One note deposited twice: both deposits are accepted, nothing is refused, and half of the value
   can never be withdrawn.
   */
  lemma {:induction false} RepeatedDepositLoses(depth: nat, maxAnchors: nat)
    ensures var w := Run(depth, maxAnchors, TwiceDeposited());
            var asset := FirstNote().assetId;
      && AllPacked(TwiceDeposited()) && Atomic(depth, maxAnchors, TwiceDeposited()) && !DepositNoncesApart(w.log)
      && Deposited(w.log, asset) == 10 && Withdrawn(w.log, asset) == 0 && UnspentValue(w.ledger, asset) == 5
  {
    hide Run, Step, Inv, NoteWith, Deposit, TreeNotes, UnspentValue, Node, Deposited, Withdrawn;
    var ops, asset := TwiceDeposited(), FirstNote().assetId;
    var w1 := Run(depth, maxAnchors, [ops[0]]);
    FirstDeposit(depth, maxAnchors);
    DepositRuns(w1, Num(7));
    RunSnoc(depth, maxAnchors, [ops[0]], ops[1]);
    assert [ops[0]] + [ops[1]] == ops;
    var w := Step(w1, ops[1]);
    assert w.ledger.store.leaves == map[0 := FirstNote().Commitment(), 1 := FirstNote().Commitment()];
    SoleNoteUnspent(w.ledger, asset);
    TwiceLog(w.log, asset);
    assert ops[..1][..0] == ops[..0] == [];
    assert Atomic(depth, maxAnchors, ops[..1]) by { assert Atomic(depth, maxAnchors, ops[..0]); }
  }

  lemma {:induction false} TwiceLog(log: seq<Event>, asset: Fr)
    requires asset == FirstNote().assetId
    requires log == [Shielded(FirstNote(), asset, 5)] + [Shielded(FirstNote(), asset, 5)]
    ensures Deposited(log, asset) == 10 && Withdrawn(log, asset) == 0 && !DepositNoncesApart(log)
  {
    hide ComputeAssetId, AddressField, AllSpent, AllCreated, DepositNonces;
    var e := log[0];
    LogStep([], e, asset);
    LogStep([e], e, asset);
    assert [] + [e] == [e];
    EmptyDeposits(asset);
    NoDeposits();
    DepositStep([], e);
    DepositStep([e], e);
    var nonces := DepositNonces(log);
    assert nonces == [Num(7), Num(7)];
    assert nonces[0] == nonces[1];
  }

  // ---------------------------------------------------------------------------
  // A scan that stands still
  // ---------------------------------------------------------------------------

  const SOME_BYTES: Option<seq<byte>> := Some([])

  function FirstRevealed(): Fr3 { [FirstNullifier(), ZERO, ZERO] }

  function SplitBinding(depth: nat): Fr { TxBindingTransfer(SoleAnchor(depth), FirstRevealed(), 1, 3) }

  function SplitPart(amount: u64, depth: nat, j: u64): OutputSlot {
    OutputSlot(true, Back(amount, SplitBinding(depth), j))
  }

  function SplitPrivate(depth: nat): TransferPrivateInputs {
    TransferPrivateInputs([SpendSlot(FirstNote(), SoleLeaf(), 0, depth), DEFAULT_INPUT, DEFAULT_INPUT],
                          [SplitPart(1, depth, 0), SplitPart(1, depth, 1), SplitPart(3, depth, 2)])
  }

  /** A packed transfer with three outputs, all with ciphertexts. */
  function Split(depth: nat): TransferRequest {
    Crafted(SoleAnchor(depth), FirstRevealed(), 1, 3, SplitPrivate(depth), SOME_BYTES)
  }

  /** A deposit whose ciphertext is published. */
  function VisibleDeposit(note: Note): ShieldRequest {
    Deposit(note).(ciphertext := SOME_BYTES, ephemeralKey := SOME_BYTES)
  }

  lemma {:induction false} SplitVerifies(depth: nat)
    ensures Verifies(TransferPublic(TransferPublicOf(Split(depth))), Split(depth).spendProof)
  {
    hide SpentNotes, CreatedNotes, WitnessOf, TxBindingTransfer, NullifierOf, AddressField, ComputeAssetId, Total,
         InputHolds, Verifies, Node;
    var priv := SplitPrivate(depth);
    var a, b, c := priv.outputs[0].note, priv.outputs[1].note, priv.outputs[2].note;
    var pub := CraftedPublic(SoleAnchor(depth), FirstRevealed(), 1, 3, priv.outputs);
    NotesOfInputs(priv.inputs);
    NotesOfOutputs(priv.outputs);
    assert SpentNotes(priv.inputs) == [] + [FirstNote()] && CreatedNotes(priv.outputs) == [] + [a] + [b] + [c];
    TotalStep([], FirstNote());
    TotalStep([], a);
    TotalStep([] + [a], b);
    TotalStep([] + [a] + [b], c);
    TotalOfNone();
    AncestorAtTop(0, depth);
    SpendSlotHolds(Num(7), SoleLeaf(), 0, depth, pub, 0);
    DisabledInput(pub, 1);
    DisabledInput(pub, 2);
    CraftedVerifies(SoleAnchor(depth), FirstRevealed(), 1, 3, priv, SOME_BYTES, ComputeAssetId(ZERO_32));
  }

  /** Real outputs with both ciphertext parts are all published. */
  lemma {:induction false} AllPublished(s: StoreState, outputs: seq<TransferOutput>, tx: TxSig)
    requires forall o :: o in outputs ==> o.commitment != ZERO && o.ciphertext.Some? && o.ephemeralKey.Some?
    ensures |InsertOutputs(s, outputs, tx).ciphertexts| == |s.ciphertexts| + |outputs|
    decreases |outputs|
  {
    if outputs != [] {
      assert outputs[0] in outputs;
      var data := AttachedCiphertext(outputs[0].ciphertext, outputs[0].ephemeralKey);
      AllPublished(OutputInserted(s, outputs[0].commitment, tx, data), outputs[1..], tx);
    }
  }

  lemma {:induction false} SplitOutputs(s: StoreState, depth: nat, tx: TxSig)
    ensures var after := InsertOutputs(s, Split(depth).outputs, tx).ciphertexts;
      && |after| == |s.ciphertexts| + 3
      && after[..|s.ciphertexts|] == s.ciphertexts
      && forall i :: |s.ciphertexts| <= i < |after| ==> after[i].txSig == tx
  {
    hide InsertOutputs, Back, CraftedPublic;
    var outs := Split(depth).outputs;
    forall j | 0 <= j < 3 ensures outs[j].commitment != ZERO {
      CommitmentIsNotNode(SplitPrivate(depth).outputs[j].note.Commitment(), ZERO, ZERO);
    }
    AllPublished(s, outs, tx);
    InsertOutputsAppend(s, outs, tx);
  }

  lemma {:induction false} SplitRuns(w: World, depth: nat)
    requires w.ledger.nullifiers == {} && ValidAnchor(w.ledger, SoleAnchor(depth))
    ensures var before, after := w.ledger.store.ciphertexts, Step(w, TransferOp(Split(depth))).ledger.store.ciphertexts;
      && |after| == |before| + 3 && after[..|before|] == before
      && forall i, j :: |before| <= i < |after| && |before| <= j < |after| ==> after[i].txSig == after[j].txSig
  {
    hide Verifies, NullifierOf, InsertOutputs, InsertNullifiers;
    var s, req := w.ledger, Split(depth);
    SplitVerifies(depth);
    NullifiersDiffer();
    var nfs := WalkedNullifiers(req);
    assert nfs == [FirstNullifier()];
    InsertNullifiersEffect(s, nfs);
    InsertionSucceedsIff(s, nfs);
    var u := NextTx(InsertNullifiers(s, nfs).0);
    SplitOutputs(s.store, depth, MockTx(u.txCounter));
  }

  lemma {:induction false} VisibleDepositRuns(w: World, nonce: Fr)
    ensures var before := w.ledger.store.ciphertexts;
            var after := Step(w, ShieldOp(VisibleDeposit(NoteWith(nonce)))).ledger.store.ciphertexts;
            |after| == |before| + 1 && after[..|before|] == before
  {
    hide ComputeAssetId, AddressField, CtHash, Inserted;
    var note := NoteWith(nonce);
    assert ShieldPublicOf(VisibleDeposit(note)) == ShieldPublicOf(Deposit(note));
    assert ShieldPublicOf(Deposit(note)).publicAssetId == note.assetId;
    Recovery.InsertedKeepsCiphertexts(w.ledger.store, note.Commitment(), MockTx(w.ledger.txCounter + 1));
  }

  function StillOps(depth: nat): seq<Op> {
    [ShieldOp(Deposit(FirstNote())), TransferOp(Split(depth)), ShieldOp(VisibleDeposit(SecondNote()))]
  }

  /** With pages of one or two outputs the scan of a reachable chain never ends. */
  lemma {:induction false} ReachableScanStandsStill(depth: nat, maxAnchors: nat, limit: nat, n: nat)
    requires 1 <= limit <= 2
    ensures var outputs := Run(depth, maxAnchors, StillOps(depth)).ledger.store.ciphertexts;
            AllPacked(StillOps(depth)) && PageAfter(outputs, limit, None, n).hasMore
  {
    hide Run, Step, Inv, NoteWith, Deposit, VisibleDeposit, Split, Node, PageAfter, TreeNotes;
    var ops := StillOps(depth);
    var w := Run(depth, maxAnchors, [ops[0]]);
    FirstDeposit(depth, maxAnchors);
    FirstDepositIsHidden(depth, maxAnchors);
    RunSnoc(depth, maxAnchors, [ops[0]], ops[1]);
    assert [ops[0]] + [ops[1]] == ops[..2] && ops[..2] + [ops[2]] == ops;
    RunSnoc(depth, maxAnchors, ops[..2], ops[2]);
    SplitRuns(w, depth);
    VisibleDepositRuns(Step(w, ops[1]), Num(9));
    var before := Step(w, ops[1]).ledger.store.ciphertexts;
    var outputs := Run(depth, maxAnchors, ops).ledger.store.ciphertexts;
    assert outputs[0] == before[0] && outputs[limit] == before[limit];
    ReachableLogsSpan(depth, maxAnchors, ops);
    NeverCrossed(outputs, limit, 0, None, n);
    SplitPacked(depth);
  }

  lemma {:induction false} SplitPacked(depth: nat)
    ensures AllPacked(StillOps(depth))
  {
    hide NullifierOf, SplitPrivate, Deposit, VisibleDeposit, SoleAnchor, CraftedPublic;
    assert Packed(TransferOp(Split(depth)));
  }

  lemma {:induction false} FirstDepositIsHidden(depth: nat, maxAnchors: nat)
    ensures Run(depth, maxAnchors, [ShieldOp(Deposit(FirstNote()))]).ledger.store.ciphertexts == []
  {
    hide Run, NoteWith, Verifies, Node, Inserted;
    RunSnoc(depth, maxAnchors, [], ShieldOp(Deposit(FirstNote())));
    EmptyRun(depth, maxAnchors);
    assert [] + [ShieldOp(Deposit(FirstNote()))] == [ShieldOp(Deposit(FirstNote()))];
    Recovery.InsertedKeepsCiphertexts(EmptyStore(depth), FirstNote().Commitment(), MockTx(1));
  }
}
