/** Safety of the pool over every run: conservation, single spend, nonce uniqueness. */
module Safety {
  import opened Words
  import opened Field
  import opened MerkleTree
  import opened Traits
  import opened Store
  import opened Proofs
  import opened Value
  import opened Ledger

  // ---------------------------------------------------------------------------
  // Slots of an accepted transfer
  // ---------------------------------------------------------------------------

  /** The part of an input slot's statement that ties its note to its public nullifier. */
  predicate SlotNullifier(nullifiers: Fr3, slot: InputSlot, i: nat)
    requires i < MAX_INPUTS
  {
    if slot.enabled then
      OwnedBy(slot.note, slot.spendingKey) && NullifierOf(slot.note, slot.spendingKey) == nullifiers[i]
    else nullifiers[i] == ZERO
  }

  ghost predicate SlotsMatch(nullifiers: Fr3, inputs: Inputs3) {
    forall i :: 0 <= i < MAX_INPUTS ==> SlotNullifier(nullifiers, inputs[i], i)
  }

  predicate NonZeroDistinct(nfs: seq<Fr>) {
    forall i, j :: 0 <= i < j < |nfs| && nfs[i] != ZERO ==> nfs[i] != nfs[j]
  }

  ghost predicate InSlot(inputs: seq<InputSlot>, k: nat, note: Note)
    requires k <= |inputs|
  {
    exists i :: 0 <= i < k && inputs[i].enabled && inputs[i].note == note
  }

  lemma {:induction false} SpentNotesInSlots(inputs: seq<InputSlot>, k: nat, note: Note)
    requires k <= |inputs|
    ensures note in SpentNotes(inputs[..k]) <==> InSlot(inputs, k, note)
  {
    if k > 0 {
      SpentNotesInSlots(inputs, k - 1, note);
      SpentNotesStep(inputs, k - 1);
    }
  }

  lemma {:induction false} NoDupAppend<T>(xs: seq<T>, x: T)
    requires NoDup(xs) && x !in xs
    ensures NoDup(xs + [x])
  {
  }

  lemma {:induction false} DistinctNullifiersDistinctNotes(nullifiers: Fr3, a: InputSlot, i: nat, b: InputSlot, j: nat)
    requires i < j < MAX_INPUTS && NonZeroDistinct(nullifiers)
    requires SlotNullifier(nullifiers, a, i) && SlotNullifier(nullifiers, b, j)
    requires a.enabled && b.enabled
    ensures a.note != b.note
  {
    if a.note == b.note {
      NullifierOfNoteUnique(a.note, a.spendingKey, b.spendingKey);
    }
  }

  /** With distinct nullifiers no note is spent by two slots. */
  lemma {:induction false} SlotsSpendOnce(nullifiers: Fr3, inputs: Inputs3, k: nat)
    requires k <= MAX_INPUTS && SlotsMatch(nullifiers, inputs) && NonZeroDistinct(nullifiers)
    ensures NoDup(SpentNotes(inputs[..k]))
  {
    hide SlotNullifier;
    if k > 0 {
      SlotsSpendOnce(nullifiers, inputs, k - 1);
      SpentNotesStep(inputs, k - 1);
      var slot := inputs[k - 1];
      if slot.enabled {
        SpentNotesInSlots(inputs, k - 1, slot.note);
        forall i | 0 <= i < k - 1 && inputs[i].enabled ensures inputs[i].note != slot.note {
          DistinctNullifiersDistinctNotes(nullifiers, inputs[i], i, slot, k - 1);
        }
        NoDupAppend(SpentNotes(inputs[..k - 1]), slot.note);
      }
    }
  }

  ghost predicate InOutputSlot(outputs: seq<OutputSlot>, k: nat, note: Note)
    requires k <= |outputs|
  {
    exists j :: 0 <= j < k && outputs[j].enabled && outputs[j].note == note
  }

  lemma {:induction false} CreatedNotesInSlots(outputs: seq<OutputSlot>, k: nat, note: Note)
    requires k <= |outputs|
    ensures note in CreatedNotes(outputs[..k]) <==> InOutputSlot(outputs, k, note)
  {
    if k > 0 {
      CreatedNotesInSlots(outputs, k - 1, note);
      CreatedNotesStep(outputs, k - 1);
    }
  }

  /** Slot j derives the nonce of its note from the binding and j. */
  ghost predicate NoncesDerived(txBinding: Fr, outputs: Outputs3) {
    forall j :: 0 <= j < MAX_OUTPUTS && outputs[j].enabled ==>
      outputs[j].note.nullifierNonce == DeriveOutputNonce(txBinding, j)
  }

  lemma {:induction false} NoncesAppend(notes: seq<Note>, note: Note)
    requires NoDup(Nonces(notes))
    requires forall n :: n in notes ==> n.nullifierNonce != note.nullifierNonce
    ensures NoDup(Nonces(notes + [note]))
  {
    assert Nonces(notes + [note]) == Nonces(notes) + [note.nullifierNonce];
    NoDupAppend(Nonces(notes), note.nullifierNonce);
  }

  lemma {:induction false} CreatedNoncesDistinct(txBinding: Fr, outputs: Outputs3, k: nat)
    requires k <= MAX_OUTPUTS && NoncesDerived(txBinding, outputs)
    ensures NoDup(Nonces(CreatedNotes(outputs[..k])))
  {
    if k > 0 {
      CreatedNoncesDistinct(txBinding, outputs, k - 1);
      CreatedNotesStep(outputs, k - 1);
      var slot, before := outputs[k - 1], CreatedNotes(outputs[..k - 1]);
      if slot.enabled {
        forall n | n in before ensures n.nullifierNonce != slot.note.nullifierNonce {
          CreatedNotesInSlots(outputs, k - 1, n);
        }
        NoncesAppend(before, slot.note);
      }
    }
  }

  // ---------------------------------------------------------------------------
  // Effects of the two insertion loops
  // ---------------------------------------------------------------------------

  lemma {:induction false} InsertNullifiersEffect(s: LedgerState, nfs: seq<Fr>)
    ensures var (t, ok) := InsertNullifiers(s, nfs);
      && t.store == s.store && t.anchors == s.anchors && t.maxAnchors == s.maxAnchors && t.txCounter >= s.txCounter
      && s.nullifiers <= t.nullifiers <= s.nullifiers + NonZero(nfs)
      && (ok ==> t.nullifiers == s.nullifiers + NonZero(nfs) && s.nullifiers !! NonZero(nfs))
      && (ok ==> NonZeroDistinct(nfs))
    decreases |nfs|
  {
    if nfs != [] {
      var rest := nfs[1..];
      assert nfs == [nfs[0]] + rest;
      if nfs[0] == ZERO {
        InsertNullifiersEffect(s, rest);
        assert NonZero(nfs) == NonZero(rest);
      } else if nfs[0] !in s.nullifiers {
        InsertNullifiersEffect(NextTx(s).(nullifiers := s.nullifiers + {nfs[0]}), rest);
        assert NonZero(nfs) == {nfs[0]} + NonZero(rest);
      }
    }
  }

  lemma {:induction false} TreeNotesMember(leaves: map<nat, Fr>, note: Note)
    ensures note in TreeNotes(leaves) <==> exists i :: i in leaves && leaves[i] == note.Commitment()
  {
    CommitmentBinding(note);
    if i :| i in leaves && leaves[i] == note.Commitment() {
      assert OpenNote(leaves[i]).value in TreeNotes(leaves);
    }
  }

  lemma {:induction false} InsertedNotes(s: StoreState, note: Note, tx: TxSig)
    requires s.WellFormed() && OnlyNoteLeaves(s.leaves)
    ensures OnlyNoteLeaves(Inserted(s, note.Commitment(), tx).leaves)
    ensures TreeNotes(Inserted(s, note.Commitment(), tx).leaves) == TreeNotes(s.leaves) + {note}
  {
    CommitmentBinding(note);
    var before, after := s.leaves, Inserted(s, note.Commitment(), tx).leaves;
    InsertedWellFormed(s, note.Commitment(), tx);
    assert after[s.leafCount] == note.Commitment();
    forall n ensures n in TreeNotes(after) <==> n in TreeNotes(before) || n == note {
      TreeNotesMember(before, n);
      TreeNotesMember(after, n);
      if n in TreeNotes(before) {
        var i :| i in before && before[i] == n.Commitment();
        assert i in after && after[i] == n.Commitment();
      }
      if n in TreeNotes(after) {
        var i :| i in after && after[i] == n.Commitment();
        if i in before && i != s.leafCount {
          assert before[i] == n.Commitment();
        } else {
          CommitmentInjective(n, note);
        }
      }
    }
  }

  /** Output commitments of the notes that a transfer creates, zero for disabled slots. */
  ghost predicate OutputsCarry(outputs: seq<TransferOutput>, slots: seq<OutputSlot>) {
    |outputs| == |slots| && forall j :: 0 <= j < |slots| ==>
      outputs[j].commitment == if slots[j].enabled then slots[j].note.Commitment() else ZERO
  }

  function EnabledNotes(slots: seq<OutputSlot>): set<Note> {
    set j | 0 <= j < |slots| && slots[j].enabled :: slots[j].note
  }

  lemma {:induction false} EnabledNotesHead(slots: seq<OutputSlot>)
    requires slots != []
    ensures EnabledNotes(slots) == (if slots[0].enabled then {slots[0].note} else {}) + EnabledNotes(slots[1..])
  {
    assert forall j :: 0 < j < |slots| ==> slots[j] == slots[1..][j - 1];
    assert forall j :: 0 <= j < |slots| - 1 ==> slots[1..][j] == slots[j + 1];
  }

  /** What the tree gains from a set of new notes. */
  ghost predicate Grown(s: StoreState, t: StoreState, notes: set<Note>) {
    && t.WellFormed() && t.depth == s.depth && OnlyNoteLeaves(t.leaves) && SubMap(s.leaves, t.leaves)
    && TreeNotes(t.leaves) == TreeNotes(s.leaves) + notes
  }

  lemma {:induction false} OutputInsertedGrows(s: StoreState, note: Note, tx: TxSig, data: Option<OutputCiphertextData>)
    requires s.WellFormed() && OnlyNoteLeaves(s.leaves)
    ensures Grown(s, OutputInserted(s, note.Commitment(), tx, data), {note})
  {
    InsertedWellFormed(s, note.Commitment(), tx);
    InsertedNotes(s, note, tx);
  }

  lemma {:induction false} GrownTwice(s: StoreState, t: StoreState, u: StoreState, a: set<Note>, b: set<Note>)
    requires Grown(s, t, a) && Grown(t, u, b)
    ensures Grown(s, u, a + b)
  {
    hide TreeNotes, OnlyNoteLeaves;
    assert TreeNotes(s.leaves) + a + b == TreeNotes(s.leaves) + (a + b);
  }

  lemma {:induction false} InsertOutputsEffect(s: StoreState, outputs: seq<TransferOutput>, slots: seq<OutputSlot>,
          tx: TxSig)
    requires s.WellFormed() && OnlyNoteLeaves(s.leaves) && OutputsCarry(outputs, slots)
    ensures Grown(s, InsertOutputs(s, outputs, tx), EnabledNotes(slots))
    decreases |outputs|
  {
    if outputs == [] {
      assert Grown(s, s, {});
    } else {
      var slot, rest := slots[0], slots[1..];
      assert OutputsCarry(outputs[1..], rest);
      EnabledNotesHead(slots);
      if slot.enabled {
        CommitmentBinding(slot.note);
        CommitmentIsNotNode(slot.note.Commitment(), ZERO, ZERO);
        var data := AttachedCiphertext(outputs[0].ciphertext, outputs[0].ephemeralKey);
        var mid := OutputInserted(s, outputs[0].commitment, tx, data);
        OutputInsertedGrows(s, slot.note, tx, data);
        InsertOutputsEffect(mid, outputs[1..], rest, tx);
        GrownTwice(s, mid, InsertOutputs(mid, outputs[1..], tx), {slot.note}, EnabledNotes(rest));
      } else {
        InsertOutputsEffect(s, outputs[1..], rest, tx);
        assert {} + EnabledNotes(rest) == EnabledNotes(rest);
      }
    }
  }

  lemma {:induction false} EnabledNotesAreCreated(slots: seq<OutputSlot>)
    ensures EnabledNotes(slots) == Elements(CreatedNotes(slots))
  {
    if slots != [] {
      var k := |slots| - 1;
      EnabledNotesAreCreated(slots[..k]);
      CreatedNotesStep(slots, k);
      assert slots[..k + 1] == slots;
      assert EnabledNotes(slots) == EnabledNotes(slots[..k]) + (if slots[k].enabled then {slots[k].note} else {}) by {
        assert forall j :: 0 <= j < k ==> slots[j] == slots[..k][j];
      }
      assert Elements(CreatedNotes(slots))
          == Elements(CreatedNotes(slots[..k])) + (if slots[k].enabled then {slots[k].note} else {});
    }
  }

  // ---------------------------------------------------------------------------
  // One accepted spend
  // ---------------------------------------------------------------------------

  /** The anchor is the root of some earlier set of leaves. */
  ghost predicate KnownRoot(s: StoreState, anchor: Fr) {
    exists past: map<nat, Fr> :: SubMap(past, s.leaves) && anchor == Node(past, s.depth, 0)
  }

  ghost predicate AnchorsKnown(s: LedgerState) {
    forall a :: a in s.anchors ==> KnownRoot(s.store, a)
  }

  lemma {:induction false} ValidAnchorKnown(s: LedgerState, anchor: Fr)
    requires AnchorsKnown(s) && ValidAnchor(s, anchor)
    ensures KnownRoot(s.store, anchor)
  {
    assert SubMap(s.store.leaves, s.store.leaves);
  }

  /** A membership proof against any known root means the note is in the tree now. */
  lemma {:induction false} MemberIsInTree(s: StoreState, w: MembershipWitness, note: Note)
    requires OnlyNoteLeaves(s.leaves) && KnownRoot(s, w.root) && Accepted(w, note.Commitment())
    ensures note in TreeNotes(s.leaves)
  {
    var past: map<nat, Fr> :| SubMap(past, s.leaves) && w.root == Node(past, s.depth, 0);
    AcceptedMeansLeaf(past, s.leaves, s.depth, w, note);
    TreeNotesMember(s.leaves, note);
  }

  /** A note whose nullifier was not recorded before and is now: it was unspent, and it is spent. */
  lemma {:induction false} FreshNullifierSpends(note: Note, sk: Fr, before: set<Fr>, after: set<Fr>)
    requires OwnedBy(note, sk) && NullifierOf(note, sk) !in before && NullifierOf(note, sk) in after
    ensures !IsSpent(note, before) && IsSpent(note, after)
  {
    if other: Fr :| OwnedBy(note, other) && NullifierOf(note, other) in before {
      NullifierOfNoteUnique(note, sk, other);
    }
  }

  lemma {:induction false} SpentStaysSpent(note: Note, before: set<Fr>, after: set<Fr>)
    requires IsSpent(note, before) && before <= after
    ensures IsSpent(note, after)
  {
  }

  /**
   Value accounting of any operation that spends distinct unspent notes and adds notes to the
   tree: unspent value moves by at most created minus spent, in every asset.
   */
  lemma {:induction false} SpendAndCreate(before: LedgerState, after: LedgerState, spent: seq<Note>,
          created: seq<Note>, asset: Fr)
    requires TreeNotes(after.store.leaves) == TreeNotes(before.store.leaves) + Elements(created)
    requires before.nullifiers <= after.nullifiers
    requires NoDup(spent)
    requires forall n :: n in spent ==> n in UnspentNotes(before) && IsSpent(n, after.nullifiers)
    ensures UnspentValue(after, asset) + SeqValue(spent, asset)
         <= UnspentValue(before, asset) + SeqValue(created, asset)
  {
    var gone, made := Elements(spent), Elements(created);
    var kept := UnspentNotes(before) - gone;
    forall n | n in UnspentNotes(after) ensures n in kept + made {
      if IsSpent(n, before.nullifiers) {
        SpentStaysSpent(n, before.nullifiers, after.nullifiers);
      }
    }
    SetValueMonotone(UnspentNotes(after), kept + made, asset);
    SetValueUnion(kept, made, asset);
    SetValueDisjoint(kept, gone, asset);
    assert kept + gone == UnspentNotes(before);
    SetValueOfSeq(spent, asset);
    SetValueOfSeq(created, asset);
  }

  // ---------------------------------------------------------------------------
  // What an accepted transfer guarantees
  // ---------------------------------------------------------------------------

  /** The chain-relevant content of a verified transfer request. */
  ghost predicate TransferFacts(s: LedgerState, req: TransferRequest, priv: TransferPrivateInputs) {
    && SlotsMatch(req.nullifiers, priv.inputs)
    && |SpentNotes(priv.inputs)| == req.inputCount
    && SpentNotes(priv.inputs) != []
    && (forall i :: 0 <= i < MAX_INPUTS && priv.inputs[i].enabled ==> priv.inputs[i].note in TreeNotes(s.store.leaves))
    && OutputsCarry(req.outputs, priv.outputs)
    && req.txBinding == TxBindingTransfer(req.anchor, req.nullifiers, req.inputCount, req.outputCount)
    && NoDup(Nonces(CreatedNotes(priv.outputs)))
    && (forall n :: n in CreatedNotes(priv.outputs) ==>
       exists j: u64 :: n.nullifierNonce == DeriveOutputNonce(req.txBinding, j))
    && (forall asset :: SeqValue(SpentNotes(priv.inputs), asset) == SeqValue(CreatedNotes(priv.outputs), asset))
  }

  lemma {:induction false} BalancedPerAsset(pub: TransferPublicInputs, priv: TransferPrivateInputs, asset: Fr)
    requires TransferStatement(pub, priv)
    ensures SeqValue(SpentNotes(priv.inputs), asset) == SeqValue(CreatedNotes(priv.outputs), asset)
  {
    hide InputHolds, OutputHolds, Accepted;
    var spent, created := SpentNotes(priv.inputs), CreatedNotes(priv.outputs);
    assert priv.inputs[..3] == priv.inputs && priv.outputs[..3] == priv.outputs;
    SpentNotesInSlots(priv.inputs, 3, spent[0]);
    var i :| 0 <= i < MAX_INPUTS && priv.inputs[i].enabled && priv.inputs[i].note == spent[0];
    var main := spent[0].assetId;
    forall n | n in spent ensures n.assetId == main {
      SpentNotesInSlots(priv.inputs, 3, n);
    }
    forall n | n in created ensures n.assetId == main {
      CreatedNotesInSlots(priv.outputs, 3, n);
      var j :| 0 <= j < MAX_OUTPUTS && priv.outputs[j].enabled && priv.outputs[j].note == n;
      assert priv.inputs[i].note.assetId == priv.outputs[j].note.assetId;
    }
    TotalIsValue(spent, main, asset);
    TotalIsValue(created, main, asset);
  }

  lemma {:induction false} EstablishTransferFacts(s: LedgerState, req: TransferRequest)
    requires OnlyNoteLeaves(s.store.leaves) && AnchorsKnown(s) && ValidAnchor(s, req.anchor)
    requires Verifies(TransferPublic(TransferPublicOf(req)), req.spendProof)
    ensures req.spendProof.private.TransferPrivate?
    ensures TransferFacts(s, req, req.spendProof.private.transfer)
  {
    hide TreeNotes, TxBindingTransfer, OwnedBy, NullifierOf, Accepted, DeriveOutputNonce, KnownRoot, SeqValue, NoDup;
    AcceptedTransfer(TransferPublicOf(req), req.spendProof);
    var priv := req.spendProof.private.transfer;
    var ctHashes: Fr3 :| TransferStatement(TransferPublicOf(req).(ctHashes := ctHashes), priv);
    var pub := TransferPublicOf(req).(ctHashes := ctHashes);
    ValidAnchorKnown(s, req.anchor);
    assert priv.outputs[..3] == priv.outputs;
    forall i | 0 <= i < MAX_INPUTS
      ensures SlotNullifier(req.nullifiers, priv.inputs[i], i)
      ensures priv.inputs[i].enabled ==> priv.inputs[i].note in TreeNotes(s.store.leaves)
    {
      assert InputHolds(pub, priv.inputs[i], i);
      if priv.inputs[i].enabled {
        MemberIsInTree(s.store, priv.inputs[i].membershipWitness, priv.inputs[i].note);
      }
    }
    forall j | 0 <= j < MAX_OUTPUTS
      ensures req.outputs[j].commitment == if priv.outputs[j].enabled then priv.outputs[j].note.Commitment() else ZERO
    {
      assert OutputHolds(pub, priv.outputs[j], j);
    }
    assert NoncesDerived(req.txBinding, priv.outputs) by {
      assert forall j :: 0 <= j < MAX_OUTPUTS ==> OutputHolds(pub, priv.outputs[j], j);
    }
    CreatedNoncesDistinct(req.txBinding, priv.outputs, 3);
    forall n | n in CreatedNotes(priv.outputs)
      ensures exists j: u64 :: n.nullifierNonce == DeriveOutputNonce(req.txBinding, j)
    {
      CreatedNotesInSlots(priv.outputs, 3, n);
      var j :| 0 <= j < MAX_OUTPUTS && priv.outputs[j].enabled && priv.outputs[j].note == n;
      var k: u64 := j;
      assert n.nullifierNonce == DeriveOutputNonce(req.txBinding, k);
    }
    forall asset ensures SeqValue(SpentNotes(priv.inputs), asset) == SeqValue(CreatedNotes(priv.outputs), asset) {
      BalancedPerAsset(pub, priv, asset);
    }
  }

  /** A packed transfer that goes through spends distinct, so far unspent notes. */
  lemma {:induction false} PackedTransferSpends(s: LedgerState, req: TransferRequest, priv: TransferPrivateInputs)
    requires TransferFacts(s, req, priv) && Packed(TransferOp(req))
    requires InsertNullifiers(s, WalkedNullifiers(req)).1
    ensures var after := InsertNullifiers(s, WalkedNullifiers(req)).0.nullifiers;
      && s.nullifiers <= after
      && NoDup(SpentNotes(priv.inputs))
      && (forall n :: n in SpentNotes(priv.inputs) ==> n in UnspentNotes(s) && IsSpent(n, after))
      && (forall i :: 0 <= i < MAX_INPUTS && req.nullifiers[i] != ZERO ==>
         req.nullifiers[i] in after && req.nullifiers[i] !in s.nullifiers)
  {
    hide TreeNotes, TxBindingTransfer, IsSpent, OwnedBy, OutputsCarry, Nonces, SeqValue, DeriveOutputNonce;
    var nfs := WalkedNullifiers(req);
    InsertNullifiersEffect(s, nfs);
    var after := InsertNullifiers(s, nfs).0.nullifiers;
    forall i | 0 <= i < MAX_INPUTS && req.nullifiers[i] != ZERO
      ensures i < |nfs| && req.nullifiers[i] in after && req.nullifiers[i] !in s.nullifiers
    {
      assert i < |nfs| && nfs[i] == req.nullifiers[i];
      assert nfs[i] in NonZero(nfs);
    }
    assert NonZeroDistinct(req.nullifiers) by {
      assert NonZeroDistinct(nfs);
      assert forall i :: 0 <= i < |nfs| ==> nfs[i] == req.nullifiers[i];
    }
    assert priv.inputs[..3] == priv.inputs;
    SlotsSpendOnce(req.nullifiers, priv.inputs, 3);
    forall n | n in SpentNotes(priv.inputs) ensures n in UnspentNotes(s) && IsSpent(n, after) {
      SpentNotesInSlots(priv.inputs, 3, n);
      var i :| 0 <= i < MAX_INPUTS && priv.inputs[i].enabled && priv.inputs[i].note == n;
      assert SlotNullifier(req.nullifiers, priv.inputs[i], i);
      FreshNullifierSpends(n, priv.inputs[i].spendingKey, s.nullifiers, after);
    }
  }

  // ---------------------------------------------------------------------------
  // The invariant
  // ---------------------------------------------------------------------------

  ghost predicate EventSound(e: Event, nullifiers: set<Fr>) {
    match e
    case Shielded(note, asset, amount) => note.assetId == asset && note.amount == amount
    case Unshielded(note, asset, amount, _) => note.assetId == asset && note.amount == amount
        && IsSpent(note, nullifiers)
    case Transferred(pub, spent, created) =>
      && (forall n :: n in spent ==> IsSpent(n, nullifiers))
      && pub.txBinding == TxBindingTransfer(pub.anchor, pub.nullifiers, pub.inputCount, pub.outputCount)
      && (exists i :: 0 <= i < MAX_INPUTS && pub.nullifiers[i] != ZERO)
      && (forall i :: 0 <= i < MAX_INPUTS && pub.nullifiers[i] != ZERO ==> pub.nullifiers[i] in nullifiers)
      && NoDup(Nonces(created))
      && (forall n :: n in created ==> exists j: u64 :: n.nullifierNonce == DeriveOutputNonce(pub.txBinding, j))
      && (forall asset :: SeqValue(spent, asset) == SeqValue(created, asset))
  }

  /** The log agrees with the tree, every logged event is sound, and nothing was spent twice. */
  ghost predicate LogSound(s: LedgerState, log: seq<Event>) {
    && TreeNotes(s.store.leaves) == Elements(AllCreated(log))
    && (forall k :: 0 <= k < |log| ==> EventSound(log[k], s.nullifiers))
    && (forall n :: n in AllSpent(log) ==> IsSpent(n, s.nullifiers))
    && NoDup(AllSpent(log))
    && (forall n :: n in AllSpent(log) ==> n in AllCreated(log))
    && NoDup(OutputNonces(log))
    && (forall asset :: Withdrawn(log, asset) + UnspentValue(s, asset) <= Deposited(log, asset))
  }

  ghost predicate StateSound(s: LedgerState) {
    s.store.WellFormed() && OnlyNoteLeaves(s.store.leaves) && AnchorsKnown(s)
  }

  ghost predicate Inv(w: World) {
    StateSound(w.ledger) && LogSound(w.ledger, w.log)
  }

  lemma {:induction false} GenesisInv(depth: nat, maxAnchors: nat)
    ensures Inv(World(Genesis(depth, maxAnchors), []))
  {
    var s := Genesis(depth, maxAnchors);
    assert SubMap(map[], s.store.leaves);
    assert s.store.Root() == Node(map[], s.store.depth, 0);
    assert TreeNotes(s.store.leaves) == {};
    assert UnspentNotes(s) == {};
  }

  lemma {:induction false} LogStep(log: seq<Event>, e: Event, asset: Fr)
    ensures AllSpent(log + [e]) == AllSpent(log) + SpentBy(e)
    ensures AllCreated(log + [e]) == AllCreated(log) + CreatedBy(e)
    ensures OutputNonces(log + [e]) == OutputNonces(log) + (if e.Transferred? then Nonces(e.created) else [])
    ensures Deposited(log + [e], asset) == Deposited(log, asset) + (if e.Shielded? then Moved(e, asset) else 0)
    ensures Withdrawn(log + [e], asset) == Withdrawn(log, asset) + (if e.Unshielded? then Moved(e, asset) else 0)
  {
    assert (log + [e])[..|log|] == log;
  }

  lemma {:induction false} EventStaysSound(e: Event, before: set<Fr>, after: set<Fr>)
    requires EventSound(e, before) && before <= after
    ensures EventSound(e, after)
  {
  }

  lemma {:induction false} KnownRootKept(s: StoreState, t: StoreState, anchor: Fr)
    requires KnownRoot(s, anchor) && SubMap(s.leaves, t.leaves) && t.depth == s.depth
    ensures KnownRoot(t, anchor)
  {
    var past: map<nat, Fr> :| SubMap(past, s.leaves) && anchor == Node(past, s.depth, 0);
    assert SubMap(past, t.leaves);
  }

  /** Growing the tree and recording the new root keeps the state sound. */
  lemma {:induction false} GrowthKeepsStateSound(s: LedgerState, t: LedgerState, notes: set<Note>)
    requires StateSound(s) && Grown(s.store, t.store, notes) && t.anchors == s.anchors
    ensures StateSound(UpdateAnchors(t))
  {
    hide OnlyNoteLeaves, TreeNotes;
    var u := UpdateAnchors(t);
    forall a | a in u.anchors ensures KnownRoot(u.store, a) {
      if a in s.anchors {
        KnownRootKept(s.store, u.store, a);
      } else {
        assert a == u.store.Root();
        assert SubMap(u.store.leaves, u.store.leaves);
      }
    }
  }

  /** Distinct transfers have distinct bindings, so new output nonces are new. */
  lemma {:induction false} NewNoncesAreNew(log: seq<Event>, before: set<Fr>, e: Event, after: set<Fr>)
    requires e.Transferred? && EventSound(e, after)
    requires forall k :: 0 <= k < |log| ==> EventSound(log[k], before)
    requires forall i :: 0 <= i < MAX_INPUTS && e.public.nullifiers[i] != ZERO ==> e.public.nullifiers[i] !in before
    ensures forall x :: x in OutputNonces(log) ==> x !in Nonces(e.created)
  {
    hide IsSpent, TxBindingTransfer;
    if log != [] {
      var k := |log| - 1;
      var past := log[k];
      NewNoncesAreNew(log[..k], before, e, after);
      if past.Transferred? {
        assert EventSound(past, before);
        var i :| 0 <= i < MAX_INPUTS && e.public.nullifiers[i] != ZERO;
        assert past.public.nullifiers != e.public.nullifiers;
        BindingsDiffer(past.public, e.public);
        forall p, q | 0 <= p < |past.created| && 0 <= q < |e.created|
          ensures Nonces(past.created)[p] != Nonces(e.created)[q]
        {
          var a: u64 :| past.created[p].nullifierNonce == DeriveOutputNonce(past.public.txBinding, a);
          var b: u64 :| e.created[q].nullifierNonce == DeriveOutputNonce(e.public.txBinding, b);
        }
      }
    }
  }

  lemma {:induction false} BindingsDiffer(a: TransferPublicInputs, b: TransferPublicInputs)
    requires BindingHolds(a) && BindingHolds(b) && a.nullifiers != b.nullifiers
    ensures a.txBinding != b.txBinding
  {
    if a.txBinding == b.txBinding {
      TxBindingFixesNullifiers(a.anchor, a.nullifiers, a.inputCount, a.outputCount,
                               b.anchor, b.nullifiers, b.inputCount, b.outputCount);
    }
  }

  lemma {:induction false} NoDupConcat<T>(xs: seq<T>, ys: seq<T>)
    requires NoDup(xs) && NoDup(ys) && forall x :: x in xs ==> x !in ys
    ensures NoDup(xs + ys)
  {
    forall i, j | 0 <= i < j < |xs + ys| ensures (xs + ys)[i] != (xs + ys)[j] {
      if i < |xs| <= j {
        assert xs[i] in xs && ys[j - |xs|] in ys;
      }
    }
  }

  /** The event spends distinct unspent notes and adds exactly its created notes to the tree. */
  ghost predicate Effect(s: LedgerState, t: LedgerState, e: Event) {
    && EventSound(e, t.nullifiers) && s.nullifiers <= t.nullifiers
    && TreeNotes(t.store.leaves) == TreeNotes(s.store.leaves) + Elements(CreatedBy(e))
    && NoDup(SpentBy(e))
    && (forall n :: n in SpentBy(e) ==> n in UnspentNotes(s) && IsSpent(n, t.nullifiers))
    && (e.Transferred? ==>
          forall i :: 0 <= i < MAX_INPUTS && e.public.nullifiers[i] != ZERO ==> e.public.nullifiers[i] !in s.nullifiers)
  }

  lemma {:induction false} AppendBalance(s: LedgerState, t: LedgerState, log: seq<Event>, e: Event, asset: Fr)
    requires Effect(s, t, e)
    requires Withdrawn(log, asset) + UnspentValue(s, asset) <= Deposited(log, asset)
    ensures Withdrawn(log + [e], asset) + UnspentValue(t, asset) <= Deposited(log + [e], asset)
  {
    hide IsSpent, TxBindingTransfer, TreeNotes, DeriveOutputNonce, UnspentNotes, NoDup;
    LogStep(log, e, asset);
    SpendAndCreate(s, t, SpentBy(e), CreatedBy(e), asset);
    EventValue(e, t.nullifiers, asset);
  }

  lemma {:induction false} AppendSpends(s: LedgerState, t: LedgerState, log: seq<Event>, e: Event)
    requires Effect(s, t, e)
    requires TreeNotes(s.store.leaves) == Elements(AllCreated(log))
    requires forall n :: n in AllSpent(log) ==> IsSpent(n, s.nullifiers) && n in AllCreated(log)
    requires NoDup(AllSpent(log))
    ensures TreeNotes(t.store.leaves) == Elements(AllCreated(log + [e]))
    ensures forall n :: n in AllSpent(log + [e]) ==> IsSpent(n, t.nullifiers) && n in AllCreated(log + [e])
    ensures NoDup(AllSpent(log + [e]))
  {
    hide IsSpent, EventSound, TreeNotes;
    LogStep(log, e, ZERO);
    assert Elements(AllCreated(log + [e])) == Elements(AllCreated(log)) + Elements(CreatedBy(e));
    forall n | n in AllSpent(log) ensures IsSpent(n, t.nullifiers) {
      SpentStaysSpent(n, s.nullifiers, t.nullifiers);
    }
    forall n | n in SpentBy(e) ensures n in AllCreated(log) {
      assert n in Elements(AllCreated(log));
    }
    NoDupConcat(AllSpent(log), SpentBy(e));
  }

  lemma {:induction false} AppendNonces(s: LedgerState, t: LedgerState, log: seq<Event>, e: Event)
    requires Effect(s, t, e) && NoDup(OutputNonces(log))
    requires forall k :: 0 <= k < |log| ==> EventSound(log[k], s.nullifiers)
    ensures NoDup(OutputNonces(log + [e]))
    ensures forall k :: 0 <= k < |log + [e]| ==> EventSound((log + [e])[k], t.nullifiers)
  {
    hide IsSpent, TreeNotes, UnspentNotes, TxBindingTransfer, DeriveOutputNonce, SeqValue;
    LogStep(log, e, ZERO);
    forall k | 0 <= k < |log| ensures EventSound(log[k], t.nullifiers) {
      EventStaysSound(log[k], s.nullifiers, t.nullifiers);
    }
    if e.Transferred? {
      NewNoncesAreNew(log, s.nullifiers, e, t.nullifiers);
      NoDupConcat(OutputNonces(log), Nonces(e.created));
    }
  }

  /** Logging one event with its effect keeps the log sound. */
  lemma {:induction false} AppendEvent(s: LedgerState, t: LedgerState, log: seq<Event>, e: Event)
    requires LogSound(s, log) && Effect(s, t, e)
    ensures LogSound(t, log + [e])
  {
    hide Effect, EventSound, IsSpent, TreeNotes, UnspentValue, NoDup;
    AppendSpends(s, t, log, e);
    AppendNonces(s, t, log, e);
    forall asset ensures Withdrawn(log + [e], asset) + UnspentValue(t, asset) <= Deposited(log + [e], asset) {
      AppendBalance(s, t, log, e, asset);
    }
  }

  /** What crossed the boundary is the value of the note behind it. */
  lemma {:induction false} EventValue(e: Event, nullifiers: set<Fr>, asset: Fr)
    requires EventSound(e, nullifiers)
    ensures e.Shielded? ==> SeqValue(CreatedBy(e), asset) == Moved(e, asset)
    ensures e.Unshielded? ==> SeqValue(SpentBy(e), asset) == Moved(e, asset)
  {
    if !e.Transferred? {
      assert [e.note][..0] == [];
      assert SeqValue([e.note], asset) == SeqValue([], asset) + AmountIn(e.note, asset);
    }
  }

  // ---------------------------------------------------------------------------
  // Soundness of the state, for every run
  // ---------------------------------------------------------------------------

  lemma {:induction false} TransferGrows(s: LedgerState, u: LedgerState, req: TransferRequest,
          priv: TransferPrivateInputs, tx: TxSig)
    requires StateSound(s) && u.store == s.store && u.anchors == s.anchors && OutputsCarry(req.outputs, priv.outputs)
    ensures var t := UpdateAnchors(u.(store := InsertOutputs(u.store, req.outputs, tx)));
      && StateSound(t) && t.nullifiers == u.nullifiers
      && TreeNotes(t.store.leaves) == TreeNotes(s.store.leaves) + Elements(CreatedNotes(priv.outputs))
  {
    InsertOutputsEffect(s.store, req.outputs, priv.outputs, tx);
    EnabledNotesAreCreated(priv.outputs);
    GrowthKeepsStateSound(s, u.(store := InsertOutputs(u.store, req.outputs, tx)), EnabledNotes(priv.outputs));
  }

  lemma {:induction false} ShieldKeepsSound(s: LedgerState, req: ShieldRequest)
    requires StateSound(s)
    ensures StateSound(ExecShield(s, req).0)
    ensures ExecShield(s, req).1.Ok? ==>
      && req.shieldProof.private.ShieldPrivate?
      && TreeNotes(ExecShield(s, req).0.store.leaves) == TreeNotes(s.store.leaves) + {req.shieldProof.private.note}
  {
    hide OnlyNoteLeaves, KnownRoot, TreeNotes, Verifies;
    var (t, r) := ExecShield(s, req);
    if r.Ok? {
      AcceptedShield(ShieldPublicOf(req), req.shieldProof);
      var note := req.shieldProof.private.note;
      var data := AttachedCiphertext(req.ciphertext, req.ephemeralKey);
      OutputInsertedGrows(s.store, note, r.value, data);
      var mid := NextTx(s).(store := OutputInserted(s.store, req.commitment, r.value, data));
      GrowthKeepsStateSound(s, mid, {note});
    }
  }

  lemma {:induction false} TransferKeepsSound(s: LedgerState, req: TransferRequest)
    requires StateSound(s)
    ensures StateSound(ExecTransfer(s, req).0)
    ensures ExecTransfer(s, req).1.Ok? ==>
      && req.spendProof.private.TransferPrivate?
      && TransferFacts(s, req, req.spendProof.private.transfer)
      && TreeNotes(ExecTransfer(s, req).0.store.leaves)
           == TreeNotes(s.store.leaves) + Elements(CreatedNotes(req.spendProof.private.transfer.outputs))
  {
    hide OnlyNoteLeaves, KnownRoot, TreeNotes, Verifies, TransferFacts;
    InsertNullifiersEffect(s, WalkedNullifiers(req));
    var u := InsertNullifiers(s, WalkedNullifiers(req)).0;
    var (t, r) := ExecTransfer(s, req);
    if r.Ok? {
      EstablishTransferFacts(s, req);
      var priv := req.spendProof.private.transfer;
      assert OutputsCarry(req.outputs, priv.outputs) by { FactsCarry(s, req, priv); }
      TransferGrows(s, NextTx(u), req, priv, r.value);
    }
  }

  lemma {:induction false} FactsCarry(s: LedgerState, req: TransferRequest, priv: TransferPrivateInputs)
    requires TransferFacts(s, req, priv)
    ensures OutputsCarry(req.outputs, priv.outputs)
  {
  }

  /** Tree and anchors stay sound whatever is submitted, packed or not. */
  lemma {:induction false} RunIsSound(depth: nat, maxAnchors: nat, ops: seq<Op>)
    ensures StateSound(Run(depth, maxAnchors, ops).ledger)
  {
    hide StateSound;
    if ops == [] {
      GenesisInv(depth, maxAnchors);
      assert StateSound(Genesis(depth, maxAnchors)) by { InvIsSound(World(Genesis(depth, maxAnchors), [])); }
    } else {
      var k := |ops| - 1;
      RunIsSound(depth, maxAnchors, ops[..k]);
      var s := Run(depth, maxAnchors, ops[..k]).ledger;
      match ops[k]
      case ShieldOp(req) => ShieldKeepsSound(s, req);
      case TransferOp(req) => TransferKeepsSound(s, req);
      case UnshieldOp(req) => UnshieldKeepsSound(s, req);
    }
  }

  lemma {:induction false} InvIsSound(w: World)
    requires Inv(w)
    ensures StateSound(w.ledger)
  {
  }

  lemma {:induction false} UnshieldKeepsSound(s: LedgerState, req: UnshieldRequest)
    requires StateSound(s)
    ensures StateSound(ExecUnshield(s, req).0)
  {
    hide OnlyNoteLeaves, KnownRoot, Verifies;
  }

  // ---------------------------------------------------------------------------
  // Each operation keeps the invariant
  // ---------------------------------------------------------------------------

  lemma {:induction false} ShieldKeepsInv(w: World, req: ShieldRequest)
    requires Inv(w)
    ensures Inv(Step(w, ShieldOp(req)))
  {
    hide StateSound, IsSpent, LogSound, UnspentNotes, TreeNotes, Verifies;
    var s := w.ledger;
    var (t, r) := ExecShield(s, req);
    ShieldKeepsSound(s, req);
    if r.Ok? {
      AcceptedShield(ShieldPublicOf(req), req.shieldProof);
      assert Elements([req.shieldProof.private.note]) == {req.shieldProof.private.note};
      AppendEvent(s, t, w.log, EventOf(s, ShieldOp(req)));
    } else {
      BurntNullifiersKeepLog(s, t, w.log);
    }
  }

  lemma {:induction false} UnshieldSpends(s: LedgerState, req: UnshieldRequest)
    requires StateSound(s) && ExecUnshield(s, req).1.Ok?
    ensures req.spendProof.private.UnshieldPrivate?
    ensures var note := req.spendProof.private.unshield.note;
      && note in UnspentNotes(s) && IsSpent(note, ExecUnshield(s, req).0.nullifiers)
      && note.assetId == ComputeAssetId(req.tokenAddress) && note.amount == req.amount
  {
    AcceptedUnshield(UnshieldPublicOf(req), req.spendProof);
    var priv := req.spendProof.private.unshield;
    ValidAnchorKnown(s, req.anchor);
    MemberIsInTree(s.store, priv.membershipWitness, priv.note);
    FreshNullifierSpends(priv.note, priv.spendingKey, s.nullifiers, ExecUnshield(s, req).0.nullifiers);
  }

  lemma {:induction false} UnshieldKeepsInv(w: World, req: UnshieldRequest)
    requires Inv(w)
    ensures Inv(Step(w, UnshieldOp(req)))
  {
    hide LogSound, UnspentNotes, IsSpent, OnlyNoteLeaves, TreeNotes, Verifies, KnownRoot;
    var s := w.ledger;
    var (t, r) := ExecUnshield(s, req);
    if r.Ok? {
      UnshieldSpends(s, req);
      assert Elements<Note>([]) == {};
      AppendEvent(s, t, w.log, EventOf(s, UnshieldOp(req)));
    }
  }

  /** A rejected operation that only adds nullifiers and bumps the counter keeps the log sound. */
  lemma {:induction false} BurntNullifiersKeepLog(s: LedgerState, t: LedgerState, log: seq<Event>)
    requires LogSound(s, log) && t.store == s.store && s.nullifiers <= t.nullifiers
    ensures LogSound(t, log)
  {
    forall k | 0 <= k < |log| ensures EventSound(log[k], t.nullifiers) {
      EventStaysSound(log[k], s.nullifiers, t.nullifiers);
    }
    forall n | n in AllSpent(log) ensures IsSpent(n, t.nullifiers) {
      SpentStaysSpent(n, s.nullifiers, t.nullifiers);
    }
    forall asset ensures Withdrawn(log, asset) + UnspentValue(t, asset) <= Deposited(log, asset) {
      assert Elements<Note>([]) == {};
      SpendAndCreate(s, t, [], [], asset);
    }
  }

  lemma {:induction false} SomeNullifierRevealed(nullifiers: Fr3, inputs: Inputs3)
    requires SlotsMatch(nullifiers, inputs) && SpentNotes(inputs) != []
    ensures exists i :: 0 <= i < MAX_INPUTS && nullifiers[i] != ZERO
  {
    assert inputs[..3] == inputs;
    SpentNotesInSlots(inputs, 3, SpentNotes(inputs)[0]);
    var i :| 0 <= i < MAX_INPUTS && inputs[i].enabled;
    assert SlotNullifier(nullifiers, inputs[i], i);
  }

  lemma {:induction false} TransferEventSound(s: LedgerState, req: TransferRequest, priv: TransferPrivateInputs,
          after: set<Fr>)
    requires TransferFacts(s, req, priv) && Packed(TransferOp(req))
    requires InsertNullifiers(s, WalkedNullifiers(req)).1
    requires after == InsertNullifiers(s, WalkedNullifiers(req)).0.nullifiers
    ensures EventSound(Transferred(TransferPublicOf(req), SpentNotes(priv.inputs), CreatedNotes(priv.outputs)), after)
  {
    PackedTransferSpends(s, req, priv);
    SomeNullifierRevealed(req.nullifiers, priv.inputs);
  }

  lemma {:induction false} AcceptedTransferKeepsInv(w: World, req: TransferRequest)
    requires Inv(w) && Packed(TransferOp(req)) && ExecTransfer(w.ledger, req).1.Ok?
    ensures Inv(Step(w, TransferOp(req)))
  {
    hide LogSound, UnspentNotes, IsSpent, StateSound, TreeNotes, Verifies, EventSound, TransferFacts;
    var s := w.ledger;
    var t := ExecTransfer(s, req).0;
    var u := InsertNullifiers(s, WalkedNullifiers(req)).0;
    InsertNullifiersEffect(s, WalkedNullifiers(req));
    TransferKeepsSound(s, req);
    var priv := req.spendProof.private.transfer;
    PackedTransferSpends(s, req, priv);
    TransferEventSound(s, req, priv, u.nullifiers);
    AppendEvent(s, t, w.log, EventOf(s, TransferOp(req)));
  }

  lemma {:induction false} TransferKeepsInv(w: World, req: TransferRequest)
    requires Inv(w) && Packed(TransferOp(req))
    ensures Inv(Step(w, TransferOp(req)))
  {
    if ExecTransfer(w.ledger, req).1.Ok? {
      AcceptedTransferKeepsInv(w, req);
    } else {
      InsertNullifiersEffect(w.ledger, WalkedNullifiers(req));
      BurntNullifiersKeepLog(w.ledger, ExecTransfer(w.ledger, req).0, w.log);
    }
  }

  /** The invariant holds in every reachable world. */
  lemma {:induction false} RunKeepsInv(depth: nat, maxAnchors: nat, ops: seq<Op>)
    requires AllPacked(ops)
    ensures Inv(Run(depth, maxAnchors, ops))
  {
    if ops == [] {
      GenesisInv(depth, maxAnchors);
    } else {
      var k := |ops| - 1;
      RunKeepsInv(depth, maxAnchors, ops[..k]);
      var w := Run(depth, maxAnchors, ops[..k]);
      match ops[k]
      case ShieldOp(req) => ShieldKeepsInv(w, req);
      case TransferOp(req) => assert Packed(ops[k]); TransferKeepsInv(w, req);
      case UnshieldOp(req) => UnshieldKeepsInv(w, req);
    }
  }

  // ---------------------------------------------------------------------------
  // Main theorems
  // ---------------------------------------------------------------------------

  /**
   No inflation, over every run and for every asset: what was withdrawn plus the value of the
   distinct unspent commitments still in the tree never exceeds what was deposited, also in
   runs with transfers that were refused halfway through their nullifiers.
   */
  lemma {:induction false} NoInflation(depth: nat, maxAnchors: nat, ops: seq<Op>, asset: Fr)
    requires AllPacked(ops)
    ensures var w := Run(depth, maxAnchors, ops);
      Withdrawn(w.log, asset) + UnspentValue(w.ledger, asset) <= Deposited(w.log, asset)
  {
    RunKeepsInv(depth, maxAnchors, ops);
  }

  /** No note is consumed by two accepted spends, nor by two slots of one transfer. */
  lemma {:induction false} SingleSpend(depth: nat, maxAnchors: nat, ops: seq<Op>)
    requires AllPacked(ops)
    ensures var spent := AllSpent(Run(depth, maxAnchors, ops).log);
      forall i, j :: 0 <= i < j < |spent| ==> spent[i].Commitment() != spent[j].Commitment()
  {
    RunKeepsInv(depth, maxAnchors, ops);
    var spent := AllSpent(Run(depth, maxAnchors, ops).log);
    forall i, j | 0 <= i < j < |spent| ensures spent[i].Commitment() != spent[j].Commitment() {
    }
  }

  /** No two outputs of accepted transfers share a nullifier nonce. */
  lemma {:induction false} OutputNoncesNeverRepeat(depth: nat, maxAnchors: nat, ops: seq<Op>)
    requires AllPacked(ops)
    ensures NoDup(OutputNonces(Run(depth, maxAnchors, ops).log))
  {
    RunKeepsInv(depth, maxAnchors, ops);
  }
}
