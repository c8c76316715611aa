/** The chain object of client/src/mock.rs: in-place updates that follow the ledger's steps. */
module MockChains {
  import opened Words
  import opened Field
  import opened Traits
  import opened Store
  import opened Proofs
  import opened Ledger

  class MockChain {
    const noteStore: MockStore
    const maxAnchors: nat
    var nullifierSet: set<Fr>
    var anchorHistory: seq<Fr>
    var txCounter: nat

    ghost predicate Valid()
      reads this, noteStore
    {
      noteStore.Valid()
    }

    ghost function State(): LedgerState
      reads this, noteStore
    {
      LedgerState(noteStore.State(), nullifierSet, anchorHistory, maxAnchors, txCounter)
    }

    constructor (noteStore: MockStore, maxAnchors: nat)
      requires noteStore.Valid()
      ensures Valid() && this.noteStore == noteStore
      ensures State() == LedgerState(noteStore.State(), {}, [noteStore.State().Root()], maxAnchors, 0)
      ensures noteStore.State() == EmptyStore(noteStore.depth) ==> State() == Genesis(noteStore.depth, maxAnchors)
    {
      var initialRoot := noteStore.CurrentRoot();
      this.noteStore := noteStore;
      this.maxAnchors := maxAnchors;
      nullifierSet, anchorHistory, txCounter := {}, [initialRoot], 0;
    }

    method NextTxSig() returns (tx: TxSig)
      modifies `txCounter
      ensures txCounter == old(txCounter) + 1 && tx == MockTx(txCounter)
    {
      txCounter := txCounter + 1;
      tx := MockTx(txCounter);
    }

    method UpdateAnchorHistory()
      requires Valid()
      modifies `anchorHistory
      ensures State() == UpdateAnchors(old(State()))
    {
      var root := noteStore.CurrentRoot();
      if |anchorHistory| == 0 || anchorHistory[|anchorHistory| - 1] != root {
        anchorHistory := anchorHistory + [root];
        if |anchorHistory| > maxAnchors {
          anchorHistory := anchorHistory[1..];
        }
      }
    }

    method IsValidAnchor(anchor: Fr) returns (valid: bool)
      requires Valid()
      ensures valid == ValidAnchor(State(), anchor)
    {
      var current := noteStore.CurrentRoot();
      valid := anchor == current || anchor in anchorHistory;
    }

    /** Refuses a nullifier that is already there; otherwise records it under a new signature. */
    method InsertNullifier(nullifier: Fr) returns (r: Result<TxSig, ChainError>)
      requires Valid()
      modifies `nullifierSet, `txCounter
      ensures old(nullifier in nullifierSet) ==> r == Err(DoubleSpend) && State() == old(State())
      ensures old(nullifier !in nullifierSet) ==>
        State() == NextTx(old(State())).(nullifiers := old(nullifierSet) + {nullifier}) && r == Ok(MockTx(txCounter))
    {
      if nullifier in nullifierSet {
        return Err(DoubleSpend);
      }
      nullifierSet := nullifierSet + {nullifier};
      var tx := NextTxSig();
      r := Ok(tx);
    }

    method Shield(req: ShieldRequest) returns (r: Result<TxSig, ChainError>)
      requires Valid()
      modifies this, noteStore
      ensures Valid()
      ensures (State(), r) == ExecShield(old(State()), req)
    {
      var txSig := NextTxSig();
      var publicInputs := ShieldPublicOf(req);
      if !Verifies(ShieldPublic(publicInputs), req.shieldProof) {
        return Err(InvalidProof);
      }
      var data := AttachedCiphertext(req.ciphertext, req.ephemeralKey);
      var leafIndex := noteStore.InsertOutput(req.commitment, txSig, data);
      UpdateAnchorHistory();
      r := Ok(txSig);
    }

    /** Walks the enabled nullifiers in order; stops at the first double spend, keeping the earlier ones. */
    method SpendAll(nullifiers: seq<Fr>) returns (allNew: bool)
      requires Valid()
      modifies `nullifierSet, `txCounter
      ensures (State(), allNew) == InsertNullifiers(old(State()), nullifiers)
    {
      var i := 0;
      while i < |nullifiers|
        invariant 0 <= i <= |nullifiers| && Valid()
        invariant InsertNullifiers(State(), nullifiers[i..]) == InsertNullifiers(old(State()), nullifiers)
      {
        if nullifiers[i] != ZERO {
          var r := InsertNullifier(nullifiers[i]);
          if r.Err? {
            return false;
          }
        }
        assert nullifiers[i..][1..] == nullifiers[i + 1..];
        i := i + 1;
      }
      return true;
    }

    method InsertAll(outputs: seq<TransferOutput>, txSig: TxSig)
      requires Valid()
      modifies noteStore
      ensures Valid()
      ensures State() == old(State()).(store := InsertOutputs(old(noteStore.State()), outputs, txSig))
    {
      var i := 0;
      while i < |outputs|
        invariant 0 <= i <= |outputs| && Valid()
        invariant InsertOutputs(noteStore.State(), outputs[i..], txSig)
                  == InsertOutputs(old(noteStore.State()), outputs, txSig)
      {
        assert outputs[i..][1..] == outputs[i + 1..];
        if outputs[i].commitment != ZERO {
          var data := AttachedCiphertext(outputs[i].ciphertext, outputs[i].ephemeralKey);
          var leafIndex := noteStore.InsertOutput(outputs[i].commitment, txSig, data);
        }
        i := i + 1;
      }
    }

    method Transfer(req: TransferRequest) returns (r: Result<TxSig, ChainError>)
      requires Valid()
      modifies this, noteStore
      ensures Valid()
      ensures (State(), r) == ExecTransfer(old(State()), req)
    {
      hide Verifies, InsertNullifiers, InsertOutputs, UpdateAnchors, ValidAnchor;
      var known := IsValidAnchor(req.anchor);
      if !known {
        return Err(InvalidAnchor);
      }
      if !Verifies(TransferPublic(TransferPublicOf(req)), req.spendProof) {
        return Err(InvalidProof);
      }
      var allNew := SpendAll(WalkedNullifiers(req));
      if !allNew {
        return Err(DoubleSpend);
      }
      var txSig := NextTxSig();
      InsertAll(req.outputs, txSig);
      UpdateAnchorHistory();
      r := Ok(txSig);
    }

    method Unshield(req: UnshieldRequest) returns (r: Result<TxSig, ChainError>)
      requires Valid()
      modifies this, noteStore
      ensures Valid()
      ensures (State(), r) == ExecUnshield(old(State()), req)
    {
      var known := IsValidAnchor(req.anchor);
      if !known {
        return Err(InvalidAnchor);
      }
      if !Verifies(UnshieldPublic(UnshieldPublicOf(req)), req.spendProof) {
        return Err(InvalidProof);
      }
      r := InsertNullifier(req.nullifier);
    }

    method BatchCheckNullifiers(nullifiers: seq<Fr>) returns (spent: seq<bool>)
      ensures |spent| == |nullifiers|
      ensures forall i :: 0 <= i < |nullifiers| ==> spent[i] == (nullifiers[i] in nullifierSet)
    {
      var known := nullifierSet;
      spent := seq(|nullifiers|, i requires 0 <= i < |nullifiers| => nullifiers[i] in known);
    }
  }
}
