/**
 LocalSync mode: the on-chain program and the client's mirror store, step by step
 (programs/solana-masp/src/instructions.rs and client/src/backends/solana.rs). Roots,
 commitments and nullifiers travel as field elements; each instruction is one atomic step.
 */
module LocalSync {
  import opened Words
  import opened Field
  import opened MerkleTree
  import opened Traits
  import opened Store
  import opened TreeStates
  import opened Value
  import opened LocalModel

  datatype ProgramError =
    | MissingSignature
    | WrongAccount
    | AlreadyInitialized
    | Paused
    | WrongCircuit
    | BadAnchor
    | BadProof
    | NullifierAlreadySpent
    | Overflow
    | InvalidAuthority
    | StateInconsistency
    | Aborted

  /** The parts of an instruction that are not its payload: who signed, which accounts, which buffer. */
  datatype Call = Call(signed: bool, stateAccount: bool, circuitType: byte)

  const SHIELD: byte := 0
  const TRANSFER: byte := 1
  const UNSHIELD: byte := 2

  /** The on-chain program: tree state plus the nullifier accounts that exist. */
  class Program {
    const tree: TreeState<Fr>
    var nullifierAccounts: set<Fr>
    var created: bool

    ghost predicate Valid()
      reads this, tree, tree.anchorHistory
    {
      tree.Valid() && tree.zero == ZERO
          && (!created ==> tree.leafCount == 0 && tree.roots == [ZERO] && nullifierAccounts == {})
    }

    /** Deployed, with no tree state account yet. */
    constructor ()
      ensures Valid() && !created && fresh(tree) && fresh(tree.anchorHistory)
    {
      tree := new TreeState<Fr>(ZERO, 0);
      nullifierAccounts, created := {}, false;
    }

    /** The first signer creates the empty tree state and becomes its authority. */
    method ProcessInitialize(call: Call, signer: nat) returns (r: Result<(), ProgramError>)
      requires Valid()
      modifies `created, tree`authority
      ensures Valid()
      ensures r.Ok? <==> call.signed && call.stateAccount && !old(created)
      ensures created == (old(created) || r.Ok?) && tree.authority == if r.Ok? then signer else old(tree.authority)
      ensures r == Err(MissingSignature) <==> !call.signed
      ensures r == Err(WrongAccount) <==> call.signed && !call.stateAccount
      ensures r == Err(AlreadyInitialized) <==> call.signed && call.stateAccount && old(created)
    {
      if !call.signed {
        return Err(MissingSignature);
      }
      if !call.stateAccount {
        return Err(WrongAccount);
      }
      if created {
        return Err(AlreadyInitialized);
      }
      created, tree.authority := true, signer;
      return Ok(());
    }

    /** What a proof-carrying call must bring: a signature, the state account, and a buffer of its circuit. */
    predicate Takes(call: Call, circuit: byte)
      reads this, tree
    {
      call.signed && call.stateAccount && created && !tree.paused && call.circuitType == circuit
    }

    /** The checks every proof-carrying handler starts with, in their order. */
    method CheckCall(call: Call, circuit: byte) returns (r: Result<(), ProgramError>)
      ensures r.Ok? <==> Takes(call, circuit)
      ensures r == Err(MissingSignature) <==> !call.signed
      ensures r == Err(WrongAccount) <==> call.signed && !(call.stateAccount && created)
      ensures r == Err(Paused) <==> call.signed && call.stateAccount && created && tree.paused
      ensures r == Err(WrongCircuit) <==>
        call.signed && call.stateAccount && created && !tree.paused && call.circuitType != circuit
    {
      if !call.signed {
        return Err(MissingSignature);
      }
      if !call.stateAccount || !created {
        return Err(WrongAccount);
      }
      if tree.paused {
        return Err(Paused);
      }
      if call.circuitType != circuit {
        return Err(WrongCircuit);
      }
      return Ok(());
    }

    method ProcessShield(call: Call, commitment: Fr, proofVerifies: bool) returns (r: Result<(), ProgramError>)
      requires Valid()
      modifies tree`leafCount
      ensures Valid()
      ensures r.Ok? <==> Takes(call, SHIELD) && proofVerifies && old(tree.leafCount) + 1 < TWO_64
      ensures tree.leafCount == old(tree.leafCount) + (if r.Ok? then 1 else 0)
      ensures r == Err(MissingSignature) <==> !call.signed
      ensures r == Err(WrongAccount) <==> call.signed && !(call.stateAccount && created)
      ensures r == Err(Paused) <==> call.signed && call.stateAccount && created && tree.paused
      ensures r == Err(WrongCircuit) <==>
        call.signed && call.stateAccount && created && !tree.paused && call.circuitType != 0
      ensures r == Err(BadProof) <==>
        call.signed && call.stateAccount && created && !tree.paused && call.circuitType == 0 && !proofVerifies
      ensures r == Err(Overflow) <==>
        call.signed && call.stateAccount && created && !tree.paused && call.circuitType == 0
        && proofVerifies && old(tree.leafCount) + 1 == TWO_64
    {
      r := CheckCall(call, SHIELD);
      if r.Err? {
        return;
      }
      if !proofVerifies {
        return Err(BadProof);
      }
      var count := tree.IncrementLeafCount();
      if count.Err? {
        return Err(Overflow);
      }
      return Ok(());
    }

    /** Account by account; the first existing one aborts the transaction. */
    method CreateNullifierAccounts(nullifiers: seq<Fr>) returns (ok: bool, accounts: set<Fr>)
      ensures ok <==> FreshDistinct(nullifiers, nullifierAccounts)
      ensures ok ==> accounts == nullifierAccounts + NonZero(nullifiers)
    {
      accounts := nullifierAccounts;
      var i := 0;
      while i < |nullifiers|
        invariant i <= |nullifiers|
        invariant accounts == nullifierAccounts + NonZero(nullifiers[..i])
        invariant FreshDistinct(nullifiers[..i], nullifierAccounts)
      {
        var nf := nullifiers[i];
        var before, upto := nullifiers[..i], nullifiers[..i + 1];
        assert upto == before + [nf] && upto[..i] == before;
        if nf != ZERO {
          if nf in accounts {
            return false, accounts;
          }
          accounts := accounts + {nf};
          assert NonZero(upto) == NonZero(before) + {nf};
        } else {
          assert NonZero(upto) == NonZero(before);
        }
        assert FreshDistinct(upto, nullifierAccounts) by {
          forall k | 0 <= k < i + 1 && upto[k] != ZERO ensures upto[k] !in nullifierAccounts && upto[k] !in upto[..k] {
            if k < i {
              assert upto[k] == before[k] && upto[..k] == before[..k];
            }
          }
        }
        i := i + 1;
      }
      assert nullifiers[..|nullifiers|] == nullifiers;
      ok := true;
    }

    /** One count per real commitment, up to the 64-bit limit. */
    method CountOutputs(outputs: seq<Fr>) returns (ok: bool, count: nat)
      ensures ok <==> tree.leafCount + NonZeroCount(outputs) < TWO_64
      ensures ok ==> count == tree.leafCount + NonZeroCount(outputs)
    {
      count := tree.leafCount;
      var j := 0;
      while j < |outputs|
        invariant j <= |outputs| && count < TWO_64
        invariant count == tree.leafCount + NonZeroCount(outputs[..j])
      {
        assert outputs[..j + 1][..j] == outputs[..j];
        if outputs[j] != ZERO {
          if count + 1 == TWO_64 {
            NonZeroCountGrows(outputs, j + 1);
            return false, count;
          }
          count := count + 1;
        }
        j := j + 1;
      }
      assert outputs[..|outputs|] == outputs;
      ok := true;
    }

    /** Nullifier accounts first, then one count per non-zero enabled output; nothing changes on failure. */
    method ProcessTransfer(call: Call, anchor: Fr, nullifiers: seq<Fr>, inputCount: nat, outputs: seq<Fr>,
            outputCount: nat, proofVerifies: bool) returns (r: Result<(), ProgramError>)
      requires Valid()
      modifies tree`leafCount, `nullifierAccounts
      ensures Valid()
      ensures r.Ok? <==>
        && Takes(call, TRANSFER) && anchor in Window(tree.zero, tree.roots) && proofVerifies
        && inputCount <= |nullifiers| && outputCount <= |outputs|
        && FreshDistinct(nullifiers[..inputCount], old(nullifierAccounts))
        && old(tree.leafCount) + NonZeroCount(outputs[..outputCount]) < TWO_64
      ensures r.Err? ==> tree.leafCount == old(tree.leafCount) && nullifierAccounts == old(nullifierAccounts)
      ensures r.Ok? ==>
        && tree.leafCount == old(tree.leafCount) + NonZeroCount(outputs[..outputCount])
        && nullifierAccounts == old(nullifierAccounts) + NonZero(nullifiers[..inputCount])
      ensures r == Err(MissingSignature) <==> !call.signed
      ensures r == Err(WrongAccount) <==> call.signed && !(call.stateAccount && created)
      ensures r == Err(Paused) <==> call.signed && call.stateAccount && created && tree.paused
      ensures r == Err(WrongCircuit) <==>
        call.signed && call.stateAccount && created && !tree.paused && call.circuitType != 1
      ensures var passed := call.signed && call.stateAccount && created && !tree.paused && call.circuitType == 1;
              var anchored := passed && anchor in Window(tree.zero, tree.roots);
              var proven := anchored && proofVerifies;
              var counted := proven && inputCount <= |nullifiers| && outputCount <= |outputs|;
              var unspent := counted && FreshDistinct(nullifiers[..inputCount], old(nullifierAccounts));
        && (r == Err(BadAnchor) <==> passed && !anchored)
        && (r == Err(BadProof) <==> anchored && !proven)
        && (r == Err(Aborted) <==> proven && !counted)
        && (r == Err(NullifierAlreadySpent) <==> counted && !unspent)
        && (r == Err(Overflow) <==> unspent && old(tree.leafCount) + NonZeroCount(outputs[..outputCount]) >= TWO_64)
    {
      r := CheckCall(call, TRANSFER);
      if r.Err? {
        return;
      }
      var known := tree.IsValidAnchor(anchor);
      if !known {
        return Err(BadAnchor);
      }
      if !proofVerifies {
        return Err(BadProof);
      }
      if inputCount > |nullifiers| || outputCount > |outputs| {
        return Err(Aborted);
      }
      var allNew, accounts := CreateNullifierAccounts(nullifiers[..inputCount]);
      if !allNew {
        return Err(NullifierAlreadySpent);
      }
      var fits, count := CountOutputs(outputs[..outputCount]);
      if !fits {
        return Err(Overflow);
      }
      tree.leafCount := count;
      nullifierAccounts := accounts;
      return Ok(());
    }

    method ProcessUnshield(call: Call, anchor: Fr, nullifier: Fr,
            proofVerifies: bool) returns (r: Result<(), ProgramError>)
      requires Valid()
      modifies `nullifierAccounts
      ensures Valid()
      ensures r.Ok? <==>
        && Takes(call, UNSHIELD) && anchor in Window(tree.zero, tree.roots) && proofVerifies
        && nullifier !in old(nullifierAccounts)
      ensures nullifierAccounts == old(nullifierAccounts) + (if r.Ok? then {nullifier} else {})
      ensures r == Err(MissingSignature) <==> !call.signed
      ensures r == Err(WrongAccount) <==> call.signed && !(call.stateAccount && created)
      ensures r == Err(Paused) <==> call.signed && call.stateAccount && created && tree.paused
      ensures r == Err(WrongCircuit) <==>
        call.signed && call.stateAccount && created && !tree.paused && call.circuitType != 2
      ensures var passed := call.signed && call.stateAccount && created && !tree.paused && call.circuitType == 2;
              var anchored := passed && anchor in Window(tree.zero, tree.roots);
        && (r == Err(BadAnchor) <==> passed && !anchored)
        && (r == Err(BadProof) <==> anchored && !proofVerifies)
        && (r == Err(NullifierAlreadySpent) <==> anchored && proofVerifies && nullifier in old(nullifierAccounts))
    {
      r := CheckCall(call, UNSHIELD);
      if r.Err? {
        return;
      }
      var known := tree.IsValidAnchor(anchor);
      if !known {
        return Err(BadAnchor);
      }
      if !proofVerifies {
        return Err(BadProof);
      }
      if nullifier in nullifierAccounts {
        return Err(NullifierAlreadySpent);
      }
      nullifierAccounts := nullifierAccounts + {nullifier};
      return Ok(());
    }

    /** A root is taken over only from the authority, and only when the leaf counts agree. */
    method ProcessUpdateRoot(call: Call, signer: nat, newRoot: Fr,
            expectedLeafCount: nat) returns (r: Result<(), ProgramError>)
      requires Valid()
      modifies tree`currentRoot, tree`anchorHistoryIndex, tree`roots, tree.anchorHistory
      ensures Valid()
      ensures r.Ok? <==>
        && call.signed && call.stateAccount && created
        && signer == tree.authority && expectedLeafCount == tree.leafCount
      ensures tree.roots == old(tree.roots) + (if r.Ok? then [newRoot] else [])
      ensures r == Err(MissingSignature) <==> !call.signed
      ensures r == Err(WrongAccount) <==> call.signed && !(call.stateAccount && created)
      ensures r == Err(InvalidAuthority) <==>
        call.signed && call.stateAccount && created && signer != tree.authority
      ensures r == Err(StateInconsistency) <==>
        call.signed && call.stateAccount && created && signer == tree.authority && expectedLeafCount != tree.leafCount
    {
      if !call.signed {
        return Err(MissingSignature);
      }
      if !call.stateAccount || !created {
        return Err(WrongAccount);
      }
      if signer != tree.authority {
        return Err(InvalidAuthority);
      }
      if expectedLeafCount != tree.leafCount {
        return Err(StateInconsistency);
      }
      tree.UpdateRoot(newRoot);
      return Ok(());
    }
  }

  /** The backend always signs and names the right accounts. */
  function Own(circuit: byte): Call { Call(true, true, circuit) }

  /** The client backend with a local mirror of the commitment tree. */
  class SolanaChain {
    const program: Program
    const store: MockStore
    const payer: nat
    var initialized: bool

    ghost predicate Valid()
      reads this, program, program.tree, program.tree.anchorHistory, store
    {
      program.Valid() && store.Valid()
    }

    /** Leaf counts on chain and in the mirror agree. */
    ghost predicate InStep()
      reads program, program.tree, store
    {
      program.tree.leafCount == store.leafCount
    }

    /** The value of the whole pair. */
    ghost function State(): Pair
      reads this, program, program.tree, store
    {
      Pair(program.created, program.tree.paused, program.tree.authority, program.tree.leafCount, program.tree.roots,
           program.nullifierAccounts, initialized, store.State())
    }

    /** The mirror's root is the on-chain root, so witnesses taken now carry an accepted anchor. */
    ghost predicate RootsAgree()
      reads program, program.tree, store
      requires program.tree.roots != []
    {
      var root := store.State().Root();
      program.tree.currentRoot == root && root in Window(program.tree.zero, program.tree.roots)
    }

    constructor (program: Program, store: MockStore, payer: nat)
      requires program.Valid() && store.Valid()
      ensures Valid() && this.program == program && this.store == store && this.payer == payer && !initialized
    {
      this.program, this.store, this.payer, initialized := program, store, payer, false;
    }

    /**
     First contact: the mirror catches up with the count of a program that is set up, and a program
     that is not gets its empty tree state with this payer as authority. Later calls do nothing.
     */
    method EnsureInitialized() returns (r: Result<(), ProgramError>)
      requires Valid()
      modifies `initialized, store, program`created, program.tree`authority
      ensures Valid() && r.Ok? && initialized
      ensures State() == Connected(old(State()), payer)
      ensures old(initialized) ==>
        store.State() == old(store.State()) && program.created == old(program.created)
        && program.tree.authority == old(program.tree.authority)
      ensures !old(initialized) && old(program.created) ==>
        && (InStep() <==> old(store.leafCount) <= program.tree.leafCount)
        && program.tree.authority == old(program.tree.authority)
      ensures !old(initialized) && !old(program.created) ==>
        program.created && program.tree.authority == payer && store.State() == old(store.State())
        && (InStep() <==> store.leafCount == 0)
    {
      if initialized {
        return Ok(());
      }
      if program.created {
        initialized := true;
        store.SyncLeafCount(program.tree.leafCount);
        return Ok(());
      }
      r := program.ProcessInitialize(Own(SHIELD), payer);
      if r.Ok? {
        initialized := true;
      }
    }

    /** Push the mirror's root; the program checks the mirror's leaf count against its own. */
    method SyncRootToChain() returns (r: Result<(), ProgramError>)
      requires Valid()
      modifies program.tree`currentRoot, program.tree`anchorHistoryIndex, program.tree`roots, program.tree.anchorHistory
      ensures Valid()
      ensures r.Ok? <==> program.created && payer == program.tree.authority && InStep()
      ensures r.Ok? ==> RootsAgree() && program.tree.roots == old(program.tree.roots) + [store.State().Root()]
      ensures r.Err? ==> program.tree.roots == old(program.tree.roots)
      ensures State() == Pushed(old(State()), payer)
    {
      var newRoot := store.CurrentRoot();
      r := program.ProcessUpdateRoot(Own(SHIELD), payer, newRoot, store.leafCount);
      if r.Ok? {
        NewestInWindow(program.tree.zero, program.tree.roots);
      }
    }

    /**
     Program step, mirror insert, root push. In step before means in step after; once the program
     has accepted, the push goes through exactly for the authority of a pair in step.
     */
    method Shield(commitment: Fr, data: Option<OutputCiphertextData>, tx: TxSig, proofVerifies: bool)
      returns (accepted: bool, r: Result<(), ProgramError>)
      requires Valid()
      modifies program.tree`leafCount, program.tree`currentRoot, program.tree`anchorHistoryIndex, program.tree`roots,
               program.tree.anchorHistory, store
      ensures Valid() && (InStep() <==> old(InStep()))
      ensures accepted <==>
        program.Takes(Own(SHIELD), SHIELD) && proofVerifies && old(program.tree.leafCount) + 1 < TWO_64
      ensures r.Ok? <==> accepted && payer == program.tree.authority && InStep()
      ensures r.Ok? ==> RootsAgree()
      ensures store.State()
           == if accepted then OutputInserted(old(store.State()), commitment, tx, data) else old(store.State())
      ensures r.Err? ==> program.tree.roots == old(program.tree.roots)
      ensures State() == Operated(old(State()), payer, ShieldCall(commitment, data, tx, proofVerifies))
    {
      hide Node, Window, OutputInserted;
      InsertCounts(store.State(), commitment, tx, data);
      r := program.ProcessShield(Own(SHIELD), commitment, proofVerifies);
      accepted := r.Ok?;
      if accepted {
        var leafIndex := store.InsertOutput(commitment, tx, data);
        r := SyncRootToChain();
      }
    }

    /** The mirror inserts every enabled output, zero commitments included. */
    method MirrorOutputs(outputs: seq<TransferOutput>, tx: TxSig)
      requires store.Valid()
      modifies store
      ensures store.Valid() && store.State() == Mirrored(old(store.State()), outputs, tx)
    {
      var i := 0;
      while i < |outputs|
        invariant i <= |outputs| && store.Valid() && store.State() == Mirrored(old(store.State()), outputs[..i], tx)
      {
        assert outputs[..i + 1][..i] == outputs[..i];
        var data := AttachedCiphertext(outputs[i].ciphertext, outputs[i].ephemeralKey);
        var leafIndex := store.InsertOutput(outputs[i].commitment, tx, data);
        i := i + 1;
      }
      assert outputs[..|outputs|] == outputs;
    }

    /** Every walked nullifier is marked, zeros included; one that is known already is passed over. */
    method MirrorNullifiers(nullifiers: seq<Fr>)
      requires store.Valid()
      modifies store
      ensures store.Valid()
      ensures store.State() == old(store.State()).(nullifiers := old(store.nullifiers) + Elements(nullifiers))
    {
      var i := 0;
      while i < |nullifiers|
        invariant i <= |nullifiers| && store.Valid()
        invariant store.State() == old(store.State()).(nullifiers := old(store.nullifiers) + Elements(nullifiers[..i]))
      {
        var known := store.InsertNullifier(nullifiers[i]);
        assert Elements(nullifiers[..i + 1]) == Elements(nullifiers[..i]) + {nullifiers[i]};
        i := i + 1;
      }
      assert nullifiers[..|nullifiers|] == nullifiers;
    }

    /**
     Once the program has accepted a transfer, a pair that was in step stays in step exactly when
     every enabled output is non-zero; otherwise the mirror runs ahead and the guard refuses.
     */
    method Transfer(anchor: Fr, nullifiers: Fr3, inputCount: nat, outputs: TransferOutputs3, outputCount: nat,
                    tx: TxSig, proofVerifies: bool) returns (accepted: bool, r: Result<(), ProgramError>)
      requires Valid()
      modifies program`nullifierAccounts, program.tree`leafCount, program.tree`currentRoot,
               program.tree`anchorHistoryIndex, program.tree`roots, program.tree.anchorHistory, store
      ensures Valid()
      ensures !accepted ==> r.Err? && (InStep() <==> old(InStep())) && store.State() == old(store.State())
      ensures accepted <==>
        && program.Takes(Own(TRANSFER), TRANSFER) && proofVerifies
        && anchor in Window(program.tree.zero, old(program.tree.roots))
        && inputCount <= MAX_INPUTS && outputCount <= MAX_OUTPUTS
        && FreshDistinct(nullifiers[..inputCount], old(program.nullifierAccounts))
        && old(program.tree.leafCount) + NonZeroCount(Commitments(outputs)[..outputCount]) < TWO_64
      ensures accepted && old(InStep()) ==>
        (InStep() <==> forall j :: 0 <= j < outputCount && j < MAX_OUTPUTS ==> outputs[j].commitment != ZERO)
      ensures accepted ==> (r.Ok? <==> payer == program.tree.authority && InStep())
      ensures r.Ok? ==> RootsAgree()
      ensures accepted ==>
        program.nullifierAccounts == old(program.nullifierAccounts) + NonZero(nullifiers[..inputCount])
      ensures accepted ==> store.State() == Mirrored(
        old(store.State()).(nullifiers := old(store.nullifiers) + Elements(nullifiers[..inputCount])),
            outputs[..outputCount], tx)
      ensures State() == Operated(old(State()), payer,
        TransferCall(anchor, nullifiers, inputCount, outputs, outputCount, tx, proofVerifies))
    {
      hide FreshDistinct, Mirrored, NonZeroCount, NonZero, Elements, Window, Node;
      ghost var before := State();
      ghost var call := TransferCall(anchor, nullifiers, inputCount, outputs, outputCount, tx, proofVerifies);
      TransferLeavesStep(before, call);
      r := TransferAndMirror(anchor, nullifiers, inputCount, outputs, outputCount, tx, proofVerifies);
      accepted := r.Ok?;
      if accepted {
        r := SyncRootToChain();
      }
    }

    /** The program's part and the mirror's part of a transfer. */
    method TransferAndMirror(anchor: Fr, nullifiers: Fr3, inputCount: nat, outputs: TransferOutputs3, outputCount: nat,
                             tx: TxSig, proofVerifies: bool) returns (r: Result<(), ProgramError>)
      requires Valid()
      modifies program`nullifierAccounts, program.tree`leafCount, store
      ensures Valid()
      ensures var call := TransferCall(anchor, nullifiers, inputCount, outputs, outputCount, tx, proofVerifies);
        && r.Ok? == Taken(old(State()), call)
        && State() == if r.Ok? then Performed(old(State()), call) else old(State())
    {
      hide FreshDistinct, Mirrored, NonZeroCount, NonZero, Elements, Window, Node;
      var commitments := Commitments(outputs);
      r := program.ProcessTransfer(Own(TRANSFER), anchor, nullifiers, inputCount, commitments, outputCount,
          proofVerifies);
      if r.Ok? {
        MirrorNullifiers(nullifiers[..inputCount]);
        MirrorOutputs(outputs[..outputCount], tx);
      }
    }

    /** An unshield touches neither tree. */
    method Unshield(anchor: Fr, nullifier: Fr, proofVerifies: bool) returns (r: Result<(), ProgramError>)
      requires Valid()
      modifies program`nullifierAccounts, store
      ensures Valid() && (InStep() <==> old(InStep())) && (RootsAgree() <==> old(RootsAgree()))
      ensures r.Ok? <==>
        && program.Takes(Own(UNSHIELD), UNSHIELD) && anchor in Window(program.tree.zero, program.tree.roots)
        && proofVerifies && nullifier !in old(program.nullifierAccounts)
      ensures program.nullifierAccounts == old(program.nullifierAccounts) + (if r.Ok? then {nullifier} else {})
      ensures store.State()
              == old(store.State()).(nullifiers := old(store.nullifiers) + (if r.Ok? then {nullifier} else {}))
      ensures State() == Operated(old(State()), payer, UnshieldCall(anchor, nullifier, proofVerifies))
    {
      r := program.ProcessUnshield(Own(UNSHIELD), anchor, nullifier, proofVerifies);
      if r.Ok? {
        var known := store.InsertNullifier(nullifier);
      }
    }

    /** Any operation from its first line on: contact, then the operation itself. */
    method Perform(call: LocalCall) returns (r: Result<(), ProgramError>)
      requires Valid()
      modifies `initialized, store, program`created, program`nullifierAccounts, program.tree`authority,
               program.tree`leafCount, program.tree`currentRoot, program.tree`anchorHistoryIndex, program.tree`roots,
               program.tree.anchorHistory
      ensures Valid() && State() == LocalStep(old(State()), payer, call)
    {
      hide Connected, Operated, Taken, Performed, Pushed, Window, Node;
      r := EnsureInitialized();
      match call {
        case ShieldCall(commitment, data, tx, proofVerifies) =>
          var accepted;
          accepted, r := Shield(commitment, data, tx, proofVerifies);
        case TransferCall(anchor, nullifiers, inputCount, outputs, outputCount, tx, proofVerifies) =>
          var accepted;
          accepted, r := Transfer(anchor, nullifiers, inputCount, outputs, outputCount, tx, proofVerifies);
        case UnshieldCall(anchor, nullifier, proofVerifies) => r := Unshield(anchor, nullifier, proofVerifies);
      }
    }
  }
}
