/** Where the safety results are tight: what a refused transfer burns, and what packing of the slots is for. */
module Exactness {
  import opened Field
  import opened MerkleTree
  import opened Traits
  import opened Proofs
  import opened Value
  import opened Ledger
  import opened Safety

  // ---------------------------------------------------------------------------
  // Refused transfers and where nullifiers come from
  // ---------------------------------------------------------------------------

  /** Every recorded nullifier belongs to a logged spend or is among these. */
  ghost predicate Accounted(w: World, burnt: set<Fr>) {
    forall nf :: nf in w.ledger.nullifiers ==> nf in burnt || BelongsToSpend(nf, w.log)
  }

  ghost predicate BelongsToSpend(nf: Fr, log: seq<Event>) {
    exists n: Note, sk: Fr :: n in AllSpent(log) && OwnedBy(n, sk) && NullifierOf(n, sk) == nf
  }

  /** The first real nullifier of the list, or zero when there is none. */
  function FirstReal(nfs: seq<Fr>): Fr {
    if nfs == [] then ZERO else if nfs[0] != ZERO then nfs[0] else FirstReal(nfs[1..])
  }

  /** The insertion loop goes through exactly when the real nullifiers are distinct and all new. */
  lemma {:induction false} InsertionSucceedsIff(s: LedgerState, nfs: seq<Fr>)
    ensures InsertNullifiers(s, nfs).1 <==> NonZeroDistinct(nfs) && s.nullifiers !! NonZero(nfs)
    decreases |nfs|
  {
    InsertNullifiersEffect(s, nfs);
    if nfs != [] {
      var rest := nfs[1..];
      assert nfs == [nfs[0]] + rest;
      if nfs[0] == ZERO {
        InsertionSucceedsIff(s, rest);
        assert NonZero(nfs) == NonZero(rest);
        assert NonZeroDistinct(nfs) ==> NonZeroDistinct(rest);
      } else {
        assert nfs[0] in NonZero(nfs) && NonZero(nfs) == {nfs[0]} + NonZero(rest);
        if nfs[0] !in s.nullifiers {
          InsertionSucceedsIff(NextTx(s).(nullifiers := s.nullifiers + {nfs[0]}), rest);
          assert NonZeroDistinct(nfs) ==> NonZeroDistinct(rest) && nfs[0] !in NonZero(rest);
        }
      }
    }
  }

  /** A refused insertion leaves the set as it was exactly when its FIRST real nullifier was already there. */
  lemma {:induction false} RefusalCleanIff(s: LedgerState, nfs: seq<Fr>)
    requires !InsertNullifiers(s, nfs).1
    ensures InsertNullifiers(s, nfs).0.nullifiers == s.nullifiers <==> FirstReal(nfs) in s.nullifiers
    decreases |nfs|
  {
    InsertNullifiersEffect(s, nfs);
    if nfs[0] == ZERO {
      RefusalCleanIff(s, nfs[1..]);
    } else if nfs[0] !in s.nullifiers {
      InsertNullifiersEffect(NextTx(s).(nullifiers := s.nullifiers + {nfs[0]}), nfs[1..]);
    }
  }

  /**
   Checked before the call: a transfer whose anchor and proof stand will either go through, or
   meets a recorded nullifier first.
   */
  ghost predicate Clean(s: LedgerState, op: Op) {
    op.TransferOp? && ValidAnchor(s, op.transfer.anchor)
    && Verifies(TransferPublic(TransferPublicOf(op.transfer)), op.transfer.spendProof) ==>
      var nfs := WalkedNullifiers(op.transfer);
      (NonZeroDistinct(nfs) && s.nullifiers !! NonZero(nfs)) || FirstReal(nfs) in s.nullifiers
  }

  /** No refused operation changes the nullifier set: exactly the clean ones. */
  lemma {:induction false} RefusedUnchangedIffClean(s: LedgerState, op: Op)
    ensures (Exec(s, op).1.Err? ==> Exec(s, op).0.nullifiers == s.nullifiers) <==> Clean(s, op)
  {
    hide Verifies, NonZeroDistinct, NonZero, FirstReal;
    if op.TransferOp? {
      var nfs := WalkedNullifiers(op.transfer);
      InsertionSucceedsIff(s, nfs);
      if !InsertNullifiers(s, nfs).1 {
        RefusalCleanIff(s, nfs);
      }
    }
  }

  /** Every operation of the run is clean in the state it meets. */
  ghost predicate Atomic(depth: nat, maxAnchors: nat, ops: seq<Op>) {
    ops != [] ==>
      var k := |ops| - 1;
      Atomic(depth, maxAnchors, ops[..k]) && Clean(Run(depth, maxAnchors, ops[..k]).ledger, ops[k])
  }

  lemma {:induction false} BelongsStays(nf: Fr, log: seq<Event>, e: Event)
    requires BelongsToSpend(nf, log)
    ensures BelongsToSpend(nf, log + [e])
  {
    LogStep(log, e, ZERO);
    var n: Note, sk: Fr :| n in AllSpent(log) && OwnedBy(n, sk) && NullifierOf(n, sk) == nf;
    assert n in AllSpent(log + [e]);
  }

  lemma {:induction false} BelongsNew(nf: Fr, log: seq<Event>, e: Event, n: Note, sk: Fr)
    requires n in SpentBy(e) && OwnedBy(n, sk) && NullifierOf(n, sk) == nf
    ensures BelongsToSpend(nf, log + [e])
  {
    LogStep(log, e, ZERO);
    assert n in AllSpent(log + [e]);
  }

  lemma {:induction false} TransferProvenance(w: World, burnt: set<Fr>, req: TransferRequest)
    requires StateSound(w.ledger) && Accounted(w, burnt) && ExecTransfer(w.ledger, req).1.Ok?
    ensures Accounted(Step(w, TransferOp(req)), burnt)
  {
    hide IsSpent, OnlyNoteLeaves, AnchorsKnown, Verifies, BelongsToSpend, OwnedBy, NullifierOf, SeqValue, NoDup;
    var s, w' := w.ledger, Step(w, TransferOp(req));
    var nfs := WalkedNullifiers(req);
    InsertNullifiersEffect(s, nfs);
    EstablishTransferFacts(s, req);
    var priv := req.spendProof.private.transfer;
    var e := EventOf(s, TransferOp(req));
    forall nf | nf in w'.ledger.nullifiers && nf !in burnt ensures BelongsToSpend(nf, w'.log) {
      if nf in s.nullifiers {
        BelongsStays(nf, w.log, e);
      } else {
        var i :| 0 <= i < |nfs| && nfs[i] == nf && nf != ZERO;
        assert SlotNullifier(req.nullifiers, priv.inputs[i], i);
        EnabledMeansSpent(priv.inputs, i);
        BelongsNew(nf, w.log, e, priv.inputs[i].note, priv.inputs[i].spendingKey);
      }
    }
  }

  lemma {:induction false} UnshieldProvenance(w: World, burnt: set<Fr>, req: UnshieldRequest)
    requires Accounted(w, burnt) && ExecUnshield(w.ledger, req).1.Ok?
    ensures Accounted(Step(w, UnshieldOp(req)), burnt)
  {
    hide OwnedBy, NullifierOf, BelongsToSpend, UnspentNotes, OnlyNoteLeaves;
    var s, w' := w.ledger, Step(w, UnshieldOp(req));
    AcceptedUnshield(UnshieldPublicOf(req), req.spendProof);
    var priv := req.spendProof.private.unshield;
    var e := EventOf(s, UnshieldOp(req));
    forall nf | nf in w'.ledger.nullifiers && nf !in burnt ensures BelongsToSpend(nf, w'.log) {
      if nf in s.nullifiers {
        BelongsStays(nf, w.log, e);
      } else {
        BelongsNew(nf, w.log, e, priv.note, priv.spendingKey);
      }
    }
  }

  /** Nullifiers that refused operations added. */
  ghost function Burnt(depth: nat, maxAnchors: nat, ops: seq<Op>): set<Fr> {
    if ops == [] then {}
    else
      var k := |ops| - 1;
      var s := Run(depth, maxAnchors, ops[..k]).ledger;
      Burnt(depth, maxAnchors, ops[..k])
      + (if Exec(s, ops[k]).1.Err? then Exec(s, ops[k]).0.nullifiers - s.nullifiers else {})
  }

  lemma {:induction false} BurntNothingIffAtomic(depth: nat, maxAnchors: nat, ops: seq<Op>)
    ensures Burnt(depth, maxAnchors, ops) == {} <==> Atomic(depth, maxAnchors, ops)
  {
    hide Clean, Exec, Run;
    if ops != [] {
      var k := |ops| - 1;
      var s := Run(depth, maxAnchors, ops[..k]).ledger;
      BurntNothingIffAtomic(depth, maxAnchors, ops[..k]);
      RefusedUnchangedIffClean(s, ops[k]);
      NullifiersGrow(s, ops[k]);
      var t := Exec(s, ops[k]).0;
      assert t.nullifiers == s.nullifiers + (t.nullifiers - s.nullifiers);
    }
  }

  lemma {:induction false} NullifiersGrow(s: LedgerState, op: Op)
    ensures s.nullifiers <= Exec(s, op).0.nullifiers
  {
    hide Verifies, InsertNullifiers, InsertOutputs;
    if op.TransferOp? {
      InsertNullifiersEffect(s, WalkedNullifiers(op.transfer));
    }
  }

  /** On every run a recorded nullifier belongs to a logged spend or was burnt by a refused transfer. */
  lemma {:induction false} RunProvenance(depth: nat, maxAnchors: nat, ops: seq<Op>)
    ensures Accounted(Run(depth, maxAnchors, ops), Burnt(depth, maxAnchors, ops))
  {
    if ops != [] {
      hide Exec, EventOf, StateSound, BelongsToSpend, Accounted;
      var k := |ops| - 1;
      var w, op, burnt := Run(depth, maxAnchors, ops[..k]), ops[k], Burnt(depth, maxAnchors, ops[..k]);
      RunProvenance(depth, maxAnchors, ops[..k]);
      RunIsSound(depth, maxAnchors, ops[..k]);
      StepProvenance(w, burnt, op);
    }
  }

  lemma {:induction false} StepProvenance(w: World, burnt: set<Fr>, op: Op)
    requires StateSound(w.ledger) && Accounted(w, burnt)
    ensures var (t, r) := Exec(w.ledger, op);
            Accounted(Step(w, op), burnt + (if r.Err? then t.nullifiers - w.ledger.nullifiers else {}))
  {
    hide StateSound, BelongsToSpend, ExecTransfer, ExecUnshield, Verifies;
    if Exec(w.ledger, op).1.Ok? {
      assert burnt + {} == burnt;
      match op {
        case ShieldOp(req) =>
          forall nf | nf in w.ledger.nullifiers && nf !in burnt ensures BelongsToSpend(nf, Step(w, op).log) {
            BelongsStays(nf, w.log, EventOf(w.ledger, op));
          }
        case TransferOp(req) => TransferProvenance(w, burnt, req);
        case UnshieldOp(req) => UnshieldProvenance(w, burnt, req);
      }
    }
  }

  lemma {:induction false} SeqValueConcat(a: seq<Note>, b: seq<Note>, asset: Fr)
    ensures SeqValue(a + b, asset) == SeqValue(a, asset) + SeqValue(b, asset)
  {
    if b == [] {
      assert a + b == a;
    } else {
      var k := |b| - 1;
      SeqValueConcat(a, b[..k], asset);
      assert (a + b)[..|a + b| - 1] == a + b[..k];
    }
  }

  /** One event moves created minus spent exactly as it moves deposited minus withdrawn. */
  lemma {:induction false} EventBalance(e: Event, nullifiers: set<Fr>, asset: Fr)
    requires EventSound(e, nullifiers)
    ensures SeqValue(CreatedBy(e), asset) + (if e.Unshielded? then Moved(e, asset) else 0)
         == SeqValue(SpentBy(e), asset) + (if e.Shielded? then Moved(e, asset) else 0)
  {
    hide IsSpent, TxBindingTransfer, DeriveOutputNonce, NoDup;
    EventValue(e, nullifiers, asset);
  }

  /** Over a log of balanced transfers, created minus spent is deposited minus withdrawn. */
  lemma {:induction false} LogBalance(log: seq<Event>, nullifiers: set<Fr>, asset: Fr)
    requires forall k :: 0 <= k < |log| ==> EventSound(log[k], nullifiers)
    ensures SeqValue(AllCreated(log), asset) + Withdrawn(log, asset)
            == SeqValue(AllSpent(log), asset) + Deposited(log, asset)
  {
    hide EventSound;
    if log != [] {
      var k := |log| - 1;
      LogBalance(log[..k], nullifiers, asset);
      SeqValueConcat(AllCreated(log[..k]), CreatedBy(log[k]), asset);
      SeqValueConcat(AllSpent(log[..k]), SpentBy(log[k]), asset);
      EventBalance(log[k], nullifiers, asset);
    }
  }

  lemma {:induction false} SameNonceSameNote(notes: seq<Note>, a: Note, b: Note)
    requires NoDup(Nonces(notes)) && a in notes && b in notes && a.nullifierNonce == b.nullifierNonce
    ensures a == b
  {
    var i :| 0 <= i < |notes| && notes[i] == a;
    var j :| 0 <= j < |notes| && notes[j] == b;
    assert Nonces(notes)[i] == Nonces(notes)[j];
  }

  lemma {:induction false} DistinctNoncesDistinctNotes(notes: seq<Note>)
    requires NoDup(Nonces(notes))
    ensures NoDup(notes)
  {
    forall i, j | 0 <= i < j < |notes| ensures notes[i] != notes[j] {
      assert Nonces(notes)[i] != Nonces(notes)[j];
    }
  }

  /** Nonces of deposited notes, which the depositor picks. */
  function DepositNonces(log: seq<Event>): seq<Fr> {
    if log == [] then []
    else
      var e := log[|log| - 1];
      DepositNonces(log[..|log| - 1]) + (if e.Shielded? then [e.note.nullifierNonce] else [])
  }

  /** Deposits use distinct nonces, and none that a transfer derived. */
  predicate DepositNoncesApart(log: seq<Event>) {
    NoDup(DepositNonces(log)) && forall x :: x in DepositNonces(log) ==> x !in OutputNonces(log)
  }

  lemma {:induction false} NoncesConcat(a: seq<Note>, b: seq<Note>)
    ensures Nonces(a + b) == Nonces(a) + Nonces(b)
  {
  }

  lemma {:induction false} CreatedNonceMultiset(log: seq<Event>)
    ensures multiset(Nonces(AllCreated(log))) == multiset(OutputNonces(log)) + multiset(DepositNonces(log))
  {
    if log != [] {
      var k := |log| - 1;
      CreatedNonceMultiset(log[..k]);
      NoncesConcat(AllCreated(log[..k]), CreatedBy(log[k]));
      if log[k].Shielded? {
        assert Nonces([log[k].note]) == [log[k].note.nullifierNonce];
      }
    }
  }

  /** Among all created notes nonces are distinct exactly when the deposits keep theirs apart. */
  lemma {:induction false} CreatedNoncesApartIff(log: seq<Event>)
    requires NoDup(OutputNonces(log))
    ensures NoDup(Nonces(AllCreated(log))) <==> DepositNoncesApart(log)
  {
    hide OutputNonces, DepositNonces, AllCreated, Nonces;
    CreatedNonceMultiset(log);
    var all, outs, deps := Nonces(AllCreated(log)), OutputNonces(log), DepositNonces(log);
    assert multiset(all) == multiset(outs) + multiset(deps);
    NoDupIffCounts(all);
    NoDupIffCounts(outs);
    NoDupIffCounts(deps);
    forall x: Fr ensures multiset(all)[x] == multiset(outs)[x] + multiset(deps)[x] {
    }
    if NoDup(all) {
      forall x | x in deps ensures x !in outs {
        assert multiset(all)[x] <= 1;
      }
    } else {
      var x: Fr :| multiset(all)[x] > 1;
      if NoDup(deps) {
        assert multiset(outs)[x] == 1 && multiset(deps)[x] == 1;
        assert x in deps && x in outs;
      }
    }
  }

  lemma {:induction false} NoDupIffCounts<T>(xs: seq<T>)
    ensures NoDup(xs) <==> forall x: T :: multiset(xs)[x] <= 1
  {
    if xs != [] {
      var k := |xs| - 1;
      var front, last := xs[..k], xs[k];
      assert xs == front + [last];
      NoDupIffCounts(front);
      assert multiset(xs) == multiset(front) + multiset{last};
      if NoDup(xs) {
        assert last !in front;
        assert multiset(front)[last] == 0;
      } else if NoDup(front) {
        assert last in front;
        assert multiset(xs)[last] > 1;
      } else {
        var x: T :| multiset(front)[x] > 1;
        assert multiset(xs)[x] > 1;
      }
    }
  }

  // ---------------------------------------------------------------------------
  // Packed slots
  // ---------------------------------------------------------------------------

  /** A transfer that goes through records exactly the non-zero nullifiers of the walked prefix. */
  lemma {:induction false} TransferRecords(s: LedgerState, req: TransferRequest)
    requires ExecTransfer(s, req).1.Ok?
    ensures ExecTransfer(s, req).0.nullifiers == s.nullifiers + NonZero(WalkedNullifiers(req))
  {
    InsertNullifiersEffect(s, WalkedNullifiers(req));
  }

  /**
   What packing is for, with no assumption on the request: an accepted transfer reveals distinct
   nullifiers, all of them new, and records every one, exactly when its slots are packed.
   */
  lemma {:induction false} AllRecordedIffPacked(s: LedgerState, req: TransferRequest)
    requires ExecTransfer(s, req).1.Ok?
    ensures (NonZeroDistinct(req.nullifiers) && s.nullifiers !! NonZero(req.nullifiers)
             && NonZero(req.nullifiers) <= ExecTransfer(s, req).0.nullifiers) <==> Packed(TransferOp(req))
  {
    hide Verifies;
    var nfs := WalkedNullifiers(req);
    TransferRecords(s, req);
    InsertNullifiersEffect(s, nfs);
    if Packed(TransferOp(req)) {
      PackedRevealsWalked(req);
    } else {
      var i :| req.inputCount <= i < MAX_INPUTS && req.nullifiers[i] != ZERO;
      assert req.nullifiers[i] in NonZero(req.nullifiers);
      assert forall k :: 0 <= k < |nfs| ==> nfs[k] == req.nullifiers[k];
    }
  }

  lemma {:induction false} PackedRevealsWalked(req: TransferRequest)
    requires Packed(TransferOp(req)) && NonZeroDistinct(WalkedNullifiers(req))
    ensures NonZero(req.nullifiers) == NonZero(WalkedNullifiers(req)) && NonZeroDistinct(req.nullifiers)
  {
    var nfs := WalkedNullifiers(req);
    assert forall k :: 0 <= k < |nfs| ==> nfs[k] == req.nullifiers[k];
    forall nf | nf in NonZero(req.nullifiers) ensures nf in NonZero(nfs) {
      var i :| 0 <= i < MAX_INPUTS && req.nullifiers[i] == nf;
      assert nfs[i] == nf;
    }
  }
}
