/**
 Conservation as an equation. Every run, packed or not, balances once two things are counted: value
 that a step puts out of reach, and value that it spends without consuming. Both are read off the
 state before the step.
 */
module Conservation {
  import opened Field
  import opened Traits
  import opened Proofs
  import opened Value
  import opened Ledger
  import opened Safety
  import opened Exactness

  // ---------------------------------------------------------------------------
  // Nullifiers an operation records, accepted or not
  // ---------------------------------------------------------------------------

  /** The loop gets past position i: every real nullifier up to it is new and listed once. */
  predicate Reached(known: set<Fr>, nfs: seq<Fr>, i: nat)
    requires i < |nfs|
  {
    forall j :: 0 <= j <= i && nfs[j] != ZERO ==> nfs[j] !in known && nfs[j] !in nfs[..j]
  }

  function GoingIn(known: set<Fr>, nfs: seq<Fr>): set<Fr> {
    set i | 0 <= i < |nfs| && nfs[i] != ZERO && Reached(known, nfs, i) :: nfs[i]
  }

  lemma {:induction false} ReachedHead(known: set<Fr>, nfs: seq<Fr>, i: nat)
    requires i + 1 < |nfs|
    ensures Reached(known, nfs, i + 1) <==>
      if nfs[0] == ZERO then Reached(known, nfs[1..], i)
      else nfs[0] !in known && Reached(known + {nfs[0]}, nfs[1..], i)
  {
    var head, rest, later := nfs[0], nfs[1..], known + {nfs[0]};
    assert forall j :: 0 < j < |nfs| ==> nfs[j] == rest[j - 1] && nfs[..j] == [head] + rest[..j - 1];
    assert forall j :: 0 <= j < |rest| ==> rest[j] == nfs[j + 1];
    if Reached(known, nfs, i + 1) {
      assert nfs[0] != ZERO ==> nfs[0] !in known;
      forall j | 0 <= j <= i && rest[j] != ZERO
        ensures rest[j] !in known && rest[j] != head && rest[j] !in rest[..j]
      {
        assert nfs[j + 1] == rest[j] && nfs[..j + 1] == [head] + rest[..j];
      }
    }
  }

  lemma {:induction false} GoingInHead(known: set<Fr>, nfs: seq<Fr>)
    requires nfs != []
    ensures GoingIn(known, nfs) ==
      if nfs[0] == ZERO then GoingIn(known, nfs[1..])
      else if nfs[0] in known then {}
      else {nfs[0]} + GoingIn(known + {nfs[0]}, nfs[1..])
  {
    hide Reached;
    var head, rest := nfs[0], nfs[1..];
    var later := if head == ZERO then known else known + {head};
    assert Reached(known, nfs, 0) <==> (head == ZERO || head !in known) by { ReachedFirst(known, nfs); }
    forall nf ensures nf in GoingIn(known, nfs) <==>
      (head == ZERO || head !in known) && ((nf == head && head != ZERO) || nf in GoingIn(later, rest))
    {
      if nf in GoingIn(known, nfs) {
        var i :| 0 <= i < |nfs| && nfs[i] != ZERO && Reached(known, nfs, i) && nfs[i] == nf;
        if i > 0 {
          ReachedHead(known, nfs, i - 1);
          assert rest[i - 1] == nf;
        }
      }
      if (head == ZERO || head !in known) && nf in GoingIn(later, rest) {
        var i :| 0 <= i < |rest| && rest[i] != ZERO && Reached(later, rest, i) && rest[i] == nf;
        ReachedHead(known, nfs, i);
        assert nfs[i + 1] == nf;
      }
    }
  }

  lemma {:induction false} ReachedFirst(known: set<Fr>, nfs: seq<Fr>)
    requires nfs != []
    ensures Reached(known, nfs, 0) <==> (nfs[0] == ZERO || nfs[0] !in known)
  {
    if nfs[0] == ZERO || nfs[0] !in known {
      assert nfs[..0] == [];
    }
  }

  /** Whether it goes through or not, the loop records exactly the nullifiers it reaches. */
  lemma {:induction false} InsertionRecords(s: LedgerState, nfs: seq<Fr>)
    ensures InsertNullifiers(s, nfs).0.nullifiers == s.nullifiers + GoingIn(s.nullifiers, nfs)
    decreases |nfs|
  {
    hide GoingIn;
    if nfs == [] {
      assert GoingIn(s.nullifiers, nfs) == {} by { NothingGoesIn(s.nullifiers); }
    } else {
      var head, rest := nfs[0], nfs[1..];
      GoingInHead(s.nullifiers, nfs);
      if head == ZERO {
        InsertionRecords(s, rest);
      } else if head !in s.nullifiers {
        InsertionRecords(NextTx(s).(nullifiers := s.nullifiers + {head}), rest);
      }
    }
  }

  lemma {:induction false} NothingGoesIn(known: set<Fr>)
    ensures GoingIn(known, []) == {}
  {
  }

  /** The nullifiers an operation leaves in the set, from the request and the state it meets. */
  ghost function Recorded(s: LedgerState, op: Op): set<Fr> {
    match op
    case ShieldOp(_) => {}
    case TransferOp(req) =>
      if ValidAnchor(s, req.anchor) && Verifies(TransferPublic(TransferPublicOf(req)), req.spendProof)
      then GoingIn(s.nullifiers, WalkedNullifiers(req)) else {}
    case UnshieldOp(req) =>
      if ValidAnchor(s, req.anchor) && Verifies(UnshieldPublic(UnshieldPublicOf(req)), req.spendProof)
      then {req.nullifier} else {}
  }

  lemma {:induction false} ExecRecords(s: LedgerState, op: Op)
    ensures Exec(s, op).0.nullifiers == s.nullifiers + Recorded(s, op)
  {
    hide Verifies, GoingIn, InsertOutputs, InsertNullifiers;
    match op
    case ShieldOp(_) =>
    case TransferOp(req) => InsertionRecords(s, WalkedNullifiers(req));
    case UnshieldOp(_) =>
  }

  // ---------------------------------------------------------------------------
  // What a step loses and what it gains
  // ---------------------------------------------------------------------------

  /** Notes an operation declares spent, and notes it creates; none when it is refused. */
  function Declared(s: LedgerState, op: Op): seq<Note> {
    if Exec(s, op).1.Ok? then SpentBy(EventOf(s, op)) else []
  }

  function Made(s: LedgerState, op: Op): seq<Note> {
    if Exec(s, op).1.Ok? then CreatedBy(EventOf(s, op)) else []
  }

  /** Unspent notes that the recorded nullifiers mark as spent. */
  ghost function Consumed(s: LedgerState, op: Op): set<Note> {
    set n | n in UnspentNotes(s) && IsSpent(n, Recorded(s, op))
  }

  /** Consumed although not declared: notes behind a refused transfer, or sharing a nullifier. */
  ghost function Shadowed(s: LedgerState, op: Op): set<Note> {
    Consumed(s, op) - Elements(Declared(s, op))
  }

  /** Created in vain: the note is in the tree already, or marked as spent already. */
  ghost function Stillborn(s: LedgerState, op: Op): set<Note> {
    set n | n in Made(s, op) && (n in TreeNotes(s.store.leaves) || IsSpent(n, s.nullifiers + Recorded(s, op)))
  }

  ghost function Lost(s: LedgerState, op: Op, asset: Fr): nat {
    SetValue(Shadowed(s, op), asset) + SetValue(Stillborn(s, op), asset)
  }

  /** Declared value that no recorded nullifier consumes. */
  ghost function Gained(s: LedgerState, op: Op, asset: Fr): int {
    SeqValue(Declared(s, op), asset) - SetValue(Elements(Declared(s, op)) * Consumed(s, op), asset)
  }

  lemma {:induction false} IsSpentUnion(note: Note, a: set<Fr>, b: set<Fr>)
    ensures IsSpent(note, a + b) <==> IsSpent(note, a) || IsSpent(note, b)
  {
    hide OwnedBy, NullifierOf;
    if IsSpent(note, a + b) {
      var sk: Fr :| OwnedBy(note, sk) && NullifierOf(note, sk) in a + b;
      assert NullifierOf(note, sk) in a || NullifierOf(note, sk) in b;
    }
  }

  /** Growth of tree and log in one step, refused steps included. */
  lemma {:induction false} StepGrows(w: World, op: Op)
    requires StateSound(w.ledger)
    ensures var t := Exec(w.ledger, op).0;
      && StateSound(t)
      && TreeNotes(t.store.leaves) == TreeNotes(w.ledger.store.leaves) + Elements(Made(w.ledger, op))
      && NoDup(Made(w.ledger, op))
  {
    hide StateSound, TreeNotes, Verifies;
    var s := w.ledger;
    match op {
      case ShieldOp(req) =>
        ShieldKeepsSound(s, req);
        assert forall n: Note :: Elements([n]) == {n};
        if !ExecShield(s, req).1.Ok? {
          assert TreeNotes(s.store.leaves) + Elements<Note>([]) == TreeNotes(s.store.leaves);
        }
      case TransferOp(req) =>
        TransferKeepsSound(s, req);
        InsertNullifiersEffect(s, WalkedNullifiers(req));
        if ExecTransfer(s, req).1.Ok? {
          TransferMakesDistinct(s, req, req.spendProof.private.transfer);
        } else {
          assert TreeNotes(s.store.leaves) + Elements<Note>([]) == TreeNotes(s.store.leaves);
        }
      case UnshieldOp(req) =>
        UnshieldKeepsSound(s, req);
        assert TreeNotes(s.store.leaves) + Elements<Note>([]) == TreeNotes(s.store.leaves);
    }
  }

  lemma {:induction false} TransferMakesDistinct(s: LedgerState, req: TransferRequest, priv: TransferPrivateInputs)
    requires TransferFacts(s, req, priv)
    ensures NoDup(CreatedNotes(priv.outputs))
    ensures forall asset :: SeqValue(SpentNotes(priv.inputs), asset) == SeqValue(CreatedNotes(priv.outputs), asset)
  {
    hide SeqValue, NoDup;
    DistinctNoncesDistinctNotes(CreatedNotes(priv.outputs));
  }

  /** What was created and withdrawn in one step is what was declared and deposited. */
  lemma {:induction false} StepValue(w: World, op: Op, asset: Fr)
    requires StateSound(w.ledger)
    ensures SeqValue(Made(w.ledger, op), asset) + Withdrawn(Step(w, op).log, asset) - Withdrawn(w.log, asset)
         == SeqValue(Declared(w.ledger, op), asset) + Deposited(Step(w, op).log, asset) - Deposited(w.log, asset)
  {
    hide StateSound, Verifies, SeqValue, Deposited, Withdrawn, IsSpent, TransferFacts;
    var s := w.ledger;
    NothingIsWorthNothing(asset);
    if Exec(s, op).1.Ok? {
      var e := EventOf(s, op);
      LogStep(w.log, e, asset);
      match op {
        case ShieldOp(req) =>
          AcceptedShield(ShieldPublicOf(req), req.shieldProof);
          EventBalance(e, {}, asset);
        case TransferOp(req) =>
          TransferKeepsSound(s, req);
          TransferMakesDistinct(s, req, req.spendProof.private.transfer);
        case UnshieldOp(req) =>
          UnshieldSpends(s, req);
          EventBalance(e, ExecUnshield(s, req).0.nullifiers, asset);
      }
    }
  }

  lemma {:induction false} NothingIsWorthNothing(asset: Fr)
    ensures SeqValue([], asset) == 0 && SetValue({}, asset) == 0
  {
  }

  /** Unspent notes after the step: those not consumed, and the created ones that are not stillborn. */
  lemma {:induction false} StepUnspent(w: World, op: Op, asset: Fr)
    requires StateSound(w.ledger)
    ensures UnspentValue(Exec(w.ledger, op).0, asset) + SetValue(Consumed(w.ledger, op), asset)
          + SetValue(Stillborn(w.ledger, op), asset)
         == UnspentValue(w.ledger, asset) + SeqValue(Made(w.ledger, op), asset)
  {
    hide StateSound, Exec, TreeNotes, Recorded, Made, IsSpent;
    var s, t := w.ledger, Exec(w.ledger, op).0;
    StepGrows(w, op);
    ExecRecords(s, op);
    var consumed, stillborn, made := Consumed(s, op), Stillborn(s, op), Elements(Made(s, op));
    var kept, added := UnspentNotes(s) - consumed, made - stillborn;
    forall n ensures n in UnspentNotes(t) <==> n in kept + added {
      IsSpentUnion(n, s.nullifiers, Recorded(s, op));
    }
    assert UnspentNotes(t) == kept + added;
    forall n | n in added ensures n !in kept {
    }
    SetValueDisjoint(kept, added, asset);
    SetValueDisjoint(kept, consumed, asset);
    assert kept + consumed == UnspentNotes(s);
    SetValueDisjoint(added, stillborn, asset);
    assert added + stillborn == made;
    SetValueOfSeq(Made(s, op), asset);
  }

  /** Deposited, and neither withdrawn nor unspent. */
  ghost function Missing(w: World, asset: Fr): int {
    Deposited(w.log, asset) - Withdrawn(w.log, asset) - UnspentValue(w.ledger, asset)
  }

  /** One step of the balance, for any operation in any sound state. */
  lemma {:induction false} StepBalances(w: World, op: Op, asset: Fr)
    requires StateSound(w.ledger)
    ensures Missing(Step(w, op), asset)
         == Missing(w, asset) + Lost(w.ledger, op, asset) - Gained(w.ledger, op, asset)
  {
    hide StateSound, Exec, UnspentValue, Consumed, Stillborn, Declared, Made, SeqValue, Deposited, Withdrawn;
    var s := w.ledger;
    StepUnspent(w, op, asset);
    StepValue(w, op, asset);
    StepLedger(w, op);
    var consumed, declared := Consumed(s, op), Elements(Declared(s, op));
    SetValueDisjoint(consumed - declared, declared * consumed, asset);
    assert (consumed - declared) + declared * consumed == consumed;
  }

  // ---------------------------------------------------------------------------
  // Every run
  // ---------------------------------------------------------------------------

  ghost function TotalLost(depth: nat, maxAnchors: nat, ops: seq<Op>, asset: Fr): nat {
    if ops == [] then 0
    else
      var k := |ops| - 1;
      TotalLost(depth, maxAnchors, ops[..k], asset) + Lost(Run(depth, maxAnchors, ops[..k]).ledger, ops[k], asset)
  }

  ghost function TotalGained(depth: nat, maxAnchors: nat, ops: seq<Op>, asset: Fr): int {
    if ops == [] then 0
    else
      var k := |ops| - 1;
      TotalGained(depth, maxAnchors, ops[..k], asset) + Gained(Run(depth, maxAnchors, ops[..k]).ledger, ops[k], asset)
  }

  /** The books of every run, whatever was submitted: nothing else is lost and nothing else is gained. */
  lemma {:induction false} EveryRunBalances(depth: nat, maxAnchors: nat, ops: seq<Op>, asset: Fr)
    ensures Missing(Run(depth, maxAnchors, ops), asset)
         == TotalLost(depth, maxAnchors, ops, asset) - TotalGained(depth, maxAnchors, ops, asset)
  {
    hide Exec, Step, UnspentValue, Lost, Gained, StateSound;
    if ops == [] {
      GenesisIsEmpty(depth, maxAnchors, asset);
    } else {
      var k := |ops| - 1;
      EveryRunBalances(depth, maxAnchors, ops[..k], asset);
      RunIsSound(depth, maxAnchors, ops[..k]);
      StepBalances(Run(depth, maxAnchors, ops[..k]), ops[k], asset);
    }
  }

  lemma {:induction false} GenesisIsEmpty(depth: nat, maxAnchors: nat, asset: Fr)
    ensures UnspentValue(Genesis(depth, maxAnchors), asset) == 0
  {
    assert TreeNotes(Genesis(depth, maxAnchors).store.leaves) == {};
    assert UnspentNotes(Genesis(depth, maxAnchors)) == {};
  }

  // ---------------------------------------------------------------------------
  // Steps that gain nothing
  // ---------------------------------------------------------------------------

  /** Every declared note of worth is consumed, and declared once. */
  ghost predicate Gainless(s: LedgerState, op: Op, asset: Fr) {
    CoveredOnce(Declared(s, op), Consumed(s, op), asset)
  }

  predicate CoveredOnce(notes: seq<Note>, covered: set<Note>, asset: Fr) {
    forall i :: 0 <= i < |notes| && AmountIn(notes[i], asset) > 0 ==> notes[i] in covered && notes[i] !in notes[..i]
  }

  lemma {:induction false} CoveredOnceSnoc(front: seq<Note>, last: Note, covered: set<Note>, asset: Fr)
    ensures CoveredOnce(front + [last], covered, asset) <==>
      CoveredOnce(front, covered, asset) && (AmountIn(last, asset) > 0 ==> last in covered && last !in front)
  {
    var notes := front + [last];
    assert notes[..|front|] == front;
    assert forall i :: 0 <= i < |front| ==> notes[i] == front[i] && notes[..i] == front[..i];
    if CoveredOnce(notes, covered, asset) {
      assert notes[|front|] == last;
    }
  }

  /** The part of a list that a set covers is worth no more, and as much only without loss. */
  lemma {:induction false} CoveredValue(notes: seq<Note>, covered: set<Note>, asset: Fr)
    ensures var part := SetValue(Elements(notes) * covered, asset);
      && part <= SeqValue(notes, asset)
      && (part == SeqValue(notes, asset) <==> CoveredOnce(notes, covered, asset))
  {
    if notes == [] {
      assert Elements(notes) * covered == {};
    } else {
      hide SetValue, CoveredOnce, Elements, AmountIn;
      var k := |notes| - 1;
      var front, last := notes[..k], notes[k];
      CoveredValue(front, covered, asset);
      CoveredOnceSnoc(front, last, covered, asset);
      assert notes == front + [last];
      PartSnoc(front, last, covered);
      var before := Elements(front) * covered;
      SetValueAdd(before, last, asset);
      assert before + {} == before;
      assert SetValue(Elements(notes) * covered, asset)
          == SetValue(before, asset) + (if last in covered && last !in front then AmountIn(last, asset) else 0);
    }
  }

  lemma {:induction false} PartSnoc(front: seq<Note>, last: Note, covered: set<Note>)
    ensures Elements(front + [last]) * covered
         == Elements(front) * covered + (if last in covered then {last} else {})
    ensures last in Elements(front) * covered <==> last in front && last in covered
  {
  }

  lemma {:induction false} GainsNothingIff(s: LedgerState, op: Op, asset: Fr)
    ensures Gained(s, op, asset) >= 0
    ensures Gained(s, op, asset) == 0 <==> Gainless(s, op, asset)
  {
    hide Declared, Consumed, SetValue, SeqValue;
    CoveredValue(Declared(s, op), Consumed(s, op), asset);
  }

  /** Packed slots gain nothing, and neither do deposits, withdrawals and refusals. */
  lemma {:induction false} PackedGainsNothing(s: LedgerState, op: Op, asset: Fr)
    requires StateSound(s) && Packed(op)
    ensures Gained(s, op, asset) == 0
  {
    hide StateSound, Verifies, TransferFacts, UnspentNotes, IsSpent, InsertNullifiers, InsertOutputs;
    GainsNothingIff(s, op, asset);
    ExecRecords(s, op);
    if Exec(s, op).1.Ok? && !op.ShieldOp? {
      match op {
        case TransferOp(req) =>
          TransferKeepsSound(s, req);
          PackedTransferSpends(s, req, req.spendProof.private.transfer);
        case UnshieldOp(req) => UnshieldSpends(s, req);
      }
      forall n | n in Declared(s, op) ensures n in Consumed(s, op) {
        UnspentBefore(n, s);
        IsSpentUnion(n, s.nullifiers, Recorded(s, op));
      }
    }
  }

  lemma {:induction false} UnspentBefore(n: Note, s: LedgerState)
    requires n in UnspentNotes(s)
    ensures !IsSpent(n, s.nullifiers)
  {
  }

  /** Inflation in a run takes a step that spends without consuming, and then more than what is lost. */
  lemma {:induction false} NoInflationIff(depth: nat, maxAnchors: nat, ops: seq<Op>, asset: Fr)
    ensures var w := Run(depth, maxAnchors, ops);
      && (Withdrawn(w.log, asset) + UnspentValue(w.ledger, asset) <= Deposited(w.log, asset) <==>
          TotalGained(depth, maxAnchors, ops, asset) <= TotalLost(depth, maxAnchors, ops, asset))
      && (TotalGained(depth, maxAnchors, ops, asset) == 0 <==>
          forall k :: 0 <= k < |ops| ==> Gainless(Run(depth, maxAnchors, ops[..k]).ledger, ops[k], asset))
  {
    hide Run, UnspentValue, TotalLost, TotalGained, Deposited, Withdrawn, Gainless;
    EveryRunBalances(depth, maxAnchors, ops, asset);
    GainlessRunIff(depth, maxAnchors, ops, asset);
  }

  lemma {:induction false} GainlessRunIff(depth: nat, maxAnchors: nat, ops: seq<Op>, asset: Fr)
    ensures TotalGained(depth, maxAnchors, ops, asset) >= 0
    ensures TotalGained(depth, maxAnchors, ops, asset) == 0 <==>
      forall k :: 0 <= k < |ops| ==> Gainless(Run(depth, maxAnchors, ops[..k]).ledger, ops[k], asset)
  {
    hide Run, Gained, Gainless;
    if ops != [] {
      var last := |ops| - 1;
      GainlessRunIff(depth, maxAnchors, ops[..last], asset);
      GainsNothingIff(Run(depth, maxAnchors, ops[..last]).ledger, ops[last], asset);
      assert forall k :: 0 <= k < last ==> ops[..last][..k] == ops[..k] && ops[..last][k] == ops[k];
    }
  }

  // ---------------------------------------------------------------------------
  // Steps that lose nothing
  // ---------------------------------------------------------------------------

  /** Whatever the step puts out of reach is worth nothing. */
  ghost predicate Lossless(s: LedgerState, op: Op, asset: Fr) {
    forall n :: n in Shadowed(s, op) || n in Stillborn(s, op) ==> AmountIn(n, asset) == 0
  }

  lemma {:induction false} WorthlessIff(notes: set<Note>, asset: Fr)
    ensures SetValue(notes, asset) == 0 <==> forall n :: n in notes ==> AmountIn(n, asset) == 0
    decreases |notes|
  {
    if n :| n in notes {
      SetValueRemove(notes, n, asset);
      WorthlessIff(notes - {n}, asset);
    }
  }

  lemma {:induction false} LosesNothingIff(s: LedgerState, op: Op, asset: Fr)
    ensures Lost(s, op, asset) == 0 <==> Lossless(s, op, asset)
  {
    hide Shadowed, Stillborn, SetValue;
    WorthlessIff(Shadowed(s, op), asset);
    WorthlessIff(Stillborn(s, op), asset);
  }

  /** A deposit: its note is neither in the tree nor marked spent, or worth nothing. */
  lemma {:induction false} DepositLosslessIff(s: LedgerState, req: ShieldRequest, asset: Fr)
    requires ExecShield(s, req).1.Ok?
    ensures req.shieldProof.private.ShieldPrivate?
    ensures var n := req.shieldProof.private.note;
            Lossless(s, ShieldOp(req), asset) <==>
            (n !in TreeNotes(s.store.leaves) && !IsSpent(n, s.nullifiers)) || AmountIn(n, asset) == 0
  {
    hide Verifies, TreeNotes, UnspentNotes;
    AcceptedShield(ShieldPublicOf(req), req.shieldProof);
    var n := req.shieldProof.private.note;
    assert Made(s, ShieldOp(req)) == [n];
    assert Recorded(s, ShieldOp(req)) == {} && s.nullifiers + {} == s.nullifiers;
    assert Consumed(s, ShieldOp(req)) == {};
    assert n in Made(s, ShieldOp(req));
  }

  /** A withdrawal: no other unspent note of worth shares the nullifier. */
  lemma {:induction false} WithdrawalLosslessIff(s: LedgerState, req: UnshieldRequest, asset: Fr)
    requires ExecUnshield(s, req).1.Ok?
    ensures req.spendProof.private.UnshieldPrivate?
    ensures Lossless(s, UnshieldOp(req), asset) <==>
      forall n :: n in UnspentNotes(s) && n != req.spendProof.private.unshield.note && IsSpent(n, {req.nullifier}) ==>
        AmountIn(n, asset) == 0
  {
    hide Verifies, UnspentNotes, IsSpent;
    AcceptedUnshield(UnshieldPublicOf(req), req.spendProof);
    var op := UnshieldOp(req);
    assert Made(s, op) == [] && Declared(s, op) == [req.spendProof.private.unshield.note];
    assert Recorded(s, op) == {req.nullifier};
  }

  /** A refusal: no unspent note of worth stands behind a nullifier that the loop reached. */
  lemma {:induction false} RefusalLosslessIff(s: LedgerState, op: Op, asset: Fr)
    requires Exec(s, op).1.Err?
    ensures Lossless(s, op, asset) <==>
      forall n :: n in UnspentNotes(s) && IsSpent(n, Recorded(s, op)) ==> AmountIn(n, asset) == 0
  {
    hide Exec, UnspentNotes, IsSpent, Recorded;
    assert Made(s, op) == [] && Declared(s, op) == [];
  }

  /**
   A transfer: no unspent note of worth beyond the declared ones shares a walked nullifier, and every
   created note of worth is neither in the tree nor marked spent, before or by the transfer itself.
   */
  lemma {:induction false} TransferLosslessIff(s: LedgerState, req: TransferRequest, asset: Fr)
    requires ExecTransfer(s, req).1.Ok?
    ensures req.spendProof.private.TransferPrivate?
    ensures var priv, nfs := req.spendProof.private.transfer, NonZero(WalkedNullifiers(req));
            Lossless(s, TransferOp(req), asset) <==>
      && (forall n :: n in UnspentNotes(s) && n !in SpentNotes(priv.inputs) && IsSpent(n, nfs) ==>
            AmountIn(n, asset) == 0)
      && (forall n :: n in CreatedNotes(priv.outputs) ==>
            (n !in TreeNotes(s.store.leaves) && !IsSpent(n, s.nullifiers + nfs)) || AmountIn(n, asset) == 0)
  {
    hide Verifies, UnspentNotes, IsSpent, TreeNotes, InsertOutputs, InsertNullifiers, GoingIn, SpentNotes, CreatedNotes;
    AcceptedTransfer(TransferPublicOf(req), req.spendProof);
    var op := TransferOp(req);
    AcceptedRecordsAll(s, WalkedNullifiers(req));
    assert Recorded(s, op) == NonZero(WalkedNullifiers(req));
  }

  lemma {:induction false} AcceptedRecordsAll(s: LedgerState, nfs: seq<Fr>)
    requires InsertNullifiers(s, nfs).1
    ensures GoingIn(s.nullifiers, nfs) == NonZero(nfs)
  {
    InsertNullifiersEffect(s, nfs);
    InsertionRecords(s, nfs);
    assert GoingIn(s.nullifiers, nfs) !! s.nullifiers;
  }

  lemma {:induction false} LosslessRunIff(depth: nat, maxAnchors: nat, ops: seq<Op>, asset: Fr)
    ensures TotalLost(depth, maxAnchors, ops, asset) == 0 <==>
      forall k :: 0 <= k < |ops| ==> Lossless(Run(depth, maxAnchors, ops[..k]).ledger, ops[k], asset)
  {
    hide Run, Lost, Lossless;
    if ops != [] {
      var last := |ops| - 1;
      LosslessRunIff(depth, maxAnchors, ops[..last], asset);
      LosesNothingIff(Run(depth, maxAnchors, ops[..last]).ledger, ops[last], asset);
      assert forall k :: 0 <= k < last ==> ops[..last][..k] == ops[..k] && ops[..last][k] == ops[k];
    }
  }

  lemma {:induction false} PackedRunGainsNothing(depth: nat, maxAnchors: nat, ops: seq<Op>, asset: Fr)
    requires AllPacked(ops)
    ensures TotalGained(depth, maxAnchors, ops, asset) == 0
  {
    hide Run, Gained, StateSound;
    if ops != [] {
      var last := |ops| - 1;
      PackedRunGainsNothing(depth, maxAnchors, ops[..last], asset);
      RunIsSound(depth, maxAnchors, ops[..last]);
      PackedGainsNothing(Run(depth, maxAnchors, ops[..last]).ledger, ops[last], asset);
    }
  }

  /**
   When conservation is exact: a packed run keeps every unit of an asset if and only if each of its
   operations is lossless in the state it meets.
   */
  lemma {:induction false} ConservationExact(depth: nat, maxAnchors: nat, ops: seq<Op>, asset: Fr)
    requires AllPacked(ops)
    ensures
      var w := Run(depth, maxAnchors, ops);
      Withdrawn(w.log, asset) + UnspentValue(w.ledger, asset) == Deposited(w.log, asset) <==>
      forall k :: 0 <= k < |ops| ==> Lossless(Run(depth, maxAnchors, ops[..k]).ledger, ops[k], asset)
  {
    hide Run, UnspentValue, TotalLost, TotalGained, Deposited, Withdrawn, Lossless;
    EveryRunBalances(depth, maxAnchors, ops, asset);
    PackedRunGainsNothing(depth, maxAnchors, ops, asset);
    LosslessRunIff(depth, maxAnchors, ops, asset);
  }

  // ---------------------------------------------------------------------------
  // The same gap, seen from the end of the run
  // ---------------------------------------------------------------------------

  /** Value created a second time in the same note. */
  ghost function Repeats(log: seq<Event>, asset: Fr): int {
    SeqValue(AllCreated(log), asset) - SetValue(Elements(AllCreated(log)), asset)
  }

  /** Created and marked as spent, but declared by no accepted spend. */
  ghost function Stranded(w: World): set<Note> {
    set n | n in AllCreated(w.log) && IsSpent(n, w.ledger.nullifiers) && n !in AllSpent(w.log)
  }

  /** What is missing at the end of a packed run are repeated notes and stranded notes. */
  lemma {:induction false} ConservationGap(depth: nat, maxAnchors: nat, ops: seq<Op>, asset: Fr)
    requires AllPacked(ops)
    ensures var w := Run(depth, maxAnchors, ops);
      && Repeats(w.log, asset) >= 0
      && Missing(w, asset) == Repeats(w.log, asset) + SetValue(Stranded(w), asset)
      && (Missing(w, asset) == 0 <==> Repeats(w.log, asset) == 0 && SetValue(Stranded(w), asset) == 0)
  {
    hide Run, EventSound, IsSpent, StateSound, TreeNotes, SetValue, SeqValue, AllCreated, AllSpent, OutputNonces;
    var w := Run(depth, maxAnchors, ops);
    RunKeepsInv(depth, maxAnchors, ops);
    LogBalance(w.log, w.ledger.nullifiers, asset);
    var created, spent, stranded := Elements(AllCreated(w.log)), Elements(AllSpent(w.log)), Stranded(w);
    var unspent := UnspentNotes(w.ledger);
    SetValueOfSeq(AllCreated(w.log), asset);
    SetValueOfSeq(AllSpent(w.log), asset);
    SetValueDisjoint(unspent, stranded, asset);
    SetValueDisjoint(unspent + stranded, spent, asset);
    assert unspent + stranded + spent == created;
  }

  lemma {:induction false} NoStrandedNotes(w: World)
    requires Inv(w) && Accounted(w, {}) && NoDup(Nonces(AllCreated(w.log)))
    ensures Stranded(w) == {}
  {
    hide OwnedBy, EventSound, StateSound, Nonces, NoDup, SetValue, OutputNonces, AllCreated, AllSpent;
    var created, spent := AllCreated(w.log), AllSpent(w.log);
    forall n | n in created && IsSpent(n, w.ledger.nullifiers) ensures n in spent {
      var sk: Fr :| OwnedBy(n, sk) && NullifierOf(n, sk) in w.ledger.nullifiers;
      assert BelongsToSpend(NullifierOf(n, sk), w.log);
      var m: Note, key: Fr :| m in spent && OwnedBy(m, key) && NullifierOf(m, key) == NullifierOf(n, sk);
      SameNonceSameNote(created, m, n);
    }
  }

  /** Clean operations and deposits that keep their nonces apart are enough, in every asset at once. */
  lemma {:induction false} CleanRunsConserve(depth: nat, maxAnchors: nat, ops: seq<Op>, asset: Fr)
    requires AllPacked(ops) && Atomic(depth, maxAnchors, ops)
    requires DepositNoncesApart(Run(depth, maxAnchors, ops).log)
    ensures Missing(Run(depth, maxAnchors, ops), asset) == 0
  {
    hide EventSound, IsSpent, StateSound, BelongsToSpend, Run, Atomic, UnspentValue, Deposited, Withdrawn;
    var w := Run(depth, maxAnchors, ops);
    RunKeepsInv(depth, maxAnchors, ops);
    RunProvenance(depth, maxAnchors, ops);
    BurntNothingIffAtomic(depth, maxAnchors, ops);
    CreatedNoncesApartIff(w.log);
    ConservationGap(depth, maxAnchors, ops, asset);
    NoStrandedNotes(w);
    DistinctNoncesDistinctNotes(AllCreated(w.log));
    SetValueOfSeq(AllCreated(w.log), asset);
    NothingIsWorthNothing(asset);
  }
}
