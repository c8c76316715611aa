/**
 Recovery and pool safety together: distinct nonces of received transfers need not be assumed,
 because the ledger never lets two accepted transfers derive the same one.
 */
module Composition {
  import opened Words
  import opened Bytes
  import opened Field
  import opened Traits
  import opened Store
  import opened Proofs
  import opened Value
  import opened Ledger
  import opened Safety
  import opened Wallet
  import opened Completeness
  import opened Recovery
  import opened Agreement
  import opened Counterexamples

  // ---------------------------------------------------------------------------
  // A device's history as a run of the ledger
  // ---------------------------------------------------------------------------

  /** The request an own transfer submits, when it gets that far. */
  function SubmittedTransfer(e: Encryption, sk: Fr, s: StoreState, notes: seq<OwnedNote>, to: Address, amount: u64,
          asset: Fr, coins: TransferCoins): seq<Op> {
    var i := FindSpendable(notes, asset, amount);
    if i == |notes| || Balance(notes, asset) >= TWO_64 then []
    else
      match PrepareSpend(s, notes, notes[i].commitment)
      case Err(_) => []
      case Ok(p) =>
        if p.0.note.amount < amount then []
        else
          var req := HonestTransfer(e, sk, BuildTransfer(sk, p.0, p.1, to, amount, coins), to, coins);
          if Provable(req.spendProof.public, req.spendProof.private) then [TransferOp(req)] else []
  }

  function SubmittedUnshield(sk: Fr, s: StoreState, notes: seq<OwnedNote>, to: Bytes32, amount: u64,
          token: Bytes32): seq<Op> {
    var i := FindSpendable(notes, ComputeAssetId(token), amount);
    if i == |notes| || Balance(notes, ComputeAssetId(token)) >= TWO_64 then []
    else
      match PrepareSpend(s, notes, notes[i].commitment)
      case Err(_) => []
      case Ok(p) =>
        if p.0.note.amount != amount then []
        else
          var req := HonestUnshield(sk, p.0, p.1, to, amount, token);
          if Provable(req.spendProof.public, req.spendProof.private) then [UnshieldOp(req)] else []
  }

  /** The chain operation an action amounts to: one or none. */
  function Submitted(e: Encryption, sk: Fr, d: Device, a: Action): (ops: seq<Op>)
    ensures |ops| <= 1
  {
    match a
    case SelfShield(token, amount, coins) => [ShieldOp(HonestShield(e, sk, token, amount, coins))]
    case SelfTransfer(to, amount, asset, coins) =>
      SubmittedTransfer(e, sk, d.ledger.store, d.notes, to, amount, asset, coins)
    case SelfUnshield(to, amount, token) => SubmittedUnshield(sk, d.ledger.store, d.notes, to, amount, token)
    case Receive(_) => []
    case Others(op) => [op]
  }

  lemma {:induction false} ActSubmits(e: Encryption, sk: Fr, d: Device, a: Action)
    ensures var ops := Submitted(e, sk, d, a);
            Act(e, sk, d, a).ledger == if ops == [] then d.ledger else Exec(d.ledger, ops[0]).0
  {
    hide ExecShield, ExecTransfer, ExecUnshield, HonestShield, HonestTransfer, HonestUnshield, BuildTransfer,
         PrepareSpend,
         Provable, AfterTransfer, MarkSpent, Found, Received, NewOutputs, ComputeAssetId, ShieldedNote;
  }

  predicate OthersPacked(actions: seq<Action>) {
    forall k :: 0 <= k < |actions| && actions[k].Others? ==> Packed(actions[k].op)
  }

  lemma {:induction false} SubmittedPacked(e: Encryption, sk: Fr, d: Device, a: Action)
    requires a.Others? ==> Packed(a.op)
    ensures forall op :: op in Submitted(e, sk, d, a) ==> Packed(op)
  {
    hide HonestTransfer, HonestUnshield, HonestShield, BuildTransfer, PrepareSpend, Provable, ComputeAssetId;
    match a {
      case SelfTransfer(to, amount, asset, coins) =>
        forall data ensures Packed(TransferOp(HonestTransfer(e, sk, data, to, coins))) {
          RebuiltIsProven(e, sk, data, to, coins);
        }
      case _ =>
    }
  }

  function HistoryOps(e: Encryption, sk: Fr, depth: nat, maxAnchors: nat, actions: seq<Action>): seq<Op> {
    if actions == [] then []
    else
      var k := |actions| - 1;
      HistoryOps(e, sk, depth, maxAnchors, actions[..k])
      + Submitted(e, sk, History(e, sk, depth, maxAnchors, actions[..k]), actions[k])
  }

  /** The device sees the very ledger that the run of submitted operations produces. */
  lemma {:induction false} HistoryIsRun(e: Encryption, sk: Fr, depth: nat, maxAnchors: nat, actions: seq<Action>)
    ensures History(e, sk, depth, maxAnchors, actions).ledger
         == Run(depth, maxAnchors, HistoryOps(e, sk, depth, maxAnchors, actions)).ledger
  {
    hide Act, Exec, Step, Submitted;
    if actions != [] {
      var k := |actions| - 1;
      var d := History(e, sk, depth, maxAnchors, actions[..k]);
      var before := HistoryOps(e, sk, depth, maxAnchors, actions[..k]);
      var added := Submitted(e, sk, d, actions[k]);
      HistoryIsRun(e, sk, depth, maxAnchors, actions[..k]);
      ActSubmits(e, sk, d, actions[k]);
      if added != [] {
        assert (before + added)[..|before + added| - 1] == before;
        StepLedger(Run(depth, maxAnchors, before), added[0]);
      } else {
        assert before + added == before;
      }
    }
  }

  /** Own operations are packed, so a history is a packed run when everybody else's are. */
  lemma {:induction false} HistoryPacked(e: Encryption, sk: Fr, depth: nat, maxAnchors: nat, actions: seq<Action>)
    requires OthersPacked(actions)
    ensures AllPacked(HistoryOps(e, sk, depth, maxAnchors, actions))
  {
    hide History, Submitted, Packed;
    if actions != [] {
      var k := |actions| - 1;
      HistoryPacked(e, sk, depth, maxAnchors, actions[..k]);
      SubmittedPacked(e, sk, History(e, sk, depth, maxAnchors, actions[..k]), actions[k]);
    }
  }

  // ---------------------------------------------------------------------------
  // Where found notes come from
  // ---------------------------------------------------------------------------

  /** Deposited notes, in order. */
  function DepositNotes(log: seq<Event>): seq<Note> {
    if log == [] then []
    else
      var e := log[|log| - 1];
      DepositNotes(log[..|log| - 1]) + (if e.Shielded? then [e.note] else [])
  }

  predicate IsFound(found: seq<(Note, TxSig)>, note: Note) {
    exists i :: 0 <= i < |found| && found[i].0 == note
  }

  /** Deposits for the key, whoever made them, use distinct nonces and none that a transfer derived. */
  ghost predicate DepositsApart(log: seq<Event>, found: seq<(Note, TxSig)>) {
    var deposits := DepositNotes(log);
    && (forall i, j :: 0 <= i < j < |deposits| && IsFound(found, deposits[i]) && IsFound(found, deposits[j]) ==>
          deposits[i].nullifierNonce != deposits[j].nullifierNonce)
    && (forall i :: 0 <= i < |deposits| && IsFound(found, deposits[i]) ==>
          deposits[i].nullifierNonce !in OutputNonces(log))
  }

  lemma {:induction false} DepositNotesStep(log: seq<Event>, e: Event)
    ensures DepositNotes(log + [e]) == DepositNotes(log) + (if e.Shielded? then [e.note] else [])
  {
    assert (log + [e])[..|log|] == log;
  }

  /** The condition only gets weaker on a shorter history. */
  lemma {:induction false} DepositsApartBefore(log: seq<Event>, e: Event, found: seq<(Note, TxSig)>,
          more: seq<(Note, TxSig)>)
    requires DepositsApart(log + [e], found + more)
    ensures DepositsApart(log, found)
  {
    hide OutputNonces, DepositNotes, Nonces, IsFound;
    DepositNotesStep(log, e);
    LogStep(log, e, ZERO);
    FoundStays(found, more);
    var before, after := DepositNotes(log), DepositNotes(log + [e]);
    var earlier, later := OutputNonces(log), OutputNonces(log + [e]);
    assert before == after[..|before|] && earlier == later[..|earlier|];
    forall i | 0 <= i < |before| && IsFound(found, before[i])
      ensures after[i] == before[i] && IsFound(found + more, after[i])
    {
    }
  }

  lemma {:induction false} FoundStays(found: seq<(Note, TxSig)>, more: seq<(Note, TxSig)>)
    ensures forall n: Note :: IsFound(found, n) ==> IsFound(found + more, n)
    ensures forall p :: p in more ==> IsFound(found + more, p.0)
  {
    forall n: Note | IsFound(found, n) ensures IsFound(found + more, n) {
      var i :| 0 <= i < |found| && found[i].0 == n;
      assert (found + more)[i].0 == n;
    }
    forall p | p in more ensures IsFound(found + more, p.0) {
      var i :| 0 <= i < |more| && more[i] == p;
      assert (found + more)[|found| + i].0 == p.0;
    }
  }

  lemma {:induction false} NonceIn(notes: seq<Note>, n: Note)
    requires n in notes
    ensures n.nullifierNonce in Nonces(notes)
  {
    var i :| 0 <= i < |notes| && notes[i] == n;
    assert Nonces(notes)[i] == n.nullifierNonce;
  }

  /** A created note was deposited, or its nonce was derived by a transfer. */
  lemma {:induction false} CreatedComesFrom(log: seq<Event>, n: Note)
    requires n in AllCreated(log)
    ensures n in DepositNotes(log) || n.nullifierNonce in OutputNonces(log)
  {
    hide Nonces;
    var k := |log| - 1;
    if n in AllCreated(log[..k]) {
      CreatedComesFrom(log[..k], n);
    } else if log[k].Transferred? {
      NonceIn(log[k].created, n);
    }
  }

  predicate SlotNoncesApart(slots: seq<OutputSlot>) {
    forall i, j :: 0 <= i < j < |slots| && slots[i].enabled && slots[j].enabled ==>
      slots[i].note.nullifierNonce != slots[j].note.nullifierNonce
  }

  /** One published output yields at most the note behind its commitment. */
  lemma {:induction false} FoundIsCommitted(e: Encryption, sk: Fr, o: OutputCiphertext, note: Note)
    requires o.commitment == note.Commitment()
    ensures forall p :: p in Found(e, sk, [o], 0) ==> p.0 == note
    ensures |Found(e, sk, [o], 0)| <= 1
  {
    hide TryDecryptOutput;
    FoundOne(e, sk, o);
    var r := TryDecryptOutput(e, sk, o, 0);
    if r.Some? {
      CommitmentInjective(r.value, note);
    }
  }

  /** What a transfer's outputs yield are created notes, with distinct nonces. */
  lemma {:induction false} TransferFound(e: Encryption, sk: Fr, s: StoreState, outputs: seq<TransferOutput>,
          slots: seq<OutputSlot>, tx: TxSig)
    requires OutputsCarry(outputs, slots) && SlotNoncesApart(slots)
    ensures var found := Found(e, sk, NewCiphertexts(s, InsertOutputs(s, outputs, tx)), 0);
      && DistinctNonces(found)
      && forall p :: p in found ==> p.0 in EnabledNotes(slots)
    decreases |outputs|
  {
    hide Found, CtHash, Inserted;
    var t := InsertOutputs(s, outputs, tx);
    if outputs == [] {
      FoundNone(e, sk);
    } else {
      var slot, rest := slots[0], slots[1..];
      assert OutputsCarry(outputs[1..], rest) && SlotNoncesApart(rest);
      EnabledNotesHead(slots);
      if slot.enabled {
        CommitmentNotZero(slot.note);
        var data := AttachedCiphertext(outputs[0].ciphertext, outputs[0].ephemeralKey);
        var mid := OutputInserted(s, outputs[0].commitment, tx, data);
        InsertedKeepsCiphertexts(s, outputs[0].commitment, tx);
        TransferFound(e, sk, mid, outputs[1..], rest, tx);
        InsertOutputsAppend(mid, outputs[1..], tx);
        var first, later := NewCiphertexts(s, mid), NewCiphertexts(mid, t);
        assert NewCiphertexts(s, t) == first + later;
        FoundConcat(e, sk, first, later, 0);
        if data.Some? {
          FoundIsCommitted(e, sk, first[0], slot.note);
          assert first == [first[0]];
        } else {
          assert first == [];
          FoundNone(e, sk);
        }
        HeadApart(Found(e, sk, first, 0), Found(e, sk, later, 0), slots);
      } else {
        TransferFound(e, sk, s, outputs[1..], rest, tx);
      }
    }
  }

  lemma {:induction false} HeadApart(first: seq<(Note, TxSig)>, later: seq<(Note, TxSig)>, slots: seq<OutputSlot>)
    requires slots != [] && slots[0].enabled && SlotNoncesApart(slots)
    requires |first| <= 1 && forall p :: p in first ==> p.0 == slots[0].note
    requires DistinctNonces(later) && forall p :: p in later ==> p.0 in EnabledNotes(slots[1..])
    ensures DistinctNonces(first + later)
  {
    forall i | 0 <= i < |later| ensures later[i].0.nullifierNonce != slots[0].note.nullifierNonce {
      assert later[i] in later;
      var j :| 0 <= j < |slots[1..]| && slots[1..][j].enabled && slots[1..][j].note == later[i].0;
      assert slots[j + 1] == slots[1..][j];
    }
    if first != [] {
      assert first[0] in first;
    }
  }

  /** Output slots of a verified transfer carry their commitments and derive their nonces from their positions. */
  lemma {:induction false} VerifiedOutputs(req: TransferRequest)
    requires Verifies(TransferPublic(TransferPublicOf(req)), req.spendProof)
    ensures req.spendProof.private.TransferPrivate?
    ensures var slots := req.spendProof.private.transfer.outputs;
            OutputsCarry(req.outputs, slots) && SlotNoncesApart(slots)
  {
    hide Verifies, InputHolds, Total, SingleAsset, SpentNotes, CreatedNotes, TxBindingTransfer;
    AcceptedTransfer(TransferPublicOf(req), req.spendProof);
    var priv := req.spendProof.private.transfer;
    var ctHashes: Fr3 :| TransferStatement(TransferPublicOf(req).(ctHashes := ctHashes), priv);
    var pub := TransferPublicOf(req).(ctHashes := ctHashes);
    forall j | 0 <= j < MAX_OUTPUTS
      ensures OutputHolds(pub, priv.outputs[j], j) && pub.outputCommitments[j] == req.outputs[j].commitment
    {
    }
  }

  /** What an operation puts on chain for the key is among the notes its event created, with distinct nonces. */
  ghost predicate Explained(e: Event, found: seq<(Note, TxSig)>) {
    DistinctNonces(found) && forall p :: p in found ==> p.0 in CreatedBy(e)
  }

  lemma {:induction false} AcceptedExplained(e: Encryption, sk: Fr, s: LedgerState, op: Op)
    requires Exec(s, op).1.Ok?
    ensures Explained(EventOf(s, op), Found(e, sk, NewOutputs(s, Exec(s, op).0), 0))
  {
    match op
    case ShieldOp(req) => ShieldExplained(e, sk, s, req);
    case TransferOp(req) => TransferExplained(e, sk, s, req);
    case UnshieldOp(req) => FoundNone(e, sk);
  }

  lemma {:induction false} ShieldExplained(e: Encryption, sk: Fr, s: LedgerState, req: ShieldRequest)
    requires ExecShield(s, req).1.Ok?
    ensures Explained(EventOf(s, ShieldOp(req)), Found(e, sk, NewOutputs(s, ExecShield(s, req).0), 0))
  {
    hide Verifies, CtHash, ComputeAssetId, Inserted, Found;
    AcceptedShield(ShieldPublicOf(req), req.shieldProof);
    var (t, r) := ExecShield(s, req);
    var added := NewOutputs(s, t);
    InsertedKeepsCiphertexts(s.store, req.commitment, r.value);
    if added == [] {
      FoundNone(e, sk);
    } else {
      assert added == [added[0]];
      FoundIsCommitted(e, sk, added[0], req.shieldProof.private.note);
    }
  }

  lemma {:induction false} TransferExplained(e: Encryption, sk: Fr, s: LedgerState, req: TransferRequest)
    requires ExecTransfer(s, req).1.Ok?
    ensures Explained(EventOf(s, TransferOp(req)), Found(e, sk, NewOutputs(s, ExecTransfer(s, req).0), 0))
  {
    hide Verifies, Found, InsertOutputs, OutputsCarry, SlotNoncesApart;
    VerifiedOutputs(req);
    InsertNullifiersEffect(s, WalkedNullifiers(req));
    var slots := req.spendProof.private.transfer.outputs;
    var u := InsertNullifiers(s, WalkedNullifiers(req)).0;
    TransferFound(e, sk, s.store, req.outputs, slots, MockTx(u.txCounter + 1));
    EnabledNotesAreCreated(slots);
  }

  /** A refused operation puts nothing on chain. */
  lemma {:induction false} RefusedAddsNothing(s: LedgerState, op: Op)
    requires Exec(s, op).1.Err?
    ensures Exec(s, op).0.store == s.store
  {
    hide Verifies, InsertOutputs, InsertNullifiers;
    if op.TransferOp? {
      InsertNullifiersEffect(s, WalkedNullifiers(op.transfer));
    }
  }

  // ---------------------------------------------------------------------------
  // Distinct nonces over a run
  // ---------------------------------------------------------------------------

  /** Found notes are created notes, and no two share a nonce. */
  ghost predicate FoundDistinct(log: seq<Event>, found: seq<(Note, TxSig)>) {
    DistinctNonces(found) && forall p :: p in found ==> p.0 in AllCreated(log)
  }

  /** The step: a new note's nonce differs from that of every note found before. */
  lemma {:induction false} EventKeepsDistinct(log: seq<Event>, e: Event, found: seq<(Note, TxSig)>,
          more: seq<(Note, TxSig)>)
    requires FoundDistinct(log, found) && Explained(e, more)
    requires NoDup(OutputNonces(log + [e])) && DepositsApart(log + [e], found + more)
    ensures FoundDistinct(log + [e], found + more)
  {
    hide OutputNonces, DepositNotes, Nonces, AllCreated, DepositsApart;
    LogStep(log, e, ZERO);
    forall i, j | 0 <= i < |found| && 0 <= j < |more|
      ensures found[i].0.nullifierNonce != more[j].0.nullifierNonce
    {
      assert found[i] in found && more[j] in more;
      NewNonceDiffers(log, e, found, more, found[i].0, more[j].0);
    }
  }

  lemma {:induction false} NewNonceDiffers(log: seq<Event>, e: Event, found: seq<(Note, TxSig)>,
          more: seq<(Note, TxSig)>, a: Note, b: Note)
    requires IsFound(found, a) && IsFound(more, b)
    requires a in AllCreated(log) && b in CreatedBy(e)
    requires NoDup(OutputNonces(log + [e])) && DepositsApart(log + [e], found + more)
    ensures a.nullifierNonce != b.nullifierNonce
  {
    hide OutputNonces, DepositNotes, Nonces, AllCreated, IsFound, NoDup;
    var all := found + more;
    LogStep(log, e, ZERO);
    DepositNotesStep(log, e);
    CreatedComesFrom(log, a);
    FoundStays(found, more);
    FoundLater(found, more, b);
    var before, deposits := DepositNotes(log), DepositNotes(log + [e]);
    assert IsFound(all, a) && IsFound(all, b);
    if e.Transferred? {
      NonceIn(e.created, b);
      if a in before {
        var i :| 0 <= i < |before| && before[i] == a;
        assert deposits[i] == a;
      } else {
        NoDupParts(OutputNonces(log), Nonces(e.created));
      }
    } else {
      assert deposits[|before|] == b;
      if a in before {
        var i :| 0 <= i < |before| && before[i] == a;
        assert deposits[i] == a;
      }
    }
  }

  lemma {:induction false} FoundLater(found: seq<(Note, TxSig)>, more: seq<(Note, TxSig)>, n: Note)
    requires IsFound(more, n)
    ensures IsFound(found + more, n)
  {
    var i :| 0 <= i < |more| && more[i].0 == n;
    assert (found + more)[|found| + i].0 == n;
  }

  lemma {:induction false} NoDupParts<T>(xs: seq<T>, ys: seq<T>)
    requires NoDup(xs + ys)
    ensures forall x :: x in xs ==> x !in ys
  {
    forall x | x in xs ensures x !in ys {
      var i :| 0 <= i < |xs| && xs[i] == x;
      assert (xs + ys)[i] == x;
      assert forall j :: 0 <= j < |ys| ==> ys[j] == (xs + ys)[|xs| + j];
    }
  }

  /** Over every run of packed operations only deposits can repeat a nonce among the notes of a key. */
  lemma {:induction false} RunFoundDistinct(e: Encryption, sk: Fr, depth: nat, maxAnchors: nat, ops: seq<Op>)
    requires AllPacked(ops)
    requires var w := Run(depth, maxAnchors, ops); DepositsApart(w.log, FoundOn(e, sk, w.ledger))
    ensures var w := Run(depth, maxAnchors, ops); FoundDistinct(w.log, FoundOn(e, sk, w.ledger))
  {
    if ops == [] {
      FoundNone(e, sk);
    } else {
      hide Exec, Found, DepositsApart, FoundDistinct, Packed, EventSound, StateSound, Explained, EventOf;
      var k := |ops| - 1;
      var w, op := Run(depth, maxAnchors, ops[..k]), ops[k];
      var t := Exec(w.ledger, op).0;
      if Exec(w.ledger, op).1.Ok? {
        ExecExtends(w.ledger, op);
        var found, more := FoundOn(e, sk, w.ledger), Found(e, sk, NewOutputs(w.ledger, t), 0);
        FoundConcat(e, sk, w.ledger.store.ciphertexts, NewOutputs(w.ledger, t), 0);
        var ev := EventOf(w.ledger, op);
        DepositsApartBefore(w.log, ev, found, more);
        RunFoundDistinct(e, sk, depth, maxAnchors, ops[..k]);
        RunKeepsInv(depth, maxAnchors, ops);
        AcceptedExplained(e, sk, w.ledger, op);
        EventKeepsDistinct(w.log, ev, found, more);
      } else {
        RefusedAddsNothing(w.ledger, op);
        RunFoundDistinct(e, sk, depth, maxAnchors, ops[..k]);
      }
    }
  }

  // ---------------------------------------------------------------------------
  // Recovery, assuming distinct nonces of deposits only
  // ---------------------------------------------------------------------------

  /** The deposits of a history that pay the key keep their nonces apart. */
  ghost predicate DepositsKeepApart(e: Encryption, sk: Fr, depth: nat, maxAnchors: nat, actions: seq<Action>) {
    var w := Run(depth, maxAnchors, HistoryOps(e, sk, depth, maxAnchors, actions));
    DepositsApart(w.log, FoundOn(e, sk, w.ledger))
  }

  lemma {:induction false} HistoryFoundDistinct(e: Encryption, sk: Fr, depth: nat, maxAnchors: nat,
          actions: seq<Action>)
    requires OthersPacked(actions) && DepositsKeepApart(e, sk, depth, maxAnchors, actions)
    ensures DistinctNonces(FoundOn(e, sk, History(e, sk, depth, maxAnchors, actions).ledger))
  {
    hide Run, History, HistoryOps, FoundOn, DepositsApart, DistinctNonces, OthersPacked, AllPacked;
    HistoryIsRun(e, sk, depth, maxAnchors, actions);
    HistoryPacked(e, sk, depth, maxAnchors, actions);
    RunFoundDistinct(e, sk, depth, maxAnchors, HistoryOps(e, sk, depth, maxAnchors, actions));
  }

  /**
   Recovery agrees with the online wallet whatever nonces received and own transfers carry: when
   others' transfers are packed, only deposits can spoil it.
   */
  lemma {:induction false} PackedRecoveryAgrees(e: Encryption, sk: Fr, depth: nat, maxAnchors: nat,
          actions: seq<Action>, asset: Fr)
    requires Correct(e) && SingleDevice(e, sk, depth, maxAnchors, actions)
    requires OthersPacked(actions) && DepositsKeepApart(e, sk, depth, maxAnchors, actions)
    ensures var d := History(e, sk, depth, maxAnchors, actions);
      && multiset(UnspentEntries(d.notes)) <= multiset(Recovered(e, sk, d.ledger))
      && (d.pending == {} ==> multiset(UnspentEntries(d.notes)) == multiset(Recovered(e, sk, d.ledger)))
      && (d.pending == {} ==> Balance(Recovered(e, sk, d.ledger), asset) == Balance(d.notes, asset))
  {
    hide *;
    HistoryFoundDistinct(e, sk, depth, maxAnchors, actions);
    RecoveryAgrees(e, sk, depth, maxAnchors, actions);
    if History(e, sk, depth, maxAnchors, actions).pending == {} {
      RecoveredBalance(e, sk, depth, maxAnchors, actions, asset);
    }
  }

  // ---------------------------------------------------------------------------
  // Why the transfers of others must be packed
  // ---------------------------------------------------------------------------

  /** The spend through an unpacked slot, its output encrypted to KEY. */
  function PublishedSpend(e: Encryption, depth: nat): TransferRequest {
    var (ct, epk) := e.encrypt(Copy(depth), AddressOf(KEY, 0), 0);
    HiddenSpend(depth).(outputs := [TransferOutput(Copy(depth).Commitment(), Some(ct), Some(epk)), NO_OUTPUT,
        NO_OUTPUT])
  }

  function PublishedCopy(e: Encryption, depth: nat, tx: TxSig): OutputCiphertext {
    var (ct, epk) := e.encrypt(Copy(depth), AddressOf(KEY, 0), 0);
    OutputCiphertext(Copy(depth).Commitment(), ct, epk, tx, Some(CtHash(epk, ct)))
  }

  /** Ciphertexts are no part of the public inputs. */
  lemma {:induction false} SamePublic(e: Encryption, depth: nat)
    ensures var req, hidden := PublishedSpend(e, depth), HiddenSpend(depth);
      && TransferPublicOf(req) == TransferPublicOf(hidden) && req.spendProof == hidden.spendProof
      && req.anchor == SoleAnchor(depth) && WalkedNullifiers(req) == [ZERO]
      && req.spendProof.private == TransferPrivate(HiddenPrivate(depth))
  {
    hide Copy, NullifierOf, TxBindingTransfer;
  }

  /** Accepted whenever its anchor is, however often: one more copy is published each time. */
  lemma {:induction false} PublishedSpendRuns(e: Encryption, w: World, depth: nat)
    requires ValidAnchor(w.ledger, SoleAnchor(depth))
    ensures var t := Step(w, TransferOp(PublishedSpend(e, depth)));
      && t.log == w.log + [Transferred(TransferPublicOf(HiddenSpend(depth)), [FirstNote()], [Copy(depth)])]
      && t.ledger.maxAnchors == w.ledger.maxAnchors
      && exists tx :: t.ledger.store.ciphertexts == w.ledger.store.ciphertexts + [PublishedCopy(e, depth, tx)]
  {
    hide Verifies, SpentNotes, CreatedNotes, InsertOutputs, CtHash, Copy, HiddenSpend, TransferPublicOf;
    var req, s := PublishedSpend(e, depth), w.ledger;
    HiddenSpendVerifies(depth);
    HiddenSpendNotes(depth);
    SamePublic(e, depth);
    var nfs := WalkedNullifiers(req);
    assert nfs[1..] == [];
    assert InsertNullifiers(s, nfs) == InsertNullifiers(s, []);
    var tx := MockTx(s.txCounter + 1);
    CommitmentNotZero(Copy(depth));
    InsertOneOutput(s.store, req.outputs, tx, req.outputs[0].ciphertext.value, req.outputs[0].ephemeralKey.value);
    assert req.outputs[1..] == [NO_OUTPUT, NO_OUTPUT];
    forall mid: StoreState ensures InsertOutputs(mid, req.outputs[1..], tx) == mid {
      InsertNoOutputs(mid, tx);
    }
    assert Step(w, TransferOp(req)).ledger.store.ciphertexts == s.store.ciphertexts + [PublishedCopy(e, depth, tx)];
  }

  /**
   One unpacked transfer accepted twice publishes one note twice: a scan finds its nonce twice, though
   no deposit pays the key.
   */
  lemma {:induction false} UnpackedSpendIsFoundTwice(e: Encryption, depth: nat, maxAnchors: nat)
    requires Correct(e) && maxAnchors >= 2
    ensures var op := TransferOp(PublishedSpend(e, depth));
            var w := Run(depth, maxAnchors, [ShieldOp(Deposit(FirstNote())), op, op]);
            var found := FoundOn(e, KEY, w.ledger);
      && DepositsApart(w.log, found) && !DistinctNonces(found)
  {
    hide Run, Step, Inv, TreeNotes, PublishedSpend, HiddenSpend, NoteWith, Copy, Found, Correct, FoundOn, DepositsApart;
    var op1, op := ShieldOp(Deposit(FirstNote())), TransferOp(PublishedSpend(e, depth));
    var w := Run(depth, maxAnchors, [op1]);
    FirstDeposit(depth, maxAnchors);
    FirstDepositAnchor(depth, maxAnchors);
    FirstDepositIsHidden(depth, maxAnchors);
    RunSnoc(depth, maxAnchors, [op1], op);
    RunSnoc(depth, maxAnchors, [op1, op], op);
    assert [op1] + [op] == [op1, op] && [op1, op] + [op] == [op1, op, op];
    var t, u := Step(w, op), Step(Step(w, op), op);
    PublishedSpendRuns(e, w, depth);
    AnchorKept(w, PublishedSpend(e, depth), SoleAnchor(depth));
    PublishedSpendRuns(e, t, depth);
    var tx :| t.ledger.store.ciphertexts == w.ledger.store.ciphertexts + [PublishedCopy(e, depth, tx)];
    var ux :| u.ledger.store.ciphertexts == t.ledger.store.ciphertexts + [PublishedCopy(e, depth, ux)];
    assert u.ledger.store.ciphertexts == [PublishedCopy(e, depth, tx)] + [PublishedCopy(e, depth, ux)];
    TwoCopiesFound(e, depth, u.ledger, tx, ux);
    var event := Transferred(TransferPublicOf(HiddenSpend(depth)), [FirstNote()], [Copy(depth)]);
    FirstNotFound(u.log, event, FoundOn(e, KEY, u.ledger), depth);
  }

  lemma {:induction false} TwoCopiesFound(e: Encryption, depth: nat, s: LedgerState, tx: TxSig, ux: TxSig)
    requires Correct(e)
    requires s.store.ciphertexts == [PublishedCopy(e, depth, tx)] + [PublishedCopy(e, depth, ux)]
    ensures FoundOn(e, KEY, s) == [(Copy(depth), tx), (Copy(depth), ux)]
  {
    hide Found, Correct, TryDecryptOutput, CtHash, HiddenBinding, AddressField, ComputeAssetId;
    FoundConcat(e, KEY, [PublishedCopy(e, depth, tx)], [PublishedCopy(e, depth, ux)], 0);
    FoundOne(e, KEY, PublishedCopy(e, depth, tx));
    FoundOne(e, KEY, PublishedCopy(e, depth, ux));
    assert OwnedBy(Copy(depth), KEY) && Copy(depth).diversifierIndex == 0;
    OwnOutputDecrypts(e, KEY, Copy(depth), 0, tx);
    OwnOutputDecrypts(e, KEY, Copy(depth), 0, ux);
  }

  lemma {:induction false} FirstNotFound(log: seq<Event>, e: Event, found: seq<(Note, TxSig)>, depth: nat)
    requires e.Transferred? && |found| == 2 && found[0].0 == found[1].0 == Copy(depth)
    requires exists first: Event :: first.Shielded? && first.note == FirstNote() && log == [first] + [e] + [e]
    ensures DepositsApart(log, found) && !DistinctNonces(found)
  {
    hide Copy, NoteWith, OutputNonces;
    var first: Event :| first.Shielded? && first.note == FirstNote() && log == [first] + [e] + [e];
    DepositNotesStep([], first);
    DepositNotesStep([first], e);
    DepositNotesStep([first] + [e], e);
    assert [] + [first] == [first] && DepositNotes([]) == [];
    assert DepositNotes(log) == [FirstNote()];
    CopyIsNew(depth);
    assert !IsFound(found, FirstNote());
  }
}
