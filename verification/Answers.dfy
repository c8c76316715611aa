/** What the chain answers, and what an accepted request puts on it, exactly (client/src/mock.rs). */
module Answers {
  import opened Words
  import opened Bytes
  import opened Field
  import opened Traits
  import opened Store
  import opened Proofs
  import opened Value
  import opened Ledger
  import opened Safety
  import opened Exactness

  // ---------------------------------------------------------------------------
  // Outputs on chain
  // ---------------------------------------------------------------------------

  /** Outputs that carry a commitment, in order. */
  function Real(outputs: seq<TransferOutput>): seq<TransferOutput> {
    if outputs == [] then []
    else
      var last := outputs[|outputs| - 1];
      Real(outputs[..|outputs| - 1]) + (if last.commitment != ZERO then [last] else [])
  }

  /** What the indexer shows of them: those with both ciphertext parts, each with its hash. */
  function Published(outputs: seq<TransferOutput>, tx: TxSig): seq<OutputCiphertext> {
    if outputs == [] then []
    else
      var o := outputs[|outputs| - 1];
      Published(outputs[..|outputs| - 1], tx)
      + (if o.ciphertext.Some? && o.ephemeralKey.Some? then
           var hash := CtHash(o.ephemeralKey.value, o.ciphertext.value);
           [OutputCiphertext(o.commitment, o.ciphertext.value, o.ephemeralKey.value, tx, Some(hash))]
         else [])
  }

  function Logged(s: StoreState, tx: TxSig): seq<Fr> { if tx in s.txLog then s.txLog[tx] else [] }

  function CommitmentsOf(outputs: seq<TransferOutput>): seq<Fr> {
    seq(|outputs|, i requires 0 <= i < |outputs| => outputs[i].commitment)
  }

  /** These outputs, and nothing else, went onto the next leaves, the indexer and the transaction log. */
  ghost predicate PutOnChain(s: StoreState, t: StoreState, outputs: seq<TransferOutput>, tx: TxSig) {
    && t.depth == s.depth && t.nullifiers == s.nullifiers
    && t.leafCount == s.leafCount + |outputs|
    && (forall i :: i in t.leaves <==> i in s.leaves || s.leafCount <= i < t.leafCount)
    && (forall i :: i in t.leaves ==>
          t.leaves[i] == if s.leafCount <= i < t.leafCount then outputs[i - s.leafCount].commitment else s.leaves[i])
    && t.ciphertexts == s.ciphertexts + Published(outputs, tx)
    && Logged(t, tx) == Logged(s, tx) + CommitmentsOf(outputs)
    && (forall other :: other != tx ==> Logged(t, other) == Logged(s, other))
  }

  lemma {:induction false} PublishedConcat(a: seq<TransferOutput>, b: seq<TransferOutput>, tx: TxSig)
    ensures Published(a + b, tx) == Published(a, tx) + Published(b, tx)
    ensures Real(a + b) == Real(a) + Real(b)
  {
    hide CtHash;
    if b == [] {
      assert a + b == a;
    } else {
      var front, all := b[..|b| - 1], a + b;
      PublishedConcat(a, front, tx);
      assert all[..|all| - 1] == a + front && all[|all| - 1] == b[|b| - 1];
    }
  }

  lemma {:induction false} OneOutputOnChain(s: StoreState, o: TransferOutput, tx: TxSig)
    ensures PutOnChain(s, OutputInserted(s, o.commitment, tx, AttachedCiphertext(o.ciphertext, o.ephemeralKey)), [o],
            tx)
    ensures Real([o]) == if o.commitment != ZERO then [o] else []
  {
    hide CtHash;
    var data := AttachedCiphertext(o.ciphertext, o.ephemeralKey);
    var t := OutputInserted(s, o.commitment, tx, data);
    assert [o][..0] == [];
    assert CommitmentsOf([o]) == [o.commitment];
    assert t.ciphertexts == s.ciphertexts + Published([o], tx) by {
      assert Published([], tx) == [];
    }
    assert Logged(t, tx) == Logged(s, tx) + [o.commitment];
  }

  lemma {:induction false} NothingPutOnChain(s: StoreState, tx: TxSig)
    ensures PutOnChain(s, s, [], tx)
  {
    assert CommitmentsOf([]) == [];
  }

  lemma {:induction false} PutOnChainTwice(s: StoreState, t: StoreState, u: StoreState, a: seq<TransferOutput>,
          b: seq<TransferOutput>, tx: TxSig)
    requires PutOnChain(s, t, a, tx) && PutOnChain(t, u, b, tx)
    ensures PutOnChain(s, u, a + b, tx)
  {
    hide Published, Logged;
    PublishedConcat(a, b, tx);
    assert CommitmentsOf(a + b) == CommitmentsOf(a) + CommitmentsOf(b);
  }

  /** Every output with a commitment goes on chain, in order, and none without. */
  lemma {:induction false} OutputsPutOnChain(s: StoreState, outputs: seq<TransferOutput>, tx: TxSig)
    ensures PutOnChain(s, InsertOutputs(s, outputs, tx), Real(outputs), tx)
    decreases |outputs|
  {
    if outputs == [] {
      assert CommitmentsOf([]) == [];
    } else {
      hide PutOnChain, Published, OutputInserted, AttachedCiphertext, Real;
      var head, rest := outputs[0], outputs[1..];
      assert outputs == [head] + rest;
      PublishedConcat([head], rest, tx);
      OneOutputOnChain(s, head, tx);
      if head.commitment == ZERO {
        assert [] + Real(rest) == Real(rest);
        OutputsPutOnChain(s, rest, tx);
      } else {
        var mid := OutputInserted(s, head.commitment, tx, AttachedCiphertext(head.ciphertext, head.ephemeralKey));
        OutputsPutOnChain(mid, rest, tx);
        PutOnChainTwice(s, mid, InsertOutputs(mid, rest, tx), [head], Real(rest), tx);
      }
    }
  }

  // ---------------------------------------------------------------------------
  // Answers
  // ---------------------------------------------------------------------------

  /** Nothing that a later request could notice has changed. */
  ghost predicate Untouched(s: LedgerState, t: LedgerState) {
    t.store == s.store && t.nullifiers == s.nullifiers && t.anchors == s.anchors
  }

  /** A deposit is refused for its proof alone; accepted, its commitment is the next leaf. */
  lemma {:induction false} ShieldAnswer(s: LedgerState, req: ShieldRequest)
    ensures var (t, r) := ExecShield(s, req);
            var o := TransferOutput(req.commitment, req.ciphertext, req.ephemeralKey);
      && (r.Err? <==> !Verifies(ShieldPublic(ShieldPublicOf(req)), req.shieldProof))
      && (r.Err? ==> r == Err(InvalidProof) && Untouched(s, t))
      && (r.Ok? ==> r.value == MockTx(t.txCounter) && t.txCounter > s.txCounter)
      && (r.Ok? ==> t.nullifiers == s.nullifiers && PutOnChain(s.store, t.store, [o], r.value))
  {
    hide Verifies, PutOnChain, OutputInserted, AttachedCiphertext;
    OneOutputOnChain(s.store, TransferOutput(req.commitment, req.ciphertext, req.ephemeralKey),
        MockTx(s.txCounter + 1));
  }

  /** Anchor first, then the proof, then the nullifiers; each complaint exactly when it is due. */
  lemma {:induction false} TransferAnswer(s: LedgerState, req: TransferRequest)
    ensures var (t, r) := ExecTransfer(s, req);
            var nfs := WalkedNullifiers(req);
            var proven := Verifies(TransferPublic(TransferPublicOf(req)), req.spendProof);
      && (r == Err(InvalidAnchor) <==> !ValidAnchor(s, req.anchor))
      && (r == Err(InvalidProof) <==> ValidAnchor(s, req.anchor) && !proven)
      && (r == Err(DoubleSpend) <==>
            ValidAnchor(s, req.anchor) && proven && !(NonZeroDistinct(nfs) && s.nullifiers !! NonZero(nfs)))
      && (r.Err? ==> t.store == s.store && t.anchors == s.anchors)
      && (r.Err? && r != Err(DoubleSpend) ==> Untouched(s, t))
      && (r.Ok? ==> r.value == MockTx(t.txCounter) && t.txCounter > s.txCounter)
      && (r.Ok? ==> t.nullifiers == s.nullifiers + NonZero(nfs))
      && (r.Ok? ==> PutOnChain(s.store, t.store, Real(req.outputs), r.value))
  {
    hide Verifies, PutOnChain, InsertOutputs, InsertNullifiers, Real, ValidAnchor, NonZeroDistinct, NonZero,
         WalkedNullifiers;
    InsertionSucceedsIff(s, WalkedNullifiers(req));
    InsertNullifiersEffect(s, WalkedNullifiers(req));
    var u := InsertNullifiers(s, WalkedNullifiers(req)).0;
    OutputsPutOnChain(s.store, req.outputs, MockTx(u.txCounter + 1));
  }

  lemma {:induction false} UnshieldAnswer(s: LedgerState, req: UnshieldRequest)
    ensures var (t, r) := ExecUnshield(s, req);
            var proven := Verifies(UnshieldPublic(UnshieldPublicOf(req)), req.spendProof);
      && (r == Err(InvalidAnchor) <==> !ValidAnchor(s, req.anchor))
      && (r == Err(InvalidProof) <==> ValidAnchor(s, req.anchor) && !proven)
      && (r == Err(DoubleSpend) <==> ValidAnchor(s, req.anchor) && proven && req.nullifier in s.nullifiers)
      && (r.Err? ==> Untouched(s, t))
      && (r.Ok? ==> r.value == MockTx(t.txCounter) && t.txCounter > s.txCounter)
      && (r.Ok? ==> t.store == s.store && t.anchors == s.anchors && t.nullifiers == s.nullifiers + {req.nullifier})
  {
    hide Verifies, ValidAnchor;
  }

  // ---------------------------------------------------------------------------
  // What one proof can be used for
  // ---------------------------------------------------------------------------

  /** One withdrawal proof pays one recipient one amount of one asset, whatever request carries it. */
  lemma {:induction false} ProofPaysOneRecipient(a: UnshieldRequest, b: UnshieldRequest)
    requires a.spendProof == b.spendProof
    requires Verifies(UnshieldPublic(UnshieldPublicOf(a)), a.spendProof)
    requires Verifies(UnshieldPublic(UnshieldPublicOf(b)), b.spendProof)
    ensures a.recipient == b.recipient && a.amount == b.amount && a.nullifier == b.nullifier && a.anchor == b.anchor
    ensures ComputeAssetId(a.tokenAddress) == ComputeAssetId(b.tokenAddress)
    ensures a.spendProof.public.UnshieldPublic?
    ensures RecipientBytes(a.spendProof.public.unshield.publicRecipientLimbs) == a.recipient
    ensures a.spendProof.public.unshield.publicAmount == a.amount
  {
    hide RecipientBytes, ComputeAssetId;
    var p, q := UnshieldPublic(UnshieldPublicOf(a)), UnshieldPublic(UnshieldPublicOf(b));
    PublicInputsHashBinds(a.spendProof.public, p);
    PublicInputsHashBinds(a.spendProof.public, q);
    RecipientLimbsInverse(a.recipient, RecipientLimbs(a.recipient));
    RecipientLimbsInverse(b.recipient, RecipientLimbs(b.recipient));
  }

  /** One transfer proof fixes anchor, nullifiers, counts and output commitments; not the ciphertexts. */
  lemma {:induction false} ProofFixesTransfer(a: TransferRequest, b: TransferRequest)
    requires a.spendProof == b.spendProof
    requires Verifies(TransferPublic(TransferPublicOf(a)), a.spendProof)
    requires Verifies(TransferPublic(TransferPublicOf(b)), b.spendProof)
    ensures a.anchor == b.anchor && a.nullifiers == b.nullifiers
    ensures a.inputCount == b.inputCount && a.outputCount == b.outputCount
    ensures forall j :: 0 <= j < MAX_OUTPUTS ==> a.outputs[j].commitment == b.outputs[j].commitment
  {
    PublicInputsHashBinds(a.spendProof.public, TransferPublic(TransferPublicOf(a)));
    PublicInputsHashBinds(a.spendProof.public, TransferPublic(TransferPublicOf(b)));
    var x, y := TransferPublicOf(a).outputCommitments, TransferPublicOf(b).outputCommitments;
    assert x == y;
    assert forall j :: 0 <= j < MAX_OUTPUTS ==> x[j] == a.outputs[j].commitment && y[j] == b.outputs[j].commitment;
  }

  /** Two accepted withdrawals under one binding are the same withdrawal. */
  lemma {:induction false} BindingFixesWithdrawal(a: UnshieldRequest, b: UnshieldRequest)
    requires a.txBinding == b.txBinding
    requires Verifies(UnshieldPublic(UnshieldPublicOf(a)), a.spendProof)
    requires Verifies(UnshieldPublic(UnshieldPublicOf(b)), b.spendProof)
    ensures a.anchor == b.anchor && a.nullifier == b.nullifier && a.amount == b.amount && a.recipient == b.recipient
    ensures ComputeAssetId(a.tokenAddress) == ComputeAssetId(b.tokenAddress)
  {
    hide TxBindingUnshield, ComputeAssetId, RecipientLimbs, Verifies;
    AcceptedUnshield(UnshieldPublicOf(a), a.spendProof);
    AcceptedUnshield(UnshieldPublicOf(b), b.spendProof);
    TxBindingFixesWithdrawal(a.anchor, a.nullifier, a.amount, a.recipient, ComputeAssetId(a.tokenAddress),
                             b.anchor, b.nullifier, b.amount, b.recipient, ComputeAssetId(b.tokenAddress));
  }
}
