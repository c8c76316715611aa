/** Requests, slots, public and private inputs, and errors (client/src/traits.rs). */
module Traits {
  import opened Words
  import opened Bytes
  import opened Field
  import opened MerkleTree
  import opened Sponge

  datatype TxSig = MockTx(counter: nat) | Label(name: string)

  datatype StoreError = NotFound

  datatype ProofSystemError = VerificationFailed | InvalidPublicInputs

  datatype ChainError = DoubleSpend | InvalidAnchor | InvalidProof

  // ---------------------------------------------------------------------------
  // Ciphertexts
  // ---------------------------------------------------------------------------

  datatype OutputCiphertext = OutputCiphertext(
    commitment: Fr,
    ciphertext: seq<byte>,
    ephemeralKey: seq<byte>,
    txSig: TxSig,
    committedCtHash: Option<Fr>)

  function Literals(xs: seq<felt>): Inputs {
    if xs == [] then End else In(Num(xs[0]), Literals(xs[1..]))
  }

  /** ct_hash over ephemeral_key || ciphertext. */
  function CtHash(ephemeralKey: seq<byte>, ciphertext: seq<byte>): Fr {
    Hash(Literals(Pack(ephemeralKey + ciphertext)))
  }

  lemma {:induction false} LiteralsInjective(xs: seq<felt>, ys: seq<felt>)
    requires Literals(xs) == Literals(ys)
    ensures xs == ys
  {
    if xs != [] {
      LiteralsInjective(xs[1..], ys[1..]);
      assert xs == [xs[0]] + xs[1..] && ys == [ys[0]] + ys[1..];
    }
  }

  /** The ciphertext hash binds the ephemeral key and the ciphertext, for keys of one length. */
  lemma {:induction false} CtHashBinds(a: seq<byte>, c: seq<byte>, b: seq<byte>, d: seq<byte>)
    requires |a| == |b| && |a| + |c| < TWO_64 && |b| + |d| < TWO_64
    ensures CtHash(a, c) == CtHash(b, d) <==> a == b && c == d
  {
    hide Pack;
    if CtHash(a, c) == CtHash(b, d) {
      LiteralsInjective(Pack(a + c), Pack(b + d));
      PackInjective(a + c, b + d);
      assert a == (a + c)[..|a|] && c == (a + c)[|a|..];
      assert b == (b + d)[..|b|] && d == (b + d)[|b|..];
    }
  }

  datatype OutputCiphertextData = OutputCiphertextData(ciphertext: seq<byte>, ephemeralKey: seq<byte>, ctHash: Fr)

  function CiphertextData(ciphertext: seq<byte>, ephemeralKey: seq<byte>): OutputCiphertextData {
    OutputCiphertextData(ciphertext, ephemeralKey, CtHash(ephemeralKey, ciphertext))
  }

  // ---------------------------------------------------------------------------
  // Asset identifiers (client/src/note.rs)
  // ---------------------------------------------------------------------------

  function ComputeAssetId(token: Bytes32): Fr {
    Hash2(DOM_ASSET_ID, Num(FieldFromBytes(token)))
  }

  /** Two mints share an asset id exactly when their addresses agree modulo the field order. */
  lemma {:induction false} AssetIdCollision(a: Bytes32, b: Bytes32)
    ensures ComputeAssetId(a) == ComputeAssetId(b) <==> BeVal(a) % P == BeVal(b) % P
  {
  }

  /** Distinct mint addresses with one asset id: zero, and the field order itself. */
  lemma {:induction false} AssetIdCollisionWitness()
    ensures var a, b := BeBytes(0, 32), BeBytes(P, 32); a != b && ComputeAssetId(a) == ComputeAssetId(b)
  {
    Pow256Literals();
    BeEncodeDecode(0, 32);
    BeEncodeDecode(P, 32);
    AssetIdCollision(BeBytes(0, 32), BeBytes(P, 32));
  }

  // ---------------------------------------------------------------------------
  // Proof inputs
  // ---------------------------------------------------------------------------

  const MAX_INPUTS: nat := 3
  const MAX_OUTPUTS: nat := 3

  datatype TransferPublicInputs = TransferPublicInputs(
    anchor: Fr,
    nullifiers: Fr3,
    outputCommitments: Fr3,
    inputCount: u32,
    outputCount: u32,
    ctHashes: Fr3,
    txBinding: Fr)

  datatype ShieldPublicInputs = ShieldPublicInputs(
    newCommitment: Fr,
    publicAssetId: Fr,
    publicAmount: u64,
    ctHash: Fr)

  datatype UnshieldPublicInputs = UnshieldPublicInputs(
    anchor: Fr,
    nullifier: Fr,
    txBinding: Fr,
    publicAmount: u64,
    publicRecipientLimbs: Limbs,
    publicAssetId: Fr)

  datatype ProofPublicInputs =
    | ShieldPublic(shield: ShieldPublicInputs)
    | TransferPublic(transfer: TransferPublicInputs)
    | UnshieldPublic(unshield: UnshieldPublicInputs)

  datatype InputSlot = InputSlot(enabled: bool, note: Note, spendingKey: Fr, membershipWitness: MembershipWitness)

  datatype OutputSlot = OutputSlot(enabled: bool, note: Note)

  const ZERO_NOTE: Note := Note(ZERO, 0, ZERO, 0, ZERO, ZERO)
  const DEFAULT_INPUT: InputSlot := InputSlot(false, ZERO_NOTE, ZERO, MerklePath([], [], ZERO))
  const DEFAULT_OUTPUT: OutputSlot := OutputSlot(false, ZERO_NOTE)

  type Inputs3 = s: seq<InputSlot> | |s| == 3 witness [DEFAULT_INPUT, DEFAULT_INPUT, DEFAULT_INPUT]
  type Outputs3 = s: seq<OutputSlot> | |s| == 3 witness [DEFAULT_OUTPUT, DEFAULT_OUTPUT, DEFAULT_OUTPUT]

  datatype TransferPrivateInputs = TransferPrivateInputs(inputs: Inputs3, outputs: Outputs3)

  datatype UnshieldPrivateInputs = UnshieldPrivateInputs(spendingKey: Fr, note: Note,
      membershipWitness: MembershipWitness)

  datatype ProofPrivateInputs =
    | ShieldPrivate(note: Note)
    | TransferPrivate(transfer: TransferPrivateInputs)
    | UnshieldPrivate(unshield: UnshieldPrivateInputs)

  /** Notes of the enabled input slots, in slot order. */
  function SpentNotes(slots: seq<InputSlot>): (notes: seq<Note>) {
    if slots == [] then []
    else SpentNotes(slots[..|slots| - 1]) + (if slots[|slots| - 1].enabled then [slots[|slots| - 1].note] else [])
  }

  /** Notes of the enabled output slots, in slot order. */
  function CreatedNotes(slots: seq<OutputSlot>): (notes: seq<Note>) {
    if slots == [] then []
    else CreatedNotes(slots[..|slots| - 1]) + (if slots[|slots| - 1].enabled then [slots[|slots| - 1].note] else [])
  }

  function Total(notes: seq<Note>): nat {
    if notes == [] then 0 else Total(notes[..|notes| - 1]) + notes[|notes| - 1].amount
  }

  // ---------------------------------------------------------------------------
  // Chain requests
  // ---------------------------------------------------------------------------

  /** Proof bytes, idealised as the prover run that produced them. */
  datatype ProverRun = ProverRun(public: ProofPublicInputs, private: ProofPrivateInputs)

  datatype ShieldRequest = ShieldRequest(
    tokenAddress: Bytes32,
    amount: u64,
    commitment: Fr,
    shieldProof: ProverRun,
    ciphertext: Option<seq<byte>>,
    ephemeralKey: Option<seq<byte>>,
    ctHash: Fr)

  datatype TransferOutput = TransferOutput(
    commitment: Fr,
    ciphertext: Option<seq<byte>>,
    ephemeralKey: Option<seq<byte>>)

  const NO_OUTPUT: TransferOutput := TransferOutput(ZERO, None, None)

  type TransferOutputs3 = s: seq<TransferOutput> | |s| == 3 witness [NO_OUTPUT, NO_OUTPUT, NO_OUTPUT]

  datatype TransferRequest = TransferRequest(
    anchor: Fr,
    nullifiers: Fr3,
    inputCount: u32,
    outputCount: u32,
    ctHashes: Fr3,
    txBinding: Fr,
    spendProof: ProverRun,
    outputs: TransferOutputs3)

  datatype UnshieldRequest = UnshieldRequest(
    anchor: Fr,
    nullifier: Fr,
    txBinding: Fr,
    spendProof: ProverRun,
    recipient: Bytes32,
    amount: u64,
    tokenAddress: Bytes32)

  /** The public inputs the chain rebuilds from a request before verifying its proof. */
  function ShieldPublicOf(req: ShieldRequest): ShieldPublicInputs {
    ShieldPublicInputs(req.commitment, ComputeAssetId(req.tokenAddress), req.amount, req.ctHash)
  }

  function TransferPublicOf(req: TransferRequest): TransferPublicInputs {
    TransferPublicInputs(
      req.anchor, req.nullifiers,
      [req.outputs[0].commitment, req.outputs[1].commitment, req.outputs[2].commitment],
      req.inputCount, req.outputCount, req.ctHashes, req.txBinding)
  }

  function UnshieldPublicOf(req: UnshieldRequest): UnshieldPublicInputs {
    UnshieldPublicInputs(req.anchor, req.nullifier, req.txBinding, req.amount,
                         RecipientLimbs(req.recipient), ComputeAssetId(req.tokenAddress))
  }

  /** Ciphertext data travels only when both of its parts are present. */
  function AttachedCiphertext(ciphertext: Option<seq<byte>>,
          ephemeralKey: Option<seq<byte>>): Option<OutputCiphertextData> {
    if ciphertext.Some? && ephemeralKey.Some? then Some(CiphertextData(ciphertext.value, ephemeralKey.value)) else None
  }
}
