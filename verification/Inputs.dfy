/**
 Public inputs of the three circuits as the program parses and serialises them
 (programs/solana-masp/src/inputs.rs).
 */
module CircuitInputs {
  import opened Words
  import opened Bytes
  import opened ProofBuffer

  type Three = s: seq<Bytes32> | |s| == 3 witness [ZERO_32, ZERO_32, ZERO_32]

  datatype ShieldInputs = ShieldInputs(commitment: Bytes32, assetId: Bytes32, amount: u64, ctHash: Bytes32)

  datatype TransferInputs = TransferInputs(
    anchor: Bytes32,
    nullifiers: Three,
    outputCommitments: Three,
    inputCount: u32,
    outputCount: u32,
    ctHashes: Three,
    txBinding: Bytes32)

  datatype UnshieldInputs = UnshieldInputs(
    anchor: Bytes32,
    nullifier: Bytes32,
    txBinding: Bytes32,
    amount: u64,
    recipientLimbs: Limbs,
    assetId: Bytes32)

  const SHIELD_PI_COUNT: nat := 4
  const TRANSFER_PI_COUNT: nat := 13
  const UNSHIELD_PI_COUNT: nat := 9

  // ---------------------------------------------------------------------------
  // Numbers in 32-byte big-endian fields
  // ---------------------------------------------------------------------------

  function Zeros(n: nat): (s: seq<byte>)
    ensures |s| == n
  {
    seq(n, _ => 0)
  }

  function U64Field(v: u64): Bytes32 { Zeros(24) + BeBytes(v, 8) }

  function U32Field(v: u32): Bytes32 { Zeros(28) + BeBytes(v, 4) }

  lemma {:induction false} BeWordFits(b: Bytes32)
    ensures BeVal(b[24..32]) < TWO_64 && BeVal(b[28..32]) < 0x1_0000_0000
  {
    BeValBound(b[24..32]);
    BeValBound(b[28..32]);
    Pow256Literals();
  }

  /** Only the last eight bytes are read. */
  function ReadU64(b: Bytes32): u64 {
    BeWordFits(b);
    BeVal(b[24..32])
  }

  function ReadU32(b: Bytes32): u32 {
    BeWordFits(b);
    BeVal(b[28..32])
  }

  lemma {:induction false} BeWordsReadBack(v: u64, w: u32)
    ensures BeVal(BeBytes(v, 8)) == v && BeVal(BeBytes(w, 4)) == w
  {
    hide BeVal, BeBytes;
    Pow256Literals();
    BeEncodeDecode(v, 8);
    BeEncodeDecode(w, 4);
  }

  lemma {:induction false} NumbersReadBack(v: u64, w: u32)
    ensures ReadU64(U64Field(v)) == v && ReadU32(U32Field(w)) == w
  {
    hide BeVal, BeBytes, Zeros;
    BeWordsReadBack(v, w);
    assert U64Field(v)[24..32] == BeBytes(v, 8);
    assert U32Field(w)[28..32] == BeBytes(w, 4);
  }

  /** Writing back what was read reproduces the field exactly when its unread bytes are zero. */
  lemma {:induction false} NumbersWriteBack(b: Bytes32)
    ensures U64Field(ReadU64(b)) == b <==> b[..24] == Zeros(24)
    ensures U32Field(ReadU32(b)) == b <==> b[..28] == Zeros(28)
  {
    BeDecodeEncode(b[24..32]);
    BeDecodeEncode(b[28..32]);
    assert b == b[..24] + b[24..32] == b[..28] + b[28..32];
    assert U64Field(ReadU64(b))[..24] == Zeros(24) && U32Field(ReadU32(b))[..28] == Zeros(28);
  }

  // ---------------------------------------------------------------------------
  // Serialisation
  // ---------------------------------------------------------------------------

  function ShieldFields(x: ShieldInputs): seq<Bytes32> {
    [x.commitment, x.assetId, U64Field(x.amount), x.ctHash]
  }

  function TransferFields(x: TransferInputs): seq<Bytes32> {
    [x.anchor] + x.nullifiers + x.outputCommitments + [U32Field(x.inputCount), U32Field(x.outputCount)]
    + x.ctHashes + [x.txBinding]
  }

  function UnshieldFields(x: UnshieldInputs): seq<Bytes32> {
    [x.anchor, x.nullifier, x.txBinding, U64Field(x.amount), U64Field(x.recipientLimbs[0]),
        U64Field(x.recipientLimbs[1]),
     U64Field(x.recipientLimbs[2]), U64Field(x.recipientLimbs[3]), x.assetId]
  }

  /** Where the transfer circuit looks for each of its public inputs. */
  lemma {:induction false} TransferCircuitOrder(x: TransferInputs)
    ensures var f := TransferFields(x);
      && |f| == TRANSFER_PI_COUNT && f[0] == x.anchor && f[1..4] == x.nullifiers && f[4..7] == x.outputCommitments
      && BeVal(f[7]) == x.inputCount && BeVal(f[8]) == x.outputCount && f[9..12] == x.ctHashes && f[12] == x.txBinding
  {
    hide BeVal, Zeros, BeBytes;
    NumberIsValue(0, x.inputCount);
    NumberIsValue(0, x.outputCount);
  }

  /** The same for the shield and unshield circuits. */
  lemma {:induction false} OtherCircuitsOrder(x: ShieldInputs, y: UnshieldInputs)
    ensures var f := ShieldFields(x);
      && |f| == SHIELD_PI_COUNT && f[0] == x.commitment && f[1] == x.assetId && BeVal(f[2]) == x.amount
         && f[3] == x.ctHash
    ensures var g := UnshieldFields(y);
      && |g| == UNSHIELD_PI_COUNT && g[0] == y.anchor && g[1] == y.nullifier && g[2] == y.txBinding
      && BeVal(g[3]) == y.amount && (forall i :: 0 <= i < 4 ==> BeVal(g[4 + i]) == y.recipientLimbs[i])
      && g[8] == y.assetId
  {
    hide BeVal, Zeros, BeBytes;
    NumberIsValue(x.amount, 0);
    NumberIsValue(y.amount, 0);
    forall i | 0 <= i < 4 ensures BeVal(UnshieldFields(y)[4 + i]) == y.recipientLimbs[i] {
      NumberIsValue(y.recipientLimbs[i], 0);
    }
  }

  /** A number's field holds the number, big endian over all 32 bytes. */
  lemma {:induction false} NumberIsValue(v: u64, w: u32)
    ensures BeVal(U64Field(v)) == v && BeVal(U32Field(w)) == w
  {
    hide BeVal, Zeros, BeBytes;
    BeWordsReadBack(v, w);
    LeadingZeros(24);
    LeadingZeros(28);
    BePlaces(U64Field(v), 24);
    BePlaces(U32Field(w), 28);
    assert U64Field(v)[24..] == BeBytes(v, 8) && U64Field(v)[..24] == Zeros(24);
    assert U32Field(w)[28..] == BeBytes(w, 4) && U32Field(w)[..28] == Zeros(28);
  }

  lemma {:induction false} LeadingZeros(n: nat)
    ensures BeVal(Zeros(n)) == 0
  {
    if n > 0 {
      LeadingZeros(n - 1);
      assert Zeros(n)[..n - 1] == Zeros(n - 1);
    }
  }

  method TransferToPublicInputs(x: TransferInputs) returns (pis: seq<Bytes32>)
    ensures pis == TransferFields(x)
  {
    var out := new Bytes32[TRANSFER_PI_COUNT](_ => Zeros(32));
    var idx := 0;
    out[idx] := x.anchor;
    idx := idx + 1;
    assert out[..idx] == [x.anchor];
    idx := PutThree(out, idx, x.nullifiers);
    idx := PutThree(out, idx, x.outputCommitments);
    idx := PutOne(out, idx, U32Field(x.inputCount));
    idx := PutOne(out, idx, U32Field(x.outputCount));
    idx := PutThree(out, idx, x.ctHashes);
    idx := PutOne(out, idx, x.txBinding);
    pis := out[..];
    assert pis == out[..idx];
    FieldsInOrder(x);
  }

  method PutOne(out: array<Bytes32>, start: nat, x: Bytes32) returns (idx: nat)
    requires start < out.Length
    modifies out
    ensures idx == start + 1 && out[..idx] == old(out[..start]) + [x]
  {
    out[start] := x;
    idx := start + 1;
  }

  method PutThree(out: array<Bytes32>, start: nat, xs: Three) returns (idx: nat)
    requires start + 3 <= out.Length
    modifies out
    ensures idx == start + 3 && out[..idx] == old(out[..start]) + xs
  {
    idx := start;
    var k := 0;
    while k < 3
      invariant k <= 3 && idx == start + k
      invariant out[..idx] == old(out[..start]) + xs[..k]
    {
      idx := PutOne(out, idx, xs[k]);
      assert xs[..k + 1] == xs[..k] + [xs[k]];
      k := k + 1;
    }
  }

  lemma {:induction false} FieldsInOrder(x: TransferInputs)
    ensures TransferFields(x)
         == [x.anchor] + x.nullifiers + x.outputCommitments + [U32Field(x.inputCount)] + [U32Field(x.outputCount)]
            + x.ctHashes + [x.txBinding]
  {
  }

  // ---------------------------------------------------------------------------
  // Parsing
  // ---------------------------------------------------------------------------

  function ParsedShield(data: seq<byte>): ShieldInputs
    requires |data| >= HEADER_SIZE + SHIELD_PI_COUNT * 32
  {
    ShieldInputs(FieldAt(data, 0), FieldAt(data, 1), ReadU64(FieldAt(data, 2)), FieldAt(data, 3))
  }

  function ParsedTransfer(data: seq<byte>): TransferInputs
    requires |data| >= HEADER_SIZE + TRANSFER_PI_COUNT * 32
  {
    TransferInputs(
      FieldAt(data, 0),
      [FieldAt(data, 1), FieldAt(data, 2), FieldAt(data, 3)],
      [FieldAt(data, 4), FieldAt(data, 5), FieldAt(data, 6)],
      ReadU32(FieldAt(data, 7)), ReadU32(FieldAt(data, 8)),
      [FieldAt(data, 9), FieldAt(data, 10), FieldAt(data, 11)],
      FieldAt(data, 12))
  }

  function ParsedUnshield(data: seq<byte>): UnshieldInputs
    requires |data| >= HEADER_SIZE + UNSHIELD_PI_COUNT * 32
  {
    UnshieldInputs(
      FieldAt(data, 0), FieldAt(data, 1), FieldAt(data, 2), ReadU64(FieldAt(data, 3)),
      [ReadU64(FieldAt(data, 4)), ReadU64(FieldAt(data, 5)), ReadU64(FieldAt(data, 6)), ReadU64(FieldAt(data, 7))],
      FieldAt(data, 8))
  }

  /** Three consecutive fields, moving the offset along. */
  method TakeThree(data: seq<byte>, start: nat, ghost first: nat) returns (xs: Three, offset: nat)
    requires start == HEADER_SIZE + 32 * first && start + 96 <= |data|
    ensures offset == start + 96
    ensures xs == [FieldAt(data, first), FieldAt(data, first + 1), FieldAt(data, first + 2)]
  {
    var out := new Bytes32[3](_ => Zeros(32));
    offset := start;
    var k := 0;
    while k < 3
      invariant k <= 3 && offset == start + 32 * k
      invariant forall i :: 0 <= i < k ==> out[i] == FieldAt(data, first + i)
    {
      out[k] := data[offset..offset + 32];
      offset := offset + 32;
      k := k + 1;
    }
    xs := out[..];
  }

  method TransferFromBuffer(data: seq<byte>) returns (r: Result<TransferInputs, ProgramError>)
    ensures |data| < HEADER_SIZE + TRANSFER_PI_COUNT * 32 ==> r == Err(InvalidAccountData)
    ensures |data| >= HEADER_SIZE + TRANSFER_PI_COUNT * 32 ==> r == Ok(ParsedTransfer(data))
  {
    if |data| < HEADER_SIZE + TRANSFER_PI_COUNT * 32 {
      return Err(InvalidAccountData);
    }
    var offset := HEADER_SIZE;
    var anchor: Bytes32 := data[offset..offset + 32];
    offset := offset + 32;
    var nullifiers, outputCommitments, ctHashes;
    nullifiers, offset := TakeThree(data, offset, 1);
    outputCommitments, offset := TakeThree(data, offset, 4);
    var inputCount := ReadU32(data[offset..offset + 32]);
    offset := offset + 32;
    var outputCount := ReadU32(data[offset..offset + 32]);
    offset := offset + 32;
    ctHashes, offset := TakeThree(data, offset, 9);
    var txBinding: Bytes32 := data[offset..offset + 32];
    r := Ok(TransferInputs(anchor, nullifiers, outputCommitments, inputCount, outputCount, ctHashes, txBinding));
  }

  method ShieldFromBuffer(data: seq<byte>) returns (r: Result<ShieldInputs, ProgramError>)
    ensures |data| < HEADER_SIZE + SHIELD_PI_COUNT * 32 ==> r == Err(InvalidAccountData)
    ensures |data| >= HEADER_SIZE + SHIELD_PI_COUNT * 32 ==> r == Ok(ParsedShield(data))
  {
    if |data| < HEADER_SIZE + SHIELD_PI_COUNT * 32 {
      return Err(InvalidAccountData);
    }
    var offset := HEADER_SIZE;
    var commitment: Bytes32 := data[offset..offset + 32];
    offset := offset + 32;
    var assetId: Bytes32 := data[offset..offset + 32];
    offset := offset + 32;
    var amount := ReadU64(data[offset..offset + 32]);
    offset := offset + 32;
    var ctHash: Bytes32 := data[offset..offset + 32];
    r := Ok(ShieldInputs(commitment, assetId, amount, ctHash));
  }

  method UnshieldFromBuffer(data: seq<byte>) returns (r: Result<UnshieldInputs, ProgramError>)
    ensures |data| < HEADER_SIZE + UNSHIELD_PI_COUNT * 32 ==> r == Err(InvalidAccountData)
    ensures |data| >= HEADER_SIZE + UNSHIELD_PI_COUNT * 32 ==> r == Ok(ParsedUnshield(data))
  {
    if |data| < HEADER_SIZE + UNSHIELD_PI_COUNT * 32 {
      return Err(InvalidAccountData);
    }
    var offset := HEADER_SIZE;
    var anchor: Bytes32 := data[offset..offset + 32];
    offset := offset + 32;
    var nullifier: Bytes32 := data[offset..offset + 32];
    offset := offset + 32;
    var txBinding: Bytes32 := data[offset..offset + 32];
    offset := offset + 32;
    var amount := ReadU64(data[offset..offset + 32]);
    offset := offset + 32;
    var limbs := new u64[4](_ => 0);
    var k := 0;
    while k < 4
      invariant k <= 4 && offset == HEADER_SIZE + 32 * (4 + k)
      invariant forall i :: 0 <= i < k ==> limbs[i] == ReadU64(FieldAt(data, 4 + i))
    {
      limbs[k] := ReadU64(data[offset..offset + 32]);
      offset := offset + 32;
      k := k + 1;
    }
    var assetId: Bytes32 := data[offset..offset + 32];
    assert limbs[..] == ParsedUnshield(data).recipientLimbs;
    r := Ok(UnshieldInputs(anchor, nullifier, txBinding, amount, limbs[..], assetId));
  }

  // ---------------------------------------------------------------------------
  // Upload, then parse
  // ---------------------------------------------------------------------------

  lemma {:induction false} AllFieldsReadBack(initial: seq<byte>, fields: seq<Bytes32>, proof: seq<byte>)
    requires HEADER_SIZE + 32 * |fields| + |proof| <= |initial|
    ensures var data := Filled(initial, Flatten(fields) + proof);
            forall i: nat :: i < |fields| ==> FieldAt(data, i) == fields[i]
  {
    var data := Filled(initial, Flatten(fields) + proof);
    FilledBody(initial, fields, proof);
    forall i: nat | i < |fields| ensures FieldAt(data, i) == fields[i] {
      FieldsReadBack(data, fields, proof + initial[HEADER_SIZE + 32 * |fields| + |proof|..], i);
    }
  }

  /** Parsing an uploaded transfer gives back the inputs it was made from, whatever the proof is. */
  lemma {:induction false} TransferUploadParses(initial: seq<byte>, x: TransferInputs, proof: seq<byte>)
    requires HEADER_SIZE + 32 * TRANSFER_PI_COUNT + |proof| <= |initial|
    ensures |TransferFields(x)| == TRANSFER_PI_COUNT
    ensures ParsedTransfer(Filled(initial, Flatten(TransferFields(x)) + proof)) == x
  {
    var fields := TransferFields(x);
    AllFieldsReadBack(initial, fields, proof);
    NumbersReadBack(0, x.inputCount);
    NumbersReadBack(0, x.outputCount);
    var y := ParsedTransfer(Filled(initial, Flatten(fields) + proof));
    assert fields[1..4] == x.nullifiers && fields[4..7] == x.outputCommitments && fields[9..12] == x.ctHashes;
    assert y.nullifiers == [fields[1], fields[2], fields[3]] == x.nullifiers;
    assert y.outputCommitments == [fields[4], fields[5], fields[6]] == x.outputCommitments;
    assert y.ctHashes == [fields[9], fields[10], fields[11]] == x.ctHashes;
  }

  lemma {:induction false} ShieldUploadParses(initial: seq<byte>, x: ShieldInputs, proof: seq<byte>)
    requires HEADER_SIZE + 32 * SHIELD_PI_COUNT + |proof| <= |initial|
    ensures ParsedShield(Filled(initial, Flatten(ShieldFields(x)) + proof)) == x
  {
    AllFieldsReadBack(initial, ShieldFields(x), proof);
    NumbersReadBack(x.amount, 0);
  }

  lemma {:induction false} UnshieldUploadParses(initial: seq<byte>, x: UnshieldInputs, proof: seq<byte>)
    requires HEADER_SIZE + 32 * UNSHIELD_PI_COUNT + |proof| <= |initial|
    ensures ParsedUnshield(Filled(initial, Flatten(UnshieldFields(x)) + proof)) == x
  {
    var fields := UnshieldFields(x);
    AllFieldsReadBack(initial, fields, proof);
    NumbersReadBack(x.amount, 0);
    forall i | 0 <= i < 4 ensures ReadU64(fields[4 + i]) == x.recipientLimbs[i] {
      NumbersReadBack(x.recipientLimbs[i], 0);
    }
  }

  /**
   The other direction: re-serialising what was parsed gives the buffer's own public inputs
   exactly when the unread upper bytes of the two count fields are zero.
   */
  lemma {:induction false} TransferParseSerialises(data: seq<byte>)
    requires |data| >= HEADER_SIZE + TRANSFER_PI_COUNT * 32
    ensures (forall i: nat :: i < TRANSFER_PI_COUNT ==> TransferFields(ParsedTransfer(data))[i] == FieldAt(data, i))
       <==> FieldAt(data, 7)[..28] == Zeros(28) && FieldAt(data, 8)[..28] == Zeros(28)
  {
    NumbersWriteBack(FieldAt(data, 7));
    NumbersWriteBack(FieldAt(data, 8));
    var x := ParsedTransfer(data);
    assert TransferFields(x)[7] == U32Field(x.inputCount) && TransferFields(x)[8] == U32Field(x.outputCount);
  }
}
