/**
 The proof buffer: header, chunked upload by the client, and the two parsers that read it
 (programs/solana-masp/src/instructions.rs, programs/masp-verifier/src/lib.rs,
 client/src/backends/solana.rs).
 */
module ProofBuffer {
  import opened Words
  import opened Bytes

  const HEADER_SIZE: nat := 5
  const PROOF_SIZE: nat := 2144
  const MAX_CHUNK_SIZE: nat := 900
  const MAX_PUBLIC_INPUTS: nat := 32

  datatype ProgramError =
    | InvalidInstructionData
    | InvalidInstruction
    | AlreadyInitialized
    | InvalidAccountData
    | Aborted

  /** Owner of a buffer: the pool program checks the status byte, the verifier caps the chunk size. */
  datatype Owner = Masp | Verifier

  /** [status, circuit_type, data_len lo, data_len hi, pi_count] */
  function Header(status: byte, circuitType: byte, dataLen: nat, piCount: byte): (h: seq<byte>)
    ensures |h| == HEADER_SIZE
  {
    [status, circuitType, dataLen % 256, dataLen / 256 % 256, piCount]
  }

  function Le16(b: seq<byte>): nat
    requires |b| >= 2
  {
    (b[0] as nat) + 256 * (b[1] as nat)
  }

  /** Low byte first. */
  lemma {:induction false} LengthInHeader(status: byte, circuitType: byte, dataLen: nat, piCount: byte, lo: byte,
          hi: byte)
    ensures var h := Header(status, circuitType, dataLen, piCount);
      && h[0] == status && h[1] == circuitType && h[4] == piCount
      && (dataLen < 0x1_0000 ==> LeVal(h[2..4]) == dataLen)
    ensures Le16([lo, hi]) == LeVal([lo, hi])
  {
    var h := Header(status, circuitType, dataLen, piCount);
    assert h[2..4] == [h[2], h[3]];
    TwoBytes(h[2], h[3]);
    TwoBytes(lo, hi);
  }

  lemma {:induction false} TwoBytes(lo: byte, hi: byte)
    ensures LeVal([lo, hi]) == (lo as nat) + 256 * (hi as nat)
  {
    hide LeVal;
    LeHead([lo, hi]);
    assert [lo, hi][1..] == [hi];
    SmallValues([hi]);
  }

  // ---------------------------------------------------------------------------
  // Program side
  // ---------------------------------------------------------------------------

  /** A buffer account created for `piCount` public inputs and one proof. */
  method InitProofBuffer(data: seq<byte>) returns (r: Result<array<byte>, ProgramError>)
    ensures r.Ok? <==> |data| >= 2 && data[0] <= 2
    ensures r == Err(InvalidInstructionData) <==> |data| < 2
    ensures r == Err(InvalidInstruction) <==> |data| >= 2 && data[0] > 2
    ensures r.Ok? ==> fresh(r.value) && r.value.Length == HEADER_SIZE + 32 * (data[1] as nat) + PROOF_SIZE
                      && r.value[..HEADER_SIZE] == Header(0, data[0], 0, data[1])
  {
    if |data| < 2 {
      return Err(InvalidInstructionData);
    }
    if data[0] > 2 {
      return Err(InvalidInstruction);
    }
    var size: nat := HEADER_SIZE + 32 * (data[1] as nat) + PROOF_SIZE;
    var buffer: array<byte> := new byte[size](_ => 0);
    buffer[0], buffer[1], buffer[2], buffer[3], buffer[4] := 0, data[0], 0, 0, data[1];
    r := Ok(buffer);
  }

  /** The verifier writes a header into an account the client created. */
  method InitVerifierBuffer(buffer: array<byte>, data: seq<byte>) returns (r: Result<(), ProgramError>)
    requires buffer.Length >= HEADER_SIZE
    modifies buffer
    ensures r.Ok? <==> |data| >= 2 && data[0] <= 2 && data[1] <= MAX_PUBLIC_INPUTS
    ensures r.Err? ==> r == Err(InvalidInstructionData)
    ensures buffer[..] == if r.Ok? then Header(0, data[0], 0, data[1]) + old(buffer[HEADER_SIZE..]) else old(buffer[..])
  {
    if |data| < 2 {
      return Err(InvalidInstructionData);
    }
    if data[0] > 2 {
      return Err(InvalidInstructionData);
    }
    if data[1] > MAX_PUBLIC_INPUTS {
      return Err(InvalidInstructionData);
    }
    buffer[0], buffer[1], buffer[2], buffer[3], buffer[4] := 0, data[0], 0, 0, data[1];
    r := Ok(());
  }

  /** The buffer after a chunk was written at `offset`. */
  function WithChunk(buffer: seq<byte>, offset: nat, chunk: seq<byte>): (b: seq<byte>)
    requires HEADER_SIZE + offset + |chunk| <= |buffer|
    ensures |b| == |buffer|
  {
    Header(buffer[0], buffer[1], offset + |chunk|, buffer[4])
    + buffer[HEADER_SIZE..HEADER_SIZE + offset] + chunk + buffer[HEADER_SIZE + offset + |chunk|..]
  }

  /** Which uploads a program takes. */
  predicate Uploadable(owner: Owner, buffer: seq<byte>, data: seq<byte>) {
    && |data| >= 2 && |buffer| >= HEADER_SIZE
    && (owner == Masp ==> buffer[0] == 0)
    && (owner == Verifier ==> |data| - 2 <= MAX_CHUNK_SIZE)
    && HEADER_SIZE + Le16(data) + |data| - 2 <= |buffer|
  }

  lemma {:induction false} SplitBuffer(b: seq<byte>, lo: nat, hi: nat)
    requires HEADER_SIZE <= lo <= hi <= |b|
    ensures b == b[..HEADER_SIZE] + b[HEADER_SIZE..lo] + b[lo..hi] + b[hi..]
  {
  }

  /** Copy a slice into the buffer; everything else stays. */
  method WriteAt(buffer: array<byte>, start: nat, chunk: seq<byte>)
    requires start + |chunk| <= buffer.Length
    modifies buffer
    ensures forall i :: 0 <= i < |chunk| ==> buffer[start + i] == chunk[i]
    ensures forall i :: 0 <= i < start || start + |chunk| <= i < buffer.Length ==> buffer[i] == old(buffer[i])
  {
    forall i | 0 <= i < |chunk| {
      buffer[start + i] := chunk[i];
    }
  }

  method UploadChunk(owner: Owner, buffer: array<byte>, data: seq<byte>) returns (r: Result<(), ProgramError>)
    requires buffer.Length >= HEADER_SIZE
    modifies buffer
    ensures r.Ok? <==> old(Uploadable(owner, buffer[..], data))
    ensures r == Err(AlreadyInitialized) <==> |data| >= 2 && owner == Masp && old(buffer[0]) != 0
    ensures r == Err(InvalidInstructionData) <==>
      || |data| < 2
      || (owner == Masp && old(buffer[0]) == 0 && HEADER_SIZE + Le16(data) + |data| - 2 > buffer.Length)
      || (owner == Verifier
          && (|data| - 2 > MAX_CHUNK_SIZE || HEADER_SIZE + Le16(data) + |data| - 2 > buffer.Length))
    ensures buffer[..] == if r.Ok? then WithChunk(old(buffer[..]), Le16(data), data[2..]) else old(buffer[..])
  {
    hide WithChunk;
    if |data| < 2 {
      return Err(InvalidInstructionData);
    }
    var offset := (data[0] as nat) + 256 * (data[1] as nat);
    var chunk := data[2..];
    if owner == Masp && buffer[0] != 0 {
      return Err(AlreadyInitialized);
    }
    if owner == Verifier && |chunk| > MAX_CHUNK_SIZE {
      return Err(InvalidInstructionData);
    }
    var dataStart := HEADER_SIZE + offset;
    var dataEnd := dataStart + |chunk|;
    if dataEnd > buffer.Length {
      return Err(InvalidInstructionData);
    }
    WriteAt(buffer, dataStart, chunk);
    var newLen := offset + |chunk|;
    buffer[2], buffer[3] := newLen % 256, newLen / 256 % 256;
    r := Ok(());
    ChunkWritten(old(buffer[..]), buffer[..], offset, chunk);
  }

  /** The byte-by-byte effect of a chunk write, as one equation on the whole buffer. */
  lemma {:induction false} ChunkWritten(before: seq<byte>, after: seq<byte>, offset: nat, chunk: seq<byte>)
    requires |after| == |before| && HEADER_SIZE + offset + |chunk| <= |before|
    requires after[0] == before[0] && after[1] == before[1] && after[4] == before[4]
    requires after[2] == (offset + |chunk|) % 256 && after[3] == (offset + |chunk|) / 256 % 256
    requires forall i :: HEADER_SIZE <= i < HEADER_SIZE + offset ==> after[i] == before[i]
    requires forall i :: 0 <= i < |chunk| ==> after[HEADER_SIZE + offset + i] == chunk[i]
    requires forall i :: HEADER_SIZE + offset + |chunk| <= i < |before| ==> after[i] == before[i]
    ensures after == WithChunk(before, offset, chunk)
  {
    var lo, hi := HEADER_SIZE + offset, HEADER_SIZE + offset + |chunk|;
    SplitBuffer(after, lo, hi);
    assert after[..HEADER_SIZE] == Header(before[0], before[1], offset + |chunk|, before[4]);
    assert after[HEADER_SIZE..lo] == before[HEADER_SIZE..lo];
    assert after[lo..hi] == chunk;
    assert after[hi..] == before[hi..];
  }

  // ---------------------------------------------------------------------------
  // Client side: the chunk loop
  // ---------------------------------------------------------------------------

  function Instruction(offset: nat, chunk: seq<byte>): seq<byte> {
    [offset % 256, offset / 256 % 256] + chunk
  }

  lemma {:induction false} InstructionDecodes(offset: nat, chunk: seq<byte>)
    requires offset < 0x1_0000
    ensures Le16(Instruction(offset, chunk)) == offset && Instruction(offset, chunk)[2..] == chunk
  {
  }

  /** Buffer contents once a prefix of the data is in. */
  function Filled(initial: seq<byte>, prefix: seq<byte>): seq<byte>
    requires HEADER_SIZE + |prefix| <= |initial|
  {
    Header(initial[0], initial[1], |prefix|, initial[4]) + prefix + initial[HEADER_SIZE + |prefix|..]
  }

  lemma {:induction false} FilledExtends(initial: seq<byte>, data: seq<byte>, offset: nat, end: nat)
    requires offset <= end <= |data| && HEADER_SIZE + end <= |initial|
    ensures WithChunk(Filled(initial, data[..offset]), offset, data[offset..end]) == Filled(initial, data[..end])
  {
    var before := Filled(initial, data[..offset]);
    assert before[HEADER_SIZE..HEADER_SIZE + offset] == data[..offset];
    assert before[HEADER_SIZE + end..] == initial[HEADER_SIZE + end..];
    assert data[..offset] + data[offset..end] == data[..end];
  }

  /**
   Send the data in order, 900 bytes at a time, to a freshly initialised buffer. It succeeds
   exactly when the data fits and its length fits the 16-bit offset, whose overflow aborts the client;
   and then it leaves exactly the data after the header, with the length field right and status,
   circuit and input count untouched.
   */
  method UploadInChunks(owner: Owner, buffer: array<byte>, proofData: seq<byte>) returns (r: Result<(), ProgramError>)
    requires buffer.Length >= HEADER_SIZE
    requires buffer[0] == buffer[2] == buffer[3] == 0
    modifies buffer
    ensures r.Ok? <==> HEADER_SIZE + |proofData| <= buffer.Length && |proofData| < 0x1_0000
    ensures r.Ok? ==> buffer[..] == Filled(old(buffer[..]), proofData)
  {
    ghost var initial := buffer[..];
    var offset: nat := 0;
    assert buffer[..] == Filled(initial, proofData[..0]);
    while offset < |proofData|
      invariant offset <= |proofData| && HEADER_SIZE + offset <= buffer.Length && offset < 0x1_0000
      invariant buffer[..] == Filled(initial, proofData[..offset])
    {
      var end := if offset + MAX_CHUNK_SIZE <= |proofData| then offset + MAX_CHUNK_SIZE else |proofData|;
      var chunk := proofData[offset..end];
      InstructionDecodes(offset, chunk);
      assert buffer[..][0] == 0;
      r := UploadChunk(owner, buffer, Instruction(offset, chunk));
      if r.Err? {
        return;
      }
      FilledExtends(initial, proofData, offset, end);
      if end >= 0x1_0000 {
        return Err(Aborted);
      }
      offset := end;
    }
    assert proofData[..|proofData|] == proofData;
    r := Ok(());
  }

  /** The pool program's flow: one upload when the data fits in a chunk, the chunk loop otherwise. */
  method UploadProof(buffer: array<byte>, proofData: seq<byte>) returns (r: Result<(), ProgramError>)
    requires buffer.Length >= HEADER_SIZE
    requires buffer[0] == buffer[2] == buffer[3] == 0
    modifies buffer
    ensures r.Ok? <==> HEADER_SIZE + |proofData| <= buffer.Length && |proofData| < 0x1_0000
    ensures r.Ok? ==> buffer[..] == Filled(old(buffer[..]), proofData)
  {
    if |proofData| > MAX_CHUNK_SIZE {
      r := UploadInChunks(Masp, buffer, proofData);
    } else {
      ghost var initial := buffer[..];
      InstructionDecodes(0, proofData);
      r := UploadChunk(Masp, buffer, Instruction(0, proofData));
      if r.Ok? {
        assert initial == Filled(initial, proofData[..0]);
        FilledExtends(initial, proofData, 0, |proofData|);
        assert proofData[0..|proofData|] == proofData == proofData[..|proofData|];
      }
    }
  }

  // ---------------------------------------------------------------------------
  // What the verifier reads
  // ---------------------------------------------------------------------------

  /** The i-th 32-byte field after the header. */
  function FieldAt(data: seq<byte>, i: nat): Bytes32
    requires HEADER_SIZE + 32 * (i + 1) <= |data|
  {
    data[HEADER_SIZE + 32 * i..HEADER_SIZE + 32 * i + 32]
  }

  datatype VerifierView = VerifierView(circuitType: byte, publicInputs: seq<Bytes32>, proof: seq<byte>)

  /** Header checks, then the public inputs one by one, then the fixed-size proof body. */
  method ParseForVerify(data: seq<byte>) returns (r: Result<VerifierView, ProgramError>)
    requires |data| >= HEADER_SIZE
    ensures r.Ok? <==>
      && data[4] <= MAX_PUBLIC_INPUTS && Le16(data[2..4]) >= 32 * (data[4] as nat) + PROOF_SIZE
      && HEADER_SIZE + 32 * (data[4] as nat) + PROOF_SIZE <= |data| && data[1] <= 2
    ensures r.Ok? ==>
      && r.value.circuitType == data[1] && |r.value.publicInputs| == data[4]
      && (forall i :: 0 <= i < data[4] ==> r.value.publicInputs[i] == FieldAt(data, i))
      && r.value.proof == data[HEADER_SIZE + 32 * (data[4] as nat)..HEADER_SIZE + 32 * (data[4] as nat) + PROOF_SIZE]
    ensures r.Err? ==> r == Err(InvalidInstructionData)
  {
    var proofLen: nat, piCount: nat := (data[2] as nat) + 256 * (data[3] as nat), data[4];
    if piCount > MAX_PUBLIC_INPUTS {
      return Err(InvalidInstructionData);
    }
    var piBytes := piCount * 32;
    if proofLen < piBytes + PROOF_SIZE {
      return Err(InvalidInstructionData);
    }
    var proofStart := HEADER_SIZE + piBytes;
    var proofEnd := proofStart + PROOF_SIZE;
    if proofEnd > |data| {
      return Err(InvalidInstructionData);
    }
    var publicInputs: seq<Bytes32> := [];
    var i := 0;
    while i < piCount
      invariant i <= piCount && |publicInputs| == i
      invariant forall k :: 0 <= k < i ==> publicInputs[k] == FieldAt(data, k)
    {
      var start := HEADER_SIZE + i * 32;
      publicInputs := publicInputs + [data[start..start + 32]];
      i := i + 1;
    }
    if data[1] > 2 {
      return Err(InvalidInstructionData);
    }
    r := Ok(VerifierView(data[1], publicInputs, data[proofStart..proofEnd]));
  }

  // ---------------------------------------------------------------------------
  // Flattened public inputs
  // ---------------------------------------------------------------------------

  function Flatten(fields: seq<Bytes32>): (b: seq<byte>)
    ensures |b| == 32 * |fields|
  {
    if fields == [] then [] else Flatten(fields[..|fields| - 1]) + fields[|fields| - 1]
  }

  lemma {:induction false} FlattenAt(fields: seq<Bytes32>, i: nat)
    requires i < |fields|
    ensures Flatten(fields)[32 * i..32 * i + 32] == fields[i]
  {
    var k := |fields| - 1;
    var head := Flatten(fields[..k]);
    if i < k {
      FlattenAt(fields[..k], i);
      assert Flatten(fields)[32 * i..32 * i + 32] == head[32 * i..32 * i + 32];
    } else {
      assert Flatten(fields)[32 * k..32 * k + 32] == fields[k];
    }
  }

  /** A buffer that starts with a header and the flattened fields gives each field back. */
  lemma {:induction false} FieldsReadBack(data: seq<byte>, fields: seq<Bytes32>, rest: seq<byte>, i: nat)
    requires |data| >= HEADER_SIZE && data[HEADER_SIZE..] == Flatten(fields) + rest && i < |fields|
    ensures FieldAt(data, i) == fields[i]
  {
    FlattenAt(fields, i);
    var body := Flatten(fields) + rest;
    assert body[32 * i..32 * i + 32] == Flatten(fields)[32 * i..32 * i + 32];
    assert data[HEADER_SIZE..][32 * i..32 * i + 32] == FieldAt(data, i);
  }

  /** Everything from the header on is the flattened fields, the proof and old buffer bytes. */
  lemma {:induction false} FilledBody(initial: seq<byte>, fields: seq<Bytes32>, proof: seq<byte>)
    requires HEADER_SIZE + 32 * |fields| + |proof| <= |initial|
    ensures var data := Filled(initial, Flatten(fields) + proof);
            |data| == |initial| &&
            data[HEADER_SIZE..] == Flatten(fields) + (proof + initial[HEADER_SIZE + 32 * |fields| + |proof|..])
  {
    var body := Flatten(fields) + proof;
    var rest := initial[HEADER_SIZE + |body|..];
    assert |body| == 32 * |fields| + |proof|;
    DropHeader(Header(initial[0], initial[1], |body|, initial[4]), body, rest);
    Reassociate(Flatten(fields), proof, rest);
  }

  lemma {:induction false} DropHeader(header: seq<byte>, body: seq<byte>, rest: seq<byte>)
    ensures (header + body + rest)[|header|..] == body + rest
  {
  }

  lemma {:induction false} Reassociate(a: seq<byte>, b: seq<byte>, c: seq<byte>)
    ensures (a + b) + c == a + (b + c)
  {
  }

  lemma {:induction false} LengthReadsBack(len: nat)
    requires len < 0x1_0000
    ensures Le16([len % 256, len / 256 % 256]) == len
  {
  }

  lemma {:induction false} SliceAfterHeader(data: seq<byte>, lo: nat, hi: nat)
    requires lo <= hi && HEADER_SIZE + hi <= |data|
    ensures data[HEADER_SIZE..][lo..hi] == data[HEADER_SIZE + lo..HEADER_SIZE + hi]
  {
  }

  /**
   After uploading public inputs and a proof the verifier reads exactly those public inputs and the
   circuit the buffer was made for; it accepts the layout exactly when the proof has its full body,
   and then reads that body, whatever limb data follows it.
   */
  lemma {:induction false} VerifierSeesUpload(initial: seq<byte>, fields: seq<Bytes32>, proof: seq<byte>)
    requires |fields| <= MAX_PUBLIC_INPUTS && 32 * |fields| + |proof| < 0x1_0000
    requires |initial| >= HEADER_SIZE + 32 * |fields| + |proof| && initial[4] == |fields|
    ensures var n, data := 32 * |fields|, Filled(initial, Flatten(fields) + proof);
      && |data| == |initial| && data[1] == initial[1] && data[4] == |fields|
      && (Le16(data[2..4]) >= n + PROOF_SIZE <==> |proof| >= PROOF_SIZE)
      && (forall i: nat :: i < |fields| ==> FieldAt(data, i) == fields[i])
      && (|proof| >= PROOF_SIZE ==> data[HEADER_SIZE + n..HEADER_SIZE + n + PROOF_SIZE] == proof[..PROOF_SIZE])
  {
    var n := 32 * |fields|;
    var data := Filled(initial, Flatten(fields) + proof);
    var tail := proof + initial[HEADER_SIZE + n + |proof|..];
    FilledBody(initial, fields, proof);
    forall i: nat | i < |fields| ensures FieldAt(data, i) == fields[i] {
      FieldsReadBack(data, fields, tail, i);
    }
    LengthReadsBack(n + |proof|);
    assert data[2..4] == [(n + |proof|) % 256, (n + |proof|) / 256 % 256];
    SliceAfterHeader(data, n, n + |proof|);
    SliceOfTail(Flatten(fields), proof, initial[HEADER_SIZE + n + |proof|..]);
    if |proof| >= PROOF_SIZE {
      assert data[HEADER_SIZE + n..HEADER_SIZE + n + PROOF_SIZE]
             == data[HEADER_SIZE + n..HEADER_SIZE + n + |proof|][..PROOF_SIZE];
    }
  }

  lemma {:induction false} SliceOfTail(a: seq<byte>, b: seq<byte>, c: seq<byte>)
    ensures (a + (b + c))[|a|..|a| + |b|] == b
  {
  }
}
