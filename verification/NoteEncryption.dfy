/**
 Note encryption at byte level (client/src/encryption.rs, client/src/keys.rs): codecs, ECIES over
 a cyclic group, and the sender's outgoing ciphertext. Hashes, point coordinates and the AEAD of
 section 2.8 of RFC 8439 are parameters with the few laws the code relies on.
 */
module NoteEncryption {
  import opened Words
  import opened Bytes

  const DIVERSIFIER_INDEX_SIZE: nat := 8
  const EPK_SIZE: nat := 64
  const NONCE_SIZE: nat := 12
  const TAG_SIZE: nat := 16
  const PLAINTEXT_SIZE: nat := 144
  const HEADER_SIZE: nat := 84
  const ENCRYPTED_NOTE_SIZE: nat := 244
  const C_OUT_PLAINTEXT_SIZE: nat := 176
  const C_OUT_PLAINTEXT_SIZE_V1: nat := 208

  const DOM_CIPHERTEXT: felt := 4
  const DOM_IVK: felt := 8
  const DOM_OCK: felt := 12

  /** Order of the Grumpkin group, the base field modulus of BN254; it exceeds P. */
  const Q: nat := 21888242871839275222246405745257275088696311157297823662689037894645226208583

  /** A point, by its discrete logarithm to the generator; 0 is the identity. */
  type Point = k: nat | k < Q

  type Bytes64 = s: seq<byte> | |s| == EPK_SIZE witness ZERO_32 + ZERO_32
  type Bytes12 = s: seq<byte> | |s| == NONCE_SIZE witness [0, 0, 0, 0, 0, 0, 0, 0, 0, 0, 0, 0]

  datatype Primitives = Primitives(
    poseidon2: seq<felt> -> felt,
    poseidon: seq<felt> -> felt,
    coords: Point -> (felt, felt),
    decode: (felt, felt) -> Option<Point>,
    seal: (Bytes32, Bytes12, seq<byte>, seq<byte>) -> seq<byte>,
    open: (Bytes32, Bytes12, seq<byte>, seq<byte>) -> Option<seq<byte>>)

  /**
   Every point but the identity is decoded from its coordinates; the identity is written as (0, 0),
   which is not on the curve. Opening what was sealed under the same key, nonce and associated
   data gives the message back, and sealing adds one tag.
   */
  ghost predicate Lawful(c: Primitives) {
    && c.coords(0) == (0, 0) && c.decode(0, 0) == None
    && (forall k: Point :: k != 0 ==> c.decode(c.coords(k).0, c.coords(k).1) == Some(k))
    && (forall key, nonce, msg, aad :: c.open(key, nonce, c.seal(key, nonce, msg, aad), aad) == Some(msg))
    && (forall key, nonce, msg, aad :: |c.seal(key, nonce, msg, aad)| == |msg| + TAG_SIZE)
  }

  function PlainCoords(k: Point): (felt, felt) {
    if k == 0 then (0, 0) else (1 + k / P, k % P)
  }

  function PlainDecode(x: felt, y: felt): Option<Point> {
    if x == 0 || (x - 1) * P + y >= Q then None else Some((x - 1) * P + y)
  }

  /** The laws are consistent: one instance that satisfies them all (and hides nothing). */
  lemma {:induction false} LawsAreConsistent()
    ensures exists c: Primitives :: Lawful(c)
  {
    var seal := (key: Bytes32, nonce: Bytes12, msg: seq<byte>, aad: seq<byte>) => msg + ZERO_32[..TAG_SIZE];
    var open := (key: Bytes32, nonce: Bytes12, ct: seq<byte>, aad: seq<byte>) =>
      if |ct| < TAG_SIZE then None else Some(ct[..|ct| - TAG_SIZE]);
    var c := Primitives((xs: seq<felt>) => 0, (xs: seq<felt>) => 0, (k: Point) => PlainCoords(k),
                        (x: felt, y: felt) => PlainDecode(x, y), seal, open);
    forall k: Point | k != 0 ensures c.decode(c.coords(k).0, c.coords(k).1) == Some(k) {
      assert (k / P) * P + k % P == k;
    }
    assert Lawful(c);
  }

  datatype EncryptionError = DecryptionFailed | InvalidLength | InvalidEphemeralKey | WrongRecipient

  // ---------------------------------------------------------------------------
  // Keys and addresses
  // ---------------------------------------------------------------------------

  /** A field element as a scalar: reduction modulo Q changes nothing, because P < Q. */
  function Scalar(f: felt): (s: Point)
    ensures s == f
  {
    f % Q
  }

  function Mul(p: Point, s: Point): Point { (p * s) % Q }

  datatype FullViewingKey = FullViewingKey(ak: Point, nk: Point)

  datatype DiversifiedAddress = DiversifiedAddress(diversifierIndex: u64, gd: Point, pkd: Point)

  function Ivk(c: Primitives, fvk: FullViewingKey): felt {
    c.poseidon2([DOM_IVK, c.coords(fvk.ak).0, c.coords(fvk.nk).0])
  }

  function DiversifierBase(c: Primitives, index: u64): Point {
    Mul(1, Scalar(c.poseidon2([index])))
  }

  function AddressAt(c: Primitives, fvk: FullViewingKey, index: u64): DiversifiedAddress {
    var gd := DiversifierBase(c, index);
    DiversifiedAddress(index, gd, Mul(gd, Scalar(Ivk(c, fvk))))
  }

  /** The note's recipient field for an address. */
  function ToField(c: Primitives, addr: DiversifiedAddress): felt { c.coords(addr.pkd).0 }

  lemma {:induction false} ModMul(a: nat, b: nat)
    ensures ((a % Q) * b) % Q == (a * b) % Q
  {
    var q, r := a / Q, a % Q;
    assert a * b == r * b + Q * (q * b);
    ModShift(r * b, q * b);
  }

  lemma {:induction false} ModShift(x: nat, n: nat)
    ensures (x + Q * n) % Q == x % Q
  {
    if n > 0 {
      ModShift(x, n - 1);
      assert x + Q * n == (x + Q * (n - 1)) + Q;
    }
  }

  /** Diffie-Hellman: both sides reach the same shared point. */
  lemma {:induction false} SharedPoint(base: Point, ivk: Point, esk: Point)
    ensures Mul(Mul(base, ivk), esk) == Mul(Mul(base, esk), ivk)
  {
    ModMul(base * ivk, esk);
    ModMul(base * esk, ivk);
    assert (base * ivk) * esk == (base * esk) * ivk;
  }

  // ---------------------------------------------------------------------------
  // Note plaintexts
  // ---------------------------------------------------------------------------

  datatype PlainNote = PlainNote(
    assetId: felt,
    amount: u64,
    recipient: felt,
    diversifierIndex: u64,
    nullifierNonce: felt,
    noteRandomness: felt)

  function NoteBytes(note: PlainNote): (b: seq<byte>)
    ensures |b| == PLAINTEXT_SIZE
  {
    FieldBytes(note.assetId) + LeBytes(note.amount, 8) + FieldBytes(note.recipient)
    + LeBytes(note.diversifierIndex, 8) + FieldBytes(note.nullifierNonce) + FieldBytes(note.noteRandomness)
  }

  function LeWord(b: seq<byte>): u64
    requires |b| == 8
  {
    LeWordFits(b);
    LeVal(b)
  }

  function NoteFromBytes(b: seq<byte>): Result<PlainNote, EncryptionError> {
    if |b| < PLAINTEXT_SIZE then Err(InvalidLength)
    else Ok(PlainNote(FieldFromBytes(b[0..32]), LeWord(b[32..40]), FieldFromBytes(b[40..72]), LeWord(b[72..80]),
                      FieldFromBytes(b[80..112]), FieldFromBytes(b[112..144])))
  }

  method SerializeNote(note: PlainNote) returns (bytes: seq<byte>)
    ensures bytes == NoteBytes(note)
  {
    bytes := [];
    bytes := bytes + FieldBytes(note.assetId);
    bytes := bytes + LeBytes(note.amount, 8);
    bytes := bytes + FieldBytes(note.recipient);
    bytes := bytes + LeBytes(note.diversifierIndex, 8);
    bytes := bytes + FieldBytes(note.nullifierNonce);
    bytes := bytes + FieldBytes(note.noteRandomness);
  }

  /** Reading a written note gives it back, whatever follows it. */
  lemma {:induction false} NoteRoundTrip(note: PlainNote, rest: seq<byte>)
    ensures NoteFromBytes(NoteBytes(note) + rest) == Ok(note)
  {
    var b := NoteBytes(note) + rest;
    assert b[0..32] == FieldBytes(note.assetId);
    assert b[32..40] == LeBytes(note.amount, 8);
    assert b[40..72] == FieldBytes(note.recipient);
    assert b[72..80] == LeBytes(note.diversifierIndex, 8);
    assert b[80..112] == FieldBytes(note.nullifierNonce);
    assert b[112..144] == FieldBytes(note.noteRandomness);
    FieldRoundTrip(note.assetId);
    FieldRoundTrip(note.recipient);
    FieldRoundTrip(note.nullifierNonce);
    FieldRoundTrip(note.noteRandomness);
    LimbFits(note.amount);
    LimbFits(note.diversifierIndex);
  }

  /** Field by field: offsets, and which end of each number comes first. */
  lemma {:induction false} NoteLayout(note: PlainNote)
    ensures var b := NoteBytes(note);
      && BeVal(b[0..32]) == note.assetId && LeVal(b[32..40]) == note.amount && BeVal(b[40..72]) == note.recipient
      && LeVal(b[72..80]) == note.diversifierIndex && BeVal(b[80..112]) == note.nullifierNonce
      && BeVal(b[112..144]) == note.noteRandomness
  {
    hide BeVal, LeVal, LeBytes, FieldBytes;
    var b := NoteBytes(note);
    FieldBytesValue(note.assetId);
    FieldBytesValue(note.recipient);
    FieldBytesValue(note.nullifierNonce);
    FieldBytesValue(note.noteRandomness);
    LimbFits(note.amount);
    LimbFits(note.diversifierIndex);
    assert b[0..32] == FieldBytes(note.assetId) && b[32..40] == LeBytes(note.amount, 8);
    assert b[40..72] == FieldBytes(note.recipient) && b[72..80] == LeBytes(note.diversifierIndex, 8);
    assert b[80..112] == FieldBytes(note.nullifierNonce) && b[112..144] == FieldBytes(note.noteRandomness);
  }

  predicate Canonical(b: seq<byte>)
    requires |b| == 32
  {
    BeVal(b) < P
  }

  /** Writing back what was read reproduces the bytes exactly when all four field elements were canonical. */
  lemma {:induction false} NoteBytesRoundTrip(b: seq<byte>)
    requires |b| == PLAINTEXT_SIZE
    ensures NoteFromBytes(b).Ok?
    ensures NoteBytes(NoteFromBytes(b).value) == b
       <==> Canonical(b[0..32]) && Canonical(b[40..72]) && Canonical(b[80..112]) && Canonical(b[112..144])
  {
    var w := NoteBytes(NoteFromBytes(b).value);
    LeDecodeEncode(b[32..40]);
    LeDecodeEncode(b[72..80]);
    BytesRoundTrip(b[0..32]);
    BytesRoundTrip(b[40..72]);
    BytesRoundTrip(b[80..112]);
    BytesRoundTrip(b[112..144]);
    SixParts(b);
    SixParts(w);
    assert w[0..32] == FieldBytes(FieldFromBytes(b[0..32])) && w[32..40] == b[32..40];
    assert w[40..72] == FieldBytes(FieldFromBytes(b[40..72])) && w[72..80] == b[72..80];
    assert w[80..112] == FieldBytes(FieldFromBytes(b[80..112]));
    assert w[112..144] == FieldBytes(FieldFromBytes(b[112..144]));
  }

  lemma {:induction false} SixParts(b: seq<byte>)
    requires |b| == PLAINTEXT_SIZE
    ensures b == b[0..32] + b[32..40] + b[40..72] + b[72..80] + b[80..112] + b[112..144]
  {
  }

  // ---------------------------------------------------------------------------
  // Encrypted notes
  // ---------------------------------------------------------------------------

  datatype EncryptedNote = EncryptedNote(diversifierIndex: u64, ephemeralKey: Bytes64, nonce: Bytes12,
      ciphertext: seq<byte>)

  function EncryptedBytes(e: EncryptedNote): seq<byte> {
    LeBytes(e.diversifierIndex, 8) + e.ephemeralKey + e.nonce + e.ciphertext
  }

  function EncryptedFromBytes(b: seq<byte>): Result<EncryptedNote, EncryptionError> {
    if |b| < HEADER_SIZE then Err(InvalidLength)
    else Ok(EncryptedNote(LeWord(b[..8]), b[8..72], b[72..84], b[84..]))
  }

  method ToBytes(e: EncryptedNote) returns (bytes: seq<byte>)
    ensures bytes == EncryptedBytes(e)
  {
    bytes := [];
    bytes := bytes + LeBytes(e.diversifierIndex, 8);
    bytes := bytes + e.ephemeralKey;
    bytes := bytes + e.nonce;
    bytes := bytes + e.ciphertext;
  }

  /** Copy of b[from..from + n] through a fixed-size buffer. */
  method CopySlice(b: seq<byte>, from: nat, n: nat) returns (s: seq<byte>)
    requires from + n <= |b|
    ensures s == b[from..from + n]
  {
    var out := new byte[n](_ => 0);
    var i := 0;
    while i < n
      invariant i <= n && out[..i] == b[from..from + i]
    {
      out[i] := b[from + i];
      i := i + 1;
    }
    s := out[..];
  }

  method FromBytes(b: seq<byte>) returns (r: Result<EncryptedNote, EncryptionError>)
    ensures r == EncryptedFromBytes(b)
  {
    if |b| < DIVERSIFIER_INDEX_SIZE + EPK_SIZE + NONCE_SIZE {
      return Err(InvalidLength);
    }
    var di := CopySlice(b, 0, DIVERSIFIER_INDEX_SIZE);
    var ephemeralKey := CopySlice(b, DIVERSIFIER_INDEX_SIZE, EPK_SIZE);
    var nonce := CopySlice(b, DIVERSIFIER_INDEX_SIZE + EPK_SIZE, NONCE_SIZE);
    assert di == b[..8];
    r := Ok(EncryptedNote(LeWord(di), ephemeralKey, nonce, b[84..]));
  }

  /** The byte form of an encrypted note loses nothing, and every long enough string is one. */
  lemma {:induction false} EncryptedRoundTrip(e: EncryptedNote, b: seq<byte>)
    ensures EncryptedFromBytes(EncryptedBytes(e)) == Ok(e)
    ensures EncryptedFromBytes(b).Ok? <==> |b| >= HEADER_SIZE
    ensures |b| >= HEADER_SIZE ==> EncryptedBytes(EncryptedFromBytes(b).value) == b
  {
    var w := EncryptedBytes(e);
    assert w[..8] == LeBytes(e.diversifierIndex, 8) && w[8..72] == e.ephemeralKey;
    assert w[72..84] == e.nonce && w[84..] == e.ciphertext;
    LimbFits(e.diversifierIndex);
    if |b| >= HEADER_SIZE {
      LeDecodeEncode(b[..8]);
      assert b == b[..8] + b[8..72] + b[72..84] + b[84..];
    }
  }

  /** Eight bytes of index, little endian, then ephemeral key, nonce and ciphertext. */
  lemma {:induction false} EncryptedLayout(e: EncryptedNote)
    ensures var b := EncryptedBytes(e);
      && |b| == HEADER_SIZE + |e.ciphertext| && LeVal(b[0..8]) == e.diversifierIndex && b[8..72] == e.ephemeralKey
      && b[72..84] == e.nonce && b[84..] == e.ciphertext
  {
    hide LeVal, LeBytes;
    var b := EncryptedBytes(e);
    LimbFits(e.diversifierIndex);
    assert b[0..8] == LeBytes(e.diversifierIndex, 8);
  }

  // ---------------------------------------------------------------------------
  // ECIES
  // ---------------------------------------------------------------------------

  /** Affine coordinates, little endian, x before y. */
  function PointBytes(c: Primitives, p: Point): Bytes64 {
    LeBytes(c.coords(p).0, 32) + LeBytes(c.coords(p).1, 32)
  }

  function PointFromBytes(c: Primitives, b: Bytes64): Option<Point> {
    c.decode(LeVal(b[..32]) % P, LeVal(b[32..]) % P)
  }

  lemma {:induction false} LeFelt(f: felt)
    ensures LeVal(LeBytes(f, 32)) == f
  {
    Pow256Literals();
    LeEncodeDecode(f, 32);
  }

  /** A serialised point is read back, except for the identity. */
  lemma {:induction false} PointRoundTrip(c: Primitives, p: Point)
    requires Lawful(c)
    ensures PointFromBytes(c, PointBytes(c, p)) == if p == 0 then None else Some(p)
  {
    hide LeBytes, LeVal;
    var (x, y) := c.coords(p);
    var b := PointBytes(c, p);
    LeFelt(x);
    LeFelt(y);
    assert b[..32] == LeBytes(x, 32) && b[32..] == LeBytes(y, 32);
    assert PointFromBytes(c, b) == c.decode(x, y);
  }

  /** The key derivation reads the first half of the serialised point as a big-endian number. */
  function SymmetricKey(c: Primitives, shared: Point, epk: Bytes64): Bytes32 {
    FieldBytes(c.poseidon([DOM_CIPHERTEXT, c.coords(shared).0, c.coords(shared).1, FieldFromBytes(epk[..32])]))
  }

  function AssociatedData(index: u64, epk: Bytes64): seq<byte> { LeBytes(index, 8) + epk }

  function EphemeralPoint(addr: DiversifiedAddress, esk: felt): Point { Mul(addr.gd, Scalar(esk)) }

  function Encrypt(c: Primitives, note: PlainNote, addr: DiversifiedAddress, esk: felt, nonce: Bytes12): EncryptedNote {
    var epk := PointBytes(c, EphemeralPoint(addr, esk));
    var key := SymmetricKey(c, Mul(addr.pkd, Scalar(esk)), epk);
    EncryptedNote(addr.diversifierIndex, epk, nonce,
                  c.seal(key, nonce, NoteBytes(note), AssociatedData(addr.diversifierIndex, epk)))
  }

  /** From the recipient's side: sealed under the key it will derive, with the drawn nonce, bound to index and point. */
  lemma {:induction false} EncryptSeals(c: Primitives, note: PlainNote, fvk: FullViewingKey, index: u64, esk: felt,
          nonce: Bytes12)
    ensures var addr := AddressAt(c, fvk, index);
            var e, point := Encrypt(c, note, addr, esk, nonce), EphemeralPoint(addr, esk);
            var shared := Mul(point, Scalar(Ivk(c, fvk)));
      && e.diversifierIndex == index && e.nonce == nonce && e.ephemeralKey == PointBytes(c, point)
      && e.ciphertext == c.seal(SymmetricKey(c, shared, e.ephemeralKey), nonce, NoteBytes(note),
                                LeBytes(index, 8) + e.ephemeralKey)
  {
    hide SymmetricKey, Ivk, NoteBytes, PointBytes, Mul, LeBytes;
    SameKey(c, fvk, index, esk, PointBytes(c, EphemeralPoint(AddressAt(c, fvk, index), esk)));
  }

  function TryDecrypt(c: Primitives, e: EncryptedNote, fvk: FullViewingKey,
          index: u64): Result<PlainNote, EncryptionError> {
    if e.diversifierIndex != index then Err(WrongRecipient)
    else
      var epk := PointFromBytes(c, e.ephemeralKey);
      if epk.None? then Err(InvalidEphemeralKey)
      else
        var key := SymmetricKey(c, Mul(epk.value, Scalar(Ivk(c, fvk))), e.ephemeralKey);
        match c.open(key, e.nonce, e.ciphertext, AssociatedData(e.diversifierIndex, e.ephemeralKey))
        case None => Err(DecryptionFailed)
        case Some(plaintext) =>
          match NoteFromBytes(plaintext)
          case Err(error) => Err(error)
          case Ok(note) =>
            if note.diversifierIndex != index then Err(WrongRecipient)
            else if note.recipient != ToField(c, AddressAt(c, fvk, index)) then Err(WrongRecipient)
            else Ok(note)
  }

  /** Sender and recipient derive the same key. */
  lemma {:induction false} SameKey(c: Primitives, fvk: FullViewingKey, index: u64, esk: felt, epk: Bytes64)
    ensures var addr := AddressAt(c, fvk, index);
            SymmetricKey(c, Mul(addr.pkd, Scalar(esk)), epk) ==
            SymmetricKey(c, Mul(EphemeralPoint(addr, esk), Scalar(Ivk(c, fvk))), epk)
  {
    SharedPoint(DiversifierBase(c, index), Scalar(Ivk(c, fvk)), Scalar(esk));
  }

  /** Addressed to the key at this diversifier. */
  predicate AddressedTo(c: Primitives, note: PlainNote, fvk: FullViewingKey, index: u64) {
    note.diversifierIndex == index && note.recipient == ToField(c, AddressAt(c, fvk, index))
  }

  /**
   What a recipient gets from a note encrypted to one of its own addresses, in every case: the note
   comes back exactly when the diversifier matches, the ephemeral point is not the identity, and
   the note really names this address.
   */
  lemma {:induction false} DecryptOutcome(c: Primitives, note: PlainNote, fvk: FullViewingKey, index: u64, tried: u64,
          esk: felt, nonce: Bytes12)
    requires Lawful(c)
    ensures var addr := AddressAt(c, fvk, index);
            TryDecrypt(c, Encrypt(c, note, addr, esk, nonce), fvk, tried) ==
            if tried != index then Err(WrongRecipient)
            else if EphemeralPoint(addr, esk) == 0 then Err(InvalidEphemeralKey)
            else if AddressedTo(c, note, fvk, index) then Ok(note)
            else Err(WrongRecipient)
  {
    hide SymmetricKey, Ivk, NoteBytes, NoteFromBytes, PointBytes, PointFromBytes, Mul;
    var addr := AddressAt(c, fvk, index);
    var e := Encrypt(c, note, addr, esk, nonce);
    PointRoundTrip(c, EphemeralPoint(addr, esk));
    SameKey(c, fvk, index, esk, e.ephemeralKey);
    NoteRoundTrip(note, []);
    assert NoteBytes(note) + [] == NoteBytes(note);
  }

  /** What the cipher makes of an encrypted note under the key a recipient derives, when its point decodes. */
  function Opened(c: Primitives, e: EncryptedNote, fvk: FullViewingKey, epk: Point): Option<seq<byte>> {
    var shared := Mul(epk, Scalar(Ivk(c, fvk)));
    c.open(SymmetricKey(c, shared, e.ephemeralKey), e.nonce, e.ciphertext, LeBytes(e.diversifierIndex, 8)
        + e.ephemeralKey)
  }

  /**
   Trial decryption of any ciphertext with any key: a note comes out exactly when index and point are
   good, the cipher opened the ciphertext under the derived key and the associated data, the message
   parses to this note, and the note names the key's own address.
   */
  lemma {:induction false} TryDecryptOkIff(c: Primitives, e: EncryptedNote, fvk: FullViewingKey, index: u64,
          note: PlainNote)
    ensures TryDecrypt(c, e, fvk, index) == Ok(note) <==>
      && e.diversifierIndex == index
      && note.diversifierIndex == index && note.recipient == c.coords(AddressAt(c, fvk, index).pkd).0
      && exists epk: Point, plaintext: seq<byte> ::
           && PointFromBytes(c, e.ephemeralKey) == Some(epk) && Opened(c, e, fvk, epk) == Some(plaintext)
           && NoteFromBytes(plaintext) == Ok(note)
  {
    hide SymmetricKey, Ivk, NoteFromBytes, PointFromBytes, Mul, AddressAt, LeBytes;
  }

  /** Every refusal, each exactly when it is due. */
  lemma {:induction false} TryDecryptRefusals(c: Primitives, e: EncryptedNote, fvk: FullViewingKey, index: u64)
    ensures var r, epk := TryDecrypt(c, e, fvk, index), PointFromBytes(c, e.ephemeralKey);
            var got := if epk.Some? then Opened(c, e, fvk, epk.value) else None;
            var reached := e.diversifierIndex == index && epk.Some?;
      && (r == Err(InvalidEphemeralKey) <==> e.diversifierIndex == index && epk.None?)
      && (r == Err(DecryptionFailed) <==> reached && got.None?)
      && (r == Err(InvalidLength) <==> reached && got.Some? && |got.value| < PLAINTEXT_SIZE)
      && (r == Err(WrongRecipient) <==>
            || e.diversifierIndex != index
            || (reached && got.Some? && |got.value| >= PLAINTEXT_SIZE
                && !AddressedTo(c, NoteFromBytes(got.value).value, fvk, index)))
  {
    hide SymmetricKey, Ivk, PointFromBytes, Mul, AddressAt, LeBytes, FieldFromBytes, LeWord;
  }

  /** A note for another address is never handed out, whatever the cipher makes of it under a wrong key. */
  lemma {:induction false} ForeignNoteRefused(c: Primitives, note: PlainNote, addr: DiversifiedAddress, esk: felt,
          nonce: Bytes12, fvk: FullViewingKey, index: u64)
    requires !AddressedTo(c, note, fvk, index)
    ensures var r := TryDecrypt(c, Encrypt(c, note, addr, esk, nonce), fvk, index);
      && r != Ok(note)
      && (r.Ok? ==> AddressedTo(c, r.value, fvk, index))
  {
    hide SymmetricKey, Ivk, NoteBytes, NoteFromBytes, PointBytes, PointFromBytes, Mul, AddressAt;
    var e := Encrypt(c, note, addr, esk, nonce);
    TryDecryptOkIff(c, e, fvk, index, note);
    var r := TryDecrypt(c, e, fvk, index);
    if r.Ok? {
      TryDecryptOkIff(c, e, fvk, index, r.value);
    }
  }

  /** Hashing of these two vectors does not collide. */
  predicate Apart(hash: seq<felt> -> felt, a: seq<felt>, b: seq<felt>) {
    hash(a) == hash(b) ==> a == b
  }

  /** Keys are equal only for equal shared points and equal first halves of the ephemeral key. */
  lemma {:induction false} KeyBindsSecret(c: Primitives, s: Point, t: Point, a: Bytes64, b: Bytes64)
    requires Lawful(c) && SymmetricKey(c, s, a) == SymmetricKey(c, t, b)
    requires Apart(c.poseidon, [DOM_CIPHERTEXT, c.coords(s).0, c.coords(s).1, FieldFromBytes(a[..32])],
                   [DOM_CIPHERTEXT, c.coords(t).0, c.coords(t).1, FieldFromBytes(b[..32])])
    ensures s == t && FieldFromBytes(a[..32]) == FieldFromBytes(b[..32])
  {
    hide FieldFromBytes, FieldBytes;
    var x := [DOM_CIPHERTEXT, c.coords(s).0, c.coords(s).1, FieldFromBytes(a[..32])];
    var y := [DOM_CIPHERTEXT, c.coords(t).0, c.coords(t).1, FieldFromBytes(b[..32])];
    FieldRoundTrip(c.poseidon(x));
    FieldRoundTrip(c.poseidon(y));
    assert x[1] == y[1] && x[2] == y[2] && x[3] == y[3];
    SamePoint(c, s, t);
  }

  lemma {:induction false} SamePoint(c: Primitives, s: Point, t: Point)
    requires Lawful(c) && c.coords(s) == c.coords(t)
    ensures s == t
  {
    assert s != 0 ==> c.decode(c.coords(s).0, c.coords(s).1) == Some(s);
    assert t != 0 ==> c.decode(c.coords(t).0, c.coords(t).1) == Some(t);
  }

  /** Authenticity of one ciphertext: under any other key it does not open. */
  ghost predicate OpensOnlyUnder(c: Primitives, key: Bytes32, e: EncryptedNote) {
    forall other: Bytes32 :: other != key ==>
      c.open(other, e.nonce, e.ciphertext, AssociatedData(e.diversifierIndex, e.ephemeralKey)) == None
  }

  /** Sealed for somebody else: a key with another shared point gets nothing, when the cipher authenticates. */
  lemma {:induction false} SealedForAnother(c: Primitives, note: PlainNote, addr: DiversifiedAddress, esk: felt,
          nonce: Bytes12, fvk: FullViewingKey)
    requires Lawful(c) && EphemeralPoint(addr, esk) != 0
    requires var e := Encrypt(c, note, addr, esk, nonce);
             var own, other := Mul(addr.pkd, Scalar(esk)), Mul(EphemeralPoint(addr, esk), Scalar(Ivk(c, fvk)));
      && own != other && OpensOnlyUnder(c, SymmetricKey(c, own, e.ephemeralKey), e)
      && Apart(c.poseidon,
               [DOM_CIPHERTEXT, c.coords(own).0, c.coords(own).1, FieldFromBytes(e.ephemeralKey[..32])],
               [DOM_CIPHERTEXT, c.coords(other).0, c.coords(other).1, FieldFromBytes(e.ephemeralKey[..32])])
    ensures TryDecrypt(c, Encrypt(c, note, addr, esk, nonce), fvk, addr.diversifierIndex) == Err(DecryptionFailed)
  {
    hide SymmetricKey, Ivk, NoteBytes, NoteFromBytes, PointBytes, PointFromBytes, Mul, FieldFromBytes, LeBytes;
    var e := Encrypt(c, note, addr, esk, nonce);
    var own, other := Mul(addr.pkd, Scalar(esk)), Mul(EphemeralPoint(addr, esk), Scalar(Ivk(c, fvk)));
    PointRoundTrip(c, EphemeralPoint(addr, esk));
    if SymmetricKey(c, own, e.ephemeralKey) == SymmetricKey(c, other, e.ephemeralKey) {
      KeyBindsSecret(c, own, other, e.ephemeralKey, e.ephemeralKey);
    }
  }

  /** The viewing key determines its incoming key, and the index its base point, without collisions. */
  lemma {:induction false} AddressParts(c: Primitives, f: FullViewingKey, g: FullViewingKey, i: u64, j: u64)
    requires Apart(c.poseidon2, [DOM_IVK, c.coords(f.ak).0, c.coords(f.nk).0],
             [DOM_IVK, c.coords(g.ak).0, c.coords(g.nk).0])
    requires Apart(c.poseidon2, [i], [j])
    ensures Ivk(c, f) == Ivk(c, g) ==> c.coords(f.ak).0 == c.coords(g.ak).0 && c.coords(f.nk).0 == c.coords(g.nk).0
    ensures DiversifierBase(c, i) == DiversifierBase(c, j) ==> i == j
  {
    var x, y := [DOM_IVK, c.coords(f.ak).0, c.coords(f.nk).0], [DOM_IVK, c.coords(g.ak).0, c.coords(g.nk).0];
    if Ivk(c, f) == Ivk(c, g) {
      assert x[1] == y[1] && x[2] == y[2];
    }
    if DiversifierBase(c, i) == DiversifierBase(c, j) {
      GeneratorTimes(c.poseidon2([i]));
      GeneratorTimes(c.poseidon2([j]));
      assert [i][0] == [j][0];
    }
  }

  lemma {:induction false} GeneratorTimes(f: felt)
    ensures Mul(1, Scalar(f)) == f
  {
  }

  /** The associated data binds the index and the whole ephemeral key. */
  lemma {:induction false} AssociatedDataBinds(i: u64, a: Bytes64, j: u64, b: Bytes64)
    requires AssociatedData(i, a) == AssociatedData(j, b)
    ensures i == j && a == b
  {
    hide LeBytes, LeVal;
    var x, y := AssociatedData(i, a), AssociatedData(j, b);
    assert x[..8] == LeBytes(i, 8) && y[..8] == LeBytes(j, 8) && x[8..] == a && y[8..] == b;
    LimbFits(i);
    LimbFits(j);
  }

  /** Through the bytes that travel on chain. */
  lemma {:induction false} NoteEncryptionRoundTrip(c: Primitives, note: PlainNote, fvk: FullViewingKey, index: u64,
          esk: felt, nonce: Bytes12)
    requires Lawful(c) && AddressedTo(c, note, fvk, index)
    ensures var sent := EncryptedBytes(Encrypt(c, note, AddressAt(c, fvk, index), esk, nonce));
      && |sent| == ENCRYPTED_NOTE_SIZE
      && EncryptedFromBytes(sent).Ok?
      && (TryDecrypt(c, EncryptedFromBytes(sent).value, fvk, index) == Ok(note) <==>
          EphemeralPoint(AddressAt(c, fvk, index), esk) != 0)
  {
    hide TryDecrypt, NoteBytes, SymmetricKey, PointBytes, AddressAt, Mul;
    var e := Encrypt(c, note, AddressAt(c, fvk, index), esk, nonce);
    EncryptedRoundTrip(e, []);
    DecryptOutcome(c, note, fvk, index, index, esk, nonce);
  }

  // ---------------------------------------------------------------------------
  // Outgoing ciphertexts
  // ---------------------------------------------------------------------------

  datatype OutgoingCiphertext = OutgoingCiphertext(nonce: Bytes12, ciphertext: seq<byte>)

  datatype OutgoingPlaintext = OutgoingPlaintext(esk: felt, recipientPkdX: felt, note: PlainNote)

  function OutgoingKey(c: Primitives, ovk: felt, epk: Bytes64, commitment: felt): Bytes32 {
    FieldBytes(c.poseidon([DOM_OCK, ovk, FieldFromBytes(epk[..32]), commitment]))
  }

  function SealOutgoing(c: Primitives, ovk: felt, epk: Bytes64, commitment: felt, plaintext: seq<byte>,
          nonce: Bytes12): OutgoingCiphertext {
    OutgoingCiphertext(nonce, c.seal(OutgoingKey(c, ovk, epk, commitment), nonce, plaintext, FieldBytes(commitment)))
  }

  /** The drawn nonce, the derived key, and the commitment as associated data. */
  lemma {:induction false} OutgoingSealed(c: Primitives, ovk: felt, epk: Bytes64, commitment: felt,
          plaintext: seq<byte>,
          nonce: Bytes12)
    ensures var o := SealOutgoing(c, ovk, epk, commitment, plaintext, nonce);
      && o.nonce == nonce
      && o.ciphertext == c.seal(OutgoingKey(c, ovk, epk, commitment), nonce, plaintext, BeBytes(commitment, 32))
  {
    hide OutgoingKey, BeBytes;
  }

  /** Current format: the ephemeral secret and the note. */
  function OutgoingBytes(esk: felt, note: PlainNote): seq<byte> { FieldBytes(esk) + NoteBytes(note) }

  /** Historical format: with the recipient's coordinate in between. */
  function OutgoingBytesV1(esk: felt, pkdX: felt, note: PlainNote): seq<byte> {
    FieldBytes(esk) + FieldBytes(pkdX) + NoteBytes(note)
  }

  method EncryptOutgoing(c: Primitives, ovk: felt, esk: felt, epk: Bytes64, note: PlainNote, commitment: felt,
          nonce: Bytes12)
    returns (r: OutgoingCiphertext)
    ensures r == SealOutgoing(c, ovk, epk, commitment, OutgoingBytes(esk, note), nonce)
  {
    var ock := OutgoingKey(c, ovk, epk, commitment);
    var plaintext: seq<byte> := [];
    plaintext := plaintext + FieldBytes(esk);
    var noteBytes := SerializeNote(note);
    plaintext := plaintext + noteBytes;
    assert plaintext == OutgoingBytes(esk, note);
    r := OutgoingCiphertext(nonce, c.seal(ock, nonce, plaintext, FieldBytes(commitment)));
  }

  function ParseOutgoing(b: seq<byte>): Result<OutgoingPlaintext, EncryptionError> {
    if |b| == C_OUT_PLAINTEXT_SIZE then
      var note := NoteFromBytes(b[32..]);
      if note.Err? then Err(note.error)
      else Ok(OutgoingPlaintext(FieldFromBytes(b[..32]), note.value.recipient, note.value))
    else if |b| == C_OUT_PLAINTEXT_SIZE_V1 then
      var note := NoteFromBytes(b[64..]);
      if note.Err? then Err(note.error)
      else Ok(OutgoingPlaintext(FieldFromBytes(b[..32]), FieldFromBytes(b[32..64]), note.value))
    else Err(InvalidLength)
  }

  function DecryptOutgoing(c: Primitives, ovk: felt, o: OutgoingCiphertext, epk: Bytes64, commitment: felt)
    : Result<OutgoingPlaintext, EncryptionError>
  {
    match c.open(OutgoingKey(c, ovk, epk, commitment), o.nonce, o.ciphertext, FieldBytes(commitment))
    case None => Err(DecryptionFailed)
    case Some(plaintext) => ParseOutgoing(plaintext)
  }

  /** The outgoing key binds the viewing key, the ephemeral key's first half and the commitment. */
  lemma {:induction false} OutgoingKeyBinds(c: Primitives, ovk: felt, a: Bytes64, cm: felt, ovk': felt, b: Bytes64,
          cm': felt)
    requires OutgoingKey(c, ovk, a, cm) == OutgoingKey(c, ovk', b, cm')
    requires Apart(c.poseidon, [DOM_OCK, ovk, FieldFromBytes(a[..32]), cm],
             [DOM_OCK, ovk', FieldFromBytes(b[..32]), cm'])
    ensures ovk == ovk' && FieldFromBytes(a[..32]) == FieldFromBytes(b[..32]) && cm == cm'
  {
    hide FieldFromBytes, FieldBytes;
    var x, y := [DOM_OCK, ovk, FieldFromBytes(a[..32]), cm], [DOM_OCK, ovk', FieldFromBytes(b[..32]), cm'];
    FieldRoundTrip(c.poseidon(x));
    FieldRoundTrip(c.poseidon(y));
    assert x[1] == y[1] && x[2] == y[2] && x[3] == y[3];
  }

  /** The current format, or the historical one with the recipient's coordinate in between. */
  predicate ReadsAs(b: seq<byte>, sent: OutgoingPlaintext) {
    if |b| == C_OUT_PLAINTEXT_SIZE then
      && sent.esk == FieldFromBytes(b[..32]) && sent.recipientPkdX == sent.note.recipient
      && NoteFromBytes(b[32..]) == Ok(sent.note)
    else
      && |b| == C_OUT_PLAINTEXT_SIZE_V1
      && sent.esk == FieldFromBytes(b[..32]) && sent.recipientPkdX == FieldFromBytes(b[32..64])
      && NoteFromBytes(b[64..]) == Ok(sent.note)
  }

  /** The sender's trial: refused when the cipher does not open, else what the opened bytes parse to. */
  lemma {:induction false} DecryptOutgoingOutcome(c: Primitives, ovk: felt, o: OutgoingCiphertext, epk: Bytes64,
          commitment: felt, sent: OutgoingPlaintext)
    ensures var got := c.open(OutgoingKey(c, ovk, epk, commitment), o.nonce, o.ciphertext, FieldBytes(commitment));
            var r := DecryptOutgoing(c, ovk, o, epk, commitment);
      && (r == Err(DecryptionFailed) <==> got.None?)
      && (r == Err(InvalidLength) <==> got.Some? && |got.value| != C_OUT_PLAINTEXT_SIZE
                                       && |got.value| != C_OUT_PLAINTEXT_SIZE_V1)
      && (r == Ok(sent) <==> got.Some? && ReadsAs(got.value, sent))
  {
    hide OutgoingKey, FieldFromBytes, FieldBytes, LeWord;
  }

  /** The two plaintext formats are told apart by length alone, and any other length is refused. */
  lemma {:induction false} OutgoingFormats(esk: felt, pkdX: felt, note: PlainNote, b: seq<byte>)
    ensures ParseOutgoing(OutgoingBytes(esk, note)) == Ok(OutgoingPlaintext(esk, note.recipient, note))
    ensures ParseOutgoing(OutgoingBytesV1(esk, pkdX, note)) == Ok(OutgoingPlaintext(esk, pkdX, note))
    ensures ParseOutgoing(b).Ok? <==> |b| == C_OUT_PLAINTEXT_SIZE || |b| == C_OUT_PLAINTEXT_SIZE_V1
  {
    hide NoteBytes;
    var v2, v1 := OutgoingBytes(esk, note), OutgoingBytesV1(esk, pkdX, note);
    NoteRoundTrip(note, []);
    assert v2[32..] == NoteBytes(note) + [] && v2[..32] == FieldBytes(esk);
    assert v1[64..] == NoteBytes(note) + [] && v1[..32] == FieldBytes(esk) && v1[32..64] == FieldBytes(pkdX);
    FieldRoundTrip(esk);
    FieldRoundTrip(pkdX);
  }

  /** The sender's viewing key recovers what was sent, from ciphertexts of either format. */
  lemma {:induction false} OutgoingRoundTrip(c: Primitives, ovk: felt, esk: felt, pkdX: felt, note: PlainNote,
          epk: Bytes64, commitment: felt, nonce: Bytes12)
    requires Lawful(c)
    ensures DecryptOutgoing(c, ovk, SealOutgoing(c, ovk, epk, commitment, OutgoingBytes(esk, note), nonce), epk,
            commitment)
         == Ok(OutgoingPlaintext(esk, note.recipient, note))
    ensures DecryptOutgoing(c, ovk, SealOutgoing(c, ovk, epk, commitment, OutgoingBytesV1(esk, pkdX, note), nonce),
            epk, commitment)
         == Ok(OutgoingPlaintext(esk, pkdX, note))
  {
    hide OutgoingBytes, OutgoingBytesV1, ParseOutgoing, OutgoingKey;
    OutgoingFormats(esk, pkdX, note, []);
  }

  // ---------------------------------------------------------------------------
  // Both ciphertexts of one output
  // ---------------------------------------------------------------------------

  datatype OutputCiphertexts = OutputCiphertexts(cEnc: EncryptedNote, cOut: OutgoingCiphertext, commitment: felt)

  function OutputBytes(o: OutputCiphertexts): seq<byte> {
    FieldBytes(o.commitment) + EncryptedBytes(o.cEnc) + (o.cOut.nonce + o.cOut.ciphertext)
  }

  /** Commitment, encrypted note, outgoing nonce and outgoing ciphertext, in this order. */
  lemma {:induction false} OutputLayout(o: OutputCiphertexts)
    ensures var b, n := OutputBytes(o), HEADER_SIZE + |o.cEnc.ciphertext|;
      && BeVal(b[0..32]) == o.commitment && b[32..32 + n] == EncryptedBytes(o.cEnc)
      && b[32 + n..44 + n] == o.cOut.nonce && b[44 + n..] == o.cOut.ciphertext
  {
    hide BeVal, FieldBytes, LeBytes;
    FieldBytesValue(o.commitment);
    assert OutputBytes(o)[0..32] == FieldBytes(o.commitment);
  }

  /** The ephemeral secret first; the historical format has the recipient's coordinate between it and the note. */
  lemma {:induction false} OutgoingLayout(esk: felt, pkdX: felt, note: PlainNote)
    ensures var b := OutgoingBytes(esk, note);
            |b| == C_OUT_PLAINTEXT_SIZE && BeVal(b[0..32]) == esk && b[32..] == NoteBytes(note)
    ensures var b := OutgoingBytesV1(esk, pkdX, note);
      && |b| == C_OUT_PLAINTEXT_SIZE_V1 && BeVal(b[0..32]) == esk && BeVal(b[32..64]) == pkdX
      && b[64..] == NoteBytes(note)
  {
    hide BeVal, FieldBytes, NoteBytes;
    FieldBytesValue(esk);
    FieldBytesValue(pkdX);
    assert OutgoingBytes(esk, note)[0..32] == FieldBytes(esk);
    var b := OutgoingBytesV1(esk, pkdX, note);
    assert b[0..32] == FieldBytes(esk) && b[32..64] == FieldBytes(pkdX);
  }

  function OutgoingFromBytes(b: seq<byte>): Result<OutgoingCiphertext, EncryptionError> {
    if |b| < NONCE_SIZE then Err(InvalidLength) else Ok(OutgoingCiphertext(b[..12], b[12..]))
  }

  /** The encrypted note is taken to fill its nominal size; the outgoing part is the rest. */
  function OutputFromBytes(b: seq<byte>): Result<OutputCiphertexts, EncryptionError> {
    if |b| < 32 + ENCRYPTED_NOTE_SIZE + NONCE_SIZE then Err(InvalidLength)
    else
      var cEnc := EncryptedFromBytes(b[32..32 + ENCRYPTED_NOTE_SIZE]);
      if cEnc.Err? then Err(cEnc.error)
      else
        var cOut := OutgoingFromBytes(b[32 + ENCRYPTED_NOTE_SIZE..]);
        if cOut.Err? then Err(cOut.error)
        else Ok(OutputCiphertexts(cEnc.value, cOut.value, FieldFromBytes(b[..32])))
  }

  /** The pair survives its byte form exactly when the note ciphertext has its nominal length. */
  lemma {:induction false} OutputRoundTrip(o: OutputCiphertexts)
    ensures OutputFromBytes(OutputBytes(o)) == Ok(o) <==> |o.cEnc.ciphertext| == PLAINTEXT_SIZE + TAG_SIZE
  {
    var b := OutputBytes(o);
    EncryptedRoundTrip(o.cEnc, b[32..if |b| < 276 then 32 else 276]);
    if |o.cEnc.ciphertext| == PLAINTEXT_SIZE + TAG_SIZE {
      assert b[..32] == FieldBytes(o.commitment);
      assert b[32..276] == EncryptedBytes(o.cEnc);
      assert b[276..] == o.cOut.nonce + o.cOut.ciphertext;
      assert b[276..][..12] == o.cOut.nonce && b[276..][12..] == o.cOut.ciphertext;
      FieldRoundTrip(o.commitment);
    }
  }

  function EncryptWithOutgoing(c: Primitives, note: PlainNote, addr: DiversifiedAddress, ovk: felt, commitment: felt,
          esk: felt, nonce: Bytes12, outNonce: Bytes12): OutputCiphertexts {
    var cEnc := Encrypt(c, note, addr, esk, nonce);
    OutputCiphertexts(cEnc, SealOutgoing(c, ovk, cEnc.ephemeralKey, commitment, OutgoingBytes(esk, note), outNonce),
        commitment)
  }

  /**
   One output read back from its bytes by both parties: the recipient gets the note exactly when the
   ephemeral point is not the identity, and the sender always gets the note, its recipient and the
   ephemeral secret.
   */
  lemma {:induction false} BothPartiesRead(c: Primitives, note: PlainNote, fvk: FullViewingKey, index: u64, ovk: felt,
          commitment: felt, esk: felt, nonce: Bytes12, outNonce: Bytes12)
    requires Lawful(c) && AddressedTo(c, note, fvk, index)
    ensures var sent := OutputFromBytes(OutputBytes(
              EncryptWithOutgoing(c, note, AddressAt(c, fvk, index), ovk, commitment, esk, nonce, outNonce)));
      && sent.Ok?
      && (TryDecrypt(c, sent.value.cEnc, fvk, index) == Ok(note) <==>
          EphemeralPoint(AddressAt(c, fvk, index), esk) != 0)
      && DecryptOutgoing(c, ovk, sent.value.cOut, sent.value.cEnc.ephemeralKey, sent.value.commitment)
           == Ok(OutgoingPlaintext(esk, note.recipient, note))
  {
    hide TryDecrypt, DecryptOutgoing, SealOutgoing, OutgoingBytes, OutputBytes, OutputFromBytes, SymmetricKey,
         PointBytes, NoteBytes, Mul;
    var o := EncryptWithOutgoing(c, note, AddressAt(c, fvk, index), ovk, commitment, esk, nonce, outNonce);
    OutputRoundTrip(o);
    DecryptOutcome(c, note, fvk, index, index, esk, nonce);
    OutgoingRoundTrip(c, ovk, esk, note.recipient, note, o.cEnc.ephemeralKey, commitment, outNonce);
  }
}
