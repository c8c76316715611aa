/**
 Field elements as free terms.

 A field element is a literal, a Poseidon2 digest of a vector of field elements, or the
 x-coordinate of a Grumpkin point s1*s2*...*sk*G, kept as the multiset of its scalars.
 Distinct terms are distinct values: hashing is collision free, a digest is never a
 literal, and the only equation between points is that scalars commute.
 */
module Field {
  import opened Words
  import opened Bytes

  datatype Fr =
    | Num(n: felt)
    | Hash(inputs: Inputs)
    | CoordX(scalars: multiset<Fr>)

  /** The vector handed to the hash function. */
  datatype Inputs = End | In(head: Fr, tail: Inputs)

  const ZERO: Fr := Num(0)

  // Domain tags (masp-protocol/src/domain.rs).
  const DOM_NOTE_COMMITMENT: Fr := Num(1)
  const DOM_NULLIFIER: Fr := Num(2)
  const DOM_ASSET_ID: Fr := Num(3)
  const DOM_CIPHERTEXT: Fr := Num(4)
  const DOM_TX_BINDING: Fr := Num(5)
  const DOM_NULLIFIER_NONCE: Fr := Num(6)
  const DOM_MERKLE_NODE: Fr := Num(7)
  const DOM_IVK: Fr := Num(8)
  const DOM_AUTH_SECRET: Fr := Num(9)
  const DOM_NULLIFIER_SECRET: Fr := Num(10)

  function In3(a: Fr, b: Fr, c: Fr, rest: Inputs): Inputs { In(a, In(b, In(c, rest))) }

  function Hash1(a: Fr): Fr { Hash(In(a, End)) }

  function Hash2(a: Fr, b: Fr): Fr { Hash(In(a, In(b, End))) }

  function Hash3(a: Fr, b: Fr, c: Fr): Fr { Hash(In(a, In(b, In(c, End)))) }

  function MerkleHash(left: Fr, right: Fr): Fr { Hash3(DOM_MERKLE_NODE, left, right) }

  // ---------------------------------------------------------------------------
  // Notes
  // ---------------------------------------------------------------------------

  datatype Note = Note(
    assetId: Fr,
    amount: u64,
    recipient: Fr,
    diversifierIndex: u64,
    nullifierNonce: Fr,
    noteRandomness: Fr)
  {
    function Fields(): Inputs {
      In3(assetId, Num(amount), recipient, In3(Num(diversifierIndex), nullifierNonce, noteRandomness, End))
    }

    function Commitment(): Fr { Hash(In(DOM_NOTE_COMMITMENT, Fields())) }
  }

  /** The note a commitment hides, when the term is a note commitment at all. */
  function OpenNote(cm: Fr): (r: Option<Note>)
    ensures r.Some? ==> r.value.Commitment() == cm
  {
    if cm.Hash? && cm.inputs.In? && cm.inputs.head == DOM_NOTE_COMMITMENT then OpenFields(cm.inputs.tail) else None
  }

  function OpenFields(v: Inputs): (r: Option<Note>)
    ensures r.Some? ==> v == r.value.Fields()
  {
    if v.In? && v.tail.In? && v.tail.tail.In? && v.tail.tail.tail.In? && v.tail.tail.tail.tail.In?
       && v.tail.tail.tail.tail.tail.In? && v.tail.tail.tail.tail.tail.tail.End?
       && v.tail.head.Num? && v.tail.head.n < TWO_64
       && v.tail.tail.tail.head.Num? && v.tail.tail.tail.head.n < TWO_64 then
      var w := v.tail.tail;
      Some(Note(v.head, v.tail.head.n, w.head, w.tail.head.n, w.tail.tail.head, w.tail.tail.tail.head))
    else
      None
  }

  predicate IsNoteCommitment(cm: Fr) {
    OpenNote(cm).Some?
  }

  /** A commitment hides exactly one note. */
  lemma {:induction false} CommitmentBinding(note: Note)
    ensures OpenNote(note.Commitment()) == Some(note)
  {
  }

  lemma {:induction false} CommitmentInjective(a: Note, b: Note)
    requires a.Commitment() == b.Commitment()
    ensures a == b
  {
  }

  /** A note commitment is neither the empty leaf nor an inner tree node. */
  lemma {:induction false} CommitmentIsNotNode(cm: Fr, left: Fr, right: Fr)
    requires IsNoteCommitment(cm)
    ensures cm != ZERO && cm != MerkleHash(left, right)
  {
  }

  // ---------------------------------------------------------------------------
  // Keys, addresses, nullifiers
  // ---------------------------------------------------------------------------

  function Ask(sk: Fr): Fr { Hash2(DOM_AUTH_SECRET, sk) }

  function Nsk(sk: Fr): Fr { Hash2(DOM_NULLIFIER_SECRET, sk) }

  function Ivk(sk: Fr): Fr { Hash3(DOM_IVK, CoordX(multiset{Ask(sk)}), CoordX(multiset{Nsk(sk)})) }

  /** Scalar of the diversifier base point g_d = H(index) * G. */
  function DiversifierScalar(index: u64): Fr { Hash1(Num(index)) }

  /** pk_d.x, where pk_d = ivk * g_d. */
  function AddressField(sk: Fr, index: u64): Fr {
    CoordX(multiset{DiversifierScalar(index), Ivk(sk)})
  }

  function ComputeNullifier(nsk: Fr, nonce: Fr): Fr { Hash3(DOM_NULLIFIER, nsk, nonce) }

  lemma {:induction false} IvkFixesKey(sk1: Fr, sk2: Fr)
    requires Ivk(sk1) == Ivk(sk2)
    ensures sk1 == sk2
  {
    assert Ask(sk1) in multiset{Ask(sk1)};
    assert Ask(sk1) in multiset{Ask(sk2)};
  }

  /** A recipient field belongs to one spending key and one diversifier only. */
  lemma {:induction false} RecipientFixesKey(sk1: Fr, i1: u64, sk2: Fr, i2: u64)
    requires AddressField(sk1, i1) == AddressField(sk2, i2)
    ensures sk1 == sk2 && i1 == i2
  {
    var d1, k1, d2, k2 := DiversifierScalar(i1), Ivk(sk1), DiversifierScalar(i2), Ivk(sk2);
    assert k1 in multiset{d1, k1} && d1 in multiset{d1, k1};
    assert k1 in multiset{d2, k2} && d1 in multiset{d2, k2};
    IvkFixesKey(sk1, sk2);
  }

  /** The key `sk` may spend `note`: the note is addressed to sk at its diversifier. */
  predicate OwnedBy(note: Note, sk: Fr) {
    note.recipient == AddressField(sk, note.diversifierIndex)
  }

  function NullifierOf(note: Note, sk: Fr): Fr {
    ComputeNullifier(Nsk(sk), note.nullifierNonce)
  }

  /** Every key that may spend a note computes the same nullifier for it. */
  lemma {:induction false} NullifierOfNoteUnique(note: Note, sk1: Fr, sk2: Fr)
    requires OwnedBy(note, sk1) && OwnedBy(note, sk2)
    ensures sk1 == sk2 && NullifierOf(note, sk1) == NullifierOf(note, sk2)
  {
    RecipientFixesKey(sk1, note.diversifierIndex, sk2, note.diversifierIndex);
  }

  // ---------------------------------------------------------------------------
  // Transaction binding (client/src/tx_binding.rs)
  // ---------------------------------------------------------------------------

  type Fr3 = s: seq<Fr> | |s| == 3 witness [Num(0), Num(0), Num(0)]

  function TxBindingTransfer(anchor: Fr, nullifiers: Fr3, inputCount: u32, outputCount: u32): Fr {
    var hNf := Hash3(nullifiers[0], nullifiers[1], nullifiers[2]);
    Hash(In3(DOM_TX_BINDING, Num(2), anchor, In3(Num(inputCount), Num(outputCount), hNf, End)))
  }

  function TxBindingUnshield(anchor: Fr, nullifier: Fr, amount: u64, limbs: Limbs, assetId: Fr): Fr {
    Hash(In3(DOM_TX_BINDING, Num(3), anchor, In3(nullifier, Num(amount), Num(limbs[0]),
         In3(Num(limbs[1]), Num(limbs[2]), Num(limbs[3]), In(assetId, End)))))
  }

  function DeriveOutputNonce(txBinding: Fr, index: u64): Fr {
    Hash3(DOM_NULLIFIER_NONCE, txBinding, Num(index))
  }

  /** A transfer binding pins the anchor, both counts and the whole padded nullifier array. */
  lemma {:induction false} TxBindingFixesNullifiers(a1: Fr, n1: Fr3, i1: u32, o1: u32, a2: Fr, n2: Fr3, i2: u32,
          o2: u32)
    requires TxBindingTransfer(a1, n1, i1, o1) == TxBindingTransfer(a2, n2, i2, o2)
    ensures a1 == a2 && n1 == n2 && i1 == i2 && o1 == o2
  {
    assert n1 == [n1[0], n1[1], n1[2]] && n2 == [n2[0], n2[1], n2[2]];
  }

  /** An unshield binding pins anchor, nullifier, amount, recipient and asset; it is never a transfer's. */
  lemma {:induction false} TxBindingFixesWithdrawal(a1: Fr, n1: Fr, m1: u64, r1: Bytes32, t1: Fr,
          a2: Fr, n2: Fr, m2: u64, r2: Bytes32, t2: Fr)
    requires TxBindingUnshield(a1, n1, m1, RecipientLimbs(r1), t1)
             == TxBindingUnshield(a2, n2, m2, RecipientLimbs(r2), t2)
    ensures a1 == a2 && n1 == n2 && m1 == m2 && r1 == r2 && t1 == t2
  {
    hide RecipientBytes;
    var p, q := RecipientLimbs(r1), RecipientLimbs(r2);
    assert p == [p[0], p[1], p[2], p[3]] && q == [q[0], q[1], q[2], q[3]];
    RecipientLimbsInverse(r1, p);
    RecipientLimbsInverse(r2, q);
  }

  /** The digests the protocol takes are never mistaken for one another. */
  lemma {:induction false} DomainsSeparate(note: Note, nsk: Fr, nonce: Fr, left: Fr, right: Fr, nfs: Fr3, a: Fr, i: u32,
          o: u32, nf: Fr, m: u64, limbs: Limbs, t: Fr, k: u64)
    ensures var digests := [note.Commitment(), ComputeNullifier(nsk, nonce), MerkleHash(left, right),
        TxBindingTransfer(a, nfs, i, o), TxBindingUnshield(a, nf, m, limbs, t), DeriveOutputNonce(a, k)];
      && (forall p, q :: 0 <= p < q < |digests| ==> digests[p] != digests[q])
      && ZERO !in digests
  {
  }
}
