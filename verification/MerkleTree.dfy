/**
 The commitment tree as a mathematical object: full recomputation from the leaves,
 authentication paths, and what an accepted path says about the leaves.
 */
module MerkleTree {
  import opened Words
  import opened Field

  /** Leaf value by index; leaves that were never written are zero. */
  function Leaf(leaves: map<nat, Fr>, i: nat): Fr {
    if i in leaves then leaves[i] else ZERO
  }

  /** Recomputation of the node covering leaves index*2^level .. (index+1)*2^level. */
  function Node(leaves: map<nat, Fr>, level: nat, index: nat): Fr {
    if level == 0 then Leaf(leaves, index)
    else MerkleHash(Node(leaves, level - 1, 2 * index), Node(leaves, level - 1, 2 * index + 1))
  }

  /** Left before right, at every level: the root of a tree of four leaves. */
  lemma {:induction false} FourLeafRoot(a: Fr, b: Fr, c: Fr)
    ensures var leaves := map[0 := a, 1 := b, 2 := c];
            Node(leaves, 2, 0) == MerkleHash(MerkleHash(a, b), MerkleHash(c, ZERO))
  {
    var leaves := map[0 := a, 1 := b, 2 := c];
    assert Node(leaves, 1, 0) == MerkleHash(Leaf(leaves, 0), Leaf(leaves, 1));
    assert Node(leaves, 1, 1) == MerkleHash(Leaf(leaves, 2), Leaf(leaves, 3));
  }

  function Pow2(n: nat): (p: nat)
    ensures p > 0
  {
    if n == 0 then 1 else 2 * Pow2(n - 1)
  }

  /** Index of the ancestor of leaf i, `level` levels up: the index halved `level` times. */
  function Ancestor(i: nat, level: nat): nat {
    if level == 0 then i else Ancestor(i, level - 1) / 2
  }

  predicate SubMap(a: map<nat, Fr>, b: map<nat, Fr>) {
    forall i :: i in a ==> i in b && b[i] == a[i]
  }

  /** A node binds exactly the leaves below it: equal nodes, equal ranges of leaves. */
  lemma {:induction false} NodeBindsLeaves(a: map<nat, Fr>, b: map<nat, Fr>, level: nat, index: nat)
    ensures Node(a, level, index) == Node(b, level, index)
       <==> forall k: nat :: index * Pow2(level) <= k < (index + 1) * Pow2(level) ==> Leaf(a, k) == Leaf(b, k)
  {
    if level == 0 {
      assert Node(a, 0, index) == Leaf(a, index) && Node(b, 0, index) == Leaf(b, index);
    } else {
      var half := Pow2(level - 1);
      NodeBindsLeaves(a, b, level - 1, 2 * index);
      NodeBindsLeaves(a, b, level - 1, 2 * index + 1);
      assert index * Pow2(level) == (2 * index) * half;
      assert (2 * index + 1) * half == (2 * index) * half + half;
      assert (index + 1) * Pow2(level) == ((2 * index + 1) + 1) * half;
    }
  }

  /** Writing one leaf changes no node outside that leaf's path. */
  lemma {:induction false} WriteTouchesOnlyPath(leaves: map<nat, Fr>, i: nat, cm: Fr, level: nat, index: nat)
    requires index != Ancestor(i, level)
    ensures Node(leaves[i := cm], level, index) == Node(leaves, level, index)
  {
    if level > 0 {
      WriteTouchesOnlyPath(leaves, i, cm, level - 1, 2 * index);
      WriteTouchesOnlyPath(leaves, i, cm, level - 1, 2 * index + 1);
    }
  }

  /** All empty subtrees of one height have the same node. */
  lemma {:induction false} EmptyNodesAgree(level: nat, i: nat, j: nat)
    ensures Node(map[], level, i) == Node(map[], level, j)
  {
    if level > 0 {
      EmptyNodesAgree(level - 1, 2 * i, 2 * j);
      EmptyNodesAgree(level - 1, 2 * i + 1, 2 * j + 1);
    }
  }

  lemma {:induction false} AncestorOfHalf(i: nat, level: nat)
    ensures Ancestor(i, level + 1) == Ancestor(i / 2, level)
  {
    if level > 0 {
      AncestorOfHalf(i, level - 1);
    }
  }

  /** A leaf lies under the root exactly when its index is within the capacity. */
  lemma {:induction false} AncestorAtTop(i: nat, depth: nat)
    ensures i < Pow2(depth) <==> Ancestor(i, depth) == 0
  {
    if depth > 0 {
      AncestorOfHalf(i, depth - 1);
      AncestorAtTop(i / 2, depth - 1);
    }
  }

  // ---------------------------------------------------------------------------
  // Authentication paths
  // ---------------------------------------------------------------------------

  function Combine(current: Fr, sibling: Fr, isRight: bool): Fr {
    if isRight then MerkleHash(sibling, current) else MerkleHash(current, sibling)
  }

  /** Value reached after the first k steps of a path. */
  function Climb(cm: Fr, siblings: seq<Fr>, bits: seq<bool>, k: nat): Fr
    requires k <= |siblings| && k <= |bits|
  {
    if k == 0 then cm
    else Combine(Climb(cm, siblings, bits, k - 1), siblings[k - 1], bits[k - 1])
  }

  /** A path pairs siblings with bits and stops at the shorter list. */
  function PathLength(siblings: seq<Fr>, bits: seq<bool>): nat {
    if |siblings| <= |bits| then |siblings| else |bits|
  }

  /** Leaf index reached by descending k levels from node `index`, following the bits downwards. */
  function Descend(bits: seq<bool>, k: nat, index: nat): nat
    requires k <= |bits|
  {
    if k == 0 then index
    else Descend(bits, k - 1, 2 * index + (if bits[k - 1] then 1 else 0))
  }

  /** The bits are the binary digits of the leaf index they spell. */
  lemma {:induction false} DescendSpellsBits(bits: seq<bool>, k: nat, index: nat)
    requires k <= |bits|
    ensures Ancestor(Descend(bits, k, index), k) == index
    ensures forall j :: 0 <= j < k ==> (Ancestor(Descend(bits, k, index), j) % 2 == 1) == bits[j]
  {
    if k > 0 {
      var bit := if bits[k - 1] then 1 else 0;
      DescendSpellsBits(bits, k - 1, 2 * index + bit);
    }
  }

  function Sibling(index: nat): nat {
    if index % 2 == 1 then index - 1 else index + 1
  }

  /** Siblings along the path of leaf i, bottom up. */
  function PathSiblings(leaves: map<nat, Fr>, i: nat, depth: nat): (s: seq<Fr>)
    ensures |s| == depth
  {
    seq(depth, (j: nat) requires j < depth => Node(leaves, j, Sibling(Ancestor(i, j))))
  }

  /** Directions along the path of leaf i, bottom up: true when the path node is a right child. */
  function PathBits(i: nat, depth: nat): (b: seq<bool>)
    ensures |b| == depth
  {
    seq(depth, (j: nat) requires j < depth => Ancestor(i, j) % 2 == 1)
  }

  /** The siblings and bits that authenticate leaf i under the node `depth` levels up. */
  ghost predicate IsPathOf(leaves: map<nat, Fr>, i: nat, siblings: seq<Fr>, bits: seq<bool>) {
    |siblings| == |bits| &&
    forall j: nat :: j < |bits| ==>
      bits[j] == (Ancestor(i, j) % 2 == 1) && siblings[j] == Node(leaves, j, Sibling(Ancestor(i, j)))
  }

  lemma {:induction false} PathExtends(leaves: map<nat, Fr>, i: nat, s: seq<Fr>, b: seq<bool>, siblings: seq<Fr>,
          bits: seq<bool>)
    requires IsPathOf(leaves, i, s, b)
    requires siblings == s + [Node(leaves, |b|, Sibling(Ancestor(i, |b|)))]
    requires bits == b + [Ancestor(i, |b|) % 2 == 1]
    ensures IsPathOf(leaves, i, siblings, bits)
  {
  }

  lemma {:induction false} PathUnique(leaves: map<nat, Fr>, i: nat, siblings: seq<Fr>, bits: seq<bool>)
    ensures IsPathOf(leaves, i, siblings, bits)
       <==> siblings == PathSiblings(leaves, i, |bits|) && bits == PathBits(i, |bits|)
  {
  }

  /** Completeness: the path of a leaf climbs to that leaf's ancestor. */
  lemma {:induction false} PathClimbs(leaves: map<nat, Fr>, i: nat, siblings: seq<Fr>, bits: seq<bool>, k: nat)
    requires IsPathOf(leaves, i, siblings, bits)
    requires k <= |bits|
    ensures Climb(Leaf(leaves, i), siblings, bits, k) == Node(leaves, k, Ancestor(i, k))
  {
    if k > 0 {
      PathClimbs(leaves, i, siblings, bits, k - 1);
      var a := Ancestor(i, k - 1);
      assert bits[k - 1] == (a % 2 == 1);
    }
  }

  /** Soundness at full length: the climb reaches a node only from the leaf its bits spell. */
  lemma {:induction false} PathPinsLeaf(leaves: map<nat, Fr>, cm: Fr, siblings: seq<Fr>, bits: seq<bool>,
                                        k: nat, index: nat)
    requires k <= |siblings| && k <= |bits|
    requires Climb(cm, siblings, bits, k) == Node(leaves, k, index)
    ensures Leaf(leaves, Descend(bits, k, index)) == cm
  {
    if k > 0 {
      var below := Climb(cm, siblings, bits, k - 1);
      var l, r := Node(leaves, k - 1, 2 * index), Node(leaves, k - 1, 2 * index + 1);
      if bits[k - 1] {
        PathPinsLeaf(leaves, cm, siblings, bits, k - 1, 2 * index + 1);
      } else {
        PathPinsLeaf(leaves, cm, siblings, bits, k - 1, 2 * index);
      }
    }
  }

  predicate OnlyNoteLeaves(leaves: map<nat, Fr>) {
    forall i :: i in leaves ==> IsNoteCommitment(leaves[i])
  }

  /**
   Soundness without a length check: when every written leaf is a note commitment, a path of
   ANY length from a note commitment to a node at `level` has length `level`, because domain
   tags keep note commitments, inner nodes and the empty leaf apart.
   */
  lemma {:induction false} PathLengthForced(leaves: map<nat, Fr>, cm: Fr, siblings: seq<Fr>, bits: seq<bool>,
                                            k: nat, level: nat, index: nat)
    requires k <= |siblings| && k <= |bits|
    requires IsNoteCommitment(cm) && OnlyNoteLeaves(leaves)
    requires Climb(cm, siblings, bits, k) == Node(leaves, level, index)
    ensures k == level
  {
    if level == 0 {
      if k > 0 {
        assert false;
      }
    } else {
      var l, r := Node(leaves, level - 1, 2 * index), Node(leaves, level - 1, 2 * index + 1);
      if k == 0 {
        CommitmentIsNotNode(cm, l, r);
      } else {
        var below := Climb(cm, siblings, bits, k - 1);
        if bits[k - 1] {
          PathLengthForced(leaves, cm, siblings, bits, k - 1, level - 1, 2 * index + 1);
        } else {
          PathLengthForced(leaves, cm, siblings, bits, k - 1, level - 1, 2 * index);
        }
      }
    }
  }

  // ---------------------------------------------------------------------------
  // Membership witnesses (client/src/proofs.rs)
  // ---------------------------------------------------------------------------

  datatype MembershipWitness =
    | MerklePath(siblings: seq<Fr>, pathIndices: seq<bool>, root: Fr)
    | LightValidityProof(proofBytes: seq<byte>, root: Fr)

  /** What `verify_local` decides. */
  predicate Accepted(w: MembershipWitness, cm: Fr) {
    w.MerklePath? &&
    Climb(cm, w.siblings, w.pathIndices, PathLength(w.siblings, w.pathIndices)) == w.root
  }

  method VerifyLocal(w: MembershipWitness, commitment: Fr) returns (ok: bool)
    ensures ok == Accepted(w, commitment)
  {
    match w
    case MerklePath(siblings, pathIndices, root) =>
      var current := commitment;
      var k := 0;
      while k < |siblings| && k < |pathIndices|
        invariant k <= |siblings| && k <= |pathIndices|
        invariant current == Climb(commitment, siblings, pathIndices, k)
      {
        current := if pathIndices[k] then MerkleHash(siblings[k], current) else MerkleHash(current, siblings[k]);
        k := k + 1;
      }
      ok := current == root;
    case LightValidityProof(_, _) =>
      ok := false;
  }

  /** The witness the store hands out for leaf i. */
  function WitnessOf(leaves: map<nat, Fr>, i: nat, depth: nat): MembershipWitness {
    MerklePath(PathSiblings(leaves, i, depth), PathBits(i, depth), Node(leaves, depth, 0))
  }

  /**
   A handed-out witness is accepted exactly when the subtree above the leaf carries the root's
   value, which is always so for leaves within the tree's capacity.
   */
  lemma {:induction false} WitnessAcceptedWithinCapacity(leaves: map<nat, Fr>, i: nat, depth: nat)
    ensures Accepted(WitnessOf(leaves, i, depth), Leaf(leaves, i))
       <==> Node(leaves, depth, Ancestor(i, depth)) == Node(leaves, depth, 0)
    ensures i < Pow2(depth) ==> Accepted(WitnessOf(leaves, i, depth), Leaf(leaves, i))
  {
    var s, b := PathSiblings(leaves, i, depth), PathBits(i, depth);
    PathUnique(leaves, i, s, b);
    PathClimbs(leaves, i, s, b, depth);
    AncestorAtTop(i, depth);
  }

  /**
   Soundness across history: a witness accepted against a root recorded for some past set of
   leaves names a leaf of that set, and the leaf is still there in every later set.
   */
  lemma {:induction false} AcceptedMeansLeaf(past: map<nat, Fr>, now: map<nat, Fr>, depth: nat, w: MembershipWitness,
          note: Note)
    requires OnlyNoteLeaves(past) && SubMap(past, now)
    requires Accepted(w, note.Commitment()) && w.root == Node(past, depth, 0)
    ensures PathLength(w.siblings, w.pathIndices) == depth
    ensures var i := Descend(w.pathIndices, depth, 0);
            i < Pow2(depth) && i in past && past[i] == note.Commitment() && i in now && now[i] == note.Commitment()
  {
    var cm := note.Commitment();
    CommitmentBinding(note);
    var k := PathLength(w.siblings, w.pathIndices);
    PathLengthForced(past, cm, w.siblings, w.pathIndices, k, depth, 0);
    PathPinsLeaf(past, cm, w.siblings, w.pathIndices, k, 0);
    DescendSpellsBits(w.pathIndices, depth, 0);
    AncestorAtTop(Descend(w.pathIndices, depth, 0), depth);
    CommitmentIsNotNode(cm, ZERO, ZERO);
  }
}
