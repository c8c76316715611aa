/** The commitment store and indexer of client/src/mock.rs. */
module Store {
  import opened Words
  import opened Field
  import opened MerkleTree
  import opened Traits

  const ANCHOR_HISTORY_SIZE: nat := 16

  /** Abstract value of a store: the leaves stand for the whole node table. */
  datatype StoreState = StoreState(
    depth: nat,
    leaves: map<nat, Fr>,
    leafCount: nat,
    index: map<Fr, nat>,
    recentRoots: seq<Fr>,
    ciphertexts: seq<OutputCiphertext>,
    txLog: map<TxSig, seq<Fr>>,
    nullifiers: set<Fr>)
  {
    function Root(): Fr { Node(leaves, depth, 0) }

    /** Fresh indices only, and the index names the latest leaf of each commitment. */
    ghost predicate WellFormed() {
      && (forall i :: i in leaves ==> i < leafCount && leaves[i] in index && i <= index[leaves[i]])
      && (forall cm :: cm in index ==> index[cm] in leaves && leaves[index[cm]] == cm)
    }
  }

  function EmptyStore(depth: nat): StoreState {
    StoreState(depth, map[], 0, map[], [Node(map[], depth, 0)], [], map[], {})
  }

  function PushRecent(roots: seq<Fr>, root: Fr): seq<Fr> {
    (if |roots| >= ANCHOR_HISTORY_SIZE then roots[1..] else roots) + [root]
  }

  /** The last sixteen roots, or all of them while there are fewer. */
  function Newest(roots: seq<Fr>): seq<Fr> {
    if |roots| <= ANCHOR_HISTORY_SIZE then roots else roots[|roots| - ANCHOR_HISTORY_SIZE..]
  }

  lemma {:induction false} NewestPush(roots: seq<Fr>, root: Fr)
    ensures PushRecent(Newest(roots), root) == Newest(roots + [root])
  {
  }

  lemma {:induction false} NewestMembers(roots: seq<Fr>, anchor: Fr)
    ensures anchor in Newest(roots) <==>
      exists k :: 0 <= k < |roots| && |roots| <= k + ANCHOR_HISTORY_SIZE && roots[k] == anchor
  {
    var w := Newest(roots);
    if anchor in w {
      var i :| 0 <= i < |w| && w[i] == anchor;
      assert roots[|roots| - |w| + i] == anchor;
    }
    if k :| 0 <= k < |roots| && |roots| <= k + ANCHOR_HISTORY_SIZE && roots[k] == anchor {
      assert w[k - (|roots| - |w|)] == anchor;
    }
  }

  function Inserted(s: StoreState, cm: Fr, tx: TxSig): StoreState {
    var leaves := s.leaves[s.leafCount := cm];
    s.(leaves := leaves,
       leafCount := s.leafCount + 1,
       index := s.index[cm := s.leafCount],
       recentRoots := PushRecent(s.recentRoots, Node(leaves, s.depth, 0)),
       txLog := s.txLog[tx := (if tx in s.txLog then s.txLog[tx] else []) + [cm]])
  }

  function OutputInserted(s: StoreState, cm: Fr, tx: TxSig, data: Option<OutputCiphertextData>): StoreState {
    var t := Inserted(s, cm, tx);
    match data
    case None => t
    case Some(d) =>
      t.(ciphertexts := t.ciphertexts + [OutputCiphertext(cm, d.ciphertext, d.ephemeralKey, tx, Some(d.ctHash))])
  }

  lemma {:induction false} InsertedWellFormed(s: StoreState, cm: Fr, tx: TxSig)
    requires s.WellFormed()
    ensures Inserted(s, cm, tx).WellFormed()
    ensures SubMap(s.leaves, Inserted(s, cm, tx).leaves)
  {
    assert s.leafCount !in s.leaves;
  }

  class MockStore {
    const depth: nat
    var nodes: map<(nat, nat), Fr>
    var commitments: map<Fr, nat>
    var leafCount: nat
    var emptyNodes: seq<Fr>
    var ciphertexts: seq<OutputCiphertext>
    var txLog: map<TxSig, seq<Fr>>
    var anchorHistory: seq<Fr>
    var nullifiers: set<Fr>
    ghost var leaves: map<nat, Fr>
    ghost var allRoots: seq<Fr>

    ghost function State(): StoreState
      reads this
    {
      StoreState(depth, leaves, leafCount, commitments, anchorHistory, ciphertexts, txLog, nullifiers)
    }

    /** A stored node, or the empty subtree of its level. */
    function GetNode(level: nat, index: nat): Fr
      requires level < |emptyNodes|
      reads `nodes, `emptyNodes
    {
      if (level, index) in nodes then nodes[(level, index)] else emptyNodes[level]
    }

    /** The node table agrees with full recomputation up to `level`, at every index. */
    ghost predicate Refines(tree: map<nat, Fr>, from: nat, to: nat)
      reads `nodes, `emptyNodes
    {
      |emptyNodes| == depth + 1 &&
      forall level: nat, index: nat :: from <= level < to && level <= depth
        ==> GetNode(level, index) == Node(tree, level, index)
    }

    ghost predicate Valid()
      reads this
    {
      && |emptyNodes| == depth + 1
      && (forall level: nat :: level <= depth ==> emptyNodes[level] == Node(map[], level, 0))
      && Refines(leaves, 0, depth + 1)
      && State().WellFormed()
      && anchorHistory == Newest(allRoots)
    }

    /** Hashes of the empty subtrees, one per level. */
    static method EmptyLevels(depth: nat) returns (empty: seq<Fr>)
      ensures |empty| == depth + 1
      ensures forall level: nat :: level <= depth ==> empty[level] == Node(map[], level, 0)
    {
      empty := [ZERO];
      var level := 1;
      while level <= depth
        invariant 1 <= level <= depth + 1 && |empty| == level
        invariant forall l: nat :: l < level ==> empty[l] == Node(map[], l, 0)
      {
        var prev := empty[|empty| - 1];
        EmptyNodesAgree(level - 1, 0, 1);
        empty := empty + [MerkleHash(prev, prev)];
        level := level + 1;
      }
    }

    constructor (depth: nat)
      ensures Valid() && State() == EmptyStore(depth) && allRoots == [State().Root()]
    {
      var empty := EmptyLevels(depth);
      this.depth := depth;
      nodes, commitments, leafCount, leaves := map[], map[], 0, map[];
      ciphertexts, txLog, nullifiers := [], map[], {};
      emptyNodes, anchorHistory, allRoots := empty, [empty[depth]], [empty[depth]];
      new;
      forall l: nat, i: nat | l <= depth ensures GetNode(l, i) == Node(map[], l, i) {
        EmptyNodesAgree(l, i, 0);
      }
    }

    /**
     Insert a commitment: write the leaf, recompute its path only, then record the new root.
     The result is the abstract insertion, so the one-path update refines recomputing the tree.
     */
    method InsertInternal(commitment: Fr, txSig: TxSig) returns (leafIndex: nat, newRoot: Fr)
      requires Valid()
      modifies this
      ensures Valid()
      ensures State() == Inserted(old(State()), commitment, txSig)
      ensures leafIndex == old(leafCount) && newRoot == State().Root() && allRoots == old(allRoots) + [newRoot]
    {
      leafIndex := leafCount;
      UpdatePath(leafIndex, commitment);
      newRoot := GetNode(depth, 0);
      Record(leafIndex, commitment, txSig, newRoot);
      InsertedWellFormed(old(State()), commitment, txSig);
      NewestPush(old(allRoots), newRoot);
    }

    /** Index the commitment, log it under its transaction and push the root (oldest root out first). */
    method Record(leafIndex: nat, commitment: Fr, txSig: TxSig, newRoot: Fr)
      requires leafIndex == leafCount && newRoot == Node(leaves[leafIndex := commitment], depth, 0)
      modifies `commitments, `txLog, `leafCount, `anchorHistory, `leaves, `allRoots
      ensures State() == Inserted(old(State()), commitment, txSig) && allRoots == old(allRoots) + [newRoot]
    {
      commitments := commitments[commitment := leafIndex];
      txLog := txLog[txSig := (if txSig in txLog then txLog[txSig] else []) + [commitment]];
      leafCount := leafCount + 1;
      if |anchorHistory| >= ANCHOR_HISTORY_SIZE {
        anchorHistory := anchorHistory[1..];
      }
      anchorHistory := anchorHistory + [newRoot];
      leaves, allRoots := leaves[leafIndex := commitment], allRoots + [newRoot];
    }

    /** Write one leaf and rehash its ancestors bottom up, leaving every other node alone. */
    method UpdatePath(leafIndex: nat, commitment: Fr)
      requires Refines(leaves, 0, depth + 1)
      modifies `nodes
      ensures Refines(leaves[leafIndex := commitment], 0, depth + 1)
    {
      ghost var grown := leaves[leafIndex := commitment];
      nodes := nodes[(0, leafIndex) := commitment];
      forall l: nat, i: nat | l < 1 ensures GetNode(l, i) == Node(grown, l, i) {
        assert Node(leaves, 0, i) == Leaf(leaves, i) && Node(grown, 0, i) == Leaf(grown, i);
        assert old(GetNode(0, i)) == Node(leaves, 0, i);
      }
      forall l: nat, i: nat | 1 <= l <= depth ensures GetNode(l, i) == Node(leaves, l, i) {
        assert old(GetNode(l, i)) == Node(leaves, l, i);
      }
      var idx := leafIndex;
      var level := 0;
      while level < depth
        invariant 0 <= level <= depth && idx == Ancestor(leafIndex, level)
        invariant Refines(grown, 0, level + 1) && Refines(leaves, level + 1, depth + 1)
      {
        var parentIdx := idx / 2;
        var left := GetNode(level, 2 * parentIdx);
        var right := GetNode(level, 2 * parentIdx + 1);
        assert MerkleHash(left, right) == Node(grown, level + 1, parentIdx);
        WriteNode(level + 1, parentIdx, MerkleHash(left, right), leafIndex, commitment);
        idx := parentIdx;
        level := level + 1;
      }
    }

    /** One level of the path update: everything else on that level was right already. */
    method WriteNode(level: nat, index: nat, value: Fr, ghost leafIndex: nat, ghost commitment: Fr)
      requires 0 < level <= depth && index == Ancestor(leafIndex, level)
      requires Refines(leaves[leafIndex := commitment], 0, level) && Refines(leaves, level, depth + 1)
      requires value == Node(leaves[leafIndex := commitment], level, index)
      modifies `nodes
      ensures nodes == old(nodes)[(level, index) := value]
      ensures Refines(leaves[leafIndex := commitment], 0, level + 1) && Refines(leaves, level + 1, depth + 1)
    {
      ghost var grown := leaves[leafIndex := commitment];
      ghost var before := nodes;
      nodes := nodes[(level, index) := value];
      forall l: nat, i: nat | l <= level ensures GetNode(l, i) == Node(grown, l, i) {
        if l == level && i != index {
          WriteTouchesOnlyPath(leaves, leafIndex, commitment, l, i);
        }
      }
    }

    method InsertOutput(commitment: Fr, txSig: TxSig, ciphertext: Option<OutputCiphertextData>) returns (leafIndex: nat)
      requires Valid()
      modifies this
      ensures Valid()
      ensures State() == OutputInserted(old(State()), commitment, txSig, ciphertext)
      ensures leafIndex == old(leafCount) && allRoots == old(allRoots) + [State().Root()]
    {
      var newRoot;
      leafIndex, newRoot := InsertInternal(commitment, txSig);
      if ciphertext.Some? {
        var d := ciphertext.value;
        ciphertexts := ciphertexts
          + [OutputCiphertext(commitment, d.ciphertext, d.ephemeralKey, txSig, Some(d.ctHash))];
      }
    }

    method CurrentRoot() returns (root: Fr)
      requires Valid()
      ensures root == Node(leaves, depth, 0)
    {
      root := GetNode(depth, 0);
    }

    /** Reconnect to a longer chain: later inserts start at the chain's count, leaving a gap. */
    method SyncLeafCount(onChainLeafCount: nat)
      requires Valid()
      modifies this
      ensures Valid()
      ensures var count := if onChainLeafCount > old(leafCount) then onChainLeafCount else old(leafCount);
              State() == old(State()).(leafCount := count)
      ensures allRoots == old(allRoots)
    {
      if onChainLeafCount > leafCount {
        leafCount := onChainLeafCount;
      }
    }

    /** Accepted exactly when the anchor is one of the sixteen newest of all roots ever recorded. */
    method IsValidAnchor(anchor: Fr) returns (valid: bool)
      requires Valid()
      ensures valid <==>
        exists k :: 0 <= k < |allRoots| && |allRoots| <= k + ANCHOR_HISTORY_SIZE && allRoots[k] == anchor
    {
      valid := anchor in anchorHistory;
      NewestMembers(allRoots, anchor);
    }

    /** Spend markers: the second insertion of a nullifier is refused. */
    method InsertNullifier(nullifier: Fr) returns (ok: bool)
      requires Valid()
      modifies this
      ensures Valid()
      ensures ok == (nullifier !in old(nullifiers))
      ensures State() == old(State()).(nullifiers := old(nullifiers) + {nullifier}) && allRoots == old(allRoots)
    {
      ok := nullifier !in nullifiers;
      if ok {
        nullifiers := nullifiers + {nullifier};
      } else {
        assert nullifiers == nullifiers + {nullifier};
      }
    }

    method GetMerklePath(leafIndex: nat) returns (siblings: seq<Fr>, pathIndices: seq<bool>)
      requires Valid()
      ensures siblings == PathSiblings(leaves, leafIndex, depth)
      ensures pathIndices == PathBits(leafIndex, depth)
    {
      siblings, pathIndices := [], [];
      var idx := leafIndex;
      var level := 0;
      while level < depth
        invariant 0 <= level <= depth && idx == Ancestor(leafIndex, level)
        invariant |siblings| == level && IsPathOf(leaves, leafIndex, siblings, pathIndices)
      {
        var isRight := idx % 2 == 1;
        var siblingIdx := if isRight then idx - 1 else idx + 1;
        ghost var s, b := siblings, pathIndices;
        pathIndices := pathIndices + [isRight];
        siblings := siblings + [GetNode(level, siblingIdx)];
        PathExtends(leaves, leafIndex, s, b, siblings, pathIndices);
        idx := idx / 2;
        level := level + 1;
      }
      PathUnique(leaves, leafIndex, siblings, pathIndices);
    }

    /**
     Witness for an indexed commitment (its latest leaf when it was inserted more than once).
     Within capacity the witness is accepted against the current root.
     */
    method GetWitness(commitment: Fr) returns (r: Result<MembershipWitness, StoreError>)
      requires Valid()
      ensures commitment !in commitments ==> r == Err(NotFound)
      ensures commitment in commitments ==> r == Ok(WitnessOf(leaves, commitments[commitment], depth))
      ensures commitment in commitments && commitments[commitment] < Pow2(depth) ==>
        Accepted(r.value, commitment) && r.value.root == State().Root() && |r.value.siblings| == depth
    {
      if commitment !in commitments {
        return Err(NotFound);
      }
      var leafIndex := commitments[commitment];
      var siblings, pathIndices := GetMerklePath(leafIndex);
      var root := GetNode(depth, 0);
      WitnessAcceptedWithinCapacity(leaves, leafIndex, depth);
      r := Ok(MerklePath(siblings, pathIndices, root));
    }
  }
}
