/** How long an anchor is accepted: the chain's root history over whole runs (client/src/mock.rs). */
module Anchors {
  import opened Field
  import opened Store
  import opened Proofs
  import opened Ledger
  import opened Safety

  /** Every root the tree has had, one entry for each change. */
  function RootChanges(depth: nat, maxAnchors: nat, ops: seq<Op>): (roots: seq<Fr>)
    ensures roots != [] && roots[|roots| - 1] == Run(depth, maxAnchors, ops).ledger.store.Root()
  {
    var root := Run(depth, maxAnchors, ops).ledger.store.Root();
    if ops == [] then [root]
    else
      var before := RootChanges(depth, maxAnchors, ops[..|ops| - 1]);
      if root == before[|before| - 1] then before else before + [root]
  }

  /** What the history keeps: the newest entries up to the cap, and never none. */
  ghost predicate KeepsNewest(anchors: seq<Fr>, roots: seq<Fr>, cap: nat) {
    && anchors != [] && |anchors| <= |roots| && roots[|roots| - |anchors|..] == anchors
    && |anchors| == if |roots| <= cap then |roots| else if cap == 0 then 1 else cap
  }

  /** An accepted deposit or transfer refreshes the history; nothing else touches tree or history. */
  lemma {:induction false} StepAnchors(s: LedgerState, op: Op)
    requires s.anchors != [] && s.anchors[|s.anchors| - 1] == s.store.Root()
    ensures var t := Exec(s, op).0;
      && t.maxAnchors == s.maxAnchors
      && (t.store.Root() == s.store.Root() ==> t.anchors == s.anchors)
      && (t.store.Root() != s.store.Root() ==>
            t.anchors == if |s.anchors| + 1 > s.maxAnchors then s.anchors[1..] + [t.store.Root()]
                         else s.anchors + [t.store.Root()])
  {
    hide Verifies, InsertOutputs, InsertNullifiers;
    if op.TransferOp? {
      InsertNullifiersEffect(s, WalkedNullifiers(op.transfer));
    }
  }

  lemma {:induction false} KeepsNewestStep(anchors: seq<Fr>, roots: seq<Fr>, cap: nat, root: Fr)
    requires KeepsNewest(anchors, roots, cap)
    ensures KeepsNewest(if |anchors| + 1 > cap then anchors[1..] + [root] else anchors + [root], roots + [root], cap)
    ensures anchors != [] && roots != [] && anchors[|anchors| - 1] == roots[|roots| - 1]
  {
    var n := |roots| - |anchors|;
    assert roots == roots[..n] + anchors;
    if |anchors| + 1 > cap {
      assert (roots + [root])[n + 1..] == anchors[1..] + [root];
    } else {
      assert (roots + [root])[n..] == anchors + [root];
    }
  }

  lemma {:induction false} KeepsFirst(root: Fr, cap: nat)
    ensures KeepsNewest([root], [root], cap)
  {
  }

  lemma {:induction false} HistoryKeepsNewest(depth: nat, maxAnchors: nat, ops: seq<Op>)
    ensures var s := Run(depth, maxAnchors, ops).ledger;
            s.maxAnchors == maxAnchors && KeepsNewest(s.anchors, RootChanges(depth, maxAnchors, ops), maxAnchors)
  {
    hide Exec, Step, KeepsNewest;
    if ops == [] {
      KeepsFirst(EmptyStore(depth).Root(), maxAnchors);
    } else {
      var k := |ops| - 1;
      var w := Run(depth, maxAnchors, ops[..k]);
      var roots := RootChanges(depth, maxAnchors, ops[..k]);
      HistoryKeepsNewest(depth, maxAnchors, ops[..k]);
      KeepsNewestStep(w.ledger.anchors, roots, maxAnchors, Exec(w.ledger, ops[k]).0.store.Root());
      StepAnchors(w.ledger, ops[k]);
      StepLedger(w, ops[k]);
    }
  }

  /**
   On every run an anchor is accepted exactly when it is the current root or among the newest
   `maxAnchors` roots the tree has had.
   */
  lemma {:induction false} ValidAnchorIff(depth: nat, maxAnchors: nat, ops: seq<Op>, anchor: Fr)
    ensures var s, roots := Run(depth, maxAnchors, ops).ledger, RootChanges(depth, maxAnchors, ops);
            ValidAnchor(s, anchor) <==>
            anchor == s.store.Root() || exists k :: 0 <= k < |roots| && |roots| <= k + maxAnchors && roots[k] == anchor
  {
    hide Run, RootChanges;
    HistoryKeepsNewest(depth, maxAnchors, ops);
    var s, roots := Run(depth, maxAnchors, ops).ledger, RootChanges(depth, maxAnchors, ops);
    var first := |roots| - |s.anchors|;
    assert forall i :: 0 <= i < |s.anchors| ==> s.anchors[i] == roots[first + i];
    if k :| 0 <= k < |roots| && |roots| <= k + maxAnchors && roots[k] == anchor {
      assert s.anchors[k - first] == anchor;
    }
  }

  lemma {:induction false} ChangesOnlyGrow(depth: nat, maxAnchors: nat, ops: seq<Op>, more: seq<Op>)
    ensures RootChanges(depth, maxAnchors, ops) <= RootChanges(depth, maxAnchors, ops + more)
    decreases |more|
  {
    hide Run;
    if more == [] {
      assert ops + more == ops;
    } else {
      var k := |more| - 1;
      ChangesOnlyGrow(depth, maxAnchors, ops, more[..k]);
      assert (ops + more)[..|ops + more| - 1] == ops + more[..k];
    }
  }

  /**
   A root that is current now is accepted through the next `maxAnchors - 1` root changes. After more
   changes it is refused, unless the tree has had it again since.
   */
  lemma {:induction false} AnchorLifetime(depth: nat, maxAnchors: nat, ops: seq<Op>, more: seq<Op>)
    ensures var anchor, later := Run(depth, maxAnchors, ops).ledger.store.Root(),
            Run(depth, maxAnchors, ops + more).ledger;
            var before, after := RootChanges(depth, maxAnchors, ops), RootChanges(depth, maxAnchors, ops + more);
      && before <= after
      && (|after| - |before| < maxAnchors ==> ValidAnchor(later, anchor))
      && (|after| - |before| >= maxAnchors && |after| > |before| && anchor !in after[|before|..] ==>
            !ValidAnchor(later, anchor))
  {
    hide Run, RootChanges;
    var anchor := Run(depth, maxAnchors, ops).ledger.store.Root();
    var before, after := RootChanges(depth, maxAnchors, ops), RootChanges(depth, maxAnchors, ops + more);
    ChangesOnlyGrow(depth, maxAnchors, ops, more);
    ValidAnchorIff(depth, maxAnchors, ops + more, anchor);
    assert before[|before| - 1] == anchor by { ChangesEndNow(depth, maxAnchors, ops); }
    assert after[|before| - 1] == anchor;
    ChangesEndNow(depth, maxAnchors, ops + more);
    assert forall k :: |before| <= k < |after| ==> after[k] == after[|before|..][k - |before|];
  }

  lemma {:induction false} ChangesEndNow(depth: nat, maxAnchors: nat, ops: seq<Op>)
    ensures var roots := RootChanges(depth, maxAnchors, ops);
            roots != [] && roots[|roots| - 1] == Run(depth, maxAnchors, ops).ledger.store.Root()
  {
  }
}
