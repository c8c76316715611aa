/** Paged scanning of output ciphertexts (client/src/traits.rs, client/src/mock.rs). */
module Paging {
  import opened Words
  import opened Field
  import opened MerkleTree
  import opened Traits
  import opened Proofs
  import opened Ledger

  /** Position of the first output of a transaction, or the length when there is none. */
  function FirstIndex(outputs: seq<OutputCiphertext>, tx: TxSig): (i: nat)
    ensures i <= |outputs|
    ensures i < |outputs| ==> outputs[i].txSig == tx
    ensures forall k :: 0 <= k < i ==> outputs[k].txSig != tx
  {
    if outputs == [] then 0
    else if outputs[0].txSig == tx then 0
    else
      var rest := FirstIndex(outputs[1..], tx);
      assert forall k :: 0 < k < 1 + rest ==> outputs[k] == outputs[1..][k - 1];
      1 + rest
  }

  /** Where a scan starts: after the FIRST output of the cursor, at the end for an unknown cursor. */
  function Start(outputs: seq<OutputCiphertext>, since: Option<TxSig>): (s: nat)
    ensures s <= |outputs|
  {
    match since
    case None => 0
    case Some(tx) =>
      var i := FirstIndex(outputs, tx);
      if i < |outputs| then i + 1 else |outputs|
  }

  method ScanOutputsSince(outputs: seq<OutputCiphertext>, since: Option<TxSig>) returns (r: seq<OutputCiphertext>)
    ensures r == outputs[Start(outputs, since)..]
  {
    if since.None? {
      return outputs;
    }
    var found := false;
    r := [];
    ghost var start := Start(outputs, since);
    var i := 0;
    while i < |outputs|
      invariant 0 <= i <= |outputs|
      invariant !found ==> r == [] && i <= FirstIndex(outputs, since.value)
      invariant found ==> start <= i && r == outputs[start..i]
    {
      if found {
        assert outputs[start..i] + [outputs[i]] == outputs[start..i + 1];
        r := r + [outputs[i]];
      } else if outputs[i].txSig == since.value {
        found := true;
      }
      i := i + 1;
    }
  }

  datatype ScanResult = ScanResult(outputs: seq<OutputCiphertext>, lastTxSig: Option<TxSig>, hasMore: bool)

  function Page(outputs: seq<OutputCiphertext>, since: Option<TxSig>, limit: Option<nat>): ScanResult {
    var rest := outputs[Start(outputs, since)..];
    var cut := limit.Some? && |rest| > limit.value;
    var page := if cut then rest[..limit.value] else rest;
    ScanResult(page, if page == [] then None else Some(page[|page| - 1].txSig), cut)
  }

  method ScanOutputsPaginated(outputs: seq<OutputCiphertext>, since: Option<TxSig>,
          limit: Option<nat>) returns (r: ScanResult)
    ensures r == Page(outputs, since, limit)
  {
    var page := ScanOutputsSince(outputs, since);
    var hasMore := false;
    if limit.Some? && |page| > limit.value {
      page, hasMore := page[..limit.value], true;
    }
    var last := if |page| == 0 then None else Some(page[|page| - 1].txSig);
    r := ScanResult(page, last, hasMore);
  }

  /** Outputs of one transaction lie within m consecutive positions. */
  predicate Spans(outputs: seq<OutputCiphertext>, m: nat) {
    forall i, j :: 0 <= i < j < |outputs| && outputs[i].txSig == outputs[j].txSig ==> j - i < m
  }

  /** Outputs of one transaction stand next to each other. */
  predicate Contiguous(outputs: seq<OutputCiphertext>) {
    forall i, k, j :: 0 <= i < k < j < |outputs| && outputs[i].txSig == outputs[j].txSig ==>
        outputs[k].txSig == outputs[i].txSig
  }

  /** Before the last output, a page reaches from any output past its whole transaction. */
  predicate Scannable(outputs: seq<OutputCiphertext>, limit: nat) {
    forall i, j :: 0 <= i < j < |outputs| - 1 && outputs[i].txSig == outputs[j].txSig ==> j - i < limit
  }

  /** Without a limit everything behind the cursor comes at once, and nothing more is announced. */
  lemma {:induction false} UnlimitedPage(outputs: seq<OutputCiphertext>, since: Option<TxSig>)
    ensures var page := Page(outputs, since, None);
      && outputs[..Start(outputs, since)] + page.outputs == outputs && !page.hasMore
      && page.lastTxSig == if page.outputs == [] then None else Some(outputs[|outputs| - 1].txSig)
  {
    hide FirstIndex;
  }

  /** The cursor is the place behind the FIRST output of its transaction, or the end when there is none. */
  lemma {:induction false} StartIff(outputs: seq<OutputCiphertext>, tx: TxSig, n: nat)
    ensures Start(outputs, None) == 0
    ensures Start(outputs, Some(tx)) == n <==>
      || (0 < n <= |outputs| && outputs[n - 1].txSig == tx && forall i :: 0 <= i < n - 1 ==> outputs[i].txSig != tx)
      || (n == |outputs| && forall i :: 0 <= i < |outputs| ==> outputs[i].txSig != tx)
  {
  }

  /** The cursor of a full page always moves the start forward. */
  lemma {:induction false} CursorAdvances(outputs: seq<OutputCiphertext>, since: Option<TxSig>, limit: nat)
    requires Scannable(outputs, limit) && limit > 0
    requires Page(outputs, since, Some(limit)).hasMore
    ensures var s, p := Start(outputs, since), Page(outputs, since, Some(limit));
            s < Start(outputs, p.lastTxSig) <= s + limit <= |outputs|
  {
    var s, p := Start(outputs, since), Page(outputs, since, Some(limit));
    var e := s + limit - 1;
    assert p.outputs[limit - 1] == outputs[e];
    var f := FirstIndex(outputs, outputs[e].txSig);
    assert f <= e;
    assert f == e || e - f < limit;
  }

  lemma {:induction false} PageIsSlice(outputs: seq<OutputCiphertext>, since: Option<TxSig>, limit: nat)
    ensures var s, page := Start(outputs, since), Page(outputs, since, Some(limit));
      && s + |page.outputs| <= |outputs|
      && (page.hasMore <==> s + |page.outputs| < |outputs|)
      && (page.hasMore ==> |page.outputs| == limit)
      && page.outputs == outputs[s..s + |page.outputs|]
      && (forall o :: o in page.outputs ==> o in outputs)
  {
    hide Start;
    var s, page := Start(outputs, since), Page(outputs, since, Some(limit));
    assert page.outputs == outputs[s..s + |page.outputs|];
  }

  /**
   Repeating the paged scan from the returned cursor terminates and delivers every output, each at
   least as often as it occurs, and nothing else.
   */
  method ScanAllPages(outputs: seq<OutputCiphertext>, limit: nat) returns (collected: seq<OutputCiphertext>)
    requires Scannable(outputs, limit) && limit > 0
    ensures multiset(outputs) <= multiset(collected)
    ensures forall o :: o in collected ==> o in outputs
  {
    assert Progress(outputs, None, 0, []);
    hide Page, Start, Scannable, Progress, Delivered;
    collected := [];
    var cursor := None;
    var hasMore := true;
    ghost var covered: nat := 0;
    while hasMore
      invariant hasMore ==> Progress(outputs, cursor, covered, collected)
      invariant !hasMore ==> Delivered(outputs, |outputs|, collected)
      decreases hasMore, Remaining(outputs, cursor)
    {
      PageStep(outputs, limit, cursor, covered, collected);
      var page := ScanOutputsPaginated(outputs, cursor, Some(limit));
      covered := Reached(outputs, cursor, page, covered);
      collected := collected + page.outputs;
      cursor, hasMore := page.lastTxSig, page.hasMore;
    }
    AllDelivered(outputs, collected);
  }

  ghost function Remaining(outputs: seq<OutputCiphertext>, cursor: Option<TxSig>): nat {
    |outputs| - Start(outputs, cursor)
  }

  ghost function Reached(outputs: seq<OutputCiphertext>, cursor: Option<TxSig>, page: ScanResult, covered: nat): nat {
    var end := Start(outputs, cursor) + |page.outputs|;
    if covered < end then end else covered
  }

  /** The next page starts within what is covered, so no output is skipped. */
  ghost predicate Progress(outputs: seq<OutputCiphertext>, cursor: Option<TxSig>, covered: nat,
                           collected: seq<OutputCiphertext>) {
    Start(outputs, cursor) <= covered && Delivered(outputs, covered, collected)
  }

  lemma {:induction false} PageStep(outputs: seq<OutputCiphertext>, limit: nat, cursor: Option<TxSig>, covered: nat,
          collected: seq<OutputCiphertext>)
    requires Scannable(outputs, limit) && limit > 0 && Progress(outputs, cursor, covered, collected)
    ensures var page := Page(outputs, cursor, Some(limit));
            var after := collected + page.outputs;
      && (page.hasMore ==>
            && Progress(outputs, page.lastTxSig, Reached(outputs, cursor, page, covered), after)
            && Remaining(outputs, page.lastTxSig) < Remaining(outputs, cursor))
      && (!page.hasMore ==> Delivered(outputs, |outputs|, after))
  {
    hide Page, Start, Scannable, Delivered;
    var s, page := Start(outputs, cursor), Page(outputs, cursor, Some(limit));
    PageIsSlice(outputs, cursor, limit);
    DeliverPage(outputs, s, covered, s + |page.outputs|, collected);
    if page.hasMore {
      CursorAdvances(outputs, cursor, limit);
    }
  }

  /** The first `covered` outputs are in, as often as they occur, and nothing foreign. */
  ghost predicate Delivered<T>(xs: seq<T>, covered: nat, collected: seq<T>) {
    && covered <= |xs|
    && multiset(xs[..covered]) <= multiset(collected)
    && (forall x :: x in collected ==> x in xs)
  }

  lemma {:induction false} DeliverPage<T>(xs: seq<T>, s: nat, covered: nat, end: nat, collected: seq<T>)
    requires Delivered(xs, covered, collected) && s <= covered && s <= end <= |xs|
    ensures Delivered(xs, if covered < end then end else covered, collected + xs[s..end])
  {
    if covered < end {
      PageExtends(xs, s, covered, end);
    }
  }

  lemma {:induction false} AllDelivered<T>(xs: seq<T>, collected: seq<T>)
    requires Delivered(xs, |xs|, collected)
    ensures multiset(xs) <= multiset(collected)
    ensures forall x :: x in collected ==> x in xs
  {
    assert xs[..|xs|] == xs;
  }

  lemma {:induction false} PageExtends<T>(xs: seq<T>, s: nat, covered: nat, end: nat)
    requires s <= covered <= end <= |xs|
    ensures multiset(xs[..end]) <= multiset(xs[..covered]) + multiset(xs[s..end])
  {
    assert xs[..end] == xs[..covered] + xs[covered..end];
    assert xs[s..end] == xs[s..covered] + xs[covered..end];
  }

  // ---------------------------------------------------------------------------
  // When the scan does not end
  // ---------------------------------------------------------------------------

  /** The page after n further requests, each from the cursor of the one before. */
  function PageAfter(outputs: seq<OutputCiphertext>, limit: nat, since: Option<TxSig>, n: nat): ScanResult
    decreases n
  {
    var page := Page(outputs, since, Some(limit));
    if n == 0 then page else PageAfter(outputs, limit, page.lastTxSig, n - 1)
  }

  /** A full page from the cursor of a transaction comes back with that cursor exactly in this case. */
  lemma {:induction false} CursorRepeatsIff(outputs: seq<OutputCiphertext>, tx: TxSig, limit: nat)
    requires FirstIndex(outputs, tx) < |outputs|
    ensures var f, page := FirstIndex(outputs, tx), Page(outputs, Some(tx), Some(limit));
      (page.hasMore && page.lastTxSig == Some(tx)) <==>
      (limit > 0 && f + limit + 1 < |outputs| && outputs[f + limit].txSig == tx)
  {
    hide FirstIndex;
    var f, page := FirstIndex(outputs, tx), Page(outputs, Some(tx), Some(limit));
    if page.hasMore && limit > 0 {
      assert page.outputs[limit - 1] == outputs[f + limit];
    }
  }

  lemma {:induction false} RepeatsForEver(outputs: seq<OutputCiphertext>, limit: nat, since: Option<TxSig>, n: nat)
    requires Page(outputs, since, Some(limit)).lastTxSig == since
    ensures PageAfter(outputs, limit, since, n) == Page(outputs, since, Some(limit))
    decreases n
  {
    if n > 0 {
      RepeatsForEver(outputs, limit, since, n - 1);
    }
  }

  /**
   A page too small for the first transaction of a log with more behind it: from the second
   request on the scan returns one and the same page for ever, and never reaches the end.
   */
  lemma {:induction false} SmallPagesGetStuck(outputs: seq<OutputCiphertext>, limit: nat, m: nat, n: nat)
    requires 0 < limit < m < |outputs| && n > 0
    requires forall i :: 0 <= i < m ==> outputs[i].txSig == outputs[0].txSig
    ensures var page := PageAfter(outputs, limit, None, n);
      page == ScanResult(outputs[1..1 + limit], Some(outputs[0].txSig), true)
  {
    hide FirstIndex;
    var tx := outputs[0].txSig;
    var first, second := Page(outputs, None, Some(limit)), Page(outputs, Some(tx), Some(limit));
    assert outputs[0..] == outputs && first.outputs[limit - 1] == outputs[limit - 1];
    assert first.lastTxSig == Some(tx) && FirstIndex(outputs, tx) == 0;
    CursorRepeatsIff(outputs, tx, limit);
    assert second.outputs == outputs[1..1 + limit];
    RepeatsForEver(outputs, limit, Some(tx), n - 1);
  }

  /** With room for nothing the scan stands still from the start. */
  lemma {:induction false} EmptyPagesGetStuck(outputs: seq<OutputCiphertext>, n: nat)
    requires outputs != []
    ensures PageAfter(outputs, 0, None, n) == ScanResult([], None, true)
  {
    RepeatsForEver(outputs, 0, None, n);
  }

  lemma {:induction false} ScannableCompletes(outputs: seq<OutputCiphertext>, limit: nat,
          since: Option<TxSig>) returns (n: nat)
    requires Scannable(outputs, limit) && limit > 0
    ensures !PageAfter(outputs, limit, since, n).hasMore
    decreases |outputs| - Start(outputs, since)
  {
    hide Page, Start, Scannable;
    var page := Page(outputs, since, Some(limit));
    if page.hasMore {
      CursorAdvances(outputs, since, limit);
      n := ScannableCompletes(outputs, limit, page.lastTxSig);
      n := n + 1;
    } else {
      n := 0;
    }
  }

  /** Where a full page with more behind it leaves the cursor. */
  lemma {:induction false} PageCursor(outputs: seq<OutputCiphertext>, since: Option<TxSig>, limit: nat)
    requires limit > 0 && Start(outputs, since) + limit < |outputs|
    ensures var page := Page(outputs, since, Some(limit));
            page.hasMore && page.lastTxSig == Some(outputs[Start(outputs, since) + limit - 1].txSig)
  {
    hide FirstIndex;
    var page := Page(outputs, since, Some(limit));
    assert page.outputs[limit - 1] == outputs[Start(outputs, since) + limit - 1];
  }

  /** A transaction that a page cannot cross is never crossed. */
  lemma {:induction false} NeverCrossed(outputs: seq<OutputCiphertext>, limit: nat, f: nat, since: Option<TxSig>,
          n: nat)
    requires Contiguous(outputs) && limit > 0
    requires f + limit + 1 < |outputs| && outputs[f].txSig == outputs[f + limit].txSig
    requires Start(outputs, since) <= f + 1
    ensures PageAfter(outputs, limit, since, n).hasMore
    decreases n
  {
    hide FirstIndex, Contiguous, Page;
    var s, page := Start(outputs, since), Page(outputs, since, Some(limit));
    PageCursor(outputs, since, limit);
    if n > 0 {
      var e := s + limit - 1;
      StartsEarly(outputs, limit, f, e);
      NeverCrossed(outputs, limit, f, page.lastTxSig, n - 1);
    }
  }

  /** Up to the end of a transaction seen at f, no output's transaction starts after f. */
  lemma {:induction false} StartsEarly(outputs: seq<OutputCiphertext>, limit: nat, f: nat, e: nat)
    requires Contiguous(outputs) && e <= f + limit < |outputs| && outputs[f].txSig == outputs[f + limit].txSig
    ensures FirstIndex(outputs, outputs[e].txSig) <= f
  {
    hide FirstIndex;
    if f < e < f + limit {
      assert outputs[e].txSig == outputs[f].txSig;
    }
  }

  /** On a contiguous log the repeated scan comes to an end exactly when the log is scannable. */
  lemma {:induction false} ScanCompletesIff(outputs: seq<OutputCiphertext>, limit: nat)
    requires Contiguous(outputs) && limit > 0
    ensures (exists n: nat :: !PageAfter(outputs, limit, None, n).hasMore) <==> Scannable(outputs, limit)
  {
    hide PageAfter;
    if Scannable(outputs, limit) {
      var n := ScannableCompletes(outputs, limit, None);
    } else {
      var i, j :| 0 <= i < j < |outputs| - 1 && outputs[i].txSig == outputs[j].txSig && j - i >= limit;
      var f := j - limit;
      assert outputs[f].txSig == outputs[j].txSig;
      forall n: nat ensures PageAfter(outputs, limit, None, n).hasMore {
        NeverCrossed(outputs, limit, f, None, n);
      }
    }
  }

  // ---------------------------------------------------------------------------
  // Reachable ledgers
  // ---------------------------------------------------------------------------

  /** Outputs carry the signatures of past transactions in order, at most three in a row each. */
  ghost predicate Orderly(s: LedgerState) {
    var outputs := s.store.ciphertexts;
    && Spans(outputs, MAX_OUTPUTS)
    && (forall i :: 0 <= i < |outputs| ==> outputs[i].txSig.MockTx? && outputs[i].txSig.counter <= s.txCounter)
    && (forall i, j :: 0 <= i < j < |outputs| ==> outputs[i].txSig.counter <= outputs[j].txSig.counter)
  }

  lemma {:induction false} AppendedOrderly(s: LedgerState, t: LedgerState, tx: TxSig)
    requires Orderly(s) && s.txCounter < t.txCounter && tx == MockTx(t.txCounter)
    requires Appended(s.store.ciphertexts, t.store.ciphertexts, tx, MAX_OUTPUTS)
    ensures Orderly(t)
  {
    var before, after := s.store.ciphertexts, t.store.ciphertexts;
    assert forall i :: 0 <= i < |before| ==> after[i] == before[i];
  }

  lemma {:induction false} NullifiersOnlyCount(s: LedgerState, nfs: seq<Fr>)
    ensures var t := InsertNullifiers(s, nfs).0; t.store == s.store && t.txCounter >= s.txCounter
    decreases |nfs|
  {
    if nfs != [] {
      NullifiersOnlyCount(s, nfs[1..]);
      NullifiersOnlyCount(NextTx(s).(nullifiers := s.nullifiers + {nfs[0]}), nfs[1..]);
    }
  }

  lemma {:induction false} ExecIsOrderly(s: LedgerState, op: Op)
    requires Orderly(s)
    ensures Orderly(Exec(s, op).0)
  {
    hide Verifies, ValidAnchor, ShieldPublicOf, TransferPublicOf, UnshieldPublicOf, Spans, Node, AttachedCiphertext;
    var t := Exec(s, op).0;
    match op {
      case ShieldOp(req) =>
        if t.store != s.store {
          AppendedOrderly(s, t, MockTx(t.txCounter));
        }
      case TransferOp(req) =>
        NullifiersOnlyCount(s, WalkedNullifiers(req));
        if t.store != s.store {
          InsertOutputsAppend(s.store, req.outputs, MockTx(t.txCounter));
          AppendedOrderly(s, t, MockTx(t.txCounter));
        }
      case UnshieldOp(req) =>
    }
  }

  lemma {:induction false} RunIsOrderly(depth: nat, maxAnchors: nat, ops: seq<Op>)
    ensures Orderly(Run(depth, maxAnchors, ops).ledger)
  {
    hide Exec;
    if ops != [] {
      var k := |ops| - 1;
      RunIsOrderly(depth, maxAnchors, ops[..k]);
      ExecIsOrderly(Run(depth, maxAnchors, ops[..k]).ledger, ops[k]);
    }
  }

  /** On every run outputs of one transaction stand next to each other, at most three of them. */
  lemma {:induction false} ReachableLogsSpan(depth: nat, maxAnchors: nat, ops: seq<Op>)
    ensures var outputs := Run(depth, maxAnchors, ops).ledger.store.ciphertexts;
            Spans(outputs, MAX_OUTPUTS) && Contiguous(outputs)
  {
    hide Run;
    RunIsOrderly(depth, maxAnchors, ops);
  }

  /** So a page of three outputs is enough: `ScanAllPages` applies to every reachable log. */
  lemma {:induction false} ReachableLogsScannable(depth: nat, maxAnchors: nat, ops: seq<Op>, limit: nat)
    requires limit >= MAX_OUTPUTS
    ensures Scannable(Run(depth, maxAnchors, ops).ledger.store.ciphertexts, limit)
  {
    hide Run;
    ReachableLogsSpan(depth, maxAnchors, ops);
  }
}
