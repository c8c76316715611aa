/** A scan from the seed recovers the online wallet's unspent notes, hence its balances. */
module Agreement {
  import opened Words
  import opened Bytes
  import opened Field
  import opened MerkleTree
  import opened Traits
  import opened Store
  import opened Proofs
  import opened Value
  import opened Ledger
  import opened Safety
  import opened Wallet
  import opened Completeness
  import opened Recovery

  function UnspentEntries(notes: seq<OwnedNote>): seq<OwnedNote> {
    if notes == [] then []
    else
      var n := notes[|notes| - 1];
      UnspentEntries(notes[..|notes| - 1]) + (if n.spent then [] else [n])
  }

  lemma {:induction false} UnspentEntriesMembers(notes: seq<OwnedNote>)
    requires NoncesApart(notes)
    ensures forall n :: n in UnspentEntries(notes) <==> n in notes && !n.spent
    ensures NoDup(UnspentEntries(notes))
  {
    if notes != [] {
      var k := |notes| - 1;
      UnspentEntriesMembers(notes[..k]);
      assert notes == notes[..k] + [notes[k]];
      assert notes[k] !in notes[..k];
      if !notes[k].spent {
        NoDupAppend(UnspentEntries(notes[..k]), notes[k]);
      }
    }
  }

  ghost predicate StillUnspent(found: seq<(Note, TxSig)>, sk: Fr, nfs: set<Fr>, n: OwnedNote) {
    exists p :: p in found && n == NewOwned(p.0, p.1) && NullifierOf(p.0, sk) !in nfs
  }

  lemma {:induction false} StillUnspentAppend(before: seq<(Note, TxSig)>, last: (Note, TxSig), sk: Fr, nfs: set<Fr>,
          n: OwnedNote)
    ensures StillUnspent(before + [last], sk, nfs, n) <==>
      StillUnspent(before, sk, nfs, n) || (n == NewOwned(last.0, last.1) && NullifierOf(last.0, sk) !in nfs)
  {
    hide NullifierOf, NewOwned;
    var found := before + [last];
    if StillUnspent(found, sk, nfs, n) {
      var p :| p in found && n == NewOwned(p.0, p.1) && NullifierOf(p.0, sk) !in nfs;
      assert p in before || p == last;
    }
    if StillUnspent(before, sk, nfs, n) {
      var p :| p in before && n == NewOwned(p.0, p.1) && NullifierOf(p.0, sk) !in nfs;
      assert p in found;
    }
    assert last in found;
  }

  lemma {:induction false} UnspentAppend(before: seq<(Note, TxSig)>, last: (Note, TxSig), sk: Fr, nfs: set<Fr>)
    ensures Unspent(before + [last], sk, nfs)
         == Unspent(before, sk, nfs) + (if NullifierOf(last.0, sk) in nfs then [] else [NewOwned(last.0, last.1)])
  {
    hide NullifierOf, NewOwned;
    assert (before + [last])[..|before|] == before;
  }

  /** With distinct nonces the last output's entry is not among the earlier ones. */
  lemma {:induction false} LastEntryIsNew(before: seq<(Note, TxSig)>, last: (Note, TxSig), sk: Fr, nfs: set<Fr>)
    requires DistinctNonces(before + [last])
    ensures !StillUnspent(before, sk, nfs, NewOwned(last.0, last.1))
  {
    hide NullifierOf;
    var found := before + [last];
    forall p | p in before ensures p.0.nullifierNonce != last.0.nullifierNonce {
      var i :| 0 <= i < |before| && before[i] == p;
      assert found[i] == p && found[|before|] == last;
    }
  }

  lemma {:induction false} UnspentMembers(found: seq<(Note, TxSig)>, sk: Fr, nfs: set<Fr>)
    requires DistinctNonces(found)
    ensures forall n :: n in Unspent(found, sk, nfs) <==> StillUnspent(found, sk, nfs, n)
    ensures NoDup(Unspent(found, sk, nfs))
  {
    if found == [] {
    } else {
      hide NullifierOf, NewOwned, StillUnspent, Unspent;
      var k := |found| - 1;
      var before, last := found[..k], found[k];
      assert found == before + [last];
      UnspentMembers(before, sk, nfs);
      UnspentAppend(before, last, sk, nfs);
      LastEntryIsNew(before, last, sk, nfs);
      forall n ensures n in Unspent(found, sk, nfs) <==> StillUnspent(found, sk, nfs, n) {
        StillUnspentAppend(before, last, sk, nfs, n);
      }
      if NullifierOf(last.0, sk) !in nfs {
        NoDupAppend(Unspent(before, sk, nfs), NewOwned(last.0, last.1));
      }
    }
  }

  lemma {:induction false} NoDupMultiset<T>(xs: seq<T>, x: T)
    requires NoDup(xs)
    ensures multiset(xs)[x] == if x in xs then 1 else 0
  {
    if xs != [] {
      var k := |xs| - 1;
      NoDupMultiset(xs[..k], x);
      assert xs == xs[..k] + [xs[k]];
    }
  }

  lemma {:induction false} SameMembersSameMultiset<T>(xs: seq<T>, ys: seq<T>)
    requires NoDup(xs) && NoDup(ys)
    ensures (forall x :: x in xs ==> x in ys) ==> multiset(xs) <= multiset(ys)
    ensures (forall x :: x in xs <==> x in ys) ==> multiset(xs) == multiset(ys)
  {
    forall x: T ensures multiset(xs)[x] == (if x in xs then 1 else 0) && multiset(ys)[x] == (if x in ys then 1 else 0) {
      NoDupMultiset(xs, x);
      NoDupMultiset(ys, x);
    }
  }

  /** What a fresh client holds after scanning the chain. */
  function Recovered(e: Encryption, sk: Fr, s: LedgerState): seq<OwnedNote> {
    Unspent(FoundOn(e, sk, s), sk, s.nullifiers)
  }

  lemma {:induction false} InvGivesAgreement(e: Encryption, sk: Fr, d: Device)
    requires DeviceInv(e, sk, d) && DistinctNonces(FoundOn(e, sk, d.ledger))
    ensures multiset(UnspentEntries(d.notes)) <= multiset(Recovered(e, sk, d.ledger))
    ensures d.pending == {} ==> multiset(UnspentEntries(d.notes)) == multiset(Recovered(e, sk, d.ledger))
  {
    hide Found, NullifierOf;
    var found, nfs := FoundOn(e, sk, d.ledger), d.ledger.nullifiers;
    var online, recovered := UnspentEntries(d.notes), Unspent(found, sk, nfs);
    UnspentEntriesMembers(d.notes);
    UnspentMembers(found, sk, nfs);
    forall n | n in online ensures n in recovered {
      var k :| 0 <= k < |d.notes| && d.notes[k] == n;
      assert (n.note, n.txSig) in found;
    }
    if d.pending == {} {
      forall n | n in recovered ensures n in online {
        var p :| p in found && n == NewOwned(p.0, p.1) && NullifierOf(p.0, sk) !in nfs;
        assert HasNote(d.notes, p);
        var k :| 0 <= k < |d.notes| && d.notes[k].note == p.0 && d.notes[k].txSig == p.1;
        assert d.notes[k] == n;
      }
    }
    SameMembersSameMultiset(online, recovered);
  }

  /**
   Recovery agrees with the online wallet. For every history of one device among foreign
   operations, a fresh client that scans the chain holds at least the online wallet's unspent
   notes, and exactly those once every payment notice has been processed.
   */
  lemma {:induction false} RecoveryAgrees(e: Encryption, sk: Fr, depth: nat, maxAnchors: nat, actions: seq<Action>)
    requires Correct(e) && SingleDevice(e, sk, depth, maxAnchors, actions)
    requires DistinctNonces(FoundOn(e, sk, History(e, sk, depth, maxAnchors, actions).ledger))
    ensures var d := History(e, sk, depth, maxAnchors, actions);
      && multiset(UnspentEntries(d.notes)) <= multiset(Recovered(e, sk, d.ledger))
      && (d.pending == {} ==> multiset(UnspentEntries(d.notes)) == multiset(Recovered(e, sk, d.ledger)))
  {
    hide DeviceInv, History, Correct, SingleDevice, DistinctNonces;
    HistoryKeepsInv(e, sk, depth, maxAnchors, actions);
    InvGivesAgreement(e, sk, History(e, sk, depth, maxAnchors, actions));
  }

  // ---------------------------------------------------------------------------
  // Balances
  // ---------------------------------------------------------------------------

  function Counted(n: OwnedNote, asset: Fr): nat {
    if !n.spent && n.note.assetId == asset then n.note.amount else 0
  }

  lemma {:induction false} BalanceAppend(notes: seq<OwnedNote>, n: OwnedNote, asset: Fr)
    ensures Balance(notes + [n], asset) == Balance(notes, asset) + Counted(n, asset)
  {
    assert (notes + [n])[..|notes|] == notes;
  }

  lemma {:induction false} EntriesAppend(notes: seq<OwnedNote>, n: OwnedNote)
    ensures UnspentEntries(notes + [n]) == UnspentEntries(notes) + (if n.spent then [] else [n])
  {
    assert (notes + [n])[..|notes|] == notes;
  }

  lemma {:induction false} BalanceOfUnspent(notes: seq<OwnedNote>, asset: Fr)
    ensures Balance(UnspentEntries(notes), asset) == Balance(notes, asset)
  {
    if notes == [] {
    } else {
      hide Balance, UnspentEntries;
      var k := |notes| - 1;
      var front, last := notes[..k], notes[k];
      assert notes == front + [last];
      BalanceOfUnspent(front, asset);
      EntriesAppend(front, last);
      BalanceAppend(front, last, asset);
      if last.spent {
        assert UnspentEntries(front) + [] == UnspentEntries(front);
      } else {
        BalanceAppend(UnspentEntries(front), last, asset);
      }
    }
  }

  lemma {:induction false} BalanceRemove(notes: seq<OwnedNote>, i: nat, asset: Fr)
    requires i < |notes|
    ensures Balance(notes, asset) == Balance(notes[..i] + notes[i + 1..], asset) + Counted(notes[i], asset)
  {
    hide Balance;
    var k := |notes| - 1;
    var last, front := notes[k], notes[..k];
    BalanceAppend(front, last, asset);
    assert notes == front + [last];
    if i == k {
      assert notes[..i] + notes[i + 1..] == front;
    } else {
      BalanceRemove(front, i, asset);
      BalanceAppend(front[..i] + front[i + 1..], last, asset);
      assert notes[..i] + notes[i + 1..] == front[..i] + front[i + 1..] + [last];
    }
  }

  lemma {:induction false} RemoveOne<T>(xs: seq<T>, i: nat)
    requires i < |xs|
    ensures multiset(xs[..i] + xs[i + 1..]) == multiset(xs) - multiset{xs[i]}
  {
    assert xs == xs[..i] + [xs[i]] + xs[i + 1..];
  }

  /** A balance depends only on which notes are held, not on their order. */
  lemma {:induction false} BalanceOfMultiset(a: seq<OwnedNote>, b: seq<OwnedNote>, asset: Fr)
    requires multiset(a) == multiset(b)
    ensures Balance(a, asset) == Balance(b, asset)
    decreases |a|
  {
    hide Balance;
    if a == [] {
      EmptyMultiset(b);
    } else {
      var k := |a| - 1;
      assert a[k] in multiset(b);
      var i :| 0 <= i < |b| && b[i] == a[k];
      RemoveOne(a, k);
      RemoveOne(b, i);
      assert a[..k] + a[k + 1..] == a[..k];
      BalanceOfMultiset(a[..k], b[..i] + b[i + 1..], asset);
      BalanceRemove(a, k, asset);
      BalanceRemove(b, i, asset);
    }
  }

  lemma {:induction false} EmptyMultiset<T>(xs: seq<T>)
    requires multiset(xs) == multiset{}
    ensures xs == []
  {
    assert |multiset(xs)| == |xs|;
  }

  /** The recovered balance of every asset is the online balance. */
  lemma {:induction false} RecoveredBalance(e: Encryption, sk: Fr, depth: nat, maxAnchors: nat, actions: seq<Action>,
          asset: Fr)
    requires Correct(e) && SingleDevice(e, sk, depth, maxAnchors, actions)
    requires DistinctNonces(FoundOn(e, sk, History(e, sk, depth, maxAnchors, actions).ledger))
    requires History(e, sk, depth, maxAnchors, actions).pending == {}
    ensures var d := History(e, sk, depth, maxAnchors, actions);
            Balance(Recovered(e, sk, d.ledger), asset) == Balance(d.notes, asset)
  {
    hide DeviceInv, History, Correct, SingleDevice, DistinctNonces, Recovered;
    RecoveryAgrees(e, sk, depth, maxAnchors, actions);
    var d := History(e, sk, depth, maxAnchors, actions);
    BalanceOfUnspent(d.notes, asset);
    BalanceOfMultiset(UnspentEntries(d.notes), Recovered(e, sk, d.ledger), asset);
  }

  /**
   Why nonces must differ: two entries with one nonce share a nullifier, so once the first is
   withdrawn the second is still listed online but no scan recovers it.
   */
  lemma {:induction false} SharedNonceDiverges(e: Encryption, sk: Fr, d: Device, j: nat, to: Bytes32, amount: u64,
          token: Bytes32)
    requires j < |d.notes| && !d.notes[j].spent
    requires forall a, b :: 0 <= a < b < |d.notes| ==> d.notes[a].commitment != d.notes[b].commitment
    requires var i := FindSpendable(d.notes, ComputeAssetId(token), amount);
             i < |d.notes| && i != j && d.notes[i].note.nullifierNonce == d.notes[j].note.nullifierNonce
    requires WalletUnshield(sk, d.ledger, d.notes, to, amount, token).2.Ok?
    ensures var after := Act(e, sk, d, SelfUnshield(to, amount, token));
            after.notes[j] == d.notes[j] && d.notes[j] !in Recovered(e, sk, after.ledger)
  {
    hide Provable, Found, ComputeAssetId, TxBindingUnshield, Verifies;
    var i := FindSpendable(d.notes, ComputeAssetId(token), amount);
    CommitmentNamesEntry(d.notes, i);
    var after := Act(e, sk, d, SelfUnshield(to, amount, token));
    assert NullifierOf(d.notes[j].note, sk) in after.ledger.nullifiers;
    RecordedIsNotRecovered(FoundOn(e, sk, after.ledger), sk, after.ledger.nullifiers, d.notes[j]);
  }

  lemma {:induction false} RecordedIsNotRecovered(found: seq<(Note, TxSig)>, sk: Fr, nfs: set<Fr>, n: OwnedNote)
    requires NullifierOf(n.note, sk) in nfs
    ensures n !in Unspent(found, sk, nfs)
  {
    if found != [] {
      RecordedIsNotRecovered(found[..|found| - 1], sk, nfs, n);
    }
  }

  // ---------------------------------------------------------------------------
  // Exactly when a withdrawal keeps the agreement
  // ---------------------------------------------------------------------------

  /** No unspent entry but the i-th carries its nonce. */
  predicate NonceAlone(notes: seq<OwnedNote>, i: nat)
    requires i < |notes|
  {
    forall j :: 0 <= j < |notes| && j != i && !notes[j].spent ==>
        notes[j].note.nullifierNonce != notes[i].note.nullifierNonce
  }

  lemma {:induction false} EntriesMembers(notes: seq<OwnedNote>, n: OwnedNote)
    ensures n in UnspentEntries(notes) <==> n in notes && !n.spent
  {
    if notes != [] {
      var k := |notes| - 1;
      EntriesMembers(notes[..k], n);
      assert notes == notes[..k] + [notes[k]];
    }
  }

  /** Entry i by itself, and the unspent entries around it. */
  lemma {:induction false} EntriesRemove(notes: seq<OwnedNote>, i: nat)
    requires i < |notes|
    ensures multiset(UnspentEntries(notes))
         == multiset(UnspentEntries(notes[..i] + notes[i + 1..]))
             + (if notes[i].spent then multiset{} else multiset{notes[i]})
  {
    hide UnspentEntries;
    var k := |notes| - 1;
    var front, last := notes[..k], notes[k];
    assert notes == front + [last];
    EntriesAppend(front, last);
    if i == k {
      assert notes[..i] + notes[i + 1..] == front;
    } else {
      EntriesRemove(front, i);
      assert notes[..i] + notes[i + 1..] == front[..i] + front[i + 1..] + [last];
      EntriesAppend(front[..i] + front[i + 1..], last);
    }
  }

  /** Recording one more nullifier takes exactly its notes out of the scan. */
  lemma {:induction false} RecordedLeaves(found: seq<(Note, TxSig)>, sk: Fr, nfs: set<Fr>, nf: Fr, n: OwnedNote)
    ensures multiset(Unspent(found, sk, nfs + {nf}))[n]
         == if NullifierOf(n.note, sk) == nf then 0 else multiset(Unspent(found, sk, nfs))[n]
  {
    hide NullifierOf;
    if found != [] {
      RecordedLeaves(found[..|found| - 1], sk, nfs, nf, n);
    }
  }

  lemma {:induction false} SameNonceSameNullifier(a: Note, b: Note, sk: Fr)
    ensures NullifierOf(a, sk) == NullifierOf(b, sk) <==> a.nullifierNonce == b.nullifierNonce
  {
  }

  /** On multisets: taking out one entry and taking out its whole nullifier agree when it is alone. */
  lemma {:induction false} OneOrAll(rest: multiset<OwnedNote>, all: multiset<OwnedNote>, left: multiset<OwnedNote>,
          own: OwnedNote)
    requires all == rest + multiset{own}
    requires forall n :: left[n] == if n.note.nullifierNonce == own.note.nullifierNonce then 0 else all[n]
    ensures rest == left <==> forall n :: n in rest ==> n.note.nullifierNonce != own.note.nullifierNonce
  {
    if forall n :: n in rest ==> n.note.nullifierNonce != own.note.nullifierNonce {
      forall n: OwnedNote ensures rest[n] == left[n] {
      }
    }
    if rest == left {
      forall n | n in rest ensures n.note.nullifierNonce != own.note.nullifierNonce {
        assert left[n] > 0;
      }
    }
  }

  /** What an accepted withdrawal does to note list and ledger. */
  lemma {:induction false} WithdrawalOutcome(sk: Fr, s: LedgerState, notes: seq<OwnedNote>, to: Bytes32, amount: u64,
          token: Bytes32)
    requires forall k :: 0 <= k < |notes| ==> notes[k].commitment == notes[k].note.Commitment()
    requires WalletUnshield(sk, s, notes, to, amount, token).2.Ok?
    ensures var (t, after, _) := WalletUnshield(sk, s, notes, to, amount, token);
            var i := FindSpendable(notes, ComputeAssetId(token), amount);
      && i < |notes| && !notes[i].spent && after == notes[i := notes[i].(spent := true)]
      && t.store == s.store && t.nullifiers == s.nullifiers + {NullifierOf(notes[i].note, sk)}
  {
    hide Provable, ComputeAssetId, TxBindingUnshield, Verifies, NullifierOf;
    var i := FindSpendable(notes, ComputeAssetId(token), amount);
    var j := FindByCommitment(notes, notes[i].commitment);
    assert notes[j].commitment == notes[i].commitment;
    CommitmentInjective(notes[j].note, notes[i].note);
    assert j == i;
  }

  /**
   A withdrawal keeps the online list and the scan in agreement if and only if no other unspent entry
   carries the nonce of the entry it spends.
   */
  lemma {:induction false} WithdrawalKeepsAgreementIff(e: Encryption, sk: Fr, d: Device, to: Bytes32, amount: u64,
          token: Bytes32)
    requires multiset(UnspentEntries(d.notes)) == multiset(Recovered(e, sk, d.ledger))
    requires forall k :: 0 <= k < |d.notes| ==> d.notes[k].commitment == d.notes[k].note.Commitment()
    requires WalletUnshield(sk, d.ledger, d.notes, to, amount, token).2.Ok?
    ensures FindSpendable(d.notes, ComputeAssetId(token), amount) < |d.notes|
    ensures var after := Act(e, sk, d, SelfUnshield(to, amount, token));
            multiset(UnspentEntries(after.notes)) == multiset(Recovered(e, sk, after.ledger)) <==>
            NonceAlone(d.notes, FindSpendable(d.notes, ComputeAssetId(token), amount))
  {
    hide WalletUnshield, ComputeAssetId, Found, UnspentEntries, Unspent, NullifierOf, FindSpendable;
    var notes, i := d.notes, FindSpendable(d.notes, ComputeAssetId(token), amount);
    var after := Act(e, sk, d, SelfUnshield(to, amount, token));
    WithdrawalOutcome(sk, d.ledger, notes, to, amount, token);
    var own, others := notes[i], notes[..i] + notes[i + 1..];
    var found, nfs := FoundOn(e, sk, d.ledger), d.ledger.nullifiers;
    var rest, left := multiset(UnspentEntries(others)), multiset(Recovered(e, sk, after.ledger));
    EntriesRemove(notes, i);
    EntriesRemove(after.notes, i);
    assert after.notes[..i] + after.notes[i + 1..] == others;
    assert multiset(UnspentEntries(after.notes)) == rest;
    forall n: OwnedNote
      ensures left[n] == if n.note.nullifierNonce == own.note.nullifierNonce then 0
                         else multiset(UnspentEntries(notes))[n]
    {
      RecordedLeaves(found, sk, nfs, NullifierOf(own.note, sk), n);
      SameNonceSameNullifier(n.note, own.note, sk);
    }
    OneOrAll(rest, multiset(UnspentEntries(notes)), left, own);
    AloneIff(notes, i);
  }

  ghost predicate Elsewhere(notes: seq<OwnedNote>, i: nat, n: OwnedNote) {
    exists j :: 0 <= j < |notes| && j != i && notes[j] == n
  }

  lemma {:induction false} MembersElsewhere(notes: seq<OwnedNote>, i: nat, n: OwnedNote)
    requires i < |notes|
    ensures n in notes[..i] + notes[i + 1..] <==> Elsewhere(notes, i, n)
  {
    var before, behind := notes[..i], notes[i + 1..];
    if n in before {
      var k :| 0 <= k < i && before[k] == n;
      assert notes[k] == n;
    }
    if n in behind {
      var k :| 0 <= k < |behind| && behind[k] == n;
      assert notes[i + 1 + k] == n;
    }
    if Elsewhere(notes, i, n) {
      var j :| 0 <= j < |notes| && j != i && notes[j] == n;
      assert if j < i then before[j] == n else behind[j - i - 1] == n;
    }
  }

  lemma {:induction false} AloneIff(notes: seq<OwnedNote>, i: nat)
    requires i < |notes|
    ensures NonceAlone(notes, i) <==>
      forall n :: n in multiset(UnspentEntries(notes[..i] + notes[i + 1..])) ==>
        n.note.nullifierNonce != notes[i].note.nullifierNonce
  {
    hide UnspentEntries;
    var rest := multiset(UnspentEntries(notes[..i] + notes[i + 1..]));
    forall n ensures n in rest <==> Elsewhere(notes, i, n) && !n.spent {
      EntriesMembers(notes[..i] + notes[i + 1..], n);
      MembersElsewhere(notes, i, n);
    }
    if !NonceAlone(notes, i) {
      var j :| 0 <= j < |notes| && j != i && !notes[j].spent
        && notes[j].note.nullifierNonce == notes[i].note.nullifierNonce;
      assert Elsewhere(notes, i, notes[j]);
    }
  }

  // ---------------------------------------------------------------------------
  // A history with one nonce twice
  // ---------------------------------------------------------------------------

  /** Five units deposited under nonce 7; the randomness tells the two notes apart. */
  function Twin(sk: Fr, randomness: Fr): Note { ShieldedNote(sk, ZERO_32, 5, ShieldCoins(Num(7), randomness, 0)) }

  function TwinShield(randomness: Fr): Action { SelfShield(ZERO_32, 5, ShieldCoins(Num(7), randomness, 0)) }

  function TwinActions(): seq<Action> { [TwinShield(Num(8)), TwinShield(Num(9)), SelfUnshield(ZERO_32, 5, ZERO_32)] }

  /** One deposit of the device: the note is appended and its leaf comes next. */
  lemma {:induction false} TwinShieldActs(e: Encryption, sk: Fr, d: Device, randomness: Fr)
    requires d.ledger.store.WellFormed()
    ensures var note := Twin(sk, randomness);
            var t := Act(e, sk, d, TwinShield(randomness));
      && (exists tx :: t.notes == d.notes + [NewOwned(note, tx)])
      && t.ledger.nullifiers == d.ledger.nullifiers && t.pending == d.pending
      && t.ledger.store.WellFormed() && t.ledger.store.depth == d.ledger.store.depth
      && t.ledger.store.leafCount == d.ledger.store.leafCount + 1
      && t.ledger.store.index == d.ledger.store.index[note.Commitment() := d.ledger.store.leafCount]
  {
    hide CtHash, ComputeAssetId, Verifies, AddressField;
    var coins := ShieldCoins(Num(7), randomness, 0);
    var note := Twin(sk, randomness);
    HonestShieldAccepted(e, d.ledger, sk, ZERO_32, 5, coins);
    var tx := ExecShield(d.ledger, HonestShield(e, sk, ZERO_32, 5, coins)).1.value;
    assert Act(e, sk, d, TwinShield(randomness)).notes == d.notes + [NewOwned(note, tx)];
    InsertedWellFormed(d.ledger.store, note.Commitment(), tx);
  }

  lemma {:induction false} HistorySnoc(e: Encryption, sk: Fr, depth: nat, maxAnchors: nat, actions: seq<Action>,
          a: Action)
    ensures History(e, sk, depth, maxAnchors, actions + [a])
            == Act(e, sk, History(e, sk, depth, maxAnchors, actions), a)
  {
    assert (actions + [a])[..|actions|] == actions;
  }

  /** The device after both deposits: two unspent entries with one nonce, the first at leaf 0. */
  lemma {:induction false} TwinDeposits(e: Encryption, sk: Fr, depth: nat, maxAnchors: nat)
    ensures var d := History(e, sk, depth, maxAnchors, TwinActions()[..2]);
      && (exists tx, ux :: d.notes == [NewOwned(Twin(sk, Num(8)), tx), NewOwned(Twin(sk, Num(9)), ux)])
      && d.ledger.nullifiers == {} && d.pending == {} && SpendableNote(d.ledger.store, Twin(sk, Num(8)), sk)
  {
    hide Act, History, Twin;
    var d0 := Device(Genesis(depth, maxAnchors), [], {});
    var a1, a2 := TwinShield(Num(8)), TwinShield(Num(9));
    NoHistory(e, sk, depth, maxAnchors);
    HistorySnoc(e, sk, depth, maxAnchors, [], a1);
    HistorySnoc(e, sk, depth, maxAnchors, [a1], a2);
    assert [] + [a1] == [a1] && [a1] + [a2] == TwinActions()[..2];
    TwinShieldActs(e, sk, d0, Num(8));
    var d1 := Act(e, sk, d0, a1);
    TwinShieldActs(e, sk, d1, Num(9));
    var tx :| d1.notes == [] + [NewOwned(Twin(sk, Num(8)), tx)];
    var d2 := Act(e, sk, d1, a2);
    var ux :| d2.notes == d1.notes + [NewOwned(Twin(sk, Num(9)), ux)];
    assert d2.notes == [NewOwned(Twin(sk, Num(8)), tx), NewOwned(Twin(sk, Num(9)), ux)];
    TwinsDiffer(sk);
    assert OwnedBy(Twin(sk, Num(8)), sk) by { TwinIsOwned(sk, Num(8)); }
  }

  lemma {:induction false} NoHistory(e: Encryption, sk: Fr, depth: nat, maxAnchors: nat)
    ensures History(e, sk, depth, maxAnchors, []) == Device(Genesis(depth, maxAnchors), [], {})
    ensures Genesis(depth, maxAnchors).store.WellFormed()
  {
  }

  lemma {:induction false} TwinIsOwned(sk: Fr, randomness: Fr)
    ensures OwnedBy(Twin(sk, randomness), sk)
  {
  }

  lemma {:induction false} TwinsDiffer(sk: Fr)
    ensures Twin(sk, Num(8)).Commitment() != Twin(sk, Num(9)).Commitment()
  {
    var a, b := Twin(sk, Num(8)), Twin(sk, Num(9));
    assert a.noteRandomness != b.noteRandomness;
    if a.Commitment() == b.Commitment() {
      CommitmentInjective(a, b);
    }
  }

  /** The withdrawal takes the first entry and is accepted. */
  lemma {:induction false} TwinUnshields(sk: Fr, s: LedgerState, notes: seq<OwnedNote>, tx: TxSig, ux: TxSig)
    requires notes == [NewOwned(Twin(sk, Num(8)), tx), NewOwned(Twin(sk, Num(9)), ux)]
    requires s.nullifiers == {} && SpendableNote(s.store, Twin(sk, Num(8)), sk)
    ensures FindSpendable(notes, ComputeAssetId(ZERO_32), 5) == 0
    ensures WalletUnshield(sk, s, notes, ZERO_32, 5, ZERO_32).2.Ok?
  {
    hide ExecUnshield, HonestUnshield, Provable, StoreWitness, NullifierOf, ComputeAssetId, AddressField;
    assert notes[0].commitment == Twin(sk, Num(8)).Commitment();
    assert FindSpendable(notes, ComputeAssetId(ZERO_32), 5) == 0;
    assert FindByCommitment(notes, notes[0].commitment) == 0;
    assert PrepareSpend(s.store, notes, notes[0].commitment)
           == Ok((notes[0], StoreWitness(s.store, notes[0].commitment))) by {
      WitnessIsStores(s.store, notes[0].commitment);
    }
    TwinBalance(notes, ComputeAssetId(ZERO_32));
    HonestUnshieldAccepted(s, sk, notes[0], ZERO_32, ZERO_32);
  }

  lemma {:induction false} TwinBalance(notes: seq<OwnedNote>, asset: Fr)
    requires |notes| == 2 && notes[0].note.amount == notes[1].note.amount == 5
    ensures Balance(notes, asset) < TWO_64
  {
    assert notes[..1][..0] == [] && notes[..1][0] == notes[0];
    assert Balance(notes[..1], asset) <= 5;
  }

  lemma {:induction false} WitnessIsStores(s: StoreState, cm: Fr)
    requires cm in s.index
    ensures StoreWitness(s, cm) == WitnessOf(s.leaves, s.index[cm], s.depth)
  {
  }

  /**
   A reachable disagreement: with one nonce used twice, no notice pending and nobody else on the
   chain, the online wallet holds an unspent note that recovery does not find.
   */
  lemma {:induction false} RepeatedNonceDiverges(e: Encryption, sk: Fr, depth: nat, maxAnchors: nat)
    ensures SingleDevice(e, sk, depth, maxAnchors, TwinActions())
    ensures var d := History(e, sk, depth, maxAnchors, TwinActions());
      && d.pending == {}
      && multiset(UnspentEntries(d.notes)) != multiset(Recovered(e, sk, d.ledger))
      && (Correct(e) ==> !DistinctNonces(FoundOn(e, sk, d.ledger)))
  {
    hide Act, History, Twin, Recovered, UnspentEntries, DistinctNonces, Found, Correct, WalletUnshield, SingleDevice;
    var actions := TwinActions();
    var d2 := History(e, sk, depth, maxAnchors, actions[..2]);
    TwinDeposits(e, sk, depth, maxAnchors);
    var tx, ux :| d2.notes == [NewOwned(Twin(sk, Num(8)), tx), NewOwned(Twin(sk, Num(9)), ux)];
    TwinUnshields(sk, d2.ledger, d2.notes, tx, ux);
    TwinsDiffer(sk);
    assert Twin(sk, Num(8)).nullifierNonce == Twin(sk, Num(9)).nullifierNonce by { TwinNonce(sk); }
    SharedNonceDiverges(e, sk, d2, 1, ZERO_32, 5, ZERO_32);
    HistorySnoc(e, sk, depth, maxAnchors, actions[..2], actions[2]);
    assert actions[..2] + [actions[2]] == actions;
    var d := History(e, sk, depth, maxAnchors, actions);
    UnshieldKeepsPending(e, sk, d2);
    assert d.notes[1] in UnspentEntries(d.notes) by { UnspentIsListed(d.notes, 1); }
    assert d.notes[1] in multiset(UnspentEntries(d.notes)) && d.notes[1] !in multiset(Recovered(e, sk, d.ledger));
    NobodyElse(e, sk, depth, maxAnchors, actions);
    if Correct(e) && DistinctNonces(FoundOn(e, sk, d.ledger)) {
      RecoveryAgrees(e, sk, depth, maxAnchors, actions);
    }
  }

  lemma {:induction false} TwinNonce(sk: Fr)
    ensures Twin(sk, Num(8)).nullifierNonce == Num(7) == Twin(sk, Num(9)).nullifierNonce
  {
  }

  lemma {:induction false} UnshieldKeepsPending(e: Encryption, sk: Fr, d: Device)
    ensures Act(e, sk, d, SelfUnshield(ZERO_32, 5, ZERO_32)).pending == d.pending
    ensures |Act(e, sk, d, SelfUnshield(ZERO_32, 5, ZERO_32)).notes| == |d.notes|
  {
    hide ExecUnshield, HonestUnshield, Provable, PrepareSpend, ComputeAssetId;
  }

  lemma {:induction false} UnspentIsListed(notes: seq<OwnedNote>, i: nat)
    requires i < |notes| && !notes[i].spent
    ensures notes[i] in UnspentEntries(notes)
  {
    var k := |notes| - 1;
    if i < k {
      UnspentIsListed(notes[..k], i);
    }
  }

  lemma {:induction false} NobodyElse(e: Encryption, sk: Fr, depth: nat, maxAnchors: nat, actions: seq<Action>)
    requires forall a :: a in actions ==> !a.Others?
    ensures SingleDevice(e, sk, depth, maxAnchors, actions)
  {
    if actions != [] {
      NobodyElse(e, sk, depth, maxAnchors, actions[..|actions| - 1]);
    }
  }
}
