/** On-chain tree state: the ring of recent roots (programs/solana-masp/src/state.rs). */
module TreeStates {
  import opened Words

  const ANCHOR_HISTORY_SIZE: nat := 16

  function Repeat<T>(x: T, n: nat): (s: seq<T>)
    ensures |s| == n && forall i :: 0 <= i < n ==> s[i] == x
  {
    if n == 0 then [] else Repeat(x, n - 1) + [x]
  }

  /** Sixteen placeholders, then every root so far. */
  function Timeline<T>(zero: T, roots: seq<T>): seq<T> {
    Repeat(zero, ANCHOR_HISTORY_SIZE) + roots
  }

  /** The last seventeen entries of the timeline: the current root and the sixteen before it. */
  function Window<T>(zero: T, roots: seq<T>): (w: seq<T>)
    requires roots != []
    ensures |w| == ANCHOR_HISTORY_SIZE + 1
  {
    Timeline(zero, roots)[|roots| - 1..]
  }

  /** Slot of the ring that is `age` places after the oldest one. */
  function Slot(oldest: nat, age: nat): nat {
    if oldest + age < ANCHOR_HISTORY_SIZE then oldest + age else oldest + age - ANCHOR_HISTORY_SIZE
  }

  class TreeState<T(==)> {
    const zero: T
    var authority: nat
    var currentRoot: T
    var leafCount: u64
    const anchorHistory: array<T>
    var anchorHistoryIndex: nat
    var paused: bool
    ghost var roots: seq<T>

    ghost predicate Valid()
      reads this, anchorHistory
    {
      && anchorHistory.Length == ANCHOR_HISTORY_SIZE && anchorHistoryIndex < ANCHOR_HISTORY_SIZE
      && roots != [] && currentRoot == roots[|roots| - 1]
      && forall age: nat :: age < ANCHOR_HISTORY_SIZE ==>
           anchorHistory[Slot(anchorHistoryIndex, age)] == Window(zero, roots)[age]
    }

    /** A fresh state: the placeholder root everywhere. */
    constructor (zero: T, authority: nat)
      ensures Valid() && fresh(anchorHistory)
      ensures roots == [zero] && leafCount == 0 && !paused && this.zero == zero && this.authority == authority
    {
      this.zero := zero;
      this.authority := authority;
      currentRoot, leafCount, anchorHistoryIndex, paused := zero, 0, 0, false;
      anchorHistory := new T[ANCHOR_HISTORY_SIZE](_ => zero);
      roots := [zero];
    }

    /** An anchor is accepted exactly when it is in the window. */
    method IsValidAnchor(anchor: T) returns (valid: bool)
      requires Valid()
      ensures valid <==> anchor in Window(zero, roots)
    {
      ghost var w := Window(zero, roots);
      assert w[ANCHOR_HISTORY_SIZE] == currentRoot;
      if anchor == currentRoot {
        return true;
      }
      var i := 0;
      while i < anchorHistory.Length
        invariant i <= anchorHistory.Length
        invariant forall k :: 0 <= k < i ==> anchorHistory[k] != anchor
      {
        if anchor == anchorHistory[i] {
          assert w[Age(anchorHistoryIndex, i)] == anchor;
          return true;
        }
        i := i + 1;
      }
      forall age: nat | age < |w| ensures w[age] != anchor {
        if age < ANCHOR_HISTORY_SIZE {
          assert w[age] == anchorHistory[Slot(anchorHistoryIndex, age)];
        }
      }
      return false;
    }

    /** The current root goes into the oldest slot; the new root becomes current. */
    method UpdateRoot(newRoot: T)
      requires Valid()
      modifies `currentRoot, `anchorHistoryIndex, `roots, anchorHistory
      ensures Valid() && roots == old(roots) + [newRoot]
    {
      var idx := anchorHistoryIndex;
      ghost var w, w' := Window(zero, roots), Window(zero, roots + [newRoot]);
      assert forall age: nat :: age < ANCHOR_HISTORY_SIZE ==> w'[age] == w[age + 1];
      anchorHistory[idx] := currentRoot;
      anchorHistoryIndex := (idx + 1) % ANCHOR_HISTORY_SIZE;
      currentRoot := newRoot;
      roots := roots + [newRoot];
      forall age: nat | age < ANCHOR_HISTORY_SIZE
        ensures anchorHistory[Slot(anchorHistoryIndex, age)] == w'[age]
      {
        if age + 1 < ANCHOR_HISTORY_SIZE {
          assert Slot(anchorHistoryIndex, age) == Slot(idx, age + 1) != idx;
        } else {
          assert Slot(anchorHistoryIndex, age) == idx;
        }
      }
    }

    method IncrementLeafCount() returns (r: Result<u64, ()>)
      modifies `leafCount
      ensures old(leafCount) + 1 < TWO_64 ==> leafCount == old(leafCount) + 1 && r == Ok(leafCount)
      ensures old(leafCount) + 1 == TWO_64 ==> leafCount == old(leafCount) && r == Err(())
    {
      if leafCount + 1 == TWO_64 {
        return Err(());
      }
      leafCount := leafCount + 1;
      r := Ok(leafCount);
    }
  }

  /** Inverse of `Slot`: how far after the oldest slot a ring position is. */
  function Age(oldest: nat, slot: nat): (age: nat)
    requires oldest < ANCHOR_HISTORY_SIZE && slot < ANCHOR_HISTORY_SIZE
    ensures age < ANCHOR_HISTORY_SIZE && Slot(oldest, age) == slot
  {
    if slot >= oldest then slot - oldest else slot + ANCHOR_HISTORY_SIZE - oldest
  }

  /**
   Membership in the window: a root recorded at most sixteen updates ago, or the placeholder
   while fewer than sixteen updates have happened.
   */
  lemma {:induction false} WindowMembers<T>(zero: T, roots: seq<T>, anchor: T)
    requires roots != []
    ensures anchor in Window(zero, roots) <==>
      (exists k :: 0 <= k < |roots| && |roots| <= k + ANCHOR_HISTORY_SIZE + 1 && roots[k] == anchor)
      || (|roots| <= ANCHOR_HISTORY_SIZE && anchor == zero)
  {
    var w, n := Window(zero, roots), |roots|;
    assert forall i :: 0 <= i < |w| ==>
      w[i] == if n - 1 + i < ANCHOR_HISTORY_SIZE then zero else roots[n - 1 + i - ANCHOR_HISTORY_SIZE];
    if k :| 0 <= k < n && n <= k + ANCHOR_HISTORY_SIZE + 1 && roots[k] == anchor {
      assert w[k + ANCHOR_HISTORY_SIZE + 1 - n] == anchor;
    }
    if n <= ANCHOR_HISTORY_SIZE && anchor == zero {
      assert w[0] == anchor;
    }
  }

  /**
   The root that is current now stays accepted through the next sixteen updates; after more it
   is refused, unless it was recorded again.
   */
  lemma {:induction false} CurrentRootSurvives<T>(zero: T, roots: seq<T>, later: seq<T>)
    requires roots != []
    ensures |later| <= ANCHOR_HISTORY_SIZE ==> roots[|roots| - 1] in Window(zero, roots + later)
    ensures |later| > ANCHOR_HISTORY_SIZE && roots[|roots| - 1] !in later
      ==> roots[|roots| - 1] !in Window(zero, roots + later)
  {
    var a, all := roots[|roots| - 1], roots + later;
    WindowMembers(zero, all, a);
    assert all[|roots| - 1] == a;
    if |later| > ANCHOR_HISTORY_SIZE && a !in later {
      forall k | 0 <= k < |all| && |all| <= k + ANCHOR_HISTORY_SIZE + 1 ensures all[k] != a {
        assert all[k] == later[k - |roots|];
      }
    }
  }
}
