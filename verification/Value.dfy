/** Sums of note amounts per asset, over sequences and over sets of distinct notes. */
module Value {
  import opened Field
  import opened Traits

  function AmountIn(note: Note, asset: Fr): nat {
    if note.assetId == asset then note.amount else 0
  }

  function SeqValue(notes: seq<Note>, asset: Fr): nat {
    if notes == [] then 0 else SeqValue(notes[..|notes| - 1], asset) + AmountIn(notes[|notes| - 1], asset)
  }

  ghost function SetValue(notes: set<Note>, asset: Fr): nat {
    if notes == {} then 0
    else
      var n :| n in notes;
      AmountIn(n, asset) + SetValue(notes - {n}, asset)
  }

  predicate NoDup<T(==)>(xs: seq<T>) {
    forall i, j :: 0 <= i < j < |xs| ==> xs[i] != xs[j]
  }

  function Elements<T>(xs: seq<T>): set<T> {
    set x | x in xs
  }

  /** The real entries of a nullifier list. */
  function NonZero(nfs: seq<Fr>): set<Fr> {
    set nf | nf in nfs && nf != ZERO
  }

  lemma {:induction false} SetValueRemove(notes: set<Note>, x: Note, asset: Fr)
    requires x in notes
    ensures SetValue(notes, asset) == AmountIn(x, asset) + SetValue(notes - {x}, asset)
    decreases |notes|
  {
    var n :| n in notes && SetValue(notes, asset) == AmountIn(n, asset) + SetValue(notes - {n}, asset);
    if n != x {
      SetValueRemove(notes - {n}, x, asset);
      SetValueRemove(notes - {x}, n, asset);
      assert notes - {n} - {x} == notes - {x} - {n};
    }
  }

  lemma {:induction false} SetValueAdd(notes: set<Note>, x: Note, asset: Fr)
    ensures SetValue(notes + {x}, asset) == SetValue(notes, asset) + (if x in notes then 0 else AmountIn(x, asset))
  {
    if x in notes {
      assert notes + {x} == notes;
    } else {
      SetValueRemove(notes + {x}, x, asset);
      assert notes + {x} - {x} == notes;
    }
  }

  lemma {:induction false} SetValueDisjoint(a: set<Note>, b: set<Note>, asset: Fr)
    requires a !! b
    ensures SetValue(a + b, asset) == SetValue(a, asset) + SetValue(b, asset)
    decreases |a|
  {
    if a == {} {
      assert a + b == b;
    } else {
      var n :| n in a;
      SetValueDisjoint(a - {n}, b, asset);
      SetValueRemove(a, n, asset);
      SetValueRemove(a + b, n, asset);
      assert a + b - {n} == (a - {n}) + b;
    }
  }

  lemma {:induction false} SetValueMonotone(a: set<Note>, b: set<Note>, asset: Fr)
    requires a <= b
    ensures SetValue(a, asset) <= SetValue(b, asset)
  {
    SetValueDisjoint(a, b - a, asset);
    assert a + (b - a) == b;
  }

  lemma {:induction false} SetValueUnion(a: set<Note>, b: set<Note>, asset: Fr)
    ensures SetValue(a + b, asset) <= SetValue(a, asset) + SetValue(b, asset)
  {
    SetValueDisjoint(a, b - a, asset);
    SetValueMonotone(b - a, b, asset);
    assert a + (b - a) == a + b;
  }

  /** Repetitions collapse in the set; without repetitions the two sums agree. */
  lemma {:induction false} SetValueOfSeq(notes: seq<Note>, asset: Fr)
    ensures SetValue(Elements(notes), asset) <= SeqValue(notes, asset)
    ensures NoDup(notes) ==> SetValue(Elements(notes), asset) == SeqValue(notes, asset)
  {
    if notes == [] {
      assert Elements(notes) == {};
    } else {
      var k := |notes| - 1;
      SetValueOfSeq(notes[..k], asset);
      SetValueAdd(Elements(notes[..k]), notes[k], asset);
      assert notes == notes[..k] + [notes[k]];
      assert Elements(notes) == Elements(notes[..k]) + {notes[k]};
    }
  }

  /** With a single asset, the plain total is the value in that asset and nothing in any other. */
  lemma {:induction false} TotalIsValue(notes: seq<Note>, asset: Fr, other: Fr)
    requires forall n :: n in notes ==> n.assetId == asset
    ensures SeqValue(notes, other) == if other == asset then Total(notes) else 0
  {
    if notes != [] {
      var k := |notes| - 1;
      TotalIsValue(notes[..k], asset, other);
      assert notes[k] in notes;
    }
  }
}
