/**
 The Poseidon2 sponge and the ciphertext packing in front of it (client/src/hash.rs), over
 integers modulo the field order. The permutation is an arbitrary function on states.
 */
module Sponge {
  import opened Words
  import opened Bytes

  const RATE: nat := 3

  datatype State = State(s0: felt, s1: felt, s2: felt, capacity: felt)

  type Permutation = State -> State

  function AddMod(a: felt, b: felt): felt { (a + b) % P }

  // ---------------------------------------------------------------------------
  // Reference definition: cut the message into blocks, absorb and permute each
  // ---------------------------------------------------------------------------

  /** Blocks of three elements; the last one may be shorter, and there is always at least one. */
  function Blocks(msg: seq<felt>): (b: seq<seq<felt>>)
    ensures |b| > 0
    ensures forall i :: 0 <= i < |b| ==> |b[i]| <= RATE
  {
    if |msg| <= RATE then [msg] else [msg[..RATE]] + Blocks(msg[RATE..])
  }

  function Lane(block: seq<felt>, i: nat): felt {
    if i < |block| then block[i] else 0
  }

  /** Add a block into the rate part of the state (missing elements count as zero). */
  function Absorb(s: State, block: seq<felt>): State {
    State(AddMod(s.s0, Lane(block, 0)), AddMod(s.s1, Lane(block, 1)), AddMod(s.s2, Lane(block, 2)), s.capacity)
  }

  function AbsorbAll(perm: Permutation, s: State, blocks: seq<seq<felt>>): State
    decreases |blocks|
  {
    if blocks == [] then s else AbsorbAll(perm, perm(Absorb(s, blocks[0])), blocks[1..])
  }

  function Iv(messageSize: u32): felt {
    (messageSize * TWO_64) % P
  }

  /** What is absorbed: the first messageSize inputs, and a closing 1 when inputs were left over. */
  function Message(inputs: seq<felt>, messageSize: u32): seq<felt>
    requires messageSize <= |inputs|
  {
    inputs[..messageSize] + (if messageSize != |inputs| then [1] else [])
  }

  function SpongeHash(perm: Permutation, inputs: seq<felt>, messageSize: u32): felt
    requires messageSize <= |inputs|
  {
    AbsorbAll(perm, State(0, 0, 0, Iv(messageSize)), Blocks(Message(inputs, messageSize))).s0
  }

  /** One permutation per started block of three, and one for the empty message. */
  lemma {:induction false} BlockCount(msg: seq<felt>)
    ensures |Blocks(msg)| == if msg == [] then 1 else (|msg| + 2) / 3
  {
    if |msg| > RATE {
      BlockCount(msg[RATE..]);
    }
  }

  /** Short messages written out: lanes in order, capacity in the last cell, a 1 closing a prefix. */
  lemma {:induction false} ShortMessages(perm: Permutation, a: felt, b: felt, c: felt, d: felt)
    ensures SpongeHash(perm, [a, b], 2) == perm(State(a, b, 0, 2 * TWO_64)).s0
    ensures SpongeHash(perm, [a, b], 1) == perm(State(a, 1, 0, TWO_64)).s0
    ensures var s := perm(State(a, b, c, 4 * TWO_64));
            SpongeHash(perm, [a, b, c, d], 4) == perm(State(AddMod(s.s0, d), s.s1, s.s2, s.capacity)).s0
  {
    assert [a, b][..2] + [] == [a, b] && [a, b][..1] + [1] == [a, 1];
    assert [a, b, c, d][..4] + [] == [a, b, c, d];
    assert [a, b, c, d][..3] == [a, b, c] && [a, b, c, d][3..] == [d];
    assert Blocks([a, b, c, d]) == [[a, b, c]] + [[d]];
    OneBlock(perm, State(0, 0, 0, 2 * TWO_64), [a, b]);
    OneBlock(perm, State(0, 0, 0, TWO_64), [a, 1]);
    OneBlock(perm, perm(State(a, b, c, 4 * TWO_64)), [d]);
    assert ([[a, b, c]] + [[d]])[1..] == [[d]];
    assert AbsorbAll(perm, State(0, 0, 0, 4 * TWO_64), [[a, b, c]] + [[d]])
        == AbsorbAll(perm, perm(State(a, b, c, 4 * TWO_64)), [[d]]);
  }

  lemma {:induction false} OneBlock(perm: Permutation, s: State, block: seq<felt>)
    ensures AbsorbAll(perm, s, [block]) == perm(Absorb(s, block))
  {
    assert [block][1..] == [];
  }

  // ---------------------------------------------------------------------------
  // The streaming implementation
  // ---------------------------------------------------------------------------

  lemma {:induction false} AbsorbAllAppend(perm: Permutation, s: State, blocks: seq<seq<felt>>, last: seq<felt>)
    ensures AbsorbAll(perm, s, blocks + [last]) == perm(Absorb(AbsorbAll(perm, s, blocks), last))
    decreases |blocks|
  {
    if blocks == [] {
      assert AbsorbAll(perm, s, [last]) == AbsorbAll(perm, perm(Absorb(s, last)), []);
    } else {
      AbsorbAllAppend(perm, perm(Absorb(s, blocks[0])), blocks[1..], last);
      assert (blocks + [last])[1..] == blocks[1..] + [last];
    }
  }

  /** Appending an element fills the last block, or opens a new one when it is full. */
  lemma {:induction false} BlocksAppend(msg: seq<felt>, x: felt)
    ensures var b := Blocks(msg); var last := b[|b| - 1];
            Blocks(msg + [x]) == if |last| == RATE then b + [[x]] else b[..|b| - 1] + [last + [x]]
  {
    if |msg| < RATE {
    } else if |msg| == RATE {
      assert (msg + [x])[..RATE] == msg && (msg + [x])[RATE..] == [x];
    } else {
      BlocksAppend(msg[RATE..], x);
      assert (msg + [x])[..RATE] == msg[..RATE] && (msg + [x])[RATE..] == msg[RATE..] + [x];
    }
  }

  /** The sponge in flight: whole blocks already permuted in, the last block still cached. */
  ghost predicate Absorbed(perm: Permutation, start: State, state: State, cache: seq<felt>, size: int,
                           msg: seq<felt>, permutations: nat)
    requires |cache| == RATE
  {
    var b := Blocks(msg);
    && 0 <= size <= RATE
    && cache[..size] == b[|b| - 1]
    && state == AbsorbAll(perm, start, b[..|b| - 1])
    && permutations == |b| - 1
  }

  method PerformDuplex(perm: Permutation, state: array<felt>, cache: array<felt>, size: nat)
    requires state.Length == 4 && cache.Length == RATE && size <= RATE && state != cache
    modifies state
    ensures View(state) == perm(Absorb(old(View(state)), cache[..size]))
  {
    var i := 0;
    while i < RATE
      invariant i <= RATE
      invariant forall j :: 0 <= j < i ==> state[j] == AddMod(old(state[j]), Lane(cache[..size], j))
      invariant forall j :: i <= j < 4 ==> state[j] == old(state[j])
    {
      if i < size {
        state[i] := AddMod(state[i], cache[i]);
      }
      i := i + 1;
    }
    assert View(state) == Absorb(old(View(state)), cache[..size]);
    var next := perm(View(state));
    state[0], state[1], state[2], state[3] := next.s0, next.s1, next.s2, next.capacity;
  }

  function View(state: array<felt>): State
    requires state.Length == 4
    reads state
  {
    State(state[0], state[1], state[2], state[3])
  }

  /** Absorb one element: flush the cache first when it is full. */
  method Push(perm: Permutation, ghost start: State, state: array<felt>, cache: array<felt>, size: nat, x: felt,
              ghost msg: seq<felt>, ghost permutations: nat) returns (newSize: nat, ghost newPermutations: nat)
    requires state.Length == 4 && cache.Length == RATE && state != cache
    requires Absorbed(perm, start, View(state), cache[..], size, msg, permutations)
    modifies state, cache
    ensures Absorbed(perm, start, View(state), cache[..], newSize, msg + [x], newPermutations)
    ensures newPermutations == permutations + (if size == RATE then 1 else 0)
  {
    if size == RATE {
      PerformDuplex(perm, state, cache, size);
      cache[0] := x;
      newSize, newPermutations := 1, permutations + 1;
      assert cache[..][..1] == [x];
      FlushStep(perm, start, old(View(state)), old(cache[..]), msg, permutations, View(state), cache[..], x);
    } else {
      cache[size] := x;
      newSize, newPermutations := size + 1, permutations;
      assert cache[..] == old(cache[..])[size := x];
      FillStep(perm, start, View(state), old(cache[..]), size, msg, permutations, x);
    }
  }

  lemma {:induction false} FlushStep(perm: Permutation, start: State, s: State, cache: seq<felt>, msg: seq<felt>,
          permutations: nat,
                  s': State, cache': seq<felt>, x: felt)
    requires |cache| == RATE == |cache'| && cache'[..1] == [x]
    requires Absorbed(perm, start, s, cache, RATE, msg, permutations)
    requires s' == perm(Absorb(s, cache[..RATE]))
    ensures Absorbed(perm, start, s', cache', 1, msg + [x], permutations + 1)
  {
    var b := Blocks(msg);
    BlocksAppend(msg, x);
    AbsorbAllAppend(perm, start, b[..|b| - 1], b[|b| - 1]);
    assert b[..|b| - 1] + [b[|b| - 1]] == b;
    assert (b + [[x]])[..|b|] == b;
  }

  lemma {:induction false} FillStep(perm: Permutation, start: State, s: State, cache: seq<felt>, size: nat,
          msg: seq<felt>, permutations: nat, x: felt)
    requires |cache| == RATE && size < RATE
    requires Absorbed(perm, start, s, cache, size, msg, permutations)
    ensures Absorbed(perm, start, s, cache[size := x], size + 1, msg + [x], permutations)
  {
    var b := Blocks(msg);
    BlocksAppend(msg, x);
    assert cache[size := x][..size + 1] == b[|b| - 1] + [x];
    assert (b[..|b| - 1] + [b[|b| - 1] + [x]])[..|b| - 1] == b[..|b| - 1];
  }

  lemma {:induction false} NothingAbsorbed(perm: Permutation, start: State, cache: seq<felt>)
    requires |cache| == RATE
    ensures Absorbed(perm, start, start, cache, 0, [], 0)
  {
  }

  /**
   The cache-and-flush loop computes the block fold, with one permutation per block; cells
   left over in the cache from an earlier block never reach the state.
   */
  method Poseidon2HashNoir(perm: Permutation, inputs: seq<felt>, messageSize: u32)
    returns (digest: felt, ghost permutations: nat)
    requires messageSize <= |inputs|
    ensures digest == SpongeHash(perm, inputs, messageSize)
    ensures var n := |Message(inputs, messageSize)|; permutations == if n == 0 then 1 else (n + 2) / 3
  {
    hide Absorbed, AbsorbAll, Blocks;
    var state := new felt[4](_ => 0);
    state[RATE] := Iv(messageSize);
    ghost var start := View(state);
    var cache := new felt[RATE](_ => 0);
    var cacheSize: nat := 0;
    permutations := 0;
    NothingAbsorbed(perm, start, cache[..]);
    assert inputs[..0] == [];
    var i := 0;
    while i < messageSize
      invariant i <= messageSize
      invariant Absorbed(perm, start, View(state), cache[..], cacheSize, inputs[..i], permutations)
    {
      assert inputs[..i + 1] == inputs[..i] + [inputs[i]];
      cacheSize, permutations := Push(perm, start, state, cache, cacheSize, inputs[i], inputs[..i], permutations);
      i := i + 1;
    }
    if messageSize != |inputs| {
      cacheSize, permutations := Push(perm, start, state, cache, cacheSize, 1, inputs[..messageSize], permutations);
    } else {
      assert Message(inputs, messageSize) == inputs[..messageSize];
    }
    digest, permutations := Squeeze(perm, start, state, cache, cacheSize, Message(inputs, messageSize), permutations);
    BlockCount(Message(inputs, messageSize));
  }

  /** Flush whatever is cached and read the first lane. */
  method Squeeze(perm: Permutation, ghost start: State, state: array<felt>, cache: array<felt>, size: nat,
                 ghost msg: seq<felt>, ghost permutations: nat) returns (digest: felt, ghost total: nat)
    requires state.Length == 4 && cache.Length == RATE && state != cache
    requires Absorbed(perm, start, View(state), cache[..], size, msg, permutations)
    modifies state
    ensures digest == AbsorbAll(perm, start, Blocks(msg)).s0
    ensures total == |Blocks(msg)|
  {
    ghost var b := Blocks(msg);
    assert cache[..][..size] == cache[..size];
    PerformDuplex(perm, state, cache, size);
    AbsorbAllAppend(perm, start, b[..|b| - 1], b[|b| - 1]);
    assert b[..|b| - 1] + [b[|b| - 1]] == b;
    digest, total := state[0], permutations + 1;
  }

  // ---------------------------------------------------------------------------
  // The encoding in front of the permutation is injective
  // ---------------------------------------------------------------------------

  function Pad(block: seq<felt>): (p: seq<felt>)
    requires |block| <= RATE
    ensures |p| == RATE
  {
    [Lane(block, 0), Lane(block, 1), Lane(block, 2)]
  }

  function PadAll(blocks: seq<seq<felt>>): (p: seq<seq<felt>>)
    requires forall i :: 0 <= i < |blocks| ==> |blocks[i]| <= RATE
    ensures |p| == |blocks|
    ensures forall i :: 0 <= i < |p| ==> p[i] == Pad(blocks[i])
  {
    seq(|blocks|, i requires 0 <= i < |blocks| => Pad(blocks[i]))
  }

  /** Everything the permutation gets to see. */
  function Encoding(inputs: seq<felt>, messageSize: u32): (felt, seq<seq<felt>>)
    requires messageSize <= |inputs|
  {
    (Iv(messageSize), PadAll(Blocks(Message(inputs, messageSize))))
  }

  lemma {:induction false} PaddingIsInvisible(perm: Permutation, s: State, blocks: seq<seq<felt>>)
    requires forall i :: 0 <= i < |blocks| ==> |blocks[i]| <= RATE
    ensures AbsorbAll(perm, s, PadAll(blocks)) == AbsorbAll(perm, s, blocks)
    decreases |blocks|
  {
    if blocks != [] {
      var p := PadAll(blocks);
      assert p[1..] == PadAll(blocks[1..]);
      PaddingIsInvisible(perm, perm(Absorb(s, blocks[0])), blocks[1..]);
    }
  }

  /** The padded blocks spell the message, element by element, and then zeros. */
  lemma {:induction false} BlocksSpell(msg: seq<felt>, i: nat)
    requires i < 3 * |Blocks(msg)|
    ensures PadAll(Blocks(msg))[i / 3][i % 3] == Lane(msg, i)
  {
    if |msg| > RATE {
      if i >= 3 {
        BlocksSpell(msg[RATE..], i - 3);
        assert (i - 3) / 3 == i / 3 - 1 && (i - 3) % 3 == i % 3;
      }
    }
  }

  lemma {:induction false} IvFixesSize(m: u32, n: u32)
    requires Iv(m) == Iv(n)
    ensures m == n
  {
    assert m * TWO_64 < P && n * TWO_64 < P;
  }

  /**
   No two different uses of the sponge look alike to the permutation: equal encodings mean
   equal absorbed prefixes and the same mode (exact length, or a prefix of a longer input), and
   nothing else of the input is seen.
   */
  lemma {:induction false} EncodingInjective(a: seq<felt>, m: u32, b: seq<felt>, n: u32)
    requires m <= |a| && n <= |b|
    ensures Encoding(a, m) == Encoding(b, n) <==> m == n && a[..m] == b[..n] && (m == |a| <==> n == |b|)
  {
    if Encoding(a, m) == Encoding(b, n) {
      EqualEncodings(a, m, b, n);
    }
  }

  lemma {:induction false} EqualEncodings(a: seq<felt>, m: u32, b: seq<felt>, n: u32)
    requires m <= |a| && n <= |b|
    requires Encoding(a, m) == Encoding(b, n)
    ensures m == n && a[..m] == b[..n] && (m == |a| <==> n == |b|)
  {
    IvFixesSize(m, n);
    var x, y := Message(a, m), Message(b, n);
    BlockCount(x);
    BlockCount(y);
    assert |Blocks(x)| == |PadAll(Blocks(x))| == |PadAll(Blocks(y))| == |Blocks(y)|;
    forall i: nat | i < 3 * |Blocks(x)| ensures Lane(x, i) == Lane(y, i) {
      BlocksSpell(x, i);
      BlocksSpell(y, i);
    }
    forall i | 0 <= i < m ensures a[i] == b[i] {
      assert Lane(x, i) == a[i] && Lane(y, i) == b[i];
    }
    // Position m holds the closing 1, or padding, or lies past the last block.
    assert Lane(x, m) == (if m == |a| then 0 else 1);
    assert Lane(y, n) == (if n == |b| then 0 else 1);
    assert m < 3 * |Blocks(x)| || |x| == |y| == m;
  }

  // ---------------------------------------------------------------------------
  // A collision of the hash is a collision of the permutation
  // ---------------------------------------------------------------------------

  /** The states handed to the permutation, one for each block. */
  function Visited(perm: Permutation, start: State, blocks: seq<seq<felt>>): (states: seq<State>)
    ensures |states| == |blocks|
  {
    if blocks == [] then []
    else
      var k := |blocks| - 1;
      Visited(perm, start, blocks[..k]) + [Absorb(AbsorbAll(perm, start, blocks[..k]), blocks[k])]
  }

  /** Two different states that the permutation sends to one value, in the squeezed lane or in the capacity. */
  predicate Meets(perm: Permutation, s: State, t: State) {
    s != t && (perm(s).s0 == perm(t).s0 || perm(s).capacity == perm(t).capacity)
  }

  /** Among the states that the two runs visit: two that meet, or one sent back to an initial capacity. */
  ghost predicate Collides(perm: Permutation, vs: seq<State>, ws: seq<State>, iv: felt, jv: felt) {
    || (exists i, j :: 0 <= i < |vs| && 0 <= j < |ws| && Meets(perm, vs[i], ws[j]))
    || (exists i :: 0 <= i < |vs| && perm(vs[i]).capacity == jv)
    || (exists j :: 0 <= j < |ws| && perm(ws[j]).capacity == iv)
  }

  predicate Whole(blocks: seq<seq<felt>>) { forall i :: 0 <= i < |blocks| ==> |blocks[i]| == RATE }

  lemma {:induction false} AddModCancels(a: felt, x: felt, y: felt)
    requires AddMod(a, x) == AddMod(a, y)
    ensures x == y
  {
  }

  /** A block is not lost in the state it is added to, and it leaves the capacity alone. */
  lemma {:induction false} AbsorbCancels(s: State, x: seq<felt>, t: State, y: seq<felt>)
    requires |x| == |y| == RATE && Absorb(s, x) == Absorb(t, y)
    ensures s.capacity == t.capacity
    ensures s == t ==> x == y
  {
    if s == t {
      AddModCancels(s.s0, x[0], y[0]);
      AddModCancels(s.s1, x[1], y[1]);
      AddModCancels(s.s2, x[2], y[2]);
      assert x == [x[0], x[1], x[2]] && y == [y[0], y[1], y[2]];
    }
  }

  lemma {:induction false} CollidesGrows(perm: Permutation, vs: seq<State>, v: State, ws: seq<State>, w: State,
          iv: felt,
          jv: felt)
    requires Collides(perm, vs, ws, iv, jv)
    ensures Collides(perm, vs + [v], ws + [w], iv, jv)
  {
    hide Meets;
    var more, others := vs + [v], ws + [w];
    assert forall i :: 0 <= i < |vs| ==> more[i] == vs[i];
    assert forall j :: 0 <= j < |ws| ==> others[j] == ws[j];
  }

  /** A run of at least one block ends in the permutation of the last state visited. */
  lemma {:induction false} RunEnds(perm: Permutation, s: State, xs: seq<seq<felt>>)
    requires xs != []
    ensures var k := |xs| - 1;
            var last := Absorb(AbsorbAll(perm, s, xs[..k]), xs[k]);
      && AbsorbAll(perm, s, xs) == perm(last)
      && Visited(perm, s, xs) == Visited(perm, s, xs[..k]) + [last]
  {
    var k := |xs| - 1;
    AbsorbAllAppend(perm, s, xs[..k], xs[k]);
    assert xs == xs[..k] + [xs[k]];
  }

  /** Two runs that differ and end with an equal lane have collided somewhere on the way. */
  lemma {:induction false} RunsCollide(perm: Permutation, s: State, xs: seq<seq<felt>>, t: State, ys: seq<seq<felt>>)
    requires Whole(xs) && Whole(ys) && xs != [] && ys != []
    requires s != t || xs != ys
    requires s.capacity == t.capacity ==> s == t
    requires var u, v := AbsorbAll(perm, s, xs), AbsorbAll(perm, t, ys); u.s0 == v.s0 || u.capacity == v.capacity
    ensures Collides(perm, Visited(perm, s, xs), Visited(perm, t, ys), s.capacity, t.capacity)
    decreases |xs|
  {
    hide Absorb, AbsorbAll, Visited, Collides;
    var a, b := |xs| - 1, |ys| - 1;
    var p, q := AbsorbAll(perm, s, xs[..a]), AbsorbAll(perm, t, ys[..b]);
    var v, w := Absorb(p, xs[a]), Absorb(q, ys[b]);
    var vs, ws := Visited(perm, s, xs[..a]), Visited(perm, t, ys[..b]);
    assert xs == xs[..a] + [xs[a]] && ys == ys[..b] + [ys[b]];
    RunEnds(perm, s, xs);
    RunEnds(perm, t, ys);
    if v != w {
      LastStatesMeet(perm, vs, v, ws, w, s.capacity, t.capacity);
    } else {
      AbsorbCancels(p, xs[a], q, ys[b]);
      if a == 0 || b == 0 {
        StartIsHit(perm, s, xs, t, ys);
      } else {
        RunsCollide(perm, s, xs[..a], t, ys[..b]);
        CollidesGrows(perm, vs, v, ws, w, s.capacity, t.capacity);
      }
    }
  }

  lemma {:induction false} LastStatesMeet(perm: Permutation, vs: seq<State>, v: State, ws: seq<State>, w: State,
          iv: felt,
          jv: felt)
    requires Meets(perm, v, w)
    ensures Collides(perm, vs + [v], ws + [w], iv, jv)
  {
    hide Meets;
    assert (vs + [v])[|vs|] == v && (ws + [w])[|ws|] == w;
  }

  /** One run is at its first block while the other is not: its initial capacity has been hit. */
  lemma {:induction false} StartIsHit(perm: Permutation, s: State, xs: seq<seq<felt>>, t: State, ys: seq<seq<felt>>)
    requires xs != [] && ys != [] && (|xs| == 1 || |ys| == 1)
    requires s != t || xs != ys
    requires s.capacity == t.capacity ==> s == t
    requires var p, q := AbsorbAll(perm, s, xs[..|xs| - 1]), AbsorbAll(perm, t, ys[..|ys| - 1]);
             p.capacity == q.capacity && (p == q ==> xs[|xs| - 1] == ys[|ys| - 1])
    ensures Collides(perm, Visited(perm, s, xs), Visited(perm, t, ys), s.capacity, t.capacity)
  {
    hide Absorb, Visited, Meets;
    var a, b := |xs| - 1, |ys| - 1;
    assert xs == xs[..a] + [xs[a]] && ys == ys[..b] + [ys[b]];
    RunEnds(perm, s, xs);
    RunEnds(perm, t, ys);
    var vs, ws := Visited(perm, s, xs), Visited(perm, t, ys);
    if a > 0 {
      RunEnds(perm, s, xs[..a]);
      assert perm(vs[a - 1]).capacity == t.capacity;
    } else if b > 0 {
      RunEnds(perm, t, ys[..b]);
      assert perm(ws[b - 1]).capacity == s.capacity;
    }
  }

  /**
   Whoever finds two uses of the hash with one digest has found, among the states that computing the two
   visits, either two different ones that the permutation sends to one squeezed value or one capacity,
   or one that it sends to an initial capacity. Equal encodings are the only other way.
   */
  lemma {:induction false} HashCollisionIsPermutations(perm: Permutation, a: seq<felt>, m: u32, b: seq<felt>, n: u32)
    requires m <= |a| && n <= |b|
    requires SpongeHash(perm, a, m) == SpongeHash(perm, b, n)
    ensures var s, t := State(0, 0, 0, Iv(m)), State(0, 0, 0, Iv(n));
            var xs, ys := Encoding(a, m).1, Encoding(b, n).1;
            (m == n && a[..m] == b[..n] && (m == |a| <==> n == |b|))
            || Collides(perm, Visited(perm, s, xs), Visited(perm, t, ys), Iv(m), Iv(n))
  {
    hide AbsorbAll, Blocks, Collides, Visited, Iv, Message;
    var s, t := State(0, 0, 0, Iv(m)), State(0, 0, 0, Iv(n));
    var xs, ys := Encoding(a, m).1, Encoding(b, n).1;
    PaddingIsInvisible(perm, s, Blocks(Message(a, m)));
    PaddingIsInvisible(perm, t, Blocks(Message(b, n)));
    EncodingInjective(a, m, b, n);
    if Encoding(a, m) != Encoding(b, n) {
      RunsCollide(perm, s, xs, t, ys);
    }
  }

  // ---------------------------------------------------------------------------
  // Ciphertext packing
  // ---------------------------------------------------------------------------

  const DOM_CIPHERTEXT_TAG: felt := 4
  const CHUNK: nat := 31

  lemma {:induction false} Pow256Monotone(a: nat, b: nat)
    requires a <= b
    ensures Pow256(a) <= Pow256(b)
  {
    if a > 0 {
      Pow256Monotone(a - 1, b - 1);
    } else if b > 0 {
      Pow256Monotone(0, b - 1);
    }
  }

  /** 31 bytes always stay below the field order: no reduction happens. */
  lemma {:induction false} ChunkFits(bytes: seq<byte>)
    requires |bytes| <= CHUNK
    ensures LeVal(bytes) < P
  {
    LeValBound(bytes);
    Pow256Monotone(|bytes|, CHUNK);
    Pow256Literals();
  }

  lemma {:induction false} TrailingZeros(bytes: seq<byte>, pad: seq<byte>)
    requires forall i :: 0 <= i < |pad| ==> pad[i] == 0
    ensures LeVal(bytes + pad) == LeVal(bytes)
    decreases |bytes| + |pad|
  {
    if bytes == [] {
      assert bytes + pad == pad;
      if pad != [] {
        TrailingZeros([], pad[1..]);
        assert [] + pad[1..] == pad[1..];
      }
    } else {
      TrailingZeros(bytes[1..], pad);
      assert (bytes + pad)[1..] == bytes[1..] + pad;
    }
  }

  /** The 31-byte chunks as field elements. */
  function Chunks(bytes: seq<byte>): seq<felt> {
    if bytes == [] then []
    else if |bytes| <= CHUNK then ChunkFits(bytes); [LeVal(bytes)]
    else ChunkFits(bytes[..CHUNK]); [LeVal(bytes[..CHUNK])] + Chunks(bytes[CHUNK..])
  }

  /** The vector handed to the sponge: domain, byte length, chunks. */
  function Pack(bytes: seq<byte>): seq<felt> {
    [DOM_CIPHERTEXT_TAG, |bytes| % TWO_64] + Chunks(bytes)
  }

  function UnpackChunks(chunks: seq<felt>, len: nat): seq<byte>
    decreases len
  {
    if len == 0 || chunks == [] then []
    else if len <= CHUNK then LeBytes(chunks[0], len)
    else LeBytes(chunks[0], CHUNK) + UnpackChunks(chunks[1..], len - CHUNK)
  }

  function Unpack(packed: seq<felt>): seq<byte>
    requires |packed| >= 2
  {
    UnpackChunks(packed[2..], packed[1])
  }

  lemma {:induction false} ChunksRoundTrip(bytes: seq<byte>)
    ensures UnpackChunks(Chunks(bytes), |bytes|) == bytes
  {
    if bytes != [] {
      if |bytes| <= CHUNK {
        LeDecodeEncode(bytes);
      } else {
        LeDecodeEncode(bytes[..CHUNK]);
        ChunksRoundTrip(bytes[CHUNK..]);
        assert Chunks(bytes)[1..] == Chunks(bytes[CHUNK..]);
        assert bytes == bytes[..CHUNK] + bytes[CHUNK..];
      }
    }
  }

  /** The packed vector gives the bytes back, so distinct byte strings pack differently. */
  lemma {:induction false} PackRoundTrip(bytes: seq<byte>)
    requires |bytes| < TWO_64
    ensures Unpack(Pack(bytes)) == bytes
  {
    ChunksRoundTrip(bytes);
    assert Pack(bytes)[2..] == Chunks(bytes);
  }

  lemma {:induction false} PackInjective(a: seq<byte>, b: seq<byte>)
    requires |a| < TWO_64 && |b| < TWO_64
    requires Pack(a) == Pack(b)
    ensures a == b
  {
    PackRoundTrip(a);
    PackRoundTrip(b);
  }

  /** The 32-bit cast of the vector's length, as the sponge's message size. */
  function CastSize(bytes: seq<byte>): (n: u32)
    ensures n <= |Pack(bytes)|
  {
    |Pack(bytes)| % 0x1_0000_0000
  }

  /**
   From bytes to what the permutation sees: two byte strings look alike to the sponge exactly when
   they are equal, or when both vectors overflow the 32-bit cast and agree on the part that is
   absorbed. Below 2^32 vector elements the encoding is therefore injective.
   */
  lemma {:induction false} CiphertextEncodingInjective(a: seq<byte>, b: seq<byte>)
    requires |a| < TWO_64 && |b| < TWO_64
    ensures Encoding(Pack(a), CastSize(a)) == Encoding(Pack(b), CastSize(b)) <==>
      a == b ||
      (|Pack(a)| >= 0x1_0000_0000 && |Pack(b)| >= 0x1_0000_0000 && CastSize(a) == CastSize(b)
       && Pack(a)[..CastSize(a)] == Pack(b)[..CastSize(a)])
  {
    hide Pack, Encoding;
    var m, n := CastSize(a), CastSize(b);
    EncodingInjective(Pack(a), m, Pack(b), n);
    if Pack(a) == Pack(b) {
      PackInjective(a, b);
    }
    if m == |Pack(a)| && n == |Pack(b)| {
      assert Pack(a)[..m] == Pack(a) && Pack(b)[..n] == Pack(b);
    }
  }

  function Cut(bytes: seq<byte>, k: nat): nat {
    if CHUNK * k <= |bytes| then CHUNK * k else |bytes|
  }

  lemma {:induction false} DropThenSlice(s: seq<byte>, d: nat, lo: nat, hi: nat)
    requires lo <= hi && d + hi <= |s|
    ensures s[d..][lo..hi] == s[d + lo..d + hi]
  {
  }

  /** Chunk k extends the packing of the first k chunks. */
  /** Element by element: the domain, the byte length, then every 31 bytes as one little-endian number. */
  lemma {:induction false} PackShape(bytes: seq<byte>, k: nat)
    requires 31 * k < |bytes|
    ensures Pack(bytes)[0] == 4 && Pack(bytes)[1] == |bytes| % TWO_64
    ensures |Pack(bytes)| > 2 + k
    ensures Pack(bytes)[2 + k] == LeVal(bytes[31 * k..if 31 * k + 31 < |bytes| then 31 * k + 31 else |bytes|])
  {
    ChunkAt(bytes, k);
  }

  lemma {:induction false} ChunkAt(bytes: seq<byte>, k: nat)
    requires 31 * k < |bytes|
    ensures |Chunks(bytes)| > k
    ensures Chunks(bytes)[k] == LeVal(bytes[31 * k..if 31 * k + 31 < |bytes| then 31 * k + 31 else |bytes|])
  {
    hide LeVal;
    if k > 0 {
      var rest := bytes[CHUNK..];
      ChunkAt(rest, k - 1);
      var to := if 31 * k + 31 < |bytes| then 31 * k + 31 else |bytes|;
      assert bytes[31 * k..to] == rest[31 * (k - 1)..to - 31];
    } else {
      assert |bytes| <= 31 ==> bytes[0..|bytes|] == bytes;
      assert |bytes| > 31 ==> bytes[0..31] == bytes[..31];
    }
  }

  lemma {:induction false} ChunksAppend(bytes: seq<byte>, k: nat)
    requires CHUNK * k < |bytes|
    ensures LeVal(bytes[CHUNK * k..Cut(bytes, k + 1)]) < P
    ensures Chunks(bytes[..Cut(bytes, k + 1)])
         == Chunks(bytes[..CHUNK * k]) + [LeVal(bytes[CHUNK * k..Cut(bytes, k + 1)])]
  {
    var start, end := CHUNK * k, Cut(bytes, k + 1);
    ChunkFits(bytes[start..end]);
    if k == 0 {
      assert bytes[0..end] == bytes[..end];
    } else {
      var rest := bytes[CHUNK..];
      ChunksAppend(rest, k - 1);
      DropThenSlice(bytes, CHUNK, start - CHUNK, end - CHUNK);
      ChunksStep(bytes[..end]);
      assert bytes[..end][CHUNK..] == rest[..end - CHUNK] && bytes[..end][..CHUNK] == bytes[..CHUNK];
      ChunksStep(bytes[..start]);
      assert bytes[..start][CHUNK..] == rest[..start - CHUNK] && bytes[..start][..CHUNK] == bytes[..CHUNK];
    }
  }

  lemma {:induction false} ChunksStep(bytes: seq<byte>)
    requires |bytes| >= CHUNK
    ensures LeVal(bytes[..CHUNK]) < P
    ensures Chunks(bytes) == [LeVal(bytes[..CHUNK])] + Chunks(bytes[CHUNK..])
  {
    ChunkFits(bytes[..CHUNK]);
    if |bytes| == CHUNK {
      assert bytes[..CHUNK] == bytes && bytes[CHUNK..] == [];
    }
  }

  /**
   `ciphertext_hash`: fills one zeroed 32-byte buffer per chunk and hashes the vector. The
   length argument of the sponge is a 32-bit cast of the vector's length.
   */
  method CiphertextHash(perm: Permutation, bytes: seq<byte>) returns (digest: felt)
    ensures digest == SpongeHash(perm, Pack(bytes), CastSize(bytes))
  {
    var inputs: seq<felt> := [DOM_CIPHERTEXT_TAG, |bytes| % TWO_64];
    var chunkCount := (|bytes| + CHUNK - 1) / CHUNK;
    var i := 0;
    while i < chunkCount
      invariant i <= chunkCount
      invariant inputs == [DOM_CIPHERTEXT_TAG, |bytes| % TWO_64] + Chunks(bytes[..Cut(bytes, i)])
    {
      var start, end := CHUNK * i, Cut(bytes, i + 1);
      ChunksAppend(bytes, i);
      var zeros := seq(32 - (end - start), _ => 0);
      var le := bytes[start..end] + zeros;
      TrailingZeros(bytes[start..end], zeros);
      inputs := inputs + [LeVal(le) % P];
      i := i + 1;
    }
    assert bytes[..Cut(bytes, chunkCount)] == bytes;
    ghost var permutations;
    digest, permutations := Poseidon2HashNoir(perm, inputs, |inputs| % 0x1_0000_0000);
  }
}
