/** Little- and big-endian byte strings, and the 32-byte form of field elements. */
module Bytes {
  import opened Words

  type Bytes32 = s: seq<byte> | |s| == 32
    witness [0, 0, 0, 0, 0, 0, 0, 0, 0, 0, 0, 0, 0, 0, 0, 0, 0, 0, 0, 0, 0, 0, 0, 0, 0, 0, 0, 0, 0, 0, 0, 0]

  const ZERO_32: Bytes32 :=
    [0, 0, 0, 0, 0, 0, 0, 0, 0, 0, 0, 0, 0, 0, 0, 0, 0, 0, 0, 0, 0, 0, 0, 0, 0, 0, 0, 0, 0, 0, 0, 0]

  function Pow256(n: nat): (p: nat)
    ensures p > 0
  {
    if n == 0 then 1 else 256 * Pow256(n - 1)
  }

  function LeVal(s: seq<byte>): nat {
    if s == [] then 0 else s[0] + 256 * LeVal(s[1..])
  }

  function LeBytes(v: nat, n: nat): (s: seq<byte>)
    ensures |s| == n
  {
    if n == 0 then [] else [v % 256] + LeBytes(v / 256, n - 1)
  }

  function BeVal(s: seq<byte>): nat {
    if s == [] then 0 else 256 * BeVal(s[..|s| - 1]) + s[|s| - 1]
  }

  function BeBytes(v: nat, n: nat): (s: seq<byte>)
    ensures |s| == n
  {
    if n == 0 then [] else BeBytes(v / 256, n - 1) + [v % 256]
  }

  lemma {:induction false} LeValBound(s: seq<byte>)
    ensures LeVal(s) < Pow256(|s|)
  {
    if s != [] { LeValBound(s[1..]); }
  }

  lemma {:induction false} LeDecodeEncode(s: seq<byte>)
    ensures LeBytes(LeVal(s), |s|) == s
  {
    if s != [] {
      LeDecodeEncode(s[1..]);
      assert LeVal(s) % 256 == s[0] && LeVal(s) / 256 == LeVal(s[1..]);
    }
  }

  lemma {:induction false} LeEncodeDecode(v: nat, n: nat)
    requires v < Pow256(n)
    ensures LeVal(LeBytes(v, n)) == v
  {
    if n > 0 { LeEncodeDecode(v / 256, n - 1); }
  }

  lemma {:induction false} BeValBound(s: seq<byte>)
    ensures BeVal(s) < Pow256(|s|)
  {
    if s != [] { BeValBound(s[..|s| - 1]); }
  }

  lemma {:induction false} BeDecodeEncode(s: seq<byte>)
    ensures BeBytes(BeVal(s), |s|) == s
  {
    if s != [] {
      BeDecodeEncode(s[..|s| - 1]);
      assert BeVal(s) % 256 == s[|s| - 1] && BeVal(s) / 256 == BeVal(s[..|s| - 1]);
    }
  }

  lemma {:induction false} BeEncodeDecode(v: nat, n: nat)
    requires v < Pow256(n)
    ensures BeVal(BeBytes(v, n)) == v
  {
    if n > 0 {
      BeEncodeDecode(v / 256, n - 1);
      var s := BeBytes(v, n);
      assert s[..n - 1] == BeBytes(v / 256, n - 1);
    }
  }

  /** The big-endian string is the little-endian one read backwards. */
  lemma {:induction false} BeReversesLe(v: nat, n: nat, i: nat)
    requires i < n
    ensures BeBytes(v, n)[n - 1 - i] == LeBytes(v, n)[i]
  {
    if i > 0 { BeReversesLe(v / 256, n - 1, i - 1); }
  }

  lemma {:induction false} Pow256Add(a: nat, b: nat)
    ensures Pow256(a + b) == Pow256(a) * Pow256(b)
  {
    if a > 0 {
      Pow256Add(a - 1, b);
      assert Pow256(a + b) == 256 * Pow256(a + b - 1);
      assert 256 * (Pow256(a - 1) * Pow256(b)) == (256 * Pow256(a - 1)) * Pow256(b);
    }
  }

  lemma {:induction false} Scale(p: nat, low: nat, high: nat)
    ensures 256 * (low + p * high) == 256 * low + (256 * p) * high
  {
  }

  lemma {:induction false} LeHead(s: seq<byte>)
    requires s != []
    ensures LeVal(s) == s[0] + 256 * LeVal(s[1..])
  {
  }

  lemma {:induction false} BeLast(s: seq<byte>)
    requires s != []
    ensures BeVal(s) == 256 * BeVal(s[..|s| - 1]) + s[|s| - 1]
  {
  }

  lemma {:induction false} SmallValues(s: seq<byte>)
    ensures LeVal([]) == 0 == BeVal([])
    ensures |s| == 1 ==> LeVal(s) == s[0] == BeVal(s)
  {
  }

  /** Little endian: what follows the first i bytes weighs 256^i. */
  lemma {:induction false} LePlaces(s: seq<byte>, i: nat)
    requires i <= |s|
    ensures LeVal(s) == LeVal(s[..i]) + Pow256(i) * LeVal(s[i..])
  {
    hide LeVal;
    SmallValues(s);
    if i == 0 {
      assert s[0..] == s && s[..0] == [];
    } else {
      var rest := s[1..];
      LePlaces(rest, i - 1);
      LeHead(s);
      LeHead(s[..i]);
      assert s[..i][1..] == rest[..i - 1] && s[i..] == rest[i - 1..];
      Scale(Pow256(i - 1), LeVal(rest[..i - 1]), LeVal(s[i..]));
    }
  }

  /** Big endian: the first i bytes weigh 256 to the number of bytes that follow. */
  lemma {:induction false} BePlaces(s: seq<byte>, i: nat)
    requires i <= |s|
    ensures BeVal(s) == BeVal(s[i..]) + Pow256(|s| - i) * BeVal(s[..i])
  {
    hide BeVal;
    SmallValues(s);
    if i == |s| {
      assert s[..i] == s && s[i..] == [];
    } else {
      var k := |s| - 1;
      var rest := s[..k];
      BePlaces(rest, i);
      BeLast(s);
      BeLast(s[i..]);
      assert s[i..][..|s| - i - 1] == rest[i..] && rest[..i] == s[..i];
      Scale(Pow256(k - i), BeVal(rest[i..]), BeVal(s[..i]));
    }
  }

  lemma {:induction false} Pow256Literals()
    ensures Pow256(2) == 0x1_0000
    ensures Pow256(4) == 0x1_0000_0000
    ensures Pow256(8) == TWO_64
    ensures Pow256(31) < P < Pow256(32)
  {
    assert Pow256(1) == 256;
    assert Pow256(2) == 0x1_0000;
    Pow256Add(2, 2);
    Pow256Add(4, 4);
    Pow256Add(8, 8);
    Pow256Add(16, 8);
    Pow256Add(24, 4);
    Pow256Add(28, 2);
    Pow256Add(30, 1);
    Pow256Add(31, 1);
    assert Pow256(16) == 0x1_0000_0000_0000_0000_0000_0000_0000_0000;
    assert Pow256(24) == 0x1_0000_0000_0000_0000_0000_0000_0000_0000_0000_0000_0000_0000;
  }

  // ---------------------------------------------------------------------------
  // Field elements as 32 big-endian bytes (client/src/hash.rs)
  // ---------------------------------------------------------------------------

  function FieldBytes(f: felt): Bytes32 { BeBytes(f, 32) }

  function FieldFromBytes(bytes: Bytes32): felt { BeVal(bytes) % P }

  method FieldToBytes(f: felt) returns (bytes: Bytes32)
    ensures bytes == FieldBytes(f)
  {
    var le := LeBytes(f, 32);
    var out: array<byte> := new byte[32](_ => 0);
    var i := 0;
    while i < |le|
      invariant i <= 32 && |le| == 32
      invariant forall j :: 0 <= j < i ==> out[31 - j] == le[j]
    {
      if i < 32 {
        out[31 - i] := le[i];
      }
      i := i + 1;
    }
    bytes := out[..];
    forall k | 0 <= k < 32 ensures bytes[k] == FieldBytes(f)[k] {
      BeReversesLe(f, 32, 31 - k);
      assert bytes[k] == out[31 - (31 - k)];
    }
  }

  lemma {:induction false} FieldRoundTrip(f: felt)
    ensures FieldFromBytes(FieldBytes(f)) == f
  {
    FieldBytesValue(f);
  }

  /** Reading back is lossless exactly for canonical encodings; others are reduced. */
  lemma {:induction false} BytesRoundTrip(b: Bytes32)
    ensures FieldBytes(FieldFromBytes(b)) == b <==> BeVal(b) < P
  {
    var f: felt := FieldFromBytes(b);
    if BeVal(b) < P {
      assert f == BeVal(b);
      BeDecodeEncode(b);
    } else {
      FieldBytesValue(f);
    }
  }

  lemma {:induction false} FieldBytesValue(f: felt)
    ensures BeVal(FieldBytes(f)) == f
  {
    Pow256Literals();
    BeEncodeDecode(f, 32);
  }

  // ---------------------------------------------------------------------------
  // Public recipient as four little-endian limbs (client/src/tx_binding.rs)
  // ---------------------------------------------------------------------------

  type Limbs = s: seq<u64> | |s| == 4 witness [0, 0, 0, 0]

  lemma {:induction false} LeWordFits(s: seq<byte>)
    requires |s| == 8
    ensures LeVal(s) < TWO_64
  {
    LeValBound(s);
    Pow256Literals();
  }

  function RecipientLimbs(r: Bytes32): Limbs {
    LeWordFits(r[0..8]); LeWordFits(r[8..16]); LeWordFits(r[16..24]); LeWordFits(r[24..32]);
    [LeVal(r[0..8]), LeVal(r[8..16]), LeVal(r[16..24]), LeVal(r[24..32])]
  }

  function RecipientBytes(limbs: Limbs): Bytes32 {
    LeBytes(limbs[0], 8) + LeBytes(limbs[1], 8) + LeBytes(limbs[2], 8) + LeBytes(limbs[3], 8)
  }

  method RecipientToLimbs(recipient: Bytes32) returns (limbs: Limbs)
    ensures limbs == RecipientLimbs(recipient)
  {
    var out := new u64[4](_ => 0);
    var i := 0;
    while i < 4
      invariant i <= 4
      invariant forall j :: 0 <= j < i ==> out[j] == RecipientLimbs(recipient)[j]
    {
      LeWordFits(recipient[8 * i..8 * i + 8]);
      out[i] := LeVal(recipient[8 * i..8 * i + 8]);
      i := i + 1;
    }
    limbs := out[..];
  }

  method RecipientFromLimbs(limbs: Limbs) returns (recipient: Bytes32)
    ensures recipient == RecipientBytes(limbs)
  {
    var out: seq<byte> := [];
    var i := 0;
    while i < 4
      invariant i <= 4 && |out| == 8 * i
      invariant out == RecipientBytes(limbs)[..8 * i]
    {
      out := out + LeBytes(limbs[i], 8);
      i := i + 1;
    }
    recipient := out;
  }

  lemma {:induction false} LimbsToBytesAndBack(limbs: Limbs)
    ensures RecipientLimbs(RecipientBytes(limbs)) == limbs
  {
    var b := RecipientBytes(limbs);
    assert b[0..8] == LeBytes(limbs[0], 8);
    assert b[8..16] == LeBytes(limbs[1], 8);
    assert b[16..24] == LeBytes(limbs[2], 8);
    assert b[24..32] == LeBytes(limbs[3], 8);
    forall i | 0 <= i < 4 ensures LeVal(LeBytes(limbs[i], 8)) == limbs[i] {
      LimbFits(limbs[i]);
    }
  }

  lemma {:induction false} LimbFits(limb: u64)
    ensures LeVal(LeBytes(limb, 8)) == limb
  {
    Pow256Literals();
    LeEncodeDecode(limb, 8);
  }

  lemma {:induction false} BytesToLimbsAndBack(r: Bytes32)
    ensures RecipientBytes(RecipientLimbs(r)) == r
  {
    LeDecodeEncode(r[0..8]);
    LeDecodeEncode(r[8..16]);
    LeDecodeEncode(r[16..24]);
    LeDecodeEncode(r[24..32]);
    assert r == r[0..8] + r[8..16] + r[16..24] + r[24..32];
  }

  /** The limb encoding loses nothing, in either direction. */
  /** Limb j is the j-th group of eight bytes, read little endian. */
  lemma {:induction false} LimbsAreWords(r: Bytes32, j: nat)
    requires j < 4
    ensures RecipientLimbs(r)[j] == LeVal(r[8 * j..8 * j + 8])
  {
    hide LeVal;
  }

  lemma {:induction false} RecipientLimbsInverse(r: Bytes32, limbs: Limbs)
    ensures RecipientBytes(RecipientLimbs(r)) == r
    ensures RecipientLimbs(RecipientBytes(limbs)) == limbs
  {
    BytesToLimbsAndBack(r);
    LimbsToBytesAndBack(limbs);
  }
}
