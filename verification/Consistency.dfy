/**
 The law the wallet asks of its encryption scheme is consistent: field-element terms are written
 as bytes without loss, and the scheme that sends the note in clear satisfies the law.
 */
module Consistency {
  import opened Words
  import opened Field
  import opened Wallet

  function Unary(n: nat): seq<byte> {
    if n == 0 then [0] else [1] + Unary(n - 1)
  }

  ghost function Write(f: Fr): seq<byte>
    decreases f, 1, 0
  {
    match f
    case Num(n) => [2] + Unary(n)
    case Hash(v) => [3] + WriteInputs(v)
    case CoordX(m) => [4] + WriteScalars(f, m)
  }

  ghost function WriteInputs(v: Inputs): seq<byte>
    decreases v, 1, 0
  {
    match v
    case End => [5]
    case In(head, tail) => [6] + Write(head) + WriteInputs(tail)
  }

  /** The scalars in some order. */
  ghost function WriteScalars(f: Fr, m: multiset<Fr>): seq<byte>
    requires f.CoordX? && m <= f.scalars
    decreases f, 0, |m|
  {
    if m == multiset{} then [5]
    else
      var x :| x in m;
      [6] + Write(x) + WriteScalars(f, m - multiset{x})
  }

  lemma {:induction false} UnaryReadable(a: nat, s: seq<byte>, b: nat, t: seq<byte>)
    requires Unary(a) + s == Unary(b) + t
    ensures a == b && s == t
  {
    var l, r := Unary(a) + s, Unary(b) + t;
    assert l[0] == (if a == 0 then 0 else 1) && r[0] == (if b == 0 then 0 else 1);
    if a == 0 {
      assert l[1..] == s && r[1..] == t;
    } else {
      assert l[1..] == Unary(a - 1) + s && r[1..] == Unary(b - 1) + t;
      UnaryReadable(a - 1, s, b - 1, t);
    }
  }

  lemma {:induction false} Tail(tag: byte, x: seq<byte>, s: seq<byte>)
    ensures ([tag] + x) + s == [tag] + (x + s)
    ensures (([tag] + x) + s)[0] == tag && (([tag] + x) + s)[1..] == x + s
  {
  }

  /** A term is read back from the front of any string that starts with it. */
  lemma {:induction false} Readable(a: Fr, s: seq<byte>, b: Fr, t: seq<byte>)
    requires Write(a) + s == Write(b) + t
    ensures a == b && s == t
    decreases a, 1, 0
  {
    match a {
      case Num(n) =>
        Tail(2, Unary(n), s);
        FirstByte(b, t);
        Tail(2, Unary(b.n), t);
        UnaryReadable(n, s, b.n, t);
      case Hash(v) =>
        Tail(3, WriteInputs(v), s);
        FirstByte(b, t);
        Tail(3, WriteInputs(b.inputs), t);
        InputsReadable(v, s, b.inputs, t);
      case CoordX(m) =>
        Tail(4, WriteScalars(a, m), s);
        FirstByte(b, t);
        Tail(4, WriteScalars(b, b.scalars), t);
        ScalarsReadable(a, m, s, b, b.scalars, t);
    }
  }

  lemma {:induction false} FirstByte(b: Fr, t: seq<byte>)
    ensures (Write(b) + t)[0] == if b.Num? then 2 else if b.Hash? then 3 else 4
  {
  }

  lemma {:induction false} TwoParts(tag: byte, x: seq<byte>, y: seq<byte>, s: seq<byte>)
    ensures ([tag] + x + y + s)[0] == tag && ([tag] + x + y + s)[1..] == x + (y + s)
  {
    assert [tag] + x + y + s == [tag] + (x + (y + s));
  }

  lemma {:induction false} InputsReadable(v: Inputs, s: seq<byte>, w: Inputs, t: seq<byte>)
    requires WriteInputs(v) + s == WriteInputs(w) + t
    ensures v == w && s == t
    decreases v, 1, 0
  {
    hide Write;
    InputsStart(v, s);
    InputsStart(w, t);
    if v.In? {
      hide WriteInputs;
      Readable(v.head, WriteInputs(v.tail) + s, w.head, WriteInputs(w.tail) + t);
      InputsReadable(v.tail, s, w.tail, t);
    }
  }

  lemma {:induction false} InputsStart(v: Inputs, s: seq<byte>)
    ensures (WriteInputs(v) + s)[0] == if v.End? then 5 else 6
    ensures (WriteInputs(v) + s)[1..] == if v.End? then s else Write(v.head) + (WriteInputs(v.tail) + s)
  {
    hide Write;
    match v {
      case End => assert ([5] + s)[1..] == s;
      case In(head, tail) => TwoParts(6, Write(head), WriteInputs(tail), s);
    }
  }

  lemma {:induction false} ScalarsStart(f: Fr, m: multiset<Fr>, s: seq<byte>) returns (x: Fr)
    requires f.CoordX? && m <= f.scalars
    ensures (WriteScalars(f, m) + s)[0] == if m == multiset{} then 5 else 6
    ensures m == multiset{} ==> (WriteScalars(f, m) + s)[1..] == s
    ensures m != multiset{} ==>
      x in m && (WriteScalars(f, m) + s)[1..] == Write(x) + (WriteScalars(f, m - multiset{x}) + s)
  {
    hide Write;
    if m == multiset{} {
      x := ZERO;
      assert ([5] + s)[1..] == s;
    } else {
      x :| x in m && WriteScalars(f, m) == [6] + Write(x) + WriteScalars(f, m - multiset{x});
      TwoParts(6, Write(x), WriteScalars(f, m - multiset{x}), s);
    }
  }

  lemma {:induction false} ScalarsReadable(f: Fr, m: multiset<Fr>, s: seq<byte>, g: Fr, n: multiset<Fr>, t: seq<byte>)
    requires f.CoordX? && m <= f.scalars && g.CoordX? && n <= g.scalars
    requires WriteScalars(f, m) + s == WriteScalars(g, n) + t
    ensures m == n && s == t
    decreases f, 0, |m|
  {
    hide Write, WriteScalars;
    var x := ScalarsStart(f, m, s);
    var y := ScalarsStart(g, n, t);
    if m != multiset{} {
      assert x in f.scalars;
      Readable(x, WriteScalars(f, m - multiset{x}) + s, y, WriteScalars(g, n - multiset{y}) + t);
      ScalarsReadable(f, m - multiset{x}, s, g, n - multiset{y}, t);
      assert m == (m - multiset{x}) + multiset{x} && n == (n - multiset{y}) + multiset{y};
    }
  }

  ghost function Plaintext(note: Note): seq<byte> { Write(note.Commitment()) }

  ghost function Parse(b: seq<byte>): (r: Option<Note>)
    ensures r.Some? ==> Plaintext(r.value) == b
    ensures r.None? ==> forall note: Note :: Plaintext(note) != b
  {
    if note: Note :| Plaintext(note) == b then Some(note) else None
  }

  lemma {:induction false} ParsePlaintext(note: Note)
    ensures Parse(Plaintext(note)) == Some(note)
  {
    hide Write;
    var other := Parse(Plaintext(note)).value;
    Readable(other.Commitment(), [], note.Commitment(), []);
    CommitmentInjective(other, note);
  }

  /** Some scheme decrypts every note with the right key and diversifier. */
  lemma {:induction false} CorrectIsConsistent()
    ensures exists e: Encryption :: Correct(e)
  {
    var e := Encryption((note: Note, to: Address, coins: nat) => (Plaintext(note), []),
                        (ct: seq<byte>, sk: Fr, index: u64) => Parse(ct));
    forall note: Note, sk: Fr, coins: nat | OwnedBy(note, sk)
      ensures e.decrypt(e.encrypt(note, AddressOf(sk, note.diversifierIndex), coins).0, sk, note.diversifierIndex)
              == Some(note)
    {
      ParsePlaintext(note);
    }
    assert Correct(e);
  }
}
