/** Byte strings as Go sees them, 64-bit integers with wrap-around, and the
    length-prefixed framing the audit log hashes. */
module Framing {
  import opened Options

  type Byte = b: int | 0 <= b < 256

  const TWO_63 := 0x8000_0000_0000_0000
  const TWO_64 := 0x1_0000_0000_0000_0000

  type Int64 = x: int | -TWO_63 <= x < TWO_63

  /** A Go string: its length is an `int`, so it stays below 2^63 bytes. */
  type Text = s: seq<Byte> | |s| < TWO_63 witness []

  /** The int64 that a 64-bit addition or conversion leaves behind. */
  function Wrap(x: int): (r: Int64)
    ensures (r - x) % TWO_64 == 0
  {
    var m := x % TWO_64;
    if m < TWO_63 then m else m - TWO_64
  }

  /** The `width` low-order base-256 digits of `v`, most significant first. */
  function BigEndian(v: nat, width: nat): (b: seq<Byte>)
    ensures |b| == width
  {
    if width == 0 then [] else BigEndian(v / 256, width - 1) + [v % 256]
  }

  /** `binary.BigEndian.PutUint64(uint64(v))`: conversion to uint64 wraps. */
  function Uint64(v: int): (b: seq<Byte>)
    ensures |b| == 8
  {
    BigEndian(v % TWO_64, 8)
  }

  function Pow256(n: nat): nat {
    if n == 0 then 1 else 256 * Pow256(n - 1)
  }

  lemma {:induction false} BigEndianInjective(v: nat, w: nat, width: nat)
    requires v < Pow256(width) && w < Pow256(width)
    requires BigEndian(v, width) == BigEndian(w, width)
    ensures v == w
  {
    if width > 0 {
      var a, b := BigEndian(v / 256, width - 1), BigEndian(w / 256, width - 1);
      assert (a + [v % 256])[..width - 1] == a && (b + [w % 256])[..width - 1] == b;
      assert (a + [v % 256])[width - 1] == v % 256 && (b + [w % 256])[width - 1] == w % 256;
      BigEndianInjective(v / 256, w / 256, width - 1);
    }
  }

  lemma Pow256Of8()
    ensures Pow256(8) == TWO_64
  {
    assert Pow256(4) == 0x1_0000_0000;
    assert Pow256(8) == 256 * (256 * (256 * (256 * Pow256(4))));
  }

  lemma Uint64Injective(v: int, w: int)
    requires Uint64(v) == Uint64(w)
    ensures v % TWO_64 == w % TWO_64
  {
    Pow256Of8();
    BigEndianInjective(v % TWO_64, w % TWO_64, 8);
  }

  /** One hashed field: its length as eight bytes, then its bytes. */
  function Field(s: Text): (b: seq<Byte>)
    ensures |b| == 8 + |s|
  {
    Uint64(|s|) + s
  }

  function Fields(fs: seq<Text>): seq<Byte> {
    if fs == [] then [] else Field(fs[0]) + Fields(fs[1..])
  }

  /** A field can be cut off the front of a byte stream in only one way. */
  lemma FieldPrefixFree(s: Text, t: Text, x: seq<Byte>, y: seq<Byte>)
    requires Field(s) + x == Field(t) + y
    ensures s == t && x == y
  {
    FieldParts(s, x);
    FieldParts(t, y);
    hide Field, Uint64;
    Uint64Injective(|s|, |t|);
    assert |s| == |t|;
  }

  lemma FieldParts(s: Text, x: seq<Byte>)
    ensures (Field(s) + x)[..8] == Uint64(|s|) && (Field(s) + x)[8..8 + |s|] == s && (Field(s) + x)[8 + |s|..] == x
  {
    hide Uint64;
  }

  lemma {:induction false} FieldsInjective(fs: seq<Text>, gs: seq<Text>)
    requires |fs| == |gs| && Fields(fs) == Fields(gs)
    ensures fs == gs
  {
    if fs != [] {
      FieldPrefixFree(fs[0], gs[0], Fields(fs[1..]), Fields(gs[1..]));
      FieldsInjective(fs[1..], gs[1..]);
      assert fs == [fs[0]] + fs[1..] && gs == [gs[0]] + gs[1..];
    }
  }

  // --- Reading back ------------------------------------------------------------------

  /** The number that bytes stand for, most significant first. */
  function Value(b: seq<Byte>): nat {
    if b == [] then 0 else Value(b[..|b| - 1]) * 256 + b[|b| - 1] as nat
  }

  lemma {:induction false} ValueOfBigEndian(v: nat, width: nat)
    requires v < Pow256(width)
    ensures Value(BigEndian(v, width)) == v
  {
    if width > 0 {
      ValueOfBigEndian(v / 256, width - 1);
      var b := BigEndian(v, width);
      assert b[..|b| - 1] == BigEndian(v / 256, width - 1);
    }
  }

  lemma ValueOfUint64(v: int)
    ensures Value(Uint64(v)) == v % TWO_64
  {
    Pow256Of8();
    ValueOfBigEndian(v % TWO_64, 8);
  }

  /** Reading an int64 written with PutUint64 gives it back. */
  lemma ReadInt64(v: Int64)
    ensures Wrap(Value(Uint64(v))) == v
  {
    ValueOfUint64(v);
  }

  /** The first field of a byte stream and what follows it. */
  function ReadField(b: seq<Byte>): Option<(seq<Byte>, seq<Byte>)> {
    if |b| < 8 || |b| - 8 < Value(b[..8]) then None
    else
      var n := Value(b[..8]);
      Some((b[8..8 + n], b[8 + n..]))
  }

  lemma ReadBackField(s: Text, rest: seq<Byte>)
    ensures ReadField(Field(s) + rest) == Some((s, rest))
  {
    FieldParts(s, rest);
    ValueOfUint64(|s|);
    hide Field, Uint64, Value;
  }

  /** So many fields, and nothing after them. */
  function ReadFields(b: seq<Byte>, n: nat): Option<seq<seq<Byte>>> {
    if n == 0 then if b == [] then Some([]) else None
    else
      match ReadField(b)
      case None => None
      case Some((s, rest)) =>
        match ReadFields(rest, n - 1)
        case None => None
        case Some(more) => Some([s] + more)
  }

  lemma {:induction false} ReadBackFields(fs: seq<Text>)
    ensures ReadFields(Fields(fs), |fs|) == Some(fs)
  {
    hide ReadField, Field;
    if fs != [] {
      ReadBackField(fs[0], Fields(fs[1..]));
      ReadBackFields(fs[1..]);
      assert [fs[0]] + fs[1..] == fs;
    }
  }
}
