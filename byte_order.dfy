/**
 * Fixed-width integers and their network byte order (big-endian, as in
 * Appendix B of RFC 791), the layout every integer `operator<<` of the
 * output byte stream produces.
 */
module ByteOrder {

  newtype byte = x: int | 0 <= x < 0x100

  newtype int8 = x: int | -0x80 <= x < 0x80
  newtype uint8 = x: int | 0 <= x < 0x100
  newtype int16 = x: int | -0x8000 <= x < 0x8000
  newtype uint16 = x: int | 0 <= x < 0x1_0000
  newtype int32 = x: int | -0x8000_0000 <= x < 0x8000_0000
  newtype uint32 = x: int | 0 <= x < 0x1_0000_0000
  newtype int64 = x: int | -0x8000_0000_0000_0000 <= x < 0x8000_0000_0000_0000
  newtype uint64 = x: int | 0 <= x < 0x1_0000_0000_0000_0000

  /** The eight integer types the stream has an overload for. */
  datatype IntKind = Int8 | UInt8 | Int16 | UInt16 | Int32 | UInt32 | Int64 | UInt64 {

    /** `sizeof(T)`: the number of bytes written. */
    function Width(): nat {
      match this
      case Int8 | UInt8 => 1
      case Int16 | UInt16 => 2
      case Int32 | UInt32 => 4
      case Int64 | UInt64 => 8
    }

    predicate IsSigned() {
      Int8? || Int16? || Int32? || Int64?
    }

    /** 2 to the number of bits of the type. */
    function Modulus(): nat {
      match this
      case Int8 | UInt8 => 0x100
      case Int16 | UInt16 => 0x1_0000
      case Int32 | UInt32 => 0x1_0000_0000
      case Int64 | UInt64 => 0x1_0000_0000_0000_0000
    }

    /** The values of the type: two's complement range when signed. */
    predicate InRange(v: int) {
      if IsSigned() then -(Modulus() / 2) <= v < Modulus() / 2 else 0 <= v < Modulus()
    }
  }

  function Pow256(n: nat): (p: nat)
    ensures p > 0
  {
    if n == 0 then 1 else 256 * Pow256(n - 1)
  }

  lemma ModulusIsPow256(k: IntKind)
    ensures k.Modulus() == Pow256(k.Width())
  {
    assert Pow256(1) == 0x100;
    assert Pow256(2) == 0x1_0000;
    assert Pow256(3) == 0x100_0000;
    assert Pow256(4) == 0x1_0000_0000;
    assert Pow256(5) == 0x100_0000_0000;
    assert Pow256(6) == 0x1_0000_0000_0000;
    assert Pow256(7) == 0x100_0000_0000_0000;
    assert Pow256(8) == 0x1_0000_0000_0000_0000;
  }

  /** The last `n` base-256 digits of `v`, most significant first. */
  function BigEndian(v: nat, n: nat): (s: seq<byte>)
    ensures |s| == n
  {
    if n == 0 then [] else BigEndian(v / 256, n - 1) + [(v % 256) as byte]
  }

  /** Reads a big-endian unsigned number; a reference reader for the lemmas only. */
  ghost function FromBigEndian(s: seq<byte>): (v: nat)
    ensures v < Pow256(|s|)
  {
    if s == [] then 0 else FromBigEndian(s[..|s| - 1]) * 256 + s[|s| - 1] as nat
  }

  /** The bit pattern of `v` read as an unsigned number (two's complement). */
  function ToUnsigned(v: int, k: IntKind): (u: nat)
    requires k.InRange(v)
    ensures u < k.Modulus()
    ensures (v < 0) == (k.IsSigned() && u >= k.Modulus() / 2)
  {
    if v < 0 then v + k.Modulus() else v
  }

  /** Reads an unsigned bit pattern back as a value of type `k`. */
  ghost function FromUnsigned(u: nat, k: IntKind): int {
    if k.IsSigned() && u >= k.Modulus() / 2 then u - k.Modulus() else u
  }

  /** The bytes `writeIntegral` appends for `v` of type `k`: network byte order. */
  function NetworkOrder(v: int, k: IntKind): (s: seq<byte>)
    requires k.InRange(v)
    ensures |s| == k.Width()
  {
    BigEndian(ToUnsigned(v, k), k.Width())
  }

  /** Reads an integer of type `k` from exactly `sizeof(T)` network-order bytes. */
  ghost function DecodeIntegral(s: seq<byte>, k: IntKind): int
    requires |s| == k.Width()
  {
    FromUnsigned(FromBigEndian(s), k)
  }

  lemma {:induction false} BigEndianRoundTrip(v: nat, n: nat)
    requires v < Pow256(n)
    ensures FromBigEndian(BigEndian(v, n)) == v
  {
    if n > 0 {
      var s := BigEndian(v, n);
      assert s[..|s| - 1] == BigEndian(v / 256, n - 1);
      BigEndianRoundTrip(v / 256, n - 1);
    }
  }

  lemma DivDiv(v: nat, a: nat, b: nat)
    requires a > 0 && b > 0
    ensures v / a / b == v / (a * b)
  {
    var x := v / a;
    var y, r1, r2 := x / b, v % a, x % b;
    assert v == a * x + r1;
    assert x == b * y + r2;
    calc {
      v;
      a * x + r1;
      a * (b * y + r2) + r1;
      { Distribute(a, b * y, r2); }
      a * (b * y) + a * r2 + r1;
      { assert a * (b * y) == (a * b) * y; }
      (a * b) * y + (a * r2 + r1);
    }
    MulBelow(a, r2, b);
    DivUnique(v, a * b, y, a * r2 + r1);
  }

  lemma Distribute(a: int, x: int, y: int)
    ensures a * (x + y) == a * x + a * y
  {
  }

  /** `a * r + a <= a * b` when `r < b`. */
  lemma MulBelow(a: nat, r: nat, b: nat)
    requires r < b
    ensures a * r + a <= a * b
  {
    Distribute(a, r, 1);
    assert a * (r + 1) <= a * b by { MulMonotone(a, r + 1, b); }
  }

  lemma MulMonotone(a: nat, x: nat, y: nat)
    requires x <= y
    ensures a * x <= a * y
  {
    Distribute(a, x, y - x);
  }

  lemma DivUnique(v: nat, d: nat, q: nat, r: nat)
    requires d > 0 && r < d && v == d * q + r
    ensures v / d == q
  {
    var q', r' := v / d, v % d;
    assert v == d * q' + r';
    if q' < q {
      MulBelow(d, q', q);
    } else if q' > q {
      MulBelow(d, q, q');
    }
  }

  /** Byte `i` of the encoding is the base-256 digit of weight 256^(n-1-i). */
  lemma {:induction false} BigEndianDigit(v: nat, n: nat, i: nat)
    requires i < n
    ensures BigEndian(v, n)[i] as int == v / Pow256(n - 1 - i) % 256
  {
    if i < n - 1 {
      BigEndianDigit(v / 256, n - 1, i);
      DivDiv(v, 256, Pow256(n - 2 - i));
    }
  }

  /** Decoding what `writeIntegral` wrote gives the value back, for every width and signedness. */
  lemma NetworkOrderRoundTrip(v: int, k: IntKind)
    requires k.InRange(v)
    ensures DecodeIntegral(NetworkOrder(v, k), k) == v
  {
    ModulusIsPow256(k);
    BigEndianRoundTrip(ToUnsigned(v, k), k.Width());
  }

  /** Two different values of one type never produce the same bytes. */
  lemma NetworkOrderInjective(a: int, b: int, k: IntKind)
    requires k.InRange(a) && k.InRange(b)
    requires NetworkOrder(a, k) == NetworkOrder(b, k)
    ensures a == b
  {
    NetworkOrderRoundTrip(a, k);
    NetworkOrderRoundTrip(b, k);
  }

  /** The most significant byte comes first: byte `i` carries bits 8(w-1-i) .. 8(w-i)-1. */
  lemma NetworkOrderLayout(v: int, k: IntKind, i: nat)
    requires k.InRange(v) && i < k.Width()
    ensures NetworkOrder(v, k)[i] as int == ToUnsigned(v, k) / Pow256(k.Width() - 1 - i) % 256
  {
    BigEndianDigit(ToUnsigned(v, k), k.Width(), i);
  }

  /** The four bytes of a `uint32`, written out. */
  lemma UInt32Layout(v: uint32)
    ensures NetworkOrder(v as int, UInt32)
         == [(v as int / 0x100_0000) as byte, (v as int / 0x1_0000 % 256) as byte,
             (v as int / 0x100 % 256) as byte, (v as int % 256) as byte]
  {
    var s := NetworkOrder(v as int, UInt32);
    assert Pow256(3) == 0x100_0000 && Pow256(2) == 0x1_0000 && Pow256(1) == 0x100;
    NetworkOrderLayout(v as int, UInt32, 0);
    NetworkOrderLayout(v as int, UInt32, 1);
    NetworkOrderLayout(v as int, UInt32, 2);
    NetworkOrderLayout(v as int, UInt32, 3);
  }

  /** For a signed type the sign bit is the top bit of the first byte. */
  lemma SignInFirstByte(v: int, k: IntKind)
    requires k.IsSigned() && k.InRange(v)
    ensures NetworkOrder(v, k)[0] >= 0x80 <==> v < 0
  {
    var u, p := ToUnsigned(v, k), Pow256(k.Width() - 1);
    ModulusIsPow256(k);
    assert k.Modulus() == 256 * p;
    NetworkOrderLayout(v, k, 0);
    DivBounds(u, p, 128);
    DivBounds(u, p, 256);
  }

  /** `u / p >= c` exactly when `u >= c * p`. */
  lemma DivBounds(u: nat, p: nat, c: nat)
    requires p > 0
    ensures u / p >= c <==> u >= c * p
  {
    var q, r := u / p, u % p;
    assert u == p * q + r;
    if q >= c {
      assert p * q >= p * c;
    } else {
      assert p * q <= p * (c - 1) == p * c - p;
    }
  }
}
