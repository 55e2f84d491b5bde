/** Bytes, byte strings and the little-endian integers the wire formats are made of. */
module Bytes {
  type byte = b: int | 0 <= b < 256

  datatype Option<+T> = None | Some(value: T)

  const CR: byte := 13
  const LF: byte := 10
  const CRLF: seq<byte> := [CR, LF]

  predicate IsAscii(s: string) {
    forall i :: 0 <= i < |s| ==> s[i] as int < 128
  }

  /** A text as it stands in a message. */
  function Ascii(s: string): (b: seq<byte>)
    requires IsAscii(s)
    ensures |b| == |s|
  {
    seq(|s|, i requires 0 <= i < |s| => s[i] as int)
  }

  /** The byte string that arrives when the chunks are received one after the other. */
  function Concat(chunks: seq<seq<byte>>): seq<byte> {
    if chunks == [] then [] else chunks[0] + Concat(chunks[1..])
  }

  lemma {:induction false} ConcatAppend(a: seq<seq<byte>>, b: seq<seq<byte>>)
    ensures Concat(a + b) == Concat(a) + Concat(b)
  {
    if a == [] {
      assert a + b == b;
    } else {
      assert (a + b)[1..] == a[1..] + b;
      ConcatAppend(a[1..], b);
    }
  }

  // ---------- integers on the wire ----------

  function Pow256(k: nat): (p: nat)
    ensures p > 0
  {
    if k == 0 then 1 else 256 * Pow256(k - 1)
  }

  lemma Powers()
    ensures Pow256(1) == 0x100 && Pow256(2) == 0x1_0000
    ensures Pow256(4) == 0x1_0000_0000 && Pow256(8) == 0x1_0000_0000_0000_0000
  {
  }

  /** The k low bytes of v, least significant first: a k-byte store of v, truncating as the C++ casts do. */
  function LE(v: nat, k: nat): (b: seq<byte>)
    ensures |b| == k
  {
    if k == 0 then [] else [v % 256] + LE(v / 256, k - 1)
  }

  /** The unsigned integer a little-endian load reads from b. */
  function FromLE(b: seq<byte>): nat {
    if b == [] then 0 else b[0] + 256 * FromLE(b[1..])
  }

  /** A field of a byte string, as the integer stored there. */
  function Field(b: seq<byte>, from: nat, size: nat): nat
    requires from + size <= |b|
  {
    FromLE(b[from..from + size])
  }

  /** A load after a store gives the value modulo the width of the store. */
  lemma {:induction false} LoadAfterStore(v: nat, k: nat)
    ensures FromLE(LE(v, k)) == v % Pow256(k)
  {
    if k > 0 {
      LoadAfterStore(v / 256, k - 1);
      ModSplit(v, Pow256(k - 1));
    }
  }

  lemma ModSplit(v: nat, m: nat)
    requires m > 0
    ensures v % (256 * m) == v % 256 + 256 * ((v / 256) % m)
  {
    var q, r := (v / 256) / m, (v / 256) % m;
    var low := v % 256 + 256 * r;
    DivModUnique(v, 256 * m, q, low);
  }

  lemma DivModUnique(v: int, m: int, q: int, r: int)
    requires m > 0 && 0 <= r < m && v == q * m + r
    ensures v / m == q && v % m == r
  {
    var d := v / m - q;
    assert d * m == r - v % m;
  }

  lemma {:induction false} LoadBound(b: seq<byte>)
    ensures FromLE(b) < Pow256(|b|)
  {
    if b != [] {
      LoadBound(b[1..]);
    }
  }

  /** A store after a load gives the bytes back. */
  lemma {:induction false} StoreAfterLoad(b: seq<byte>)
    ensures LE(FromLE(b), |b|) == b
  {
    if b != [] {
      StoreAfterLoad(b[1..]);
      DivModUnique(FromLE(b), 256, FromLE(b[1..]), b[0]);
    }
  }

  /** The load of a whole field that fits its width. */
  lemma LoadField(v: nat, k: nat)
    requires v < Pow256(k)
    ensures FromLE(LE(v, k)) == v
  {
  }

  /** Byte i of a stored integer, as a shift and a mask read it. */
  lemma {:induction false} ByteOf(v: nat, k: nat, i: nat)
    requires i < k
    ensures LE(v, k)[i] == (v / Pow256(i)) % 256
  {
    if i > 0 {
      ByteOf(v / 256, k - 1, i - 1);
      DivDiv(v, 256, Pow256(i - 1));
    }
  }

  lemma DivDiv(v: nat, a: nat, b: nat)
    requires a > 0 && b > 0
    ensures a * b > 0 && (v / a) / b == v / (a * b)
  {
    var q, r := (v / a) / b, (v / a) % b;
    assert a * r <= a * (b - 1) == a * b - a;
    DivModUnique(v, a * b, q, a * r + v % a);
  }

  // ---------- decimal numbers ----------

  predicate IsDigit(b: byte) {
    48 <= b <= 57
  }

  function DecimalValue(s: seq<byte>): nat
    requires forall i :: 0 <= i < |s| ==> IsDigit(s[i])
  {
    if s == [] then 0
    else
      assert IsDigit(s[|s| - 1]);
      10 * DecimalValue(s[..|s| - 1]) + (s[|s| - 1] as int - 48)
  }

  function Decimal(n: nat): (s: seq<byte>)
    ensures |s| > 0 && forall i :: 0 <= i < |s| ==> IsDigit(s[i])
  {
    if n < 10 then [48 + n] else Decimal(n / 10) + [48 + n % 10]
  }

  /** Digits are written as the characters they are, the most significant first. */
  lemma DecimalWritten(n: nat)
    ensures n < 10 ==> Decimal(n) == [Ascii("0123456789")[n]]
    ensures n >= 10 ==> Decimal(n) == Decimal(n / 10) + Decimal(n % 10)
    ensures forall b: byte :: IsDigit(b) <==> b in Ascii("0123456789")
  {
    var digits := Ascii("0123456789");
    assert forall i :: 0 <= i < 10 ==> digits[i] == 48 + i;
    forall b: byte
      ensures IsDigit(b) <==> b in digits
    {
      if IsDigit(b) {
        assert digits[b as int - 48] == b;
      }
    }
  }

  lemma {:induction false} DecimalRead(n: nat)
    ensures DecimalValue(Decimal(n)) == n
  {
    if n >= 10 {
      DecimalRead(n / 10);
    }
  }
}
