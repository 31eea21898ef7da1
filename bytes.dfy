// Shared vocabulary of the Lancet model: octets, fixed-width integer
// wrap-around, little- and big-endian field codecs, ASCII text and decimal
// digits. Every wire format, buffer and counter of the model is built from
// these definitions.

module Common {
  datatype Option<T> = None | Some(value: T)

  /** The exceptions the manager's Python code can raise. */
  datatype PyError = AssertionError | AttributeError | ValueError | ZeroDivisionError | ExistentialError

  /** The outcome of a Python call: its value, or the exception it raised. */
  datatype Py<T> = Ok(value: T) | Raise(err: PyError)
}

module Bytes {

  /** One octet of a buffer, a packed struct or a socket stream. */
  type byte = x: int | 0 <= x < 256

  const TWO_8: nat := 0x100
  const TWO_16: nat := 0x1_0000
  const TWO_32: nat := 0x1_0000_0000
  const TWO_63: int := 0x8000_0000_0000_0000
  const TWO_64: nat := 0x1_0000_0000_0000_0000

  /** Storing an integer in an 8-bit unsigned field keeps it modulo 2^8. */
  function U8(x: int): (r: nat)
    ensures r < TWO_8
    ensures (r - x) % TWO_8 == 0
    ensures 0 <= x < TWO_8 ==> r == x
  {
    x % TWO_8
  }

  /** Storing an integer in a 16-bit unsigned field keeps it modulo 2^16. */
  function U16(x: int): (r: nat)
    ensures r < TWO_16
    ensures (r - x) % TWO_16 == 0
    ensures 0 <= x < TWO_16 ==> r == x
  {
    x % TWO_16
  }

  /** Storing an integer in a 32-bit unsigned field keeps it modulo 2^32. */
  function U32(x: int): (r: nat)
    ensures r < TWO_32
    ensures (r - x) % TWO_32 == 0
    ensures 0 <= x < TWO_32 ==> r == x
  {
    x % TWO_32
  }

  /** Storing an integer in a 64-bit unsigned field keeps it modulo 2^64. */
  function U64(x: int): (r: nat)
    ensures r < TWO_64
    ensures (r - x) % TWO_64 == 0
    ensures 0 <= x < TWO_64 ==> r == x
  {
    x % TWO_64
  }

  /** Reading a 64-bit pattern as a two's-complement signed integer. */
  function I64(x: nat): (r: int)
    requires x < TWO_64
    ensures -TWO_63 <= r < TWO_63
    ensures U64(r) == x
  {
    if x < TWO_63 then x else x - TWO_64
  }

  function Abs(x: int): nat { if x >= 0 then x else -x }

  /** Integer division rounding toward zero, as C, Go and Python's int(a / b)
      do; on a non-negative dividend and a positive divisor it agrees with
      Euclidean division. TruncDivBounds states what it computes in general. */
  function TruncDiv(a: int, b: int): (r: int)
    requires b != 0
    ensures a >= 0 && b > 0 ==> r == a / b
  {
    var q := Abs(a) / Abs(b);
    if (a >= 0) == (b > 0) then q else -q
  }

  /** Euclidean division of naturals leaves a remainder below the divisor. */
  lemma NatRemainder(x: nat, y: nat)
    requires y > 0
    ensures 0 <= (x / y) * y && 0 <= x - (x / y) * y < y
  {
  }

  /** A remainder with the sign of the dividend and a magnitude below |b|. */
  lemma SignedRemainder(a: int, b: int, rem: int, p: int)
    requires b != 0 && p >= 0 && 0 <= Abs(a) - p < Abs(b)
    requires rem == if a >= 0 then Abs(a) - p else p - Abs(a)
    ensures Abs(rem) < Abs(b) && (rem == 0 || (rem > 0 <==> a > 0))
  {
  }

  /** The quotient with the sign of a * b, times b, is |q * b| with the sign of a. */
  lemma QuotientTimesDivisor(a: int, b: int, q: int, r: int)
    requires b != 0 && r == if (a >= 0) == (b > 0) then q else -q
    ensures r * b == if a >= 0 then q * Abs(b) else -(q * Abs(b))
  {
    if a >= 0 && b > 0 {
    } else if a >= 0 {
      assert r * b == (-q) * (-(Abs(b) as int));
    } else if b > 0 {
      assert r * b == (-q) * Abs(b);
    } else {
      assert r * b == q * (-(Abs(b) as int));
    }
  }

  /** The remainder left by TruncDiv is smaller than the divisor and has the
      sign of the dividend: the quotient is rounded toward zero. */
  lemma TruncDivBounds(a: int, b: int)
    requires b != 0
    ensures Abs(a - TruncDiv(a, b) * b) < Abs(b)
    ensures a - TruncDiv(a, b) * b == 0 || (a - TruncDiv(a, b) * b > 0 <==> a > 0)
  {
    var x: int, y: int := Abs(a), Abs(b);
    var q := x / y;
    NatRemainder(x, y);
    var r := TruncDiv(a, b);
    QuotientTimesDivisor(a, b, q, r);
    SignedRemainder(a, b, a - r * b, q * y);
  }

  /** Python's int() and Go's conversion of a real number: drop the fraction. */
  function Trunc(x: real): (r: int)
    ensures x >= 0.0 ==> r as real <= x < r as real + 1.0
    ensures x < 0.0 ==> r as real - 1.0 < x <= r as real
  {
    if x >= 0.0 then x.Floor else -((-x).Floor)
  }

  function Pow256(n: nat): (r: nat)
    ensures r >= 1
  {
    if n == 0 then 1 else 256 * Pow256(n - 1)
  }

  /** The n low-order octets of x, least significant first. */
  function EncodeLE(x: nat, n: nat): (r: seq<byte>)
    ensures |r| == n
  {
    if n == 0 then [] else [x % 256] + EncodeLE(x / 256, n - 1)
  }

  /** The value of a little-endian octet string. */
  function DecodeLE(s: seq<byte>): (r: nat)
    ensures r < Pow256(|s|)
  {
    if s == [] then 0 else s[0] + 256 * DecodeLE(s[1..])
  }

  lemma {:induction false} DecodeEncodeLE(x: nat, n: nat)
    requires x < Pow256(n)
    ensures DecodeLE(EncodeLE(x, n)) == x
  {
    if n > 0 {
      DecodeEncodeLE(x / 256, n - 1);
      assert EncodeLE(x, n)[1..] == EncodeLE(x / 256, n - 1);
    }
  }

  lemma {:induction false} EncodeDecodeLE(s: seq<byte>)
    ensures EncodeLE(DecodeLE(s), |s|) == s
  {
    if s != [] {
      EncodeDecodeLE(s[1..]);
      assert (s[0] + 256 * DecodeLE(s[1..])) / 256 == DecodeLE(s[1..]);
    }
  }

  /** Decoding a field out of the middle of a stream only looks at that field. */
  lemma DecodeLEOfEncoded(x: nat, n: nat, pre: seq<byte>, post: seq<byte>)
    requires x < Pow256(n)
    ensures DecodeLE((pre + EncodeLE(x, n) + post)[|pre|..|pre| + n]) == x
  {
    assert (pre + EncodeLE(x, n) + post)[|pre|..|pre| + n] == EncodeLE(x, n);
    DecodeEncodeLE(x, n);
  }

  lemma Pow256Values()
    ensures Pow256(1) == TWO_8 && Pow256(2) == TWO_16
    ensures Pow256(4) == TWO_32 && Pow256(8) == TWO_64
  {
    assert Pow256(2) == TWO_16;
    assert Pow256(4) == TWO_32;
    assert Pow256(8) == TWO_64 by {
      assert Pow256(8) == 256 * 256 * 256 * 256 * Pow256(4);
    }
  }

  function Reverse(s: seq<byte>): (r: seq<byte>)
    ensures |r| == |s|
    ensures forall i :: 0 <= i < |s| ==> r[i] == s[|s| - 1 - i]
  {
    if s == [] then [] else Reverse(s[1..]) + [s[0]]
  }

  lemma ReverseReverse(s: seq<byte>)
    ensures Reverse(Reverse(s)) == s
  {
  }

  /** Network byte order (htons, htonl): the n low-order octets of x, most
      significant first. */
  function EncodeBE(x: nat, n: nat): (r: seq<byte>)
    ensures |r| == n
  {
    Reverse(EncodeLE(x, n))
  }

  /** ntohs, ntohl: the value of a big-endian octet string. */
  function DecodeBE(s: seq<byte>): (r: nat)
    ensures r < Pow256(|s|)
  {
    DecodeLE(Reverse(s))
  }

  lemma DecodeEncodeBE(x: nat, n: nat)
    requires x < Pow256(n)
    ensures DecodeBE(EncodeBE(x, n)) == x
  {
    ReverseReverse(EncodeLE(x, n));
    DecodeEncodeLE(x, n);
  }

  lemma EncodeDecodeBE(s: seq<byte>)
    ensures EncodeBE(DecodeBE(s), |s|) == s
  {
    EncodeDecodeLE(Reverse(s));
    ReverseReverse(s);
  }

  /** The octets of an ASCII string literal. */
  function Ascii(s: string): (r: seq<byte>)
    ensures |r| == |s|
    ensures forall i :: 0 <= i < |s| ==> r[i] == (s[i] as int) % 256
  {
    seq(|s|, i requires 0 <= i < |s| => (s[i] as int) % 256)
  }

  const CR: byte := 13
  const LF: byte := 10
  const SPACE: byte := 32
  const MINUS: byte := 45
  const PLUS: byte := 43
  const ZERO: byte := 48
  const CRLF: seq<byte> := [CR, LF]

  predicate IsDigit(b: byte) { ZERO <= b <= ZERO + 9 }

  /** The decimal value of a string of digits, most significant first. */
  function DigitsValue(s: seq<byte>): (r: nat)
    requires forall i :: 0 <= i < |s| ==> IsDigit(s[i])
  {
    if s == [] then 0
    else
      assert IsDigit(s[|s| - 1]);
      10 * DigitsValue(s[..|s| - 1]) + (s[|s| - 1] - ZERO)
  }

  /** The shortest decimal rendering of n (printf's "%lu" of a non-negative value). */
  function Decimal(n: nat): (r: seq<byte>)
    ensures 1 <= |r|
    ensures forall i :: 0 <= i < |r| ==> IsDigit(r[i])
    ensures DigitsValue(r) == n
    ensures |r| > 1 ==> r[0] != ZERO
  {
    if n < 10 then [ZERO + n]
    else
      var r := Decimal(n / 10) + [ZERO + n % 10];
      assert r[..|r| - 1] == Decimal(n / 10);
      r
  }

  /** printf's "%ld": a minus sign in front of a negative value. */
  function SignedDecimal(x: int): (r: seq<byte>)
    ensures x >= 0 ==> r == Decimal(x)
    ensures x < 0 ==> r == [MINUS] + Decimal(-x)
  {
    if x >= 0 then Decimal(x) else [MINUS] + Decimal(-x)
  }

  /** C's isspace in the "C" locale. */
  predicate IsSpace(b: byte) { b == SPACE || 9 <= b <= 13 }

  /** C's atoi: skip white space, an optional sign, then as many digits as
      follow; anything else ends the number, and no digits give 0. */
  function Atoi(s: seq<byte>): int
  {
    AtoiFrom(s, 0)
  }

  /** The scan of atoi from offset i on, still skipping white space. */
  function AtoiFrom(s: seq<byte>, i: nat): int
    decreases |s| - i
  {
    if i < |s| && IsSpace(s[i]) then AtoiFrom(s, i + 1)
    else if i < |s| && s[i] == MINUS then -(AtoiDigits(s, i + 1, 0) as int)
    else if i < |s| && s[i] == PLUS then AtoiDigits(s, i + 1, 0)
    else AtoiDigits(s, i, 0)
  }

  /** The digit loop of atoi: acc is the value of the digits read so far. */
  function AtoiDigits(s: seq<byte>, i: nat, acc: nat): nat
    decreases |s| - i
  {
    if i < |s| && IsDigit(s[i]) then AtoiDigits(s, i + 1, 10 * acc + (s[i] - ZERO)) else acc
  }

  /** Reading a run of digits accumulates their decimal value. */
  lemma {:induction false} AtoiDigitsRun(s: seq<byte>, i: nat, j: nat)
    requires i <= j <= |s| && forall k :: i <= k < j ==> IsDigit(s[k])
    ensures AtoiDigits(s, i, 0) == AtoiDigits(s, j, DigitsValue(s[i..j]))
    decreases j - i
  {
    if i < j {
      AtoiDigitsRun(s, i, j - 1);
      assert s[i..j][..j - 1 - i] == s[i..j - 1];
    }
  }

  /** atoi reads back a non-negative "%ld" rendering. */
  lemma AtoiOfDecimal(n: nat, rest: seq<byte>)
    requires rest == [] || !IsDigit(rest[0])
    ensures Atoi(Decimal(n) + rest) == n
  {
    var d := Decimal(n);
    var s := d + rest;
    assert s[0] == d[0];
    AtoiDigitsRun(s, 0, |d|);
    assert s[0..|d|] == d;
    if |d| < |s| {
      assert s[|d|] == rest[0];
    }
  }

  /** atoi reads back a negative "%ld" rendering. */
  lemma AtoiOfNegativeDecimal(n: nat, rest: seq<byte>)
    requires n > 0 && (rest == [] || !IsDigit(rest[0]))
    ensures Atoi([MINUS] + Decimal(n) + rest) == -(n as int)
  {
    var d := Decimal(n);
    var s := [MINUS] + d + rest;
    AtoiDigitsRun(s, 1, 1 + |d|);
    assert s[1..1 + |d|] == d;
    if 1 + |d| < |s| {
      assert s[1 + |d|] == rest[0];
    }
  }

  /** atoi reads back what "%ld" printed, up to the first non-digit. */
  lemma AtoiOfSignedDecimal(x: int, rest: seq<byte>)
    requires rest == [] || !IsDigit(rest[0])
    ensures Atoi(SignedDecimal(x) + rest) == x
  {
    if x >= 0 {
      AtoiOfDecimal(x, rest);
    } else {
      AtoiOfNegativeDecimal(-x, rest);
    }
  }

  // Wrap-around arithmetic

  lemma MulAtLeast(k: int, m: int)
    requires k >= 1 && m > 0
    ensures k * m >= m
  {
    if k > 1 {
      MulAtLeast(k - 1, m);
      assert k * m == (k - 1) * m + m;
    }
  }
  /** Euclidean division is unique: a quotient and remainder that rebuild y are y's. */
  lemma ModUnique(y: int, a: int, r: int, m: int)
    requires m > 0 && 0 <= r < m && y == a * m + r
    ensures y % m == r && y / m == a
  {
    var a' := y / m;
    var r' := y % m;
    assert y == a' * m + r';
    var k := a - a';
    assert k * m == a * m - a' * m;
    assert k * m == r' - r;
    if k >= 1 {
      MulAtLeast(k, m);
    } else if k <= -1 {
      MulAtLeast(-k, m);
    }
  }
  lemma ModShift(x: int, q: int, m: int)
    requires m > 0
    ensures (x + q * m) % m == x % m
  {
    var d := x / m;
    assert x == d * m + x % m;
    assert x + q * m == (d + q) * m + x % m;
    ModUnique(x + q * m, d + q, x % m, m);
  }
  /** Adding into a wrapped accumulator is wrapping the whole sum. */
  lemma WrapAdd(a: int, b: int, m: int)
    requires m > 0
    ensures ((a % m) + b) % m == (a + b) % m
  {
    var q := a / m;
    assert a == q * m + a % m;
    assert (a + b) == ((a % m) + b) + q * m;
    ModShift((a % m) + b, q, m);
  }}
