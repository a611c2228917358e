/** Byte primitives: key tiling, pairwise XOR and Hamming distance
    (`generate_xor_key`, `xor_byte`, `calculate_hamming_distance`). */
module ByteOps {
  import opened Failures

  /** One element of a Python `bytes` value. */
  type byte = x: int | 0 <= x < 256

  function Pow2(width: nat): nat {
    if width == 0 then 1 else 2 * Pow2(width - 1)
  }

  // ---------------------------------------------------------------------------
  // Python's `^` on non-negative integers, digit by binary digit

  function Xor(a: nat, b: nat): (r: nat)
    ensures a == 0 ==> r == b
    ensures b == 0 ==> r == a
    decreases a + b
  {
    if a == 0 && b == 0 then 0
    else 2 * Xor(a / 2, b / 2) + (if a % 2 == b % 2 then 0 else 1)
  }

  /** The lowest binary digit of `a ^ b` and the digits above it. */
  lemma XorDigits(a: nat, b: nat)
    ensures Xor(a, b) % 2 == (if a % 2 == b % 2 then 0 else 1)
    ensures Xor(a, b) / 2 == Xor(a / 2, b / 2)
  {
  }

  lemma {:induction false} XorCommutes(a: nat, b: nat)
    ensures Xor(a, b) == Xor(b, a)
    decreases a + b
  {
    if a != 0 || b != 0 {
      XorCommutes(a / 2, b / 2);
    }
  }

  lemma {:induction false} XorSelf(a: nat)
    ensures Xor(a, a) == 0
  {
    if a != 0 {
      XorSelf(a / 2);
    }
  }

  lemma {:induction false} XorCancels(a: nat, d: nat)
    ensures Xor(a, Xor(a, d)) == d
    decreases a + d
  {
    if a != 0 || d != 0 {
      var x := Xor(a, d);
      XorDigits(a, d);
      XorCancels(a / 2, d / 2);
      assert x != 0 || a != 0;
    }
  }

  /** `a ^ b` has no more binary digits than the wider of `a` and `b`. */
  lemma {:induction false} XorBelow(a: nat, b: nat, width: nat)
    requires a < Pow2(width) && b < Pow2(width)
    ensures Xor(a, b) < Pow2(width)
  {
    if a != 0 || b != 0 {
      XorBelow(a / 2, b / 2, width - 1);
    }
  }

  /** Every byte is below 0x80, so decoding as UTF-8 maps byte b to the character with code b. */
  predicate IsAscii(s: seq<byte>) {
    forall i :: 0 <= i < |s| ==> s[i] < 0x80
  }

  predicate IsAsciiText(s: string) {
    forall i :: 0 <= i < |s| ==> s[i] < 0x80 as char
  }

  /** `bytes(s, 'utf-8')` for an ASCII string. */
  function Encode(s: string): (b: seq<byte>)
    requires IsAsciiText(s)
    ensures |b| == |s| && IsAscii(b)
    ensures forall i :: 0 <= i < |s| ==> b[i] == s[i] as int
  {
    seq(|s|, i requires 0 <= i < |s| => s[i] as int)
  }

  /** `b.decode('utf-8')` for ASCII bytes. */
  function Decode(b: seq<byte>): (s: string)
    requires IsAscii(b)
    ensures |s| == |b| && IsAsciiText(s)
    ensures forall i :: 0 <= i < |b| ==> s[i] as int == b[i]
  {
    seq(|b|, i requires 0 <= i < |b| => b[i] as char)
  }

  lemma DecodeEncode(s: string)
    requires IsAsciiText(s)
    ensures Decode(Encode(s)) == s
  {
  }

  lemma EncodeDecode(b: seq<byte>)
    requires IsAscii(b)
    ensures Encode(Decode(b)) == b
  {
  }

  // ---------------------------------------------------------------------------
  // generate_xor_key

  /** Python's `key * count`: `count` copies of `key` end to end, empty when `count <= 0`. */
  function Repeat<T>(key: seq<T>, count: int): (r: seq<T>)
    ensures |r| == if count <= 0 then 0 else count * |key|
    decreases count
  {
    if count <= 0 then [] else key + Repeat(key, count - 1)
  }

  lemma {:induction false} RepeatAt<T>(key: seq<T>, count: int, i: int)
    requires 0 <= i < |Repeat(key, count)|
    ensures |key| > 0 && Repeat(key, count)[i] == key[i % |key|]
    decreases count
  {
    var rest := Repeat(key, count - 1);
    assert Repeat(key, count) == key + rest;
    if i < |key| {
      assert i % |key| == i by {
        DivModUnique(i, |key|, 0, i);
      }
    } else {
      assert Repeat(key, count)[i] == rest[i - |key|];
      RepeatAt(key, count - 1, i - |key|);
      ModShift(i - |key|, |key|);
    }
  }

  lemma MulAtLeast(d: int, m: int)
    requires d >= 1 && m > 0
    ensures d * m >= m
  {
  }

  /** Euclidean division is determined by any quotient and remainder that fit. */
  lemma DivModUnique(a: int, m: int, q: int, r: int)
    requires m > 0 && 0 <= r < m && a == q * m + r
    ensures a / m == q && a % m == r
  {
    var q', r' := a / m, a % m;
    assert (q - q') * m == r' - r;
    if q > q' {
      MulAtLeast(q - q', m);
    } else if q < q' {
      MulAtLeast(q' - q, m);
    }
  }

  lemma ModShift(x: nat, m: nat)
    requires m > 0
    ensures (x + m) % m == x % m
  {
    DivModUnique(x + m, m, x / m + 1, x % m);
  }

  /** Python's `s[:stop]`: a negative `stop` counts from the end, and both ends clamp. */
  function Prefix<T>(s: seq<T>, stop: int): (r: seq<T>)
    ensures |r| <= |s| && r == s[..|r|]
    ensures 0 <= stop <= |s| ==> |r| == stop
    ensures stop > |s| ==> r == s
    ensures -|s| <= stop < 0 ==> |r| == |s| + stop
    ensures stop < -|s| ==> r == []
  {
    if stop >= 0 then s[..if stop <= |s| then stop else |s|]
    else s[..if |s| + stop >= 0 then |s| + stop else 0]
  }

  /** `generate_xor_key(key, length)`: `key` repeated and cut to `length` elements.
      With an empty key the floor division by `len(key)` raises. */
  function GenerateXorKey<T>(key: seq<T>, length: int): (r: Result<seq<T>>)
    ensures r.Failure? <==> |key| == 0
    ensures r.Failure? ==> r.error == ZeroDivisionError
    ensures r.Success? ==> |r.value| == (if length < 0 then 0 else length)
    ensures r.Success? ==> forall i :: 0 <= i < |r.value| ==> r.value[i] == key[i % |key|]
  {
    if |key| == 0 then Failure(ZeroDivisionError)
    else
      var count := length / |key| + 1;
      var repeated := Repeat(key, count);
      assert length >= 0 ==> count * |key| > length by {
        if length >= 0 { CoverLength(length, |key|); }
      }
      var r := Prefix(repeated, length);
      assert forall i :: 0 <= i < |r| ==> r[i] == repeated[i];
      RepeatAtAll(key, count);
      Success(r)
  }

  lemma CoverLength(length: nat, n: nat)
    requires n > 0
    ensures (length / n + 1) * n > length
  {
    assert length == (length / n) * n + length % n;
    assert (length / n + 1) * n == (length / n) * n + n;
  }

  lemma RepeatAtAll<T>(key: seq<T>, count: int)
    requires |key| > 0
    ensures forall i :: 0 <= i < |Repeat(key, count)| ==> Repeat(key, count)[i] == key[i % |key|]
  {
    forall i | 0 <= i < |Repeat(key, count)|
      ensures Repeat(key, count)[i] == key[i % |key|]
    {
      RepeatAt(key, count, i);
    }
  }

  // ---------------------------------------------------------------------------
  // xor_byte

  /** `a ^ b` for two bytes. */
  function XorByte(a: byte, b: byte): byte {
    XorBelow(a, b, 8);
    Xor(a, b)
  }

  /** `xor_byte(a, b)`: XOR of paired bytes; like `zip`, it stops at the shorter input. */
  function XorBytes(a: seq<byte>, b: seq<byte>): (r: seq<byte>)
    ensures |r| == if |a| <= |b| then |a| else |b|
    ensures forall i :: 0 <= i < |r| ==> r[i] == Xor(a[i], b[i])
  {
    if |a| == 0 || |b| == 0 then [] else [XorByte(a[0], b[0])] + XorBytes(a[1..], b[1..])
  }

  lemma XorBytesCommutes(a: seq<byte>, b: seq<byte>)
    ensures XorBytes(a, b) == XorBytes(b, a)
  {
    forall i | 0 <= i < |XorBytes(a, b)|
      ensures XorBytes(a, b)[i] == XorBytes(b, a)[i]
    {
      XorCommutes(a[i], b[i]);
    }
  }

  lemma XorBytesCancels(a: seq<byte>, d: seq<byte>)
    requires |d| <= |a|
    ensures XorBytes(a, XorBytes(a, d)) == d
  {
    forall i | 0 <= i < |d|
      ensures XorBytes(a, XorBytes(a, d))[i] == d[i]
    {
      XorCancels(a[i], d[i]);
    }
  }

  lemma XorBytesAscii(a: seq<byte>, b: seq<byte>)
    requires IsAscii(a) && IsAscii(b)
    ensures IsAscii(XorBytes(a, b))
  {
    forall i | 0 <= i < |XorBytes(a, b)|
      ensures XorBytes(a, b)[i] < 0x80
    {
      XorBelow(a[i], b[i], 7);
    }
  }

  // ---------------------------------------------------------------------------
  // calculate_hamming_distance

  /** The number of '1' digits in `bin(n)`. */
  function BitCount(n: nat): (c: nat)
    ensures c <= n
    ensures c == 0 <==> n == 0
  {
    if n == 0 then 0 else n % 2 + BitCount(n / 2)
  }

  lemma {:induction false} BitCountBound(n: nat, width: nat)
    requires n < Pow2(width)
    ensures BitCount(n) <= width
  {
    if n > 0 {
      assert width > 0;
      var w, half := width - 1, n / 2;
      assert Pow2(width) == 2 * Pow2(w);
      assert half < Pow2(w);
      BitCountBound(half, w);
      assert BitCount(n) == n % 2 + BitCount(half);
    }
  }

  /** Set bits of one byte. */
  function PopCount(b: byte): (c: nat)
    ensures c <= 8
  {
    BitCountBound(b, 8);
    BitCount(b)
  }

  /** Total set bits over a byte sequence. */
  function SumPopCount(s: seq<byte>): nat {
    if s == [] then 0 else PopCount(s[0]) + SumPopCount(s[1..])
  }

  /** Hamming distance as `calculate_hamming_distance` computes it: for each pair of bytes
      of `zip(data1, data2)`, the set bits of their XOR. */
  function Hamming(a: seq<byte>, b: seq<byte>): nat
    decreases |a|
  {
    if |a| == 0 || |b| == 0 then 0 else PopCount(XorByte(a[0], b[0])) + Hamming(a[1..], b[1..])
  }

  /** `calculate_hamming_distance(data1, data2)`. */
  method CalculateHammingDistance(data1: seq<byte>, data2: seq<byte>) returns (dist: nat)
    ensures dist == Hamming(data1, data2)
  {
    var n := if |data1| <= |data2| then |data1| else |data2|;
    dist := 0;
    var i := 0;
    while i < n
      invariant 0 <= i <= n
      invariant dist + Hamming(data1[i..], data2[i..]) == Hamming(data1, data2)
    {
      var diff := XorByte(data1[i], data2[i]);
      assert data1[i..][1..] == data1[i + 1..] && data2[i..][1..] == data2[i + 1..];
      dist := dist + PopCount(diff);
      i := i + 1;
    }
  }

  /** The distance is the number of set bits of `xor_byte(data1, data2)`. */
  lemma {:induction false} HammingOfXorBytes(a: seq<byte>, b: seq<byte>)
    ensures Hamming(a, b) == SumPopCount(XorBytes(a, b))
    decreases |a|
  {
    if |a| > 0 && |b| > 0 {
      HammingOfXorBytes(a[1..], b[1..]);
      var x := XorBytes(a, b);
      assert x[1..] == XorBytes(a[1..], b[1..]);
    }
  }

  lemma {:induction false} HammingSymmetric(a: seq<byte>, b: seq<byte>)
    ensures Hamming(a, b) == Hamming(b, a)
    decreases |a|
  {
    if |a| > 0 && |b| > 0 {
      HammingSymmetric(a[1..], b[1..]);
      XorCommutes(a[0], b[0]);
    }
  }

  lemma {:induction false} HammingSelf(a: seq<byte>)
    ensures Hamming(a, a) == 0
    decreases |a|
  {
    if |a| > 0 {
      HammingSelf(a[1..]);
      XorSelf(a[0]);
      assert PopCount(0) == 0;
    }
  }

  lemma {:induction false} HammingBound(a: seq<byte>, b: seq<byte>)
    ensures Hamming(a, b) <= 8 * (if |a| <= |b| then |a| else |b|)
    decreases |a|
  {
    if |a| > 0 && |b| > 0 {
      HammingBound(a[1..], b[1..]);
    }
  }
}
