/** The 64-bit FNV-1a content fingerprint of `manifest.rs`. */
module Fingerprints {
  import opened Utf8

  const MODULUS: nat := 0x1_0000_0000_0000_0000
  const OFFSET: nat := 0xcbf2_9ce4_8422_2325
  const PRIME: nat := 0x0000_0100_0000_01b3
  const PRIME_INVERSE: nat := 0xce96_5057_aff6_957b

  type Word = w: nat | w < 0x1_0000_0000_0000_0000

  /** Bitwise exclusive or of the lowest `bits` bits. */
  function Xor(a: nat, b: nat, bits: nat): nat {
    if bits == 0 then 0
    else 2 * Xor(a / 2, b / 2, bits - 1) + if a % 2 == b % 2 then 0 else 1
  }

  function Pow2(n: nat): nat {
    if n == 0 then 1 else 2 * Pow2(n - 1)
  }

  lemma {:induction false} XorBound(a: nat, b: nat, bits: nat)
    ensures Xor(a, b, bits) < Pow2(bits)
  {
    if bits > 0 {
      XorBound(a / 2, b / 2, bits - 1);
    }
  }

  lemma {:induction false} XorUndoes(a: nat, b: nat, bits: nat)
    requires a < Pow2(bits)
    ensures Xor(Xor(a, b, bits), b, bits) == a
  {
    if bits > 0 {
      XorUndoes(a / 2, b / 2, bits - 1);
      assert Xor(a, b, bits) / 2 == Xor(a / 2, b / 2, bits - 1);
    }
  }

  lemma {:induction false} XorSymmetric(a: nat, b: nat, bits: nat)
    ensures Xor(a, b, bits) == Xor(b, a, bits)
  {
    if bits > 0 {
      XorSymmetric(a / 2, b / 2, bits - 1);
    }
  }

  lemma Pow2Of8()
    ensures Pow2(8) == 256
  {
    assert Pow2(4) == 16;
    assert Pow2(6) == 64;
  }

  function Xor8(a: Byte, b: Byte): Byte {
    XorBound(a, b, 8);
    Pow2Of8();
    Xor(a, b, 8)
  }

  /** A byte only meets the lowest eight bits. */
  function XorLow(h: Word, b: Byte): Word {
    h - h % 256 + Xor8(h % 256, b)
  }

  function Mix(h: Word, b: Byte): Word {
    XorLow(h, b) * PRIME % MODULUS
  }

  function Unmix(h: Word, b: Byte): Word {
    XorLow(h * PRIME_INVERSE % MODULUS, b)
  }

  function HashFrom(h: Word, bytes: seq<Byte>): Word
    decreases |bytes|
  {
    if bytes == [] then h else HashFrom(Mix(h, bytes[0]), bytes[1..])
  }

  function Fingerprint(content: string): Word {
    HashFrom(OFFSET, Encode(content))
  }

  method ComputeFingerprint(content: string) returns (hash: Word)
    ensures hash == Fingerprint(content)
  {
    var bytes := Encode(content);
    hash := OFFSET;
    for i := 0 to |bytes|
      invariant HashFrom(hash, bytes[i..]) == Fingerprint(content)
    {
      assert bytes[i..][1..] == bytes[i + 1..];
      hash := Mix(hash, bytes[i]);
    }
  }

  lemma Xor8Undoes(a: Byte, b: Byte)
    ensures Xor8(Xor8(a, b), b) == a
  {
    Pow2Of8();
    XorUndoes(a, b, 8);
  }

  lemma Xor8SeparatesBytes(a: Byte, b: Byte, c: Byte)
    requires Xor8(a, b) == Xor8(a, c)
    ensures b == c
  {
    XorSymmetric(a, b, 8);
    XorSymmetric(a, c, 8);
    Xor8Undoes(b, a);
    Xor8Undoes(c, a);
  }

  lemma XorLowUndoes(h: Word, b: Byte)
    ensures XorLow(XorLow(h, b), b) == h
  {
    Xor8Undoes(h % 256, b);
    var x := XorLow(h, b);
    assert x % 256 == Xor8(h % 256, b);
  }

  lemma ModProduct(a: nat, b: nat, m: nat)
    requires m > 0
    ensures (a % m) * b % m == a * b % m
  {
    var q := a / m;
    assert a == q * m + a % m;
    assert a * b == (q * m) * b + (a % m) * b;
    assert (q * m) * b == m * (q * b);
    ModShift((a % m) * b, q * b, m);
  }

  lemma {:induction false} ModShift(x: nat, k: nat, m: nat)
    requires m > 0
    ensures (x + m * k) % m == x % m
  {
    var q, r := x / m, x % m;
    assert x + m * k == (q + k) * m + r;
    ModUnique(x + m * k, q + k, r, m);
  }

  lemma ModUnique(n: nat, q: nat, r: nat, m: nat)
    requires m > 0 && r < m && n == q * m + r
    ensures n % m == r
  {
    var q', r' := n / m, n % m;
    assert (q - q') * m == r' - r && (q' - q) * m == r - r';
    if q > q' {
      MulAtLeast(q - q', m);
    } else if q < q' {
      MulAtLeast(q' - q, m);
    }
  }

  lemma MulAtLeast(k: nat, m: nat)
    requires k >= 1
    ensures k * m >= m
  {
    assert k * m == (k - 1) * m + m;
  }

  lemma PrimeCancels(w: Word)
    ensures (w * PRIME % MODULUS) * PRIME_INVERSE % MODULUS == w
    ensures (w * PRIME_INVERSE % MODULUS) * PRIME % MODULUS == w
  {
    var k := PRIME * PRIME_INVERSE / MODULUS;
    assert PRIME * PRIME_INVERSE == 1 + MODULUS * k;
    ModProduct(w * PRIME, PRIME_INVERSE, MODULUS);
    ModProduct(w * PRIME_INVERSE, PRIME, MODULUS);
    assert w * PRIME * PRIME_INVERSE == w * (1 + MODULUS * k) == w + MODULUS * (w * k);
    assert w * PRIME_INVERSE * PRIME == w * (PRIME * PRIME_INVERSE);
    ModShift(w, w * k, MODULUS);
  }

  /** For a fixed byte, one step is a bijection on 64-bit words. */
  lemma MixIsBijective(h: Word, b: Byte)
    ensures Unmix(Mix(h, b), b) == h
    ensures Mix(Unmix(h, b), b) == h
  {
    PrimeCancels(XorLow(h, b));
    XorLowUndoes(h, b);
    PrimeCancels(h);
    XorLowUndoes(h * PRIME_INVERSE % MODULUS, b);
  }

  lemma MixSeparatesBytes(h: Word, b: Byte, b': Byte)
    requires Mix(h, b) == Mix(h, b')
    ensures b == b'
  {
    PrimeCancels(XorLow(h, b));
    PrimeCancels(XorLow(h, b'));
    Xor8SeparatesBytes(h % 256, b, b');
  }

  /** A common suffix cancels. */
  lemma {:induction false} SuffixCancels(h: Word, h': Word, suffix: seq<Byte>)
    requires HashFrom(h, suffix) == HashFrom(h', suffix)
    ensures h == h'
    decreases |suffix|
  {
    if suffix != [] {
      SuffixCancels(Mix(h, suffix[0]), Mix(h', suffix[0]), suffix[1..]);
      MixIsBijective(h, suffix[0]);
      MixIsBijective(h', suffix[0]);
    }
  }

  lemma {:induction false} HashConcat(h: Word, a: seq<Byte>, b: seq<Byte>)
    ensures HashFrom(h, a + b) == HashFrom(HashFrom(h, a), b)
    decreases |a|
  {
    if a == [] {
      assert a + b == b;
    } else {
      assert (a + b)[1..] == a[1..] + b;
      HashConcat(Mix(h, a[0]), a[1..], b);
    }
  }

  lemma HashAround(h: Word, a: seq<Byte>, i: nat)
    requires i < |a|
    ensures HashFrom(h, a) == HashFrom(Mix(HashFrom(h, a[..i]), a[i]), a[i + 1..])
  {
    var tail := [a[i]] + a[i + 1..];
    assert a == a[..i] + tail && tail[1..] == a[i + 1..];
    HashConcat(h, a[..i], tail);
  }

  /** Contents of any length that differ in exactly one byte never share a fingerprint. */
  lemma OneByteChangesFingerprint(s: string, t: string, i: nat)
    requires i < |Encode(s)| == |Encode(t)|
    requires Encode(s)[i] != Encode(t)[i]
    requires forall j | 0 <= j < |Encode(s)| && j != i :: Encode(s)[j] == Encode(t)[j]
    ensures Fingerprint(s) != Fingerprint(t)
  {
    var a, b := Encode(s), Encode(t);
    assert a[..i] == b[..i] && a[i + 1..] == b[i + 1..];
    var h := HashFrom(OFFSET, a[..i]);
    HashAround(OFFSET, a, i);
    HashAround(OFFSET, b, i);
    if Fingerprint(s) == Fingerprint(t) {
      SuffixCancels(Mix(h, a[i]), Mix(h, b[i]), a[i + 1..]);
      MixSeparatesBytes(h, a[i], b[i]);
    }
  }

  /** The published values of the 64-bit hash for the empty text and for one letter. */
  lemma KnownFingerprints()
    ensures Fingerprint("") == 0xcbf2_9ce4_8422_2325
    ensures Fingerprint("a") == 0xaf63_dc4c_8601_ec8c
  {
    assert Xor8(0x25, 0x61) == 0x44 by { XorOfLetter(); }
    assert OFFSET % 256 == 0x25;
    assert XorLow(OFFSET, 0x61) == 0xcbf2_9ce4_8422_2344;
    assert 0xcbf2_9ce4_8422_2344 * PRIME % MODULUS == 0xaf63_dc4c_8601_ec8c;
    assert Encode("a") == [0x61] + Encode("") == [0x61];
    assert HashFrom(OFFSET, [0x61]) == HashFrom(Mix(OFFSET, 0x61), []);
  }

  lemma XorOfLetter()
    ensures Xor(0x25, 0x61, 8) == 0x44
  {
    assert Xor(0x2, 0x6, 4) == 0x4;
    assert Xor(0x4, 0xC, 5) == 0x8;
    assert Xor(0x9, 0x18, 6) == 0x11;
    assert Xor(0x12, 0x30, 7) == 0x22;
  }
}
