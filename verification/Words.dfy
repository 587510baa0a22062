/** Bytes, optional values, and fixed-width integers in either byte order. */
module Words {

  newtype byte = x: int | 0 <= x < 256

  datatype Option<+T> = None | Some(value: T)

  const U16_LIMIT := 0x1_0000
  const U32_LIMIT := 0x1_0000_0000
  const U64_LIMIT := 0x1_0000_0000_0000_0000

  function Zeros(n: nat): seq<byte> {
    seq(n, _ => 0)
  }

  function U16At(b: seq<byte>, o: nat): (n: nat)
    requires o + 2 <= |b|
    ensures n < U16_LIMIT
  {
    b[o] as nat + 0x100 * (b[o + 1] as nat)
  }

  function U32At(b: seq<byte>, o: nat): (n: nat)
    requires o + 4 <= |b|
    ensures n < U32_LIMIT
  {
    U16At(b, o) + U16_LIMIT * U16At(b, o + 2)
  }

  function U64At(b: seq<byte>, o: nat): (n: nat)
    requires o + 8 <= |b|
    ensures n < U64_LIMIT
  {
    U32At(b, o) + U32_LIMIT * U32At(b, o + 4)
  }

  function Le16(n: nat): (b: seq<byte>)
    requires n < U16_LIMIT
    ensures |b| == 2
  {
    [(n % 0x100) as byte, (n / 0x100) as byte]
  }

  function Le32(n: nat): (b: seq<byte>)
    requires n < U32_LIMIT
    ensures |b| == 4
  {
    Le16(n % U16_LIMIT) + Le16(n / U16_LIMIT)
  }

  function Le64(n: nat): (b: seq<byte>)
    requires n < U64_LIMIT
    ensures |b| == 8
  {
    Le32(n % U32_LIMIT) + Le32(n / U32_LIMIT)
  }

  /** A stretch of a buffer that reads as two parts reads as each of them. */
  lemma TwoParts(b: seq<byte>, o: nat, x: seq<byte>, y: seq<byte>)
    requires o + |x| + |y| <= |b| && b[o..o + |x| + |y|] == x + y
    ensures b[o..o + |x|] == x && b[o + |x|..o + |x| + |y|] == y
  {
    var s := b[o..o + |x| + |y|];
    forall k | 0 <= k < |x| ensures b[o + k] == x[k] {
      assert s[k] == (x + y)[k];
    }
    forall k | 0 <= k < |y| ensures b[o + |x| + k] == y[k] {
      assert s[|x| + k] == (x + y)[|x| + k];
    }
  }

  /** Writing a 16-bit value anywhere in a buffer and reading it back. */
  lemma Le16At(b: seq<byte>, o: nat, n: nat)
    requires n < U16_LIMIT && o + 2 <= |b| && b[o..o + 2] == Le16(n)
    ensures U16At(b, o) == n
  {
    assert b[o..o + 2][0] == b[o] && b[o..o + 2][1] == b[o + 1];
  }

  lemma Le32At(b: seq<byte>, o: nat, n: nat)
    requires n < U32_LIMIT && o + 4 <= |b| && b[o..o + 4] == Le32(n)
    ensures U32At(b, o) == n
  {
    TwoParts(b, o, Le16(n % U16_LIMIT), Le16(n / U16_LIMIT));
    Le16At(b, o, n % U16_LIMIT);
    Le16At(b, o + 2, n / U16_LIMIT);
  }

  lemma Le64At(b: seq<byte>, o: nat, n: nat)
    requires n < U64_LIMIT && o + 8 <= |b| && b[o..o + 8] == Le64(n)
    ensures U64At(b, o) == n
  {
    TwoParts(b, o, Le32(n % U32_LIMIT), Le32(n / U32_LIMIT));
    Le32At(b, o, n % U32_LIMIT);
    Le32At(b, o + 4, n / U32_LIMIT);
  }

  /** Reading a value anywhere in a buffer and writing it back. */
  lemma Le16Of(b: seq<byte>, o: nat)
    requires o + 2 <= |b|
    ensures Le16(U16At(b, o)) == b[o..o + 2]
  {
  }

  lemma Le32Of(b: seq<byte>, o: nat)
    requires o + 4 <= |b|
    ensures Le32(U32At(b, o)) == b[o..o + 4]
  {
    var low, high := U16At(b, o), U16At(b, o + 2);
    assert (low + U16_LIMIT * high) % U16_LIMIT == low && (low + U16_LIMIT * high) / U16_LIMIT == high;
    Le16Of(b, o);
    Le16Of(b, o + 2);
    assert b[o..o + 4] == b[o..o + 2] + b[o + 2..o + 4];
  }

  function Be16(n: nat): (b: seq<byte>)
    requires n < U16_LIMIT
    ensures |b| == 2
  {
    [(n / 0x100) as byte, (n % 0x100) as byte]
  }

  function Be32(n: nat): (b: seq<byte>)
    requires n < U32_LIMIT
    ensures |b| == 4
  {
    Be16(n / U16_LIMIT) + Be16(n % U16_LIMIT)
  }

  function Be64(n: nat): (b: seq<byte>)
    requires n < U64_LIMIT
    ensures |b| == 8
  {
    Be32(n / U32_LIMIT) + Be32(n % U32_LIMIT)
  }

  lemma Be16Injective(m: nat, n: nat)
    requires m < U16_LIMIT && n < U16_LIMIT && Be16(m) == Be16(n)
    ensures m == n
  {
    assert Be16(m)[0] == Be16(n)[0] && Be16(m)[1] == Be16(n)[1];
  }

  lemma Be32Injective(m: nat, n: nat)
    requires m < U32_LIMIT && n < U32_LIMIT && Be32(m) == Be32(n)
    ensures m == n
  {
    assert Be32(m)[..2] == Be32(n)[..2] && Be32(m)[2..] == Be32(n)[2..];
    Be16Injective(m / U16_LIMIT, n / U16_LIMIT);
    Be16Injective(m % U16_LIMIT, n % U16_LIMIT);
  }

  lemma Be64Injective(m: nat, n: nat)
    requires m < U64_LIMIT && n < U64_LIMIT && Be64(m) == Be64(n)
    ensures m == n
  {
    assert Be64(m)[..4] == Be64(n)[..4] && Be64(m)[4..] == Be64(n)[4..];
    Be32Injective(m / U32_LIMIT, n / U32_LIMIT);
    Be32Injective(m % U32_LIMIT, n % U32_LIMIT);
  }

  /** `b` with `d` written over it from `o` on. */
  function Splice(b: seq<byte>, o: nat, d: seq<byte>): (r: seq<byte>)
    requires o + |d| <= |b|
    ensures |r| == |b|
  {
    b[..o] + d + b[o + |d|..]
  }

  /** Overwrites part of a buffer. */
  method CopyInto(a: array<byte>, o: nat, b: seq<byte>)
    requires o + |b| <= a.Length
    modifies a
    ensures a[..] == old(a[..o]) + b + old(a[o + |b|..])
  {
    forall i | 0 <= i < |b| {
      a[o + i] := b[i];
    }
  }

  method Wipe(a: array<byte>)
    modifies a
    ensures a[..] == Zeros(a.Length)
  {
    forall i | 0 <= i < a.Length {
      a[i] := 0;
    }
  }

  function Pow2(n: nat): (p: nat)
    ensures p > 0
  {
    if n == 0 then 1 else 2 * Pow2(n - 1)
  }

  /** Bit `k` of a number. */
  predicate BitAt(n: nat, k: nat) {
    n / Pow2(k) % 2 == 1
  }

  lemma HalveThenDivide(n: nat, p: nat)
    requires p > 0
    ensures n / 2 / p == n / (2 * p)
  {
    var q, r := n / 2 / p, n / 2 % p;
    assert n / 2 == q * p + r;
    assert n == q * (2 * p) + (2 * r + n % 2);
    QuotientOf(n, 2 * p, q, 2 * r + n % 2);
  }

  lemma QuotientOf(n: nat, d: nat, q: nat, r: nat)
    requires n == q * d + r && r < d
    ensures n / d == q
  {
    var k := n / d - q;
    assert n == (n / d) * d + n % d;
    assert k * d == r - n % d;
    assert k >= 1 ==> k * d >= d;
    assert k <= -1 ==> k * d <= -1 * d;
  }

  lemma DivideTwice(n: nat, a: nat, b: nat)
    requires a > 0 && b > 0
    ensures n / a / b == n / (a * b)
  {
    var q, r, t := n / a / b, n / a % b, n % a;
    assert n / a == q * b + r;
    Regroup(q, b, r, a);
    BelowProduct(r, t, a, b);
    QuotientOf(n, a * b, q, r * a + t);
  }

  lemma Regroup(q: nat, b: nat, r: nat, a: nat)
    ensures (q * b + r) * a == q * (a * b) + r * a
  {
  }

  lemma BelowProduct(r: nat, t: nat, a: nat, b: nat)
    requires r < b && t < a
    ensures r * a + t < a * b
  {
    assert (r + 1) * a <= b * a;
  }

  function Min(a: nat, b: nat): nat {
    if a < b then a else b
  }

  /** Overwriting `x` and then `y` right behind it is overwriting both at once. */
  lemma Adjacent(was: seq<byte>, o: nat, x: seq<byte>, y: seq<byte>, mid: seq<byte>, now: seq<byte>)
    requires o + |x| + |y| <= |was|
    requires mid == was[..o] + x + was[o + |x|..]
    requires now == mid[..o + |x|] + y + mid[o + |x| + |y|..]
    ensures now == was[..o] + (x + y) + was[o + |x| + |y|..]
  {
    assert mid[..o + |x|] == was[..o] + x;
    assert mid[o + |x| + |y|..] == was[o + |x| + |y|..];
  }

  lemma FrontOfSlice(s: seq<byte>, a: nat, b: nat, n: nat)
    requires a + n <= b <= |s|
    ensures s[a..b][..n] == s[a..a + n]
  {
    var x, y := s[a..b][..n], s[a..a + n];
    forall k | 0 <= k < n ensures x[k] == y[k] {
      assert x[k] == s[a..b][k] == s[a + k];
    }
  }

  /** Overwriting the zeros that follow `a`. */
  lemma Overlaid(a: seq<byte>, zeros: nat, b: seq<byte>, before: seq<byte>, after: seq<byte>)
    requires |b| <= zeros && before == a + Zeros(zeros)
    requires after == before[..|a|] + b + before[|a| + |b|..]
    ensures after == a + b + Zeros(zeros - |b|)
  {
    assert before[..|a|] == a;
    assert before[|a| + |b|..] == Zeros(zeros - |b|);
  }
}
