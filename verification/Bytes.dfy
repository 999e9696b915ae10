/** Little-endian words in byte strings, as `DataView` and the C structs lay them out. */
module Bytes {
  type byte = b: int | 0 <= b < 256
  type Data = seq<byte>

  const U32_LIMIT := 0x1_0000_0000

  type u32 = n: int | 0 <= n < 0x1_0000_0000

  function Le32(n: u32): (r: Data)
    ensures |r| == 4
  {
    [n % 0x100, n / 0x100 % 0x100, n / 0x100 / 0x100 % 0x100, n / 0x100 / 0x100 / 0x100]
  }

  /** 256 to the power of `n`. */
  function Pow256(n: nat): nat { if n == 0 then 1 else 0x100 * Pow256(n - 1) }

  lemma Pow256Is4()
    ensures Pow256(4) == 0x1_0000_0000
  {
    assert Pow256(1) == 0x100 && Pow256(2) == 0x1_0000 && Pow256(3) == 0x100_0000;
  }

  /** The number a string of digits in base 256 stands for, lowest digit first. */
  function Value(s: Data): (n: int)
    ensures 0 <= n < Pow256(|s|)
  {
    if s == [] then 0 else Step(s[0], Value(s[1..]))
  }

  function Step(low: int, high: int): int { low + 0x100 * high }

  function U32(b: Data, p: nat): u32
    requires p + 4 <= |b|
  {
    Pow256Is4();
    Value(b[p..p + 4])
  }

  /** `data` stands in `b` at `off`. */
  predicate Has(b: Data, off: nat, data: Data) {
    off + |data| <= |b| && b[off..off + |data|] == data
  }

  lemma U32OfLe32(b: Data, p: nat, n: u32)
    requires Has(b, p, Le32(n))
    ensures p + 4 <= |b| && U32(b, p) == n
  {
    var w := Le32(n);
    ValueOf4(w);
  }

  lemma Le32OfU32(b: Data, p: nat)
    requires p + 4 <= |b|
    ensures Has(b, p, Le32(U32(b, p)))
  {
    var w := b[p..p + 4];
    ValueOf4(w);
    Digits(w[0], w[1], w[2], w[3]);
    assert w == [w[0], w[1], w[2], w[3]];
  }

  lemma ValueOf4(w: Data)
    requires |w| == 4
    ensures Value(w) == Step(w[0], Step(w[1], Step(w[2], Step(w[3], 0))))
  {
    hide Step;
    assert Value(w[1..]) == Step(w[1], Value(w[1..][1..]));
    assert Value(w[1..][1..]) == Step(w[2], Value(w[1..][1..][1..]));
    assert Value(w[1..][1..][1..]) == Step(w[3], Value(w[1..][1..][1..][1..]));
  }

  lemma Digits(a0: int, a1: int, a2: int, a3: int)
    requires 0 <= a0 < 256 && 0 <= a1 < 256 && 0 <= a2 < 256 && 0 <= a3 < 256
    ensures Le32(Step(a0, Step(a1, Step(a2, Step(a3, 0))))) == [a0, a1, a2, a3]
  {
    LowDigit(a0, Step(a1, Step(a2, a3)));
    LowDigit(a1, Step(a2, a3));
    LowDigit(a2, a3);
  }

  lemma LowDigit(a: int, m: int)
    requires 0 <= a < 0x100
    ensures Step(a, m) % 0x100 == a && Step(a, m) / 0x100 == m
  {
  }

  lemma HasSplit(b: Data, off: nat, x: Data, y: Data)
    ensures Has(b, off, x + y) <==> Has(b, off, x) && Has(b, off + |x|, y)
  {
    if Has(b, off, x + y) {
      assert b[off..off + |x|] == b[off..off + |x + y|][..|x|] == x;
      assert b[off + |x|..off + |x| + |y|] == b[off..off + |x + y|][|x|..] == y;
    }
    if Has(b, off, x) && Has(b, off + |x|, y) {
      assert b[off..off + |x + y|] == b[off..off + |x|] + b[off + |x|..off + |x| + |y|];
    }
  }

  lemma HasWithin(b: Data, b': Data, off: nat, data: Data, n: nat)
    requires Has(b, off, data) && off + |data| <= n <= |b| && n <= |b'| && b[..n] == b'[..n]
    ensures Has(b', off, data)
  {
    assert b[off..off + |data|] == b[..n][off..off + |data|];
    assert b'[off..off + |data|] == b'[..n][off..off + |data|];
  }

  predicate Is32(i: int) { -0x8000_0000 <= i < 0x8000_0000 }

  /** A signed 32-bit field stored as its two's complement. */
  function AsU32(i: int): u32
    requires Is32(i)
  {
    if i < 0 then i + U32_LIMIT else i
  }

  function AsI32(n: u32): int {
    if n >= 0x8000_0000 then n - U32_LIMIT else n
  }
}
