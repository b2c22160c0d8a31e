/** `_mix_seed` of the B.1 engine: an FNV-1a style hash of "<seed>:<salt>" (draft-eastlake-fnv,
    section 2), on integers cut to 64 bits after each step. */
module SeedMix {

  const WORDS: nat := 0x1_0000_0000_0000_0000
  const START: nat := 1469598103934665603
  const PRIME: nat := 1099511628211

  /** `a ^ b` on non-negative integers, bit by bit. */
  function Xor(a: nat, b: nat): nat
    decreases a + b
  {
    if a == 0 && b == 0 then 0
    else 2 * Xor(a / 2, b / 2) + (if a % 2 == b % 2 then 0 else 1)
  }

  /** `h = (h ^ ord(ch)) * PRIME`, then `h &= 0xFFFFFFFFFFFFFFFF`. */
  function Step(h: nat, ch: char): nat { Xor(h, ch as int) * PRIME % WORDS }

  function Mix(h: nat, key: string): nat
    decreases |key|
  {
    if key == "" then h else Mix(Step(h, key[0]), key[1..])
  }

  datatype Seed = NoSeed | Seed(value: int)

  function Digit(d: int): char
    requires 0 <= d < 10
  {
    '0' + (d as char)
  }

  function Decimal(n: nat): (s: string)
    ensures |s| > 0
  {
    if n < 10 then [Digit(n)] else Decimal(n / 10) + [Digit(n % 10)]
  }

  function Signed(n: int): string { if n < 0 then "-" + Decimal(-n) else Decimal(n) }

  function Key(seed: Seed, salt: string): string {
    (if seed.NoSeed? then Signed(0) else Signed(seed.value)) + ":" + salt
  }

  method MixSeed(seed: Seed, salt: string) returns (h: nat)
    ensures h == Mix(START, Key(seed, salt))
    ensures h < WORDS
  {
    var base := if seed.NoSeed? then 0 else seed.value;
    var key := Signed(base) + ":" + salt;
    h := START;
    for i := 0 to |key|
      invariant h < WORDS
      invariant Mix(h, key[i..]) == Mix(START, key)
    {
      assert key[i..][1..] == key[i + 1..];
      h := Xor(h, key[i] as int) * PRIME;
      h := h % WORDS;
    }
  }

  // ---------------------------------------------------------------- one step is injective

  lemma {:induction false} XorHalves(a: nat, c: nat)
    ensures Xor(a, c) / 2 == Xor(a / 2, c / 2) && Xor(a, c) % 2 == if a % 2 == c % 2 then 0 else 1
  {
  }

  lemma {:induction false} XorInjective(a: nat, b: nat, c: nat)
    requires Xor(a, c) == Xor(b, c)
    ensures a == b
    decreases a + b + c
  {
    if a + b + c > 0 {
      XorHalves(a, c);
      XorHalves(b, c);
      XorInjective(a / 2, b / 2, c / 2);
    }
  }

  lemma {:induction false} XorCommutes(a: nat, b: nat)
    ensures Xor(a, b) == Xor(b, a)
    decreases a + b
  {
    if a + b > 0 {
      XorCommutes(a / 2, b / 2);
    }
  }

  function Power2(n: nat): (p: nat)
    ensures p > 0
  {
    if n == 0 then 1 else 2 * Power2(n - 1)
  }

  lemma {:induction false} XorBound(a: nat, b: nat, n: nat)
    requires a < Power2(n) && b < Power2(n)
    ensures Xor(a, b) < Power2(n)
  {
    if n > 0 && a + b > 0 {
      XorBound(a / 2, b / 2, n - 1);
    }
  }

  lemma {:induction false} WordsIsPower2()
    ensures Power2(64) == WORDS
  {
    assert Power2(8) == 256;
    assert Power2(16) == 0x10000;
    assert Power2(24) == 0x100_0000;
    assert Power2(32) == 0x1_0000_0000;
    assert Power2(40) == 0x100_0000_0000;
    assert Power2(48) == 0x1_0000_0000_0000;
    assert Power2(56) == 0x100_0000_0000_0000;
  }

  /** PRIME is odd, so it has an inverse modulo 2^64. */
  const INVERSE: nat := 14886173955864302971

  lemma {:induction false} InverseWorks()
    ensures PRIME * INVERSE == 1 + 887285111055 * WORDS
  {
  }

  lemma {:induction false} SmallMultiple(d: int, m: int)
    requires d == m * WORDS && d < WORDS && d + WORDS > 0
    ensures d == 0
  {
  }

  lemma {:induction false} Regroup(d: int, e: int)
    requires d * PRIME == e * WORDS
    ensures d == (e * INVERSE - 887285111055 * d) * WORDS
  {
    InverseWorks();
    assert d * (PRIME * INVERSE) == (d * PRIME) * INVERSE;
    assert (e * WORDS) * INVERSE == (e * INVERSE) * WORDS;
  }

  /** Multiplying by PRIME loses nothing modulo 2^64: the inverse undoes it. */
  lemma {:induction false} MultiplyInjective(x: nat, y: nat)
    requires x < WORDS && y < WORDS && x * PRIME % WORDS == y * PRIME % WORDS
    ensures x == y
  {
    var e := x * PRIME / WORDS - y * PRIME / WORDS;
    assert (x - y) * PRIME == e * WORDS;
    Regroup(x - y, e);
    SmallMultiple(x - y, e * INVERSE - 887285111055 * (x - y));
  }

  lemma {:induction false} XorIsWord(h: nat, ch: char)
    requires h < WORDS
    ensures Xor(h, ch as int) < WORDS
  {
    WordsIsPower2();
    XorBound(h, ch as int, 64);
  }

  lemma {:induction false} StepInjective(h: nat, h': nat, ch: char)
    requires h < WORDS && h' < WORDS && Step(h, ch) == Step(h', ch)
    ensures h == h'
  {
    XorIsWord(h, ch);
    XorIsWord(h', ch);
    MultiplyInjective(Xor(h, ch as int), Xor(h', ch as int));
    XorInjective(h, h', ch as int);
  }

  lemma {:induction false} StepSeparates(h: nat, ch: char, ch': char)
    requires h < WORDS && Step(h, ch) == Step(h, ch')
    ensures ch == ch'
  {
    XorIsWord(h, ch);
    XorIsWord(h, ch');
    MultiplyInjective(Xor(h, ch as int), Xor(h, ch' as int));
    XorCommutes(h, ch as int);
    XorCommutes(h, ch' as int);
    XorInjective(ch as int, ch' as int, h);
  }

  lemma {:induction false} MixIsWord(h: nat, key: string)
    requires h < WORDS
    ensures Mix(h, key) < WORDS
    decreases |key|
  {
    if key != "" {
      MixIsWord(Step(h, key[0]), key[1..]);
    }
  }

  /** Equal tails keep different states apart. */
  lemma {:induction false} MixInjective(h: nat, h': nat, key: string)
    requires h < WORDS && h' < WORDS && Mix(h, key) == Mix(h', key)
    ensures h == h'
    decreases |key|
  {
    if key != "" {
      MixInjective(Step(h, key[0]), Step(h', key[0]), key[1..]);
      StepInjective(h, h', key[0]);
    }
  }

  lemma {:induction false} MixAppend(h: nat, a: string, b: string)
    ensures Mix(h, a + b) == Mix(Mix(h, a), b)
    decreases |a|
  {
    if a == "" {
      assert a + b == b;
    } else {
      assert (a + b)[1..] == a[1..] + b;
      MixAppend(Step(h, a[0]), a[1..], b);
    }
  }

  /** Two keys that differ in exactly one character never share a sub-seed. */
  lemma {:induction false} OneCharacterSeparates(before: string, ch: char, ch': char, after: string)
    requires ch != ch'
    ensures Mix(START, before + [ch] + after) != Mix(START, before + [ch'] + after)
  {
    var h := Mix(START, before);
    MixIsWord(START, before);
    MixAppend(START, before + [ch], after);
    MixAppend(START, before + [ch'], after);
    MixAppend(START, before, [ch]);
    MixAppend(START, before, [ch']);
    assert [ch][1..] == "" && [ch'][1..] == "";
    if Mix(START, before + [ch] + after) == Mix(START, before + [ch'] + after) {
      MixInjective(Step(h, ch), Step(h, ch'), after);
      StepSeparates(h, ch, ch');
    }
  }

  lemma {:induction false} DigitsDiffer(d: int, d': int)
    requires 0 <= d < 10 && 0 <= d' < 10 && d != d'
    ensures Digit(d) != Digit(d')
  {
  }

  function Abs(n: int): nat { if n < 0 then -n else n }

  /** What a seed prints before its last digit. */
  function Front(seed: int): string {
    (if seed < 0 then "-" else "") + (if Abs(seed) < 10 then "" else Decimal(Abs(seed) / 10))
  }

  lemma {:induction false} SignedSplits(seed: int)
    ensures Signed(seed) == Front(seed) + [Digit(Abs(seed) % 10)]
  {
    var n := Abs(seed);
    assert Decimal(n) == (if n < 10 then "" else Decimal(n / 10)) + [Digit(n % 10)];
  }

  lemma {:induction false} KeySplits(seed: int, salt: string)
    ensures Key(Seed(seed), salt) == Front(seed) + [Digit(Abs(seed) % 10)] + (":" + salt)
  {
    SignedSplits(seed);
    Associates(Front(seed) + [Digit(Abs(seed) % 10)], ":", salt);
  }

  lemma {:induction false} Associates(a: string, b: string, c: string)
    ensures a + b + c == a + (b + c)
  {
  }

  /** Batches whose seeds share their sign and every digit but the last get different sub-seeds, for
      every salt: with a base seed that is a multiple of ten, so do the first ten batches. */
  lemma {:induction false} NeighbouringSeedsSeparate(seed: int, seed': int, salt: string)
    requires (seed < 0 <==> seed' < 0) && Abs(seed) / 10 == Abs(seed') / 10 && seed != seed'
    ensures Mix(START, Key(Seed(seed), salt)) != Mix(START, Key(Seed(seed'), salt))
  {
    KeySplits(seed, salt);
    KeySplits(seed', salt);
    SameFront(seed, seed');
    DigitsDiffer(Abs(seed) % 10, Abs(seed') % 10);
    OneCharacterSeparates(Front(seed), Digit(Abs(seed) % 10), Digit(Abs(seed') % 10), ":" + salt);
  }

  lemma {:induction false} SameFront(seed: int, seed': int)
    requires (seed < 0 <==> seed' < 0) && Abs(seed) / 10 == Abs(seed') / 10
    ensures Front(seed) == Front(seed') && (seed != seed' ==> Abs(seed) % 10 != Abs(seed') % 10)
  {
  }

  // ---------------------------------------------------------------- what each part computes

  /** A step multiplies last: the prime's inverse gives back the exclusive-or. */
  lemma {:induction false} StepUndone(h: nat, ch: char)
    requires h < WORDS
    ensures Step(h, ch) * INVERSE % WORDS == Xor(h, ch as int)
  {
    var x := Xor(h, ch as int);
    XorIsWord(h, ch);
    InverseWorks();
    ProductModulo(x, x * PRIME / WORDS);
  }

  lemma {:induction false} ProductModulo(x: nat, q: nat)
    requires x < WORDS && q == x * PRIME / WORDS
    ensures (x * PRIME % WORDS) * INVERSE % WORDS == x
  {
    var r := x * PRIME % WORDS;
    assert r == x * PRIME - q * WORDS;
    InverseWorks();
    RemainderTimes(x, r, q);
    ModuloOf(r * INVERSE, x * 887285111055 - q * INVERSE, x);
  }

  lemma {:induction false} RemainderTimes(x: nat, r: int, q: nat)
    requires r == x * PRIME - q * WORDS
    ensures r * INVERSE == x + (x * 887285111055 - q * INVERSE) * WORDS
  {
    InverseWorks();
    assert (x * PRIME) * INVERSE == x * (PRIME * INVERSE);
    assert (q * WORDS) * INVERSE == (q * INVERSE) * WORDS;
    assert x * (887285111055 * WORDS) == (x * 887285111055) * WORDS;
  }

  lemma {:induction false} ModuloOf(n: int, k: int, x: nat)
    requires n == x + k * WORDS && x < WORDS
    ensures n % WORDS == x
  {
  }

  /** No seed is the seed 0. */
  lemma {:induction false} NoSeedIsZero(salt: string)
    ensures Key(NoSeed, salt) == Key(Seed(0), salt)
  {
  }

  function Bit(n: nat, k: nat): nat { n / Power2(k) % 2 }

  /** Every bit of the exclusive-or is set exactly when it is set in one of the two. */
  lemma {:induction false} XorBits(a: nat, b: nat, k: nat)
    ensures Bit(Xor(a, b), k) == if Bit(a, k) == Bit(b, k) then 0 else 1
  {
    XorHalves(a, b);
    if k > 0 {
      XorBits(a / 2, b / 2, k - 1);
      HalfThenShift(a, k);
      HalfThenShift(b, k);
      HalfThenShift(Xor(a, b), k);
    } else {
      assert Power2(0) == 1;
    }
  }

  lemma {:induction false} HalfThenShift(n: nat, k: nat)
    requires k > 0
    ensures n / Power2(k) == n / 2 / Power2(k - 1)
  {
    DivideTwice(n, Power2(k - 1));
  }

  lemma {:induction false} DivideTwice(n: nat, p: nat)
    requires p > 0
    ensures n / (2 * p) == n / 2 / p
  {
    var h := n / 2;
    var q := h / p;
    assert h == q * p + h % p;
    assert n == q * (2 * p) + (2 * (h % p) + n % 2);
    QuotientIs(n, 2 * p, q, 2 * (h % p) + n % 2);
  }

  lemma {:induction false} QuotientIs(n: nat, d: nat, q: nat, r: nat)
    requires n == q * d + r && r < d
    ensures n / d == q
  {
    var k, m := n / d, n % d;
    assert n == k * d + m;
    assert (q - k) * d == q * d - k * d;
    SmallFactor(q - k, d);
  }

  lemma {:induction false} SmallFactor(e: int, d: int)
    requires d > 0 && 0 - d < e * d < d
    ensures e == 0
  {
    if e >= 1 {
      AtLeast(e, d);
    } else if e <= -1 {
      AtLeast(-e, d);
    }
  }

  lemma {:induction false} AtLeast(e: int, d: int)
    requires e >= 1 && d > 0
    ensures e * d >= d && (-e) * d == -(e * d)
  {
  }

  /** Characters are mixed in from left to right, one step each. */
  lemma {:induction false} MixSteps(h: nat, key: string, ch: char)
    ensures Mix(h, "") == h && Mix(h, key + [ch]) == Step(Mix(h, key), ch)
  {
    MixAppend(h, key, [ch]);
    assert [ch][1..] == "";
  }

  function DigitValue(ch: char): int { ch as int - '0' as int }

  function ReadDecimal(s: string): int {
    if s == "" then 0 else 10 * ReadDecimal(s[..|s| - 1]) + DigitValue(s[|s| - 1])
  }

  /** A number is printed as decimal digits without a leading zero, and reads back as itself. */
  lemma {:induction false} DecimalReads(n: nat)
    ensures ReadDecimal(Decimal(n)) == n && (n > 0 ==> Decimal(n)[0] != '0')
    ensures forall i :: 0 <= i < |Decimal(n)| ==> '0' <= Decimal(n)[i] <= '9'
  {
    var s := Decimal(n);
    if n >= 10 {
      DecimalReads(n / 10);
      assert s[..|s| - 1] == Decimal(n / 10);
    } else {
      assert s[..0] == "";
    }
  }
}
