/** 64-bit unsigned arithmetic and the bitwise rounding that the macOS trim is built on. */
module Words {

  const WORD: nat := 0x1_0000_0000_0000_0000

  function Pow2(k: nat): nat {
    if k == 0 then 1 else 2 * Pow2(k - 1)
  }

  /** Bitwise "and" of the lowest `w` bits. */
  function BitAnd(w: nat, a: nat, b: nat): nat {
    if w == 0 then 0 else (a % 2) * (b % 2) + 2 * BitAnd(w - 1, a / 2, b / 2)
  }

  /** Two's complement negation of a 64-bit word. */
  function Negate(n: nat): nat
    requires n < WORD
  {
    (WORD - n) % WORD
  }

  /** `(n + (align - 1)) & -align`, where the addition wraps. */
  function AlignUp(n: nat, align: nat): nat
    requires 0 < align < WORD
  {
    BitAnd(64, (n + (align - 1)) % WORD, Negate(align))
  }

  /** `n & -align` */
  function AlignDown(n: nat, align: nat): nat
    requires 0 < align < WORD
  {
    BitAnd(64, n, Negate(align))
  }

  ghost predicate PowerOfTwo(align: nat) {
    exists k :: 0 <= k < 64 && align == Pow2(k)
  }

  predicate Multiple(m: nat, align: nat)
    requires align > 0
  {
    m % align == 0
  }

  lemma {:induction false} Pow2Grows(k: nat, w: nat)
    requires k <= w
    ensures 0 < Pow2(k) <= Pow2(w)
    ensures k < w ==> Pow2(k) < Pow2(w)
  {
    if w > 0 {
      if k < w { Pow2Grows(k, w - 1); } else { Pow2Grows(k - 1, w - 1); }
    }
  }

  lemma {:induction false} AndWithOnes(w: nat, n: nat)
    requires n < Pow2(w)
    ensures BitAnd(w, n, Pow2(w) - 1) == n
  {
    if w > 0 {
      assert (Pow2(w) - 1) / 2 == Pow2(w - 1) - 1;
      AndWithOnes(w - 1, n / 2);
    }
  }

  lemma AndWithEven(w: nat, n: nat, m: nat)
    requires w > 0
    ensures BitAnd(w, n, 2 * m) == 2 * BitAnd(w - 1, n / 2, m)
  {
    assert (2 * m) % 2 == 0 && (2 * m) / 2 == m;
    assert (n % 2) * 0 == 0;
  }

  lemma HighBitsStep(w: nat, n: nat, m: nat, half: nat)
    requires w > 0 && half > 0 && BitAnd(w - 1, n / 2, m) == n / 2 - (n / 2) % half
    ensures BitAnd(w, n, 2 * m) == n - n % (2 * half)
  {
    hide BitAnd;
    AndWithEven(w, n, m);
    HalveRemainder(n, half);
  }

  lemma RemainderByOne(n: nat)
    ensures n % 1 == 0
  {
  }

  /** Clearing the low `k` bits of a word takes away the remainder by the power of two. */
  lemma {:induction false} AndWithHighBits(w: nat, k: nat, n: nat)
    requires k <= w && n < Pow2(w)
    ensures 0 < Pow2(k) <= Pow2(w)
    ensures BitAnd(w, n, Pow2(w) - Pow2(k)) == n - n % Pow2(k)
  {
    hide BitAnd;
    Pow2Grows(k, w);
    if k == 0 {
      AndWithOnes(w, n);
      RemainderByOne(n);
    } else {
      Pow2Grows(k - 1, w - 1);
      var half, m := Pow2(k - 1), Pow2(w - 1) - Pow2(k - 1);
      assert Pow2(k) == 2 * half && Pow2(w) - Pow2(k) == 2 * m;
      AndWithHighBits(w - 1, k - 1, n / 2);
      HighBitsStep(w, n, m, half);
    }
  }

  lemma HalveRemainder(n: nat, half: nat)
    requires half > 0
    ensures n - n % (2 * half) == 2 * (n / 2 - (n / 2) % half)
  {
    var q, r := (n / 2) / half, (n / 2) % half;
    assert n / 2 == q * half + r;
    assert q * (2 * half) == 2 * (q * half);
    RemainderIs(n, 2 * half, q, 2 * r + n % 2);
  }

  lemma MultipleSign(x: int, d: int)
    requires d >= 0
    ensures x <= 0 ==> x * d <= 0
    ensures x >= 1 ==> x * d >= d
    ensures x <= -1 ==> x * d + d <= 0
  {
    if x >= 1 {
      assert (x - 1) * d >= 0;
    } else if x <= -1 {
      assert (-x - 1) * d >= 0;
    }
  }

  lemma RemainderIs(n: nat, d: nat, q: nat, r: nat)
    requires d > 0 && r < d && n == q * d + r
    ensures n % d == r
  {
    var x := n / d - q;
    Quotient(n, d);
    MinusTimes(n / d, q, d);
    MultipleSign(x, d);
  }

  lemma TwiceTimes(x: nat, y: nat)
    ensures (2 * x) * y == 2 * (x * y)
  {
  }

  lemma {:induction false} Pow2Add(a: nat, b: nat)
    ensures Pow2(a + b) == Pow2(a) * Pow2(b)
  {
    if a > 0 {
      Pow2Add(a - 1, b);
      TwiceTimes(Pow2(a - 1), Pow2(b));
    }
  }

  lemma WordIsPow2()
    ensures Pow2(64) == WORD
  {
    assert Pow2(4) == 16;
    Pow2Add(4, 4);
    Pow2Add(8, 8);
    Pow2Add(16, 16);
    Pow2Add(32, 32);
  }

  lemma NegateIs(align: nat)
    requires 0 < align < WORD
    ensures Negate(align) == WORD - align
  {
  }

  lemma AlignDownIs(n: nat, align: nat)
    requires n < WORD && PowerOfTwo(align)
    ensures 0 < align < WORD && AlignDown(n, align) == n - n % align
  {
    hide BitAnd, Pow2, Negate;
    var k :| 0 <= k < 64 && align == Pow2(k);
    WordIsPow2();
    Pow2Grows(k, 64);
    NegateIs(align);
    AndWithHighBits(64, k, n);
  }

  lemma Quotient(n: nat, d: nat)
    requires d > 0
    ensures n == (n / d) * d + n % d
  {
  }

  lemma MinusTimes(p: int, q: int, d: int)
    ensures (p - q) * d == p * d - q * d
  {
  }

  lemma MultipleBelow(n: nat, m: nat, align: nat)
    requires align > 0 && m <= n && m % align == 0
    ensures m <= n - n % align && (n - n % align) % align == 0
  {
    var q, p := n / align, m / align;
    Quotient(n, align);
    Quotient(m, align);
    RemainderIs(n - n % align, align, q, 0);
    MinusTimes(p, q, align);
    MultipleSign(p - q, align);
  }

  /** Of two multiples, one less than an alignment above the other is not above it at all. */
  lemma NextMultiple(m: nat, u: nat, align: nat)
    requires align > 0 && u < m + align && Multiple(m, align) && Multiple(u, align)
    ensures u <= m
  {
    var p, q := m / align, u / align;
    Quotient(m, align);
    Quotient(u, align);
    MinusTimes(q, p, align);
    MultipleSign(q - p, align);
  }

  /** `AlignDown` is the greatest multiple of the alignment that is not above `n`. */
  lemma AlignDownIsGreatest(n: nat, align: nat)
    requires n < WORD && PowerOfTwo(align)
    ensures 0 < align < WORD
    ensures AlignDown(n, align) <= n < AlignDown(n, align) + align && Multiple(AlignDown(n, align), align)
    ensures forall m: nat :: m <= n && Multiple(m, align) ==> m <= AlignDown(n, align)
  {
    AlignDownIs(n, align);
    MultipleBelow(n, 0, align);
    forall m: nat | m <= n && Multiple(m, align) ensures m <= AlignDown(n, align) {
      MultipleBelow(n, m, align);
    }
  }

  lemma AlignDownOfLess(n: nat, align: nat)
    requires n < align && PowerOfTwo(align)
    ensures align < WORD && AlignDown(n, align) == 0
  {
    AlignDownIs(0, align);
    AlignDownIs(n, align);
    RemainderIs(n, align, 0, n);
  }

  lemma WrapOnce(sum: nat)
    requires sum < 2 * WORD
    ensures sum % WORD == if sum < WORD then sum else sum - WORD
  {
  }

  lemma AlignUpIs(n: nat, align: nat)
    requires n < WORD && PowerOfTwo(align)
    ensures 0 < align < WORD
    ensures var sum := n + (align - 1);
      AlignUp(n, align) == AlignDown(if sum < WORD then sum else sum - WORD, align)
  {
    AlignDownIs(n, align);
    hide BitAnd, Negate, PowerOfTwo;
    WrapOnce(n + (align - 1));
  }

  /** `AlignUp` is the least multiple of the alignment that is not below `n`, unless the addition
      wraps; then, and only then, it is below `n`, namely zero. */
  lemma AlignUpIsLeast(n: nat, align: nat)
    requires n < WORD && PowerOfTwo(align)
    ensures 0 < align < WORD && Multiple(AlignUp(n, align), align)
    ensures n <= AlignUp(n, align) <==> n + align - 1 < WORD
    ensures n + align - 1 < WORD ==> AlignUp(n, align) < n + align
    ensures n + align - 1 < WORD ==> forall m: nat :: n <= m && Multiple(m, align) ==> AlignUp(n, align) <= m
    ensures n + align - 1 >= WORD ==> AlignUp(n, align) == 0
  {
    AlignUpIs(n, align);
    hide AlignUp, AlignDown, Multiple, PowerOfTwo;
    var sum := n + (align - 1);
    if sum < WORD {
      AlignDownIsGreatest(sum, align);
      forall m: nat | n <= m && Multiple(m, align) ensures AlignUp(n, align) <= m {
        NextMultiple(m, AlignUp(n, align), align);
      }
    } else {
      AlignDownOfLess(sum - WORD, align);
      AlignDownIsGreatest(sum - WORD, align);
    }
  }
}
