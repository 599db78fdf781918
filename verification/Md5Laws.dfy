/** What the word operations of RFC 1321, section 2, do to numbers. */
module Md5Laws {
  import opened Machine
  import opened Md5Rfc

  function Pow2(n: nat): (p: nat)
    ensures p > 0
  {
    if n == 0 then 1 else 2 * Pow2(n - 1)
  }

  // ----- the number in a word, and its binary digits -----

  function Half(w: Word): Word { Word(w.bits >> 1) }
  function Odd(w: Word): bool { w.bits & 1 == 1 }

  /** The number in the n low bits. */
  function ValueOf(n: nat, w: Word): nat {
    if n == 0 then 0 else (if Odd(w) then 1 else 0) + 2 * ValueOf(n - 1, Half(w))
  }

  function Value(w: Word): nat {
    ValueOf(32, w)
  }

  function Digit(v: nat, k: nat): nat {
    v / Pow2(k) % 2
  }

  function BitAt(w: Word, k: nat): bool
    decreases k
  {
    if k == 0 then Odd(w) else BitAt(Half(w), k - 1)
  }

  lemma {:induction false} DigitIsBit(n: nat, w: Word, k: nat)
    requires k < n
    ensures Digit(ValueOf(n, w), k) == if BitAt(w, k) then 1 else 0
  {
    hide Odd, Half, Digit;
    HalfDigit(if Odd(w) then 1 else 0, ValueOf(n - 1, Half(w)), k);
    if k > 0 {
      DigitIsBit(n - 1, Half(w), k - 1);
    }
  }

  lemma HalfDigit(low: nat, rest: nat, k: nat)
    requires low < 2
    ensures Digit(low + 2 * rest, k) == if k == 0 then low else Digit(rest, k - 1)
  {
    if k > 0 {
      HalfDiv(low, rest, Pow2(k - 1));
    } else {
      assert Pow2(0) == 1;
    }
  }

  lemma HalfDiv(low: nat, rest: nat, p: nat)
    requires low < 2 && p > 0
    ensures (low + 2 * rest) / (2 * p) == rest / p
  {
    var q, r := rest / p, rest % p;
    assert low + 2 * rest == (2 * p) * q + (2 * r + low) && 2 * r + low < 2 * p;
    QuotientIs(low + 2 * rest, 2 * p, q, 2 * r + low);
  }

  lemma QuotientIs(v: nat, d: nat, q: nat, r: nat)
    requires d > 0 && v == d * q + r && r < d
    ensures v / d == q && v % d == r
  {
    var k := v / d - q;
    assert d * k == r - v % d;
    Small(d, k);
  }

  lemma Small(d: nat, k: int)
    requires d > 0 && 0 - d < d * k < d
    ensures k == 0
  {
  }

  lemma HalfAnd(a: Word, b: Word)
    ensures Half(And(a, b)) == And(Half(a), Half(b)) && Odd(And(a, b)) == (Odd(a) && Odd(b))
  {
  }

  lemma HalfOr(a: Word, b: Word)
    ensures Half(Or(a, b)) == Or(Half(a), Half(b)) && Odd(Or(a, b)) == (Odd(a) || Odd(b))
  {
  }

  lemma HalfXor(a: Word, b: Word)
    ensures Half(Xor(a, b)) == Xor(Half(a), Half(b)) && Odd(Xor(a, b)) == (Odd(a) != Odd(b))
  {
  }

  lemma {:induction false} AndBit(a: Word, b: Word, k: nat)
    ensures BitAt(And(a, b), k) == (BitAt(a, k) && BitAt(b, k))
    decreases k
  {
    hide And, Half, Odd;
    HalfAnd(a, b);
    if k > 0 {
      AndBit(Half(a), Half(b), k - 1);
    }
  }

  lemma {:induction false} OrBit(a: Word, b: Word, k: nat)
    ensures BitAt(Or(a, b), k) == (BitAt(a, k) || BitAt(b, k))
    decreases k
  {
    hide Or, Half, Odd;
    HalfOr(a, b);
    if k > 0 {
      OrBit(Half(a), Half(b), k - 1);
    }
  }

  lemma {:induction false} XorBit(a: Word, b: Word, k: nat)
    ensures BitAt(Xor(a, b), k) == (BitAt(a, k) != BitAt(b, k))
    decreases k
  {
    hide Xor, Half, Odd;
    HalfXor(a, b);
    if k > 0 {
      XorBit(Half(a), Half(b), k - 1);
    }
  }

  /** Low ones only. */
  predicate Mask(m: Word) {
    m.bits & (m.bits + 1) == 0
  }

  lemma MaskHalf(m: Word)
    requires Mask(m)
    ensures Mask(Half(m)) && (!Odd(m) ==> m == Word(0)) && Half(Word(0)) == Word(0) && !Odd(Word(0))
  {
  }

  lemma {:induction false} OnesBelow(m: Word, top: nat, k: nat)
    requires Mask(m) && BitAt(m, top) && k <= top
    ensures BitAt(m, k)
    decreases k
  {
    hide Mask, Half, Odd;
    MaskHalf(m);
    if !Odd(m) {
      NoBit(top);
    } else if k > 0 {
      OnesBelow(Half(m), top - 1, k - 1);
    }
  }

  lemma {:induction false} NoBit(k: nat)
    ensures !BitAt(Word(0), k)
  {
    hide Half, Odd, Mask;
    assert Mask(Word(0)) by { ZeroMask(); }
    MaskHalf(Word(0));
    if k > 0 {
      NoBit(k - 1);
    }
  }

  lemma ZeroMask()
    ensures Mask(Word(0))
  {
  }

  function Eighth(w: Word): Word { Word(w.bits >> 8) }

  lemma EightHalves(w: Word)
    ensures Half(Half(Half(Half(Half(Half(Half(Half(w)))))))) == Eighth(w)
  {
  }

  lemma EightLater(w: Word, k: nat)
    ensures BitAt(w, k + 8) == BitAt(Eighth(w), k)
  {
    hide Half, Odd, Eighth;
    EightHalves(w);
    TwoLater(w, k + 6);
    TwoLater(Half(Half(w)), k + 4);
    TwoLater(Half(Half(Half(Half(w)))), k + 2);
    TwoLater(Half(Half(Half(Half(Half(Half(w)))))), k);
  }

  lemma TwoLater(w: Word, k: nat)
    ensures BitAt(w, k + 2) == BitAt(Half(Half(w)), k)
  {
    hide Half, Odd;
    assert BitAt(w, k + 2) == BitAt(Half(w), k + 1);
  }

  /** The highest bit. */
  predicate Top(w: Word) { w.bits >> 31 == 1 }

  lemma TopBit(w: Word)
    ensures BitAt(w, 31) == Top(w)
  {
    hide Half, Odd, Eighth, Top;
    EightLater(w, 23);
    EightLater(Eighth(w), 15);
    EightLater(Eighth(Eighth(w)), 7);
    var v := Eighth(Eighth(Eighth(w)));
    TwoLater(v, 5);
    TwoLater(Half(Half(v)), 3);
    TwoLater(Half(Half(Half(Half(v)))), 1);
    LastHalf(w);
  }

  lemma LastHalf(w: Word)
    ensures var v := Eighth(Eighth(Eighth(w)));
            Odd(Half(Half(Half(Half(Half(Half(Half(v)))))))) == Top(w)
  {
  }

  const ONES: Word := Word(0xFFFF_FFFF)

  lemma AllOnes(a: Word)
    ensures Xor(a, Not(a)) == ONES && Mask(ONES) && Top(ONES)
  {
  }

  lemma NotBit(a: Word, k: nat)
    requires k < 32
    ensures BitAt(Not(a), k) == !BitAt(a, k)
  {
    hide Xor, Not, Mask, Top, BitAt;
    AllOnes(a);
    XorBit(a, Not(a), k);
    TopBit(ONES);
    OnesBelow(ONES, 31, k);
  }

  /** F chooses between y and z by x, G between x and y by z, H is the parity, and I is y against x or not z. */
  lemma FunctionsByDigit(x: Word, y: Word, z: Word, k: nat)
    requires k < 32
    ensures
      var dx, dy, dz := Digit(Value(x), k), Digit(Value(y), k), Digit(Value(z), k);
      && dx < 2 && dy < 2 && dz < 2
      && Digit(Value(F(x, y, z)), k) == (if dx == 1 then dy else dz)
      && Digit(Value(G(x, y, z)), k) == (if dz == 1 then dx else dy)
      && Digit(Value(H(x, y, z)), k) == (dx + dy + dz) % 2
      && Digit(Value(I(x, y, z)), k) == (dy + (if dx == 1 || dz == 0 then 1 else 0)) % 2
  {
    hide Digit, BitAt, ValueOf, And, Or, Xor, Not;
    ValueDigit(x, k); ValueDigit(y, k); ValueDigit(z, k);
    ValueDigit(F(x, y, z), k); ValueDigit(G(x, y, z), k); ValueDigit(H(x, y, z), k); ValueDigit(I(x, y, z), k);
    NotBit(x, k); NotBit(z, k);
    AndBit(x, y, k); AndBit(Not(x), z, k); OrBit(And(x, y), And(Not(x), z), k);
    AndBit(x, z, k); AndBit(y, Not(z), k); OrBit(And(x, z), And(y, Not(z)), k);
    XorBit(x, y, k); XorBit(Xor(x, y), z, k);
    OrBit(x, Not(z), k); XorBit(y, Or(x, Not(z)), k);
  }

  lemma ValueDigit(w: Word, k: nat)
    requires k < 32
    ensures Digit(Value(w), k) == if BitAt(w, k) then 1 else 0
  {
    hide Digit, BitAt, ValueOf;
    DigitIsBit(32, w, k);
  }

  // ----- rotation -----

  lemma {:induction false} ValueTop(n: nat, w: Word)
    ensures ValueOf(n + 1, w) == ValueOf(n, w) + (if BitAt(w, n) then Pow2(n) else 0)
    ensures ValueOf(n, w) < Pow2(n)
  {
    hide Half, Odd;
    if n > 0 {
      ValueTop(n - 1, Half(w));
    }
  }

  predicate SameUnder(a: Word, b: Word, m: Word) {
    (a.bits ^ b.bits) & m.bits == 0
  }

  lemma SameHalf(a: Word, b: Word, m: Word)
    requires SameUnder(a, b, m)
    ensures SameUnder(Half(a), Half(b), Half(m)) && (Odd(m) ==> Odd(a) == Odd(b))
  {
  }

  /** Words that agree on the n low bits. */
  lemma {:induction false} SameLow(n: nat, a: Word, b: Word, m: Word)
    requires SameUnder(a, b, m) && Mask(m) && (n > 0 ==> BitAt(m, n - 1))
    ensures ValueOf(n, a) == ValueOf(n, b)
  {
    hide SameUnder, Mask, Half, Odd;
    if n > 0 {
      OnesBelow(m, n - 1, 0);
      SameHalf(a, b, m);
      MaskHalf(m);
      SameLow(n - 1, Half(a), Half(b), Half(m));
    }
  }

  const LOW_31: Word := Word(0x7FFF_FFFF)

  lemma RotatedParts(x: Word)
    ensures SameUnder(Half(RotateOne(x)), x, LOW_31) && Mask(LOW_31) && Odd(RotateOne(x)) == Top(x)
    ensures Top(Word(0xFFFF_FFFE)) && Half(Word(0xFFFF_FFFE)) == LOW_31
  {
  }

  /** One position: the number doubles, and what leaves at the top comes in below. */
  lemma RotatesOne(x: Word)
    ensures Value(x) < TWO_32 && Value(RotateOne(x)) == 2 * Value(x) % TWO_32 + Value(x) / 0x8000_0000
  {
    hide SameUnder, Mask, Half, Odd, Top, RotateOne, BitAt, Pow2, ValueOf;
    RotatedParts(x);
    LowMaskTop();
    ValueTop(31, x);
    TopBit(x);
    SameLow(31, Half(RotateOne(x)), x, LOW_31);
    Powers();
    LowestFirst(RotateOne(x));
    Doubled(ValueOf(31, x), if Top(x) then 1 else 0, Value(x), Value(RotateOne(x)));
  }

  lemma LowestFirst(w: Word)
    ensures ValueOf(32, w) == (if Odd(w) then 1 else 0) + 2 * ValueOf(31, Half(w))
  {
    hide Odd, Half;
  }

  lemma Doubled(low: nat, top: nat, v: nat, r: nat)
    requires low < 0x8000_0000 && top < 2 && v == low + 0x8000_0000 * top && r == top + 2 * low
    ensures v < TWO_32 && r == 2 * v % TWO_32 + v / 0x8000_0000
  {
  }

  lemma LowMaskTop()
    ensures BitAt(LOW_31, 30)
  {
    hide Top, Half, Odd;
    RotatedParts(LOW_31);
    TopBit(Word(0xFFFF_FFFE));
    assert BitAt(Word(0xFFFF_FFFE), 31) == BitAt(Half(Word(0xFFFF_FFFE)), 30);
  }

  lemma Powers()
    ensures Pow2(31) == 0x8000_0000 && Pow2(32) == TWO_32
  {
    assert Pow2(8) == 0x100;
    PowSum(8, 8);
    PowSum(16, 16);
    assert Pow2(32) == 2 * Pow2(31);
  }

  lemma {:induction false} PowSum(n: nat, m: nat)
    ensures Pow2(n) * Pow2(m) == Pow2(n + m)
  {
    if n > 0 {
      PowSum(n - 1, m);
      assert Pow2(n) * Pow2(m) == 2 * (Pow2(n - 1) * Pow2(m));
    }
  }

  /** The rotation in numbers: n positions are a multiplication that wraps, plus what leaves at the top. */
  lemma {:induction false} RotatesValue(x: Word, n: nat)
    requires n <= 32
    ensures Value(x) < TWO_32
    ensures Value(RotateLeft(x, n)) == Value(x) * Pow2(n) % TWO_32 + Value(x) / Pow2(32 - n)
  {
    hide Value, RotateOne, Turned, Pow2;
    RotatesOne(x);
    TurnedIs(Value(x), n);
    if n == 0 {
      NotTurned(Value(x));
    } else {
      RotatesValue(x, n - 1);
      TurnedIs(Value(x), n - 1);
      RotatesOne(RotateLeft(x, n - 1));
      OnePlaceMore(Value(x), n - 1);
    }
  }

  /** The two parts of a number, the low one moved up by n places and the high one below it. */
  function Turned(v: nat, n: nat): int
    requires n <= 32
  {
    Exchanged(v, Pow2(n), Pow2(32 - n))
  }

  function Exchanged(v: nat, p: nat, d: nat): int
    requires d > 0
  {
    (v % d) * p + v / d
  }

  lemma NotTurned(v: nat)
    requires v < TWO_32
    ensures Turned(v, 0) == v
  {
    Powers();
  }

  lemma TurnedIs(v: nat, n: nat)
    requires n <= 32 && v < TWO_32
    ensures Turned(v, n) == v * Pow2(n) % TWO_32 + v / Pow2(32 - n)
  {
    hide Pow2;
    Powers();
    PowSum(n, 32 - n);
    ExchangedIs(v, Pow2(n), Pow2(32 - n));
  }

  lemma ExchangedIs(v: nat, p: nat, d: nat)
    requires d > 0 && p * d == TWO_32
    ensures Exchanged(v, p, d) == v * p % TWO_32 + v / d
  {
    Product(v, p, d, v / d, v % d);
  }

  lemma Product(v: nat, p: nat, d: nat, high: nat, low: nat)
    requires p * d == TWO_32 && v == d * high + low && low < d
    ensures v * p % TWO_32 == low * p
  {
    assert v * p == (p * d) * high + low * p;
    assert (low + 1) * p <= d * p;
    if p > 0 {
      QuotientIs(v * p, TWO_32, high, low * p);
    }
  }

  lemma OnePlaceMore(v: nat, n: nat)
    requires v < TWO_32 && n < 32
    ensures 2 * Turned(v, n) % TWO_32 + Turned(v, n) / 0x8000_0000 == Turned(v, n + 1)
  {
    hide Pow2, Exchanged;
    PowSum(n, 31 - n);
    Powers();
    Doubles(n);
    ExchangedNext(v, Pow2(n), Pow2(31 - n));
  }

  lemma ExchangedNext(v: nat, p: nat, q: nat)
    requires v < TWO_32 && q > 0 && p * q == 0x8000_0000
    ensures 2 * Exchanged(v, p, 2 * q) % TWO_32 + Exchanged(v, p, 2 * q) / 0x8000_0000 == Exchanged(v, 2 * p, q)
  {
    hide Exchanged;
    var d := 2 * q;
    var high, low := v / d, v % d;
    Parts(v, d);
    var b, r := low / q, low % q;
    Parts(low, q);
    Halves(v, q, high, low, b, r);
    ExchangedParts(v, p, d, high, low);
    ExchangedParts(v, 2 * p, q, 2 * high + b, r);
    Wraps(p, q, high, low, b, r, v);
  }

  lemma Parts(v: nat, d: nat)
    requires d > 0
    ensures v == d * (v / d) + v % d && v % d < d
  {
  }

  lemma ExchangedParts(v: nat, p: nat, d: nat, high: nat, low: nat)
    requires d > 0 && v / d == high && v % d == low
    ensures Exchanged(v, p, d) == low * p + high
  {
  }

  lemma Doubles(n: nat)
    requires n < 32
    ensures Pow2(32 - n) == 2 * Pow2(31 - n) && Pow2(n + 1) == 2 * Pow2(n)
  {
  }

  lemma Halves(v: nat, q: nat, high: nat, low: nat, b: nat, r: nat)
    requires q > 0 && v == (2 * q) * high + low && low < 2 * q && low == q * b + r && r < q
    ensures b < 2 && v / q == 2 * high + b && v % q == r
  {
    AtMostOne(q, b);
    assert v == q * (2 * high + b) + r;
    QuotientIs(v, q, 2 * high + b, r);
  }

  lemma AtMostOne(q: nat, b: nat)
    requires q * b < 2 * q
    ensures b < 2
  {
  }

  lemma Wraps(p: nat, q: nat, high: nat, low: nat, b: nat, r: nat, v: nat)
    requires p * q == 0x8000_0000 && low == q * b + r && b < 2 && r < q && v == (2 * q) * high + low && v < TWO_32
    ensures 2 * (low * p + high) % TWO_32 + (low * p + high) / 0x8000_0000 == r * (2 * p) + (2 * high + b)
  {
    var rp, pq := r * p, p * q;
    LowTimes(q, b, r, low, p);
    assert rp + p <= pq by { Least(r, q, p); }
    AtMost(high, p, q, v);
    JustArithmetic(b, rp + high, low * p + high);
  }

  lemma LowTimes(q: nat, b: nat, r: nat, low: nat, p: nat)
    requires low == q * b + r && b < 2
    ensures low * p == (if b == 0 then 0 else p * q) + r * p
  {
    if b == 1 {
      Distribute(q, r, p);
    }
  }

  lemma Least(r: nat, q: nat, p: nat)
    requires r < q
    ensures r * p + p <= p * q
  {
    var k: nat := q - (r + 1);
    Distribute(r + 1, k, p);
    Distribute(r, 1, p);
    NotNegative(k, p);
  }

  lemma Distribute(a: nat, b: nat, p: nat)
    ensures (a + b) * p == a * p + b * p
  {
  }

  lemma NotNegative(a: nat, b: nat)
    ensures a * b >= 0
  {
  }

  lemma JustArithmetic(b: nat, rest: nat, sum: nat)
    requires b < 2 && rest < 0x8000_0000 && sum == 0x8000_0000 * b + rest
    ensures 2 * sum % TWO_32 + sum / 0x8000_0000 == 2 * rest + b
  {
  }

  lemma AtMost(high: nat, p: nat, q: nat, v: nat)
    requires p * q == 0x8000_0000 && (2 * q) * high <= v < TWO_32
    ensures high < p
  {
    assert q * high < q * p;
    Less(q, high, p);
  }

  lemma Less(q: nat, a: nat, b: nat)
    requires q * a < q * b
    ensures a < b
  {
  }
}
