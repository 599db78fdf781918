/** CRC-8 of the SDIO headers (`crc8_ponl_107`), proved to be polynomial division over GF(2). */
module Crc8 {

  // ----- polynomials over GF(2) -----

  /** The polynomial whose terms with coefficient 1 have exactly these exponents. */
  type Poly = set<nat>

  /** x^8 + x^2 + x + 1 */
  const GENERATOR: Poly := {8, 2, 1, 0}

  ghost function Add(p: Poly, q: Poly): Poly {
    (p - q) + (q - p)
  }

  /** p(x) * x^k */
  ghost function Shift(p: Poly, k: nat): Poly {
    set e | e in p :: e + k
  }

  ghost predicate Coefficient(bits: seq<bool>, e: nat) {
    e < |bits| && bits[|bits| - 1 - e]
  }

  /** The polynomial whose coefficients, highest power first, are `bits`. */
  ghost function PolyOf(bits: seq<bool>): Poly {
    set e: nat | e < |bits| && Coefficient(bits, e)
  }

  /** q(x) * p(x) by Horner's rule, q given by its coefficients, highest power first. */
  ghost function Mul(q: seq<bool>, p: Poly): Poly {
    if q == [] then {}
    else Add(Shift(Mul(q[..|q| - 1], p), 1), if q[|q| - 1] then p else {})
  }

  /** r is what is left of m(x) * x^8 after division by the generator. */
  ghost predicate IsRemainder(m: Poly, r: Poly) {
    && (forall e | e in r :: e < 8)
    && exists q :: Shift(m, 8) == Add(Mul(q, GENERATOR), r)
  }

  lemma AddAssociates(p: Poly, q: Poly, r: Poly)
    ensures Add(Add(p, q), r) == Add(p, Add(q, r))
  {
  }

  lemma MoveTerm(m: Poly, s: Poly, g: Poly)
    ensures Add(m, s) == Add(Add(m, g), Add(s, g))
    ensures Add(m, {}) == m
  {
  }

  lemma ShiftMember(p: Poly, k: nat, e: nat)
    ensures e in Shift(p, k) <==> e >= k && e - k in p
  {
    if e >= k && e - k in p {
      assert e - k + k in Shift(p, k);
    }
  }

  lemma ShiftAdds(p: Poly, q: Poly, k: nat)
    ensures Shift(Add(p, q), k) == Add(Shift(p, k), Shift(q, k))
  {
    forall e: nat
      ensures e in Shift(Add(p, q), k) <==> e in Add(Shift(p, k), Shift(q, k))
    {
      ShiftMember(p, k, e);
      ShiftMember(q, k, e);
      ShiftMember(Add(p, q), k, e);
    }
  }

  // ----- the shift register, as a polynomial of degree below 8 -----

  /** (r(x) * x + b * x^8) modulo the generator. */
  ghost function Step(r: Poly, b: bool): Poly {
    var s := Add(Shift(r, 1), if b then {8} else {});
    if 8 in s then Add(s, GENERATOR) else s
  }

  ghost function Run(r: Poly, bits: seq<bool>): Poly {
    if bits == [] then r else Step(Run(r, bits[..|bits| - 1]), bits[|bits| - 1])
  }

  ghost predicate Short(r: Poly) {
    forall e | e in r :: e < 8
  }

  lemma StepShort(r: Poly, b: bool)
    requires Short(r)
    ensures Short(Step(r, b))
  {
  }

  lemma {:induction false} RunShort(r: Poly, bits: seq<bool>)
    requires Short(r)
    ensures Short(Run(r, bits))
    decreases |bits|
  {
    if bits != [] {
      RunShort(r, bits[..|bits| - 1]);
      StepShort(Run(r, bits[..|bits| - 1]), bits[|bits| - 1]);
    }
  }

  lemma {:induction false} RunAppend(r: Poly, s: seq<bool>, t: seq<bool>)
    ensures Run(r, s + t) == Run(Run(r, s), t)
    decreases |t|
  {
    if t == [] {
      assert s + t == s;
    } else {
      var n := |t| - 1;
      assert (s + t)[..|s + t| - 1] == s + t[..n];
      RunAppend(r, s, t[..n]);
    }
  }

  // ----- bytes -----

  function Bits(b: bv8): (s: seq<bool>)
    ensures |s| == 8
  {
    [b & 0x80 != 0, b & 0x40 != 0, b & 0x20 != 0, b & 0x10 != 0,
     b & 0x08 != 0, b & 0x04 != 0, b & 0x02 != 0, b & 0x01 != 0]
  }

  ghost function MessageBits(m: seq<bv8>): (s: seq<bool>)
    ensures |s| == 8 * |m|
  {
    if m == [] then [] else MessageBits(m[..|m| - 1]) + Bits(m[|m| - 1])
  }

  /** What the program does to the register for one message bit. */
  function Clock(crc: bv8, bit: bool): bv8 {
    var shifted := if crc & 0x80 != 0 then (crc << 1) ^ 0x07 else crc << 1;
    if bit then shifted ^ 0x07 else shifted
  }

  function ClockBits(crc: bv8, bits: seq<bool>): bv8 {
    if bits == [] then crc else Clock(ClockBits(crc, bits[..|bits| - 1]), bits[|bits| - 1])
  }

  function Crc(m: seq<bv8>): bv8 {
    if m == [] then 0 else ClockBits(Crc(m[..|m| - 1]), Bits(m[|m| - 1]))
  }

  /** The nested loop: bytes from first to last, the bits of each from the highest down. */
  method Crc8Ponl107(buffer: array<bv8>, calSize: nat) returns (crc: bv8)
    requires calSize <= buffer.Length && calSize < 0x1_0000
    ensures crc == Crc(buffer[..calSize])
  {
    crc := 0;
    if calSize == 0 {
      return;
    }
    var k := 0;
    while k < calSize
      invariant 0 <= k <= calSize
      invariant crc == Crc(buffer[..k])
    {
      assert buffer[..k + 1][..k] == buffer[..k];
      crc := ClockByte(crc, buffer[k]);
      k := k + 1;
    }
  }

  /** The inner loop: the mask runs from 0x80 down to 0x01. */
  method ClockByte(start: bv8, b: bv8) returns (crc: bv8)
    ensures crc == ClockBits(start, Bits(b))
  {
    hide Bits, ClockBits, Mask, Clock;
    assert Mask(0) == 0x80 && Mask(8) == 0 by { MaskEnds(); }
    assert ClockBits(start, Bits(b)[..0]) == start by { ClockNone(start); }
    crc := start;
    var i: bv8 := 0x80;
    ghost var n := 0;
    while i > 0
      invariant 0 <= n <= 8
      invariant i == Mask(n) && (n < 8 <==> i > 0)
      invariant crc == ClockBits(start, Bits(b)[..n])
      decreases 8 - n
    {
      MaskBit(b, n);
      ClockNext(start, Bits(b), n);
      crc := ClockBit(crc, b & i != 0);
      i := i >> 1;
      n := n + 1;
    }
    assert Bits(b)[..n] == Bits(b);
  }

  /** One turn of the inner loop. */
  method ClockBit(start: bv8, bit: bool) returns (crc: bv8)
    ensures crc == Clock(start, bit)
  {
    crc := start;
    if crc & 0x80 != 0 {
      crc := crc << 1;
      crc := crc ^ 0x07;
    } else {
      crc := crc << 1;
    }
    if bit {
      crc := crc ^ 0x07;
    }
  }

  lemma MaskEnds()
    ensures Mask(0) == 0x80 && Mask(8) == 0
  {
  }

  lemma ClockNone(crc: bv8)
    ensures ClockBits(crc, []) == crc
  {
  }

  lemma ClockNext(crc: bv8, bits: seq<bool>, n: nat)
    requires n < |bits|
    ensures ClockBits(crc, bits[..n + 1]) == Clock(ClockBits(crc, bits[..n]), bits[n])
  {
    assert bits[..n + 1][..n] == bits[..n];
  }

  ghost function Mask(n: nat): bv8
    requires n <= 8
  {
    match n
    case 0 => 0x80
    case 1 => 0x40
    case 2 => 0x20
    case 3 => 0x10
    case 4 => 0x08
    case 5 => 0x04
    case 6 => 0x02
    case 7 => 0x01
    case 8 => 0x00
  }

  lemma MaskBit(b: bv8, n: nat)
    requires n < 8
    ensures Bits(b)[n] == (b & Mask(n) != 0)
    ensures Mask(n) > 0 && Mask(n) >> 1 == Mask(n + 1) && (n + 1 < 8 <==> Mask(n + 1) > 0)
  {
    if n < 4 {
      match n
      case 0 => case 1 => case 2 => case 3 =>
    } else {
      match n
      case 4 => case 5 => case 6 => case 7 =>
    }
  }

  // ----- the program's register is the polynomial register -----

  /** One clock drops the top bit q, shifts, and adds q to the three low coefficients. */
  lemma ClockShifts(c: bv8, bit: bool)
    ensures var s := Bits(c); var q := s[0] != bit;
            Bits(Clock(c, bit)) ==
            [s[1], s[2], s[3], s[4], s[5], s[6] != q, s[7] != q, q]
  {
  }

  lemma ShiftIsStep(s: seq<bool>, t: seq<bool>, bit: bool)
    requires |s| == 8
    requires var q := s[0] != bit;
             t == [s[1], s[2], s[3], s[4], s[5], s[6] != q, s[7] != q, q]
    ensures PolyOf(t) == Step(PolyOf(s), bit)
  {
    forall e: nat
      ensures e in PolyOf(t) <==> e in Step(PolyOf(s), bit)
    {
      assert e in PolyOf(t) <==> Coefficient(t, e);
      ShiftMember(PolyOf(s), 1, e);
      ShiftMember(PolyOf(s), 1, 8);
      assert 7 in PolyOf(s) <==> Coefficient(s, 7);
      if e >= 1 {
        assert e - 1 in PolyOf(s) <==> Coefficient(s, e - 1);
      }
    }
  }

  lemma {:induction false} ClockIsRun(c: bv8, bits: seq<bool>)
    ensures PolyOf(Bits(ClockBits(c, bits))) == Run(PolyOf(Bits(c)), bits)
    decreases |bits|
  {
    hide Clock, Bits;
    if bits != [] {
      var n := |bits| - 1;
      var d := ClockBits(c, bits[..n]);
      ClockIsRun(c, bits[..n]);
      ClockShifts(d, bits[n]);
      ShiftIsStep(Bits(d), Bits(Clock(d, bits[n])), bits[n]);
    }
  }

  lemma ZeroPoly()
    ensures PolyOf(Bits(0)) == {}
  {
    assert forall e: nat | e < 8 :: !Coefficient(Bits(0), e);
  }

  lemma {:induction false} CrcIsRun(m: seq<bv8>)
    ensures PolyOf(Bits(Crc(m))) == Run({}, MessageBits(m))
    decreases |m|
  {
    if m == [] {
      ZeroPoly();
    } else {
      var n := |m| - 1;
      CrcIsRun(m[..n]);
      ClockIsRun(Crc(m[..n]), Bits(m[n]));
      RunAppend({}, MessageBits(m[..n]), Bits(m[n]));
    }
  }

  // ----- division -----

  lemma PolyOfNext(bits: seq<bool>)
    requires bits != []
    ensures var n := |bits| - 1;
            Shift(PolyOf(bits), 8) ==
            Add(Shift(Shift(PolyOf(bits[..n]), 8), 1), if bits[n] then {8} else {})
  {
    var n := |bits| - 1;
    var init := PolyOf(bits[..n]);
    forall e: nat
      ensures e in Shift(PolyOf(bits), 8) <==>
              e in Add(Shift(Shift(init, 8), 1), if bits[n] then {8} else {})
    {
      ShiftMember(PolyOf(bits), 8, e);
      ShiftMember(Shift(init, 8), 1, e);
      if e >= 9 {
        ShiftMember(init, 8, e - 1);
        assert e - 9 in init <==> Coefficient(bits[..n], e - 9);
        assert e - 8 in PolyOf(bits) <==> Coefficient(bits, e - 8);
      } else if e == 8 {
        ShiftMember(init, 8, 7);
        assert 0 in PolyOf(bits) <==> Coefficient(bits, 0);
      }
    }
  }

  /** The register holds the remainder, and the bits that fed back are the quotient. */
  lemma {:induction false} Division(bits: seq<bool>) returns (q: seq<bool>)
    ensures Shift(PolyOf(bits), 8) == Add(Mul(q, GENERATOR), Run({}, bits))
    decreases |bits|
  {
    if bits == [] {
      q := [];
    } else {
      var n := |bits| - 1;
      var q0 := Division(bits[..n]);
      var r0 := Run({}, bits[..n]);
      var b := if bits[n] then {8} else {};
      var s := Add(Shift(r0, 1), b);
      q := q0 + [8 in s];
      PolyOfNext(bits);
      assert q[..|q| - 1] == q0;
      hide Shift, PolyOf;
      var m := Shift(Mul(q0, GENERATOR), 1);
      ShiftAdds(Mul(q0, GENERATOR), r0, 1);
      AddAssociates(m, Shift(r0, 1), b);
      MoveTerm(m, s, GENERATOR);
    }
  }

  // ----- the remainder is unique -----

  ghost function XorBits(s: seq<bool>, t: seq<bool>): (r: seq<bool>)
    requires |s| == |t|
    ensures |r| == |s|
    ensures forall i :: 0 <= i < |s| ==> r[i] == (s[i] != t[i])
  {
    seq(|s|, i requires 0 <= i < |s| => s[i] != t[i])
  }

  lemma {:induction false} MulXor(s: seq<bool>, t: seq<bool>, p: Poly)
    requires |s| == |t|
    ensures Mul(XorBits(s, t), p) == Add(Mul(s, p), Mul(t, p))
    decreases |s|
  {
    if s != [] {
      var n := |s| - 1;
      MulXor(s[..n], t[..n], p);
      assert XorBits(s, t)[..n] == XorBits(s[..n], t[..n]);
      ShiftAdds(Mul(s[..n], p), Mul(t[..n], p), 1);
    }
  }

  lemma {:induction false} MulPad(k: nat, q: seq<bool>, p: Poly)
    ensures Mul(seq(k, _ => false) + q, p) == Mul(q, p)
    decreases k + |q|
  {
    var padded := seq(k, _ => false) + q;
    if q != [] {
      assert padded[..|padded| - 1] == seq(k, _ => false) + q[..|q| - 1];
      MulPad(k, q[..|q| - 1], p);
    } else if k > 0 {
      assert padded[..|padded| - 1] == seq(k - 1, _ => false) + q;
      MulPad(k - 1, q, p);
    }
  }

  lemma {:induction false} NoTerms(q: seq<bool>)
    requires true !in q
    ensures Mul(q, GENERATOR) == {}
    decreases |q|
  {
    if q != [] {
      NoTerms(q[..|q| - 1]);
    }
  }

  /** A non-zero multiple of the generator has a term of degree at least 8. */
  lemma {:induction false} TopTerm(q: seq<bool>, k: nat)
    requires k < |q| && q[k] && true !in q[..k]
    ensures |q| - 1 - k + 8 in Mul(q, GENERATOR)
    decreases |q|
  {
    var n := |q| - 1;
    if k < n {
      assert q[..n][..k] == q[..k];
      TopTerm(q[..n], k);
      ShiftMember(Mul(q[..n], GENERATOR), 1, |q| - 1 - k + 8);
    } else {
      NoTerms(q[..n]);
      assert Shift(Mul(q[..n], GENERATOR), 1) == {};
    }
  }

  lemma FirstTrue(q: seq<bool>) returns (k: nat)
    requires true in q
    ensures k < |q| && q[k] && true !in q[..k]
  {
    k := 0;
    while !q[k]
      invariant k < |q| && true !in q[..k] && true in q[k..]
      decreases |q| - k
    {
      k := k + 1;
    }
  }

  lemma RemainderUnique(m: Poly, r: Poly, s: Poly)
    requires IsRemainder(m, r) && IsRemainder(m, s)
    ensures r == s
  {
    var q :| Shift(m, 8) == Add(Mul(q, GENERATOR), r);
    var t :| Shift(m, 8) == Add(Mul(t, GENERATOR), s);
    var a, b := seq(|t|, _ => false) + q, seq(|q|, _ => false) + t;
    MulPad(|t|, q, GENERATOR);
    MulPad(|q|, t, GENERATOR);
    var d := XorBits(a, b);
    MulXor(a, b, GENERATOR);
    assert Mul(d, GENERATOR) == Add(r, s);
    if true in d {
      var k := FirstTrue(d);
      TopTerm(d, k);
      assert false;
    } else {
      NoTerms(d);
    }
  }

  /** The checksum is the remainder of M(x) * x^8, and nothing else is. */
  lemma CrcIsRemainder(m: seq<bv8>, r: Poly)
    ensures IsRemainder(PolyOf(MessageBits(m)), r) <==> r == PolyOf(Bits(Crc(m)))
  {
    var bits := MessageBits(m);
    var q := Division(bits);
    CrcIsRun(m);
    RunShort({}, bits);
    assert IsRemainder(PolyOf(bits), Run({}, bits));
    if IsRemainder(PolyOf(bits), r) {
      RemainderUnique(PolyOf(bits), r, Run({}, bits));
    }
  }

  // ----- linearity -----

  lemma StepLinear(p: Poly, q: Poly, a: bool, b: bool)
    ensures Step(Add(p, q), a != b) == Add(Step(p, a), Step(q, b))
  {
    ShiftAdds(p, q, 1);
  }

  lemma {:induction false} RunLinear(p: Poly, q: Poly, s: seq<bool>, t: seq<bool>)
    requires |s| == |t|
    ensures Run(Add(p, q), XorBits(s, t)) == Add(Run(p, s), Run(q, t))
    decreases |s|
  {
    if s != [] {
      var n := |s| - 1;
      RunLinear(p, q, s[..n], t[..n]);
      assert XorBits(s, t)[..n] == XorBits(s[..n], t[..n]);
      StepLinear(Run(p, s[..n]), Run(q, t[..n]), s[n], t[n]);
    }
  }

  lemma BitXor(c: bv8, d: bv8, n: nat)
    requires n < 8
    ensures Bits(c ^ d)[n] == (Bits(c)[n] != Bits(d)[n])
  {
    hide Bits;
    MaskBit(c, n);
    MaskBit(d, n);
    MaskBit(c ^ d, n);
    match n
    case 0 => MaskXor(c, d, 0x80);
    case 1 => MaskXor(c, d, 0x40);
    case 2 => MaskXor(c, d, 0x20);
    case 3 => MaskXor(c, d, 0x10);
    case 4 => MaskXor(c, d, 0x08);
    case 5 => MaskXor(c, d, 0x04);
    case 6 => MaskXor(c, d, 0x02);
    case 7 => MaskXor(c, d, 0x01);
  }

  lemma MaskXor(c: bv8, d: bv8, m: bv8)
    requires m == 0x80 || m == 0x40 || m == 0x20 || m == 0x10 || m == 8 || m == 4 || m == 2 || m == 1
    ensures ((c ^ d) & m != 0) == ((c & m != 0) != (d & m != 0))
  {
  }

  ghost function XorBytes(a: seq<bv8>, b: seq<bv8>): (r: seq<bv8>)
    requires |a| == |b|
    ensures |r| == |a|
  {
    seq(|a|, i requires 0 <= i < |a| => a[i] ^ b[i])
  }

  lemma ByteBitsXor(c: bv8, d: bv8)
    ensures Bits(c ^ d) == XorBits(Bits(c), Bits(d))
  {
    hide Bits;
    forall i | 0 <= i < 8
      ensures Bits(c ^ d)[i] == (Bits(c)[i] != Bits(d)[i])
    {
      BitXor(c, d, i);
    }
  }

  lemma {:induction false} MessageBitsXor(a: seq<bv8>, b: seq<bv8>)
    requires |a| == |b|
    ensures MessageBits(XorBytes(a, b)) == XorBits(MessageBits(a), MessageBits(b))
    decreases |a|
  {
    hide Bits;
    if a != [] {
      var n := |a| - 1;
      MessageBitsXor(a[..n], b[..n]);
      assert XorBytes(a, b)[..n] == XorBytes(a[..n], b[..n]);
      ByteBitsXor(a[n], b[n]);
      XorConcat(MessageBits(a[..n]), MessageBits(b[..n]), Bits(a[n]), Bits(b[n]));
    }
  }

  lemma XorConcat(s: seq<bool>, t: seq<bool>, u: seq<bool>, v: seq<bool>)
    requires |s| == |t| && |u| == |v|
    ensures XorBits(s + u, t + v) == XorBits(s, t) + XorBits(u, v)
  {
  }

  /** XOR-ing two messages of one length XORs their checksums. */
  lemma {:induction false} CrcLinear(a: seq<bv8>, b: seq<bv8>)
    requires |a| == |b|
    ensures PolyOf(Bits(Crc(XorBytes(a, b)))) == Add(PolyOf(Bits(Crc(a))), PolyOf(Bits(Crc(b))))
  {
    hide Bits, Crc;
    MessageBitsXor(a, b);
    RunLinear({}, {}, MessageBits(a), MessageBits(b));
    CrcIsRun(a);
    CrcIsRun(b);
    CrcIsRun(XorBytes(a, b));
    assert Add({}, {}) == {};
  }

  // ----- error detection -----

  /** A register fed its own bits never feeds back: they are shifted out and zeros come in. */
  lemma {:induction false} RunOwnBits(d: seq<bool>, n: nat)
    requires |d| == 8 && n <= 8
    ensures Run(PolyOf(d), d[..n]) == PolyOf(d[n..] + seq(n, _ => false))
  {
    hide Step, PolyOf, Coefficient;
    if n == 0 {
      assert d[0..] + seq(0, _ => false) == d;
    } else {
      RunOwnBits(d, n - 1);
      assert d[..n][..n - 1] == d[..n - 1];
      var s, t := d[n - 1..] + seq(n - 1, _ => false), d[n..] + seq(n, _ => false);
      assert forall i :: 0 <= i < 7 ==> t[i] == s[i + 1];
      ShiftIsStep(s, t, d[n - 1]);
    }
  }

  lemma StepInjective(p: Poly, q: Poly, b: bool)
    requires Short(p) && Short(q) && p != q
    ensures Step(p, b) != Step(q, b)
  {
    var d := Add(p, q);
    var e :| e in d;
    StepLinear(p, q, b, b);
    ShiftMember(d, 1, e + 1);
    ShiftMember(d, 1, 0);
    assert Step(d, false) != {};
  }

  lemma {:induction false} RunInjective(p: Poly, q: Poly, s: seq<bool>)
    requires Short(p) && Short(q) && p != q
    ensures Run(p, s) != Run(q, s)
    decreases |s|
  {
    if s != [] {
      var n := |s| - 1;
      RunInjective(p, q, s[..n]);
      RunShort(p, s[..n]);
      RunShort(q, s[..n]);
      StepInjective(Run(p, s[..n]), Run(q, s[..n]), s[n]);
    }
  }

  lemma EightBitsCancel(p: Poly, d: seq<bool>)
    requires |d| == 8 && Short(p)
    ensures Run(p, d) == {} <==> p == PolyOf(d)
  {
    RunOwnBits(d, 8);
    assert d[..8] == d;
    assert PolyOf(d[8..] + seq(8, _ => false)) == {};
    if p != PolyOf(d) {
      RunInjective(p, PolyOf(d), d);
    }
  }

  lemma PolyInjective(s: seq<bool>, t: seq<bool>)
    requires |s| == |t| && PolyOf(s) == PolyOf(t)
    ensures s == t
  {
    forall i | 0 <= i < |s|
      ensures s[i] == t[i]
    {
      assert |s| - 1 - i in PolyOf(s) <==> Coefficient(s, |s| - 1 - i);
      assert |s| - 1 - i in PolyOf(t) <==> Coefficient(t, |s| - 1 - i);
    }
  }

  lemma BitsInjective(c: bv8, d: bv8)
    requires Bits(c) == Bits(d)
    ensures c == d
  {
    var s, t := Bits(c), Bits(d);
    assert s[0] == t[0] && s[1] == t[1] && s[2] == t[2] && s[3] == t[3];
    assert s[4] == t[4] && s[5] == t[5] && s[6] == t[6] && s[7] == t[7];
  }

  /** A receiver that runs over message and checksum reads 0 exactly when the checksum is right. */
  lemma ResidueZero(m: seq<bv8>, c: bv8)
    ensures Crc(m + [c]) == 0 <==> c == Crc(m)
  {
    var all := m + [c];
    assert all[..|m|] == m;
    CrcIsRun(m);
    CrcIsRun(all);
    RunAppend({}, MessageBits(m), Bits(c));
    RunShort({}, MessageBits(m));
    EightBitsCancel(Run({}, MessageBits(m)), Bits(c));
    ZeroPoly();
    if Crc(all) == 0 {
      PolyInjective(Bits(c), Bits(Crc(m)));
      BitsInjective(c, Crc(m));
    }
    if c == Crc(m) {
      PolyInjective(Bits(Crc(all)), Bits(0));
      BitsInjective(Crc(all), 0);
    }
  }

  lemma WindowInjective(r: Poly, s: seq<bool>, t: seq<bool>)
    requires |s| == |t| == 8 && s != t && Short(r)
    ensures Run(r, s) != Run(r, t)
  {
    RunLinear(r, r, s, t);
    assert Add(r, r) == {};
    EightBitsCancel({}, XorBits(s, t));
    if PolyOf(XorBits(s, t)) == {} {
      forall i | 0 <= i < 8
        ensures s[i] == t[i]
      {
        assert 7 - i in PolyOf(XorBits(s, t)) <==> Coefficient(XorBits(s, t), 7 - i);
      }
    }
  }

  /** An error confined to 8 consecutive bits, wherever they start, is always detected. */
  lemma {:induction false} BurstDetected(a: seq<bv8>, b: seq<bv8>, k: nat)
    requires |a| == |b| && MessageBits(a) != MessageBits(b)
    requires k + 8 <= 8 * |a|
    requires forall i :: 0 <= i < 8 * |a| && !(k <= i < k + 8) ==> MessageBits(a)[i] == MessageBits(b)[i]
    ensures Crc(a) != Crc(b)
  {
    hide Bits, MessageBits, Crc, PolyOf, Run;
    var s, t := MessageBits(a), MessageBits(b);
    assert s[..k] == t[..k] && s[k + 8..] == t[k + 8..];
    assert s == s[..k] + s[k..k + 8] + s[k + 8..];
    assert t == t[..k] + t[k..k + 8] + t[k + 8..];
    RunAppend({}, s[..k] + s[k..k + 8], s[k + 8..]);
    RunAppend({}, t[..k] + t[k..k + 8], t[k + 8..]);
    RunAppend({}, s[..k], s[k..k + 8]);
    RunAppend({}, t[..k], t[k..k + 8]);
    var r := Run({}, s[..k]);
    RunShort({}, s[..k]);
    WindowInjective(r, s[k..k + 8], t[k..k + 8]);
    RunShort(r, s[k..k + 8]);
    RunShort(r, t[k..k + 8]);
    RunInjective(Run(r, s[k..k + 8]), Run(r, t[k..k + 8]), s[k + 8..]);
    CrcIsRun(a);
    CrcIsRun(b);
  }

  // ----- a known answer -----

  const DIGITS: seq<bv8> := [0x31, 0x32, 0x33, 0x34, 0x35, 0x36, 0x37, 0x38, 0x39]

  function Through(c: bv8, b: bv8): bv8 {
    var c1 := Clock(Clock(c, b & 0x80 != 0), b & 0x40 != 0);
    var c2 := Clock(Clock(c1, b & 0x20 != 0), b & 0x10 != 0);
    var c3 := Clock(Clock(c2, b & 0x08 != 0), b & 0x04 != 0);
    Clock(Clock(c3, b & 0x02 != 0), b & 0x01 != 0)
  }

  lemma {:induction false} ThroughBits(c: bv8, b: bv8)
    ensures ClockBits(c, Bits(b)) == Through(c, b)
  {
    hide Clock, Bits;
    var s := Bits(b);
    BitsOf(b);
    assert ClockBits(c, s[..0]) == c;
    ClockNext(c, s, 0);
    ClockNext(c, s, 1);
    ClockNext(c, s, 2);
    ClockNext(c, s, 3);
    ClockNext(c, s, 4);
    ClockNext(c, s, 5);
    ClockNext(c, s, 6);
    ClockNext(c, s, 7);
    assert s[..8] == s;
  }

  lemma BitsOf(b: bv8)
    ensures Bits(b) == [b & 0x80 != 0, b & 0x40 != 0, b & 0x20 != 0, b & 0x10 != 0,
                        b & 0x08 != 0, b & 0x04 != 0, b & 0x02 != 0, b & 0x01 != 0]
  {
  }

  lemma OneByte(m: seq<bv8>, c: bv8, b: bv8, r: bv8)
    requires Crc(m) == c && Through(c, b) == r
    ensures Crc(m + [b]) == r
  {
    hide Clock, Through, ClockBits, Bits;
    assert (m + [b])[..|m|] == m;
    ThroughBits(c, b);
  }

  /** The check value that catalogues of checksums give for this polynomial, on the text 123456789. */
  lemma CheckValue()
    ensures Crc([0x31, 0x32, 0x33, 0x34, 0x35, 0x36, 0x37, 0x38, 0x39]) == 0xF4
  {
    hide Crc, ClockBits, Bits;
    NoBytes();
    assert DIGITS[..0] == [];
    OneByte(DIGITS[..0], 0x00, 0x31, 0x97);
    assert DIGITS[..0] + [0x31] == DIGITS[..1];
    OneByte(DIGITS[..1], 0x97, 0x32, 0x72);
    assert DIGITS[..1] + [0x32] == DIGITS[..2];
    OneByte(DIGITS[..2], 0x72, 0x33, 0xc0);
    assert DIGITS[..2] + [0x33] == DIGITS[..3];
    OneByte(DIGITS[..3], 0xc0, 0x34, 0xc2);
    assert DIGITS[..3] + [0x34] == DIGITS[..4];
    OneByte(DIGITS[..4], 0xc2, 0x35, 0xcb);
    assert DIGITS[..4] + [0x35] == DIGITS[..5];
    OneByte(DIGITS[..5], 0xcb, 0x36, 0xfd);
    assert DIGITS[..5] + [0x36] == DIGITS[..6];
    OneByte(DIGITS[..6], 0xfd, 0x37, 0x78);
    assert DIGITS[..6] + [0x37] == DIGITS[..7];
    OneByte(DIGITS[..7], 0x78, 0x38, 0xc7);
    assert DIGITS[..7] + [0x38] == DIGITS[..8];
    OneByte(DIGITS[..8], 0xc7, 0x39, 0xf4);
    assert DIGITS[..8] + [0x39] == DIGITS[..9];
    assert DIGITS[..9] == DIGITS;
  }

  lemma NoBytes()
    ensures Crc([]) == 0
  {
  }
}
