/** The driver's incremental MD5 (`md5.c`, macros in `md5.h`). */
module Md5 {
  import opened Machine
  import opened Md5Rfc

  // ----- the round macros -----

  /** ROTATE_LEFT */
  function Rotate(x: Word, n: bv8): Word
    requires n <= 32
  {
    Word((x.bits << n) | (x.bits >> (32 - n)))
  }

  /** The two shifts together turn the word round. */
  lemma {:induction false} RotateIsCircular(x: Word, n: bv8)
    requires n <= 32
    ensures Rotate(x, n) == RotateLeft(x, n as nat)
    decreases n as nat
  {
    hide Rotate;
    if n > 0 {
      assert (n - 1) as nat == n as nat - 1;
      RotateIsCircular(x, n - 1);
      OneMore(x, n - 1);
    } else {
      NotAtAll(x);
    }
  }

  lemma NotAtAll(x: Word)
    ensures Rotate(x, 0) == x
  {
  }

  lemma OneMore(x: Word, n: bv8)
    requires n < 32
    ensures RotateOne(Rotate(x, n)) == Rotate(x, n + 1)
  {
  }

  /** a += f + x + ac; a = ROTATE_LEFT(a, s); a += b; */
  function Macro(a: Word, b: Word, f: Word, x: Word, s: bv8, ac: Word): Word
    requires s <= 32
  {
    Plus(Rotate(Plus(a, Plus(Plus(f, x), ac)), s), b)
  }

  lemma {:induction false} MacroIsOperation(a: Word, b: Word, f: Word, x: Word, i: nat, ac: Word)
    requires i < 64
    ensures Macro(a, b, f, x, RotateCount(i), ac) == Operation(b, Sum(a, f, x, ac), RotateCount(i) as nat)
  {
    hide Rotate, RotateLeft, RotateCount, Plus;
    RotateIsCircular(Sum(a, f, x, ac), RotateCount(i));
  }

  function FF(a: Word, b: Word, c: Word, d: Word, x: Word, s: bv8, ac: bv32): Word
    requires s <= 32
  {
    Macro(a, b, F(b, c, d), x, s, Word(ac))
  }

  function GG(a: Word, b: Word, c: Word, d: Word, x: Word, s: bv8, ac: bv32): Word
    requires s <= 32
  {
    Macro(a, b, G(b, c, d), x, s, Word(ac))
  }

  function HH(a: Word, b: Word, c: Word, d: Word, x: Word, s: bv8, ac: bv32): Word
    requires s <= 32
  {
    Macro(a, b, H(b, c, d), x, s, Word(ac))
  }

  function II(a: Word, b: Word, c: Word, d: Word, x: Word, s: bv8, ac: bv32): Word
    requires s <= 32
  {
    Macro(a, b, I(b, c, d), x, s, Word(ac))
  }

  /** The operation of step n, in the form the macros compute it. */
  ghost function Op(n: nat, x: seq<Word>, a: Word, b: Word, c: Word, d: Word): Word
    requires n < 64 && |x| == 16
  {
    Macro(a, b, Mix(n, b, c, d), x[WordIndex(n)], RotateCount(n), Sine(n))
  }

  lemma OneStep(n: nat, x: seq<Word>, s: Chain)
    requires n < 64 && |x| == 16
    ensures var t := Steps(n, x, s);
            Steps(n + 1, x, s) == Chain(t.d, Op(n, x, t.a, t.b, t.c, t.d), t.b, t.c)
  {
    hide Mix, WordIndex, RotateCount, Sine, Macro, Operation, Sum;
    var t := Steps(n, x, s);
    MacroIsOperation(t.a, t.b, Mix(n, t.b, t.c, t.d), x[WordIndex(n)], n, Sine(n));
  }

  /** Four steps bring the four registers back to their places. */
  lemma {:induction false} FourSteps(n: nat, x: seq<Word>, s: Chain, a: Word, b: Word, c: Word, d: Word)
    requires n + 4 <= 64 && |x| == 16
    requires Steps(n, x, s) == Chain(a, b, c, d)
    ensures var a1 := Op(n, x, a, b, c, d);
            var d1 := Op(n + 1, x, d, a1, b, c);
            var c1 := Op(n + 2, x, c, d1, a1, b);
            var b1 := Op(n + 3, x, b, c1, d1, a1);
            Steps(n + 4, x, s) == Chain(a1, b1, c1, d1)
  {
    hide Op, Steps;
    OneStep(n, x, s);
    OneStep(n + 1, x, s);
    OneStep(n + 2, x, s);
    OneStep(n + 3, x, s);
  }

  // ----- encoding -----

  method Decode(output: array<Word>, input: array<byte>, off: nat, len: nat)
    requires len % 4 == 0 && off + len <= input.Length && len / 4 <= output.Length
    modifies output
    ensures output[..len / 4] == Words(input[off..off + len])
  {
    hide AsWord;
    var i, j := 0, 0;
    ghost var bytes := input[off..off + len];
    while j < len
      invariant 0 <= i && j == 4 * i <= len
      invariant output[..i] == Words(bytes)[..i]
    {
      assert output[..i] == Words(bytes)[..i];
      var b0, b1, b2, b3: int := input[off + j], input[off + j + 1], input[off + j + 2], input[off + j + 3];
      output[i] := AsWord(b0 + 0x100 * b1 + 0x1_0000 * b2 + 0x100_0000 * b3);
      assert bytes[j] == b0 && bytes[j + 1] == b1 && bytes[j + 2] == b2 && bytes[j + 3] == b3;
      assert b0 + 0x100 * b1 + 0x1_0000 * b2 + 0x100_0000 * b3 == WordAt(bytes, j);
      assert output[i] == AsWord(WordAt(bytes, j)) == Words(bytes)[i];
      i := i + 1;
      j := j + 4;
    }
  }

  method RoundOne(x: array<Word>, a0: Word, b0: Word, c0: Word, d0: Word, ghost s: Chain)
    returns (a: Word, b: Word, c: Word, d: Word)
    requires x.Length == 64 && Steps(0, x[..16], s) == Chain(a0, b0, c0, d0)
    ensures Steps(16, x[..16], s) == Chain(a, b, c, d)
  {
    hide F, G, H, I, Macro, Steps;
    a, b, c, d := a0, b0, c0, d0;
    ghost var xs := x[..16];
    FourSteps(0, xs, s, a, b, c, d);
    a := FF(a, b, c, d, x[0], 7, 0xd76aa478);
    d := FF(d, a, b, c, x[1], 12, 0xe8c7b756);
    c := FF(c, d, a, b, x[2], 17, 0x242070db);
    b := FF(b, c, d, a, x[3], 22, 0xc1bdceee);
    FourSteps(4, xs, s, a, b, c, d);
    a := FF(a, b, c, d, x[4], 7, 0xf57c0faf);
    d := FF(d, a, b, c, x[5], 12, 0x4787c62a);
    c := FF(c, d, a, b, x[6], 17, 0xa8304613);
    b := FF(b, c, d, a, x[7], 22, 0xfd469501);
    FourSteps(8, xs, s, a, b, c, d);
    a := FF(a, b, c, d, x[8], 7, 0x698098d8);
    d := FF(d, a, b, c, x[9], 12, 0x8b44f7af);
    c := FF(c, d, a, b, x[10], 17, 0xffff5bb1);
    b := FF(b, c, d, a, x[11], 22, 0x895cd7be);
    FourSteps(12, xs, s, a, b, c, d);
    a := FF(a, b, c, d, x[12], 7, 0x6b901122);
    d := FF(d, a, b, c, x[13], 12, 0xfd987193);
    c := FF(c, d, a, b, x[14], 17, 0xa679438e);
    b := FF(b, c, d, a, x[15], 22, 0x49b40821);
  }

  method RoundTwo(x: array<Word>, a0: Word, b0: Word, c0: Word, d0: Word, ghost s: Chain)
    returns (a: Word, b: Word, c: Word, d: Word)
    requires x.Length == 64 && Steps(16, x[..16], s) == Chain(a0, b0, c0, d0)
    ensures Steps(32, x[..16], s) == Chain(a, b, c, d)
  {
    hide F, G, H, I, Macro, Steps;
    a, b, c, d := a0, b0, c0, d0;
    ghost var xs := x[..16];
    FourSteps(16, xs, s, a, b, c, d);
    a := GG(a, b, c, d, x[1], 5, 0xf61e2562);
    d := GG(d, a, b, c, x[6], 9, 0xc040b340);
    c := GG(c, d, a, b, x[11], 14, 0x265e5a51);
    b := GG(b, c, d, a, x[0], 20, 0xe9b6c7aa);
    assert Steps(20, xs, s) == Chain(a, b, c, d);
    FourSteps(20, xs, s, a, b, c, d);
    a := GG(a, b, c, d, x[5], 5, 0xd62f105d);
    d := GG(d, a, b, c, x[10], 9, 0x2441453);
    c := GG(c, d, a, b, x[15], 14, 0xd8a1e681);
    b := GG(b, c, d, a, x[4], 20, 0xe7d3fbc8);
    assert Steps(24, xs, s) == Chain(a, b, c, d);
    FourSteps(24, xs, s, a, b, c, d);
    a := GG(a, b, c, d, x[9], 5, 0x21e1cde6);
    d := GG(d, a, b, c, x[14], 9, 0xc33707d6);
    c := GG(c, d, a, b, x[3], 14, 0xf4d50d87);
    b := GG(b, c, d, a, x[8], 20, 0x455a14ed);
    assert Steps(28, xs, s) == Chain(a, b, c, d);
    FourSteps(28, xs, s, a, b, c, d);
    a := GG(a, b, c, d, x[13], 5, 0xa9e3e905);
    d := GG(d, a, b, c, x[2], 9, 0xfcefa3f8);
    c := GG(c, d, a, b, x[7], 14, 0x676f02d9);
    b := GG(b, c, d, a, x[12], 20, 0x8d2a4c8a);
  }

  method RoundThree(x: array<Word>, a0: Word, b0: Word, c0: Word, d0: Word, ghost s: Chain)
    returns (a: Word, b: Word, c: Word, d: Word)
    requires x.Length == 64 && Steps(32, x[..16], s) == Chain(a0, b0, c0, d0)
    ensures Steps(48, x[..16], s) == Chain(a, b, c, d)
  {
    hide F, G, H, I, Macro, Steps;
    a, b, c, d := a0, b0, c0, d0;
    ghost var xs := x[..16];
    FourSteps(32, xs, s, a, b, c, d);
    a := HH(a, b, c, d, x[5], 4, 0xfffa3942);
    d := HH(d, a, b, c, x[8], 11, 0x8771f681);
    c := HH(c, d, a, b, x[11], 16, 0x6d9d6122);
    b := HH(b, c, d, a, x[14], 23, 0xfde5380c);
    assert Steps(36, xs, s) == Chain(a, b, c, d);
    FourSteps(36, xs, s, a, b, c, d);
    a := HH(a, b, c, d, x[1], 4, 0xa4beea44);
    d := HH(d, a, b, c, x[4], 11, 0x4bdecfa9);
    c := HH(c, d, a, b, x[7], 16, 0xf6bb4b60);
    b := HH(b, c, d, a, x[10], 23, 0xbebfbc70);
    assert Steps(40, xs, s) == Chain(a, b, c, d);
    FourSteps(40, xs, s, a, b, c, d);
    a := HH(a, b, c, d, x[13], 4, 0x289b7ec6);
    d := HH(d, a, b, c, x[0], 11, 0xeaa127fa);
    c := HH(c, d, a, b, x[3], 16, 0xd4ef3085);
    b := HH(b, c, d, a, x[6], 23, 0x4881d05);
    assert Steps(44, xs, s) == Chain(a, b, c, d);
    FourSteps(44, xs, s, a, b, c, d);
    a := HH(a, b, c, d, x[9], 4, 0xd9d4d039);
    d := HH(d, a, b, c, x[12], 11, 0xe6db99e5);
    c := HH(c, d, a, b, x[15], 16, 0x1fa27cf8);
    b := HH(b, c, d, a, x[2], 23, 0xc4ac5665);
  }

  method RoundFour(x: array<Word>, a0: Word, b0: Word, c0: Word, d0: Word, ghost s: Chain)
    returns (a: Word, b: Word, c: Word, d: Word)
    requires x.Length == 64 && Steps(48, x[..16], s) == Chain(a0, b0, c0, d0)
    ensures Steps(64, x[..16], s) == Chain(a, b, c, d)
  {
    hide F, G, H, I, Macro, Steps;
    a, b, c, d := a0, b0, c0, d0;
    ghost var xs := x[..16];
    FourSteps(48, xs, s, a, b, c, d);
    a := II(a, b, c, d, x[0], 6, 0xf4292244);
    d := II(d, a, b, c, x[7], 10, 0x432aff97);
    c := II(c, d, a, b, x[14], 15, 0xab9423a7);
    b := II(b, c, d, a, x[5], 21, 0xfc93a039);
    assert Steps(52, xs, s) == Chain(a, b, c, d);
    FourSteps(52, xs, s, a, b, c, d);
    a := II(a, b, c, d, x[12], 6, 0x655b59c3);
    d := II(d, a, b, c, x[3], 10, 0x8f0ccc92);
    c := II(c, d, a, b, x[10], 15, 0xffeff47d);
    b := II(b, c, d, a, x[1], 21, 0x85845dd1);
    assert Steps(56, xs, s) == Chain(a, b, c, d);
    FourSteps(56, xs, s, a, b, c, d);
    a := II(a, b, c, d, x[8], 6, 0x6fa87e4f);
    d := II(d, a, b, c, x[15], 10, 0xfe2ce6e0);
    c := II(c, d, a, b, x[6], 15, 0xa3014314);
    b := II(b, c, d, a, x[13], 21, 0x4e0811a1);
    assert Steps(60, xs, s) == Chain(a, b, c, d);
    FourSteps(60, xs, s, a, b, c, d);
    a := II(a, b, c, d, x[4], 6, 0xf7537e82);
    d := II(d, a, b, c, x[11], 10, 0xbd3af235);
    c := II(c, d, a, b, x[2], 15, 0x2ad7d2bb);
    b := II(b, c, d, a, x[9], 21, 0xeb86d391);
  }

  method Transform(state: array<Word>, block: array<byte>, off: nat)
    requires state.Length == 4 && off + 64 <= block.Length
    modifies state
    ensures ChainOf(state) == Compress(old(ChainOf(state)), old(block[off..off + 64]))
  {
    hide Steps, Words, Plus;
    var a, b, c, d := state[0], state[1], state[2], state[3];
    ghost var s := ChainOf(state);
    ghost var bytes := block[off..off + 64];
    var x := new Word[64](_ => Word(0));
    Decode(x, block, off, 64);
    NoSteps(x[..16], s);
    a, b, c, d := RoundOne(x, a, b, c, d, s);
    a, b, c, d := RoundTwo(x, a, b, c, d, s);
    a, b, c, d := RoundThree(x, a, b, c, d, s);
    a, b, c, d := RoundFour(x, a, b, c, d, s);
    assert Compress(s, bytes) == Chain(Plus(s.a, a), Plus(s.b, b), Plus(s.c, c), Plus(s.d, d));
    state[0] := Plus(state[0], a);
    state[1] := Plus(state[1], b);
    state[2] := Plus(state[2], c);
    state[3] := Plus(state[3], d);
  }

  lemma NoSteps(x: seq<Word>, s: Chain)
    requires |x| == 16
    ensures Steps(0, x, s) == s
  {
  }

  ghost function ChainOf(state: array<Word>): Chain
    requires state.Length == 4
    reads state
  {
    Chain(state[0], state[1], state[2], state[3])
  }

  method Encode(output: array<byte>, input: seq<word>, len: nat)
    requires len % 4 == 0 && len <= output.Length && len / 4 <= |input|
    modifies output
    ensures output[..len] == Bytes(input[..len / 4])
  {
    var i, j := 0, 0;
    while j < len
      invariant 0 <= i && j == 4 * i <= len
      invariant output[..j] == Bytes(input[..i])
    {
      ghost var done := output[..j];
      output[j] := input[i] % 0x100;
      output[j + 1] := input[i] / 0x100 % 0x100;
      output[j + 2] := input[i] / 0x1_0000 % 0x100;
      output[j + 3] := input[i] / 0x100_0000 % 0x100;
      assert output[..j] == done;
      assert output[..j + 4] == done + WordBytes(input[i]);
      assert input[..i + 1][..i] == input[..i];
      i := i + 1;
      j := j + 4;
    }
  }

  ghost function Bytes(ws: seq<word>): seq<byte> {
    if ws == [] then [] else Bytes(ws[..|ws| - 1]) + WordBytes(ws[|ws| - 1])
  }

  // ----- the 64-bit bit count, kept as two 32-bit words -----

  ghost predicate CountOf(lo: word, hi: word, n: nat) {
    lo == 8 * n % TWO_32 && hi == 8 * n / TWO_32 % TWO_32
  }

  lemma {:induction false} CountAdds(lo: word, hi: word, n: nat, len: word)
    requires CountOf(lo, hi, n)
    ensures var shifted := 8 * len % TWO_32;
            var lo' := (lo + shifted) % TWO_32;
            var carry := if lo' < shifted then 1 else 0;
            CountOf(lo', ((hi + carry) % TWO_32 + len / 0x2000_0000) % TWO_32, n + len)
  {
    var c, k := 8 * n, 8 * len;
    var qc, rc, qk, rk := c / TWO_32, c % TWO_32, k / TWO_32, k % TWO_32;
    var carry := if rc + rk >= TWO_32 then 1 else 0;
    assert qk == len / 0x2000_0000;
    DivMod(c + k, qc + qk + carry, rc + rk - carry * TWO_32);
    DivMod(rc + rk, carry, rc + rk - carry * TWO_32);
    ModPlus(qc, carry);
    ModPlus(hi + carry, qk);
    ModPlus(qc, carry + qk);
  }

  lemma DivMod(x: int, q: int, r: int)
    requires x == TWO_32 * q + r && 0 <= r < TWO_32
    ensures x / TWO_32 == q && x % TWO_32 == r
  {
  }

  lemma ModPlus(x: int, y: int)
    ensures (x % TWO_32 + y) % TWO_32 == (x + y) % TWO_32
  {
    DivMod(x + y, x / TWO_32 + (x % TWO_32 + y) / TWO_32, (x % TWO_32 + y) % TWO_32);
  }

  lemma CountIndex(lo: word, hi: word, n: nat)
    requires CountOf(lo, hi, n)
    ensures lo / 8 % 64 == n % 64
  {
    var q := 8 * n / TWO_32;
    assert 8 * n == TWO_32 * q + lo;
    var k := n - 0x2000_0000 * q;
    assert lo == 8 * k;
    WholeTurns(k, 0x80_0000 * q);
  }

  lemma WholeTurns(k: int, q: int)
    ensures (k + 64 * q) % 64 == k % 64
  {
  }

  /** The update loop tests i + 64 <= len in 32 bits; with this the sum does not wrap where it matters. */
  predicate LoopGuardExact(index: nat, len: word)
    requires index < 64
  {
    len < TWO_32 - (if index == 0 then 64 else index)
  }

  /** The test is right at every position the loop can reach exactly when the length is below that limit. */
  lemma GuardExactIff(index: nat, len: word)
    requires index < 64 && len >= 64 - index
    ensures LoopGuardExact(index, len) <==>
            forall i: word :: Reachable(index, len, i) ==> ((i + 64) % TWO_32 <= len <==> i + 64 <= len)
  {
    var last := TWO_32 - (if index == 0 then 64 else index);
    if !LoopGuardExact(index, len) {
      assert Reachable(index, len, last);
    } else {
      forall i: word | Reachable(index, len, i)
        ensures i + 64 < TWO_32
      {
        assert (i + index) % 64 == 0 && i <= len < last;
      }
    }
  }

  /** The loop visits i = 64 - index, then every 64th position that the length allows. */
  ghost predicate Reachable(index: nat, len: word, i: word) {
    (i + index) % 64 == 0 && 64 - index <= i <= len
  }

  /** Where the update loop stands after k rounds: the position is a 32-bit number. */
  function Position(index: nat, k: nat): word
    requires index < 64
  {
    (64 - index + 64 * k) % TWO_32
  }

  /** The update loop leaves, after some number of rounds, exactly when the length is below the limit. */
  lemma LoopEndsExactly(index: nat, len: word)
    requires index < 64 && len >= 64 - index
    ensures (exists k: nat :: (Position(index, k) + 64) % TWO_32 > len) <==> LoopGuardExact(index, len)
  {
    var last := TWO_32 - (if index == 0 then 64 else index);
    if LoopGuardExact(index, len) {
      var k := (last + index) / 64 - 2;
      assert (last + index) % 64 == 0;
      assert 64 - index + 64 * k == last - 64;
      assert (Position(index, k) + 64) % TWO_32 == last;
    } else {
      forall k: nat
        ensures (Position(index, k) + 64) % TWO_32 <= len
      {
        NextPosition(index, k);
      }
    }
  }

  /** No position is beyond the last one that has the right remainder modulo 64. */
  lemma NextPosition(index: nat, k: nat)
    requires index < 64
    ensures (Position(index, k) + 64) % TWO_32 <= TWO_32 - (if index == 0 then 64 else index)
  {
    var x := 64 - index + 64 * k;
    var p := x % TWO_32;
    assert x == TWO_32 * (x / TWO_32) + p;
    assert (p + index) % 64 == 0;
    var q := (p + 64) % TWO_32;
    assert q == if p + 64 < TWO_32 then p + 64 else p + 64 - TWO_32;
    assert (q + index) % 64 == 0;
  }

  /** The longest length fails: at its last position the 32-bit test holds although no whole block is left. */
  lemma LongestLengthWraps()
    ensures var i, len := 0xFFFF_FFC0, 0xFFFF_FFFF;
            Reachable(0, len, i) && (i + 64) % TWO_32 <= len < i + 64 && !LoopGuardExact(0, len)
  {
  }

  lemma AbsorbBlock(s: seq<byte>, p: nat)
    requires p % 64 == 0 && p + 64 <= |s|
    ensures Absorb(s[..p + 64]) == Compress(Absorb(s[..p]), s[p..p + 64])
  {
    hide Compress;
    assert s[..p + 64][..p] == s[..p];
    assert s[..p + 64][p..] == s[p..p + 64];
  }

  method CopyBytes(dst: array<byte>, to: nat, src: array<byte>, from: nat, n: nat)
    requires dst != src && to + n <= dst.Length && from + n <= src.Length
    modifies dst
    ensures dst[..] == old(dst[..to]) + src[from..from + n] + old(dst[to + n..])
  {
    for k := 0 to n
      invariant dst[..to] == old(dst[..to]) && dst[to + n..] == old(dst[to + n..])
      invariant dst[to..to + k] == src[from..from + k]
    {
      dst[to + k] := src[from + k];
      assert dst[to..to + k + 1] == dst[to..to + k] + [src[from + k]];
    }
    assert dst[..] == dst[..to] + dst[to..to + n] + dst[to + n..];
  }

  class Context {
    var count0: word
    var count1: word
    const state: array<Word>
    const buffer: array<byte>
    ghost var message: seq<byte>

    /** The chain has absorbed every whole block, the buffer holds the tail, the counter the bit length. */
    ghost predicate Valid()
      reads this, state, buffer
    {
      && state.Length == 4 && buffer.Length == 64
      && CountOf(count0, count1, |message|)
      && ChainOf(state) == Absorb(message[..Whole(|message|)])
      && buffer[..|message| % 64] == message[Whole(|message|)..]
    }

    constructor ()
      ensures Valid() && message == [] && fresh(state) && fresh(buffer)
    {
      state := new Word[4](_ => Word(0));
      buffer := new byte[64];
      new;
      Init();
    }

    method Init()
      requires state.Length == 4 && buffer.Length == 64
      modifies this, state
      ensures Valid() && message == []
    {
      count0, count1 := 0, 0;
      state[0] := Word(0x67452301);
      state[1] := Word(0xEFCDAB89);
      state[2] := Word(0x98BADCFE);
      state[3] := Word(0x10325476);
      message := [];
    }

    method Update(input: array<byte>, inputLen: word)
      requires Valid() && inputLen <= input.Length && input != buffer
      requires LoopGuardExact(|message| % 64, inputLen)
      modifies this, state, buffer
      ensures Valid() && message == old(message) + input[..inputLen]
    {
      hide Absorb, Compress, LoopGuardExact, CountOf;
      ghost var n := |message|;
      ghost var all := message + input[..inputLen];
      CountIndex(count0, count1, n);
      var index := count0 / 8 % 64;
      var partLen := 64 - index;
      AddCount(inputLen);
      message := all;
      assert all[..Whole(n)] == old(message)[..Whole(n)];
      var i := 0;
      if inputLen >= partLen {
        i := WholeBlocks(input, index, inputLen, all, n);
        index := 0;
      }
      WholeOf(n, inputLen, i);
      assert all[Whole(|all|)..] == buffer[..index] + input[i..inputLen];
      CopyBytes(buffer, index, input, i, inputLen - i);
      assert buffer[..|all| % 64] == all[Whole(|all|)..];
    }

    method Final(digest: array<byte>)
      requires Valid() && digest.Length == 16 && digest != buffer
      modifies this, state, buffer, digest
      ensures digest[..] == Digest(old(message))
      ensures Valid() && message == Pad(old(message))
    {
      hide Absorb, Compress, CountOf, WordBytes, Bytes, LengthBytes, AsInt;
      ghost var m := message;
      CountIndex(count0, count1, |m|);
      var index := count0 / 8 % 64;
      var padLen := if index < 56 then 56 - index else 120 - index;
      var bits := new byte[8];
      Encode(bits, [count0, count1], 8);
      CountBytes(count0, count1, |m|);
      assert [count0, count1][..2] == [count0, count1];
      var padding := new byte[64](i => if i == 0 then 0x80 else 0);
      PadLength(|m|, padLen);
      assert padding[..padLen] == [0x80] + Zeros(ZeroCount(|m|));
      Update(padding, padLen);
      Update(bits, 8);
      assert message == Pad(m);
      assert message[..Whole(|message|)] == message;
      var words: seq<word> := [AsInt(state[0]), AsInt(state[1]), AsInt(state[2]), AsInt(state[3])];
      FourWords(state[0], state[1], state[2], state[3]);
      assert words[..4] == words;
      Encode(digest, words, 16);
      assert digest[..16] == digest[..];
    }

    /** count[0] and count[1] as a 64-bit sum with an explicit carry. */
    method AddCount(inputLen: word)
      requires CountOf(count0, count1, |message|)
      modifies this`count0, this`count1
      ensures CountOf(count0, count1, |message| + inputLen)
    {
      hide CountOf;
      CountAdds(count0, count1, |message|, inputLen);
      count0 := (count0 + 8 * inputLen % TWO_32) % TWO_32;
      if count0 < 8 * inputLen % TWO_32 {
        count1 := (count1 + 1) % TWO_32;
      }
      count1 := (count1 + inputLen / 0x2000_0000) % TWO_32;
    }

    /** The buffered block is completed and absorbed, then those that lie whole in the input. */
    method WholeBlocks(input: array<byte>, index: nat, inputLen: word, ghost all: seq<byte>, ghost n: nat)
      returns (i: nat)
      requires state.Length == 4 && buffer.Length == 64 && inputLen <= input.Length && input != buffer && index == n - Whole(n)
      requires LoopGuardExact(index, inputLen) && inputLen >= 64 - index
      requires |all| == n + inputLen && all[n..] == input[..inputLen]
      requires ChainOf(state) == Absorb(all[..Whole(n)]) && buffer[..index] == all[Whole(n)..n]
      modifies state, buffer
      ensures i <= inputLen && (n + i) % 64 == 0 && i + 64 > inputLen
      ensures |all[..n + i]| % 64 == 0 && ChainOf(state) == Absorb(all[..n + i])
    {
      hide Absorb, Compress, LoopGuardExact;
      var partLen := 64 - index;
      CopyBytes(buffer, index, input, 0, partLen);
      assert input[..partLen] == input[..inputLen][..partLen];
      assert buffer[0..64] == all[Whole(n)..Whole(n) + 64];
      Transform(state, buffer, 0);
      AbsorbBlock(all, Whole(n));
      i := TransformRest(input, index, inputLen, all, n);
    }

    /** The loop over the blocks that lie whole in the input. */
    method TransformRest(input: array<byte>, index: nat, inputLen: word, ghost all: seq<byte>, ghost n: nat)
      returns (i: nat)
      requires state.Length == 4 && inputLen <= input.Length && index == n - Whole(n)
      requires LoopGuardExact(index, inputLen) && inputLen >= 64 - index
      requires |all| == n + inputLen && all[n..] == input[..inputLen]
      requires ChainOf(state) == Absorb(all[..Whole(n) + 64])
      modifies state
      ensures i <= inputLen && (n + i) % 64 == 0 && i + 64 > inputLen
      ensures |all[..n + i]| % 64 == 0 && ChainOf(state) == Absorb(all[..n + i])
    {
      hide Absorb, Compress, LoopGuardExact, Reachable;
      var p: word := 64 - index;
      Start(index, inputLen);
      assert n + p == Whole(n) + 64;
      GuardAt(index, inputLen, p);
      while (p + 64) % TWO_32 <= inputLen
        invariant p <= inputLen && (n + p) % 64 == 0 && |all[..n + p]| % 64 == 0
        invariant Reachable(index, inputLen, p)
        invariant (p + 64) % TWO_32 <= inputLen <==> p + 64 <= inputLen
        invariant ChainOf(state) == Absorb(all[..n + p])
        decreases inputLen - p
      {
        GuardAt(index, inputLen, p);
        assert input[p..p + 64] == all[n + p..n + p + 64] by {
          assert input[p..p + 64] == input[..inputLen][p..p + 64];
        }
        Transform(state, input, p);
        AbsorbBlock(all, n + p);
        assert p + 64 <= inputLen && (n + p + 64) % 64 == 0;
        p := (p + 64) % TWO_32;
        GuardAt(index, inputLen, p);
      }
      i := p;
    }
  }

  lemma Start(index: nat, len: word)
    requires index < 64 && len >= 64 - index
    ensures Reachable(index, len, 64 - index)
  {
  }

  lemma GuardAt(index: nat, len: word, i: word)
    requires index < 64 && LoopGuardExact(index, len) && Reachable(index, len, i)
    ensures (i + 64) % TWO_32 <= len <==> i + 64 <= len
    ensures i + 64 <= len ==> (i + 64) % TWO_32 == i + 64 && Reachable(index, len, i + 64)
  {
    GuardExactIff(index, len);
  }

  lemma PadLength(n: nat, padLen: int)
    requires padLen == if n % 64 < 56 then 56 - n % 64 else 120 - n % 64
    ensures 1 <= padLen <= 64 && padLen - 1 == ZeroCount(n)
  {
  }

  lemma CountBytes(lo: word, hi: word, n: nat)
    requires CountOf(lo, hi, n)
    ensures Bytes([lo, hi]) == LengthBytes(n)
  {
    hide WordBytes;
    TwoWords(lo, hi);
  }

  lemma TwoWords(a: word, b: word)
    ensures Bytes([a, b]) == WordBytes(a) + WordBytes(b)
  {
    hide WordBytes;
    assert [a, b][..1] == [a] && [a][..0] == [];
    assert Bytes([a]) == Bytes([]) + WordBytes(a);
  }

  lemma FourWords(a: Word, b: Word, c: Word, d: Word)
    ensures Bytes([AsInt(a), AsInt(b), AsInt(c), AsInt(d)]) == ChainBytes(Chain(a, b, c, d))
  {
    hide WordBytes, AsInt;
    var w, x, y, z: word := AsInt(a), AsInt(b), AsInt(c), AsInt(d);
    TwoWords(w, x);
    assert [w, x, y, z][..3] == [w, x, y] && [w, x, y][..2] == [w, x];
  }

  ghost function Flatten(pieces: seq<seq<byte>>): seq<byte> {
    if pieces == [] then [] else Flatten(pieces[..|pieces| - 1]) + pieces[|pieces| - 1]
  }

  /** However a message is cut into updates, the digest is that of the whole message. */
  method DigestOfPieces(pieces: seq<array<byte>>, digest: array<byte>)
    requires digest.Length == 16 && digest !in pieces
    requires forall k :: 0 <= k < |pieces| ==>
      pieces[k].Length < TWO_32 && LoopGuardExact(|Flatten(Contents(pieces[..k]))| % 64, pieces[k].Length)
    modifies digest
    ensures digest[..] == Digest(Flatten(Contents(pieces)))
  {
    hide Digest, Context.Valid, LoopGuardExact, Flatten;
    var md5 := new Context();
    NoPieces();
    for k := 0 to |pieces|
      invariant fresh(md5) && fresh(md5.state) && fresh(md5.buffer) && md5.Valid()
      invariant md5.message == Flatten(Contents(pieces[..k]))
      invariant unchanged(digest)
    {
      FlattenNext(Contents(pieces[..k]), pieces[k][..]);
      assert Contents(pieces[..k + 1]) == Contents(pieces[..k]) + [pieces[k][..]];
      assert pieces[k][..pieces[k].Length] == pieces[k][..];
      md5.Update(pieces[k], pieces[k].Length);
    }
    assert pieces[..|pieces|] == pieces;
    md5.Final(digest);
  }

  lemma NoPieces()
    ensures Flatten([]) == []
  {
  }

  lemma FlattenNext(pieces: seq<seq<byte>>, x: seq<byte>)
    ensures Flatten(pieces + [x]) == Flatten(pieces) + x
  {
    assert (pieces + [x])[..|pieces|] == pieces;
  }

  ghost function Contents(pieces: seq<array<byte>>): (s: seq<seq<byte>>)
    reads pieces
    ensures |s| == |pieces|
  {
    seq(|pieces|, k requires 0 <= k < |pieces| reads pieces => pieces[k][..])
  }

  /** Where the last whole block ends after len more bytes, if the loop stopped at i. */
  lemma WholeOf(n: nat, len: nat, i: nat)
    requires if len >= 64 - n % 64 then i <= len && (n + i) % 64 == 0 && i + 64 > len else i == 0
    ensures Whole(n + len) == if len >= 64 - n % 64 then n + i else Whole(n)
    ensures (n + len) % 64 == if len >= 64 - n % 64 then len - i else n % 64 + len
  {
  }

  /** The bytes of n that lie in whole blocks. */
  ghost function Whole(n: nat): (w: nat)
    ensures w <= n < w + 64 && w % 64 == 0
  {
    n - n % 64
  }
}
