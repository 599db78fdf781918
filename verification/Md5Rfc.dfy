/** MD5 as RFC 1321 defines it, on a whole message (sections 3.1 to 3.5). */
module Md5Rfc {
  import opened Machine

  /** A 32-bit register. */
  datatype Word = Word(bits: bv32)

  datatype Chain = Chain(a: Word, b: Word, c: Word, d: Word)

  type Block = s: seq<byte> | |s| == 64 witness seq(64, _ => 0)

  // ----- section 2: words and bytes -----

  function Plus(x: Word, y: Word): Word { Word(x.bits + y.bits) }

  function And(x: Word, y: Word): Word { Word(x.bits & y.bits) }
  function Or(x: Word, y: Word): Word { Word(x.bits | y.bits) }
  function Xor(x: Word, y: Word): Word { Word(x.bits ^ y.bits) }
  function Not(x: Word): Word { Word(!x.bits) }

  function RotateOne(x: Word): Word { Word((x.bits << 1) | (x.bits >> 31)) }

  /** x shifted circularly left by n bit positions. */
  function RotateLeft(x: Word, n: nat): Word {
    if n == 0 then x else RotateOne(RotateLeft(x, n - 1))
  }

  function AsWord(n: word): Word { Word(n as bv32) }
  function AsInt(w: Word): word { w.bits as int }

  /** Four bytes, low-order byte first. */
  function WordAt(s: seq<byte>, i: nat): word
    requires i + 4 <= |s|
  {
    var b0, b1, b2, b3: int := s[i], s[i + 1], s[i + 2], s[i + 3];
    b0 + 0x100 * b1 + 0x1_0000 * b2 + 0x100_0000 * b3
  }

  function WordBytes(w: word): (s: seq<byte>)
    ensures |s| == 4
  {
    [w % 0x100, w / 0x100 % 0x100, w / 0x1_0000 % 0x100, w / 0x100_0000 % 0x100]
  }

  // ----- section 3.4: the block transformation -----

  function F(x: Word, y: Word, z: Word): Word { Or(And(x, y), And(Not(x), z)) }
  function G(x: Word, y: Word, z: Word): Word { Or(And(x, z), And(y, Not(z))) }
  function H(x: Word, y: Word, z: Word): Word { Xor(Xor(x, y), z) }
  function I(x: Word, y: Word, z: Word): Word { Xor(y, Or(x, Not(z))) }

  /** The table T: the integer part of 2^32 * abs(sin(i + 1)). */
  function Sine(i: nat): Word
    requires i < 64
  {
    match i
    case 0 => Word(0xd76aa478)
    case 1 => Word(0xe8c7b756)
    case 2 => Word(0x242070db)
    case 3 => Word(0xc1bdceee)
    case 4 => Word(0xf57c0faf)
    case 5 => Word(0x4787c62a)
    case 6 => Word(0xa8304613)
    case 7 => Word(0xfd469501)
    case 8 => Word(0x698098d8)
    case 9 => Word(0x8b44f7af)
    case 10 => Word(0xffff5bb1)
    case 11 => Word(0x895cd7be)
    case 12 => Word(0x6b901122)
    case 13 => Word(0xfd987193)
    case 14 => Word(0xa679438e)
    case 15 => Word(0x49b40821)
    case 16 => Word(0xf61e2562)
    case 17 => Word(0xc040b340)
    case 18 => Word(0x265e5a51)
    case 19 => Word(0xe9b6c7aa)
    case 20 => Word(0xd62f105d)
    case 21 => Word(0x02441453)
    case 22 => Word(0xd8a1e681)
    case 23 => Word(0xe7d3fbc8)
    case 24 => Word(0x21e1cde6)
    case 25 => Word(0xc33707d6)
    case 26 => Word(0xf4d50d87)
    case 27 => Word(0x455a14ed)
    case 28 => Word(0xa9e3e905)
    case 29 => Word(0xfcefa3f8)
    case 30 => Word(0x676f02d9)
    case 31 => Word(0x8d2a4c8a)
    case 32 => Word(0xfffa3942)
    case 33 => Word(0x8771f681)
    case 34 => Word(0x6d9d6122)
    case 35 => Word(0xfde5380c)
    case 36 => Word(0xa4beea44)
    case 37 => Word(0x4bdecfa9)
    case 38 => Word(0xf6bb4b60)
    case 39 => Word(0xbebfbc70)
    case 40 => Word(0x289b7ec6)
    case 41 => Word(0xeaa127fa)
    case 42 => Word(0xd4ef3085)
    case 43 => Word(0x04881d05)
    case 44 => Word(0xd9d4d039)
    case 45 => Word(0xe6db99e5)
    case 46 => Word(0x1fa27cf8)
    case 47 => Word(0xc4ac5665)
    case 48 => Word(0xf4292244)
    case 49 => Word(0x432aff97)
    case 50 => Word(0xab9423a7)
    case 51 => Word(0xfc93a039)
    case 52 => Word(0x655b59c3)
    case 53 => Word(0x8f0ccc92)
    case 54 => Word(0xffeff47d)
    case 55 => Word(0x85845dd1)
    case 56 => Word(0x6fa87e4f)
    case 57 => Word(0xfe2ce6e0)
    case 58 => Word(0xa3014314)
    case 59 => Word(0x4e0811a1)
    case 60 => Word(0xf7537e82)
    case 61 => Word(0xbd3af235)
    case 62 => Word(0x2ad7d2bb)
    case _ => Word(0xeb86d391)
  }

  function RotateCount(i: nat): (n: bv8)
    requires i < 64
    ensures n <= 32
  {
    match i / 16
    case 0 => [7, 12, 17, 22][i % 4]
    case 1 => [5, 9, 14, 20][i % 4]
    case 2 => [4, 11, 16, 23][i % 4]
    case _ => [6, 10, 15, 21][i % 4]
  }

  /** Which word of the block step i uses. */
  function WordIndex(i: nat): (k: nat)
    requires i < 64
    ensures k < 16
  {
    match i / 16
    case 0 => i
    case 1 => (5 * i + 1) % 16
    case 2 => (3 * i + 5) % 16
    case _ => (7 * i) % 16
  }

  function Mix(i: nat, x: Word, y: Word, z: Word): Word
    requires i < 64
  {
    match i / 16
    case 0 => F(x, y, z)
    case 1 => G(x, y, z)
    case 2 => H(x, y, z)
    case _ => I(x, y, z)
  }

  /** [abcd k s i]: a = b + ((a + f(b,c,d) + X[k] + T[i]) <<< s). */
  function Operation(b: Word, sum: Word, s: nat): Word {
    Plus(RotateLeft(sum, s), b)
  }

  function Sum(a: Word, f: Word, x: Word, t: Word): Word {
    Plus(a, Plus(Plus(f, x), t))
  }

  function Step(i: nat, x: seq<Word>, s: Chain): Chain
    requires i < 64 && |x| == 16
  {
    var sum := Sum(s.a, Mix(i, s.b, s.c, s.d), x[WordIndex(i)], Sine(i));
    Chain(s.d, Operation(s.b, sum, RotateCount(i) as nat), s.b, s.c)
  }

  function Steps(n: nat, x: seq<Word>, s: Chain): Chain
    requires n <= 64 && |x| == 16
  {
    if n == 0 then s else Step(n - 1, x, Steps(n - 1, x, s))
  }

  function Words(s: seq<byte>): (x: seq<Word>)
    requires |s| % 4 == 0
    ensures |x| == |s| / 4
  {
    seq(|s| / 4, j requires 0 <= j < |s| / 4 => AsWord(WordAt(s, 4 * j)))
  }

  function Compress(s: Chain, block: Block): Chain {
    var t := Steps(64, Words(block), s);
    Chain(Plus(s.a, t.a), Plus(s.b, t.b), Plus(s.c, t.c), Plus(s.d, t.d))
  }

  // ----- sections 3.1 to 3.3 and 3.5 -----

  const INITIAL: Chain := Chain(Word(0x67452301), Word(0xEFCDAB89), Word(0x98BADCFE), Word(0x10325476))

  /** The number of zero bytes that bring the length to 56 modulo 64 after the 0x80 byte. */
  function ZeroCount(n: nat): (z: nat)
    ensures z < 64 && (n + 1 + z) % 64 == 56
  {
    (119 - n % 64) % 64
  }

  /** The bit length, low-order word first; only its low 64 bits count. */
  function LengthBytes(n: nat): seq<byte> {
    WordBytes(8 * n % TWO_32) + WordBytes(8 * n / TWO_32 % TWO_32)
  }

  function Pad(m: seq<byte>): (p: seq<byte>)
    ensures |p| % 64 == 0
  {
    assert (|m| + 1 + ZeroCount(|m|) + 8) % 64 == 0;
    m + [0x80] + Zeros(ZeroCount(|m|)) + LengthBytes(|m|)
  }

  /** The chain after every 64-byte block of s in turn. */
  function Absorb(s: seq<byte>): Chain
    requires |s| % 64 == 0
  {
    if s == [] then INITIAL
    else Compress(Absorb(s[..|s| - 64]), s[|s| - 64..])
  }

  function ChainBytes(s: Chain): seq<byte> {
    WordBytes(AsInt(s.a)) + WordBytes(AsInt(s.b)) + WordBytes(AsInt(s.c)) + WordBytes(AsInt(s.d))
  }

  function Digest(m: seq<byte>): seq<byte> {
    ChainBytes(Absorb(Pad(m)))
  }
}
