/** MD5 as sections 3.1 to 3.5 of RFC 1321 define it: one pass over the padded message. */
module Md5Spec {
  import opened Basics

  /** An unsigned 32-bit word. */
  type Word = w: int | 0 <= w < 0x1_0000_0000

  const WORD := 0x1_0000_0000
  const LONG := 0x1_0000_0000_0000_0000

  /** The four-word buffer A, B, C, D of section 3.3. */
  datatype State = State(a: Word, b: Word, c: Word, d: Word)

  const INIT := State(0x67452301, 0xefcdab89, 0x98badcfe, 0x10325476)

  // ---------------------------------------------------------------- section 3.4

  function Pow2(n: nat): (r: nat)
    ensures r > 0
  {
    if n == 0 then 1 else 2 * Pow2(n - 1)
  }

  /** The number of n bits that holds, at every bit, what `op` makes of the three bits there. */
  function Bitwise(op: (bool, bool, bool) -> bool, x: nat, y: nat, z: nat, n: nat): (r: nat)
    ensures r < Pow2(n)
  {
    if n == 0 then 0
    else
      2 * Bitwise(op, x / 2, y / 2, z / 2, n - 1) + if op(x % 2 == 1, y % 2 == 1, z % 2 == 1) then 1 else 0
  }

  lemma Pow2Word()
    ensures Pow2(32) == WORD && Pow2(31) == 0x8000_0000
  {
    assert Pow2(8) == 0x100 && Pow2(16) == 0x1_0000 && Pow2(24) == 0x100_0000;
  }

  function Wordwise(op: (bool, bool, bool) -> bool, x: Word, y: Word, z: Word): Word {
    Pow2Word();
    Bitwise(op, x, y, z, 32)
  }

  /** XY v not(X) Z */
  predicate OpF(x: bool, y: bool, z: bool) { (x && y) || (!x && z) }

  /** XZ v Y not(Z) */
  predicate OpG(x: bool, y: bool, z: bool) { (x && z) || (y && !z) }

  /** X xor Y xor Z */
  predicate OpH(x: bool, y: bool, z: bool) { (x != y) != z }

  /** Y xor (X v not(Z)) */
  predicate OpI(x: bool, y: bool, z: bool) { y != (x || !z) }

  function F(x: Word, y: Word, z: Word): Word { Wordwise(OpF, x, y, z) }

  function G(x: Word, y: Word, z: Word): Word { Wordwise(OpG, x, y, z) }

  function H(x: Word, y: Word, z: Word): Word { Wordwise(OpH, x, y, z) }

  function I(x: Word, y: Word, z: Word): Word { Wordwise(OpI, x, y, z) }

  lemma {:induction false} Pow2Product(s: nat, t: nat)
    ensures Pow2(s) * Pow2(t) == Pow2(s + t)
  {
    if s > 0 { Pow2Product(s - 1, t); }
  }

  lemma Modulo(q: nat, r: nat)
    requires r < WORD
    ensures (q * WORD + r) % WORD == r
  {
    assert (q * WORD + r) / WORD == q;
  }

  /** A word times p, with its upper part cut off and put at the lower end. */
  lemma Parts(x: Word, p: nat, m: nat)
    requires m > 0 && p * m == WORD
    ensures x * p % WORD == (x % m) * p
    ensures x / m < p && (x % m) * p + x / m < WORD
  {
    var q, r := x / m, x % m;
    PartsOf(x, p, m, q, r);
    Modulo(q, r * p);
  }

  lemma PartsOf(x: Word, p: nat, m: nat, q: nat, r: nat)
    requires m > 0 && p * m == WORD && x == q * m + r && r < m
    ensures x * p == q * WORD + r * p && q < p && r * p + q < WORD
  {
    assert x * p == q * (m * p) + r * p;
    if q >= p { Monotone(p, q, m); }
    Monotone(r, m - 1, p);
  }

  lemma Monotone(a: nat, b: nat, c: nat)
    requires a <= b
    ensures a * c <= b * c
  {
  }

  lemma Rotation(x: Word, s: nat, t: nat)
    requires s + t == 32
    ensures Pow2(s) * Pow2(t) == WORD
    ensures x * Pow2(s) % WORD + x / Pow2(t) < WORD
  {
    Pow2Product(s, t);
    Pow2Word();
    Parts(x, Pow2(s), Pow2(t));
  }

  /** Circular shift to the left by s bits. */
  function RotateLeft(x: Word, s: nat): Word {
    if s > 32 then x
    else
      Rotation(x, s, 32 - s);
      x * Pow2(s) % WORD + x / Pow2(32 - s)
  }

  function Add(x: Word, y: Word): Word { (x + y) % WORD }

  /** b + ((a + f + x + t) <<< s), all sums modulo 2^32. */
  function Mix(a: Word, b: Word, f: Word, x: Word, s: nat, t: Word): Word {
    Add(b, RotateLeft((a + f + x + t) % WORD, s))
  }

  /** Word i of the data, low-order byte first. */
  function WordAt(data: seq<Byte>, i: nat): Word {
    if 4 * i + 4 > |data| then 0
    else
      data[4 * i] as int + 0x100 * data[4 * i + 1] as int + 0x1_0000 * data[4 * i + 2] as int +
        0x100_0000 * data[4 * i + 3] as int
  }

  /** Element i + 1 of the table T: the integer part of 4294967296 times |sin(i + 1)|. */
  function T(i: nat): Word {
    match i
    case 0 => 0xd76aa478
    case 1 => 0xe8c7b756
    case 2 => 0x242070db
    case 3 => 0xc1bdceee
    case 4 => 0xf57c0faf
    case 5 => 0x4787c62a
    case 6 => 0xa8304613
    case 7 => 0xfd469501
    case 8 => 0x698098d8
    case 9 => 0x8b44f7af
    case 10 => 0xffff5bb1
    case 11 => 0x895cd7be
    case 12 => 0x6b901122
    case 13 => 0xfd987193
    case 14 => 0xa679438e
    case 15 => 0x49b40821
    case 16 => 0xf61e2562
    case 17 => 0xc040b340
    case 18 => 0x265e5a51
    case 19 => 0xe9b6c7aa
    case 20 => 0xd62f105d
    case 21 => 0x02441453
    case 22 => 0xd8a1e681
    case 23 => 0xe7d3fbc8
    case 24 => 0x21e1cde6
    case 25 => 0xc33707d6
    case 26 => 0xf4d50d87
    case 27 => 0x455a14ed
    case 28 => 0xa9e3e905
    case 29 => 0xfcefa3f8
    case 30 => 0x676f02d9
    case 31 => 0x8d2a4c8a
    case 32 => 0xfffa3942
    case 33 => 0x8771f681
    case 34 => 0x6d9d6122
    case 35 => 0xfde5380c
    case 36 => 0xa4beea44
    case 37 => 0x4bdecfa9
    case 38 => 0xf6bb4b60
    case 39 => 0xbebfbc70
    case 40 => 0x289b7ec6
    case 41 => 0xeaa127fa
    case 42 => 0xd4ef3085
    case 43 => 0x04881d05
    case 44 => 0xd9d4d039
    case 45 => 0xe6db99e5
    case 46 => 0x1fa27cf8
    case 47 => 0xc4ac5665
    case 48 => 0xf4292244
    case 49 => 0x432aff97
    case 50 => 0xab9423a7
    case 51 => 0xfc93a039
    case 52 => 0x655b59c3
    case 53 => 0x8f0ccc92
    case 54 => 0xffeff47d
    case 55 => 0x85845dd1
    case 56 => 0x6fa87e4f
    case 57 => 0xfe2ce6e0
    case 58 => 0xa3014314
    case 59 => 0x4e0811a1
    case 60 => 0xf7537e82
    case 61 => 0xbd3af235
    case 62 => 0x2ad7d2bb
    case _ => 0xeb86d391
  }

  /** The word of the block that operation i uses. */
  function K(i: nat): Index {
    if i < 16 then i else if i < 32 then (5 * i + 1) % 16 else if i < 48 then (3 * i + 5) % 16 else (7 * i) % 16
  }

  function Shift(i: nat): nat {
    if i < 16 then if i % 4 == 0 then 7 else if i % 4 == 1 then 12 else if i % 4 == 2 then 17 else 22
    else if i < 32 then if i % 4 == 0 then 5 else if i % 4 == 1 then 9 else if i % 4 == 2 then 14 else 20
    else if i < 48 then if i % 4 == 0 then 4 else if i % 4 == 1 then 11 else if i % 4 == 2 then 16 else 23
    else if i % 4 == 0 then 6 else if i % 4 == 1 then 10 else if i % 4 == 2 then 15 else 21
  }

  type Logic = (Word, Word, Word) -> Word

  type Index = i: int | 0 <= i < 16

  /** The operations on words that the rounds are made of, and the tables that say which
      word, shift and constant operation i uses.  The rounds, the blocks and the padding only
      decide which words meet where, so they are defined over any such scheme. */
  datatype Scheme = Scheme(f: Logic, g: Logic, h: Logic, i: Logic,
                           mix: (Word, Word, Word, Word, nat, Word) -> Word,
                           add: (Word, Word) -> Word,
                           word: (seq<Byte>, nat) -> Word,
                           k: nat -> Index, shift: nat -> nat, t: nat -> Word)

  const RFC := Scheme(F, G, H, I, Mix, Add, WordAt, K, Shift, T)

  function Choose(m: Scheme, i: nat, x: Word, y: Word, z: Word): Word {
    if i < 16 then m.f(x, y, z) else if i < 32 then m.g(x, y, z) else if i < 48 then m.h(x, y, z) else m.i(x, y, z)
  }

  /** Operation i, after which the four registers change places. */
  function Step(m: Scheme, s: State, x: seq<Word>, i: nat): State
    requires |x| == 16
  {
    State(s.d, m.mix(s.a, s.b, Choose(m, i, s.b, s.c, s.d), x[m.k(i)], m.shift(i), m.t(i)), s.b, s.c)
  }

  /** Operations i up to i + n. */
  function Steps(m: Scheme, s: State, x: seq<Word>, i: nat, n: nat): State
    requires |x| == 16
  {
    if n == 0 then s else Step(m, Steps(m, s, x, i, n - 1), x, i + n - 1)
  }

  function Plus(m: Scheme, s: State, t: State): State {
    State(m.add(s.a, t.a), m.add(s.b, t.b), m.add(s.c, t.c), m.add(s.d, t.d))
  }

  /** Four rounds of sixteen operations, then the old state is added. */
  function Block(m: Scheme, s: State, x: seq<Word>): State
    requires |x| == 16
  {
    Plus(m, Steps(m, s, x, 0, 4 * |x|), s)
  }

  function Words(m: Scheme, data: seq<Byte>): (x: seq<Word>)
    ensures |x| == 16
  {
    [m.word(data, 0), m.word(data, 1), m.word(data, 2), m.word(data, 3),
     m.word(data, 4), m.word(data, 5), m.word(data, 6), m.word(data, 7),
     m.word(data, 8), m.word(data, 9), m.word(data, 10), m.word(data, 11),
     m.word(data, 12), m.word(data, 13), m.word(data, 14), m.word(data, 15)]
  }

  /** What one 64-byte block does to the state. */
  type Compress = (State, seq<Byte>) -> State

  function CompressWith(m: Scheme): Compress {
    (s: State, data: seq<Byte>) => Block(m, s, Words(m, data))
  }

  /** The state after the whole 64-byte blocks of the data; what is left over is ignored. */
  function Digested(c: Compress, s: State, data: seq<Byte>): State
    decreases |data|
  {
    if |data| < 64 then s else Digested(c, c(s, data[..64]), data[64..])
  }

  // ---------------------------------------------------------------- sections 3.1, 3.2 and 3.5

  function Low32(n: nat): seq<Byte> {
    [(n % 256) as Byte, (n / 256 % 256) as Byte, (n / 0x1_0000 % 256) as Byte, (n / 0x100_0000 % 256) as Byte]
  }

  /** A 64-bit number as two words, low-order word first. */
  function Low64(n: nat): seq<Byte> { Low32(n % WORD) + Low32(n / WORD % WORD) }

  function Zeros(n: nat): seq<Byte> { seq(n, i => 0) }

  /** How many zero bytes bring a message of n bytes to 56 modulo 64 after the single 1 bit. */
  function Filler(n: nat): nat { if n % 64 < 56 then 55 - n % 64 else 119 - n % 64 }

  function Padded(message: seq<Byte>): seq<Byte> {
    message + ([0x80] + Zeros(Filler(|message|))) + Low64(8 * |message| % LONG)
  }

  function Output(s: State): seq<Byte> { Low32(s.a) + Low32(s.b) + Low32(s.c) + Low32(s.d) }

  function DigestWith(c: Compress, message: seq<Byte>): seq<Byte> { Output(Digested(c, INIT, Padded(message))) }

  /** The message digest: A, B, C, D after the padded message, low-order byte first. */
  function Md5(message: seq<Byte>): seq<Byte> { DigestWith(CompressWith(RFC), message) }

  // ---------------------------------------------------------------- lemmas

  lemma {:induction false} StepsConcat(m: Scheme, s: State, x: seq<Word>, i: nat, j: nat, n: nat)
    requires |x| == 16
    ensures Steps(m, s, x, i, j + n) == Steps(m, Steps(m, s, x, i, j), x, i + j, n)
  {
    if n > 0 { StepsConcat(m, s, x, i, j, n - 1); }
  }

  /** Blocks can be digested in any number of goes. */
  lemma {:induction false} DigestedConcat(c: Compress, s: State, a: seq<Byte>, b: seq<Byte>)
    requires |a| % 64 == 0
    ensures Digested(c, s, a + b) == Digested(c, Digested(c, s, a), b)
    decreases |a|
  {
    if |a| == 0 {
      assert a + b == b;
    } else {
      assert (a + b)[..64] == a[..64] && (a + b)[64..] == a[64..] + b;
      DigestedConcat(c, c(s, a[..64]), a[64..], b);
    }
  }

  lemma OneBlockDigested(c: Compress, s: State, data: seq<Byte>)
    requires |data| == 64
    ensures Digested(c, s, data) == c(s, data)
  {
    assert data[..64] == data && data[64..] == [];
  }
}
