/** The operators and macros of `md5.cc` on 32-bit words, and that the macros compute what
    RFC 1321 defines. */
module Md5Macros {
  import opened Basics
  import opened Md5Spec

  type Op = (bool, bool, bool) -> bool

  // ---------------------------------------------------------------- operators on words

  predicate OpAnd(x: bool, y: bool, z: bool) { x && y }

  predicate OpOr(x: bool, y: bool, z: bool) { x || y }

  predicate OpXor(x: bool, y: bool, z: bool) { x != y }

  predicate OpNot(x: bool, y: bool, z: bool) { !x }

  function And(x: Word, y: Word): Word { Wordwise(OpAnd, x, y, 0) }

  function Or(x: Word, y: Word): Word { Wordwise(OpOr, x, y, 0) }

  function Xor(x: Word, y: Word): Word { Wordwise(OpXor, x, y, 0) }

  function Not(x: Word): Word { Wordwise(OpNot, x, 0, 0) }

  function ShiftLeft(x: Word, n: nat): Word { x * Pow2(n) % WORD }

  function ShiftRight(x: Word, n: nat): Word { Over(x, Pow2(n)) }

  function Over(x: Word, d: nat): Word
    requires d > 0
  {
    Shrinks(x, d, x / d);
    x / d
  }

  lemma Shrinks(x: nat, d: nat, q: nat)
    requires d > 0 && q == x / d
    ensures q <= x
  {
    Monotone(1, d, q);
    assert x == q * d + x % d;
  }

  /** The sum of two words, carried over at 2^32. */
  function Sum(x: Word, y: Word): Word { if x + y < WORD then x + y else x + y - WORD }

  // ---------------------------------------------------------------- bitwise functions combine

  lemma {:induction false} First(x: nat, y: nat, z: nat, n: nat, op: Op)
    requires x < Pow2(n) && forall p, q, r :: op(p, q, r) == p
    ensures Bitwise(op, x, y, z, n) == x
  {
    if n > 0 { First(x / 2, y / 2, z / 2, n - 1, op); }
  }

  lemma {:induction false} Second(x: nat, y: nat, z: nat, n: nat, op: Op)
    requires y < Pow2(n) && forall p, q, r :: op(p, q, r) == q
    ensures Bitwise(op, x, y, z, n) == y
  {
    if n > 0 { Second(x / 2, y / 2, z / 2, n - 1, op); }
  }

  lemma {:induction false} Third(x: nat, y: nat, z: nat, n: nat, op: Op)
    requires z < Pow2(n) && forall p, q, r :: op(p, q, r) == r
    ensures Bitwise(op, x, y, z, n) == z
  {
    if n > 0 { Third(x / 2, y / 2, z / 2, n - 1, op); }
  }

  /** An operator applied to two bitwise functions of three words is a bitwise function of them. */
  lemma {:induction false} Combine(op: Op, f: Op, g: Op, all: Op, x: nat, y: nat, z: nat, n: nat)
    requires forall p, q, r :: all(p, q, r) == op(f(p, q, r), g(p, q, r), false)
    ensures Bitwise(op, Bitwise(f, x, y, z, n), Bitwise(g, x, y, z, n), 0, n) == Bitwise(all, x, y, z, n)
  {
    if n > 0 { Combine(op, f, g, all, x / 2, y / 2, z / 2, n - 1); }
  }

  predicate OpX(x: bool, y: bool, z: bool) { x }

  predicate OpY(x: bool, y: bool, z: bool) { y }

  predicate OpZ(x: bool, y: bool, z: bool) { z }

  lemma Themselves(x: Word, y: Word, z: Word)
    ensures Wordwise(OpX, x, y, z) == x && Wordwise(OpY, x, y, z) == y && Wordwise(OpZ, x, y, z) == z
  {
    Pow2Word();
    First(x, y, z, 32, OpX);
    Second(x, y, z, 32, OpY);
    Third(x, y, z, 32, OpZ);
  }

  lemma Combined(op: Op, f: Op, g: Op, all: Op, x: Word, y: Word, z: Word)
    requires forall p, q, r :: all(p, q, r) == op(f(p, q, r), g(p, q, r), false)
    ensures Wordwise(op, Wordwise(f, x, y, z), Wordwise(g, x, y, z), 0) == Wordwise(all, x, y, z)
  {
    Combine(op, f, g, all, x, y, z, 32);
  }

  // ---------------------------------------------------------------- F, G, H and I

  function FastF(x: Word, y: Word, z: Word): Word { Xor(z, And(x, Xor(y, z))) }

  function FastG(x: Word, y: Word, z: Word): Word { FastF(z, x, y) }

  function FastH(x: Word, y: Word, z: Word): Word { Xor(Xor(x, y), z) }

  function FastI(x: Word, y: Word, z: Word): Word { Xor(y, Or(x, Not(z))) }

  /** The rewritten functions, and the other two, compute what the RFC's do. */
  lemma FastFAgrees(x: Word, y: Word, z: Word)
    ensures FastF(x, y, z) == F(x, y, z)
  {
    var yz := (p: bool, q: bool, r: bool) => q != r;
    var xyz := (p: bool, q: bool, r: bool) => p && q != r;
    Themselves(x, y, z);
    Combined(OpXor, OpY, OpZ, yz, x, y, z);
    Combined(OpAnd, OpX, yz, xyz, x, y, z);
    Combined(OpXor, OpZ, xyz, OpF, x, y, z);
  }

  lemma FastGAgrees(x: Word, y: Word, z: Word)
    ensures FastG(x, y, z) == G(x, y, z)
  {
    var xy := (p: bool, q: bool, r: bool) => p != q;
    var zxy := (p: bool, q: bool, r: bool) => r && p != q;
    Themselves(x, y, z);
    Combined(OpXor, OpX, OpY, xy, x, y, z);
    Combined(OpAnd, OpZ, xy, zxy, x, y, z);
    Combined(OpXor, OpY, zxy, OpG, x, y, z);
  }

  lemma FastHAgrees(x: Word, y: Word, z: Word)
    ensures FastH(x, y, z) == H(x, y, z)
  {
    var xy := (p: bool, q: bool, r: bool) => p != q;
    Themselves(x, y, z);
    Combined(OpXor, OpX, OpY, xy, x, y, z);
    Combined(OpXor, xy, OpZ, OpH, x, y, z);
  }

  lemma FastIAgrees(x: Word, y: Word, z: Word)
    ensures FastI(x, y, z) == I(x, y, z)
  {
    var nothing := (p: bool, q: bool, r: bool) => false;
    var notZ := (p: bool, q: bool, r: bool) => !r;
    var xNotZ := (p: bool, q: bool, r: bool) => p || !r;
    Themselves(x, y, z);
    None(x, y, z, 32, nothing);
    Combined(OpNot, OpZ, nothing, notZ, x, y, z);
    Combined(OpOr, OpX, notZ, xNotZ, x, y, z);
    Combined(OpXor, OpY, xNotZ, OpI, x, y, z);
  }

  lemma {:induction false} None(x: nat, y: nat, z: nat, n: nat, op: Op)
    requires forall p, q, r :: !op(p, q, r)
    ensures Bitwise(op, x, y, z, n) == 0
  {
    if n > 0 { None(x / 2, y / 2, z / 2, n - 1, op); }
  }

  // ---------------------------------------------------------------- ROTATE_LEFT

  /** Bits that do not overlap can be added. */
  lemma {:induction false} OrIsSum(high: nat, low: nat, s: nat, n: nat)
    requires low < Pow2(s) && high * Pow2(s) + low < Pow2(n)
    ensures Bitwise(OpOr, high * Pow2(s), low, 0, n) == high * Pow2(s) + low
    decreases n
  {
    if s == 0 {
      OrZero(high, n);
    } else if n > 0 {
      var x, h := high * Pow2(s), high * Pow2(s - 1);
      Doubled(high, Pow2(s - 1));
      OrIsSum(high, low / 2, s - 1, n - 1);
      OrStep(x, low, h, low / 2, n);
    }
  }

  lemma Doubled(a: nat, b: nat)
    ensures a * (2 * b) == 2 * (a * b)
  {
  }

  lemma OrStep(x: nat, y: nat, x2: nat, y2: nat, n: nat)
    requires n > 0 && x == 2 * x2 && y2 == y / 2 && Bitwise(OpOr, x2, y2, 0, n - 1) == x2 + y2
    ensures Bitwise(OpOr, x, y, 0, n) == x + y
  {
  }

  lemma {:induction false} OrZero(x: nat, n: nat)
    requires x < Pow2(n)
    ensures Bitwise(OpOr, x, 0, 0, n) == x
  {
    if n > 0 { OrZero(x / 2, n - 1); }
  }

  /** `ROTATE_LEFT` */
  function Rotate(x: Word, n: nat): Word
    requires n <= 32
  {
    Or(ShiftLeft(x, n), ShiftRight(x, 32 - n))
  }

  lemma OrAdds(x: Word, high: nat, low: Word, s: nat)
    requires x == high * Pow2(s) && low < Pow2(s) && x + low < WORD
    ensures Or(x, low) == x + low
  {
    Pow2Word();
    OrIsSum(high, low, s, 32);
  }

  lemma RotateAgrees(x: Word, s: nat, t: nat)
    requires s + t == 32
    ensures Rotate(x, s) == RotateLeft(x, s)
  {
    assert t == 32 - s;
    Rotation(x, s, t);
    Parts(x, Pow2(s), Pow2(t));
    OrAdds(ShiftLeft(x, s), x % Pow2(t), ShiftRight(x, t), s);
  }

  // ---------------------------------------------------------------- FF, GG, HH and II

  lemma SumAdds(x: Word, y: Word)
    ensures Sum(x, y) == Add(x, y)
  {
    if x + y < WORD { Modulo(0, x + y); } else { Modulo(1, x + y - WORD); }
  }

  lemma FourAdded(a: Word, f: Word, x: Word, t: Word)
    ensures Sum(a, Sum(Sum(f, x), t)) == (a + f + x + t) % WORD
  {
    var r := Sum(a, Sum(Sum(f, x), t));
    var total := a + f + x + t;
    assert r == total || r == total - WORD || r == total - 2 * WORD || r == total - 3 * WORD;
    Modulo(if r == total then 0 else if r == total - WORD then 1 else if r == total - 2 * WORD then 2 else 3, r);
  }

  /** What the four macros do with the value of their function: `a += f + x + ac`, a rotation,
      `a += b`. */
  function FastMix(a: Word, b: Word, f: Word, x: Word, s: nat, t: Word): Word {
    var sum := Sum(a, Sum(Sum(f, x), t));
    Sum(if s <= 32 then Rotate(sum, s) else sum, b)
  }

  lemma FastMixAgrees(a: Word, b: Word, f: Word, x: Word, s: nat, t: Word)
    ensures FastMix(a, b, f, x, s, t) == Mix(a, b, f, x, s, t)
  {
    FourAdded(a, f, x, t);
    var sum := (a + f + x + t) % WORD;
    if s <= 32 { RotateAgrees(sum, s, 32 - s); }
    SumAdds(RotateLeft(sum, s), b);
  }

  // ---------------------------------------------------------------- words and bytes

  lemma Quotient(x: nat, d: nat, q: nat, r: nat)
    requires d > 0 && x == q * d + r && r < d
    ensures x / d == q && x % d == r
  {
    if q < x / d { Monotone(q + 1, x / d, d); }
    if x / d < q { Monotone(x / d + 1, q, d); }
  }

  lemma FourBytes(n: nat, b0: nat, b1: nat, b2: nat, b3: nat)
    requires b0 < 256 && b1 < 256 && b2 < 256 && b3 < 256
    requires n == b0 + 0x100 * b1 + 0x1_0000 * b2 + 0x100_0000 * b3
    ensures n % 256 == b0 && n / 256 % 256 == b1 && n / 0x1_0000 % 256 == b2 && n / 0x100_0000 % 256 == b3
  {
    var q := b2 + 0x100 * b3;
    Quotient(n, 256, b1 + 0x100 * q, b0);
    Quotient(b1 + 0x100 * q, 256, q, b1);
    Quotient(n, 0x1_0000, q, b0 + 0x100 * b1);
    Quotient(q, 256, b3, b2);
    Quotient(n, 0x100_0000, b3, b0 + 0x100 * b1 + 0x1_0000 * b2);
  }

  lemma WordBytes(b0: Byte, b1: Byte, b2: Byte, b3: Byte)
    ensures Low32(b0 as int + 0x100 * b1 as int + 0x1_0000 * b2 as int + 0x100_0000 * b3 as int) == [b0, b1, b2, b3]
  {
    FourBytes(b0 as int + 0x100 * b1 as int + 0x1_0000 * b2 as int + 0x100_0000 * b3 as int,
              b0 as int, b1 as int, b2 as int, b3 as int);
  }

  lemma WordsInOrder(data: seq<Byte>, i: nat)
    requires i < 16
    ensures Words(RFC, data)[i] == WordAt(data, i)
  {
  }

  lemma WordAtBytes(data: seq<Byte>, i: nat, from: nat)
    requires from == 4 * i && from + 4 <= |data|
    ensures Low32(WordAt(data, i)) == data[from..from + 4]
  {
    WordBytes(data[from], data[from + 1], data[from + 2], data[from + 3]);
  }

  /** A block is read as sixteen words, each with its low-order byte first. */
  lemma WordsAreBytes(data: seq<Byte>, i: nat, from: nat)
    requires |data| == 64 && i < 16 && from == 4 * i
    ensures Low32(Words(RFC, data)[i]) == data[from..from + 4]
  {
    WordsInOrder(data, i);
    WordAtBytes(data, i, from);
  }

  /** The first words of section 3.3, as their bytes. */
  lemma FirstWords()
    ensures Low32(INIT.a) == [0x01, 0x23, 0x45, 0x67]
    ensures Low32(INIT.b) == [0x89, 0xab, 0xcd, 0xef]
    ensures Low32(INIT.c) == [0xfe, 0xdc, 0xba, 0x98]
    ensures Low32(INIT.d) == [0x76, 0x54, 0x32, 0x10]
  {
  }
}
