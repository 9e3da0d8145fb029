/** The streaming digest of `md5.cc`: bytes are fed in pieces of any size through a small
    buffer, and the result is that of one pass over everything fed. */
module Md5 {
  import opened Basics
  import opened Md5Spec
  import opened Md5Macros

  // ---------------------------------------------------------------- the macros

  const CODE := Scheme(FastF, FastG, FastH, FastI, FastMix, Sum, WordAt, K, Shift, T)

  /** Two schemes whose operations compute the same, the second with the RFC's tables. */
  ghost predicate Agree(m: Scheme, r: Scheme) {
    && (forall x, y, z :: m.f(x, y, z) == r.f(x, y, z))
    && (forall x, y, z :: m.g(x, y, z) == r.g(x, y, z))
    && (forall x, y, z :: m.h(x, y, z) == r.h(x, y, z))
    && (forall x, y, z :: m.i(x, y, z) == r.i(x, y, z))
    && (forall a, b, f, x, s, t :: m.mix(a, b, f, x, s, t) == r.mix(a, b, f, x, s, t))
    && (forall x, y :: m.add(x, y) == r.add(x, y))
    && m.word == r.word && r.k == K && r.shift == Shift && r.t == T
  }

  lemma CodeAgrees()
    ensures Agree(CODE, RFC)
  {
    forall x, y, z ensures CODE.f(x, y, z) == RFC.f(x, y, z) { FastFAgrees(x, y, z); }
    forall x, y, z ensures CODE.g(x, y, z) == RFC.g(x, y, z) { FastGAgrees(x, y, z); }
    forall x, y, z ensures CODE.h(x, y, z) == RFC.h(x, y, z) { FastHAgrees(x, y, z); }
    forall x, y, z ensures CODE.i(x, y, z) == RFC.i(x, y, z) { FastIAgrees(x, y, z); }
    forall a, b, f, x, s, t ensures CODE.mix(a, b, f, x, s, t) == RFC.mix(a, b, f, x, s, t) {
      FastMixAgrees(a, b, f, x, s, t);
    }
    forall x, y ensures CODE.add(x, y) == RFC.add(x, y) { SumAdds(x, y); }
  }

  function Quad(m: Scheme, s: State, x: seq<Word>, i: nat): State
    requires |x| == 16
  {
    Step(m, Step(m, Step(m, Step(m, s, x, i), x, i + 1), x, i + 2), x, i + 3)
  }

  lemma QuadIsSteps(m: Scheme, s: State, x: seq<Word>, i: nat, n: nat)
    requires |x| == 16 && n == 4
    ensures Quad(m, s, x, i) == Steps(m, s, x, i, n)
  {
    assert Steps(m, s, x, i, n - 3) == Step(m, s, x, i);
    assert Steps(m, s, x, i, n - 2) == Step(m, Steps(m, s, x, i, n - 3), x, i + 1);
    assert Steps(m, s, x, i, n - 1) == Step(m, Steps(m, s, x, i, n - 2), x, i + 2);
  }

  /** Two goes of n operations, the second from j on, are k operations. */
  lemma TwoGoes(m: Scheme, s: State, x: seq<Word>, i: nat, n: nat, j: nat, k: nat)
    requires |x| == 16 && j == i + n && k == n + n
    ensures Steps(m, Steps(m, s, x, i, n), x, j, n) == Steps(m, s, x, i, k)
  {
    StepsConcat(m, s, x, i, n, n);
  }

  /** Four goes of n operations, from i, i1, i2 and i3 on, are k operations. */
  lemma FourGoes(m: Scheme, s: State, x: seq<Word>, i: nat, n: nat, i1: nat, i2: nat, i3: nat, k: nat, h: nat)
    requires |x| == 16 && i1 == i + n && i2 == i + h && i3 == i2 + n && h == n + n && k == h + h
    ensures Steps(m, Steps(m, Steps(m, Steps(m, s, x, i, n), x, i1, n), x, i2, n), x, i3, n) == Steps(m, s, x, i, k)
  {
    TwoGoes(m, s, x, i, n, i1, h);
    TwoGoes(m, Steps(m, s, x, i, h), x, i2, n, i3, h);
    TwoGoes(m, s, x, i, h, i2, k);
  }

  // ---------------------------------------------------------------- the counter

  /** The two 32-bit counter words hold n modulo 2^64. */
  predicate Counted(c0: nat, c1: nat, n: nat) {
    c0 < WORD && c1 < WORD && c1 * WORD + c0 == n % LONG
  }

  /** `count[0] += n; if (count[0] < n) ++count[1];` */
  method Advance(count0: nat, count1: nat, n: nat, ghost total: nat) returns (c0: nat, c1: nat)
    requires n < WORD && Counted(count0, count1, total)
    ensures Counted(c0, c1, total + n)
  {
    c0, c1 := (count0 + n) % WORD, count1;
    assert c0 == if count0 + n < WORD then count0 + n else count0 + n - WORD;
    if c0 < n { c1 := (c1 + 1) % WORD; }
    WrapAdd(total, n);
  }

  lemma WrapAdd(total: nat, n: nat)
    requires n < WORD
    ensures (total + n) % LONG == if total % LONG + n < LONG then total % LONG + n else total % LONG + n - LONG
  {
    var q, r := total / LONG, total % LONG;
    assert total + n == q * LONG + (r + n);
    if r + n < LONG {
      assert (total + n) / LONG == q;
    } else {
      assert (total + n) / LONG == q + 1;
    }
  }

  /** `words[2] = { count[0] << 3, (count[1] << 3) | (count[0] >> 29) }`: the bit count, low
      word first. */
  method LengthWords(c0: nat, c1: nat, ghost n: nat) returns (low: nat, high: nat)
    requires Counted(c0, c1, n)
    ensures low < WORD && high < WORD && low + high * WORD == 8 * n % LONG
  {
    low, high := ShiftLeft(c0, 3), Or(ShiftLeft(c1, 3), ShiftRight(c0, 29));
    ShiftedByThree(c0);
    ShiftedByThree(c1);
    OrAdds(ShiftLeft(c1, 3), c1 % 0x2000_0000, ShiftRight(c0, 29), 3);
    BitCount(c0, c1, n, low, high);
  }

  /** What the two shifts make of a counter word. */
  lemma ShiftedByThree(c: Word)
    ensures ShiftLeft(c, 3) == 8 * c - WORD * (c / 0x2000_0000) == 8 * (c % 0x2000_0000)
    ensures ShiftRight(c, 29) == c / 0x2000_0000 < 8 == Pow2(3)
    ensures ShiftLeft(c, 3) <= WORD - 8
  {
    EighthPower();
    Parts(c, 8, 0x2000_0000);
  }

  lemma EighthPower()
    ensures Pow2(3) == 8 && Pow2(29) == 0x2000_0000
  {
    Pow2Word();
    Pow2Product(3, 29);
  }

  /** The two words `Finish` puts at the end of the buffer are the bit count, low word first. */
  lemma BitCount(c0: nat, c1: nat, n: nat, low: int, high: int)
    requires Counted(c0, c1, n)
    requires low == 8 * c0 - WORD * (c0 / 0x2000_0000)
    requires high == 8 * c1 - WORD * (c1 / 0x2000_0000) + c0 / 0x2000_0000
    ensures 0 <= low < WORD && 0 <= high < WORD && low + high * WORD == 8 * n % LONG
  {
    var q0, q1 := c0 / 0x2000_0000, c1 / 0x2000_0000;
    EightTimes(c0, c1, q0, q1);
    Wraps(q1, high * WORD + low);
    Times8(n);
  }

  lemma EightTimes(c0: nat, c1: nat, q0: nat, q1: nat)
    ensures 8 * (c1 * WORD + c0) == q1 * LONG + ((8 * c1 - WORD * q1 + q0) * WORD + (8 * c0 - WORD * q0))
  {
  }

  lemma Times8(n: nat)
    ensures 8 * n % LONG == 8 * (n % LONG) % LONG
  {
    Wraps(8 * (n / LONG), 8 * (n % LONG));
  }

  lemma Wraps(q: nat, r: nat)
    ensures (q * LONG + r) % LONG == r % LONG
  {
    assert q * LONG + r == (q + r / LONG) * LONG + r % LONG;
  }

  lemma TakeLemma(c: Compress, done: seq<Byte>, data: seq<Byte>)
    requires |done| % 64 == 0 && |data| % 64 == 0
    ensures |done + data| % 64 == 0 && |done + data| == |done| + |data|
    ensures Digested(c, Digested(c, INIT, done), data) == Digested(c, INIT, done + data)
  {
    DigestedConcat(c, INIT, done, data);
    Multiples(|done|, |data|);
  }

  lemma Multiples(a: nat, b: nat)
    requires a % 64 == 0 && b % 64 == 0
    ensures (a + b) % 64 == 0
  {
  }

  class Md5Digest {
    const ops: Scheme
    ghost const rfc: Scheme
    ghost const compress: Compress
    var state: State
    var count0: nat
    var count1: nat
    const buffer: array<Byte>
    var bufferLen: nat
    ghost var done: seq<Byte>

    /** The macros compute the scheme, and `compress` is what the scheme does to a block. */
    ghost predicate Implements() {
      && Agree(ops, rfc)
      && forall s, data {:trigger Block(rfc, s, Words(rfc, data))} ::
           compress(s, data) == Block(rfc, s, Words(rfc, data))
    }

    /** Before `Finish`: the whole blocks `done` are digested and counted modulo 2^64, and
        fewer than 64 bytes wait in the buffer. */
    ghost predicate Valid()
      reads this
    {
      && buffer.Length == 128
      && bufferLen < 64
      && |done| % 64 == 0
      && state == Digested(compress, INIT, done)
      && Counted(count0, count1, |done|)
    }

    /** Everything fed so far. */
    ghost function Fed(): seq<Byte>
      requires bufferLen <= buffer.Length
      reads this, buffer
    {
      done + buffer[..bufferLen]
    }

    constructor (m: Scheme, ghost r: Scheme)
      requires Agree(m, r)
      ensures Valid() && Fed() == [] && fresh(buffer)
      ensures Implements() && compress == CompressWith(r)
    {
      ops, rfc, compress := m, r, CompressWith(r);
      buffer := new Byte[128];
      new;
      Reset();
    }

    /** The copy takes over only the bytes in use. */
    constructor Copy(original: Md5Digest)
      requires original.Valid() && original.Implements()
      ensures Valid() && Fed() == original.Fed() && fresh(buffer)
      ensures Implements() && compress == original.compress
    {
      ops, rfc, compress := original.ops, original.rfc, original.compress;
      state, count0, count1, bufferLen := original.state, original.count0, original.count1, original.bufferLen;
      var b := new Byte[128];
      forall i | 0 <= i < original.bufferLen { b[i] := original.buffer[i]; }
      buffer := b;
      done := original.done;
      assert b[..original.bufferLen] == original.buffer[..original.bufferLen];
    }

    method Reset()
      requires buffer.Length == 128
      modifies this
      ensures Valid() && Fed() == []
    {
      count0, count1, bufferLen := 0, 0, 0;
      state := State(0x67452301, 0xefcdab89, 0x98badcfe, 0x10325476);
      done := [];
    }

    method Fill(at: nat, data: seq<Byte>)
      requires at + |data| <= buffer.Length
      modifies buffer
      ensures buffer[..] == old(buffer[..at]) + data + old(buffer[at + |data|..])
    {
      forall i | 0 <= i < |data| { buffer[at + i] := data[i]; }
    }

    // The four macros, over the object's word operations.

    function FF(a: Word, b: Word, c: Word, d: Word, x: Word, s: nat, t: Word): Word {
      ops.mix(a, b, ops.f(b, c, d), x, s, t)
    }

    function GG(a: Word, b: Word, c: Word, d: Word, x: Word, s: nat, t: Word): Word {
      ops.mix(a, b, ops.g(b, c, d), x, s, t)
    }

    function HH(a: Word, b: Word, c: Word, d: Word, x: Word, s: nat, t: Word): Word {
      ops.mix(a, b, ops.h(b, c, d), x, s, t)
    }

    function II(a: Word, b: Word, c: Word, d: Word, x: Word, s: nat, t: Word): Word {
      ops.mix(a, b, ops.i(b, c, d), x, s, t)
    }

    /** Operations 1 to 4. */
    method Quad1(a0: Word, b0: Word, c0: Word, d0: Word, x: seq<Word>, ghost n: nat)
      returns (a: Word, b: Word, c: Word, d: Word)
      requires |x| == 16 && n == 4 && Agree(ops, rfc)
      ensures State(a, b, c, d) == Steps(rfc, State(a0, b0, c0, d0), x, 0, n)
    {
      a, b, c, d := a0, b0, c0, d0;
      a := FF(a, b, c, d, x[0], 7, 0xd76aa478);
      d := FF(d, a, b, c, x[1], 12, 0xe8c7b756);
      c := FF(c, d, a, b, x[2], 17, 0x242070db);
      b := FF(b, c, d, a, x[3], 22, 0xc1bdceee);
      QuadIsSteps(rfc, State(a0, b0, c0, d0), x, 0, n);
    }

    /** Operations 5 to 8. */
    method Quad2(a0: Word, b0: Word, c0: Word, d0: Word, x: seq<Word>, ghost n: nat)
      returns (a: Word, b: Word, c: Word, d: Word)
      requires |x| == 16 && n == 4 && Agree(ops, rfc)
      ensures State(a, b, c, d) == Steps(rfc, State(a0, b0, c0, d0), x, 4, n)
    {
      a, b, c, d := a0, b0, c0, d0;
      a := FF(a, b, c, d, x[4], 7, 0xf57c0faf);
      d := FF(d, a, b, c, x[5], 12, 0x4787c62a);
      c := FF(c, d, a, b, x[6], 17, 0xa8304613);
      b := FF(b, c, d, a, x[7], 22, 0xfd469501);
      QuadIsSteps(rfc, State(a0, b0, c0, d0), x, 4, n);
    }

    /** Operations 9 to 12. */
    method Quad3(a0: Word, b0: Word, c0: Word, d0: Word, x: seq<Word>, ghost n: nat)
      returns (a: Word, b: Word, c: Word, d: Word)
      requires |x| == 16 && n == 4 && Agree(ops, rfc)
      ensures State(a, b, c, d) == Steps(rfc, State(a0, b0, c0, d0), x, 8, n)
    {
      a, b, c, d := a0, b0, c0, d0;
      a := FF(a, b, c, d, x[8], 7, 0x698098d8);
      d := FF(d, a, b, c, x[9], 12, 0x8b44f7af);
      c := FF(c, d, a, b, x[10], 17, 0xffff5bb1);
      b := FF(b, c, d, a, x[11], 22, 0x895cd7be);
      QuadIsSteps(rfc, State(a0, b0, c0, d0), x, 8, n);
    }

    /** Operations 13 to 16. */
    method Quad4(a0: Word, b0: Word, c0: Word, d0: Word, x: seq<Word>, ghost n: nat)
      returns (a: Word, b: Word, c: Word, d: Word)
      requires |x| == 16 && n == 4 && Agree(ops, rfc)
      ensures State(a, b, c, d) == Steps(rfc, State(a0, b0, c0, d0), x, 12, n)
    {
      a, b, c, d := a0, b0, c0, d0;
      a := FF(a, b, c, d, x[12], 7, 0x6b901122);
      d := FF(d, a, b, c, x[13], 12, 0xfd987193);
      c := FF(c, d, a, b, x[14], 17, 0xa679438e);
      b := FF(b, c, d, a, x[15], 22, 0x49b40821);
      QuadIsSteps(rfc, State(a0, b0, c0, d0), x, 12, n);
    }

    method Round1(a0: Word, b0: Word, c0: Word, d0: Word, x: seq<Word>, ghost n: nat, ghost k: nat)
      returns (a: Word, b: Word, c: Word, d: Word)
      requires |x| == 16 && n == 4 && k == 16 && Agree(ops, rfc)
      ensures State(a, b, c, d) == Steps(rfc, State(a0, b0, c0, d0), x, 0, k)
    {
      a, b, c, d := Quad1(a0, b0, c0, d0, x, n);
      a, b, c, d := Quad2(a, b, c, d, x, n);
      a, b, c, d := Quad3(a, b, c, d, x, n);
      a, b, c, d := Quad4(a, b, c, d, x, n);
      FourGoes(rfc, State(a0, b0, c0, d0), x, 0, n, 4, 8, 12, k, n + n);
    }

    /** Operations 17 to 20. */
    method Quad5(a0: Word, b0: Word, c0: Word, d0: Word, x: seq<Word>, ghost n: nat)
      returns (a: Word, b: Word, c: Word, d: Word)
      requires |x| == 16 && n == 4 && Agree(ops, rfc)
      ensures State(a, b, c, d) == Steps(rfc, State(a0, b0, c0, d0), x, 16, n)
    {
      a, b, c, d := a0, b0, c0, d0;
      a := GG(a, b, c, d, x[1], 5, 0xf61e2562);
      d := GG(d, a, b, c, x[6], 9, 0xc040b340);
      c := GG(c, d, a, b, x[11], 14, 0x265e5a51);
      b := GG(b, c, d, a, x[0], 20, 0xe9b6c7aa);
      QuadIsSteps(rfc, State(a0, b0, c0, d0), x, 16, n);
    }

    /** Operations 21 to 24. */
    method Quad6(a0: Word, b0: Word, c0: Word, d0: Word, x: seq<Word>, ghost n: nat)
      returns (a: Word, b: Word, c: Word, d: Word)
      requires |x| == 16 && n == 4 && Agree(ops, rfc)
      ensures State(a, b, c, d) == Steps(rfc, State(a0, b0, c0, d0), x, 20, n)
    {
      a, b, c, d := a0, b0, c0, d0;
      a := GG(a, b, c, d, x[5], 5, 0xd62f105d);
      d := GG(d, a, b, c, x[10], 9, 0x02441453);
      c := GG(c, d, a, b, x[15], 14, 0xd8a1e681);
      b := GG(b, c, d, a, x[4], 20, 0xe7d3fbc8);
      QuadIsSteps(rfc, State(a0, b0, c0, d0), x, 20, n);
    }

    /** Operations 25 to 28. */
    method Quad7(a0: Word, b0: Word, c0: Word, d0: Word, x: seq<Word>, ghost n: nat)
      returns (a: Word, b: Word, c: Word, d: Word)
      requires |x| == 16 && n == 4 && Agree(ops, rfc)
      ensures State(a, b, c, d) == Steps(rfc, State(a0, b0, c0, d0), x, 24, n)
    {
      a, b, c, d := a0, b0, c0, d0;
      a := GG(a, b, c, d, x[9], 5, 0x21e1cde6);
      d := GG(d, a, b, c, x[14], 9, 0xc33707d6);
      c := GG(c, d, a, b, x[3], 14, 0xf4d50d87);
      b := GG(b, c, d, a, x[8], 20, 0x455a14ed);
      QuadIsSteps(rfc, State(a0, b0, c0, d0), x, 24, n);
    }

    /** Operations 29 to 32. */
    method Quad8(a0: Word, b0: Word, c0: Word, d0: Word, x: seq<Word>, ghost n: nat)
      returns (a: Word, b: Word, c: Word, d: Word)
      requires |x| == 16 && n == 4 && Agree(ops, rfc)
      ensures State(a, b, c, d) == Steps(rfc, State(a0, b0, c0, d0), x, 28, n)
    {
      a, b, c, d := a0, b0, c0, d0;
      a := GG(a, b, c, d, x[13], 5, 0xa9e3e905);
      d := GG(d, a, b, c, x[2], 9, 0xfcefa3f8);
      c := GG(c, d, a, b, x[7], 14, 0x676f02d9);
      b := GG(b, c, d, a, x[12], 20, 0x8d2a4c8a);
      QuadIsSteps(rfc, State(a0, b0, c0, d0), x, 28, n);
    }

    method Round2(a0: Word, b0: Word, c0: Word, d0: Word, x: seq<Word>, ghost n: nat, ghost k: nat)
      returns (a: Word, b: Word, c: Word, d: Word)
      requires |x| == 16 && n == 4 && k == 16 && Agree(ops, rfc)
      ensures State(a, b, c, d) == Steps(rfc, State(a0, b0, c0, d0), x, 16, k)
    {
      a, b, c, d := Quad5(a0, b0, c0, d0, x, n);
      a, b, c, d := Quad6(a, b, c, d, x, n);
      a, b, c, d := Quad7(a, b, c, d, x, n);
      a, b, c, d := Quad8(a, b, c, d, x, n);
      FourGoes(rfc, State(a0, b0, c0, d0), x, 16, n, 20, 24, 28, k, n + n);
    }

    /** Operations 33 to 36. */
    method Quad9(a0: Word, b0: Word, c0: Word, d0: Word, x: seq<Word>, ghost n: nat)
      returns (a: Word, b: Word, c: Word, d: Word)
      requires |x| == 16 && n == 4 && Agree(ops, rfc)
      ensures State(a, b, c, d) == Steps(rfc, State(a0, b0, c0, d0), x, 32, n)
    {
      a, b, c, d := a0, b0, c0, d0;
      a := HH(a, b, c, d, x[5], 4, 0xfffa3942);
      d := HH(d, a, b, c, x[8], 11, 0x8771f681);
      c := HH(c, d, a, b, x[11], 16, 0x6d9d6122);
      b := HH(b, c, d, a, x[14], 23, 0xfde5380c);
      QuadIsSteps(rfc, State(a0, b0, c0, d0), x, 32, n);
    }

    /** Operations 37 to 40. */
    method Quad10(a0: Word, b0: Word, c0: Word, d0: Word, x: seq<Word>, ghost n: nat)
      returns (a: Word, b: Word, c: Word, d: Word)
      requires |x| == 16 && n == 4 && Agree(ops, rfc)
      ensures State(a, b, c, d) == Steps(rfc, State(a0, b0, c0, d0), x, 36, n)
    {
      a, b, c, d := a0, b0, c0, d0;
      a := HH(a, b, c, d, x[1], 4, 0xa4beea44);
      d := HH(d, a, b, c, x[4], 11, 0x4bdecfa9);
      c := HH(c, d, a, b, x[7], 16, 0xf6bb4b60);
      b := HH(b, c, d, a, x[10], 23, 0xbebfbc70);
      QuadIsSteps(rfc, State(a0, b0, c0, d0), x, 36, n);
    }

    /** Operations 41 to 44. */
    method Quad11(a0: Word, b0: Word, c0: Word, d0: Word, x: seq<Word>, ghost n: nat)
      returns (a: Word, b: Word, c: Word, d: Word)
      requires |x| == 16 && n == 4 && Agree(ops, rfc)
      ensures State(a, b, c, d) == Steps(rfc, State(a0, b0, c0, d0), x, 40, n)
    {
      a, b, c, d := a0, b0, c0, d0;
      a := HH(a, b, c, d, x[13], 4, 0x289b7ec6);
      d := HH(d, a, b, c, x[0], 11, 0xeaa127fa);
      c := HH(c, d, a, b, x[3], 16, 0xd4ef3085);
      b := HH(b, c, d, a, x[6], 23, 0x04881d05);
      QuadIsSteps(rfc, State(a0, b0, c0, d0), x, 40, n);
    }

    /** Operations 45 to 48. */
    method Quad12(a0: Word, b0: Word, c0: Word, d0: Word, x: seq<Word>, ghost n: nat)
      returns (a: Word, b: Word, c: Word, d: Word)
      requires |x| == 16 && n == 4 && Agree(ops, rfc)
      ensures State(a, b, c, d) == Steps(rfc, State(a0, b0, c0, d0), x, 44, n)
    {
      a, b, c, d := a0, b0, c0, d0;
      a := HH(a, b, c, d, x[9], 4, 0xd9d4d039);
      d := HH(d, a, b, c, x[12], 11, 0xe6db99e5);
      c := HH(c, d, a, b, x[15], 16, 0x1fa27cf8);
      b := HH(b, c, d, a, x[2], 23, 0xc4ac5665);
      QuadIsSteps(rfc, State(a0, b0, c0, d0), x, 44, n);
    }

    method Round3(a0: Word, b0: Word, c0: Word, d0: Word, x: seq<Word>, ghost n: nat, ghost k: nat)
      returns (a: Word, b: Word, c: Word, d: Word)
      requires |x| == 16 && n == 4 && k == 16 && Agree(ops, rfc)
      ensures State(a, b, c, d) == Steps(rfc, State(a0, b0, c0, d0), x, 32, k)
    {
      a, b, c, d := Quad9(a0, b0, c0, d0, x, n);
      a, b, c, d := Quad10(a, b, c, d, x, n);
      a, b, c, d := Quad11(a, b, c, d, x, n);
      a, b, c, d := Quad12(a, b, c, d, x, n);
      FourGoes(rfc, State(a0, b0, c0, d0), x, 32, n, 36, 40, 44, k, n + n);
    }

    /** Operations 49 to 52. */
    method Quad13(a0: Word, b0: Word, c0: Word, d0: Word, x: seq<Word>, ghost n: nat)
      returns (a: Word, b: Word, c: Word, d: Word)
      requires |x| == 16 && n == 4 && Agree(ops, rfc)
      ensures State(a, b, c, d) == Steps(rfc, State(a0, b0, c0, d0), x, 48, n)
    {
      a, b, c, d := a0, b0, c0, d0;
      a := II(a, b, c, d, x[0], 6, 0xf4292244);
      d := II(d, a, b, c, x[7], 10, 0x432aff97);
      c := II(c, d, a, b, x[14], 15, 0xab9423a7);
      b := II(b, c, d, a, x[5], 21, 0xfc93a039);
      QuadIsSteps(rfc, State(a0, b0, c0, d0), x, 48, n);
    }

    /** Operations 53 to 56. */
    method Quad14(a0: Word, b0: Word, c0: Word, d0: Word, x: seq<Word>, ghost n: nat)
      returns (a: Word, b: Word, c: Word, d: Word)
      requires |x| == 16 && n == 4 && Agree(ops, rfc)
      ensures State(a, b, c, d) == Steps(rfc, State(a0, b0, c0, d0), x, 52, n)
    {
      a, b, c, d := a0, b0, c0, d0;
      a := II(a, b, c, d, x[12], 6, 0x655b59c3);
      d := II(d, a, b, c, x[3], 10, 0x8f0ccc92);
      c := II(c, d, a, b, x[10], 15, 0xffeff47d);
      b := II(b, c, d, a, x[1], 21, 0x85845dd1);
      QuadIsSteps(rfc, State(a0, b0, c0, d0), x, 52, n);
    }

    /** Operations 57 to 60. */
    method Quad15(a0: Word, b0: Word, c0: Word, d0: Word, x: seq<Word>, ghost n: nat)
      returns (a: Word, b: Word, c: Word, d: Word)
      requires |x| == 16 && n == 4 && Agree(ops, rfc)
      ensures State(a, b, c, d) == Steps(rfc, State(a0, b0, c0, d0), x, 56, n)
    {
      a, b, c, d := a0, b0, c0, d0;
      a := II(a, b, c, d, x[8], 6, 0x6fa87e4f);
      d := II(d, a, b, c, x[15], 10, 0xfe2ce6e0);
      c := II(c, d, a, b, x[6], 15, 0xa3014314);
      b := II(b, c, d, a, x[13], 21, 0x4e0811a1);
      QuadIsSteps(rfc, State(a0, b0, c0, d0), x, 56, n);
    }

    /** Operations 61 to 64. */
    method Quad16(a0: Word, b0: Word, c0: Word, d0: Word, x: seq<Word>, ghost n: nat)
      returns (a: Word, b: Word, c: Word, d: Word)
      requires |x| == 16 && n == 4 && Agree(ops, rfc)
      ensures State(a, b, c, d) == Steps(rfc, State(a0, b0, c0, d0), x, 60, n)
    {
      a, b, c, d := a0, b0, c0, d0;
      a := II(a, b, c, d, x[4], 6, 0xf7537e82);
      d := II(d, a, b, c, x[11], 10, 0xbd3af235);
      c := II(c, d, a, b, x[2], 15, 0x2ad7d2bb);
      b := II(b, c, d, a, x[9], 21, 0xeb86d391);
      QuadIsSteps(rfc, State(a0, b0, c0, d0), x, 60, n);
    }

    method Round4(a0: Word, b0: Word, c0: Word, d0: Word, x: seq<Word>, ghost n: nat, ghost k: nat)
      returns (a: Word, b: Word, c: Word, d: Word)
      requires |x| == 16 && n == 4 && k == 16 && Agree(ops, rfc)
      ensures State(a, b, c, d) == Steps(rfc, State(a0, b0, c0, d0), x, 48, k)
    {
      a, b, c, d := Quad13(a0, b0, c0, d0, x, n);
      a, b, c, d := Quad14(a, b, c, d, x, n);
      a, b, c, d := Quad15(a, b, c, d, x, n);
      a, b, c, d := Quad16(a, b, c, d, x, n);
      FourGoes(rfc, State(a0, b0, c0, d0), x, 48, n, 52, 56, 60, k, n + n);
    }

    /** The body of the block loop. */
    method OneBlock(a0: Word, b0: Word, c0: Word, d0: Word, data: seq<Byte>)
      returns (a: Word, b: Word, c: Word, d: Word)
      requires |data| == 64 && Agree(ops, rfc)
      ensures State(a, b, c, d) == Block(rfc, State(a0, b0, c0, d0), Words(rfc, data))
    {
      var x := Words(ops, data);
      var prevA, prevB, prevC, prevD := a0, b0, c0, d0;
      a, b, c, d := Round1(a0, b0, c0, d0, x, |x| / 4, |x|);
      a, b, c, d := Round2(a, b, c, d, x, |x| / 4, |x|);
      a, b, c, d := Round3(a, b, c, d, x, |x| / 4, |x|);
      a, b, c, d := Round4(a, b, c, d, x, |x| / 4, |x|);
      FourGoes(rfc, State(a0, b0, c0, d0), x, 0, |x|, 16, 32, 48, 4 * |x|, 2 * |x|);
      a, b, c, d := ops.add(a, prevA), ops.add(b, prevB), ops.add(c, prevC), ops.add(d, prevD);
    }

    method CompressOne(s: State, data: seq<Byte>) returns (a: Word, b: Word, c: Word, d: Word)
      requires |data| == 64 && Implements()
      ensures State(a, b, c, d) == compress(s, data)
    {
      a, b, c, d := OneBlock(s.a, s.b, s.c, s.d, data);
    }

    /** The block loop. */
    method Blocks(s: State, data: seq<Byte>) returns (a: Word, b: Word, c: Word, d: Word)
      requires |data| % 64 == 0 && Implements()
      ensures State(a, b, c, d) == Digested(compress, s, data)
    {
      a, b, c, d := s.a, s.b, s.c, s.d;
      var cur := 0;
      while cur < |data|
        invariant cur <= |data| && cur % 64 == 0
        invariant State(a, b, c, d) == Digested(compress, s, data[..cur])
      {
        ghost var before := State(a, b, c, d);
        a, b, c, d := CompressOne(State(a, b, c, d), data[cur..cur + 64]);
        assert data[..cur + 64] == data[..cur] + data[cur..cur + 64];
        DigestedConcat(compress, s, data[..cur], data[cur..cur + 64]);
        OneBlockDigested(compress, before, data[cur..cur + 64]);
        cur := cur + 64;
      }
      assert data[..cur] == data;
    }

    /** Digests whole blocks and counts their bytes. */
    method Transform(data: seq<Byte>, ghost total: nat)
      requires |data| % 64 == 0 && |data| < WORD && Implements()
      requires Counted(count0, count1, total)
      modifies this`state, this`count0, this`count1
      ensures state == Digested(compress, old(state), data)
      ensures Counted(count0, count1, total + |data|)
    {
      count0, count1 := Advance(count0, count1, |data|, total);
      var a, b, c, d := Blocks(state, data);
      state := State(a, b, c, d);
    }

    /** `Transform` on the next whole blocks of the message. */
    method Take(data: seq<Byte>)
      requires |data| % 64 == 0 && |data| < WORD && Valid() && Implements()
      modifies this`state, this`count0, this`count1, this`done
      ensures Valid() && done == old(done) + data
    {
      Transform(data, |done|);
      TakeLemma(compress, done, data);
      done := done + data;
    }

    /** Feeds more bytes; `aligned` is the negated answer of UNALIGNED_P. */
    method Update(input: seq<Byte>, aligned: bool)
      requires Valid() && Implements() && |input| < WORD
      modifies this, buffer
      ensures Valid() && Fed() == old(Fed()) + input
    {
      var rest := input;
      var space := 64 - bufferLen;
      if |rest| >= space {
        rest := TopUp(rest);
        rest := WholeBlocks(rest, aligned);
      }
      Keep(rest);
    }

    /** Digests the whole blocks of the input: one by one through the buffer when the input
        is not aligned, else in one go from where it is. */
    method WholeBlocks(input: seq<Byte>, aligned: bool) returns (rest: seq<Byte>)
      requires Valid() && Implements() && bufferLen == 0 && |input| < WORD
      modifies this, buffer
      ensures Valid() && bufferLen == 0 && |rest| < 64 && done + rest == old(done) + input
    {
      rest := input;
      if !aligned {
        while |rest| >= 64
          invariant Valid() && bufferLen == 0 && done + rest == old(done) + input && |rest| < WORD
        {
          Fill(0, rest[..64]);
          var block := buffer[..64];
          assert block == rest[..64];
          Take(block);
          rest := rest[64..];
        }
      } else if |rest| >= 64 {
        var whole := |rest| - |rest| % 64;
        Take(rest[..whole]);
        rest := rest[whole..];
      }
    }

    /** Completes a block that is waiting in the buffer, if there is one. */
    method TopUp(input: seq<Byte>) returns (rest: seq<Byte>)
      requires Valid() && Implements() && 64 - bufferLen <= |input| < WORD
      modifies this, buffer
      ensures Valid() && bufferLen == 0 && |rest| < WORD
      ensures done + rest == old(Fed()) + input
    {
      var space := 64 - bufferLen;
      if space != 0 && bufferLen != 0 {
        Fill(bufferLen, input[..space]);
        var block := buffer[..64];
        Take(block);
        rest := input[space..];
        bufferLen := 0;
      } else {
        rest := input;
      }
    }

    /** Buffers what is left. */
    method Keep(rest: seq<Byte>)
      requires Valid() && bufferLen + |rest| < 64
      modifies this`bufferLen, buffer
      ensures Valid() && Fed() == old(Fed()) + rest
    {
      Fill(bufferLen, rest);
      bufferLen := bufferLen + |rest|;
    }

    /** Pads, appends the bit count, digests the rest and returns A, B, C, D. */
    method Finish() returns (digest: seq<Byte>)
      requires Valid() && Implements()
      modifies this, buffer
      ensures digest == DigestWith(compress, old(Fed()))
    {
      var last := LastBlocks();
      DigestedConcat(compress, INIT, done, last);
      Transform(last, |old(Fed())|);
      digest := Low32(state.a) + Low32(state.b) + Low32(state.c) + Low32(state.d);
    }

    /** Counts the buffered bytes and completes the buffer to one or two blocks. */
    method LastBlocks() returns (last: seq<Byte>)
      requires Valid()
      modifies this`count0, this`count1, buffer
      ensures Counted(count0, count1, |old(Fed())|)
      ensures |last| == 64 || |last| == 128
      ensures done + last == Padded(old(Fed()))
    {
      count0, count1 := Advance(count0, count1, bufferLen, |done|);
      var size := if bufferLen < 56 then 64 else 128;
      var low, high := LengthWords(count0, count1, |done| + bufferLen);
      PadBuffer(size, low, high);
      last := buffer[..size];
      PaddedTail(done, old(buffer[..bufferLen]), last, low, high);
    }

    method PadBuffer(size: nat, low: nat, high: nat)
      requires buffer.Length == 128 && bufferLen < 64 && size == if bufferLen < 56 then 64 else 128
      modifies buffer
      ensures buffer[..size] == old(buffer[..bufferLen]) + ([0x80] + Zeros(size - 9 - bufferLen)) +
              (Low32(low) + Low32(high))
    {
      var count, filler := Low32(low) + Low32(high), [0x80] + Zeros(size - 9 - bufferLen);
      Fill(size - 8, count);
      ghost var counted := buffer[..];
      assert counted[size - 8..size] == count && counted[..bufferLen] == old(buffer[..bufferLen]);
      Fill(bufferLen, filler);
      assert buffer[..size] == counted[..bufferLen] + filler + counted[size - 8..size];
    }
  }

  lemma FillerOf(done: nat, pending: nat)
    requires done % 64 == 0 && pending < 64
    ensures Filler(done + pending) == (if pending < 56 then 55 else 119) - pending
  {
    assert (done + pending) % 64 == pending;
  }

  /** The last one or two blocks that `Finish` builds are the tail of the padded message. */
  lemma PaddedTail(done: seq<Byte>, pending: seq<Byte>, last: seq<Byte>, low: nat, high: nat)
    requires |done| % 64 == 0 && |pending| < 64
    requires low < WORD && high < WORD && low + high * WORD == 8 * (|done| + |pending|) % LONG
    requires last == pending + ([0x80] + Zeros((if |pending| < 56 then 55 else 119) - |pending|)) +
             (Low32(low) + Low32(high))
    ensures done + last == Padded(done + pending)
  {
    LowWords(low, high);
    FillerOf(|done|, |pending|);
    PaddedJoins(done, pending, last);
  }

  lemma PaddedJoins(done: seq<Byte>, pending: seq<Byte>, last: seq<Byte>)
    requires last == pending + ([0x80] + Zeros(Filler(|done| + |pending|))) + Low64(8 * (|done| + |pending|) % LONG)
    ensures done + last == Padded(done + pending)
  {
    assert |done + pending| == |done| + |pending|;
    TailJoins(done, pending, [0x80] + Zeros(Filler(|done| + |pending|)), Low64(8 * (|done| + |pending|) % LONG));
  }

  lemma LowWords(low: nat, high: nat)
    requires low < WORD && high < WORD
    ensures Low64(low + high * WORD) == Low32(low) + Low32(high)
  {
    SplitWords(low, high);
  }

  lemma SplitWords(low: nat, high: nat)
    requires low < WORD && high < WORD
    ensures (low + high * WORD) % WORD == low && (low + high * WORD) / WORD % WORD == high
  {
    assert (low + high * WORD) / WORD == high;
  }

  lemma TailJoins(done: seq<Byte>, pending: seq<Byte>, filler: seq<Byte>, count: seq<Byte>)
    ensures done + (pending + filler + count) == done + pending + filler + count
  {
  }

  // ---------------------------------------------------------------- any way of cutting a message

  function Concat(pieces: seq<seq<Byte>>): seq<Byte> {
    if pieces == [] then [] else Concat(pieces[..|pieces| - 1]) + pieces[|pieces| - 1]
  }

  /** However a message is cut into `Update` calls, and however each piece is aligned in
      memory, `Finish` returns the RFC 1321 digest of the whole message. */
  method DigestPieces(pieces: seq<seq<Byte>>, aligned: nat -> bool) returns (digest: seq<Byte>)
    requires forall p :: p in pieces ==> |p| < WORD
    ensures digest == Md5(Concat(pieces))
  {
    CodeAgrees();
    var d := new Md5Digest(CODE, RFC);
    var i := 0;
    while i < |pieces|
      invariant i <= |pieces|
      invariant d.Valid() && d.Fed() == Concat(pieces[..i])
      invariant fresh(d) && fresh(d.buffer)
    {
      assert pieces[..i + 1][..i] == pieces[..i];
      d.Update(pieces[i], aligned(i));
      i := i + 1;
    }
    assert pieces[..i] == pieces;
    digest := d.Finish();
  }
}
