/** The mixing macro on bits: a register is a string of 32 bits, lowest first, a shift moves bits by
    a number of places, exclusive or works on each bit, and subtraction borrows from bit to bit. The
    nine lines on registers compute what the arithmetic model of the hash computes on numbers. */
module BobMix {
  import opened Basics
  import opened BobHash

  type Bits = seq<bool>

  type Register = r: Bits | |r| == 32 witness seq(32, i => false)

  function Digit(b: bool): nat { if b then 1 else 0 }

  /** The number a bit string stands for. */
  function Value(x: Bits): (v: nat)
    ensures v < Pow2(|x|)
  {
    if x == [] then 0 else Digit(x[0]) + 2 * Value(x[1..])
  }

  function Number(x: Register): Word {
    WordBits();
    Value(x)
  }

  // ---- bit by bit

  function Zeros(n: nat): (z: Bits)
    ensures |z| == n && forall i :: 0 <= i < n ==> !z[i]
  {
    seq(n, i => false)
  }

  function Right(x: Register, places: nat): Register
    requires places <= 32
  {
    x[places..] + Zeros(places)
  }

  function Left(x: Register, places: nat): Register
    requires places <= 32
  {
    Zeros(places) + x[..32 - places]
  }

  function BitwiseXor(x: Register, y: Register): Register {
    seq(32, i requires 0 <= i < 32 => x[i] != y[i])
  }

  function Borrows(x: bool, y: bool, borrow: bool): bool { if x then y && borrow else y || borrow }

  /** Schoolbook subtraction from the lowest bit on. */
  function SubBits(x: Bits, y: Bits, borrow: bool): (d: Bits)
    requires |x| == |y|
    ensures |d| == |x|
  {
    if x == [] then []
    else [(x[0] != y[0]) != borrow] + SubBits(x[1..], y[1..], Borrows(x[0], y[0], borrow))
  }

  function Minus(x: Register, y: Register): Register { SubBits(x, y, false) }

  // ---- bits and numbers

  function LastBorrow(x: Bits, y: Bits, borrow: bool): bool
    requires |x| == |y|
  {
    if x == [] then borrow else LastBorrow(x[1..], y[1..], Borrows(x[0], y[0], borrow))
  }

  lemma {:induction false} SubValue(x: Bits, y: Bits, borrow: bool)
    requires |x| == |y|
    ensures Value(SubBits(x, y, borrow)) ==
            Value(x) - Value(y) - Digit(borrow) + if LastBorrow(x, y, borrow) then Pow2(|x|) else 0
    decreases |x|
  {
    if x != [] {
      var next := Borrows(x[0], y[0], borrow);
      SubValue(x[1..], y[1..], next);
      assert SubBits(x, y, borrow)[1..] == SubBits(x[1..], y[1..], next);
    }
  }

  lemma MinusNumber(x: Register, y: Register)
    ensures Number(Minus(x, y)) == Sub(Number(x), Number(y))
  {
    SubValue(x, y, false);
    WordBits();
  }

  lemma XorStep(x: nat, hx: nat, x0: nat, y: nat, hy: nat, y0: nat, n: nat)
    requires n > 0 && x0 < 2 && y0 < 2 && x == x0 + 2 * hx && y == y0 + 2 * hy
    ensures XorBits(x, y, n) == 2 * XorBits(hx, hy, n - 1) + if x0 == y0 then 0 else 1
  {
    Halves(hx, x0, x);
    Halves(hy, y0, y);
    ParityOfSum(x, hx, x0, y, hy, y0);
  }

  lemma ParityOfSum(x: nat, hx: nat, x0: nat, y: nat, hy: nat, y0: nat)
    requires x0 < 2 && y0 < 2 && x == x0 + 2 * hx && y == y0 + 2 * hy
    ensures (x + y) % 2 == if x0 == y0 then 0 else 1
  {
  }

  lemma {:induction false} XorValue(x: Bits, y: Bits, z: Bits)
    requires |x| == |y| == |z| && forall i :: 0 <= i < |x| ==> z[i] == (x[i] != y[i])
    ensures Value(z) == XorBits(Value(x), Value(y), |x|)
    decreases |x|
  {
    if x != [] {
      XorValue(x[1..], y[1..], z[1..]);
      XorStep(Value(x), Value(x[1..]), Digit(x[0]), Value(y), Value(y[1..]), Digit(y[0]), |x|);
    }
  }

  /** Exclusive or of two words sets exactly the bits that are set in one of them. */
  lemma XorNumber(x: Register, y: Register)
    ensures Number(BitwiseXor(x, y)) == Xor(Number(x), Number(y))
  {
    XorValue(x, y, BitwiseXor(x, y));
  }

  lemma OneMoreBit(d: nat, low: nat, p: nat, high: nat)
    ensures d + 2 * (low + p * high) == d + 2 * low + 2 * p * high
  {
  }

  lemma {:induction false} ConcatValue(x: Bits, y: Bits)
    ensures Value(x + y) == Value(x) + Pow2(|x|) * Value(y)
    decreases |x|
  {
    if x == [] {
      assert x + y == y;
    } else {
      assert (x + y)[1..] == x[1..] + y;
      ConcatValue(x[1..], y);
      OneMoreBit(Digit(x[0]), Value(x[1..]), Pow2(|x| - 1), Value(y));
      assert (x + y)[0] == x[0];
    }
  }

  lemma {:induction false} ZerosValue(n: nat)
    ensures Value(Zeros(n)) == 0
  {
    if n > 0 {
      assert Zeros(n)[1..] == Zeros(n - 1);
      ZerosValue(n - 1);
    }
  }

  lemma RightValue(x: Register, places: nat)
    requires places <= 32
    ensures Number(x) == Value(x[..places]) + Pow2(places) * Number(Right(x, places))
    ensures Value(x[..places]) < Pow2(places)
  {
    assert x == x[..places] + x[places..];
    ConcatValue(x[..places], x[places..]);
    ConcatValue(x[places..], Zeros(places));
    ZerosValue(places);
  }

  lemma LeftValue(x: Register, places: nat)
    requires places <= 32
    ensures Number(Left(x, places)) == Pow2(places) * Value(x[..32 - places])
    ensures Number(x) == Value(x[..32 - places]) + Pow2(32 - places) * Value(x[32 - places..])
  {
    assert x == x[..32 - places] + x[32 - places..];
    ConcatValue(x[..32 - places], x[32 - places..]);
    ConcatValue(Zeros(places), x[..32 - places]);
    ZerosValue(places);
  }

  lemma Powers()
    ensures Pow2(3) == 8 && Pow2(5) == 0x20 && Pow2(8) == 0x100 && Pow2(10) == 0x400 && Pow2(12) == 0x1000
    ensures Pow2(13) == 0x2000 && Pow2(15) == 0x8000 && Pow2(16) == 0x1_0000 && Pow2(22) == 0x40_0000 && Pow2(24) == 0x100_0000
  {
    WordBits();
  }

  /** A shift to the right by 13, 12, 5, 3 or 15 places divides. */
  lemma RightNumber(x: Register)
    ensures Number(Right(x, 13)) == Number(x) / 0x2000
    ensures Number(Right(x, 12)) == Number(x) / 0x1000
    ensures Number(Right(x, 5)) == Number(x) / 0x20
    ensures Number(Right(x, 3)) == Number(x) / 8
    ensures Number(Right(x, 15)) == Number(x) / 0x8000
  {
    Powers();
    RightValue(x, 13);
    RightValue(x, 12);
    RightValue(x, 5);
    RightValue(x, 3);
    RightValue(x, 15);
  }

  /** Multiplying loses what moves beyond 32 bits. */
  lemma TopLost(lo8: nat, hi8: nat, lo16: nat, hi16: nat, lo10: nat, hi10: nat)
    requires lo8 < 0x100_0000 && lo16 < 0x1_0000 && lo10 < 0x40_0000
    ensures (lo8 + 0x100_0000 * hi8) * 0x100 % 0x1_0000_0000 == 0x100 * lo8
    ensures (lo16 + 0x1_0000 * hi16) * 0x1_0000 % 0x1_0000_0000 == 0x1_0000 * lo16
    ensures (lo10 + 0x40_0000 * hi10) * 0x400 % 0x1_0000_0000 == 0x400 * lo10
  {
  }

  /** A shift to the left by 8, 16 or 10 places multiplies modulo 2^32. */
  lemma LeftNumber(x: Register)
    ensures Number(Left(x, 8)) == Number(x) * 0x100 % 0x1_0000_0000
    ensures Number(Left(x, 16)) == Number(x) * 0x1_0000 % 0x1_0000_0000
    ensures Number(Left(x, 10)) == Number(x) * 0x400 % 0x1_0000_0000
  {
    Powers();
    LeftValue(x, 8);
    LeftValue(x, 16);
    LeftValue(x, 10);
    TopLost(Value(x[..24]), Value(x[24..]), Value(x[..16]), Value(x[16..]), Value(x[..22]), Value(x[22..]));
  }

  // ---- what the macro is applied to

  lemma Sums(x: Word, y: Word, z: Word)
    ensures Add(x, y) == (x + y) % 0x1_0000_0000
    ensures Add(Add(x, y), z) == (x + y + z) % 0x1_0000_0000
  {
  }

  /** Byte i of the last, incomplete block, or nothing. */
  function ByteAt(k: Key, i: nat): int { if i < |k| then k[i] else 0 }

  /** Four bytes as a number, lowest first. */
  function Four(b0: int, b1: int, b2: int, b3: int): int { b0 + 0x100 * b1 + 0x1_0000 * b2 + 0x100_0000 * b3 }

  /** A full block adds its bytes as three numbers. */
  lemma BlockWords(s: Words, k: Key)
    requires |k| >= 12
    ensures Absorb(s, k).a == (s.a + Four(k[0], k[1], k[2], k[3])) % 0x1_0000_0000
    ensures Absorb(s, k).b == (s.b + Four(k[4], k[5], k[6], k[7])) % 0x1_0000_0000
    ensures Absorb(s, k).c == (s.c + Four(k[8], k[9], k[10], k[11])) % 0x1_0000_0000
  {
    Sums(s.a, WordAt(k, 0), 0);
    Sums(s.b, WordAt(k, 4), 0);
    Sums(s.c, WordAt(k, 8), 0);
  }

  /** The last block adds the bytes it has, those of the third number one place higher, and there
      the length of the whole key. */
  lemma TailWords(s: Words, k: Key, length: nat)
    requires |k| < 12 && length < 0x1_0000
    ensures Finish(s, k, length).a == (s.a + Four(ByteAt(k, 0), ByteAt(k, 1), ByteAt(k, 2), ByteAt(k, 3))) % 0x1_0000_0000
    ensures Finish(s, k, length).b == (s.b + Four(ByteAt(k, 4), ByteAt(k, 5), ByteAt(k, 6), ByteAt(k, 7))) % 0x1_0000_0000
    ensures Finish(s, k, length).c ==
            (s.c + length + Four(0, ByteAt(k, 8), ByteAt(k, 9), ByteAt(k, 10))) % 0x1_0000_0000
  {
    Sums(s.a, Little(TailByte(k, 0), TailByte(k, 1), TailByte(k, 2), TailByte(k, 3)), 0);
    Sums(s.b, Little(TailByte(k, 4), TailByte(k, 5), TailByte(k, 6), TailByte(k, 7)), 0);
    Sums(s.c, length, Little(0, TailByte(k, 8), TailByte(k, 9), TailByte(k, 10)));
  }

  /** Every key starts with twice the golden ratio and the initial value, mixes once for each full
      block, from the front, and once more for what is left, with the length of the whole key. */
  lemma BlockByBlock(block: Key, k: Key, s: Words, initval: Word)
    requires |block| == 12 && |k| < 0x1_0000
    ensures FinalState(k, initval) == Mix(Finish(Blocks(Words(0x9e3779b9, 0x9e3779b9, initval), k), Tail(k), |k|))
    ensures Blocks(s, block + k) == Blocks(Mix(Absorb(s, block)), k) && Tail(block + k) == Tail(k)
    ensures |k| < 12 ==> Blocks(s, k) == s && Tail(k) == k
  {
    assert (block + k)[..12] == block && (block + k)[12..] == k;
  }

  // ---- the macro

  /** The nine lines, each of two subtractions, a shift and an exclusive or. */

  method MixRegisters(a0: Register, b0: Register, c0: Register) returns (a: Register, b: Register, c: Register)
    ensures Words(Number(a), Number(b), Number(c)) == Mix(Words(Number(a0), Number(b0), Number(c0)))
  {
    a, b, c := FirstLines(a0, b0, c0);
    a, b, c := MiddleLines(a, b, c);
    a, b, c := LastLines(a, b, c);
  }

  method FirstLines(a0: Register, b0: Register, c0: Register) returns (a: Register, b: Register, c: Register)
    ensures Words(Number(a), Number(b), Number(c)) == RoundA(Words(Number(a0), Number(b0), Number(c0)))
  {
    a := Minus(a0, b0); a := Minus(a, c0); a := BitwiseXor(a, Right(c0, 13));
    b := Minus(b0, c0); b := Minus(b, a); b := BitwiseXor(b, Left(a, 8));
    c := Minus(c0, a); c := Minus(c, b); c := BitwiseXor(c, Right(b, 13));
    LineNumber(a0, b0, c0, Right(c0, 13));
    LineNumber(b0, c0, a, Left(a, 8));
    LineNumber(c0, a, b, Right(b, 13));
    RightNumber(c0);
    LeftNumber(a);
    RightNumber(b);
  }

  method MiddleLines(a0: Register, b0: Register, c0: Register) returns (a: Register, b: Register, c: Register)
    ensures Words(Number(a), Number(b), Number(c)) == RoundB(Words(Number(a0), Number(b0), Number(c0)))
  {
    a := Minus(a0, b0); a := Minus(a, c0); a := BitwiseXor(a, Right(c0, 12));
    b := Minus(b0, c0); b := Minus(b, a); b := BitwiseXor(b, Left(a, 16));
    c := Minus(c0, a); c := Minus(c, b); c := BitwiseXor(c, Right(b, 5));
    LineNumber(a0, b0, c0, Right(c0, 12));
    LineNumber(b0, c0, a, Left(a, 16));
    LineNumber(c0, a, b, Right(b, 5));
    RightNumber(c0);
    LeftNumber(a);
    RightNumber(b);
  }

  method LastLines(a0: Register, b0: Register, c0: Register) returns (a: Register, b: Register, c: Register)
    ensures Words(Number(a), Number(b), Number(c)) == RoundC(Words(Number(a0), Number(b0), Number(c0)))
  {
    a := Minus(a0, b0); a := Minus(a, c0); a := BitwiseXor(a, Right(c0, 3));
    b := Minus(b0, c0); b := Minus(b, a); b := BitwiseXor(b, Left(a, 10));
    c := Minus(c0, a); c := Minus(c, b); c := BitwiseXor(c, Right(b, 15));
    LineNumber(a0, b0, c0, Right(c0, 3));
    LineNumber(b0, c0, a, Left(a, 10));
    LineNumber(c0, a, b, Right(b, 15));
    RightNumber(c0);
    LeftNumber(a);
    RightNumber(b);
  }

  /** One line: two subtractions and an exclusive or. */
  lemma LineNumber(x: Register, y: Register, z: Register, w: Register)
    ensures Number(BitwiseXor(Minus(Minus(x, y), z), w)) == Turn(Number(x), Number(y), Number(z), Number(w))
  {
    MinusNumber(x, y);
    MinusNumber(Minus(x, y), z);
    XorNumber(Minus(Minus(x, y), z), w);
  }
}
