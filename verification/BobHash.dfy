/** Bob Jenkins' hash as used by the packet generator: three 32-bit words absorb the key in
    blocks of 12 bytes and are mixed reversibly after every block. */
module BobHash {
  import opened Basics

  const MODULUS: nat := 0x1_0000_0000

  type Word = w: int | 0 <= w < 0x1_0000_0000

  // ---- unsigned 32-bit operations

  function Add(x: Word, y: Word): Word { if x + y < MODULUS then x + y else x + y - MODULUS }

  function Sub(x: Word, y: Word): Word { if x >= y then x - y else x - y + MODULUS }

  function Pow2(n: nat): nat { if n == 0 then 1 else 2 * Pow2(n - 1) }

  /** Exclusive or of the lowest n bits. */
  function XorBits(x: nat, y: nat, n: nat): (r: nat)
    ensures r < Pow2(n)
  {
    if n == 0 then 0 else 2 * XorBits(x / 2, y / 2, n - 1) + (x + y) % 2
  }

  lemma WordBits()
    ensures Pow2(32) == 0x1_0000_0000
  {
    assert Pow2(8) == 0x100;
    assert Pow2(16) == 0x1_0000;
    assert Pow2(24) == 0x100_0000;
  }

  function Xor(x: Word, y: Word): Word {
    WordBits();
    XorBits(x, y, 32)
  }

  lemma {:induction false} XorTwice(x: nat, y: nat, n: nat)
    requires x < Pow2(n)
    ensures XorBits(XorBits(x, y, n), y, n) == x
  {
    if n > 0 {
      var once := XorBits(x, y, n);
      XorTwice(x / 2, y / 2, n - 1);
      Halves(XorBits(x / 2, y / 2, n - 1), (x + y) % 2, once);
      Parity(x, y, once);
    }
  }

  lemma Halves(half: nat, bit: nat, x: nat)
    requires bit < 2 && x == 2 * half + bit
    ensures x / 2 == half && x % 2 == bit
  {
  }

  lemma Parity(x: nat, y: nat, once: nat)
    requires once % 2 == (x + y) % 2
    ensures (once + y) % 2 == x % 2
  {
  }

  // ---- mixing

  datatype Words = Words(a: Word, b: Word, c: Word)

  /** x -= y; x -= z; x ^= w */
  function Turn(x: Word, y: Word, z: Word, w: Word): Word { Xor(Sub(Sub(x, y), z), w) }

  function TurnBack(x: Word, y: Word, z: Word, w: Word): Word { Add(Add(Xor(x, w), z), y) }

  lemma TurnInverse(x: Word, y: Word, z: Word, w: Word)
    ensures TurnBack(Turn(x, y, z, w), y, z, w) == x
    ensures Turn(TurnBack(x, y, z, w), y, z, w) == x
  {
    XorInverse(Sub(Sub(x, y), z), w);
    XorInverse(x, w);
  }

  lemma XorInverse(x: Word, w: Word)
    ensures Xor(Xor(x, w), w) == x
  {
    WordBits();
    XorTwice(x, w, 32);
  }

  /** One of the three rounds: each word in turn is combined with the other two. The last
      argument of Turn is a word shifted by 13, 8 and 13 places. */
  function RoundA(s: Words): Words {
    var a := Turn(s.a, s.b, s.c, s.c / 0x2000);
    var b := Turn(s.b, s.c, a, a * 0x100 % 0x1_0000_0000);
    Words(a, b, Turn(s.c, a, b, b / 0x2000))
  }

  /** The same with shifts by 12, 16 and 5 places. */
  function RoundB(s: Words): Words {
    var a := Turn(s.a, s.b, s.c, s.c / 0x1000);
    var b := Turn(s.b, s.c, a, a * 0x1_0000 % 0x1_0000_0000);
    Words(a, b, Turn(s.c, a, b, b / 0x20))
  }

  /** The same with shifts by 3, 10 and 15 places. */
  function RoundC(s: Words): Words {
    var a := Turn(s.a, s.b, s.c, s.c / 8);
    var b := Turn(s.b, s.c, a, a * 0x400 % 0x1_0000_0000);
    Words(a, b, Turn(s.c, a, b, b / 0x8000))
  }

  function Mix(s: Words): Words { RoundC(RoundB(RoundA(s))) }

  function BackA(s: Words): Words {
    var c := TurnBack(s.c, s.a, s.b, s.b / 0x2000);
    var b := TurnBack(s.b, c, s.a, s.a * 0x100 % 0x1_0000_0000);
    Words(TurnBack(s.a, b, c, c / 0x2000), b, c)
  }

  function BackB(s: Words): Words {
    var c := TurnBack(s.c, s.a, s.b, s.b / 0x20);
    var b := TurnBack(s.b, c, s.a, s.a * 0x1_0000 % 0x1_0000_0000);
    Words(TurnBack(s.a, b, c, c / 0x1000), b, c)
  }

  function BackC(s: Words): Words {
    var c := TurnBack(s.c, s.a, s.b, s.b / 0x8000);
    var b := TurnBack(s.b, c, s.a, s.a * 0x400 % 0x1_0000_0000);
    Words(TurnBack(s.a, b, c, c / 8), b, c)
  }

  function Unmix(s: Words): Words { BackA(BackB(BackC(s))) }

  lemma RoundAInverse(s: Words)
    ensures BackA(RoundA(s)) == s && RoundA(BackA(s)) == s
  {
    var t, u := RoundA(s), BackA(s);
    TurnInverse(s.c, t.a, t.b, t.b / 0x2000);
    TurnInverse(s.b, s.c, t.a, t.a * 0x100 % 0x1_0000_0000);
    TurnInverse(s.a, s.b, s.c, s.c / 0x2000);
    TurnInverse(s.c, s.a, s.b, s.b / 0x2000);
    TurnInverse(s.b, u.c, s.a, s.a * 0x100 % 0x1_0000_0000);
    TurnInverse(s.a, u.b, u.c, u.c / 0x2000);
  }

  lemma RoundBInverse(s: Words)
    ensures BackB(RoundB(s)) == s && RoundB(BackB(s)) == s
  {
    var t, u := RoundB(s), BackB(s);
    TurnInverse(s.c, t.a, t.b, t.b / 0x20);
    TurnInverse(s.b, s.c, t.a, t.a * 0x1_0000 % 0x1_0000_0000);
    TurnInverse(s.a, s.b, s.c, s.c / 0x1000);
    TurnInverse(s.c, s.a, s.b, s.b / 0x20);
    TurnInverse(s.b, u.c, s.a, s.a * 0x1_0000 % 0x1_0000_0000);
    TurnInverse(s.a, u.b, u.c, u.c / 0x1000);
  }

  lemma RoundCInverse(s: Words)
    ensures BackC(RoundC(s)) == s && RoundC(BackC(s)) == s
  {
    var t, u := RoundC(s), BackC(s);
    TurnInverse(s.c, t.a, t.b, t.b / 0x8000);
    TurnInverse(s.b, s.c, t.a, t.a * 0x400 % 0x1_0000_0000);
    TurnInverse(s.a, s.b, s.c, s.c / 8);
    TurnInverse(s.c, s.a, s.b, s.b / 0x8000);
    TurnInverse(s.b, u.c, s.a, s.a * 0x400 % 0x1_0000_0000);
    TurnInverse(s.a, u.b, u.c, u.c / 8);
  }

  /** Mixing is a bijection on triples of 32-bit words. */
  lemma MixIsBijective(s: Words)
    ensures Unmix(Mix(s)) == s && Mix(Unmix(s)) == s
  {
    RoundAInverse(s);
    RoundBInverse(RoundA(s));
    RoundCInverse(RoundB(RoundA(s)));
    RoundCInverse(s);
    RoundBInverse(BackC(s));
    RoundAInverse(BackB(BackC(s)));
  }

  // ---- hashing

  type Key = seq<Byte>

  /** Four bytes, least significant first. */
  function Little(k0: Byte, k1: Byte, k2: Byte, k3: Byte): Word {
    k0 + 0x100 * (k1 + 0x100 * (k2 + 0x100 * k3))
  }

  function WordAt(k: Key, i: nat): Word
    requires i + 4 <= |k|
  {
    Little(k[i], k[i + 1], k[i + 2], k[i + 3])
  }

  /** Adds the first 12 bytes of the key. */
  function Absorb(s: Words, k: Key): Words
    requires |k| >= 12
  {
    Words(Add(s.a, WordAt(k, 0)), Add(s.b, WordAt(k, 4)), Add(s.c, WordAt(k, 8)))
  }

  /** A state after the full blocks of a key, for any way to handle one block. */
  function Fold(next: (Words, Key) -> Words, s: Words, k: Key): Words
    decreases |k|
  {
    if |k| < 12 then s else Fold(next, next(s, k[..12]), k[12..])
  }

  function NextBlock(s: Words, block: Key): Words {
    if |block| < 12 then s else Mix(Absorb(s, block))
  }

  function Blocks(s: Words, k: Key): Words { Fold(NextBlock, s, k) }

  function Tail(k: Key): (tail: Key)
    ensures |tail| == |k| % 12
    decreases |k|
  {
    if |k| < 12 then k else Tail(k[12..])
  }

  function TailByte(tail: Key, i: nat): Byte { if i < |tail| then tail[i] else 0 }

  /** Adds the length and the last bytes; the lowest byte of c is reserved for the length. */
  function Finish(s: Words, tail: Key, length: nat): Words
    requires length < 0x1_0000
  {
    Words(
      Add(s.a, Little(TailByte(tail, 0), TailByte(tail, 1), TailByte(tail, 2), TailByte(tail, 3))),
      Add(s.b, Little(TailByte(tail, 4), TailByte(tail, 5), TailByte(tail, 6), TailByte(tail, 7))),
      Add(Add(s.c, length), Little(0, TailByte(tail, 8), TailByte(tail, 9), TailByte(tail, 10))))
  }

  function FinalState(k: Key, initval: Word): Words
    requires |k| < 0x1_0000
  {
    Mix(Finish(Blocks(Words(GOLDEN_RATIO, GOLDEN_RATIO, initval), k), Tail(k), |k|))
  }

  const GOLDEN_RATIO: Word := 0x9e3779b9

  /** Adding the next twelve bytes as three words and mixing. */
  method HandleBlock(s: Words, rest: Key) returns (r: Words)
    requires |rest| >= 12
    ensures r == NextBlock(s, rest[..12])
  {
    var a, b, c := Add(s.a, WordAt(rest, 0)), Add(s.b, WordAt(rest, 4)), Add(s.c, WordAt(rest, 8));
    assert Absorb(s, rest[..12]) == Words(a, b, c);
    r := Mix(Words(a, b, c));
  }

  /** The hash of a key whose length fits 16 bits. */
  method Hash(k: Key, initval: Word) returns (h: Word)
    requires |k| < 0x1_0000
    ensures h == FinalState(k, initval).c
  {
    var s := Words(GOLDEN_RATIO, GOLDEN_RATIO, initval);
    var rest := k;
    while |rest| >= 12
      invariant Blocks(s, rest) == Blocks(Words(GOLDEN_RATIO, GOLDEN_RATIO, initval), k)
      invariant Tail(rest) == Tail(k)
      decreases |rest|
    {
      s := HandleBlock(s, rest);
      rest := rest[12..];
    }
    var last := AddLastBytes(s, rest, |k|);
    h := Mix(last).c;
  }

  /** The fall-through over the last bytes: each number of bytes also handles the fewer. */
  method AddLastBytes(s: Words, rest: Key, length: nat) returns (r: Words)
    requires length < 0x1_0000 && |rest| < 12
    ensures r == Finish(s, rest, length)
  {
    var c := Add(s.c, length);
    var len := |rest|;
    if len >= 11 { c := Add(c, (rest[10] as int) * 0x100_0000); }
    if len >= 10 { c := Add(c, (rest[9] as int) * 0x1_0000); }
    if len >= 9 { c := Add(c, (rest[8] as int) * 0x100); }
    AddTop(Add(s.c, length), rest);
    var b := AddFourBytes(s.b, rest, 4);
    var a := AddFourBytes(s.a, rest, 0);
    r := Words(a, b, c);
  }

  method AddFourBytes(x: Word, rest: Key, i: nat) returns (r: Word)
    ensures r == Add(x, Little(TailByte(rest, i), TailByte(rest, i + 1), TailByte(rest, i + 2), TailByte(rest, i + 3)))
  {
    r := x;
    var len := |rest|;
    if len >= i + 4 { r := Add(r, (rest[i + 3] as int) * 0x100_0000); }
    if len >= i + 3 { r := Add(r, (rest[i + 2] as int) * 0x1_0000); }
    if len >= i + 2 { r := Add(r, (rest[i + 1] as int) * 0x100); }
    if len >= i + 1 { r := Add(r, rest[i]); }
    AddTail(x, rest, i);
  }

  function AddIf(x: Word, present: bool, y: Word): Word { if present then Add(x, y) else x }

  /** Adding the bytes one at a time, highest first, adds the word they form. */
  lemma AddTail(x: Word, tail: Key, i: nat)
    ensures var n := |tail|;
            AddIf(AddIf(AddIf(AddIf(x, i + 4 <= n, TailByte(tail, i + 3) * 0x100_0000),
                              i + 3 <= n, TailByte(tail, i + 2) * 0x1_0000),
                        i + 2 <= n, TailByte(tail, i + 1) * 0x100),
                  i + 1 <= n, TailByte(tail, i))
            == Add(x, Little(TailByte(tail, i), TailByte(tail, i + 1), TailByte(tail, i + 2), TailByte(tail, i + 3)))
  {
    AddBytes(x, TailByte(tail, i), TailByte(tail, i + 1), TailByte(tail, i + 2), TailByte(tail, i + 3));
  }

  lemma AddBytes(x: Word, k0: Byte, k1: Byte, k2: Byte, k3: Byte)
    ensures Add(Add(Add(Add(x, k3 * 0x100_0000), k2 * 0x1_0000), k1 * 0x100), k0) == Add(x, Little(k0, k1, k2, k3))
  {
  }

  lemma AddTop(x: Word, tail: Key)
    ensures var n := |tail|;
            AddIf(AddIf(AddIf(x, 11 <= n, TailByte(tail, 10) * 0x100_0000), 10 <= n, TailByte(tail, 9) * 0x1_0000),
                  9 <= n, TailByte(tail, 8) * 0x100)
            == Add(x, Little(0, TailByte(tail, 8), TailByte(tail, 9), TailByte(tail, 10)))
  {
    AddBytes(x, 0, TailByte(tail, 8), TailByte(tail, 9), TailByte(tail, 10));
  }

  // ---- no block can be exchanged unnoticed

  lemma LittleIsInjective(k0: Byte, k1: Byte, k2: Byte, k3: Byte, l0: Byte, l1: Byte, l2: Byte, l3: Byte)
    requires Little(k0, k1, k2, k3) == Little(l0, l1, l2, l3)
    ensures k0 == l0 && k1 == l1 && k2 == l2 && k3 == l3
  {
    var d0, d1, d2, d3 := k0 - l0, k1 - l1, k2 - l2, k3 - l3;
    NoCarry(d0, d1 + 0x100 * d2 + 0x1_0000 * d3);
    NoCarry(d1, d2 + 0x100 * d3);
    NoCarry(d2, d3);
  }

  lemma NoCarry(d: int, m: int)
    requires -0x100 < d < 0x100 && d + 0x100 * m == 0
    ensures d == 0 && m == 0
  {
  }

  lemma AddIsInjective(x: Word, y: Word, z: Word)
    requires Add(x, y) == Add(x, z)
    ensures y == z
  {
  }

  lemma MixIsInjective(s: Words, t: Words)
    ensures Mix(s) == Mix(t) ==> s == t
  {
    MixIsBijective(s);
    MixIsBijective(t);
  }

  lemma WordAtIsInjective(k: Key, l: Key, i: nat, x: Word)
    requires i + 4 <= |k| && i + 4 <= |l| && Add(x, WordAt(k, i)) == Add(x, WordAt(l, i))
    ensures k[i..i + 4] == l[i..i + 4]
  {
    AddIsInjective(x, WordAt(k, i), WordAt(l, i));
    LittleIsInjective(k[i], k[i + 1], k[i + 2], k[i + 3], l[i], l[i + 1], l[i + 2], l[i + 3]);
  }

  lemma AbsorbIsInjective(s: Words, k: Key, l: Key)
    requires |k| >= 12 && |l| >= 12 && Absorb(s, k) == Absorb(s, l)
    ensures k[..12] == l[..12]
  {
    WordAtIsInjective(k, l, 0, s.a);
    WordAtIsInjective(k, l, 4, s.b);
    WordAtIsInjective(k, l, 8, s.c);
    assert k[..12] == k[0..4] + k[4..8] + k[8..12];
    assert l[..12] == l[0..4] + l[4..8] + l[8..12];
  }

  lemma {:induction false} FoldIsInjective(next: (Words, Key) -> Words, s: Words, t: Words, k: Key)
    requires forall u, v, b :: |b| == 12 && next(u, b) == next(v, b) ==> u == v
    requires Fold(next, s, k) == Fold(next, t, k)
    ensures s == t
    decreases |k|
  {
    if |k| >= 12 {
      FoldIsInjective(next, next(s, k[..12]), next(t, k[..12]), k[12..]);
    }
  }

  lemma NextBlockIsInjective(s: Words, t: Words, block: Key)
    requires |block| == 12
    ensures NextBlock(s, block) == NextBlock(t, block) ==> s == t
  {
    MixIsInjective(Absorb(s, block), Absorb(t, block));
  }

  /** For a fixed key, different states before it lead to different states after it. */
  lemma BlocksAreInjective(s: Words, t: Words, k: Key)
    requires Blocks(s, k) == Blocks(t, k)
    ensures s == t
  {
    forall u, v, b | |b| == 12 && NextBlock(u, b) == NextBlock(v, b) ensures u == v {
      NextBlockIsInjective(u, v, b);
    }
    FoldIsInjective(NextBlock, s, t, k);
  }

  lemma FinishIsInjective(s: Words, t: Words, tail: Key, length: nat)
    requires length < 0x1_0000 && Finish(s, tail, length) == Finish(t, tail, length)
    ensures s == t
  {
  }

  lemma {:induction false} TailOfConcat(front: Key, back: Key)
    requires |front| % 12 == 0
    ensures Tail(front + back) == Tail(back)
    decreases |front|
  {
    if front == [] {
      assert front + back == back;
    } else {
      assert (front + back)[12..] == front[12..] + back;
      TailOfConcat(front[12..], back);
    }
  }

  lemma {:induction false} FoldOfConcat(next: (Words, Key) -> Words, s: Words, front: Key, back: Key)
    requires |front| % 12 == 0
    ensures Fold(next, s, front + back) == Fold(next, Fold(next, s, front), back)
    decreases |front|
  {
    if front == [] {
      assert front + back == back;
    } else {
      assert (front + back)[..12] == front[..12] && (front + back)[12..] == front[12..] + back;
      FoldOfConcat(next, next(s, front[..12]), front[12..], back);
    }
  }

  lemma BlocksOfConcat(s: Words, front: Key, back: Key)
    requires |front| % 12 == 0
    ensures Blocks(s, front + back) == Blocks(Blocks(s, front), back)
  {
    FoldOfConcat(NextBlock, s, front, back);
  }

  /** Keys of the same length that differ in exactly one aligned block of 12 bytes end in
      different states. */
  lemma OneBlockMatters(front: Key, x: Key, y: Key, back: Key, initval: Word)
    requires |front| % 12 == 0 && |x| == |y| == 12 && x != y && |front| + 12 + |back| < 0x1_0000
    ensures FinalState(front + x + back, initval) != FinalState(front + y + back, initval)
  {
    var start := Words(GOLDEN_RATIO, GOLDEN_RATIO, initval);
    var s := Blocks(start, front);
    assert front + x + back == front + (x + back) && front + y + back == front + (y + back);
    BlocksOfConcat(start, front, x + back);
    BlocksOfConcat(start, front, y + back);
    BlocksOfConcat(s, x, back);
    BlocksOfConcat(s, y, back);
    TailOfConcat(front, x + back);
    TailOfConcat(front, y + back);
    TailOfConcat(x, back);
    TailOfConcat(y, back);
    if FinalState(front + x + back, initval) == FinalState(front + y + back, initval) {
      var u, v := Blocks(Blocks(s, x), back), Blocks(Blocks(s, y), back);
      MixIsInjective(Finish(u, Tail(back), |front + x + back|), Finish(v, Tail(back), |front + x + back|));
      FinishIsInjective(u, v, Tail(back), |front + x + back|);
      BlocksAreInjective(Blocks(s, x), Blocks(s, y), back);
      OneBlock(s, x, y);
    }
  }

  lemma FoldOfOne(next: (Words, Key) -> Words, s: Words, block: Key)
    requires |block| == 12
    ensures Fold(next, s, block) == next(s, block)
  {
    assert block[..12] == block && block[12..] == [];
  }

  lemma BlockMatters(s: Words, x: Key, y: Key)
    requires |x| == |y| == 12
    ensures NextBlock(s, x) == NextBlock(s, y) ==> x == y
  {
    MixIsInjective(Absorb(s, x), Absorb(s, y));
    if Absorb(s, x) == Absorb(s, y) {
      AbsorbIsInjective(s, x, y);
      assert x[..12] == x && y[..12] == y;
    }
  }

  lemma OneBlock(s: Words, x: Key, y: Key)
    requires |x| == |y| == 12
    ensures Blocks(s, x) == Blocks(s, y) ==> x == y
  {
    FoldOfOne(NextBlock, s, x);
    FoldOfOne(NextBlock, s, y);
    BlockMatters(s, x, y);
  }

  /** Keys of the same length that differ only after their last full block, too. */
  lemma TailMatters(front: Key, x: Key, y: Key, initval: Word)
    requires |front| % 12 == 0 && |x| == |y| < 12 && x != y && |front| + |x| < 0x1_0000
    ensures FinalState(front + x, initval) != FinalState(front + y, initval)
  {
    var start := Words(GOLDEN_RATIO, GOLDEN_RATIO, initval);
    BlocksOfConcat(start, front, x);
    BlocksOfConcat(start, front, y);
    TailOfConcat(front, x);
    TailOfConcat(front, y);
    if FinalState(front + x, initval) == FinalState(front + y, initval) {
      var s := Blocks(start, front);
      MixIsInjective(Finish(s, x, |front + x|), Finish(s, y, |front + x|));
      TailIsInjective(s, x, y, |front + x|);
    }
  }

  lemma TailIsInjective(s: Words, x: Key, y: Key, length: nat)
    requires |x| == |y| < 12 && length < 0x1_0000 && Finish(s, x, length) == Finish(s, y, length)
    ensures x == y
  {
    TailWord(x, y, 0, s.a);
    TailWord(x, y, 4, s.b);
    AddIsInjective(Add(s.c, length), Little(0, TailByte(x, 8), TailByte(x, 9), TailByte(x, 10)),
                   Little(0, TailByte(y, 8), TailByte(y, 9), TailByte(y, 10)));
    LittleIsInjective(0, TailByte(x, 8), TailByte(x, 9), TailByte(x, 10), 0, TailByte(y, 8), TailByte(y, 9), TailByte(y, 10));
    forall i | 0 <= i < |x| ensures x[i] == y[i] {
      assert TailByte(x, i) == x[i] && TailByte(y, i) == y[i];
    }
  }

  lemma TailWord(x: Key, y: Key, i: nat, w: Word)
    requires Add(w, Little(TailByte(x, i), TailByte(x, i + 1), TailByte(x, i + 2), TailByte(x, i + 3)))
             == Add(w, Little(TailByte(y, i), TailByte(y, i + 1), TailByte(y, i + 2), TailByte(y, i + 3)))
    ensures forall j :: i <= j < i + 4 ==> TailByte(x, j) == TailByte(y, j)
  {
    AddIsInjective(w, Little(TailByte(x, i), TailByte(x, i + 1), TailByte(x, i + 2), TailByte(x, i + 3)),
                   Little(TailByte(y, i), TailByte(y, i + 1), TailByte(y, i + 2), TailByte(y, i + 3)));
    LittleIsInjective(TailByte(x, i), TailByte(x, i + 1), TailByte(x, i + 2), TailByte(x, i + 3),
                      TailByte(y, i), TailByte(y, i + 1), TailByte(y, i + 2), TailByte(y, i + 3));
  }

  /** Chaining: for one key, different initial values end in different states. */
  lemma InitvalMatters(k: Key, v: Word, w: Word)
    requires |k| < 0x1_0000 && v != w
    ensures FinalState(k, v) != FinalState(k, w)
  {
    var s, t := Words(GOLDEN_RATIO, GOLDEN_RATIO, v), Words(GOLDEN_RATIO, GOLDEN_RATIO, w);
    if FinalState(k, v) == FinalState(k, w) {
      MixIsInjective(Finish(Blocks(s, k), Tail(k), |k|), Finish(Blocks(t, k), Tail(k), |k|));
      FinishIsInjective(Blocks(s, k), Blocks(t, k), Tail(k), |k|);
      BlocksAreInjective(s, t, k);
    }
  }
}
