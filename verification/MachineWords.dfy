/** kernel/aead.c: the integers that stand for words, and the machine's own 32-bit words. */
module MachineWords {
  import opened Numbers
  import opened Words
  import opened Bits
  import opened ChaCha

  function CountUp(n: nat): bv32 {
    if n == 0 then 0 else CountUp(n - 1) + 1
  }

  /** The word a machine comes to by counting up n times from zero. */
  function Counted(n: nat): bv32 {
    CountUp(n)
  }

  function Plus(x: bv32, y: bv32): bv32 {
    x + y
  }

  lemma First()
    ensures Counted(0) == 0 && Counted(1) == 1
  {
  }

  lemma {:induction false} Following(n: nat)
    requires 0 < n
    ensures Counted(n) == Plus(Counted(n - 1), 1)
  {
  }

  lemma {:induction false} Sum(a: nat, b: nat)
    ensures Counted(a + b) == Plus(Counted(a), Counted(b))
  {
    hide Counted, Plus;
    if b == 0 {
      First();
      PlusZero(Counted(a));
      assert a + b == a;
    } else {
      Sum(a, b - 1);
      Following(b);
      Following(a + b);
      assert a + (b - 1) == a + b - 1;
      OneMore(Counted(a), Counted(b - 1));
    }
  }

  lemma PlusZero(x: bv32)
    ensures Plus(x, 0) == x
  {
  }

  lemma OneMore(x: bv32, y: bv32)
    ensures Plus(x, Plus(y, 1)) == Plus(Plus(x, y), 1)
  {
    hide OneOn;
    OneOnNext(x, y);
    assert Plus(y, 1) == y + 1 && Plus(x, y) == x + y;
    OneOnPlus(x, Plus(y, 1), Plus(x, y));
  }

  predicate OneOn(x: bv32, y: bv32, z: bv32) {
    x + y == z + 1
  }

  lemma OneOnNext(x: bv32, y: bv32)
    ensures OneOn(x, y + 1, x + y)
  {
  }

  lemma OneOnPlus(x: bv32, y: bv32, z: bv32)
    requires OneOn(x, y, z)
    ensures Plus(x, y) == Plus(z, 1)
  {
  }

  // ---- Shifts --------------------------------------------------------------

  lemma {:induction false} ShiftOne(n: nat)
    ensures Counted(2 * n) == Counted(n) << 1
  {
    Sum(n, n);
    hide Counted;
  }

  lemma {:induction false} ShiftTwo(n: nat)
    ensures Counted(4 * n) == Counted(n) << 2
  {
    hide Counted;
    ShiftOne(n);
    ShiftOne(2 * n);
  }

  lemma {:induction false} ShiftFour(n: nat)
    ensures Counted(0x10 * n) == Counted(n) << 4
  {
    hide Counted;
    ShiftTwo(n);
    ShiftTwo(4 * n);
  }

  lemma {:induction false} ShiftByte(n: nat)
    ensures Counted(0x100 * n) == Counted(n) << 8
  {
    hide Counted;
    ShiftFour(n);
    ShiftFour(0x10 * n);
  }

  lemma {:induction false} ShiftHalf(n: nat)
    ensures Counted(0x1_0000 * n) == Counted(n) << 16
  {
    hide Counted;
    ShiftByte(n);
    ShiftByte(0x100 * n);
  }

  /** Counting goes round after 2^32. */
  lemma {:induction false} Wraps(n: nat)
    ensures Counted(n % BASE) == Counted(n)
  {
    hide Counted;
    var q, r := n / BASE, n % BASE;
    Sum(BASE * q, r);
    ShiftHalf(q);
    ShiftHalf(0x1_0000 * q);
    assert BASE * q == 0x1_0000 * (0x1_0000 * q);
  }

  // ---- Different numbers below 2^32 are different words -----------------------

  predicate Below(n: nat, w: bv32) {
    Counted(n) <= w && (Counted(n) == 0 ==> n == 0)
  }

  lemma {:induction false} BelowOne(n: nat)
    requires n < 2
    ensures Below(n, 1)
  {
    hide Counted;
    First();
  }

  lemma {:induction false} BelowTwo(n: nat)
    requires n < 4
    ensures Below(n, 3)
  {
    hide Counted;
    var h, l := n / 2, n % 2;
    BelowOne(h);
    BelowOne(l);
    ShiftOne(h);
    Sum(2 * h, l);
  }

  lemma {:induction false} BelowFour(n: nat)
    requires n < 0x10
    ensures Below(n, 0xF)
  {
    hide Counted;
    var h, l := n / 4, n % 4;
    BelowTwo(h);
    BelowTwo(l);
    ShiftTwo(h);
    Sum(4 * h, l);
  }

  lemma {:induction false} BelowByte(n: nat)
    requires n < 0x100
    ensures Below(n, 0xFF)
  {
    hide Counted;
    var h, l := n / 0x10, n % 0x10;
    BelowFour(h);
    BelowFour(l);
    ShiftFour(h);
    Sum(0x10 * h, l);
  }

  lemma {:induction false} BelowHalf(n: nat)
    requires n < 0x1_0000
    ensures Below(n, 0xFFFF)
  {
    hide Counted;
    var h, l := n / 0x100, n % 0x100;
    BelowByte(h);
    BelowByte(l);
    ShiftByte(h);
    Sum(0x100 * h, l);
  }

  lemma {:induction false} OnlyZero(n: Word)
    requires Counted(n) == 0
    ensures n == 0
  {
    hide Counted;
    var h, l := n / 0x1_0000, n % 0x1_0000;
    BelowHalf(h);
    BelowHalf(l);
    ShiftHalf(h);
    Sum(0x1_0000 * h, l);
  }

  /** A word stands for one number below 2^32. */
  lemma {:induction false} OneNumber(a: Word, b: Word)
    requires Counted(a) == Counted(b)
    ensures a == b
  {
    hide Counted;
    var low, more := if a < b then a else b, if a < b then b as int - a as int else a as int - b as int;
    Sum(low, more);
    OnlyZero(more);
  }

  // ---- The three operations of a quarter round --------------------------------

  lemma {:induction false} AddIsMachine(a: Word, b: Word)
    ensures Counted(AddWord(a, b)) == Counted(a) + Counted(b)
  {
    hide Counted;
    Wraps(a as int + b as int);
    Sum(a, b);
  }

  function Mixed(x: bv32, y: bv32): bv32 {
    x ^ y
  }

  predicate Bit(x: bv32) {
    x <= 1
  }

  predicate Joins(x: bv32, high: bv32, low: bv32) {
    x == (high << 1) + low
  }

  lemma XorIsMachine(a: nat, b: nat)
    ensures Counted(Xor(a, b)) == Counted(a) ^ Counted(b)
  {
    hide Counted, Xor;
    XorMixed(a, b);
  }

  lemma {:induction false} XorMixed(a: nat, b: nat)
    ensures Counted(Xor(a, b)) == Mixed(Counted(a), Counted(b))
    decreases a + b
  {
    hide Counted, Mixed, Bit;
    if a == 0 || b == 0 {
      First();
      MixedZero(Counted(if a == 0 then b else a));
    } else {
      XorMixed(a / 2, b / 2);
      HalfStep(a);
      HalfStep(b);
      XorUnfold(a, b);
      XorStep(a, b, a / 2, b / 2, Xor(a / 2, b / 2), a % 2, b % 2, (a + b) % 2);
    }
  }

  lemma MixedZero(x: bv32)
    ensures Mixed(x, 0) == x && Mixed(0, x) == x
  {
  }

  /** Bit by bit: the lowest bits apart from the others. */
  lemma {:induction false} XorStep(a: nat, b: nat, u: nat, v: nat, h: nat, r: nat, s: nat, t: nat)
    requires a == 2 * u + r && b == 2 * v + s
    requires r < 2 && s < 2 && t == if r == s then 0 else 1
    requires Counted(h) == Mixed(Counted(u), Counted(v))
    ensures Counted(2 * h + t) == Mixed(Counted(a), Counted(b))
  {
    hide Counted, Joins, Mixed, Bit;
    LowBits(r, s, t);
    Parts(a, u, r);
    Parts(b, v, s);
    Parts(2 * h + t, h, t);
    JoinsMixed(Counted(a), Counted(b), Counted(u), Counted(v), Counted(r), Counted(s));
    JoinsOnce(Counted(2 * h + t), Mixed(Counted(a), Counted(b)), Counted(h), Counted(t));
  }

  lemma JoinsOnce(x: bv32, y: bv32, high: bv32, low: bv32)
    requires Joins(x, high, low) && Joins(y, high, low)
    ensures x == y
  {
  }

  lemma {:induction false} Parts(n: nat, h: nat, r: nat)
    requires n == 2 * h + r
    ensures Joins(Counted(n), Counted(h), Counted(r))
  {
    hide Counted;
    Sum(2 * h, r);
    ShiftOne(h);
  }

  lemma {:induction false} LowBits(r: nat, s: nat, t: nat)
    requires r < 2 && s < 2 && t == if r == s then 0 else 1
    ensures Bit(Counted(r)) && Bit(Counted(s)) && Counted(t) == Mixed(Counted(r), Counted(s))
  {
    hide Counted;
    First();
  }

  lemma JoinsMixed(a: bv32, b: bv32, u: bv32, v: bv32, r: bv32, s: bv32)
    requires Joins(a, u, r) && Joins(b, v, s) && Bit(r) && Bit(s)
    ensures Joins(Mixed(a, b), Mixed(u, v), Mixed(r, s))
  {
    XorJoined(a, b, u, v, r, s, u ^ v, r ^ s);
  }

  lemma XorJoined(a: bv32, b: bv32, u: bv32, v: bv32, r: bv32, s: bv32, h: bv32, t: bv32)
    requires a == (u << 1) + r && b == (v << 1) + s && r <= 1 && s <= 1 && h == u ^ v && t == r ^ s
    ensures (h << 1) + t == a ^ b
  {
    hide XorFits;
    XorShifted(u, v, r, s);
    XorFitting(a, b, h, t);
  }

  predicate XorFits(a: bv32, b: bv32, h: bv32, t: bv32) {
    (h << 1) + t == a ^ b
  }

  lemma XorShifted(u: bv32, v: bv32, r: bv32, s: bv32)
    requires r <= 1 && s <= 1
    ensures XorFits((u << 1) + r, (v << 1) + s, u ^ v, r ^ s)
  {
  }

  lemma XorFitting(a: bv32, b: bv32, h: bv32, t: bv32)
    requires XorFits(a, b, h, t)
    ensures (h << 1) + t == a ^ b
  {
  }

  // ---- Rotations ---------------------------------------------------------------

  lemma {:induction false} ShiftSeven(n: nat)
    ensures Counted(0x80 * n) == Counted(n) << 7
  {
    hide Counted;
    ShiftFour(n);
    ShiftTwo(0x10 * n);
    ShiftOne(0x40 * n);
  }

  lemma {:induction false} ShiftTwelve(n: nat)
    ensures Counted(0x1000 * n) == Counted(n) << 12
  {
    hide Counted;
    ShiftByte(n);
    ShiftFour(0x100 * n);
  }

  lemma {:induction false} ShiftTwenty(n: nat)
    ensures Counted(0x10_0000 * n) == Counted(n) << 20
  {
    hide Counted;
    ShiftHalf(n);
    ShiftFour(0x1_0000 * n);
  }

  lemma {:induction false} ShiftThreeBytes(n: nat)
    ensures Counted(0x100_0000 * n) == Counted(n) << 24
  {
    hide Counted;
    ShiftHalf(n);
    ShiftByte(0x1_0000 * n);
  }

  lemma {:induction false} ShiftTwentyFive(n: nat)
    ensures Counted(0x200_0000 * n) == Counted(n) << 25
  {
    hide Counted;
    ShiftHalf(n);
    ShiftByte(0x1_0000 * n);
    ShiftOne(0x100_0000 * n);
  }

  lemma {:induction false} BelowThree(n: nat)
    requires n < 0x8
    ensures Below(n, 0x7)
  {
    hide Counted;
    var h, l := n / 0x4, n % 0x4;
    BelowOne(h);
    BelowTwo(l);
    ShiftTwo(h);
    Sum(0x4 * h, l);
  }

  lemma {:induction false} BelowSeven(n: nat)
    requires n < 0x80
    ensures Below(n, 0x7F)
  {
    hide Counted;
    var h, l := n / 0x10, n % 0x10;
    BelowThree(h);
    BelowFour(l);
    ShiftFour(h);
    Sum(0x10 * h, l);
  }

  lemma {:induction false} BelowTwelve(n: nat)
    requires n < 0x1000
    ensures Below(n, 0xFFF)
  {
    hide Counted;
    var h, l := n / 0x100, n % 0x100;
    BelowFour(h);
    BelowByte(l);
    ShiftByte(h);
    Sum(0x100 * h, l);
  }

  lemma {:induction false} BelowTwenty(n: nat)
    requires n < 0x10_0000
    ensures Below(n, 0xF_FFFF)
  {
    hide Counted;
    var h, l := n / 0x1_0000, n % 0x1_0000;
    BelowFour(h);
    BelowHalf(l);
    ShiftHalf(h);
    Sum(0x1_0000 * h, l);
  }

  lemma {:induction false} BelowThreeBytes(n: nat)
    requires n < 0x100_0000
    ensures Below(n, 0xFF_FFFF)
  {
    hide Counted;
    var h, l := n / 0x1_0000, n % 0x1_0000;
    BelowByte(h);
    BelowHalf(l);
    ShiftHalf(h);
    Sum(0x1_0000 * h, l);
  }

  lemma {:induction false} BelowTwentyFive(n: nat)
    requires n < 0x200_0000
    ensures Below(n, 0x1FF_FFFF)
  {
    hide Counted;
    var h, l := n / 0x100_0000, n % 0x100_0000;
    BelowOne(h);
    BelowThreeBytes(l);
    ShiftThreeBytes(h);
    Sum(0x100_0000 * h, l);
  }

  lemma {:induction false} RotateSeven(value: Word)
    ensures Turn(0x80, 0x200_0000)
    ensures Counted(RotateLeft(value, 0x80, 0x200_0000)) == Counted(value).RotateLeft(7)
  {
    hide Counted, Plus, Turned7;
    var low, high := value % 0x200_0000, value / 0x200_0000;
    RotationParts(value, 0x80, 0x200_0000);
    Sum(0x200_0000 * high, low);
    ShiftTwentyFive(high);
    Sum(0x80 * low, high);
    ShiftSeven(low);
    BelowSeven(high);
    BelowTwentyFive(low);
    Turn7(Counted(high), Counted(low));
    Turned7Is(Counted(value), Counted(0x80 * low + high));
  }

  predicate Turned7(x: bv32, y: bv32) {
    x.RotateLeft(7) == y
  }

  lemma Turned7Is(x: bv32, y: bv32)
    requires Turned7(x, y)
    ensures x.RotateLeft(7) == y
  {
  }

  lemma Turn7(high: bv32, low: bv32)
    requires high <= 0x7F && low <= 0x1FF_FFFF
    ensures Turned7(Plus(high << 25, low), Plus(low << 7, high))
  {
  }

  lemma {:induction false} RotateByte(value: Word)
    ensures Turn(0x100, 0x100_0000)
    ensures Counted(RotateLeft(value, 0x100, 0x100_0000)) == Counted(value).RotateLeft(8)
  {
    hide Counted, Plus, Turned8;
    var low, high := value % 0x100_0000, value / 0x100_0000;
    RotationParts(value, 0x100, 0x100_0000);
    Sum(0x100_0000 * high, low);
    ShiftThreeBytes(high);
    Sum(0x100 * low, high);
    ShiftByte(low);
    BelowByte(high);
    BelowThreeBytes(low);
    Turn8(Counted(high), Counted(low));
    Turned8Is(Counted(value), Counted(0x100 * low + high));
  }

  predicate Turned8(x: bv32, y: bv32) {
    x.RotateLeft(8) == y
  }

  lemma Turned8Is(x: bv32, y: bv32)
    requires Turned8(x, y)
    ensures x.RotateLeft(8) == y
  {
  }

  lemma Turn8(high: bv32, low: bv32)
    requires high <= 0xFF && low <= 0xFF_FFFF
    ensures Turned8(Plus(high << 24, low), Plus(low << 8, high))
  {
  }

  lemma {:induction false} RotateTwelve(value: Word)
    ensures Turn(0x1000, 0x10_0000)
    ensures Counted(RotateLeft(value, 0x1000, 0x10_0000)) == Counted(value).RotateLeft(12)
  {
    hide Counted, Plus, Turned12;
    var low, high := value % 0x10_0000, value / 0x10_0000;
    RotationParts(value, 0x1000, 0x10_0000);
    Sum(0x10_0000 * high, low);
    ShiftTwenty(high);
    Sum(0x1000 * low, high);
    ShiftTwelve(low);
    BelowTwelve(high);
    BelowTwenty(low);
    Turn12(Counted(high), Counted(low));
    Turned12Is(Counted(value), Counted(0x1000 * low + high));
  }

  predicate Turned12(x: bv32, y: bv32) {
    x.RotateLeft(12) == y
  }

  lemma Turned12Is(x: bv32, y: bv32)
    requires Turned12(x, y)
    ensures x.RotateLeft(12) == y
  {
  }

  lemma Turn12(high: bv32, low: bv32)
    requires high <= 0xFFF && low <= 0xF_FFFF
    ensures Turned12(Plus(high << 20, low), Plus(low << 12, high))
  {
  }

  lemma {:induction false} RotateHalf(value: Word)
    ensures Turn(0x1_0000, 0x1_0000)
    ensures Counted(RotateLeft(value, 0x1_0000, 0x1_0000)) == Counted(value).RotateLeft(16)
  {
    hide Counted, Plus, Turned16;
    var low, high := value % 0x1_0000, value / 0x1_0000;
    RotationParts(value, 0x1_0000, 0x1_0000);
    Sum(0x1_0000 * high, low);
    ShiftHalf(high);
    Sum(0x1_0000 * low, high);
    ShiftHalf(low);
    BelowHalf(high);
    BelowHalf(low);
    Turn16(Counted(high), Counted(low));
    Turned16Is(Counted(value), Counted(0x1_0000 * low + high));
  }

  predicate Turned16(x: bv32, y: bv32) {
    x.RotateLeft(16) == y
  }

  lemma Turned16Is(x: bv32, y: bv32)
    requires Turned16(x, y)
    ensures x.RotateLeft(16) == y
  {
  }

  lemma Turn16(high: bv32, low: bv32)
    requires high <= 0xFFFF && low <= 0xFFFF
    ensures Turned16(Plus(high << 16, low), Plus(low << 16, high))
  {
  }

  function MachineRotate(w: bv32, r: Rotation): bv32 {
    match r
    case By7 => w.RotateLeft(7)
    case By8 => w.RotateLeft(8)
    case By12 => w.RotateLeft(12)
    case By16 => w.RotateLeft(16)
  }

  lemma RotateIsMachine(value: Word, r: Rotation)
    ensures Counted(Rotate(value, r)) == MachineRotate(Counted(value), r)
  {
    hide Counted, RotateLeft;
    match r
    case By7 => RotateSeven(value);
    case By8 => RotateByte(value);
    case By12 => RotateTwelve(value);
    case By16 => RotateHalf(value);
  }

  // ---- From words back to numbers -------------------------------------------------

  function Digit(x: bv32): (n: nat)
    ensures n < 0x10
  {
    if x == 0 then 0 else if x == 1 then 1 else if x == 2 then 2 else if x == 3 then 3 else if x == 4 then 4
    else if x == 5 then 5 else if x == 6 then 6 else if x == 7 then 7 else if x == 8 then 8 else if x == 9 then 9
    else if x == 10 then 10 else if x == 11 then 11 else if x == 12 then 12 else if x == 13 then 13
    else if x == 14 then 14 else 15
  }

  lemma DigitTable()
    ensures Digit(0) == 0 && Digit(1) == 1 && Digit(2) == 2 && Digit(3) == 3 && Digit(4) == 4 && Digit(5) == 5 &&
            Digit(6) == 6 && Digit(7) == 7 && Digit(8) == 8 && Digit(9) == 9 && Digit(10) == 10 && Digit(11) == 11 &&
            Digit(12) == 12 && Digit(13) == 13 && Digit(14) == 14 && Digit(15) == 15
  {
  }

  /** The number that four hexadecimal digits of a word stand for, from bit `at` on. */
  function Digits(w: bv32): (n: nat)
    ensures n < 0x1_0000
  {
    0x1000 * Digit((w >> 12) & 0xF) + 0x100 * Digit((w >> 8) & 0xF) + 0x10 * Digit((w >> 4) & 0xF) + Digit(w & 0xF)
  }

  /** The number a word is written as. */
  function NumberOf(w: bv32): Word {
    0x1_0000 * Digits(w >> 16) + Digits(w & 0xFFFF)
  }

  lemma FirstDigits()
    ensures Counted(2) == 2 && Counted(3) == 3 && Counted(4) == 4 && Counted(5) == 5 && Counted(6) == 6 &&
            Counted(7) == 7 && Counted(8) == 8 && Counted(9) == 9
  {
    hide Counted;
    First();
    Following(2);
    Following(3);
    Following(4);
    Following(5);
    Following(6);
    Following(7);
    Following(8);
    Following(9);
  }

  lemma LastDigits()
    ensures Counted(10) == 10 && Counted(11) == 11 && Counted(12) == 12 && Counted(13) == 13 && Counted(14) == 14 &&
            Counted(15) == 15
  {
    hide Counted;
    FirstDigits();
    Following(10);
    Following(11);
    Following(12);
    Following(13);
    Following(14);
    Following(15);
  }

  lemma DigitCounted(x: bv32)
    requires x <= 0xF
    ensures Counted(Digit(x)) == x
  {
    hide Counted;
    First();
    FirstDigits();
    LastDigits();
  }

  lemma FourDigits(w: bv32)
    ensures (((((w >> 12) & 0xF) << 12) + (((w >> 8) & 0xF) << 8)) + (((w >> 4) & 0xF) << 4)) + (w & 0xF) == w & 0xFFFF
  {
  }

  lemma DigitsCounted(w: bv32)
    ensures Counted(Digits(w)) == w & 0xFFFF
  {
    hide Counted, Digit;
    var a, b, c, d := Digit((w >> 12) & 0xF), Digit((w >> 8) & 0xF), Digit((w >> 4) & 0xF), Digit(w & 0xF);
    DigitCounted((w >> 12) & 0xF);
    DigitCounted((w >> 8) & 0xF);
    DigitCounted((w >> 4) & 0xF);
    DigitCounted(w & 0xF);
    ShiftTwelve(a);
    ShiftByte(b);
    ShiftFour(c);
    Sum(0x1000 * a, 0x100 * b);
    Sum(0x1000 * a + 0x100 * b, 0x10 * c);
    Sum(0x1000 * a + 0x100 * b + 0x10 * c, d);
    FourDigits(w);
  }

  /** Every word is that of a number, and of one only (OneNumber). */
  lemma NumberCounted(w: bv32)
    ensures Counted(NumberOf(w)) == w
  {
    hide Counted, Digits;
    DigitsCounted(w >> 16);
    DigitsCounted(w & 0xFFFF);
    ShiftHalf(Digits(w >> 16));
    Sum(0x1_0000 * Digits(w >> 16), Digits(w & 0xFFFF));
  }
}
