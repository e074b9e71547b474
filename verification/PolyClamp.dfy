/** kernel/aead.c: clamping the point a message is evaluated at, section 2.5 of RFC 8439. */
module PolyClamp {
  import opened Numbers
  import opened Words
  import opened Bits
  import opened LittleEndian
  import opened PolyLimbs

  const CLAMP := 0x0fff_fffc_0fff_fffc_0fff_fffc_0fff_ffff

  /** The limbs of r: shifted pieces of the four key words, each masked. */
  function ClampWords(t0: Word, t1: Word, t2: Word, t3: Word): Limbs5 {
    Limbs5(
      And(t0, 0x3ffffff),
      And(Or(t0 / 0x400_0000, (t1 as int * 0x40) % BASE), 0x3ffff03),
      And(Or(t1 / 0x10_0000, (t2 as int * 0x1000) % BASE), 0x3ffc0ff),
      And(Or(t2 / 0x4000, (t3 as int * 0x4_0000) % BASE), 0x3f03fff),
      And(t3 / 0x100, 0x00fffff))
  }

  function R(key: seq<Byte>): Limbs5
    requires |key| == 32
  {
    ClampWords(Read32(key, 0), Read32(key, 4), Read32(key, 8), Read32(key, 12))
  }

  lemma Powers()
    ensures Pow(2, 2) == 4 && Pow(2, 6) == 0x40 && Pow(2, 8) == 0x100 && Pow(2, 12) == 0x1000 && Pow(2, 14) == 0x4000
    ensures Pow(2, 18) == 0x4_0000 && Pow(2, 20) == 0x10_0000 && Pow(2, 26) == X && Pow(2, 28) == 0x1000_0000
    ensures Pow(2, 32) == BASE
  {
    assert Pow(2, 2) == 4;
    PowAdd(2, 2, 4);
    PowAdd(2, 4, 4);
    PowAdd(2, 6, 6);
    PowAdd(2, 8, 6);
    PowAdd(2, 12, 6);
    PowAdd(2, 14, 6);
    PowAdd(2, 20, 6);
    PowAdd(2, 20, 8);
    PowAdd(2, 20, 12);
  }

  /** A mask that keeps `keep` low bits, drops some, and keeps `more` bits from bit k up. */
  lemma TwoWindows(y: nat, low: nat, high: nat, keep: nat, k: nat, more: nat, mask: nat)
    requires low < Pow(2, k) && y == low + Pow(2, k) * high && keep <= k
    requires mask == (Pow(2, keep) - 1) + Pow(2, k) * (Pow(2, more) - 1)
    ensures 0 < Pow(2, keep) && 0 < Pow(2, more)
    ensures And(y, mask) == low % Pow(2, keep) + Pow(2, k) * (high % Pow(2, more))
  {
    PowPositive(2, keep);
    PowPositive(2, more);
    PowMono(2, keep, k);
    AndSplit(y, mask, low, high, Pow(2, keep) - 1, Pow(2, more) - 1, k);
    AndOnes(low, keep);
    AndOnes(high, more);
  }

  /** A key word cut into the fields the limbs take from it. */
  datatype Fields = Fields(a: nat, b: nat, c: nat, d: nat)

  /** t == a + 4 b + cut c + 2^28 d, with 4 bits for d at the top. */
  predicate Cuts(f: Fields, t: Word, cut: int) {
    cut > 0 && f.a < 4 && 4 * f.b < cut && cut * f.c < 0x1000_0000 && f.d < 16 &&
    t as int == f.a + 4 * f.b + cut * f.c + 0x1000_0000 * f.d
  }

  function CutAt(t: Word, cut: nat): (f: Fields)
    requires cut == 0x100 || cut == 0x4000 || cut == 0x10_0000
    ensures Cuts(f, t, cut)
  {
    var low := t as int % 0x1000_0000;
    Fields(low % cut % 4, low % cut / 4, low / cut, t as int / 0x1000_0000)
  }

  /** Two key words overlapping in one limb: the or is a sum because the upper one is shifted clear of the lower. */
  lemma Overlap(lower: Word, down: int, part: int, rest: int, upper: Word, up: int, k: nat, kept: int, lost: int)
    requires 0 < down && up == Pow(2, k) && 0 <= part < up && 0 <= rest < down && lower as int == down * part + rest
    requires 0 <= up * kept < BASE && 0 <= kept && upper as int * up == up * kept + BASE * lost
    ensures 0 <= lower as int / down
    ensures Or(lower as int / down, (upper as int * up) % BASE) == part + up * kept
  {
    DivModUnique(lower, down, part, rest);
    DivModUnique(upper as int * up, BASE, lost, up * kept);
    OrDisjoint(part, up * kept, kept, k);
  }

  lemma Limb1(t0: Word, w0: int, w1: int, w2: int, t1: Word, f: Fields)
    requires 0 <= w0 < X && 0 <= w1 < 4 && 0 <= w2 < 16 && t0 as int == w0 + X * w1 + 0x1000_0000 * w2
    requires Cuts(f, t1, 0x10_0000)
    ensures And(Or(t0 as int / X, (t1 as int * 0x40) % BASE), 0x3ffff03) == w1 + 0x100 * f.b
  {
    hide And, Or, Pow;
    Powers();
    var l, h := f.c % 64, f.c / 64;
    DivModFacts(f.c, 64);
    Overlap(t0, X, w1 + 4 * w2, w0, t1, 0x40, 6, f.a + 4 * f.b + 0x10_0000 * l, h + 4 * f.d);
    Window1(w1 + 4 * w2 + 0x40 * f.a, f.b + 0x4_0000 * l, w1, w2 + 16 * f.a, f.b, l);
  }

  lemma Window1(low: nat, high: nat, w1: nat, above: nat, b: nat, l: nat)
    requires w1 < 4 && low == w1 + 4 * above && low < 0x100 && b < 0x4_0000 && high == b + 0x4_0000 * l
    ensures And(low + 0x100 * high, 0x3ffff03) == w1 + 0x100 * b
  {
    hide And, Pow;
    Powers();
    TwoWindows(low + 0x100 * high, low, high, 2, 8, 18, 0x3ffff03);
    DivModUnique(low, 4, above, w1);
    DivModUnique(high, 0x4_0000, l, b);
  }

  lemma Limb2(t1: Word, f: Fields, t2: Word, g: Fields)
    requires Cuts(f, t1, 0x10_0000) && Cuts(g, t2, 0x4000)
    ensures And(Or(t1 as int / 0x10_0000, (t2 as int * 0x1000) % BASE), 0x3ffc0ff) == f.c + 0x4000 * g.b
  {
    hide And, Or, Pow;
    Powers();
    var l, h := g.c % 64, g.c / 64;
    DivModFacts(g.c, 64);
    Overlap(t1, 0x10_0000, f.c + 0x100 * f.d, f.a + 4 * f.b, t2, 0x1000, 12, g.a + 4 * g.b + 0x4000 * l,
        h + 0x100 * g.d);
    Window2(f.c + 0x100 * f.d + 0x1000 * g.a, g.b + 0x1000 * l, f.c, f.d + 16 * g.a, g.b, l);
  }

  lemma Window2(low: nat, high: nat, c: nat, above: nat, b: nat, l: nat)
    requires c < 0x100 && low == c + 0x100 * above && low < 0x4000 && b < 0x1000 && high == b + 0x1000 * l
    ensures And(low + 0x4000 * high, 0x3ffc0ff) == c + 0x4000 * b
  {
    hide And, Pow;
    Powers();
    TwoWindows(low + 0x4000 * high, low, high, 8, 14, 12, 0x3ffc0ff);
    DivModUnique(low, 0x100, above, c);
    DivModUnique(high, 0x1000, l, b);
  }

  lemma Limb3(t2: Word, g: Fields, t3: Word, h: Fields)
    requires Cuts(g, t2, 0x4000) && Cuts(h, t3, 0x100)
    ensures And(Or(t2 as int / 0x4000, (t3 as int * 0x4_0000) % BASE), 0x3f03fff) == g.c + 0x10_0000 * h.b
  {
    hide And, Or, Pow;
    Powers();
    var l, u := h.c % 64, h.c / 64;
    DivModFacts(h.c, 64);
    Overlap(t2, 0x4000, g.c + 0x4000 * g.d, g.a + 4 * g.b, t3, 0x4_0000, 18, h.a + 4 * h.b + 0x100 * l,
        u + 0x4000 * h.d);
    Window3(g.c + 0x4000 * g.d + 0x4_0000 * h.a, h.b + 0x40 * l, g.c, g.d + 16 * h.a, h.b, l);
  }

  lemma Window3(low: nat, high: nat, c: nat, above: nat, b: nat, l: nat)
    requires c < 0x4000 && low == c + 0x4000 * above && low < 0x10_0000 && b < 0x40 && high == b + 0x40 * l
    ensures And(low + 0x10_0000 * high, 0x3f03fff) == c + 0x10_0000 * b
  {
    hide And, Pow;
    Powers();
    TwoWindows(low + 0x10_0000 * high, low, high, 14, 20, 6, 0x3f03fff);
    DivModUnique(low, 0x4000, above, c);
    DivModUnique(high, 0x40, l, b);
  }

  lemma Limb4(t3: Word, h: Fields)
    requires Cuts(h, t3, 0x100)
    ensures And(t3 as int / 0x100, 0x00fffff) == h.c
  {
    hide And, Pow;
    Powers();
    DivModUnique(t3, 0x100, h.c + 0x10_0000 * h.d, h.a + 4 * h.b);
    AndOnes(h.c + 0x10_0000 * h.d, 20);
    DivModUnique(h.c + 0x10_0000 * h.d, 0x10_0000, h.d, h.c);
  }

  lemma MiddleMask(t: Word, a: int, m: int, d: int)
    requires 0 <= a < 4 && 0 <= m < X && 0 <= d && t as int == a + 4 * (m + X * d)
    ensures And(t, 0x0fff_fffc) == 4 * m
  {
    Powers();
    TwoWindows(t, a, m + X * d, 0, 2, 26, 0x0fff_fffc);
    DivModUnique(m + X * d, X, d, m);
    DivModUnique(a, 1, a, 0);
  }

  lemma LowMask(t0: Word, w0: int, w1: int, w2: int)
    requires 0 <= w0 < X && 0 <= w1 < 4 && 0 <= w2 < 16 && t0 as int == w0 + X * w1 + 0x1000_0000 * w2
    ensures And(t0, 0x0fff_ffff) == w0 + X * w1 && And(t0, 0x3ffffff) == w0
  {
    Powers();
    AndOnes(t0, 28);
    AndOnes(t0, 26);
    DivModUnique(t0, 0x1000_0000, w2, w0 + X * w1);
    DivModUnique(t0, X, w1 + 4 * w2, w0);
  }

  /** A mask of four words acts on each word. */
  lemma WordMask(t0: Word, t1: Word, t2: Word, t3: Word)
    ensures And(t0 as int + BASE * t1 as int + BASE64 * t2 as int + 0x1_0000_0000_0000_0000_0000_0000 * t3 as int,
            CLAMP)
         == And(t0, 0x0fff_ffff) + BASE * And(t1, 0x0fff_fffc) + BASE64 * And(t2, 0x0fff_fffc)
            + 0x1_0000_0000_0000_0000_0000_0000 * And(t3, 0x0fff_fffc)
  {
    hide And, Four, Above;
    FourWords(t0, t1, t2, t3);
    FourWords(0x0fff_ffff, 0x0fff_fffc, 0x0fff_fffc, 0x0fff_fffc);
    AndFour(t0, t1, t2, t3, 0x0fff_ffff, 0x0fff_fffc, 0x0fff_fffc, 0x0fff_fffc);
    FourWords(And(t0, 0x0fff_ffff), And(t1, 0x0fff_fffc), And(t2, 0x0fff_fffc), And(t3, 0x0fff_fffc));
  }

  /** A word with a number above it. */
  function Above(low: int, high: int): int {
    low + BASE * high
  }

  /** Four words as one number. */
  function Four(a: int, b: int, c: int, d: int): int {
    Above(a, Above(b, Above(c, d)))
  }

  lemma FourWords(a: int, b: int, c: int, d: int)
    ensures Four(a, b, c, d) == a + BASE * b + BASE64 * c + 0x1_0000_0000_0000_0000_0000_0000 * d
  {
  }

  lemma AndFour(t0: Word, t1: Word, t2: Word, t3: Word, m0: Word, m1: Word, m2: Word, m3: Word)
    ensures 0 <= Four(t0, t1, t2, t3) && 0 <= Four(m0, m1, m2, m3)
    ensures And(Four(t0, t1, t2, t3), Four(m0, m1, m2, m3)) == Four(And(t0, m0), And(t1, m1), And(t2, m2), And(t3, m3))
  {
    hide And, Above;
    AndWord(t2, t3, m2, m3);
    AndWord(t1, Above(t2, t3), m1, Above(m2, m3));
    AndWord(t0, Above(t1, Above(t2, t3)), m0, Above(m1, Above(m2, m3)));
  }

  lemma AndWord(low: Word, high: nat, lowMask: Word, highMask: nat)
    ensures 0 <= Above(low, high) && 0 <= Above(lowMask, highMask)
    ensures And(Above(low, high), Above(lowMask, highMask)) == Above(And(low, lowMask), And(high, highMask))
  {
    hide And, Pow;
    Powers();
    AndSplit(low + BASE * high, lowMask + BASE * highMask, low, high, lowMask, highMask, 32);
  }

  lemma ClampSum(w0: int, w1: int, f: Fields, g: Fields, h: Fields)
    ensures w0 + 0x400_0000 * (w1 + 0x100 * f.b) + 0x10_0000_0000_0000 * (f.c + 0x4000 * g.b)
            + 0x4000_0000_0000_0000_0000 * (g.c + 0x10_0000 * h.b) + 0x100_0000_0000_0000_0000_0000_0000 * h.c
         == (w0 + X * w1) + BASE * (4 * (f.b + 0x4_0000 * f.c)) + BASE64 * (4 * (g.b + 0x1000 * g.c))
            + 0x1_0000_0000_0000_0000_0000_0000 * (4 * (h.b + 0x40 * h.c))
  {
  }

  lemma ClampWordsCorrect(t0: Word, t1: Word, t2: Word, t3: Word)
    ensures ClampWords(t0, t1, t2, t3).Reduced()
    ensures ClampWords(t0, t1, t2, t3).Value()
         == And(t0 as int + BASE * t1 as int + BASE64 * t2 as int + 0x1_0000_0000_0000_0000_0000_0000 * t3 as int,
         CLAMP)
  {
    var w0, w1, w2 := t0 as int % X, t0 as int % 0x1000_0000 / X, t0 as int / 0x1000_0000;
    FirstWord(t0);
    var f, g, h := CutAt(t1, 0x10_0000), CutAt(t2, 0x4000), CutAt(t3, 0x100);
    hide And, Or, CutAt;
    LowMask(t0, w0, w1, w2);
    Limb1(t0, w0, w1, w2, t1, f);
    Limb2(t1, f, t2, g);
    Limb3(t2, g, t3, h);
    Limb4(t3, h);
    WordMask(t0, t1, t2, t3);
    MiddleMask(t1, f.a, f.b + 0x4_0000 * f.c, f.d);
    MiddleMask(t2, g.a, g.b + 0x1000 * g.c, g.d);
    MiddleMask(t3, h.a, h.b + 0x40 * h.c, h.d);
    ClampSum(w0, w1, f, g, h);
  }

  /** The point a message is evaluated at: the first half of the key with the standard's bits cleared. */
  function Point(key: seq<Byte>): nat
    requires |key| == 32
  {
    And(Le(key[..16]), CLAMP)
  }

  /** The bytes section 2.5 of RFC 8439 clears: the upper half of bytes 3, 7, 11 and 15, and the two lowest bits of
      bytes 4, 8 and 12. */
  function Cleared(b: seq<Byte>): seq<Byte>
    requires |b| == 16
  {
    [b[0], b[1], b[2], b[3] % 16, b[4] / 4 * 4, b[5], b[6], b[7] % 16,
     b[8] / 4 * 4, b[9], b[10], b[11] % 16, b[12] / 4 * 4, b[13], b[14], b[15] % 16]
  }

  /** The mask does that. */
  lemma PointBytes(key: seq<Byte>)
    requires |key| == 32
    ensures Point(key) == Le(Cleared(key[..16]))
  {
    hide And, Le, Read32;
    var b := key[..16];
    var c := Cleared(b);
    LeWords(b);
    LeWords(c);
    WordMask(Read32(b, 0), Read32(b, 4), Read32(b, 8), Read32(b, 12));
    ClearedFirst(b, c);
    ClearedOther(b, c, 4);
    ClearedOther(b, c, 8);
    ClearedOther(b, c, 12);
  }

  lemma ClearedFirst(b: seq<Byte>, c: seq<Byte>)
    requires |b| == 16 && c == Cleared(b)
    ensures And(Read32(b, 0), 0x0fff_ffff) == Read32(c, 0)
  {
    hide And, Pow;
    Powers();
    AndOnes(Read32(b, 0), 28);
    DivModUnique(Read32(b, 0), 0x1000_0000, b[3] / 16, Read32(c, 0));
  }

  lemma ClearedOther(b: seq<Byte>, c: seq<Byte>, at: nat)
    requires |b| == 16 && c == Cleared(b) && (at == 4 || at == 8 || at == 12)
    ensures And(Read32(b, at), 0x0fff_fffc) == Read32(c, at)
  {
    hide And;
    var m := b[at] as int / 4 + 0x40 * b[at + 1] as int + 0x4000 * b[at + 2] as int
             + 0x40_0000 * (b[at + 3] as int % 16);
    MiddleMask(Read32(b, at), b[at] % 4, m, b[at + 3] / 16);
  }

  /** The limbs are the sixteen key bytes with the standard's bits cleared, and each fits 26 bits. */
  lemma ClampCorrect(key: seq<Byte>)
    requires |key| == 32
    ensures R(key).Reduced() && R(key).Value() == Point(key)
  {
    hide And, Or, Read32, Le, ClampWords;
    var b := key[..16];
    ReadPrefix(key, 0);
    ReadPrefix(key, 4);
    ReadPrefix(key, 8);
    ReadPrefix(key, 12);
    LeWords(b);
    ClampWordsCorrect(Read32(key, 0), Read32(key, 4), Read32(key, 8), Read32(key, 12));
  }

  lemma ReadPrefix(key: seq<Byte>, at: nat)
    requires |key| == 32 && at + 4 <= 16
    ensures Read32(key[..16], at) == Read32(key, at)
  {
  }

  lemma FirstWord(t: Word)
    ensures var w0, w1, w2 := t as int % X, t as int % 0x1000_0000 / X, t as int / 0x1000_0000;
            0 <= w0 < X && 0 <= w1 < 4 && 0 <= w2 < 16 && t as int == w0 + X * w1 + 0x1000_0000 * w2
  {
    var low := t as int % 0x1000_0000;
    DivModFacts(low, X);
    DivModUnique(t, X, low / X + 4 * (t as int / 0x1000_0000), low % X);
  }
}
