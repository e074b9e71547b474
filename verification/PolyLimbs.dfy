/** kernel/aead.c: the arithmetic of Poly1305 on five 26-bit limbs, section 2.5 of RFC 8439. */
module PolyLimbs {
  import opened Numbers
  import opened Words
  import opened Bits
  import opened LittleEndian

  const X := 0x400_0000
  /** 2^130 - 5. */
  const PRIME := 0x3_ffff_ffff_ffff_ffff_ffff_ffff_ffff_fffb
  const TWO128 := 0x1_0000_0000_0000_0000_0000_0000_0000_0000

  datatype Limbs5 = Limbs5(l0: nat, l1: nat, l2: nat, l3: nat, l4: nat) {
    function Value(): nat {
      l0 + 0x400_0000 * l1 + 0x10_0000_0000_0000 * l2 + 0x4000_0000_0000_0000_0000 * l3
      + 0x100_0000_0000_0000_0000_0000_0000 * l4
    }

    /** Every limb within 26 bits, save for the few carries left in the second. */
    predicate Carried() {
      l0 < X && l1 < X + 64 && l2 < X && l3 < X && l4 < X
    }

    predicate Reduced() {
      l0 < X && l1 < X && l2 < X && l3 < X && l4 < X
    }

    /** With a block of the message added on top. */
    predicate Loaded() {
      l0 < 0x800_0040 && l1 < 0x800_0040 && l2 < 0x800_0040 && l3 < 0x800_0040 && l4 < 0x800_0040
    }
  }

  /** x & 0x3ffffff. */
  lemma Mask26(x: nat)
    ensures And(x, 0x3ff_ffff) == x % X
  {
    assert Pow(2, 13) == 0x2000;
    PowAdd(2, 13, 13);
    AndOnes(x, 26);
  }

  // ---- The sixteen bytes of a block as limbs -------------------------------

  /** Four overlapping 32-bit reads and one more, each shifted and masked to 26 bits. */
  function Split(b: seq<Byte>): Limbs5
    requires |b| == 16
  {
    Limbs5(Read32(b, 0) % X, Read32(b, 3) / 4 % X, Read32(b, 6) / 16 % X, Read32(b, 9) / 64 % X, Read32(b, 12) / 256)
  }

  /** The remainders are what the masks give. */
  lemma SplitIsMasked(b: seq<Byte>)
    requires |b| == 16
    ensures Split(b) == Limbs5(And(Read32(b, 0), 0x3ff_ffff), And(Read32(b, 3) / 4, 0x3ff_ffff),
            And(Read32(b, 6) / 16, 0x3ff_ffff),
                               And(Read32(b, 9) / 64, 0x3ff_ffff), Read32(b, 12) / 256)
  {
    hide And, Read32;
    Mask26(Read32(b, 0));
    Mask26(Read32(b, 3) / 4);
    Mask26(Read32(b, 6) / 16);
    Mask26(Read32(b, 9) / 64);
  }

  function Word4(a: Byte, b: Byte, c: Byte, d: Byte): Word {
    a as int + 0x100 * b as int + 0x1_0000 * c as int + 0x100_0000 * d as int
  }

  /** Dropping `shift` low bits and keeping the next 26, when the parts are known. */
  lemma Window(w: int, shift: int, rest: int, low: int, above: int)
    requires 0 < shift && 0 <= rest < shift && 0 <= low < X && w == shift * (low + X * above) + rest
    ensures w / shift % X == low
  {
    DivModUnique(w, shift, low + X * above, rest);
    DivModUnique(low + X * above, X, above, low);
  }

  lemma Limb0(a: Byte, b: Byte, c: Byte, d: Byte)
    ensures Word4(a, b, c, d) % X == a as int + 0x100 * b as int + 0x1_0000 * c as int + 0x100_0000 * (d % 4)
  {
    Cut(d, 4);
    var low := a as int + 0x100 * b as int + 0x1_0000 * c as int + 0x100_0000 * (d % 4);
    DivModUnique(Word4(a, b, c, d), X, d / 4, low);
  }

  lemma Limb1(a: Byte, b: Byte, c: Byte, d: Byte)
    ensures Word4(a, b, c, d) / 4 % X == a / 4 + 0x40 * b as int + 0x4000 * c as int + 0x40_0000 * (d % 16)
  {
    Cut(a, 4);
    Cut(d, 16);
    Window(Word4(a, b, c, d), 4, a % 4, a / 4 + 0x40 * b as int + 0x4000 * c as int + 0x40_0000 * (d % 16), d / 16);
  }

  lemma Limb2(a: Byte, b: Byte, c: Byte, d: Byte)
    ensures Word4(a, b, c, d) / 16 % X == a / 16 + 0x10 * b as int + 0x1000 * c as int + 0x10_0000 * (d % 64)
  {
    Cut(a, 16);
    Cut(d, 64);
    Window(Word4(a, b, c, d), 16, a % 16, a / 16 + 0x10 * b as int + 0x1000 * c as int + 0x10_0000 * (d % 64), d / 64);
  }

  lemma Limb3(a: Byte, b: Byte, c: Byte, d: Byte)
    ensures Word4(a, b, c, d) / 64 % X == a / 64 + 0x4 * b as int + 0x400 * c as int + 0x4_0000 * d as int
  {
    Cut(a, 64);
    Window(Word4(a, b, c, d), 64, a % 64, a / 64 + 0x4 * b as int + 0x400 * c as int + 0x4_0000 * d as int, 0);
  }

  lemma Limb4(a: Byte, b: Byte, c: Byte, d: Byte)
    ensures Word4(a, b, c, d) / 256 == b as int + 0x100 * c as int + 0x1_0000 * d as int
  {
    DivModUnique(Word4(a, b, c, d), 256, b as int + 0x100 * c as int + 0x1_0000 * d as int, a);
  }

  lemma LeWords(b: seq<Byte>)
    requires |b| == 16
    ensures Le(b) == Read32(b, 0) as int + BASE * Read32(b, 4) as int + BASE64 * Read32(b, 8) as int
                     + 0x1_0000_0000_0000_0000_0000_0000 * Read32(b, 12) as int
  {
    hide Le, Read32;
    LeWord(b, 0);
    LeWord(b, 4);
    LeWord(b, 8);
    LeWord(b, 12);
    assert b[0..] == b && b[16..] == [];
    LeNone();
  }

  lemma LeNone()
    ensures Le([]) == 0
  {
  }

  lemma LeWord(b: seq<Byte>, at: nat)
    requires at + 4 <= |b|
    ensures Le(b[at..]) == Read32(b, at) as int + BASE * Le(b[at + 4..])
  {
    LeSplit(b[at..], 4);
    assert b[at..][4..] == b[at + 4..] && b[at..][..4] == b[at..at + 4];
    Read32Le(b, at);
    assert Pow(0x100, 4) == BASE;
  }

  lemma LeBytes(b: seq<Byte>)
    requires |b| == 16
    ensures Le(b) == b[0] as int + 0x100 * b[1] as int + 0x1_0000 * b[2] as int + 0x100_0000 * b[3] as int
                     + BASE * (b[4] as int + 0x100 * b[5] as int + 0x1_0000 * b[6] as int + 0x100_0000 * b[7] as int)
                     + BASE64
                       * (b[8] as int + 0x100 * b[9] as int + 0x1_0000 * b[10] as int + 0x100_0000 * b[11] as int)
                     + 0x1_0000_0000_0000_0000_0000_0000
                       * (b[12] as int + 0x100 * b[13] as int + 0x1_0000 * b[14] as int + 0x100_0000 * b[15] as int)
  {
    LeWords(b);
  }

  lemma SplitLimbs(b: seq<Byte>)
    requires |b| == 16
    ensures var m := Split(b);
            m.l0 == b[0] as int + 0x100 * b[1] as int + 0x1_0000 * b[2] as int + 0x100_0000 * (b[3] as int % 4) &&
            m.l1 == b[3] as int / 4 + 0x40 * b[4] as int + 0x4000 * b[5] as int + 0x40_0000 * (b[6] as int % 16) &&
            m.l2 == b[6] as int / 16 + 0x10 * b[7] as int + 0x1000 * b[8] as int + 0x10_0000 * (b[9] as int % 64) &&
            m.l3 == b[9] as int / 64 + 0x4 * b[10] as int + 0x400 * b[11] as int + 0x4_0000 * b[12] as int &&
            m.l4 == b[13] as int + 0x100 * b[14] as int + 0x1_0000 * b[15] as int
  {
    hide Read32, Word4;
    ReadWord4(b, 0);
    ReadWord4(b, 3);
    ReadWord4(b, 6);
    ReadWord4(b, 9);
    ReadWord4(b, 12);
    Limb0(b[0], b[1], b[2], b[3]);
    Limb1(b[3], b[4], b[5], b[6]);
    Limb2(b[6], b[7], b[8], b[9]);
    Limb3(b[9], b[10], b[11], b[12]);
    Limb4(b[12], b[13], b[14], b[15]);
  }

  lemma ReadWord4(b: seq<Byte>, at: nat)
    requires at + 4 <= |b|
    ensures Read32(b, at) == Word4(b[at], b[at + 1], b[at + 2], b[at + 3])
  {
  }

  /** The limbs of a block are the number its bytes stand for. */
  lemma SplitValue(b: seq<Byte>)
    requires |b| == 16
    ensures Split(b).Value() == Le(b) && Split(b).Reduced() && Split(b).l4 < 0x100_0000
  {
    hide Split, Le;
    SplitLimbs(b);
    LeBytes(b);
    Cut(b[3], 4);
    Cut(b[6], 16);
    Cut(b[9], 64);
  }

  lemma Cut(b: Byte, at: int)
    requires at == 4 || at == 16 || at == 64
    ensures b as int == at * (b / at) + b % at && 0 <= b % at < at && 0 <= b / at < 0x100 / at
  {
  }

  // ---- One block -----------------------------------------------------------

  function Scale(h: Limbs5, r: nat): Limbs5 {
    MulNonneg(h.l0, r);
    MulNonneg(h.l1, r);
    MulNonneg(h.l2, r);
    MulNonneg(h.l3, r);
    MulNonneg(h.l4, r);
    Limbs5(h.l0 * r, h.l1 * r, h.l2 * r, h.l3 * r, h.l4 * r)
  }

  /** The five column sums, the columns past the fifth folded back multiplied by five. */
  function Columns(h: Limbs5, r: Limbs5): Limbs5 {
    var a, b, c, d, e := Scale(h, r.l0), Scale(h, r.l1), Scale(h, r.l2), Scale(h, r.l3), Scale(h, r.l4);
    Limbs5(
      a.l0 + 5 * (e.l1 + d.l2 + c.l3 + b.l4),
      b.l0 + a.l1 + 5 * (e.l2 + d.l3 + c.l4),
      c.l0 + b.l1 + a.l2 + 5 * (e.l3 + d.l4),
      d.l0 + c.l1 + b.l2 + a.l3 + 5 * e.l4,
      e.l0 + d.l1 + c.l2 + b.l3 + a.l4)
  }

  /** What the folding leaves out: a multiple of 2^130 - 5. */
  function Folded(h: Limbs5, r: Limbs5): nat {
    var b, c, d, e := Scale(h, r.l1), Scale(h, r.l2), Scale(h, r.l3), Scale(h, r.l4);
    (e.l1 + d.l2 + c.l3 + b.l4) + 0x400_0000 * (e.l2 + d.l3 + c.l4) + 0x10_0000_0000_0000 * (e.l3 + d.l4)
    + 0x4000_0000_0000_0000_0000 * e.l4
  }

  lemma ScaleValue(h: Limbs5, r: nat)
    ensures Scale(h, r).Value() == h.Value() * r
  {
  }

  lemma ColumnsValue(h: Limbs5, r: Limbs5)
    ensures h.Value() * r.Value() == Columns(h, r).Value() + PRIME * Folded(h, r)
  {
    hide Scale;
    ScaleValue(h, r.l0);
    ScaleValue(h, r.l1);
    ScaleValue(h, r.l2);
    ScaleValue(h, r.l3);
    ScaleValue(h, r.l4);
    Spread(h.Value(), r.l0, r.l1, r.l2, r.l3, r.l4);
  }

  lemma Spread(h: int, a: int, b: int, c: int, d: int, e: int)
    ensures h * (a + 0x400_0000 * b + 0x10_0000_0000_0000 * c + 0x4000_0000_0000_0000_0000 * d
                 + 0x100_0000_0000_0000_0000_0000_0000 * e)
         == h * a + 0x400_0000 * (h * b) + 0x10_0000_0000_0000 * (h * c) + 0x4000_0000_0000_0000_0000 * (h * d)
            + 0x100_0000_0000_0000_0000_0000_0000 * (h * e)
  {
  }

  lemma ScaleBound(h: Limbs5, r: nat)
    requires h.Loaded() && r < X
    ensures var s := Scale(h, r);
            s.l0 < 0x20_0001_0000_0000 && s.l1 < 0x20_0001_0000_0000 && s.l2 < 0x20_0001_0000_0000 &&
            s.l3 < 0x20_0001_0000_0000 && s.l4 < 0x20_0001_0000_0000
  {
    ProductBound(h.l0, r);
    ProductBound(h.l1, r);
    ProductBound(h.l2, r);
    ProductBound(h.l3, r);
    ProductBound(h.l4, r);
  }

  lemma ProductBound(h: nat, r: nat)
    requires h < 0x800_0040 && r < X
    ensures 0 <= h * r < 0x20_0001_0000_0000
  {
    MulMono(h, r, 0x800_003f, X - 1);
  }

  /** No column needs more than 64 bits, nor its carry more than 32. */
  lemma ColumnsBound(h: Limbs5, r: Limbs5)
    requires h.Loaded() && r.Reduced()
    ensures var d := Columns(h, r);
            d.l0 < 0x2A0_0016_0000_0000 && d.l1 < 0x2A0_0016_0000_0000 && d.l2 < 0x2A0_0016_0000_0000 &&
            d.l3 < 0x2A0_0016_0000_0000 && d.l4 < 0xA0_0005_0000_0000
  {
    hide Scale;
    ScaleBound(h, r.l0);
    ScaleBound(h, r.l1);
    ScaleBound(h, r.l2);
    ScaleBound(h, r.l3);
    ScaleBound(h, r.l4);
  }

  /** What a limb carries over and what stays in it: x >> 26 and x & 0x3ffffff. */
  function High(x: nat): nat {
    x / X
  }

  function Low(x: nat): (r: nat)
    ensures r < X && x == X * High(x) + r
  {
    x % X
  }

  /** The carry chain: each column keeps its low 26 bits, the top carry returns to the bottom multiplied by five.
      Every intermediate is held in the word the source gives it. */
  function Carry(d: Limbs5): (h: Limbs5)
    requires d.l0 < 0x2A0_0016_0000_0000 && d.l1 < 0x2A0_0016_0000_0000 && d.l2 < 0x2A0_0016_0000_0000
    requires d.l3 < 0x2A0_0016_0000_0000 && d.l4 < 0xA0_0005_0000_0000
  {
    var c0: Word := High(d.l0);
    var d1: DWord := d.l1 + c0;
    var c1: Word := High(d1);
    var d2: DWord := d.l2 + c1;
    var c2: Word := High(d2);
    var d3: DWord := d.l3 + c2;
    var c3: Word := High(d3);
    var d4: DWord := d.l4 + c3;
    var c4: Word := High(d4);
    var h0: Word := Low(d.l0) + c4 * 5;
    var h1: Word := Low(d1) + High(h0);
    Limbs5(Low(h0), h1, Low(d2), Low(d3), Low(d4))
  }

  lemma CarryValue(d: Limbs5) returns (top: nat)
    requires d.l0 < 0x2A0_0016_0000_0000 && d.l1 < 0x2A0_0016_0000_0000 && d.l2 < 0x2A0_0016_0000_0000
    requires d.l3 < 0x2A0_0016_0000_0000 && d.l4 < 0xA0_0005_0000_0000
    ensures d.Value() == Carry(d).Value() + PRIME * top
  {
    hide High, Low, Limbs5.Value;
    var c0 := High(d.l0);
    var d1 := d.l1 + c0;
    var c1 := High(d1);
    var d2 := d.l2 + c1;
    var c2 := High(d2);
    var d3 := d.l3 + c2;
    var c3 := High(d3);
    var d4 := d.l4 + c3;
    top := High(d4);
    var h0 := Low(d.l0) + top * 5;
    assert Carry(d) == Limbs5(Low(h0), Low(d1) + High(h0), Low(d2), Low(d3), Low(d4));
    assert d == Limbs5(d.l0, d.l1, d.l2, d.l3, d.l4);
    CarryChain(d.l0, c0, Low(d.l0), d.l1, c1, Low(d1), d.l2, c2, Low(d2), d.l3, c3, Low(d3), d.l4, top, Low(d4),
               High(h0), Low(h0));
  }

  lemma CarryBound(d: Limbs5)
    requires d.l0 < 0x2A0_0016_0000_0000 && d.l1 < 0x2A0_0016_0000_0000 && d.l2 < 0x2A0_0016_0000_0000
    requires d.l3 < 0x2A0_0016_0000_0000 && d.l4 < 0xA0_0005_0000_0000
    ensures Carry(d).Carried()
  {
    hide High, Low, Limbs5.Value;
  }

  lemma CarryChain(d0: nat, c0: nat, r0: nat, d1: nat, c1: nat, r1: nat, d2: nat, c2: nat, r2: nat,
                   d3: nat, c3: nat, r3: nat, d4: nat, c4: nat, r4: nat, c: nat, h0: nat)
    requires d0 == X * c0 + r0 && d1 + c0 == X * c1 + r1 && d2 + c1 == X * c2 + r2 && d3 + c2 == X * c3 + r3
    requires d4 + c3 == X * c4 + r4 && r0 + c4 * 5 == X * c + h0
    ensures Limbs5(d0, d1, d2, d3, d4).Value() == Limbs5(h0, r1 + c, r2, r3, r4).Value() + PRIME * c4
  {
  }

  /** The accumulator with a block added, `high` being the bit above the block's sixteen bytes. */
  function Load(h: Limbs5, block: seq<Byte>, high: nat): Limbs5
    requires |block| == 16
  {
    var m := Split(block);
    Limbs5(h.l0 + m.l0, h.l1 + m.l1, h.l2 + m.l2, h.l3 + m.l3, h.l4 + m.l4 + high)
  }

  lemma LoadValue(h: Limbs5, block: seq<Byte>, high: nat)
    requires |block| == 16 && h.Carried() && (high == 0 || high == 0x100_0000)
    ensures Load(h, block, high).Loaded()
    ensures Load(h, block, high).Value() == h.Value() + Le(block) + high * 0x100_0000_0000_0000_0000_0000_0000
  {
    hide Split, Le;
    SplitValue(block);
  }

  /** h := (h + block) * r. */
  function Absorb(h: Limbs5, block: seq<Byte>, high: nat, r: Limbs5): Limbs5
    requires |block| == 16 && h.Carried() && r.Reduced() && (high == 0 || high == 0x100_0000)
  {
    LoadValue(h, block, high);
    ColumnsBound(Load(h, block, high), r);
    Carry(Columns(Load(h, block, high), r))
  }

  /** One block of the accumulator, as section 2.5.1 of RFC 8439 has it, and the bounds it keeps. */
  lemma AbsorbCorrect(h: Limbs5, block: seq<Byte>, high: nat, r: Limbs5)
    requires |block| == 16 && h.Carried() && r.Reduced() && (high == 0 || high == 0x100_0000)
    ensures Absorb(h, block, high, r).Carried()
    ensures Congruent(Absorb(h, block, high, r).Value(), Load(h, block, high).Value() * r.Value(), PRIME)
  {
    hide Columns, Folded, Carry, Load, Le, Limbs5.Value, Congruent;
    var sum := Load(h, block, high);
    LoadValue(h, block, high);
    ColumnsBound(sum, r);
    ColumnsValue(sum, r);
    CarryBound(Columns(sum, r));
    var top := CarryValue(Columns(sum, r));
    FoldAway(sum.Value() * r.Value(), Columns(sum, r).Value(), Folded(sum, r), Carry(Columns(sum, r)).Value(), top);
  }

  lemma FoldAway(product: int, columns: int, folded: int, next: int, top: int)
    requires product == columns + PRIME * folded && columns == next + PRIME * top
    ensures Congruent(next, product, PRIME)
  {
    CongruentFrom(next, product, PRIME, -(top + folded));
  }
}
