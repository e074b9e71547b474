/** kernel/aead.c: the end of Poly1305 - the canonical residue and the tag, section 2.5.1 of RFC 8439. */
module PolyFinish {
  import opened Numbers
  import opened Words
  import opened Bits
  import opened LittleEndian
  import opened PolyLimbs
  import opened PolyClamp

  /** The first carry pass, which spends the carries left in the second limb. */
  function Settle(h: Limbs5): Limbs5
    requires h.Carried()
  {
    var h1: Word := Low(h.l1);
    var h2: Word := h.l2 + High(h.l1);
    var h3: Word := h.l3 + High(h2);
    var h4: Word := h.l4 + High(h3);
    var h0: Word := h.l0 + High(h4) * 5;
    var h1b: Word := h1 + High(h0);
    Limbs5(Low(h0), h1b, Low(h2), Low(h3), Low(h4))
  }

  /** After it no carry is left: one can only reach the second limb again when that limb is nearly empty. */
  lemma SettleReduced(h: Limbs5)
    requires h.Carried()
    ensures Settle(h).Reduced()
  {
    hide High, Low;
  }

  lemma SettleValue(h: Limbs5) returns (top: nat)
    requires h.Carried()
    ensures h.Value() == Settle(h).Value() + PRIME * top
  {
    hide High, Low, Limbs5.Value;
    var h2 := h.l2 + High(h.l1);
    var h3 := h.l3 + High(h2);
    var h4 := h.l4 + High(h3);
    top := High(h4);
    var h0 := h.l0 + top * 5;
    assert Settle(h) == Limbs5(Low(h0), Low(h.l1) + High(h0), Low(h2), Low(h3), Low(h4));
    assert h == Limbs5(h.l0, h.l1, h.l2, h.l3, h.l4);
    CarryChain(h.l0, 0, h.l0, h.l1, High(h.l1), Low(h.l1), h.l2, High(h2), Low(h2), h.l3, High(h3), Low(h3),
               h.l4, top, Low(h4), High(h0), Low(h0));
  }

  lemma SettleCorrect(h: Limbs5)
    requires h.Carried()
    ensures Settle(h).Reduced() && Congruent(Settle(h).Value(), h.Value(), PRIME)
  {
    hide Settle, Limbs5.Value;
    SettleReduced(h);
    var top := SettleValue(h);
    CongruentFrom(Settle(h).Value(), h.Value(), PRIME, -(top as int));
  }

  /** The bits of g where the mask is set and those of h where it is not. */
  function Select(mask: Word, h: Word, g: Word): nat {
    Or(And(h, BASE - 1 - mask), And(g, mask))
  }

  lemma SelectAll(h: Word, g: Word)
    ensures Select(BASE - 1, h, g) == g && Select(0, h, g) == h
  {
    Powers();
    AndAll(h, 32);
    AndAll(g, 32);
  }

  /** h plus five, less 2^130: the top limb wraps below zero exactly when h was below the prime. */
  function Trial(h: Limbs5): Limbs5
    requires h.Reduced()
  {
    var g0: Word := h.l0 + 5;
    var g1: Word := h.l1 + High(g0);
    var g2: Word := h.l2 + High(g1);
    var g3: Word := h.l3 + High(g2);
    Limbs5(Low(g0), Low(g1), Low(g2), Low(g3), (h.l4 + High(g3) - X) % BASE)
  }

  lemma TrialCorrect(h: Limbs5)
    requires h.Reduced()
    ensures var g := Trial(h);
            g.l0 < X && g.l1 < X && g.l2 < X && g.l3 < X && g.l4 < BASE &&
            (g.l4 < 0x8000_0000 <==> h.Value() >= PRIME) &&
            (g.l4 < 0x8000_0000 ==> g.Reduced() && g.Value() == h.Value() - PRIME)
  {
    hide Limbs5.Value, High, Low;
    var g0 := h.l0 + 5;
    var g1 := h.l1 + High(g0);
    var g2 := h.l2 + High(g1);
    var g3 := h.l3 + High(g2);
    var c := High(g3);
    TrialSum(h.l0, h.l1, h.l2, h.l3, h.l4, Low(g0), High(g0), Low(g1), High(g1), Low(g2), High(g2), Low(g3), c);
    TopLimb(h.l4 + c);
  }

  lemma TopLimb(e: nat)
    requires e <= X
    ensures 0 <= (e - X) % BASE && ((e - X) % BASE < 0x8000_0000 <==> e >= X)
    ensures e >= X ==> (e - X) % BASE == e - X
  {
  }

  lemma TrialSum(a: nat, b: nat, c: nat, d: nat, e: nat, g0: nat, c0: nat, g1: nat, c1: nat, g2: nat, c2: nat,
                 g3: nat, c3: nat)
    requires a < X && b < X && c < X && d < X && e < X && g0 < X && g1 < X && g2 < X && g3 < X
    requires a + 5 == g0 + X * c0 && b + c0 == g1 + X * c1 && c + c1 == g2 + X * c2 && d + c2 == g3 + X * c3
    ensures c3 <= 1
    ensures var h := Limbs5(a, b, c, d, e).Value();
            (h >= PRIME <==> e + c3 >= X) &&
            (e + c3 >= X ==> Limbs5(g0, g1, g2, g3, e + c3 - X).Value() == h - PRIME)
  {
  }

  /** The residue, chosen between h and h minus the prime by masks instead of a branch. */
  function Canonical(h: Limbs5): Limbs5
    requires h.Reduced()
  {
    var g := Trial(h);
    TrialCorrect(h);
    var mask: Word := (g.l4 / 0x8000_0000 - 1) % BASE;
    Limbs5(Select(mask, h.l0, g.l0), Select(mask, h.l1, g.l1), Select(mask, h.l2, g.l2), Select(mask, h.l3, g.l3),
           Select(mask, h.l4, g.l4))
  }

  lemma CanonicalCorrect(h: Limbs5)
    requires h.Reduced()
    ensures Canonical(h).Reduced() && Canonical(h).Value() == h.Value() % PRIME
  {
    hide Trial, Select, Limbs5.Value;
    var g := Trial(h);
    TrialCorrect(h);
    SelectAll(h.l0, g.l0);
    SelectAll(h.l1, g.l1);
    SelectAll(h.l2, g.l2);
    SelectAll(h.l3, g.l3);
    SelectAll(h.l4, g.l4);
    ReducedBound(h);
    MaskOf(g.l4);
    if g.l4 < 0x8000_0000 {
      DivModUnique(h.Value(), PRIME, 1, g.Value());
    } else {
      DivModUnique(h.Value(), PRIME, 0, h.Value());
    }
  }

  lemma MaskOf(top: nat)
    requires top < BASE
    ensures (top / 0x8000_0000 - 1) % BASE == if top < 0x8000_0000 then BASE - 1 else 0
  {
  }

  lemma ReducedBound(h: Limbs5)
    requires h.Reduced()
    ensures h.Value() < PRIME + 5
  {
  }

  datatype Words4 = Words4(w0: Word, w1: Word, w2: Word, w3: Word) {
    function Value(): nat {
      w0 as int + BASE * w1 as int + BASE64 * w2 as int + 0x1_0000_0000_0000_0000_0000_0000 * w3 as int
    }
  }

  /** The five limbs repacked as four 32-bit words; the two bits above the fourth fall off. */
  function Pack(h: Limbs5): Words4
    requires h.Reduced()
  {
    PackParts(h);
    Words4(Or(h.l0, (h.l1 * 0x400_0000) % BASE), Or(h.l1 / 0x40, (h.l2 * 0x10_0000) % BASE),
           Or(h.l2 / 0x1000, (h.l3 * 0x4000) % BASE), Or(h.l3 / 0x4_0000, (h.l4 * 0x100) % BASE))
  }

  lemma PackParts(h: Limbs5)
    requires h.Reduced()
    ensures Or(h.l0, (h.l1 * 0x400_0000) % BASE) == h.l0 + 0x400_0000 * (h.l1 % 0x40) < BASE
    ensures Or(h.l1 / 0x40, (h.l2 * 0x10_0000) % BASE) == h.l1 / 0x40 + 0x10_0000 * (h.l2 % 0x1000) < BASE
    ensures Or(h.l2 / 0x1000, (h.l3 * 0x4000) % BASE) == h.l2 / 0x1000 + 0x4000 * (h.l3 % 0x4_0000) < BASE
    ensures Or(h.l3 / 0x4_0000, (h.l4 * 0x100) % BASE) == h.l3 / 0x4_0000 + 0x100 * (h.l4 % 0x100_0000) < BASE
  {
    Powers();
    Join(h.l0, h.l1, 1, 0x400_0000, 26, 0x40);
    Join(h.l1, h.l2, 0x40, 0x10_0000, 20, 0x1000);
    Join(h.l2, h.l3, 0x1000, 0x4000, 14, 0x4_0000);
    Join(h.l3, h.l4, 0x4_0000, 0x100, 8, 0x100_0000);
  }

  lemma Join(lower: nat, upper: nat, down: int, up: int, k: nat, window: int)
    requires 0 < down && 0 < window && up == Pow(2, k) && up * window == BASE && lower < down * up && lower < BASE &&
             upper < BASE
    ensures 0 <= lower / down < up && 0 <= upper % window
    ensures Or(lower / down, (upper * up) % BASE) == lower / down + up * (upper % window) < BASE
  {
    DivModFacts(lower, down);
    DivBelow(lower, down, up);
    if lower / down < 0 {
      MulAway(down, lower / down);
    }
    DivModFacts(upper, window);
    assert upper * up == up * (upper % window) + (up * window) * (upper / window);
    MulMono(up, upper % window, up, window - 1);
    assert up * (window - 1) == up * window - up;
    Overlap(lower, down, lower / down, lower % down, upper, up, k, upper % window, upper / window);
  }

  lemma PackValue(h: Limbs5)
    requires h.Reduced()
    ensures Pack(h).Value() == h.Value() % TWO128
  {
    hide Or;
    PackParts(h);
    var top := h.l4 / 0x100_0000;
    assert h.l4 == 0x100_0000 * top + h.l4 % 0x100_0000;
    assert h.l1 == 0x40 * (h.l1 / 0x40) + h.l1 % 0x40;
    assert h.l2 == 0x1000 * (h.l2 / 0x1000) + h.l2 % 0x1000;
    assert h.l3 == 0x4_0000 * (h.l3 / 0x4_0000) + h.l3 % 0x4_0000;
    DivModUnique(h.Value(), TWO128, top, Pack(h).Value());
  }

  /** The pad added word by word, the last carry dropped. */
  function AddPad(h: Words4, s: Words4): Words4 {
    var f0: DWord := h.w0 as int + s.w0 as int;
    var f1: DWord := h.w1 as int + s.w1 as int + f0 / BASE;
    var f2: DWord := h.w2 as int + s.w2 as int + f1 / BASE;
    var f3: DWord := h.w3 as int + s.w3 as int + f2 / BASE;
    Words4(f0 % BASE, f1 % BASE, f2 % BASE, f3 % BASE)
  }

  lemma CutWord(x: nat)
    ensures x == BASE * (x / BASE) + x % BASE && 0 <= x % BASE < BASE && 0 <= x / BASE
  {
  }

  lemma AddPadIs(h: Words4, s: Words4)
    ensures var f0 := h.w0 as int + s.w0 as int;
            var f1 := h.w1 as int + s.w1 as int + f0 / BASE;
            var f2 := h.w2 as int + s.w2 as int + f1 / BASE;
            var f3 := h.w3 as int + s.w3 as int + f2 / BASE;
            AddPad(h, s) == Words4(f0 % BASE, f1 % BASE, f2 % BASE, f3 % BASE)
  {
  }

  lemma AddPadSum(h: Words4, s: Words4) returns (top: nat)
    ensures h.Value() + s.Value() == AddPad(h, s).Value() + TWO128 * top
  {
    hide AddPad, Words4.Value;
    AddPadIs(h, s);
    var f0 := h.w0 as int + s.w0 as int;
    var f1 := h.w1 as int + s.w1 as int + f0 / BASE;
    var f2 := h.w2 as int + s.w2 as int + f1 / BASE;
    var f3 := h.w3 as int + s.w3 as int + f2 / BASE;
    CutWord(f0);
    CutWord(f1);
    CutWord(f2);
    CutWord(f3);
    top := f3 / BASE;
    PadTerms(h, s, f0 / BASE, f1 / BASE, f2 / BASE, top, AddPad(h, s));
  }

  lemma PadTerms(h: Words4, s: Words4, c0: nat, c1: nat, c2: nat, c3: nat, sum: Words4)
    requires h.w0 as int + s.w0 as int == BASE * c0 + sum.w0 as int
    requires h.w1 as int + s.w1 as int + c0 == BASE * c1 + sum.w1 as int
    requires h.w2 as int + s.w2 as int + c1 == BASE * c2 + sum.w2 as int
    requires h.w3 as int + s.w3 as int + c2 == BASE * c3 + sum.w3 as int
    ensures h.Value() + s.Value() == sum.Value() + TWO128 * c3
  {
  }

  lemma AddPadValue(h: Words4, s: Words4)
    ensures AddPad(h, s).Value() == (h.Value() + s.Value()) % TWO128
  {
    hide AddPad, Words4.Value;
    var top := AddPadSum(h, s);
    WordsBound(AddPad(h, s));
    DivModUnique(h.Value() + s.Value(), TWO128, top, AddPad(h, s).Value());
  }

  lemma WordsBound(h: Words4)
    ensures h.Value() < TWO128
  {
  }

  function Pad(key: seq<Byte>): Words4
    requires |key| == 32
  {
    Words4(Read32(key, 16), Read32(key, 20), Read32(key, 24), Read32(key, 28))
  }

  function Serialize(w: Words4): (tag: seq<Byte>)
    ensures |tag| == 16
  {
    Bytes32(w.w0) + Bytes32(w.w1) + Bytes32(w.w2) + Bytes32(w.w3)
  }

  lemma SerializeValue(w: Words4)
    ensures Le(Serialize(w)) == w.Value()
  {
    var t := Serialize(w);
    assert t[0..4] == Bytes32(w.w0) && t[4..8] == Bytes32(w.w1) && t[8..12] == Bytes32(w.w2) &&
           t[12..16] == Bytes32(w.w3);
    Word4At(t, 0, w.w0);
    Word4At(t, 4, w.w1);
    Word4At(t, 8, w.w2);
    Word4At(t, 12, w.w3);
    LeWords(t);
  }

  lemma Word4At(t: seq<Byte>, at: nat, w: Word)
    requires at + 4 <= |t| && t[at..at + 4] == Bytes32(w)
    ensures Read32(t, at) == w
  {
    Bytes32Read(w);
    var b := Bytes32(w);
    assert t[at] == b[0] && t[at + 1] == b[1] && t[at + 2] == b[2] && t[at + 3] == b[3];
  }

  lemma PadValue(key: seq<Byte>)
    requires |key| == 32
    ensures Pad(key).Value() == Le(key[16..])
  {
    LeWords(key[16..]);
    var b := key[16..];
    assert Read32(b, 0) == Read32(key, 16) && Read32(b, 4) == Read32(key, 20);
    assert Read32(b, 8) == Read32(key, 24) && Read32(b, 12) == Read32(key, 28);
  }

  /** From the accumulator and the pad to the sixteen bytes of the tag. */
  function Tag(h: Limbs5, s: Words4): (tag: seq<Byte>)
    requires h.Carried()
    ensures |tag| == 16
  {
    SettleCorrect(h);
    CanonicalCorrect(Settle(h));
    Serialize(AddPad(Pack(Canonical(Settle(h))), s))
  }

  /** The tag is the accumulator's residue plus the pad, modulo 2^128. */
  lemma TagCorrect(h: Limbs5, s: Words4)
    requires h.Carried()
    ensures Le(Tag(h, s)) == (h.Value() % PRIME + s.Value()) % TWO128
  {
    hide Settle, Canonical, Pack, AddPad, Serialize, Le, Limbs5.Value, Words4.Value, Congruent;
    SettleCorrect(h);
    var settled := Settle(h);
    CongruentResidue(settled.Value(), h.Value(), PRIME);
    CanonicalCorrect(settled);
    var c := Canonical(settled);
    PackValue(c);
    AddPadValue(Pack(c), s);
    SerializeValue(AddPad(Pack(c), s));
    TwiceReduced(c.Value(), s.Value());
  }

  lemma TwiceReduced(x: nat, y: nat)
    ensures (x % TWO128 + y) % TWO128 == (x + y) % TWO128
  {
    CongruentMod(x, TWO128);
    CongruentFrom(y, y, TWO128, 0);
    CongruentAdd(x % TWO128, x, y, y, TWO128);
    CongruentResidue(x % TWO128 + y, x + y, TWO128);
  }
}
