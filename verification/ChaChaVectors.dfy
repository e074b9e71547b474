/** kernel/aead.c: the block function on the machine's own words, and the two vectors of RFC 8439 that pin it. */
module ChaChaVectors {
  import opened Words
  import opened LittleEndian
  import opened ChaCha
  import opened MachineWords

  // ---- Rounds on 32-bit words --------------------------------------------------

  datatype Four = Four(a: bv32, b: bv32, c: bv32, d: bv32)

  /** Sixteen words, column by column. */
  datatype Sixteen = Sixteen(p: Four, q: Four, r: Four, s: Four)

  /** A step of section 2.1 of RFC 8439 by each of its rotations. */
  function Mix16(x: bv32, y: bv32): bv32 {
    (x ^ y).RotateLeft(16)
  }

  function Mix12(x: bv32, y: bv32): bv32 {
    (x ^ y).RotateLeft(12)
  }

  function Mix8(x: bv32, y: bv32): bv32 {
    (x ^ y).RotateLeft(8)
  }

  function Mix7(x: bv32, y: bv32): bv32 {
    (x ^ y).RotateLeft(7)
  }

  /** The first two steps of a quarter round. */
  function MachineFirst(w: Four): Four {
    var a := Plus(w.a, w.b);
    var d := Mix16(w.d, a);
    var c := Plus(w.c, d);
    Four(a, Mix12(w.b, c), c, d)
  }

  /** The other two. */
  function MachineSecond(w: Four): Four {
    var a := Plus(w.a, w.b);
    var d := Mix8(w.d, a);
    var c := Plus(w.c, d);
    Four(a, Mix7(w.b, c), c, d)
  }

  function MachineQuarter(w: Four): Four {
    MachineSecond(MachineFirst(w))
  }

  function EachColumn(w: Sixteen): Sixteen {
    Sixteen(MachineQuarter(w.p), MachineQuarter(w.q), MachineQuarter(w.r), MachineQuarter(w.s))
  }

  /** Row k turned left by k places makes columns of the diagonals. */
  function Turned(w: Sixteen): Sixteen {
    Sixteen(Four(w.p.a, w.q.b, w.r.c, w.s.d), Four(w.q.a, w.r.b, w.s.c, w.p.d),
            Four(w.r.a, w.s.b, w.p.c, w.q.d), Four(w.s.a, w.p.b, w.q.c, w.r.d))
  }

  function TurnedBack(w: Sixteen): Sixteen {
    Sixteen(Four(w.p.a, w.s.b, w.r.c, w.q.d), Four(w.q.a, w.p.b, w.s.c, w.r.d),
            Four(w.r.a, w.q.b, w.p.c, w.s.d), Four(w.s.a, w.r.b, w.q.c, w.p.d))
  }

  function MachineDouble(w: Sixteen): Sixteen {
    TurnedBack(EachColumn(Turned(EachColumn(w))))
  }

  // ---- The words of the model are those -----------------------------------------

  function FourOf(q: Quad): Four {
    Four(Counted(q.a), Counted(q.b), Counted(q.c), Counted(q.d))
  }

  function SixteenOf(s: State): Sixteen {
    Sixteen(FourOf(Quad(s[0], s[4], s[8], s[12])), FourOf(Quad(s[1], s[5], s[9], s[13])),
            FourOf(Quad(s[2], s[6], s[10], s[14])), FourOf(Quad(s[3], s[7], s[11], s[15])))
  }

  lemma QuarterIsMachine(q: Quad)
    ensures FourOf(QuarterWords(q)) == MachineQuarter(FourOf(q))
  {
    hide FourOf, HalfQuarter, MachineFirst, MachineSecond;
    FirstIsMachine(q);
    SecondIsMachine(HalfQuarter(q, By16, By12));
  }

  lemma FirstIsMachine(q: Quad)
    ensures FourOf(HalfQuarter(q, By16, By12)) == MachineFirst(FourOf(q))
  {
    hide Counted, Rotate, XorWord, AddWord, Plus, Mix16, Mix12;
    var a := AddWord(q.a, q.b);
    var d := Rotate(XorWord(q.d, a), By16);
    var c := AddWord(q.c, d);
    Added(q.a, q.b);
    Mixed16(q.d, a);
    Added(q.c, d);
    Mixed12(q.b, c);
  }

  lemma SecondIsMachine(q: Quad)
    ensures FourOf(HalfQuarter(q, By8, By7)) == MachineSecond(FourOf(q))
  {
    hide Counted, Rotate, XorWord, AddWord, Plus, Mix8, Mix7;
    var a := AddWord(q.a, q.b);
    var d := Rotate(XorWord(q.d, a), By8);
    var c := AddWord(q.c, d);
    Added(q.a, q.b);
    Mixed8(q.d, a);
    Added(q.c, d);
    Mixed7(q.b, c);
  }

  lemma Added(x: Word, y: Word)
    ensures Counted(AddWord(x, y)) == Plus(Counted(x), Counted(y))
  {
    hide Counted, AddWord;
    AddIsMachine(x, y);
  }

  lemma XorRotated(x: Word, y: Word, r: Rotation)
    ensures Counted(Rotate(XorWord(x, y), r)) == MachineRotate(Counted(x) ^ Counted(y), r)
  {
    hide Counted, Rotate, MachineRotate;
    XorIsMachine(x, y);
    RotateIsMachine(XorWord(x, y), r);
  }

  lemma Mixed16(x: Word, y: Word)
    ensures Counted(Rotate(XorWord(x, y), By16)) == Mix16(Counted(x), Counted(y))
  {
    hide Counted, Rotate, XorWord;
    XorRotated(x, y, By16);
  }

  lemma Mixed12(x: Word, y: Word)
    ensures Counted(Rotate(XorWord(x, y), By12)) == Mix12(Counted(x), Counted(y))
  {
    hide Counted, Rotate, XorWord;
    XorRotated(x, y, By12);
  }

  lemma Mixed8(x: Word, y: Word)
    ensures Counted(Rotate(XorWord(x, y), By8)) == Mix8(Counted(x), Counted(y))
  {
    hide Counted, Rotate, XorWord;
    XorRotated(x, y, By8);
  }

  lemma Mixed7(x: Word, y: Word)
    ensures Counted(Rotate(XorWord(x, y), By7)) == Mix7(Counted(x), Counted(y))
  {
    hide Counted, Rotate, XorWord;
    XorRotated(x, y, By7);
  }

  // ---- Whole states -----------------------------------------------------------

  lemma ColumnsAreMachine(s: State)
    ensures SixteenOf(Columns(s)) == EachColumn(SixteenOf(s))
  {
    hide FourOf, MachineQuarter, QuarterWords;
    QuarterIsMachine(Quad(s[0], s[4], s[8], s[12]));
    QuarterIsMachine(Quad(s[1], s[5], s[9], s[13]));
    QuarterIsMachine(Quad(s[2], s[6], s[10], s[14]));
    QuarterIsMachine(Quad(s[3], s[7], s[11], s[15]));
    ColumnsParts(s);
  }

  /** The four quarter rounds of a column round work on one column each. */
  lemma ColumnsParts(s: State)
    ensures var t := Columns(s);
            Quad(t[0], t[4], t[8], t[12]) == QuarterWords(Quad(s[0], s[4], s[8], s[12])) &&
            Quad(t[1], t[5], t[9], t[13]) == QuarterWords(Quad(s[1], s[5], s[9], s[13])) &&
            Quad(t[2], t[6], t[10], t[14]) == QuarterWords(Quad(s[2], s[6], s[10], s[14])) &&
            Quad(t[3], t[7], t[11], t[15]) == QuarterWords(Quad(s[3], s[7], s[11], s[15]))
  {
    hide QuarterWords;
  }

  lemma DiagonalsParts(s: State)
    ensures var t := Diagonals(s);
            Quad(t[0], t[5], t[10], t[15]) == QuarterWords(Quad(s[0], s[5], s[10], s[15])) &&
            Quad(t[1], t[6], t[11], t[12]) == QuarterWords(Quad(s[1], s[6], s[11], s[12])) &&
            Quad(t[2], t[7], t[8], t[13]) == QuarterWords(Quad(s[2], s[7], s[8], s[13])) &&
            Quad(t[3], t[4], t[9], t[14]) == QuarterWords(Quad(s[3], s[4], s[9], s[14]))
  {
    hide QuarterWords;
  }

  lemma DiagonalsAreMachine(s: State)
    ensures SixteenOf(Diagonals(s)) == TurnedBack(EachColumn(Turned(SixteenOf(s))))
  {
    hide Counted, MachineQuarter, QuarterWords, Diagonals;
    QuarterIsMachine(Quad(s[0], s[5], s[10], s[15]));
    QuarterIsMachine(Quad(s[1], s[6], s[11], s[12]));
    QuarterIsMachine(Quad(s[2], s[7], s[8], s[13]));
    QuarterIsMachine(Quad(s[3], s[4], s[9], s[14]));
    DiagonalsParts(s);
  }

  lemma DoubleIsMachine(s: State)
    ensures SixteenOf(Diagonals(Columns(s))) == MachineDouble(SixteenOf(s))
  {
    hide SixteenOf, EachColumn, Turned, TurnedBack, Diagonals, Columns;
    ColumnsAreMachine(s);
    DiagonalsAreMachine(Columns(s));
  }

  function MachinePair(w: Sixteen): Sixteen {
    MachineDouble(MachineDouble(w))
  }

  lemma PairIsMachine(s: State, n: nat)
    ensures SixteenOf(Rounds(s, n + 2)) == MachinePair(SixteenOf(Rounds(s, n)))
  {
    hide SixteenOf, MachineDouble, Rounds;
    OneRound(s, n);
    OneRound(s, n + 1);
  }

  lemma OneRound(s: State, n: nat)
    ensures SixteenOf(Rounds(s, n + 1)) == MachineDouble(SixteenOf(Rounds(s, n)))
  {
    hide SixteenOf, MachineDouble, Diagonals, Columns;
    DoubleIsMachine(Rounds(s, n));
  }

  // ---- Words and the numbers they are written as ------------------------------------

  function QuadOf(w: Four): Quad {
    Quad(NumberOf(w.a), NumberOf(w.b), NumberOf(w.c), NumberOf(w.d))
  }

  lemma OneQuad(q: Quad, w: Four)
    ensures FourOf(q) == w <==> q == QuadOf(w)
  {
    hide Counted, NumberOf;
    NumberCounted(w.a);
    NumberCounted(w.b);
    NumberCounted(w.c);
    NumberCounted(w.d);
    if FourOf(q) == w {
      OneNumber(q.a, NumberOf(w.a));
      OneNumber(q.b, NumberOf(w.b));
      OneNumber(q.c, NumberOf(w.c));
      OneNumber(q.d, NumberOf(w.d));
    }
  }

  /** Column k of a state. */
  function ColumnOf(s: State, k: nat): Quad
    requires k < 4
  {
    Quad(s[k], s[k + 4], s[k + 8], s[k + 12])
  }

  lemma OneState(s: State, w: Sixteen)
    ensures SixteenOf(s) == w <==>
            ColumnOf(s, 0) == QuadOf(w.p) && ColumnOf(s, 1) == QuadOf(w.q) && ColumnOf(s, 2) == QuadOf(w.r) &&
            ColumnOf(s, 3) == QuadOf(w.s)
  {
    hide FourOf, QuadOf;
    OneQuad(ColumnOf(s, 0), w.p);
    OneQuad(ColumnOf(s, 1), w.q);
    OneQuad(ColumnOf(s, 2), w.r);
    OneQuad(ColumnOf(s, 3), w.s);
  }

  // ---- Section 2.1.1 of RFC 8439 ----------------------------------------------------

  lemma QuarterNumbers()
    ensures NumberOf(0x11111111) == 0x11111111 && NumberOf(0x01020304) == 0x01020304 &&
            NumberOf(0x9b8d6f43) == 0x9b8d6f43 && NumberOf(0x01234567) == 0x01234567 &&
            NumberOf(0xea2a92f4) == 0xea2a92f4 && NumberOf(0xcb1cf8ce) == 0xcb1cf8ce &&
            NumberOf(0x4581472e) == 0x4581472e && NumberOf(0x5881c4bb) == 0x5881c4bb
  {
    hide Digit;
    DigitTable();
  }

  lemma QuarterComputed()
    ensures MachineQuarter(Four(0x11111111, 0x01020304, 0x9b8d6f43, 0x01234567))
         == Four(0xea2a92f4, 0xcb1cf8ce, 0x4581472e, 0x5881c4bb)
  {
  }

  /** The test vector of the quarter round. */
  lemma QuarterVector()
    ensures QuarterWords(Quad(0x11111111, 0x01020304, 0x9b8d6f43, 0x01234567))
         == Quad(0xea2a92f4, 0xcb1cf8ce, 0x4581472e, 0x5881c4bb)
  {
    hide QuarterWords, MachineQuarter, FourOf, NumberOf;
    var q := Quad(0x11111111, 0x01020304, 0x9b8d6f43, 0x01234567);
    var w := Four(0x11111111, 0x01020304, 0x9b8d6f43, 0x01234567);
    QuarterNumbers();
    OneQuad(q, w);
    QuarterIsMachine(q);
    QuarterComputed();
    OneQuad(QuarterWords(q), MachineQuarter(w));
  }

  // ---- Section 2.3.2 of RFC 8439 ----------------------------------------------------

  lemma RoundsTwo()
    ensures MachinePair(Sixteen(Four(0x61707865, 0x03020100, 0x13121110, 0x00000001),
                                Four(0x3320646e, 0x07060504, 0x17161514, 0x09000000),
                                Four(0x79622d32, 0x0b0a0908, 0x1b1a1918, 0x4a000000),
                                Four(0x6b206574, 0x0f0e0d0c, 0x1f1e1d1c, 0x00000000)))
         == Sixteen(Four(0xcf1a7584, 0x901d2f40, 0x2dafb216, 0x10aef18d),
                    Four(0x048927ec, 0x7974b81c, 0x27c89cd6, 0x16218765),
                    Four(0x54051fda, 0x378dcfb4, 0xcd3c9aa0, 0x68f76705),
                    Four(0xc244ff28, 0xcd47fd0e, 0x79fc89c7, 0x04d6ee22))
  {
  }

  lemma RoundsFour()
    ensures MachinePair(Sixteen(Four(0xcf1a7584, 0x901d2f40, 0x2dafb216, 0x10aef18d),
                                Four(0x048927ec, 0x7974b81c, 0x27c89cd6, 0x16218765),
                                Four(0x54051fda, 0x378dcfb4, 0xcd3c9aa0, 0x68f76705),
                                Four(0xc244ff28, 0xcd47fd0e, 0x79fc89c7, 0x04d6ee22)))
         == Sixteen(Four(0x9a2d3589, 0x0a1bffc6, 0xe46c6354, 0x2687d476),
                    Four(0x0b23fc4e, 0x5e5993f7, 0xc9503229, 0x54e65231),
                    Four(0x40af3b6b, 0x9904c2e7, 0x04fef5aa, 0x3594ffc5),
                    Four(0xceea8144, 0x0d334718, 0xf8933f72, 0x2b3bb2ca))
  {
  }

  lemma RoundsSix()
    ensures MachinePair(Sixteen(Four(0x9a2d3589, 0x0a1bffc6, 0xe46c6354, 0x2687d476),
                                Four(0x0b23fc4e, 0x5e5993f7, 0xc9503229, 0x54e65231),
                                Four(0x40af3b6b, 0x9904c2e7, 0x04fef5aa, 0x3594ffc5),
                                Four(0xceea8144, 0x0d334718, 0xf8933f72, 0x2b3bb2ca)))
         == Sixteen(Four(0x04a3131a, 0x36cc86c7, 0x07d13aca, 0x33b6686d),
                    Four(0x66176309, 0xbf8a4465, 0xeb0be9af, 0x795cc671),
                    Four(0x0415bab1, 0xf77dd720, 0x61599491, 0xc0049972),
                    Four(0x61b880a2, 0xfc0bdc90, 0x918512dc, 0xa0a81bde))
  {
  }

  lemma RoundsEight()
    ensures MachinePair(Sixteen(Four(0x04a3131a, 0x36cc86c7, 0x07d13aca, 0x33b6686d),
                                Four(0x66176309, 0xbf8a4465, 0xeb0be9af, 0x795cc671),
                                Four(0x0415bab1, 0xf77dd720, 0x61599491, 0xc0049972),
                                Four(0x61b880a2, 0xfc0bdc90, 0x918512dc, 0xa0a81bde)))
         == Sixteen(Four(0xca5c85dd, 0x982563f8, 0x1c25931a, 0xa9b751fb),
                    Four(0x93a4f90e, 0x712aa9ff, 0x5180bb10, 0x382f3ce2),
                    Four(0xd9f0df58, 0x279a61e8, 0x779c27e7, 0x8db1757d),
                    Four(0x26dd82dd, 0x970f72bd, 0x54077e08, 0xcc38080b))
  {
  }

  lemma RoundsTen()
    ensures MachinePair(Sixteen(Four(0xca5c85dd, 0x982563f8, 0x1c25931a, 0xa9b751fb),
                                Four(0x93a4f90e, 0x712aa9ff, 0x5180bb10, 0x382f3ce2),
                                Four(0xd9f0df58, 0x279a61e8, 0x779c27e7, 0x8db1757d),
                                Four(0x26dd82dd, 0x970f72bd, 0x54077e08, 0xcc38080b)))
         == Sixteen(Four(0x837778ab, 0xc4f2d0c7, 0x335271c2, 0xd19c12b4),
                    Four(0xe238d763, 0xfc62bb2f, 0xf29489f3, 0xb04e16de),
                    Four(0xa67ae21e, 0x8fa018fc, 0xeabda8fc, 0x9e83d0cb),
                    Four(0x5950bb2f, 0x3f5ec7b7, 0x82e46ebd, 0x4e3c50a2))
  {
  }

  lemma TenComputed(s: State)
    requires SixteenOf(s) == Sixteen(Four(0x61707865, 0x03020100, 0x13121110, 0x00000001),
                                  Four(0x3320646e, 0x07060504, 0x17161514, 0x09000000),
                                  Four(0x79622d32, 0x0b0a0908, 0x1b1a1918, 0x4a000000),
                                  Four(0x6b206574, 0x0f0e0d0c, 0x1f1e1d1c, 0x00000000))
    ensures SixteenOf(Rounds(s, 10))
         == Sixteen(Four(0x837778ab, 0xc4f2d0c7, 0x335271c2, 0xd19c12b4),
                    Four(0xe238d763, 0xfc62bb2f, 0xf29489f3, 0xb04e16de),
                    Four(0xa67ae21e, 0x8fa018fc, 0xeabda8fc, 0x9e83d0cb),
                    Four(0x5950bb2f, 0x3f5ec7b7, 0x82e46ebd, 0x4e3c50a2))
  {
    hide SixteenOf, MachinePair, Rounds;
    NoRounds(s);
    PairIsMachine(s, 0);
    PairIsMachine(s, 2);
    PairIsMachine(s, 4);
    PairIsMachine(s, 6);
    PairIsMachine(s, 8);
    RoundsTwo();
    RoundsFour();
    RoundsSix();
    RoundsEight();
    RoundsTen();
  }

  lemma NoRounds(s: State)
    ensures Rounds(s, 0) == s
  {
  }

  /** The words a block is made of: the rounds' result added to the input. */
  function BlockWords(s: State): State {
    seq(16, i requires 0 <= i < 16 => AddWord(Rounds(s, 10)[i], s[i]))
  }

  function FourSum(v: Four, w: Four): Four {
    Four(Plus(v.a, w.a), Plus(v.b, w.b), Plus(v.c, w.c), Plus(v.d, w.d))
  }

  lemma QuadAdded(p: Quad, q: Quad)
    ensures FourOf(Quad(AddWord(p.a, q.a), AddWord(p.b, q.b), AddWord(p.c, q.c), AddWord(p.d, q.d)))
         == FourSum(FourOf(p), FourOf(q))
  {
    hide Counted, AddWord, Plus;
    Added(p.a, q.a);
    Added(p.b, q.b);
    Added(p.c, q.c);
    Added(p.d, q.d);
  }

  lemma ColumnAdded(s: State, k: nat)
    requires k < 4
    ensures FourOf(ColumnOf(BlockWords(s), k)) == FourSum(FourOf(ColumnOf(Rounds(s, 10), k)), FourOf(ColumnOf(s, k)))
  {
    hide FourOf, FourSum, AddWord, Rounds;
    QuadAdded(ColumnOf(Rounds(s, 10), k), ColumnOf(s, k));
  }

  lemma WordsComputed(s: State)
    requires SixteenOf(s) == Sixteen(Four(0x61707865, 0x03020100, 0x13121110, 0x00000001),
                                  Four(0x3320646e, 0x07060504, 0x17161514, 0x09000000),
                                  Four(0x79622d32, 0x0b0a0908, 0x1b1a1918, 0x4a000000),
                                  Four(0x6b206574, 0x0f0e0d0c, 0x1f1e1d1c, 0x00000000))
    ensures SixteenOf(BlockWords(s))
         == Sixteen(Four(0xe4e7f110, 0xc7f4d1c7, 0x466482d2, 0xd19c12b5),
                    Four(0x15593bd1, 0x0368c033, 0x09aa9f07, 0xb94e16de),
                    Four(0x1fdd0f50, 0x9aaa2204, 0x05d7c214, 0xe883d0cb),
                    Four(0xc47120a3, 0x4e6cd4c3, 0xa2028bd9, 0x4e3c50a2))
  {
    hide FourOf, Rounds, BlockWords;
    TenComputed(s);
    ColumnAdded(s, 0);
    ColumnAdded(s, 1);
    ColumnAdded(s, 2);
    ColumnAdded(s, 3);
  }

  lemma InputNumbers()
    ensures NumberOf(0x61707865) == 0x61707865 && NumberOf(0x3320646e) == 0x3320646e &&
            NumberOf(0x79622d32) == 0x79622d32 && NumberOf(0x6b206574) == 0x6b206574 &&
            NumberOf(0x03020100) == 0x03020100 && NumberOf(0x07060504) == 0x07060504 &&
            NumberOf(0x0b0a0908) == 0x0b0a0908 && NumberOf(0x0f0e0d0c) == 0x0f0e0d0c &&
            NumberOf(0x13121110) == 0x13121110 && NumberOf(0x17161514) == 0x17161514 &&
            NumberOf(0x1b1a1918) == 0x1b1a1918 && NumberOf(0x1f1e1d1c) == 0x1f1e1d1c &&
            NumberOf(0x00000001) == 0x00000001 && NumberOf(0x09000000) == 0x09000000 &&
            NumberOf(0x4a000000) == 0x4a000000 && NumberOf(0x00000000) == 0x00000000
  {
    hide Digit;
    DigitTable();
  }

  lemma OutputNumbers()
    ensures NumberOf(0xe4e7f110) == 0xe4e7f110 && NumberOf(0x15593bd1) == 0x15593bd1 &&
            NumberOf(0x1fdd0f50) == 0x1fdd0f50 && NumberOf(0xc47120a3) == 0xc47120a3 &&
            NumberOf(0xc7f4d1c7) == 0xc7f4d1c7 && NumberOf(0x0368c033) == 0x0368c033 &&
            NumberOf(0x9aaa2204) == 0x9aaa2204 && NumberOf(0x4e6cd4c3) == 0x4e6cd4c3 &&
            NumberOf(0x466482d2) == 0x466482d2 && NumberOf(0x09aa9f07) == 0x09aa9f07 &&
            NumberOf(0x05d7c214) == 0x05d7c214 && NumberOf(0xa2028bd9) == 0xa2028bd9 &&
            NumberOf(0xd19c12b5) == 0xd19c12b5 && NumberOf(0xb94e16de) == 0xb94e16de &&
            NumberOf(0xe883d0cb) == 0xe883d0cb && NumberOf(0x4e3c50a2) == 0x4e3c50a2
  {
    hide Digit;
    DigitTable();
  }

  lemma StateComputed(key: Key, nonce: Nonce)
    requires (forall i :: 0 <= i < 32 ==> key[i] == i) && nonce == [0, 0, 0, 9, 0, 0, 0, 0x4a, 0, 0, 0, 0]
    ensures StateOf(key, nonce, 1)
         == [0x61707865, 0x3320646e, 0x79622d32, 0x6b206574, 0x03020100, 0x07060504, 0x0b0a0908, 0x0f0e0d0c,
             0x13121110, 0x17161514, 0x1b1a1918, 0x1f1e1d1c, 0x00000001, 0x09000000, 0x4a000000, 0x00000000]
  {
  }

  lemma ColumnsGive(s: State, t: State)
    requires ColumnOf(s, 0) == ColumnOf(t, 0) && ColumnOf(s, 1) == ColumnOf(t, 1) && ColumnOf(s, 2) == ColumnOf(t, 2) &&
             ColumnOf(s, 3) == ColumnOf(t, 3)
    ensures s == t
  {
    assert forall i :: 0 <= i < 16 ==> s[i] == t[i];
  }

  lemma InputWords(s: State)
    requires s == [0x61707865, 0x3320646e, 0x79622d32, 0x6b206574, 0x03020100, 0x07060504, 0x0b0a0908, 0x0f0e0d0c,
                  0x13121110, 0x17161514, 0x1b1a1918, 0x1f1e1d1c, 0x00000001, 0x09000000, 0x4a000000, 0x00000000]
    ensures SixteenOf(s) == Sixteen(Four(0x61707865, 0x03020100, 0x13121110, 0x00000001),
                                 Four(0x3320646e, 0x07060504, 0x17161514, 0x09000000),
                                 Four(0x79622d32, 0x0b0a0908, 0x1b1a1918, 0x4a000000),
                                 Four(0x6b206574, 0x0f0e0d0c, 0x1f1e1d1c, 0x00000000))
  {
    hide SixteenOf, NumberOf;
    InputNumbers();
    OneState(s, Sixteen(Four(0x61707865, 0x03020100, 0x13121110, 0x00000001),
                        Four(0x3320646e, 0x07060504, 0x17161514, 0x09000000),
                        Four(0x79622d32, 0x0b0a0908, 0x1b1a1918, 0x4a000000),
                        Four(0x6b206574, 0x0f0e0d0c, 0x1f1e1d1c, 0x00000000)));
  }

  lemma OutputWords(s: State)
    requires SixteenOf(s) == Sixteen(Four(0xe4e7f110, 0xc7f4d1c7, 0x466482d2, 0xd19c12b5),
                                  Four(0x15593bd1, 0x0368c033, 0x09aa9f07, 0xb94e16de),
                                  Four(0x1fdd0f50, 0x9aaa2204, 0x05d7c214, 0xe883d0cb),
                                  Four(0xc47120a3, 0x4e6cd4c3, 0xa2028bd9, 0x4e3c50a2))
    ensures s == [0xe4e7f110, 0x15593bd1, 0x1fdd0f50, 0xc47120a3, 0xc7f4d1c7, 0x0368c033, 0x9aaa2204, 0x4e6cd4c3,
                  0x466482d2, 0x09aa9f07, 0x05d7c214, 0xa2028bd9, 0xd19c12b5, 0xb94e16de, 0xe883d0cb, 0x4e3c50a2]
  {
    hide SixteenOf, NumberOf;
    OutputNumbers();
    OneState(s, SixteenOf(s));
    ColumnsGive(s, [0xe4e7f110, 0x15593bd1, 0x1fdd0f50, 0xc47120a3, 0xc7f4d1c7, 0x0368c033, 0x9aaa2204, 0x4e6cd4c3,
                      0x466482d2, 0x09aa9f07, 0x05d7c214, 0xa2028bd9, 0xd19c12b5, 0xb94e16de, 0xe883d0cb, 0x4e3c50a2]);
  }

  lemma StreamOfWords(key: Key, nonce: Nonce, i: nat)
    requires i < 64
    ensures KeyStream(key, nonce, 1, i) == Bytes32(BlockWords(StateOf(key, nonce, 1))[i / 4])[i % 4]
  {
    hide StateOf, AddWord, Bytes32, Rounds;
    assert i / 64 == 0 && i % 64 == i;
  }

  /** The test vector of the block function: sixteen words, and the bytes of the first block of the key stream
      are theirs. */
  lemma BlockVector(key: Key, nonce: Nonce)
    requires (forall i :: 0 <= i < 32 ==> key[i] == i) && nonce == [0, 0, 0, 9, 0, 0, 0, 0x4a, 0, 0, 0, 0]
    ensures BlockWords(StateOf(key, nonce, 1))
         == [0xe4e7f110, 0x15593bd1, 0x1fdd0f50, 0xc47120a3, 0xc7f4d1c7, 0x0368c033, 0x9aaa2204, 0x4e6cd4c3,
             0x466482d2, 0x09aa9f07, 0x05d7c214, 0xa2028bd9, 0xd19c12b5, 0xb94e16de, 0xe883d0cb, 0x4e3c50a2]
    ensures forall i :: 0 <= i < 64 ==>
              KeyStream(key, nonce, 1, i) == Bytes32(BlockWords(StateOf(key, nonce, 1))[i / 4])[i % 4]
  {
    hide StateOf, SixteenOf, BlockWords, KeyStream, Bytes32;
    var s := StateOf(key, nonce, 1);
    StateComputed(key, nonce);
    InputWords(s);
    WordsComputed(s);
    OutputWords(BlockWords(s));
    forall i | 0 <= i < 64
      ensures KeyStream(key, nonce, 1, i) == Bytes32(BlockWords(s)[i / 4])[i % 4]
    {
      StreamOfWords(key, nonce, i);
    }
  }
}
