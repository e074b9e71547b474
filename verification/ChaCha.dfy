/** kernel/aead.c: ChaCha20, section 2.1 to 2.4 of RFC 8439. */
module ChaCha {
  import opened Numbers
  import opened Words
  import opened Bits
  import opened LittleEndian

  type Key = s: seq<Byte> | |s| == 32 witness seq(32, _ => 0)
  type Nonce = s: seq<Byte> | |s| == 12 witness seq(12, _ => 0)
  type State = s: seq<Word> | |s| == 16 witness seq(16, _ => 0)

  // ---- Words ---------------------------------------------------------------

  function AddWord(a: Word, b: Word): Word {
    (a as int + b as int) % BASE
  }

  function SubWord(a: Word, b: Word): Word {
    (a as int - b as int) % BASE
  }

  function XorWord(a: Word, b: Word): (w: Word)
  {
    WordXorBound(a, b);
    Xor(a, b)
  }

  lemma WordXorBound(a: Word, b: Word)
    ensures Xor(a, b) < BASE
  {
    TwoTo32();
    XorBound(a, b, 32);
  }

  lemma TwoTo32()
    ensures Pow(2, 32) == BASE && Pow(2, 16) == 0x1_0000
  {
    assert Pow(2, 8) == 0x100;
    PowAdd(2, 8, 8);
    PowAdd(2, 16, 16);
  }

  /** A rotation is given by the two factors its shifts multiply and divide by. */
  predicate Turn(up: int, down: int) {
    0 < up && 0 < down && up * down == BASE
  }

  /** Cut at the bit a rotation cuts it at, the shifted halves do not overlap. */
  lemma RotationParts(value: Word, up: int, down: int)
    requires Turn(up, down)
    ensures var low, high := value % down, value / down;
            value == down * high + low && 0 <= high < up &&
            (value as int * up) % BASE == up * low && 0 <= up * low && up * low + high < BASE
  {
    DivModFacts(value, down);
    var low, high := value % down, value / down;
    DivBelow(value, down, up);
    if high < 0 {
      MulAway(down, high);
    }
    MulMono(up, low, up, down - 1);
    assert up * (down - 1) == up * down - up;
    assert value as int * up == up * low + (up * down) * high;
    Wrapped(value as int * up, up * low, high);
  }

  lemma Wrapped(x: int, low: int, high: int)
    requires x == low + BASE * high && 0 <= low < BASE
    ensures x % BASE == low
  {
  }

  /** rotate_left, as the source has it: one shift up, one down, or-ed together. */
  function RotateLeft(value: Word, up: int, down: int): (w: Word)
    requires Turn(up, down)
  {
    RotationParts(value, up, down);
    (value as int * up) % BASE + value / down
  }

  /** The halves do not overlap, so the or is the sum RotateLeft takes. */
  lemma RotateLeftIsOr(value: Word, k: nat, down: int)
    requires Turn(Pow(2, k), down)
    ensures 0 <= value / down
    ensures RotateLeft(value, Pow(2, k), down) == Or((value as int * Pow(2, k)) % BASE, value / down)
  {
    RotationParts(value, Pow(2, k), down);
    OrCommutes((value as int * Pow(2, k)) % BASE, value / down);
    OrDisjoint(value / down, (value as int * Pow(2, k)) % BASE, value % down, k);
  }

  lemma {:induction false} OrCommutes(x: nat, y: nat)
    ensures Or(x, y) == Or(y, x)
    decreases x + y
  {
    if x != 0 && y != 0 {
      OrCommutes(x / 2, y / 2);
    }
  }

  /** Rotating by the rest of the word comes back to where it started. */
  lemma RotateBack(value: Word, up: int, down: int)
    requires Turn(up, down)
    ensures Turn(down, up) && RotateLeft(RotateLeft(value, up, down), down, up) == value
  {
    var low, high := value % down, value / down;
    RotationParts(value, up, down);
    var turned := RotateLeft(value, up, down);
    assert down * up == up * down;
    DivModFacts(value, down);
    DivModUnique(turned, up, low, high);
    RotationParts(turned, down, up);
  }

  // ---- The quarter round ---------------------------------------------------

  datatype Quad = Quad(a: Word, b: Word, c: Word, d: Word)

  /** The amounts a quarter round rotates by, and those that undo them. */
  datatype Rotation = By7 | By8 | By12 | By16 {
    function Up(): int {
      match this case By7 => 0x80 case By8 => 0x100 case By12 => 0x1000 case By16 => 0x1_0000
    }

    function Down(): int {
      match this case By7 => 0x200_0000 case By8 => 0x100_0000 case By12 => 0x10_0000 case By16 => 0x1_0000
    }
  }

  function Rotate(value: Word, r: Rotation): Word {
    RotateLeft(value, r.Up(), r.Down())
  }

  function Unrotate(value: Word, r: Rotation): Word {
    RotateLeft(value, r.Down(), r.Up())
  }

  /** Half a quarter round: a += b; d ^= a; d <<<= x; c += d; b ^= c; b <<<= y. */
  function HalfQuarter(q: Quad, x: Rotation, y: Rotation): Quad {
    var a := AddWord(q.a, q.b);
    var d := Rotate(XorWord(q.d, a), x);
    var c := AddWord(q.c, d);
    var b := Rotate(XorWord(q.b, c), y);
    Quad(a, b, c, d)
  }

  function HalfQuarterBack(q: Quad, x: Rotation, y: Rotation): Quad {
    var b := XorWord(Unrotate(q.b, y), q.c);
    var c := SubWord(q.c, q.d);
    var d := XorWord(Unrotate(q.d, x), q.a);
    Quad(SubWord(q.a, b), b, c, d)
  }

  lemma AddBack(a: Word, b: Word)
    ensures SubWord(AddWord(a, b), b) == a
  {
  }

  lemma XorBack(a: Word, b: Word)
    ensures XorWord(XorWord(a, b), b) == a
  {
    XorTwice(a, b);
  }

  lemma HalfQuarterInverts(q: Quad, x: Rotation, y: Rotation)
    ensures HalfQuarterBack(HalfQuarter(q, x, y), x, y) == q
  {
    var a := AddWord(q.a, q.b);
    var d := Rotate(XorWord(q.d, a), x);
    var c := AddWord(q.c, d);
    AddBack(q.a, q.b);
    AddBack(q.c, d);
    RotateBack(XorWord(q.d, a), x.Up(), x.Down());
    RotateBack(XorWord(q.b, c), y.Up(), y.Down());
    XorBack(q.d, a);
    XorBack(q.b, c);
  }

  function QuarterWords(q: Quad): Quad {
    HalfQuarter(HalfQuarter(q, By16, By12), By8, By7)
  }

  function QuarterWordsBack(q: Quad): Quad {
    HalfQuarterBack(HalfQuarterBack(q, By8, By7), By16, By12)
  }

  /** Four distinct places of the state. */
  predicate Places(i: nat, j: nat, k: nat, l: nat) {
    i < 16 && j < 16 && k < 16 && l < 16 && i != j && i != k && i != l && j != k && j != l && k != l
  }

  function Put(s: State, i: nat, j: nat, k: nat, l: nat, q: Quad): State
    requires Places(i, j, k, l)
  {
    s[i := q.a][j := q.b][k := q.c][l := q.d]
  }

  function Quarter(s: State, i: nat, j: nat, k: nat, l: nat): State
    requires Places(i, j, k, l)
  {
    Put(s, i, j, k, l, QuarterWords(Quad(s[i], s[j], s[k], s[l])))
  }

  function QuarterBack(s: State, i: nat, j: nat, k: nat, l: nat): State
    requires Places(i, j, k, l)
  {
    Put(s, i, j, k, l, QuarterWordsBack(Quad(s[i], s[j], s[k], s[l])))
  }

  lemma QuarterInverts(s: State, i: nat, j: nat, k: nat, l: nat)
    requires Places(i, j, k, l)
    ensures QuarterBack(Quarter(s, i, j, k, l), i, j, k, l) == s
  {
    var q := Quad(s[i], s[j], s[k], s[l]);
    var h := HalfQuarter(q, By16, By12);
    HalfQuarterInverts(h, By8, By7);
    HalfQuarterInverts(q, By16, By12);
    var z := QuarterWords(q);
    PutTwice(s, i, j, k, l, z, q);
  }

  lemma PutTwice(s: State, i: nat, j: nat, k: nat, l: nat, z: Quad, q: Quad)
    requires Places(i, j, k, l) && q == Quad(s[i], s[j], s[k], s[l])
    ensures Put(Put(s, i, j, k, l, z), i, j, k, l, q) == s
    ensures var t := Put(s, i, j, k, l, z); z == Quad(t[i], t[j], t[k], t[l])
  {
  }

  // ---- Rounds --------------------------------------------------------------

  function Columns(s: State): State {
    Quarter(Quarter(Quarter(Quarter(s, 0, 4, 8, 12), 1, 5, 9, 13), 2, 6, 10, 14), 3, 7, 11, 15)
  }

  function Diagonals(s: State): State {
    Quarter(Quarter(Quarter(Quarter(s, 0, 5, 10, 15), 1, 6, 11, 12), 2, 7, 8, 13), 3, 4, 9, 14)
  }

  function ColumnsBack(s: State): State {
    QuarterBack(QuarterBack(QuarterBack(QuarterBack(s, 3, 7, 11, 15), 2, 6, 10, 14), 1, 5, 9, 13), 0, 4, 8, 12)
  }

  function DiagonalsBack(s: State): State {
    QuarterBack(QuarterBack(QuarterBack(QuarterBack(s, 3, 4, 9, 14), 2, 7, 8, 13), 1, 6, 11, 12), 0, 5, 10, 15)
  }

  lemma ColumnsInvert(s: State)
    ensures ColumnsBack(Columns(s)) == s
  {
    var a := Quarter(s, 0, 4, 8, 12);
    var b := Quarter(a, 1, 5, 9, 13);
    var c := Quarter(b, 2, 6, 10, 14);
    QuarterInverts(c, 3, 7, 11, 15);
    QuarterInverts(b, 2, 6, 10, 14);
    QuarterInverts(a, 1, 5, 9, 13);
    QuarterInverts(s, 0, 4, 8, 12);
  }

  lemma DiagonalsInvert(s: State)
    ensures DiagonalsBack(Diagonals(s)) == s
  {
    var a := Quarter(s, 0, 5, 10, 15);
    var b := Quarter(a, 1, 6, 11, 12);
    var c := Quarter(b, 2, 7, 8, 13);
    QuarterInverts(c, 3, 4, 9, 14);
    QuarterInverts(b, 2, 7, 8, 13);
    QuarterInverts(a, 1, 6, 11, 12);
    QuarterInverts(s, 0, 5, 10, 15);
  }

  function Rounds(s: State, pairs: nat): State {
    hide Columns, Diagonals;
    if pairs == 0 then s else Diagonals(Columns(Rounds(s, pairs - 1)))
  }

  function RoundsBack(s: State, pairs: nat): State
    decreases pairs
  {
    hide ColumnsBack, DiagonalsBack;
    if pairs == 0 then s else RoundsBack(ColumnsBack(DiagonalsBack(s)), pairs - 1)
  }

  /** The rounds alone could be run backwards; this is what adding the input at the end is there to prevent. */
  lemma {:induction false} RoundsInvert(s: State, pairs: nat)
    ensures RoundsBack(Rounds(s, pairs), pairs) == s
  {
    hide Columns, Diagonals, ColumnsBack, DiagonalsBack;
    if pairs > 0 {
      var t := Rounds(s, pairs - 1);
      DiagonalsInvert(Columns(t));
      ColumnsInvert(t);
      RoundsInvert(s, pairs - 1);
    }
  }

  /** QUARTER_ROUND on four words of the state. */
  method QuarterRound(state: array<Word>, i: nat, j: nat, k: nat, l: nat)
    requires state.Length == 16 && Places(i, j, k, l)
    modifies state
    ensures state[..] == Quarter(old(state[..]), i, j, k, l)
  {
    var a, b, c, d := state[i], state[j], state[k], state[l];
    a := AddWord(a, b);
    d := Rotate(XorWord(d, a), By16);
    c := AddWord(c, d);
    b := Rotate(XorWord(b, c), By12);
    a := AddWord(a, b);
    d := Rotate(XorWord(d, a), By8);
    c := AddWord(c, d);
    b := Rotate(XorWord(b, c), By7);
    state[i], state[j], state[k], state[l] := a, b, c, d;
    assert state[..] == Put(old(state[..]), i, j, k, l, Quad(a, b, c, d));
  }

  method DoubleRound(state: array<Word>)
    requires state.Length == 16
    modifies state
    ensures state[..] == Diagonals(Columns(old(state[..])))
  {
    QuarterRound(state, 0, 4, 8, 12);
    QuarterRound(state, 1, 5, 9, 13);
    QuarterRound(state, 2, 6, 10, 14);
    QuarterRound(state, 3, 7, 11, 15);
    QuarterRound(state, 0, 5, 10, 15);
    QuarterRound(state, 1, 6, 11, 12);
    QuarterRound(state, 2, 7, 8, 13);
    QuarterRound(state, 3, 4, 9, 14);
  }

  /** Byte i of a key stream block: of the word i / 4 of the rounds' result added to the input. */
  function BlockByte(input: State, i: nat): Byte
    requires i < 64
  {
    Bytes32(AddWord(Rounds(input, 10)[i / 4], input[i / 4]))[i % 4]
  }

  method Block(input: array<Word>, out: array<Byte>)
    requires input.Length == 16 && out.Length == 64
    modifies out
    ensures forall i :: 0 <= i < 64 ==> out[i] == BlockByte(input[..], i)
  {
    hide Columns, Diagonals, AddWord, Bytes32;
    var state := new Word[16](i requires 0 <= i < 16 reads input => input[i]);
    ghost var start: State := input[..];
    assert state[..] == start;
    for round := 0 to 10
      modifies state
      invariant state[..] == Rounds(start, round)
    {
      DoubleRound(state);
    }
    for at := 0 to 16
      modifies out
      invariant forall i :: 0 <= i < 4 * at ==> out[i] == BlockByte(start, i)
    {
      var word := Bytes32(AddWord(state[at], input[at]));
      out[4 * at], out[4 * at + 1], out[4 * at + 2], out[4 * at + 3] := word[0], word[1], word[2], word[3];
    }
  }

  /** chacha_state: the constant, the key, the block counter and the nonce. */
  function StateOf(key: Key, nonce: Nonce, counter: Word): State {
    [0x61707865, 0x3320646e, 0x79622d32, 0x6b206574] +
    seq(8, i requires 0 <= i < 8 => Read32(key, 4 * i)) + [counter] +
    seq(3, i requires 0 <= i < 3 => Read32(nonce, 4 * i))
  }

  method MakeState(key: Key, nonce: Nonce, counter: Word) returns (state: array<Word>)
    ensures fresh(state) && state.Length == 16 && state[..] == StateOf(key, nonce, counter)
  {
    state := new Word[16];
    state[0], state[1], state[2], state[3] := 0x61707865, 0x3320646e, 0x79622d32, 0x6b206574;
    for at := 0 to 8
      invariant forall i :: 0 <= i < 4 ==> state[i] == StateOf(key, nonce, counter)[i]
      invariant forall i :: 0 <= i < at ==> state[4 + i] == Read32(key, 4 * i)
    {
      state[4 + at] := Read32(key, 4 * at);
    }
    state[12] := counter;
    for at := 0 to 3
      invariant forall i :: 0 <= i < 13 ==> state[i] == StateOf(key, nonce, counter)[i]
      invariant forall i :: 0 <= i < at ==> state[13 + i] == Read32(nonce, 4 * i)
    {
      state[13 + at] := Read32(nonce, 4 * at);
    }
  }

  /** Byte i of the key stream: of block counter + i / 64, the counter being a 32-bit word. */
  function KeyStream(key: Key, nonce: Nonce, counter: Word, i: nat): Byte {
    BlockByte(StateOf(key, nonce, (counter as int + i / 64) % BASE), i % 64)
  }

  function XorByte(a: Byte, b: Byte): Byte {
    ByteXorBound(a, b);
    Xor(a, b)
  }

  lemma ByteXorBound(a: Byte, b: Byte)
    ensures Xor(a, b) < 0x100
  {
    assert Pow(2, 8) == 0x100;
    XorBound(a, b, 8);
  }

  /** The cipher is its own inverse, byte by byte. */
  lemma XorByteTwice(a: Byte, b: Byte)
    ensures XorByte(XorByte(a, b), b) == a
  {
    XorTwice(a, b);
  }

  /** Encrypts or decrypts `length` bytes; input and output may be the same buffer. */
  method ChaCha20(key: Key, nonce: Nonce, counter: Word, input: array<Byte>, output: array<Byte>, length: Word)
    requires length <= input.Length && length <= output.Length
    modifies output
    ensures forall i :: 0 <= i < length ==> output[i] == XorByte(old(input[i]), KeyStream(key, nonce, counter, i))
    ensures forall i :: length <= i < output.Length ==> output[i] == old(output[i])
  {
    hide BlockByte, StateOf;
    var state := MakeState(key, nonce, counter);
    var stream := new Byte[64];
    var done := 0;
    while done < length
      invariant 0 <= done <= length && (done % 64 == 0 || done == length)
      invariant done < length ==> state[..] == StateOf(key, nonce, (counter as int + done / 64) % BASE)
      invariant forall i :: 0 <= i < done ==> output[i] == XorByte(old(input[i]), KeyStream(key, nonce, counter, i))
      invariant forall i :: done <= i < output.Length ==> output[i] == old(output[i])
      invariant input != output ==> forall i :: 0 <= i < input.Length ==> input[i] == old(input[i])
    {
      var take := length - done;
      if take > 64 {
        take := 64;
      }
      Block(state, stream);
      StreamBlock(key, nonce, counter, done, take, state[..], stream[..]);
      ghost var at0: State := state[..];
      state[12] := (state[12] as int + 1) % BASE;
      NextState(key, nonce, counter, done / 64, state[..]);
      Combine(input, output, stream, done, take);
      done := done + take;
    }
  }

  /** The bytes of one block are the key stream's from a multiple of sixty-four on. */
  lemma StreamBlock(key: Key, nonce: Nonce, counter: Word, done: nat, take: nat, state: State, stream: seq<Byte>)
    requires done % 64 == 0 && take <= 64 == |stream|
    requires state == StateOf(key, nonce, (counter as int + done / 64) % BASE)
    requires forall i :: 0 <= i < 64 ==> stream[i] == BlockByte(state, i)
    ensures forall i :: done <= i < done + take ==> stream[i - done] == KeyStream(key, nonce, counter, i)
  {
    hide BlockByte, StateOf;
    forall i | done <= i < done + take
      ensures stream[i - done] == KeyStream(key, nonce, counter, i)
    {
      assert i / 64 == done / 64 && i % 64 == i - done;
    }
  }

  /** One block's worth of bytes under the key stream, in place or not. */
  method Combine(input: array<Byte>, output: array<Byte>, stream: array<Byte>, done: nat, take: nat)
    requires done + take <= input.Length && done + take <= output.Length && take <= stream.Length && stream != output
    modifies output
    ensures forall i :: done <= i < done + take ==> output[i] == XorByte(old(input[i]), stream[i - done])
    ensures forall i :: 0 <= i < output.Length && !(done <= i < done + take) ==> output[i] == old(output[i])
  {
    hide XorByte;
    for at := 0 to take
      modifies output
      invariant forall i :: done <= i < done + at ==> output[i] == XorByte(old(input[i]), stream[i - done])
      invariant forall i :: 0 <= i < output.Length && !(done <= i < done + at) ==> output[i] == old(output[i])
    {
      output[done + at] := XorByte(input[done + at], stream[at]);
    }
  }

  lemma NextState(key: Key, nonce: Nonce, counter: Word, block: nat, next: State)
    requires var s := StateOf(key, nonce, (counter as int + block) % BASE);
             next == s[12 := (s[12] as int + 1) % BASE]
    ensures next == StateOf(key, nonce, (counter as int + block + 1) % BASE)
  {
  }
}
