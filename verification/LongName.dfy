/** kernel/fat32.c: long names, split into slots of thirteen characters and put together again. */
module LongName {
  import opened Numbers
  import opened Words
  import opened LittleEndian
  import opened FatSlots

  const FAT_NAME_MAX := 256
  const LONG_NAME_CHARS := 13
  const LONG_NAME_LAST := 0x40
  const LONG_NAME := 0x0F
  /** The longest name all of whose pieces a reader takes: nineteen of them. */
  const LONGEST := 247

  /** Where in a slot the characters of a piece stand. */
  function CharAt(index: nat): (at: nat)
    requires index < LONG_NAME_CHARS
    ensures 1 <= at <= 30 && at + 2 <= 32 && at != 10 && at != 11 && at != 12 && at != 13 && at != 26
  {
    if index < 5 then 1 + 2 * index else if index < 11 then 14 + 2 * (index - 5) else 28 + 2 * (index - 11)
  }

  lemma CharsApart(i: nat, j: nat)
    requires i < j < LONG_NAME_CHARS
    ensures CharAt(i) + 2 <= CharAt(j)
  {
  }

  /** A file name: no byte of it is zero. */
  predicate Name(name: seq<Byte>) {
    0 < |name| < FAT_NAME_MAX && forall i :: 0 <= i < |name| ==> name[i] != 0
  }

  function Pieces(length: nat): nat {
    (length + LONG_NAME_CHARS - 1) / LONG_NAME_CHARS
  }

  /** The character a piece carries for one position of the name: the name, its terminator, then padding. */
  function CharFor(name: seq<Byte>, position: nat): Half {
    if position < |name| then name[position] else if position == |name| then 0x0000 else 0xFFFF
  }

  /** The checksum that ties the pieces to their short entry. */
  function Rotated(sum: Byte, b: Byte): Byte {
    ((if sum % 2 == 1 then 0x80 else 0) + sum as int / 2 + b) % 0x100
  }

  function ChecksumOf(raw: seq<Byte>): Byte {
    if |raw| == 0 then 0 else Rotated(ChecksumOf(raw[..|raw| - 1]), raw[|raw| - 1])
  }

  /** short_name_checksum. */
  method Checksum(raw: seq<Byte>) returns (sum: Byte)
    requires 11 <= |raw|
    ensures sum == ChecksumOf(raw[..11])
  {
    sum := 0;
    for index := 0 to 11
      invariant sum == ChecksumOf(raw[..index])
    {
      assert raw[..index + 1][..index] == raw[..index];
      sum := Rotated(sum, raw[index]);
    }
  }

  /** One long-name slot, as the writer fills it in. */
  ghost predicate PieceSays(raw: Raw, name: seq<Byte>, sequence: nat, last: bool, checksum: Byte) {
    1 <= sequence <= 31 && raw[0] == sequence + (if last then LONG_NAME_LAST else 0) && raw[11] == LONG_NAME &&
    raw[13] == checksum && raw[12] == 0 && raw[26] == 0 && raw[27] == 0 &&
    forall c :: 0 <= c < LONG_NAME_CHARS ==> Read16(raw, CharAt(c)) == CharFor(name,
        (sequence - 1) * LONG_NAME_CHARS + c)
  }

  method Piece(name: seq<Byte>, sequence: nat, last: bool, checksum: Byte) returns (raw: Raw)
    requires 1 <= sequence <= 20
    ensures PieceSays(raw, name, sequence, last, checksum)
  {
    hide CharFor, CharAt, Filled, PieceSays;
    var entry := new Byte[SLOT_SIZE](_ => 0);
    entry[0] := sequence + if last then LONG_NAME_LAST else 0;
    entry[11] := LONG_NAME;
    entry[13] := checksum;
    ghost var head := entry[0];
    FilledStart(entry[..], name, (sequence - 1) * LONG_NAME_CHARS);
    for character := 0 to LONG_NAME_CHARS
      invariant Filled(entry[..], head, checksum, name, (sequence - 1) * LONG_NAME_CHARS, character)
    {
      var value, at := CharFor(name, (sequence - 1) * LONG_NAME_CHARS + character), CharAt(character);
      CharInside(character);
      ghost var before := entry[..];
      PutHalf(entry, at, value);
      FilledMore(before, head, checksum, name, (sequence - 1) * LONG_NAME_CHARS, character);
    }
    raw := entry[..];
    FilledSays(raw, head, checksum, name, sequence, last);
  }

  method PutHalf(entry: array<Byte>, at: nat, value: Half)
    requires at + 2 <= entry.Length
    modifies entry
    ensures entry[..] == WithHalf(old(entry[..]), at, value)
  {
    entry[at], entry[at + 1] := value % 0x100, value / 0x100;
  }

  lemma FilledStart(s: seq<Byte>, name: seq<Byte>, base: nat)
    requires |s| == SLOT_SIZE && s[11] == LONG_NAME && s[12] == 0 && s[26] == 0 && s[27] == 0
    ensures Filled(s, s[0], s[13], name, base, 0)
  {
  }

  lemma FilledSays(raw: Raw, head: Byte, checksum: Byte, name: seq<Byte>, sequence: nat, last: bool)
    requires 1 <= sequence <= 20 && head as int == sequence + if last then LONG_NAME_LAST else 0
    requires Filled(raw, head, checksum, name, (sequence - 1) * LONG_NAME_CHARS, LONG_NAME_CHARS)
    ensures PieceSays(raw, name, sequence, last, checksum)
  {
    hide CharFor, CharAt, Read16;
  }

  /** A long-name slot with its marks and the first n of its characters. */
  predicate Filled(s: seq<Byte>, head: Byte, checksum: Byte, name: seq<Byte>, base: nat, n: nat) {
    |s| == SLOT_SIZE && n <= LONG_NAME_CHARS && s[0] == head && s[11] == LONG_NAME && s[13] == checksum &&
    s[12] == 0 && s[26] == 0 && s[27] == 0 &&
    forall c :: 0 <= c < n ==> Read16(s, CharAt(c)) == CharFor(name, base + c)
  }

  /** Two bytes replaced by a number. */
  function WithHalf(s: seq<Byte>, at: nat, value: Half): (t: seq<Byte>)
    requires at + 2 <= |s|
    ensures |t| == |s|
  {
    s[..at] + [value % 0x100, value / 0x100] + s[at + 2..]
  }

  lemma CharInside(c: nat)
    requires c < LONG_NAME_CHARS
    ensures 1 <= CharAt(c) && CharAt(c) + 1 < SLOT_SIZE
    ensures CharAt(c) + 1 < 11 || 14 <= CharAt(c) < 25 || 28 <= CharAt(c)
  {
  }

  lemma FilledMore(s: seq<Byte>, head: Byte, checksum: Byte, name: seq<Byte>, base: nat, n: nat)
    requires Filled(s, head, checksum, name, base, n) && n < LONG_NAME_CHARS
    ensures var value, at := CharFor(name, base + n), CharAt(n);
            at + 2 <= |s| && Filled(WithHalf(s, at, value), head, checksum, name, base, n + 1)
  {
    hide CharFor, CharAt;
    CharInside(n);
    forall c | 0 <= c < n
      ensures CharAt(c) + 2 <= CharAt(n)
    {
      CharsApart(c, n);
    }
  }

  /** The buffer a reader puts a name together in. */
  type Buffer = s: seq<Byte> | |s| == 256 witness seq(256, _ => 0)

  /** The characters of a piece, copied from character c on; the terminator ends it. */
  function GatheredFrom(buffer: Buffer, raw: Raw, base: nat, c: nat): Buffer
    requires c <= LONG_NAME_CHARS && base <= 18 * LONG_NAME_CHARS
    decreases LONG_NAME_CHARS - c
  {
    if c == LONG_NAME_CHARS || base + c >= FAT_NAME_MAX - 1 then buffer
    else
      var character := Read16(raw, CharAt(c));
      if character == 0x0000 || character == 0xFFFF then buffer[base + c := 0]
      else GatheredFrom(buffer[base + c := if character < 0x100 then character else 0x3F], raw, base, c + 1)
  }

  /** What a piece does to the buffer: nothing when its number is out of range. */
  function Gathered(buffer: Buffer, raw: Raw): Buffer {
    var sequence := raw[0] as int % 32;
    if sequence == 0 || sequence > FAT_NAME_MAX / LONG_NAME_CHARS then buffer
    else GatheredFrom(buffer, raw, (sequence - 1) * LONG_NAME_CHARS, 0)
  }

  /** gather_long_name. */
  method GatherLongName(raw: Raw, output: array<Byte>)
    requires output.Length == FAT_NAME_MAX
    modifies output
    ensures output[..] == Gathered(old(output[..]), raw)
  {
    var sequence := raw[0] as int % 32;
    if sequence == 0 || sequence > FAT_NAME_MAX / LONG_NAME_CHARS {
      return;
    }
    var base := (sequence - 1) * LONG_NAME_CHARS;
    var index := 0;
    ghost var goal := Gathered(output[..], raw);
    while index < LONG_NAME_CHARS
      invariant index <= LONG_NAME_CHARS && GatheredFrom(output[..], raw, base, index) == goal
    {
      var character, position := Read16(raw, CharAt(index)), base + index;
      ghost var before := output[..];
      if position >= FAT_NAME_MAX - 1 {
        break;
      }
      if character == 0x0000 || character == 0xFFFF {
        output[position] := 0;
        assert output[..] == before[position := 0];
        return;
      }
      output[position] := if character < 0x100 then character else 0x3F;
      assert output[..] == before[position := output[position]];
      index := index + 1;
    }
  }

  /** The buffer holds the name's characters from `low` up to where it ends, or up to where the reader stops taking
      them. */
  ghost predicate Assembled(buffer: Buffer, name: seq<Byte>, low: nat) {
    var end := if |name| <= LONGEST then |name| else LONGEST;
    (forall p :: low <= p < end ==> buffer[p] == name[p]) && buffer[end] == 0
  }

  lemma {:induction false} GatheredFromPiece(buffer: Buffer, raw: Raw, name: seq<Byte>, sequence: nat, last: bool,
                                             checksum: Byte, c: nat, p: nat)
    requires Name(name) && PieceSays(raw, name, sequence, last, checksum) && 1 <= sequence <= 19 && c <= LONG_NAME_CHARS
    requires (sequence - 1) * LONG_NAME_CHARS + c <= |name| && p < FAT_NAME_MAX
    ensures var base := (sequence - 1) * LONG_NAME_CHARS;
            GatheredFrom(buffer, raw, base, c)[p] ==
            if base + c <= p < base + LONG_NAME_CHARS && p < |name| then name[p]
            else if p == |name| && p < base + LONG_NAME_CHARS then 0 else buffer[p]
    decreases LONG_NAME_CHARS - c
  {
    hide Read16, CharAt;
    var base := (sequence - 1) * LONG_NAME_CHARS;
    if c < LONG_NAME_CHARS && base + c < |name| {
      var character := Read16(raw, CharAt(c));
      assert character == name[base + c];
      GatheredFromPiece(buffer[base + c := character], raw, name, sequence, last, checksum, c + 1, p);
    }
  }

  /** A piece adds its thirteen characters below those already there. */
  lemma PieceGathers(buffer: Buffer, raw: Raw, name: seq<Byte>, sequence: nat, last: bool, checksum: Byte)
    requires Name(name) && PieceSays(raw, name, sequence, last, checksum) && 1 <= sequence <= Pieces(|name|)
    requires if sequence >= 19 || last then forall p :: 0 <= p < FAT_NAME_MAX ==> buffer[p] == 0
             else Assembled(buffer, name, sequence * LONG_NAME_CHARS)
    requires last <==> sequence == Pieces(|name|)
    ensures sequence <= 19 ==> Assembled(Gathered(buffer, raw), name, (sequence - 1) * LONG_NAME_CHARS)
    ensures sequence == 20 ==> Gathered(buffer, raw) == buffer
  {
    hide GatheredFrom, Read16, CharAt, CharFor;
    assert raw[0] as int % 32 == sequence;
    if sequence <= 19 {
      var base, after := (sequence - 1) * LONG_NAME_CHARS, Gathered(buffer, raw);
      forall p: nat | p < FAT_NAME_MAX
        ensures after[p] == if base <= p < base + LONG_NAME_CHARS && p < |name| then name[p]
                            else if p == |name| && p < base + LONG_NAME_CHARS then 0 else buffer[p]
      {
        GatheredFromPiece(buffer, raw, name, sequence, last, checksum, 0, p);
      }
    }
  }

  // ---- The same in the slot's own places ----------------------------------------------

  /** Where the thirteen characters of a slot stand, two bytes each. */
  const PLACES: seq<nat> := [1, 3, 5, 7, 9, 14, 16, 18, 20, 22, 24, 28, 30]

  lemma CharAtPlaces(c: nat)
    requires c < 13
    ensures CharAt(c) == PLACES[c] <= 30
  {
  }

  /** As many pieces as thirteen characters each make necessary. */
  lemma PiecesEnough(length: nat, n: nat)
    ensures Pieces(length) <= n <==> length <= 13 * n
  {
  }

  /** What a piece says, byte by byte: its number and the mark of the last one, the attributes of a long name, the
      checksum, and the name's characters followed by a zero and then by ones. */
  lemma PieceBytes(raw: Raw, name: seq<Byte>, sequence: nat, last: bool, checksum: Byte, c: nat)
    requires PieceSays(raw, name, sequence, last, checksum) && c < 13
    ensures raw[0] == (if last then sequence + 0x40 else sequence) && raw[11] == 0x0F && raw[13] == checksum
    ensures raw[12] == 0 && raw[26] == 0 && raw[27] == 0
    ensures var p := 13 * (sequence - 1) + c;
            PLACES[c] <= 30 &&
            Read16(raw, PLACES[c]) == if p < |name| then name[p] as int else if p == |name| then 0 else 0xFFFF
  {
    hide Read16, CharAt;
    CharAtPlaces(c);
  }

  /** A reader takes n characters of a slot: those before the first zero or sixteen ones. */
  predicate Carries(raw: Raw, n: nat) {
    n <= 13 && forall c :: 0 <= c < 13 ==>
      PLACES[c] <= 30 && (c < n ==> Read16(raw, PLACES[c]) != 0 && Read16(raw, PLACES[c]) != 0xFFFF) &&
      (c == n ==> Read16(raw, PLACES[c]) == 0 || Read16(raw, PLACES[c]) == 0xFFFF)
  }

  /** Whoever wrote the slot, its characters go where its number says, a question mark for each that is no byte, and
      a zero after them if they end within the slot; nothing else changes. A number there cannot be changes nothing. */
  lemma GatheredPlaces(buffer: Buffer, raw: Raw, n: nat, p: nat)
    requires Carries(raw, n) && p < 256
    ensures var sequence := raw[0] as int % 32;
            var c := p - 13 * (sequence - 1);
            Gathered(buffer, raw)[p] ==
            if !(1 <= sequence <= 19) then buffer[p]
            else if 0 <= c < n then if Read16(raw, PLACES[c]) < 0x100 then Read16(raw, PLACES[c]) else 0x3F
            else if c == n && n < 13 then 0 else buffer[p]
  {
    hide Read16, GatheredFrom;
    var sequence := raw[0] as int % 32;
    if 1 <= sequence <= 19 {
      GatheredFromPlaces(buffer, raw, 13 * (sequence - 1), 0, n, p);
    }
  }

  lemma {:induction false} GatheredFromPlaces(buffer: Buffer, raw: Raw, base: nat, from: nat, n: nat, p: nat)
    requires Carries(raw, n) && p < 256 && from <= n && base <= 18 * 13
    ensures GatheredFrom(buffer, raw, base, from)[p] ==
            if base + from <= p < base + n then
              if Read16(raw, PLACES[p - base]) < 0x100 then Read16(raw, PLACES[p - base]) else 0x3F
            else if p == base + n && n < 13 then 0 else buffer[p]
    decreases 13 - from
  {
    hide Read16, GatheredFrom;
    GatheredFromStep(buffer, raw, base, from);
    if from < n {
      var character := Read16(raw, PLACES[from]);
      GatheredFromPlaces(buffer[base + from := if character < 0x100 then character else 0x3F], raw, base, from + 1, n,
          p);
    }
  }

  lemma GatheredFromStep(buffer: Buffer, raw: Raw, base: nat, c: nat)
    requires c <= 13 && base <= 18 * 13
    ensures c == 13 ==> GatheredFrom(buffer, raw, base, c) == buffer
    ensures c < 13 ==>
              PLACES[c] <= 30 &&
              var character := Read16(raw, PLACES[c]);
              GatheredFrom(buffer, raw, base, c) ==
              if character == 0 || character == 0xFFFF then buffer[base + c := 0]
              else GatheredFrom(buffer[base + c := if character < 0x100 then character else 0x3F], raw, base, c + 1)
  {
    hide Read16, CharAt;
    if c < 13 {
      CharAtPlaces(c);
    }
  }

  /** The checksum goes round to the right by one bit before each byte is added: without the byte, and turned back to
      the left, it is what it was. */
  lemma ChecksumTurns(raw: seq<Byte>, b: Byte)
    ensures ChecksumOf([]) == 0
    ensures var turned := (ChecksumOf(raw + [b]) as int - b as int) % 0x100;
            turned * 2 % 0x100 + turned / 0x80 == ChecksumOf(raw) as int
  {
    hide Rotated;
    var all := raw + [b];
    assert all[..|all| - 1] == raw && all[|all| - 1] == b;
    RotatedTurns(ChecksumOf(raw), b);
  }

  lemma RotatedTurns(sum: Byte, b: Byte)
    ensures var turned := (Rotated(sum, b) as int - b as int) % 0x100;
            turned * 2 % 0x100 + turned / 0x80 == sum as int
  {
    var low, high := sum as int % 2, sum as int / 2;
    var turned := 0x80 * low + high;
    var over := (turned + b as int) / 0x100;
    DivModFacts(turned + b as int, 0x100);
    DivModUnique(Rotated(sum, b) as int - b as int, 0x100, -over, turned);
    DivModUnique(turned, 0x80, low, high);
    DivModUnique(turned * 2, 0x100, low, 2 * high);
  }
}
