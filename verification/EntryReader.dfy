/** kernel/fat32.c: what a reader of directory slots makes of them, one after another. */
module EntryReader {
  import opened Words
  import opened LittleEndian
  import opened FatSlots
  import opened LongName

  const FAT_ATTRIBUTE_VOLUME_LABEL := 0x08
  const SPACE := 0x20

  /** The long name being put together: whether there is one, the checksum it is for, and its characters so far. */
  datatype Partial = Partial(valid: bool, checksum: Byte, name: Buffer)

  function Zeros(): (b: Buffer)
    ensures forall i :: 0 <= i < |b| ==> b[i] == 0
  {
    seq(256, _ => 0)
  }

  predicate IsLongName(raw: Raw) {
    raw[11] % 16 == LONG_NAME
  }

  /** A slot that describes a file or a directory. */
  predicate Real(raw: Raw) {
    !Vacant(raw) && !IsLongName(raw) && raw[11] as int / FAT_ATTRIBUTE_VOLUME_LABEL % 2 == 0
  }

  /** In bits: the one for a volume's label, which a piece of a long name has too, with the three below it. */
  lemma Kinds(raw: Raw)
    ensures Real(raw) <==> raw[0] != 0 && raw[0] != 0xE5 && raw[11] as int / 8 % 2 == 0
    ensures IsLongName(raw) <==> raw[11] as int / 8 % 2 == raw[11] as int / 4 % 2 == raw[11] as int / 2 % 2 ==
                                 raw[11] as int % 2 == 1
  {
    LowFour(raw[11]);
  }

  lemma LowFour(a: Byte)
    ensures a as int % 16 == 8 * (a as int / 8 % 2) + 4 * (a as int / 4 % 2) + 2 * (a as int / 2 % 2) + a as int % 2
  {
    Halves(a as int, 2);
    Halves(a as int, 4);
    Halves(a as int, 8);
  }

  lemma Halves(x: nat, k: nat)
    requires k == 2 || k == 4 || k == 8
    ensures x % (2 * k) == k * (x / k % 2) + x % k
  {
  }

  /** The reader after one more slot. */
  function Fed(p: Partial, raw: Raw): Partial {
    if raw[0] == ENTRY_FREE || !IsLongName(raw) then p.(valid := false)
    else
      var begun := if raw[0] as int / LONG_NAME_LAST % 2 == 1 then Partial(true, raw[13], Zeros()) else p;
      var kept := if begun.valid && raw[13] != begun.checksum then begun.(valid := false) else begun;
      if kept.valid then kept.(name := Gathered(kept.name, raw)) else kept
  }

  function FedAll(p: Partial, raws: seq<Raw>): Partial {
    if |raws| == 0 then p else Fed(FedAll(p, raws[..|raws| - 1]), raws[|raws| - 1])
  }

  lemma {:induction false} FedAllSplit(p: Partial, raws: seq<Raw>, more: seq<Raw>)
    ensures FedAll(p, raws + more) == FedAll(FedAll(p, raws), more)
    decreases |more|
  {
    hide Fed;
    if |more| == 0 {
      assert raws + more == raws;
    } else {
      var all := raws + more;
      assert all[..|all| - 1] == raws + more[..|more| - 1];
      FedAllSplit(p, raws, more[..|more| - 1]);
    }
  }

  /** Pieces of one long name, the marked last one in front. */
  predicate Row(raws: seq<Raw>) {
    |raws| > 0 && forall j :: 0 <= j < |raws| ==>
      raws[j][0] != ENTRY_FREE && IsLongName(raws[j]) && (raws[j][0] as int / 0x40 % 2 == 1 <==> j == 0)
  }

  lemma FedStep(p: Partial, raw: Raw)
    requires raw[0] != ENTRY_FREE && IsLongName(raw)
    ensures raw[0] as int / 0x40 % 2 == 1 ==> Fed(p, raw).valid && Fed(p, raw).checksum == raw[13]
    ensures raw[0] as int / 0x40 % 2 == 0 ==>
              Fed(p, raw).checksum == p.checksum && (Fed(p, raw).valid <==> p.valid && raw[13] == p.checksum)
    ensures raw[0] as int / 0x40 % 2 == 0 ==>
              Fed(p, raw).name == if Fed(p, raw).valid then Gathered(p.name, raw) else p.name
  {
    hide Gathered;
  }

  /** Whatever came before, they make a name exactly if they all carry the same checksum, and it is for that one. */
  lemma {:induction false} RowMakes(p: Partial, raws: seq<Raw>)
    requires Row(raws)
    ensures FedAll(p, raws).valid <==> forall j :: 0 <= j < |raws| ==> raws[j][13] == raws[0][13]
    ensures FedAll(p, raws).checksum == raws[0][13]
    decreases |raws|
  {
    hide Fed, IsLongName;
    var front := raws[..|raws| - 1];
    if |raws| > 1 {
      RowMakes(p, front);
      assert front[0] == raws[0];
      assert forall j :: 0 <= j < |front| ==> front[j] == raws[j];
    }
    FedStep(FedAll(p, front), raws[|raws| - 1]);
  }

  /** The last n slots are pieces of one name, all for the same short entry. */
  predicate EndsWithName(raws: seq<Raw>, n: nat) {
    0 < n <= |raws| && Row(raws[|raws| - n..]) && forall j :: |raws| - n <= j < |raws| ==>
      raws[j][13] == raws[|raws| - n][13]
  }

  /** A reader has a name in hand exactly behind such a row: a deleted slot, an entry or a piece of another name
      loses it. */
  lemma {:induction false} NameInHand(p: Partial, raws: seq<Raw>)
    requires !p.valid
    ensures FedAll(p, raws).valid <==> exists n: nat :: EndsWithName(raws, n)
    decreases |raws|
  {
    hide FedAll, Fed, IsLongName;
    if |raws| == 0 {
      NoneFed(p);
    } else {
      var front, raw := raws[..|raws| - 1], raws[|raws| - 1];
      NameInHand(p, front);
      if n: nat :| EndsWithName(raws, n) {
        var row := raws[|raws| - n..];
        RowMakes(FedAll(p, raws[..|raws| - n]), row);
        FedAllSplit(p, raws[..|raws| - n], row);
        assert raws == raws[..|raws| - n] + row;
      } else {
        assert raws == front + [raw];
        NameAdded(p, front, raw);
      }
    }
  }

  lemma NoneFed(p: Partial)
    ensures FedAll(p, []) == p
  {
  }

  lemma NameAdded(p: Partial, front: seq<Raw>, raw: Raw)
    requires FedAll(p, front).valid <==> exists n: nat :: EndsWithName(front, n)
    ensures FedAll(p, front + [raw]).valid ==> exists n: nat :: EndsWithName(front + [raw], n)
  {
    hide FedAll, Fed, IsLongName;
    var all := front + [raw];
    FedNext(p, front, raw);
    if raw[0] == ENTRY_FREE || !IsLongName(raw) {
      FedStops(FedAll(p, front), raw);
    } else {
      FedStep(FedAll(p, front), raw);
      if raw[0] as int / 0x40 % 2 == 1 {
        assert all[|all| - 1..] == [raw];
        assert EndsWithName(all, 1);
      } else if n: nat :| EndsWithName(front, n) {
        NameChecksum(p, front, n);
        if FedAll(p, all).valid {
          assert all[|all| - (n + 1)..] == front[|front| - n..] + [raw];
          assert EndsWithName(all, n + 1);
        }
      }
    }
  }

  lemma NameChecksum(p: Partial, raws: seq<Raw>, n: nat)
    requires EndsWithName(raws, n)
    ensures FedAll(p, raws).checksum == raws[|raws| - n][13]
  {
    hide FedAll, Fed, IsLongName;
    var row := raws[|raws| - n..];
    RowMakes(FedAll(p, raws[..|raws| - n]), row);
    FedAllSplit(p, raws[..|raws| - n], row);
    assert raws == raws[..|raws| - n] + row;
  }

  lemma FedNext(p: Partial, front: seq<Raw>, raw: Raw)
    ensures FedAll(p, front + [raw]) == Fed(FedAll(p, front), raw)
  {
    hide Fed;
    var all := front + [raw];
    assert all[..|all| - 1] == front;
  }

  lemma FedStops(p: Partial, raw: Raw)
    requires raw[0] == ENTRY_FREE || !IsLongName(raw)
    ensures !Fed(p, raw).valid
  {
  }

  /** The characters before the first zero, from i on. */
  function Str(b: seq<Byte>, i: nat): seq<Byte>
    requires i <= |b|
    decreases |b| - i
  {
    if i == |b| || b[i] == 0 then b[..i] else Str(b, i + 1)
  }

  lemma {:induction false} StrIs(b: seq<Byte>, i: nat, end: nat)
    requires i <= end < |b| && b[end] == 0 && forall p :: i <= p < end ==> b[p] != 0
    ensures Str(b, i) == b[..end]
    decreases end - i
  {
    if i < end {
      StrIs(b, i + 1, end);
    }
  }

  function Trimmed(s: seq<Byte>): seq<Byte> {
    if |s| == 0 || s[0] == SPACE then [] else [s[0]] + Trimmed(s[1..])
  }

  /** format_short_name: NAME.EXT without the padding. */
  function ShortName(raw: Raw): seq<Byte> {
    Trimmed(raw[..8]) + if raw[8] == SPACE then [] else [0x2E] + Trimmed(raw[8..11])
  }

  /** A long name that belongs to this short entry. */
  predicate Belongs(p: Partial, raw: Raw) {
    p.valid && p.checksum == ChecksumOf(raw[..11]) && p.name[0] != 0
  }

  /** The name an entry gets: the long one when it belongs to this short entry, and the short one otherwise. */
  function NameOf(p: Partial, raw: Raw): seq<Byte> {
    if Belongs(p, raw) then Str(p.name, 0) else ShortName(raw)
  }

  lemma NameOfHead(p: Partial, before: Raw, raw: Raw)
    requires raw[..11] == before[..11]
    ensures NameOf(p, raw) == NameOf(p, before)
  {
    hide ChecksumOf, Trimmed, Str;
    assert raw[..8] == raw[..11][..8] && before[..8] == before[..11][..8];
    assert raw[8..11] == raw[..11][8..] && before[8..11] == before[..11][8..];
    assert raw[8] == raw[..11][8] && before[8] == before[..11][8];
  }

  /** A name read is never empty, whatever has been put together, unless the short one begins with a space. */
  lemma NeverEmpty(p: Partial, raw: Raw)
    requires raw[0] != SPACE
    ensures NameOf(p, raw) != []
  {
    hide ChecksumOf;
    if Belongs(p, raw) {
      StrFirst(p.name);
    } else {
      assert raw[..8][0] == raw[0];
    }
  }

  lemma {:induction false} StrFrom(b: seq<Byte>, i: nat)
    requires i <= |b|
    ensures |Str(b, i)| >= i
    decreases |b| - i
  {
    if i < |b| && b[i] != 0 {
      StrFrom(b, i + 1);
    }
  }

  lemma StrFirst(b: Buffer)
    requires b[0] != 0
    ensures Str(b, 0) != []
  {
    StrFrom(b, 1);
  }

  /** The eleven bytes of a short name: its two parts, each filled up with spaces. */
  predicate SpacedName(raw: Raw, base: seq<Byte>, extension: seq<Byte>) {
    1 <= |base| <= 8 && |extension| <= 3 && SPACE !in base && SPACE !in extension && raw[..|base|] == base &&
    raw[8..8 + |extension|] == extension && (forall i :: |base| <= i < 8 ==> raw[i] == SPACE) &&
    forall i :: 8 + |extension| <= i < 11 ==> raw[i] == SPACE
  }

  lemma {:induction false} TrimmedAt(s: seq<Byte>, n: nat)
    requires n <= |s| && (forall i :: 0 <= i < n ==> s[i] != SPACE) && (n < |s| ==> s[n] == SPACE)
    ensures Trimmed(s) == s[..n]
  {
    if n > 0 {
      TrimmedAt(s[1..], n - 1);
      assert s[..n] == [s[0]] + s[1..][..n - 1];
    }
  }

  /** A slot that owns no long name is read as the two parts of its short one, with a dot between them if there is a
      second. */
  lemma ShortNameRead(p: Partial, raw: Raw, base: seq<Byte>, extension: seq<Byte>)
    requires SpacedName(raw, base, extension) && !Belongs(p, raw)
    ensures NameOf(p, raw) == if extension == [] then base else base + [0x2E] + extension
  {
    var first, second := raw[..8], raw[8..11];
    assert forall i :: 0 <= i < |base| ==> first[i] == raw[..|base|][i];
    assert forall i :: 0 <= i < |extension| ==> second[i] == raw[8..8 + |extension|][i];
    TrimmedAt(first, |base|);
    TrimmedAt(second, |extension|);
    assert first[..|base|] == base && second[..|extension|] == extension;
    if extension != [] {
      assert raw[8] == extension[0];
      assert base + ([0x2E] + extension) == base + [0x2E] + extension;
    }
  }

  /** A slot that begins a long name. */
  predicate Begins(raw: Raw) {
    raw[0] != ENTRY_FREE && IsLongName(raw) && raw[0] as int / LONG_NAME_LAST % 2 == 1
  }

  // ---- Writing and reading back -----------------------------------------------------

  /** The short entry of a set. */
  ghost predicate ShortSays(raw: Raw, short: seq<Byte>, attributes: Byte, first: Word, size: Word, date: Half,
                            time: Half) {
    |short| == 11 && raw[..11] == short && raw[11] == attributes && raw[12] == 0 && raw[13] == 0 &&
    Read16(raw, 14) == time && Read16(raw, 16) == date && Read16(raw, 18) == date &&
    Read16(raw, 20) == first / 0x1_0000 && Read16(raw, 22) == time && Read16(raw, 24) == date &&
    Read16(raw, 26) == first % 0x1_0000 && Read32(raw, 28) == size
  }

  /** The slots of one file: its name in pieces, last piece first, and its short entry. */
  ghost predicate EntrySet(raws: seq<Raw>, name: seq<Byte>, short: seq<Byte>, attributes: Byte, first: Word,
                           size: Word, date: Half, time: Half) {
    var n := Pieces(|name|);
    |raws| == n + 1 && |short| == 11 &&
    (forall t :: 0 <= t < n ==> PieceSays(raws[t], name, n - t, t == 0, ChecksumOf(short))) &&
    ShortSays(raws[n], short, attributes, first, size, date, time)
  }

  /** As much of a name as a reader puts together: all of it up to 247 characters. */
  function KeptName(name: seq<Byte>): seq<Byte> {
    if |name| <= LONGEST then name else name[..LONGEST]
  }

  /** The reader after some of the pieces: they are all for this short entry, and their characters are in place. */
  ghost predicate Reading(p: Partial, name: seq<Byte>, checksum: Byte, done: nat) {
    var n := Pieces(|name|);
    done <= n && p.valid && p.checksum == checksum &&
    if done == 0 || n - done >= 19 then forall i :: 0 <= i < FAT_NAME_MAX ==> p.name[i] == 0
    else Assembled(p.name, name, (n - done) * LONG_NAME_CHARS)
  }

  lemma FedPiece(p: Partial, raw: Raw, name: seq<Byte>, sequence: nat, last: bool, checksum: Byte)
    requires PieceSays(raw, name, sequence, last, checksum) && (last || (p.valid && p.checksum == checksum))
    ensures !Vacant(raw) && IsLongName(raw)
    ensures Fed(p, raw) == Partial(true, checksum, Gathered(if last then Zeros() else p.name, raw))
  {
    hide Gathered, Read16, CharFor, Zeros;
    assert raw[0] as int / LONG_NAME_LAST % 2 == if last then 1 else 0;
  }

  lemma PiecesBound(length: nat)
    requires 0 < length < FAT_NAME_MAX
    ensures 1 <= Pieces(length) <= 20
  {
  }

  lemma ReadPiece(p: Partial, raw: Raw, name: seq<Byte>, checksum: Byte, t: nat)
    requires Name(name) && t < Pieces(|name|) && PieceSays(raw, name, Pieces(|name|) - t, t == 0, checksum)
    requires t > 0 ==> Reading(p, name, checksum, t)
    ensures !Vacant(raw) && IsLongName(raw) && Reading(Fed(p, raw), name, checksum, t + 1)
  {
    hide Pieces, Fed, Gathered, Assembled, PieceSays, Zeros, Vacant, IsLongName;
    PiecesBound(|name|);
    var n := Pieces(|name|);
    FedPiece(p, raw, name, n - t, t == 0, checksum);
    PieceGathers(if t == 0 then Zeros() else p.name, raw, name, n - t, t == 0, checksum);
  }

  lemma {:induction false} ReadPieces(p: Partial, raws: seq<Raw>, name: seq<Byte>, short: seq<Byte>, attributes: Byte,
                                      first: Word, size: Word,
                                      date: Half, time: Half, t: nat)
    requires Name(name) && EntrySet(raws, name, short, attributes, first, size, date, time) && 0 < t <= Pieces(|name|)
    ensures Reading(FedAll(p, raws[..t]), name, ChecksumOf(short), t)
  {
    hide Fed, PieceSays, ShortSays, Reading, Pieces;
    if t > 1 {
      ReadPieces(p, raws, name, short, attributes, first, size, date, time, t - 1);
    } else {
      assert raws[..1][..0] == [];
    }
    assert raws[..t][..t - 1] == raws[..t - 1];
    ReadPiece(FedAll(p, raws[..t - 1]), raws[t - 1], name, ChecksumOf(short), t - 1);
  }

  /** Whatever the reader had seen before, a set of slots reads back as the name it was written for. */
  lemma ReadsBack(p: Partial, raws: seq<Raw>, name: seq<Byte>, short: seq<Byte>, attributes: Byte, first: Word,
                  size: Word, date: Half, time: Half)
    requires Name(name) && EntrySet(raws, name, short, attributes, first, size, date, time)
    ensures NameOf(FedAll(p, raws[..Pieces(|name|)]), raws[Pieces(|name|)]) == KeptName(name)
    ensures Belongs(FedAll(p, raws[..Pieces(|name|)]), raws[Pieces(|name|)])
  {
    hide FedAll, Str, PieceSays;
    var n := Pieces(|name|);
    ReadPieces(p, raws, name, short, attributes, first, size, date, time, n);
    var q := FedAll(p, raws[..n]);
    var end := if |name| <= LONGEST then |name| else LONGEST;
    assert Assembled(q.name, name, 0);
    StrIs(q.name, 0, end);
    assert q.name[..end] == KeptName(name);
  }

  /** The first slot of a set, and only that, begins a long name. */
  lemma SetBegins(raws: seq<Raw>, name: seq<Byte>, short: seq<Byte>, attributes: Byte, first: Word, size: Word,
                  date: Half, time: Half)
    requires Name(name) && EntrySet(raws, name, short, attributes, first, size, date, time)
    ensures Begins(raws[0]) && forall t :: 0 < t < Pieces(|name|) ==> !Begins(raws[t])
  {
    hide Pieces, Read16, Read32, CharFor, ChecksumOf, ShortSays, CharAt;
    PiecesBound(|name|);
    var n := Pieces(|name|);
    assert PieceSays(raws[0], name, n - 0, 0 == 0, ChecksumOf(short));
    forall t | 0 < t < n
      ensures !Begins(raws[t])
    {
      assert PieceSays(raws[t], name, n - t, t == 0, ChecksumOf(short));
    }
  }

  /** It is the whole name exactly when that is no longer than nineteen pieces. */
  lemma WholeName(name: seq<Byte>)
    requires Name(name)
    ensures KeptName(name) == name <==> |name| <= LONGEST
  {
  }
}
