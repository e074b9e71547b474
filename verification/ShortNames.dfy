/** kernel/fat32.c: the 8.3 name that sits underneath a long one. */
module ShortNames {
  import opened Words
  import opened FatSlots
  import opened LongName
  import opened EntryReader

  const ORDINALS := 1000
  const TILDE := 0x7E
  const UNDERSCORE := 0x5F
  const DOT := 0x2E

  /** Characters FAT forbids in a short name. */
  predicate Forbidden(c: Byte) {
    c in [0x22, 0x2A, 0x2B, 0x2C, 0x2F, 0x3A, 0x3B, 0x3C, 0x3D, 0x3E, 0x3F, 0x5B, 0x5C, 0x5D, 0x7C]
  }

  /** A character as it goes into a short name: forbidden ones replaced, letters in upper case. */
  function Shortened(c: Byte): (d: Byte)
    ensures c != 0 ==> d != 0
    ensures c < 0x80 ==> d < 0x80
    ensures c >= 0x80 ==> d == c
  {
    if Forbidden(c) then UNDERSCORE else if 0x61 <= c <= 0x7A then c - 32 else c
  }

  predicate Ascii(name: seq<Byte>) {
    forall i :: 0 <= i < |name| ==> name[i] < 0x80
  }

  /** Every byte a name character, and ASCII if the long name is. */
  predicate ShortBytes(a: seq<Byte>, name: seq<Byte>) {
    (forall i :: 0 <= i < |a| ==> a[i] != 0) && (Ascii(name) ==> Ascii(a))
  }

  // ---- Which short name a name gets ------------------------------------------------------

  /** Just behind the last dot of the first n characters; 0 for none. */
  function LastDot(name: seq<Byte>, n: nat): (at: nat)
    requires n <= |name|
    ensures at <= n
  {
    if n == 0 then 0 else if name[n - 1] == DOT then n else LastDot(name, n - 1)
  }

  /** Where the extension starts; 0 for none. A leading dot is part of the name. */
  function ExtensionAt(name: seq<Byte>): (at: nat)
    ensures at <= |name|
  {
    if LastDot(name, |name|) == 1 then 0 else LastDot(name, |name|)
  }

  /** Where the name before the extension ends. */
  function BaseEnd(name: seq<Byte>): (end: nat)
    ensures end <= |name|
  {
    if ExtensionAt(name) > 0 then ExtensionAt(name) - 1 else |name|
  }

  predicate Skipped(c: Byte) {
    c == SPACE || c == DOT
  }

  predicate SomeSkipped(s: seq<Byte>) {
    exists i :: 0 <= i < |s| && Skipped(s[i])
  }

  /** The characters that are not spaces or dots, as they go into a short name. */
  function KeptChars(s: seq<Byte>): (t: seq<Byte>)
    ensures |t| <= |s|
  {
    if |s| == 0 then []
    else KeptChars(s[..|s| - 1]) + if Skipped(s[|s| - 1]) then [] else [Shortened(s[|s| - 1])]
  }

  /** How far the name is looked at: up to `stop`, or until there are eight characters. */
  function ScanEnd(name: seq<Byte>, stop: nat, cursor: nat): (end: nat)
    requires cursor <= stop <= |name|
    ensures cursor <= end <= stop
    decreases stop - cursor
  {
    if cursor == stop || |KeptChars(name[..cursor])| >= 8 then cursor else ScanEnd(name, stop, cursor + 1)
  }

  function Scanned(name: seq<Byte>): seq<Byte> {
    name[..ScanEnd(name, BaseEnd(name), 0)]
  }

  /** Up to eight characters of the name before its extension, or an underscore. */
  function Basis(name: seq<Byte>): seq<Byte> {
    if KeptChars(Scanned(name)) == [] then [UNDERSCORE] else KeptChars(Scanned(name))
  }

  function Decimal(n: nat): (digits: seq<Byte>)
    ensures |digits| > 0
    ensures n < 10 ==> |digits| == 1
    ensures n < 100 ==> |digits| <= 2
    ensures n < ORDINALS ==> |digits| <= 3
    ensures forall i :: 0 <= i < |digits| ==> 0x30 <= digits[i] < 0x3A
  {
    (if n < 10 then [] else Decimal(n / 10)) + [0x30 + n % 10]
  }

  /** A numeric tail, in place of the last characters where there is no room for it. */
  function Tailed(basis: seq<Byte>, n: nat): seq<Byte>
    requires n < ORDINALS
  {
    var at := if |basis| + |Decimal(n)| + 1 > 8 then 7 - |Decimal(n)| else |basis|;
    (if at <= |basis| then basis[..at] else basis) + [TILDE] + Decimal(n)
  }

  function Padded(s: seq<Byte>, n: nat): (t: seq<Byte>)
    ensures |s| <= n ==> |t| == n
  {
    s + seq(if |s| <= n then n - |s| else 0, _ => SPACE)
  }

  function ShortenedAll(s: seq<Byte>): (t: seq<Byte>)
    ensures |t| == |s|
  {
    seq(|s|, i requires 0 <= i < |s| => Shortened(s[i]))
  }

  function Extension(name: seq<Byte>): seq<Byte> {
    var at := ExtensionAt(name);
    if at == 0 then [] else ShortenedAll(if at + 3 <= |name| then name[at..at + 3] else name[at..])
  }

  predicate NeedsTail(name: seq<Byte>) {
    SomeSkipped(Scanned(name)) || |name| > 12
  }

  /** The short name number `ordinal` of a name. */
  function ShortFor(name: seq<Byte>, ordinal: nat): seq<Byte>
    requires ordinal < ORDINALS
  {
    Padded(if ordinal > 0 || NeedsTail(name) then Tailed(Basis(name), if ordinal > 0 then ordinal else 1)
    else Basis(name), 8) +
    Padded(Extension(name), 3)
  }

  predicate ShortOf(short: seq<Byte>, name: seq<Byte>) {
    exists ordinal: nat :: ordinal < ORDINALS && short == ShortFor(name, ordinal)
  }

  lemma {:induction false} KeptBytes(s: seq<Byte>)
    requires forall i :: 0 <= i < |s| ==> s[i] != 0
    ensures forall i :: 0 <= i < |KeptChars(s)| ==> KeptChars(s)[i] != 0
    ensures Ascii(s) ==> Ascii(KeptChars(s))
  {
    hide Shortened;
    if |s| > 0 {
      KeptBytes(s[..|s| - 1]);
    }
  }

  lemma {:induction false} ScanShort(name: seq<Byte>, stop: nat, cursor: nat)
    requires cursor <= stop <= |name| && |KeptChars(name[..cursor])| <= 8
    ensures |KeptChars(name[..ScanEnd(name, stop, cursor)])| <= 8
    decreases stop - cursor
  {
    hide Shortened;
    if cursor < stop && |KeptChars(name[..cursor])| < 8 {
      assert name[..cursor + 1][..cursor] == name[..cursor];
      ScanShort(name, stop, cursor + 1);
    }
  }

  lemma BasisFacts(name: seq<Byte>)
    requires Name(name)
    ensures 1 <= |Basis(name)| <= 8 && ShortBytes(Basis(name), name)
  {
    ScanShort(name, BaseEnd(name), 0);
    KeptBytes(Scanned(name));
  }

  lemma BytesPadded(s: seq<Byte>, n: nat, name: seq<Byte>)
    requires ShortBytes(s, name)
    ensures ShortBytes(Padded(s, n), name)
  {
  }

  lemma BytesTailed(basis: seq<Byte>, n: nat, name: seq<Byte>)
    requires ShortBytes(basis, name) && n < ORDINALS && 1 <= |basis| <= 8
    ensures ShortBytes(Tailed(basis, n), name) && 1 <= |Tailed(basis, n)| <= 8 && Tailed(basis, n)[0] == basis[0]
  {
    hide Decimal;
  }

  lemma BytesExtension(name: seq<Byte>)
    requires Name(name)
    ensures ShortBytes(Extension(name), name) && |Extension(name)| <= 3
  {
    hide Shortened, ExtensionAt;
  }

  /** Eleven bytes, none of them zero, ASCII when the name is; and the first is the basis's first, whatever the
      number. */
  lemma ShortFacts(name: seq<Byte>, ordinal: nat)
    requires Name(name) && ordinal < ORDINALS
    ensures |ShortFor(name, ordinal)| == 11 && ShortBytes(ShortFor(name, ordinal), name)
    ensures |Basis(name)| > 0 && ShortFor(name, ordinal)[0] == Basis(name)[0]
  {
    hide Basis, NeedsTail, Decimal, Tailed, Extension, Name, Padded, ShortBytes;
    BasisFacts(name);
    BytesExtension(name);
    var number := if ordinal > 0 then ordinal else 1;
    BytesTailed(Basis(name), number, name);
    var front := if ordinal > 0 || NeedsTail(name) then Tailed(Basis(name), number) else Basis(name);
    BytesPadded(front, 8, name);
    BytesPadded(Extension(name), 3, name);
    PaddedFirst(front, 8);
    BytesJoined(Padded(front, 8), Padded(Extension(name), 3), name);
  }

  lemma PaddedFirst(s: seq<Byte>, n: nat)
    requires 1 <= |s| <= n
    ensures |Padded(s, n)| == n && Padded(s, n)[0] == s[0]
  {
  }

  lemma BytesJoined(s: seq<Byte>, t: seq<Byte>, name: seq<Byte>)
    requires ShortBytes(s, name) && ShortBytes(t, name)
    ensures ShortBytes(s + t, name)
  {
  }

  // ---- Its first byte ------------------------------------------------------------------------

  /** The first character that is neither a space nor a dot. */
  function FirstKept(s: seq<Byte>, i: nat): (at: nat)
    requires i <= |s|
    ensures i <= at <= |s| && (at < |s| ==> !Skipped(s[at])) && forall j :: i <= j < at ==> Skipped(s[j])
    decreases |s| - i
  {
    if i == |s| || !Skipped(s[i]) then i else FirstKept(s, i + 1)
  }

  /** The character a short name begins with, before it is put into upper case: the first before the extension that
      is kept, or an underscore. */
  function Leading(name: seq<Byte>): Byte {
    var base := name[..BaseEnd(name)];
    if FirstKept(base, 0) < |base| then base[FirstKept(base, 0)] else UNDERSCORE
  }

  lemma {:induction false} KeptFirst(s: seq<Byte>, c: nat)
    requires c <= |s|
    ensures var k := KeptChars(s[..c]);
            if c <= FirstKept(s, 0) then k == [] else |k| > 0 && k[0] == Shortened(s[FirstKept(s, 0)])
  {
    hide Shortened;
    if c > 0 {
      KeptFirst(s, c - 1);
      assert s[..c][..c - 1] == s[..c - 1];
    }
  }

  lemma {:induction false} ScanAll(name: seq<Byte>, stop: nat, cursor: nat)
    requires cursor <= stop <= |name|
    ensures ScanEnd(name, stop, cursor) == stop || |KeptChars(name[..ScanEnd(name, stop, cursor)])| >= 8
    decreases stop - cursor
  {
    if cursor < stop && |KeptChars(name[..cursor])| < 8 {
      ScanAll(name, stop, cursor + 1);
    }
  }

  /** Whatever its number, a short name begins with the name's leading character. */
  lemma ShortBegins(name: seq<Byte>, ordinal: nat)
    requires Name(name) && ordinal < ORDINALS
    ensures |ShortFor(name, ordinal)| == 11 && ShortFor(name, ordinal)[0] == Shortened(Leading(name))
  {
    hide Name, Basis, ShortFor, Shortened, Leading;
    ShortFacts(name, ordinal);
    BasisBegins(name);
  }

  lemma BasisBegins(name: seq<Byte>)
    ensures |Basis(name)| > 0 && Basis(name)[0] == Shortened(Leading(name))
  {
    hide Shortened, KeptChars, ScanEnd, BaseEnd;
    var base, end := name[..BaseEnd(name)], ScanEnd(name, BaseEnd(name), 0);
    ScanAll(name, BaseEnd(name), 0);
    KeptFirst(base, end);
    assert base[..end] == Scanned(name);
    ShortenedUnderscore();
  }

  lemma ShortenedUnderscore()
    ensures Shortened(UNDERSCORE) == UNDERSCORE
  {
  }

  // ---- Making it --------------------------------------------------------------------------------

  /** Where the extension starts, found by going through the name once. */
  method FindExtension(name: seq<Byte>) returns (extension: nat)
    ensures extension == ExtensionAt(name)
  {
    extension := 0;
    for cursor := 0 to |name|
      invariant extension == LastDot(name, cursor)
    {
      if name[cursor] == DOT {
        extension := cursor + 1;
      }
    }
    if extension == 1 {
      extension := 0;
    }
  }

  /** Where the scan of the name stands: the characters kept so far, spaces behind them. */
  ghost predicate Basing(name: seq<Byte>, cursor: nat, output: seq<Byte>, length: nat, skipped: bool) {
    cursor <= BaseEnd(name) && length == |KeptChars(name[..cursor])| <= 8 && |output| == 11 &&
    output[..length] == KeptChars(name[..cursor]) &&
    skipped == SomeSkipped(name[..cursor]) && ScanEnd(name, BaseEnd(name), cursor) == ScanEnd(name, BaseEnd(name), 0) &&
    forall i :: length <= i < 11 ==> output[i] == SPACE
  }

  lemma BasingStart(name: seq<Byte>, output: seq<Byte>)
    requires |output| == 11 && forall i :: 0 <= i < 11 ==> output[i] == SPACE
    ensures Basing(name, 0, output, 0, false)
    ensures BaseEnd(name) == if ExtensionAt(name) > 0 then ExtensionAt(name) - 1 else |name|
  {
    hide ScanEnd;
  }

  lemma BasingNext(name: seq<Byte>, cursor: nat, output: seq<Byte>, length: nat, skipped: bool)
    requires Basing(name, cursor, output, length, skipped) && cursor < BaseEnd(name) && length < 8
    ensures Skipped(name[cursor]) ==> Basing(name, cursor + 1, output, length, true)
    ensures !Skipped(name[cursor]) ==> Basing(name, cursor + 1, output[length := Shortened(name[cursor])], length + 1,
            skipped)
  {
    hide Shortened, KeptChars, SomeSkipped, BaseEnd, Skipped;
    KeptNext(name, cursor);
    assert ScanEnd(name, BaseEnd(name), cursor) == ScanEnd(name, BaseEnd(name), cursor + 1);
    var longer := output[length := Shortened(name[cursor])];
    assert longer[..length + 1] == output[..length] + [Shortened(name[cursor])];
  }

  lemma BasingDone(name: seq<Byte>, cursor: nat, output: seq<Byte>, length: nat, skipped: bool)
    requires Basing(name, cursor, output, length, skipped) && (cursor == BaseEnd(name) || length == 8)
    ensures skipped == SomeSkipped(Scanned(name)) && length <= 8
    ensures if length == 0 then Basis(name) == [UNDERSCORE] else output[..length] == Basis(name)
  {
    hide Shortened, KeptChars, SomeSkipped, BaseEnd;
  }

  /** Up to eight characters of the name before the extension, skipping spaces and dots. */
  method Base(name: seq<Byte>, extension: nat, output: array<Byte>) returns (length: nat, needsTail: bool)
    requires Name(name) && extension == ExtensionAt(name) && output.Length == 11 && forall i :: 0 <= i < 11 ==>
             output[i] == SPACE
    modifies output
    ensures 1 <= length <= 8 && output[..length] == Basis(name) && needsTail == SomeSkipped(Scanned(name))
    ensures forall i :: length <= i < 11 ==> output[i] == SPACE
  {
    hide Shortened, KeptChars, ScanEnd, SomeSkipped, ExtensionAt, BaseEnd, Basing, Basis, Name, Scanned;
    length, needsTail := 0, false;
    var cursor: nat := 0;
    BasingStart(name, output[..]);
    while cursor < |name| && length < 8
      invariant Basing(name, cursor, output[..], length, needsTail) && cursor <= BaseEnd(name) <= |name| && length <= 8
      decreases |name| - cursor
    {
      if extension > 0 && cursor >= extension - 1 {
        break;
      }
      var character := name[cursor];
      BasingNext(name, cursor, output[..], length, needsTail);
      if character == SPACE || character == DOT {
        needsTail := true;
      } else {
        ghost var before := output[..];
        output[length] := Shortened(character);
        assert output[..] == before[length := Shortened(character)];
        length := length + 1;
      }
      cursor := cursor + 1;
    }
    BasingDone(name, cursor, output[..], length, needsTail);
    BasingSpaces(name, cursor, output[..], length, needsTail);
    if length == 0 {
      output[length] := UNDERSCORE;
      length := 1;
    }
  }

  lemma BasingSpaces(name: seq<Byte>, cursor: nat, output: seq<Byte>, length: nat, skipped: bool)
    requires Basing(name, cursor, output, length, skipped)
    ensures |output| == 11 && length <= 8 && forall i :: length <= i < 11 ==> output[i] == SPACE
  {
  }

  lemma KeptNext(name: seq<Byte>, cursor: nat)
    requires cursor < |name|
    ensures KeptChars(name[..cursor + 1]) == KeptChars(name[..cursor]) + if Skipped(name[cursor]) then []
            else [Shortened(name[cursor])]
    ensures SomeSkipped(name[..cursor + 1]) <==> SomeSkipped(name[..cursor]) || Skipped(name[cursor])
  {
    hide Shortened, Skipped, SomeSkipped;
    var longer, shorter := name[..cursor + 1], name[..cursor];
    assert longer == shorter + [name[cursor]];
    SkippedNext(shorter, name[cursor]);
    assert longer[..|longer| - 1] == shorter;
  }

  lemma SkippedNext(s: seq<Byte>, c: Byte)
    ensures SomeSkipped(s + [c]) <==> SomeSkipped(s) || Skipped(c)
  {
    hide Skipped;
    var t := s + [c];
    assert t[|s|] == c && forall i :: 0 <= i < |s| ==> t[i] == s[i];
  }

  /** The decimal digits of a number below a thousand, last digit first. */
  method Digits(value: nat) returns (digits: seq<Byte>)
    requires value < ORDINALS
    ensures |digits| == |Decimal(value)| && forall i :: 0 <= i < |digits| ==>
            digits[i] == Decimal(value)[|digits| - 1 - i]
  {
    hide Decimal, Before, Backwards;
    BeforeFirst(value);
    var digit: Byte := 0x30 + value % 10;
    digits := [digit];
    ghost var back := digits;
    var rest: nat := value / 10;
    while rest > 0
      invariant Before(value, rest, back) && Backwards(digits, back) && rest < ORDINALS
      decreases rest
    {
      BeforeNext(value, rest, back);
      digit := 0x30 + rest % 10;
      BackwardsMore(digits, back, digit);
      digits, back := digits + [digit], [digit] + back;
      rest := rest / 10;
    }
    BeforeNone(value, digits, back);
  }

  /** The digits of `rest` stand before the digits already found. */
  ghost predicate Before(value: nat, rest: nat, back: seq<Byte>) {
    Decimal(value) == (if rest == 0 then [] else Decimal(rest)) + back
  }

  lemma BeforeFirst(value: nat)
    ensures Before(value, value / 10, [0x30 + value % 10]) && Backwards([0x30 + value % 10], [0x30 + value % 10])
  {
    hide Decimal;
    DecimalSplit(value);
  }

  lemma BeforeNext(value: nat, rest: nat, back: seq<Byte>)
    requires Before(value, rest, back) && 0 < rest
    ensures Before(value, rest / 10, [0x30 + rest % 10] + back)
  {
    hide Decimal;
    DecimalSplit(rest);
    var front: seq<Byte> := if rest < 10 then [] else Decimal(rest / 10);
    Regrouped(front, [0x30 + rest % 10], back);
  }

  lemma Regrouped(a: seq<Byte>, b: seq<Byte>, c: seq<Byte>)
    ensures (a + b) + c == a + (b + c)
  {
  }

  lemma BeforeNone(value: nat, digits: seq<Byte>, back: seq<Byte>)
    requires Before(value, 0, back) && Backwards(digits, back)
    ensures |digits| == |Decimal(value)|
    ensures forall i :: 0 <= i < |digits| ==> digits[i] == Decimal(value)[|digits| - 1 - i]
  {
    hide Decimal;
    assert [] + back == back;
  }

  predicate Backwards(digits: seq<Byte>, back: seq<Byte>) {
    |digits| == |back| && forall i :: 0 <= i < |back| ==> digits[i] == back[|back| - 1 - i]
  }

  lemma BackwardsMore(digits: seq<Byte>, back: seq<Byte>, digit: Byte)
    requires Backwards(digits, back)
    ensures Backwards(digits + [digit], [digit] + back)
  {
  }

  lemma DecimalSplit(n: nat)
    ensures Decimal(n) == (if n < 10 then [] else Decimal(n / 10)) + [0x30 + n % 10]
  {
  }

  /** The extension's characters behind the first eight. */
  method PutExtension(name: seq<Byte>, extension: nat, output: array<Byte>)
    requires extension == ExtensionAt(name) && output.Length == 11 && forall i :: 8 <= i < 11 ==> output[i] == SPACE
    modifies output
    ensures output[8..] == Padded(Extension(name), 3) && output[..8] == old(output[..8])
  {
    hide Shortened, ExtensionAt;
    if extension > 0 {
      var index, cursor := 0, extension;
      while cursor < |name| && index < 3
        invariant index <= 3 && cursor == extension + index <= |name|
        invariant forall i :: 8 <= i < 8 + index ==> output[i] == Shortened(name[extension + i - 8])
        invariant forall i :: 8 + index <= i < 11 ==> output[i] == SPACE
        invariant output[..8] == old(output[..8])
      {
        output[8 + index] := Shortened(name[cursor]);
        index, cursor := index + 1, cursor + 1;
      }
    }
  }

  /** The tail, written over the eight places from where there is room for it. */
  method PutTail(number: nat, length: nat, output: array<Byte>)
    requires number < ORDINALS && 1 <= length <= 8 && output.Length == 11 && forall i :: length <= i < 8 ==>
             output[i] == SPACE
    modifies output
    ensures output[..8] == Padded(Tailed(old(output[..length]), number), 8) && output[8..] == old(output[8..])
  {
    hide Decimal, Tailed, Padded;
    ghost var basis, behind := output[..length], output[8..];
    var digits := Digits(number);
    var position := length;
    if position + |digits| + 1 > 8 {
      position := 8 - |digits| - 1;
    }
    ghost var at := position;
    output[position] := TILDE;
    position := position + 1;
    var left := |digits|;
    while left > 0
      invariant 0 <= left <= |digits| && position + left == at + 1 + |digits| <= 8
      invariant TailSoFar(output[..8], basis, at, Decimal(number), |digits| - left) && output[8..] == behind
    {
      TailNext(output[..8], basis, at, Decimal(number), |digits| - left);
      left := left - 1;
      ghost var before := output[..8];
      output[position] := digits[left];
      assert output[..8] == before[position := digits[left]];
      position := position + 1;
    }
    TailWhole(output[..8], basis, number, at);
  }

  /** The first `count` digits of the tail that starts at `at`; spaces behind it all. */
  predicate TailSoFar(output: seq<Byte>, basis: seq<Byte>, at: nat, digits: seq<Byte>, count: nat) {
    |output| == 8 && at <= |basis| && at + 1 + |digits| <= 8 && count <= |digits| &&
    (forall i :: 0 <= i < at ==> output[i] == basis[i]) && output[at] == TILDE &&
    (forall i :: 0 <= i < count ==> output[at + 1 + i] == digits[i]) &&
    forall i :: at + 1 + |digits| <= i < 8 ==> output[i] == SPACE
  }

  lemma TailNext(output: seq<Byte>, basis: seq<Byte>, at: nat, digits: seq<Byte>, count: nat)
    requires TailSoFar(output, basis, at, digits, count) && count < |digits|
    ensures TailSoFar(output[at + 1 + count := digits[count]], basis, at, digits, count + 1)
  {
  }

  lemma TailWhole(output: seq<Byte>, basis: seq<Byte>, number: nat, at: nat)
    requires number < ORDINALS && TailSoFar(output, basis, at, Decimal(number), |Decimal(number)|)
    requires at == if |basis| + |Decimal(number)| + 1 > 8 then 7 - |Decimal(number)| else |basis|
    ensures output == Padded(Tailed(basis, number), 8)
  {
    hide Decimal;
    assert Tailed(basis, number) == basis[..at] + [TILDE] + Decimal(number);
  }

  /** make_short_name. */
  method MakeShortName(name: seq<Byte>, ordinal: nat) returns (short: seq<Byte>)
    requires Name(name) && ordinal < ORDINALS
    ensures short == ShortFor(name, ordinal)
  {
    hide Shortened, Forbidden, Basis, Tailed, Extension, ExtensionAt, SomeSkipped, Scanned;
    var output := new Byte[11](_ => SPACE);
    var extension := FindExtension(name);
    var length, needsTail := Base(name, extension, output);
    ghost var basis := output[..length];
    PutExtension(name, extension, output);
    assert output[..length] == output[..8][..length] == basis;
    assert forall i :: length <= i < 8 ==> output[i] == output[..8][i] == SPACE;
    if ordinal > 0 || needsTail || |name| > 12 {
      PutTail(if ordinal > 0 then ordinal else 1, length, output);
    } else {
      assert output[..8] == Padded(basis, 8);
    }
    short := output[..];
    assert short == output[..8] + output[8..];
  }

  // ---- What it looks like ---------------------------------------------------------------------

  /** Small letters become capitals, the fifteen characters FAT forbids an underscore; nothing else changes. */
  lemma ShortenedIs(c: Byte)
    ensures Shortened(c) as int ==
            if 'a' as int <= c as int <= 'z' as int then c as int - 'a' as int + 'A' as int
            else if c as char in "\"*+,/:;<=>?[\\]|" then '_' as int else c as int
  {
  }

  /** The number that decimal digits stand for. */
  function Numeral(digits: seq<Byte>): int {
    if |digits| == 0 then 0 else 10 * Numeral(digits[..|digits| - 1]) + digits[|digits| - 1] as int - '0' as int
  }

  lemma {:induction false} DecimalValue(n: nat)
    ensures Numeral(Decimal(n)) == n && (n > 0 ==> Decimal(n)[0] != '0' as int)
  {
    var digits := Decimal(n);
    if n < 10 {
      assert digits == [0x30 + n];
      assert Numeral(digits[..0]) == 0;
    } else {
      DecimalValue(n / 10);
      assert digits[..|digits| - 1] == Decimal(n / 10);
    }
  }

  lemma {:induction false} KeptPrefix(s: seq<Byte>, c: nat)
    requires c <= |s|
    ensures KeptChars(s[..c]) <= KeptChars(s)
    decreases |s|
  {
    hide Shortened, Skipped;
    if c < |s| {
      var shorter := s[..|s| - 1];
      KeptPrefix(shorter, c);
      assert shorter[..c] == s[..c];
      assert KeptChars(s) == KeptChars(shorter) + if Skipped(s[|s| - 1]) then [] else [Shortened(s[|s| - 1])];
    } else {
      assert s[..c] == s;
    }
  }

  /** The first eight characters before the extension that are neither a space nor a dot, or an underscore. */
  lemma BasisIs(name: seq<Byte>)
    ensures var kept := KeptChars(name[..BaseEnd(name)]);
            Basis(name) == if kept == [] then [UNDERSCORE] else if |kept| <= 8 then kept else kept[..8]
  {
    hide Shortened, KeptChars, ScanEnd, BaseEnd;
    var base, end := name[..BaseEnd(name)], ScanEnd(name, BaseEnd(name), 0);
    ScanAll(name, BaseEnd(name), 0);
    NoneKept(name);
    ScanShort(name, BaseEnd(name), 0);
    KeptPrefix(base, end);
    assert base[..end] == Scanned(name);
  }

  lemma NoneKept(name: seq<Byte>)
    ensures KeptChars(name[..0]) == []
  {
  }

  /** Behind a tilde stands the number in decimal, in place of as few characters as possible. */
  lemma TailIs(name: seq<Byte>, ordinal: nat)
    requires Name(name) && 0 < ordinal < ORDINALS
    ensures var short, digits := ShortFor(name, ordinal), Decimal(ordinal);
            var k := if |Basis(name)| + 1 + |digits| <= 8 then |Basis(name)| else 7 - |digits|;
            |digits| <= 3 && |short| == 11 && short[..k] == Basis(name)[..k] && short[k] == '~' as int &&
            short[k + 1..k + 1 + |digits|] == digits && Numeral(digits) == ordinal &&
            forall i :: k + 1 + |digits| <= i < 8 ==> short[i] == SPACE
  {
    hide Basis, Decimal, Extension, Name, Numeral;
    DecimalValue(ordinal);
    BasisFacts(name);
    BytesExtension(name);
    ShortFacts(name, ordinal);
    var tailed := Tailed(Basis(name), ordinal);
    assert ShortFor(name, ordinal)[..8] == Padded(tailed, 8);
  }

  /** A name of one to eight characters and an extension of at most three. */
  predicate Plain(name: seq<Byte>, base: seq<Byte>, extension: seq<Byte>) {
    1 <= |base| <= 8 && |extension| <= 3 && !SomeSkipped(base) && !SomeSkipped(extension) &&
    name == if extension == [] then base else base + [DOT] + extension
  }

  lemma {:induction false} AllKept(s: seq<Byte>)
    requires !SomeSkipped(s)
    ensures KeptChars(s) == ShortenedAll(s)
  {
    hide Shortened;
    if |s| > 0 {
      var shorter := s[..|s| - 1];
      assert forall i :: 0 <= i < |shorter| ==> shorter[i] == s[i];
      AllKept(shorter);
    }
  }

  lemma {:induction false} NoDot(name: seq<Byte>, low: nat, n: nat)
    requires low <= n <= |name| && forall i :: low <= i < n ==> name[i] != DOT
    ensures LastDot(name, n) == LastDot(name, low)
    decreases n
  {
    if low < n {
      NoDot(name, low, n - 1);
    }
  }

  lemma PlainParts(name: seq<Byte>, base: seq<Byte>, extension: seq<Byte>)
    requires Plain(name, base, extension)
    ensures BaseEnd(name) == |base| && name[..|base|] == base && |name| <= 12
    ensures ExtensionAt(name) == if extension == [] then 0 else |base| + 1
    ensures extension != [] ==> name[|base| + 1..] == extension
  {
    assert forall i :: 0 <= i < |base| ==> name[i] == base[i] && name[i] != DOT;
    if extension == [] {
      NoDot(name, 0, |name|);
    } else {
      assert forall i :: |base| + 1 <= i < |name| ==> name[i] == extension[i - |base| - 1] && name[i] != DOT;
      NoDot(name, |base| + 1, |name|);
    }
  }

  lemma {:induction false} ScanPlain(name: seq<Byte>, stop: nat, cursor: nat)
    requires cursor <= stop <= |name| && stop <= 8
    ensures ScanEnd(name, stop, cursor) == stop
    decreases stop - cursor
  {
    hide Shortened, KeptChars;
    if cursor < stop {
      if |KeptChars(name[..cursor])| < 8 {
        ScanPlain(name, stop, cursor + 1);
      }
    }
  }

  /** Such a name is its own short name, in capitals. */
  lemma PlainShort(name: seq<Byte>, base: seq<Byte>, extension: seq<Byte>)
    requires Plain(name, base, extension)
    ensures ShortFor(name, 0) == Padded(ShortenedAll(base), 8) + Padded(ShortenedAll(extension), 3)
  {
    hide Shortened, KeptChars, ScanEnd, LastDot, SomeSkipped, ExtensionAt, BaseEnd, Padded;
    PlainParts(name, base, extension);
    ScanPlain(name, |base|, 0);
    AllKept(base);
    assert Scanned(name) == base;
    assert Basis(name) == ShortenedAll(base);
    if extension != [] {
      var at := |base| + 1;
      assert (if at + 3 <= |name| then name[at..at + 3] else name[at..]) == extension;
    }
    assert Extension(name) == ShortenedAll(extension);
  }

  /** And that is how it is read: the name, in capitals. */
  lemma PlainRead(name: seq<Byte>, base: seq<Byte>, extension: seq<Byte>, p: Partial, raw: Raw)
    requires Plain(name, base, extension) && raw[..11] == ShortFor(name, 0) && !Belongs(p, raw)
    ensures NameOf(p, raw) == ShortenedAll(name)
  {
    hide Shortened, Belongs, NameOf, ShortFor;
    PlainShort(name, base, extension);
    PlainSpaced(raw, base, extension);
    ShortNameRead(p, raw, ShortenedAll(base), ShortenedAll(extension));
    ShortenedDot();
  }

  lemma ShortenedDot()
    ensures Shortened(DOT) == DOT
  {
  }

  lemma NeverSpace(s: seq<Byte>)
    requires !SomeSkipped(s)
    ensures SPACE !in ShortenedAll(s)
  {
    forall i | 0 <= i < |s|
      ensures ShortenedAll(s)[i] != SPACE
    {
      assert !Skipped(s[i]);
    }
  }

  lemma PlainSpaced(raw: Raw, base: seq<Byte>, extension: seq<Byte>)
    requires 1 <= |base| <= 8 && |extension| <= 3 && !SomeSkipped(base) && !SomeSkipped(extension)
    requires raw[..11] == Padded(ShortenedAll(base), 8) + Padded(ShortenedAll(extension), 3)
    ensures SpacedName(raw, ShortenedAll(base), ShortenedAll(extension))
  {
    hide Shortened;
    NeverSpace(base);
    NeverSpace(extension);
    hide ShortenedAll;
    assert forall i :: 0 <= i < 11 ==> raw[i] == raw[..11][i];
  }
}
