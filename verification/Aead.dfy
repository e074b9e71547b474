/** kernel/aead.c: the cipher and the authenticator together, section 2.8 of RFC 8439. */
module Aead {
  import opened Numbers
  import opened Words
  import opened Bits
  import opened LittleEndian
  import opened ChaCha
  import opened PolyLimbs
  import opened PolyClamp
  import opened PolyFinish
  import opened Poly1305
  import opened PolyStream

  datatype Option<T> = None | Some(value: T)

  // ---- What is authenticated -----------------------------------------------

  /** The zeroes that bring a length to a multiple of sixteen. */
  function Padding(length: nat): seq<Byte> {
    seq((16 - length % 16) % 16, _ => 0)
  }

  /** The string the tag is taken over: both parts padded, then both lengths. */
  function Encode(extra: seq<Byte>, data: seq<Byte>): seq<Byte> {
    extra + Padding(|extra|) + data + Padding(|data|) + ToBytes(|extra|, 8) + ToBytes(|data|, 8)
  }

  /** The string determines the header and the message: no byte can move from one to the other. */
  lemma EncodeInjective(a: seq<Byte>, b: seq<Byte>, c: seq<Byte>, d: seq<Byte>)
    requires |a| < BASE64 && |b| < BASE64 && |c| < BASE64 && |d| < BASE64
    requires Encode(a, b) == Encode(c, d)
    ensures a == c && b == d
  {
    var s := Encode(a, b);
    LengthsAtEnd(a, b);
    LengthsAtEnd(c, d);
    assert |a| == |c| && |b| == |d|;
    var at := |a| + |Padding(|a|)|;
    assert a == s[..|a|] == c;
    assert b == s[at..at + |b|] == d;
  }

  lemma LengthsAtEnd(a: seq<Byte>, b: seq<Byte>)
    requires |a| < BASE64 && |b| < BASE64
    ensures var s := Encode(a, b);
            |s| >= 16 && Le(s[|s| - 16..|s| - 8]) == |a| && Le(s[|s| - 8..]) == |b|
  {
    var s := Encode(a, b);
    assert Pow(0x100, 8) == BASE64;
    LeOfToBytes(|a|, 8);
    LeOfToBytes(|b|, 8);
    assert s[|s| - 16..|s| - 8] == ToBytes(|a|, 8) && s[|s| - 8..] == ToBytes(|b|, 8);
  }

  /** Where everything is in it, section 2.8 of RFC 8439: the header first, the message at the next multiple of
      sixteen, the two lengths at the one after that, and zeroes between. */
  lemma EncodePlaces(a: seq<Byte>, b: seq<Byte>)
    requires |a| < BASE64 && |b| < BASE64
    ensures var s, at := Encode(a, b), (|a| + 15) / 16 * 16; var end := at + (|b| + 15) / 16 * 16;
            |s| == end + 16 && s[..|a|] == a && s[at..at + |b|] == b &&
            Le(s[end..end + 8]) == |a| && Le(s[end + 8..]) == |b| &&
            forall i :: |a| <= i < at || at + |b| <= i < end ==> s[i] == 0
  {
    hide Le, ToBytes, Padding;
    LengthsAtEnd(a, b);
    Padded(|a|);
    Padded(|b|);
    Pieces(a, Padding(|a|), b, Padding(|b|), ToBytes(|a|, 8), ToBytes(|b|, 8));
  }

  lemma Padded(length: nat)
    ensures length + |Padding(length)| == (length + 15) / 16 * 16
    ensures forall i :: 0 <= i < |Padding(length)| ==> Padding(length)[i] == 0
  {
  }

  lemma Pieces(a: seq<Byte>, x: seq<Byte>, b: seq<Byte>, y: seq<Byte>, m: seq<Byte>, n: seq<Byte>)
    requires |m| == 8 && |n| == 8
    ensures var s, at := a + x + b + y + m + n, |a| + |x|; var end := at + |b| + |y|;
            |s| == end + 16 && s[..|a|] == a && s[at..at + |b|] == b &&
            (forall i :: |a| <= i < at ==> s[i] == x[i - |a|]) &&
            (forall i :: at + |b| <= i < end ==> s[i] == y[i - (at + |b|)])
  {
  }

  // ---- The construction as functions ---------------------------------------

  /** The authenticator's key: the first half of key stream block zero. */
  function OneTimeKey(key: Key, nonce: Nonce): (k: seq<Byte>)
    ensures |k| == 32
  {
    seq(32, i requires 0 <= i < 32 => BlockByte(StateOf(key, nonce, 0), i))
  }

  /** The message under the key stream that starts at block one. */
  function Crypt(key: Key, nonce: Nonce, data: seq<Byte>): (out: seq<Byte>)
    ensures |out| == |data|
  {
    seq(|data|, i requires 0 <= i < |data| => XorByte(data[i], KeyStream(key, nonce, 1, i)))
  }

  /** The sixteen bytes of the tag over a header and a ciphertext. */
  function TagOver(key: Key, nonce: Nonce, extra: seq<Byte>, data: seq<Byte>): (tag: seq<Byte>)
    ensures |tag| == 16
  {
    ToBytes(TagNumber(OneTimeKey(key, nonce), Encode(extra, data)), 16)
  }

  function Sealed(key: Key, nonce: Nonce, extra: seq<Byte>, data: seq<Byte>): (seq<Byte>, seq<Byte>) {
    (Crypt(key, nonce, data), TagOver(key, nonce, extra, Crypt(key, nonce, data)))
  }

  function Opened(key: Key, nonce: Nonce, extra: seq<Byte>, data: seq<Byte>, tag: seq<Byte>): Option<seq<Byte>> {
    if tag == TagOver(key, nonce, extra, data) then Some(Crypt(key, nonce, data)) else None
  }

  /** The key of the tag and the bytes that hide the message are two stretches of one key stream, from block zero:
      its first 32 bytes, and those from the 64th on. */
  lemma OneStream(key: Key, nonce: Nonce, i: nat)
    ensures i < 32 ==> OneTimeKey(key, nonce)[i] == KeyStream(key, nonce, 0, i)
    ensures KeyStream(key, nonce, 1, i) == KeyStream(key, nonce, 0, 64 + i)
  {
    hide BlockByte, StateOf;
    assert (64 + i) / 64 == 1 + i / 64 && (64 + i) % 64 == i % 64;
  }

  /** A message that the 32-bit block counter has room for, hidden under the second of them. */
  ghost predicate Hidden(key: Key, nonce: Nonce, before: seq<Byte>, after: seq<Byte>) {
    |after| == |before| &&
    forall i :: 0 <= i < |before| ==> after[i] == XorByte(before[i], KeyStream(key, nonce, 0, 64 + i))
  }

  lemma CryptHides(key: Key, nonce: Nonce, data: seq<Byte>)
    ensures Hidden(key, nonce, data, Crypt(key, nonce, data))
  {
    hide KeyStream, XorByte;
    forall i | 0 <= i < |data|
      ensures Crypt(key, nonce, data)[i] == XorByte(data[i], KeyStream(key, nonce, 0, 64 + i))
    {
      OneStream(key, nonce, i);
    }
  }

  lemma CryptTwice(key: Key, nonce: Nonce, data: seq<Byte>)
    ensures Crypt(key, nonce, Crypt(key, nonce, data)) == data
  {
    hide KeyStream, XorByte;
    var once := Crypt(key, nonce, data);
    forall i | 0 <= i < |data|
      ensures Crypt(key, nonce, once)[i] == data[i]
    {
      XorByteTwice(data[i], KeyStream(key, nonce, 1, i));
    }
  }

  /** Opening what was sealed under the same key, nonce and header gives the message back, and no other tag is
      accepted for that ciphertext. */
  lemma OpenSealed(key: Key, nonce: Nonce, extra: seq<Byte>, data: seq<Byte>, tag: seq<Byte>)
    ensures var (cipher, right) := Sealed(key, nonce, extra, data);
            Opened(key, nonce, extra, cipher, tag) == if tag == right then Some(data) else None
  {
    hide TagOver, Crypt;
    CryptTwice(key, nonce, data);
  }

  // ---- The construction as the source runs it ------------------------------

  method MakeOneTimeKey(key: Key, nonce: Nonce) returns (k: seq<Byte>)
    ensures k == OneTimeKey(key, nonce)
  {
    hide BlockByte, StateOf;
    var state := MakeState(key, nonce, 0);
    var block := new Byte[64];
    Block(state, block);
    k := block[..32];
  }

  /** authenticate: five pieces, the padding ones only when needed. */
  method Authenticate(stream: Stream, extra: array<Byte>, data: array<Byte>)
    requires stream.Valid() && extra != stream.leftover && data != stream.leftover
    requires extra.Length < BASE && data.Length < BASE
    modifies stream`accumulator, stream`used, stream`absorbed, stream.leftover
    ensures stream.Valid() && stream.absorbed == old(stream.absorbed) + Encode(extra[..], data[..])
  {
    hide Stream.Valid, ToBytes;
    var zeroes := new Byte[16](_ => 0);
    assert zeroes[..] == seq(16, _ => 0);
    AddPadded(stream, extra, zeroes);
    AddPadded(stream, data, zeroes);
    var lengths := Lengths(extra.Length, data.Length);
    stream.Add(lengths, 0, 16);
    assert lengths[0..16] == lengths[..];
  }

  method Lengths(extra: Word, length: Word) returns (lengths: array<Byte>)
    ensures fresh(lengths) && lengths.Length == 16 && lengths[..] == ToBytes(extra, 8) + ToBytes(length, 8)
  {
    hide ToBytes, Shr;
    lengths := new Byte[16](_ => 0);
    for at := 0 to 8
      invariant forall i :: 0 <= i < at ==> lengths[i] == ToBytes(extra, 8)[i]
      invariant forall i :: 0 <= i < at ==> lengths[8 + i] == ToBytes(length, 8)[i]
    {
      ToBytesAt(extra, 8, at);
      ToBytesAt(length, 8, at);
      lengths[at] := Shr(extra, 8 * at) % 0x100;
      lengths[8 + at] := Shr(length, 8 * at) % 0x100;
    }
    assert lengths[..8] == ToBytes(extra, 8) && lengths[8..] == ToBytes(length, 8);
    assert lengths[..] == lengths[..8] + lengths[8..];
  }

  method AddPadded(stream: Stream, part: array<Byte>, zeroes: array<Byte>)
    requires stream.Valid() && part != stream.leftover && zeroes != stream.leftover && zeroes[..] == seq(16, _ => 0)
    modifies stream`accumulator, stream`used, stream`absorbed, stream.leftover
    ensures stream.Valid() && stream.absorbed == old(stream.absorbed) + part[..] + Padding(part.Length)
  {
    hide Stream.Valid;
    stream.Add(part, 0, part.Length);
    assert part[0..part.Length] == part[..];
    if part.Length % 16 != 0 {
      stream.Add(zeroes, 0, 16 - part.Length % 16);
      assert zeroes[0..16 - part.Length % 16] == Padding(part.Length);
    } else {
      assert Padding(part.Length) == [];
    }
  }

  /** The number determines the sixteen bytes. */
  lemma TagBytes(tag: seq<Byte>, n: nat)
    requires |tag| == 16 && Le(tag) == n && n < TWO128
    ensures tag == ToBytes(n, 16)
  {
    hide Le;
    assert Pow(0x100, 8) == BASE64;
    PowAdd(0x100, 8, 8);
    LeOfToBytes(n, 16);
    LeInjective(tag, ToBytes(n, 16));
  }

  method MakeTag(key: Key, nonce: Nonce, extra: array<Byte>, data: array<Byte>, tag: array<Byte>)
    requires extra.Length < BASE && data.Length < BASE && tag.Length == 16 && tag != extra && tag != data
    modifies tag
    ensures tag[..] == TagOver(key, nonce, extra[..], data[..])
  {
    hide Point, Le, OneTimeKey, Stream.Valid, Limbs5.Value, Words4.Value, Polynomial, Encode, ToBytes;
    var secret := MakeOneTimeKey(key, nonce);
    var stream := new Stream(secret);
    Authenticate(stream, extra, data);
    ghost var message := Encode(extra[..], data[..]);
    assert stream.absorbed == message;
    stream.Finish(tag);
    assert Le(tag[..]) == TagNumber(secret, message);
    TagBytes(tag[..], TagNumber(secret, message));
  }

  /** aead_seal: encrypts in place and writes the tag. */
  method Seal(key: Key, nonce: Nonce, extra: array<Byte>, data: array<Byte>, tag: array<Byte>)
    requires extra.Length < BASE && data.Length < BASE && tag.Length == 16 && tag != extra && tag != data
    modifies data, tag
    ensures data[..] == Crypt(key, nonce, old(data[..])) && Hidden(key, nonce, old(data[..]), data[..])
    ensures tag[..] == TagOver(key, nonce, extra[..], data[..])
  {
    hide TagOver, KeyStream, XorByte, Hidden;
    CryptHides(key, nonce, data[..]);
    ChaCha20(key, nonce, 1, data, data, data.Length);
    MakeTag(key, nonce, extra, data, tag);
  }

  /** aead_open: compares every byte of the tag before anything is decided, and decrypts only when all are right. */
  method Open(key: Key, nonce: Nonce, extra: array<Byte>, data: array<Byte>, tag: array<Byte>) returns (ok: bool)
    requires extra.Length < BASE && data.Length < BASE && tag.Length == 16
    modifies data
    ensures ok <==> old(tag[..]) == TagOver(key, nonce, old(extra[..]), old(data[..]))
    ensures data[..] == if ok then Crypt(key, nonce, old(data[..])) else old(data[..])
    ensures ok ==> Hidden(key, nonce, old(data[..]), data[..])
  {
    hide TagOver, KeyStream, XorByte, Hidden;
    CryptHides(key, nonce, data[..]);
    var expected := new Byte[16];
    MakeTag(key, nonce, extra, data, expected);
    var same := SameTag(expected, tag);
    if !same {
      return false;
    }
    ChaCha20(key, nonce, 1, data, data, data.Length);
    return true;
  }

  /** The differences of all bytes gathered into one, which is zero exactly when there are none. */
  method SameTag(expected: array<Byte>, tag: array<Byte>) returns (same: bool)
    requires expected.Length == 16 && tag.Length == 16
    ensures same <==> expected[..] == tag[..]
  {
    var difference: Byte := 0;
    for at := 0 to 16
      invariant difference == 0 <==> expected[..at] == tag[..at]
    {
      XorZero(expected[at], tag[at]);
      OrZero(difference, XorByte(expected[at], tag[at]));
      ByteOrBound(difference, XorByte(expected[at], tag[at]));
      difference := Or(difference, XorByte(expected[at], tag[at]));
      assert expected[..at + 1] == expected[..at] + [expected[at]] && tag[..at + 1] == tag[..at] + [tag[at]];
    }
    assert expected[..16] == expected[..] && tag[..16] == tag[..];
    same := difference == 0;
  }

  lemma ByteOrBound(a: Byte, b: Byte)
    ensures Or(a, b) < 0x100
  {
    assert Pow(2, 8) == 0x100;
    OrBound(a, b, 8);
  }
}
