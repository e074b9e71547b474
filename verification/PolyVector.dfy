/** kernel/aead.c: the test vector of section 2.5.2 of RFC 8439, which pins the authenticator. */
module PolyVector {
  import opened Numbers
  import opened Words
  import opened LittleEndian
  import opened PolyLimbs
  import opened PolyClamp
  import opened PolyFinish
  import opened Poly1305

  lemma VectorPoint(key: seq<Byte>)
    requires |key| == 32
    requires key[..16]
          == [0x85, 0xd6, 0xbe, 0x78, 0x57, 0x55, 0x6d, 0x33, 0x7f, 0x44, 0x52, 0xfe, 0x42, 0xd5, 0x06, 0xa8]
    ensures Point(key) == 0x806d540_0e52447c_036d5554_08bed685
  {
    hide Le, Point, Cleared;
    PointBytes(key);
    VectorCleared(key[..16]);
  }

  lemma VectorCleared(b: seq<Byte>)
    requires b == [0x85, 0xd6, 0xbe, 0x78, 0x57, 0x55, 0x6d, 0x33, 0x7f, 0x44, 0x52, 0xfe, 0x42, 0xd5, 0x06, 0xa8]
    ensures Le(Cleared(b)) == 0x806d540_0e52447c_036d5554_08bed685
  {
    hide Le;
    var c: seq<Byte> :=
      [0x85, 0xd6, 0xbe, 0x08, 0x54, 0x55, 0x6d, 0x03, 0x7c, 0x44, 0x52, 0x0e, 0x40, 0xd5, 0x06, 0x08];
    assert Cleared(b) == c;
    LeBytes(c);
  }

  lemma VectorPad(pad: seq<Byte>)
    requires pad == [0x01, 0x03, 0x80, 0x8a, 0xfb, 0x0d, 0xb2, 0xfd, 0x4a, 0xbf, 0xf6, 0xaf, 0x41, 0x49, 0xf5, 0x1b]
    ensures Le(pad) == 0x1bf54941_aff6bf4a_fdb20dfb_8a800301
  {
    hide Le;
    LeBytes(pad);
  }

  lemma FirstBlock(block: seq<Byte>)
    requires block == [0x43, 0x72, 0x79, 0x70, 0x74, 0x6f, 0x67, 0x72, 0x61, 0x70, 0x68, 0x69, 0x63, 0x20, 0x46, 0x6f]
    ensures Le(block + [1]) == 0x1_6f462063_69687061_72676f74_70797243
  {
    hide Le;
    LeBytes(block);
    MarkedValue(block);
  }

  lemma SecondBlock(block: seq<Byte>)
    requires block == [0x72, 0x75, 0x6d, 0x20, 0x52, 0x65, 0x73, 0x65, 0x61, 0x72, 0x63, 0x68, 0x20, 0x47, 0x72, 0x6f]
    ensures Le(block + [1]) == 0x1_6f724720_68637261_65736552_206d7572
  {
    hide Le;
    LeBytes(block);
    MarkedValue(block);
  }

  lemma LastBytes(block: seq<Byte>)
    requires block == [0x75, 0x70]
    ensures Le(block + [1]) == 0x17075
  {
    var s := block + [1];
    assert Le(s[3..]) == 0;
    assert Le(s[2..]) == 1 + 0x100 * Le(s[2..][1..]);
    assert Le(s[1..]) == 0x70 + 0x100 * Le(s[1..][1..]);
  }

  lemma Products()
    ensures Times(0x1_6f462063_69687061_72676f74_70797243, 0x806d540_0e52447c_036d5554_08bed685)
         == 0xb83fe99_1ca66800_489155dc_d69e8426_ba277945_3994ac90_ed284034_da565ecf
    ensures Times(0xb83fe99_1ca66800_489155dc_d69e8428_2999c065_a1f81ef2_529ba586_fac3d441,
                  0x806d540_0e52447c_036d5554_08bed685)
         == 0x5c6ea474f5d58ca0bc365330b612ae3c8c72930099085a0667772ef09dacbd0c6db30af8b4178b89a84b0d8b699bc5
    ensures Times(
              0x5c6ea474f5d58ca0bc365330b612ae3c8c72930099085a0667772ef09dacbd0c6db30af8b4178b89a84b0d8b6b0c3a,
              0x806d540_0e52447c_036d5554_08bed685)
         == 0x2e5ecbab2169e57b276ec8bd4f294a37f46033c9827da0d667ee54f5238a3
            * 0x10000000000000000000000000000000000000000000000000000000000000000
            + 0xbd304c3304bec885d97750f8e2f23c31a138d213ce545f5e80766771cde1d622
  {
  }

  lemma Residue()
    ensures ((0x2e5ecbab2169e57b276ec8bd4f294a37f46033c9827da0d667ee54f5238a3
            * 0x10000000000000000000000000000000000000000000000000000000000000000
            + 0xbd304c3304bec885d97750f8e2f23c31a138d213ce545f5e80766771cde1d622)
             % PRIME + 0x1bf54941_aff6bf4a_fdb20dfb_8a800301) % TWO128
         == 0xa927010c_af8b2bc2_c6365130_c11d06a8
  {
  }

  lemma Evaluated(r: nat, a: seq<Byte>, b: seq<Byte>, c: seq<Byte>)
    requires |a| == 16 && |b| == 16 && 0 < |c| <= 16
    ensures Polynomial(r, a + b + c)
         == Times(Times(Times(Le(a + [1]), r) + Le(b + [1]), r) + Le(c + [1]), r)
  {
    hide Le, Times, Polynomial;
    NothingYet(r);
    assert [] + a == a;
    PolynomialStep(r, [], a);
    PolynomialStep(r, a, b);
    PolynomialStep(r, a + b, c);
  }

  lemma NothingYet(r: nat)
    ensures Polynomial(r, []) == 0
  {
  }

  /** The tag of 34 bytes of text. */
  lemma TagVector(key: seq<Byte>, message: seq<Byte>)
    requires key == [0x85, 0xd6, 0xbe, 0x78, 0x57, 0x55, 0x6d, 0x33, 0x7f, 0x44, 0x52, 0xfe, 0x42, 0xd5, 0x06, 0xa8,
                     0x01, 0x03, 0x80, 0x8a, 0xfb, 0x0d, 0xb2, 0xfd, 0x4a, 0xbf, 0xf6, 0xaf, 0x41, 0x49, 0xf5, 0x1b]
    requires message
          == [0x43, 0x72, 0x79, 0x70, 0x74, 0x6f, 0x67, 0x72, 0x61, 0x70, 0x68, 0x69, 0x63, 0x20, 0x46, 0x6f,
              0x72, 0x75, 0x6d, 0x20, 0x52, 0x65, 0x73, 0x65, 0x61, 0x72, 0x63, 0x68, 0x20, 0x47, 0x72, 0x6f,
              0x75, 0x70]
    ensures ToBytes(TagNumber(key, message), 16)
         == [0xa8, 0x06, 0x1d, 0xc1, 0x30, 0x51, 0x36, 0xc6, 0xc2, 0x2b, 0x8b, 0xaf, 0x0c, 0x01, 0x27, 0xa9]
  {
    hide Le, Times, Polynomial, Point, ToBytes;
    KeyParts(key);
    MessageParts(message);
    NumberComputed(key, message[..16], message[16..32], message[32..]);
    TagComputed();
  }

  lemma KeyParts(key: seq<Byte>)
    requires key == [0x85, 0xd6, 0xbe, 0x78, 0x57, 0x55, 0x6d, 0x33, 0x7f, 0x44, 0x52, 0xfe, 0x42, 0xd5, 0x06, 0xa8,
                     0x01, 0x03, 0x80, 0x8a, 0xfb, 0x0d, 0xb2, 0xfd, 0x4a, 0xbf, 0xf6, 0xaf, 0x41, 0x49, 0xf5, 0x1b]
    ensures |key| == 32 && Point(key) == 0x806d540_0e52447c_036d5554_08bed685
    ensures Le(key[16..]) == 0x1bf54941_aff6bf4a_fdb20dfb_8a800301
  {
    hide Le, Point;
    assert key[..16]
        == [0x85, 0xd6, 0xbe, 0x78, 0x57, 0x55, 0x6d, 0x33, 0x7f, 0x44, 0x52, 0xfe, 0x42, 0xd5, 0x06, 0xa8];
    VectorPoint(key);
    VectorPad(key[16..]);
  }

  lemma MessageParts(message: seq<Byte>)
    requires message
          == [0x43, 0x72, 0x79, 0x70, 0x74, 0x6f, 0x67, 0x72, 0x61, 0x70, 0x68, 0x69, 0x63, 0x20, 0x46, 0x6f,
              0x72, 0x75, 0x6d, 0x20, 0x52, 0x65, 0x73, 0x65, 0x61, 0x72, 0x63, 0x68, 0x20, 0x47, 0x72, 0x6f,
              0x75, 0x70]
    ensures message == message[..16] + message[16..32] + message[32..]
    ensures Le(message[..16] + [1]) == 0x1_6f462063_69687061_72676f74_70797243
    ensures Le(message[16..32] + [1]) == 0x1_6f724720_68637261_65736552_206d7572
    ensures Le(message[32..] + [1]) == 0x17075
  {
    hide Le;
    FirstBlock(message[..16]);
    SecondBlock(message[16..32]);
    LastBytes(message[32..]);
  }

  lemma NumberComputed(key: seq<Byte>, a: seq<Byte>, b: seq<Byte>, c: seq<Byte>)
    requires |key| == 32 && |a| == 16 && |b| == 16 && |c| == 2
    requires Point(key) == 0x806d540_0e52447c_036d5554_08bed685 &&
             Le(key[16..]) == 0x1bf54941_aff6bf4a_fdb20dfb_8a800301
    requires Le(a + [1]) == 0x1_6f462063_69687061_72676f74_70797243 &&
             Le(b + [1]) == 0x1_6f724720_68637261_65736552_206d7572 && Le(c + [1]) == 0x17075
    ensures TagNumber(key, a + b + c) == 0xa927010c_af8b2bc2_c6365130_c11d06a8
  {
    hide Le, Times, Polynomial, Point;
    Evaluated(Point(key), a, b, c);
    Products();
    Residue();
  }

  lemma TagComputed()
    ensures ToBytes(0xa927010c_af8b2bc2_c6365130_c11d06a8, 16)
         == [0xa8, 0x06, 0x1d, 0xc1, 0x30, 0x51, 0x36, 0xc6, 0xc2, 0x2b, 0x8b, 0xaf, 0x0c, 0x01, 0x27, 0xa9]
  {
    hide Le, ToBytes;
    var tag: seq<Byte> :=
      [0xa8, 0x06, 0x1d, 0xc1, 0x30, 0x51, 0x36, 0xc6, 0xc2, 0x2b, 0x8b, 0xaf, 0x0c, 0x01, 0x27, 0xa9];
    LeBytes(tag);
    assert Pow(0x100, 8) == BASE64;
    PowAdd(0x100, 8, 8);
    LeOfToBytes(0xa927010c_af8b2bc2_c6365130_c11d06a8, 16);
    LeInjective(tag, ToBytes(0xa927010c_af8b2bc2_c6365130_c11d06a8, 16));
  }
}
