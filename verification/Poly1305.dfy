/** Poly1305 as section 2.5 of RFC 8439 defines it, over whole numbers. */
module Poly1305 {
  import opened Numbers
  import opened Words
  import opened LittleEndian
  import opened PolyLimbs
  import opened PolyClamp

  /** Each block of up to sixteen bytes, a one byte after it, is added to the accumulator, which is then multiplied by
      r. The modulus is taken once, at the end. */
  function Polynomial(r: nat, message: seq<Byte>): nat {
    if message == [] then 0
    else
      var k := (|message| - 1) / 16 * 16;
      Times(Polynomial(r, message[..k]) + Le(message[k..] + [1]), r)
  }

  function Times(a: nat, b: nat): nat {
    MulNonneg(a, b);
    a * b
  }

  /** The number whose sixteen bytes are the tag. */
  function TagNumber(key: seq<Byte>, message: seq<Byte>): nat
    requires |key| == 32
  {
    (Polynomial(Point(key), message) % PRIME + Le(key[16..])) % TWO128
  }

  /** A run of whole blocks from an accumulator v, `top` being the value of the bit above each block. */
  function Horner(v: nat, data: seq<Byte>, top: nat, r: nat): nat
    requires |data| % 16 == 0
  {
    if data == [] then v
    else
      var k := |data| - 16;
      Times(Horner(v, data[..k], top, r) + Le(data[k..]) + top, r)
  }

  lemma HornerOne(v: nat, data: seq<Byte>, block: seq<Byte>, top: nat, r: nat)
    requires |data| % 16 == 0 && |block| == 16
    ensures Horner(v, data + block, top, r) == Times(Horner(v, data, top, r) + Le(block) + top, r)
  {
    hide Le, Times;
    var all := data + block;
    assert all[..|all| - 16] == data && all[|all| - 16..] == block;
  }

  lemma MarkedValue(block: seq<Byte>)
    requires |block| == 16
    ensures Le(block + [1]) == Le(block) + TWO128
  {
    LeSplit(block + [1], 16);
    assert (block + [1])[..16] == block && (block + [1])[16..] == [1];
    assert Le([1]) == 1 + 0x100 * Le([1][1..]);
    assert Pow(0x100, 8) == BASE64;
    PowAdd(0x100, 8, 8);
  }

  lemma LastBlock(n: nat)
    requires n > 0
    ensures (n - 1) / 16 * 16 == if n % 16 == 0 then n - 16 else n / 16 * 16
  {
  }

  lemma PolynomialStep(r: nat, message: seq<Byte>, block: seq<Byte>)
    requires |message| % 16 == 0 && 0 < |block| <= 16
    ensures Polynomial(r, message + block) == Times(Polynomial(r, message) + Le(block + [1]), r)
  {
    hide Le, Times;
    var all := message + block;
    LastBlock(|all|);
    assert (|all| - 1) / 16 * 16 == |message|;
    assert all[..|message|] == message && all[|message|..] == block;
  }

  /** Whole blocks continue the polynomial. */
  lemma {:induction false} PolynomialBlocks(r: nat, message: seq<Byte>, data: seq<Byte>)
    requires |message| % 16 == 0 && |data| % 16 == 0
    ensures Polynomial(r, message + data) == Horner(Polynomial(r, message), data, TWO128, r)
    decreases |data|
  {
    hide Le, Times, Polynomial;
    if data == [] {
      assert message + data == message;
    } else {
      var k := |data| - 16;
      PolynomialBlocks(r, message, data[..k]);
      PolynomialStep(r, message + data[..k], data[k..]);
      assert message + data[..k] + data[k..] == message + data;
      MarkedValue(data[k..]);
    }
  }

  /** A short last block: a one byte, then zeroes, and no bit above. */
  function Closed(tail: seq<Byte>): (block: seq<Byte>)
    requires |tail| < 16
    ensures |block| == 16
  {
    tail + [1] + seq(15 - |tail|, _ => 0)
  }

  lemma ClosedValue(tail: seq<Byte>)
    requires |tail| < 16
    ensures Le(Closed(tail)) == Le(tail + [1])
  {
    hide Le;
    var zeros: seq<Byte> := seq(15 - |tail|, _ => 0);
    LeTrailing(tail + [1], zeros);
    assert Closed(tail) == tail + [1] + zeros;
  }
}
