/** kernel/aead.c: the POLY1305 record - a message arriving in pieces of any size. */
module PolyStream {
  import opened Numbers
  import opened Words
  import opened LittleEndian
  import opened PolyLimbs
  import opened PolyClamp
  import opened PolyFinish
  import opened Poly1305

  class Stream {
    var r: Limbs5
    var s: Words4
    var accumulator: Limbs5
    const leftover: array<Byte>
    var used: nat

    /** Everything absorbed since the stream was started. */
    ghost var absorbed: seq<Byte>

    /** The accumulator is congruent to the polynomial of the full blocks absorbed, and the buffer holds the rest. */
    ghost predicate Valid()
      reads this, leftover
    {
      leftover.Length == 16 && r.Reduced() && accumulator.Carried() &&
      used < 16 && used == |absorbed| % 16 &&
      Congruent(accumulator.Value(), Polynomial(r.Value(), absorbed[..|absorbed| - used]), PRIME) &&
      leftover[..used] == absorbed[|absorbed| - used..]
    }

    /** poly_start. */
    constructor (key: seq<Byte>)
      requires |key| == 32
      ensures Valid() && r.Value() == Point(key) && s.Value() == Le(key[16..]) && absorbed == [] && fresh(leftover)
    {
      hide R, Pad, Point, Le, Words4.Value, Limbs5.Value, Congruent, Polynomial;
      ClampCorrect(key);
      PadValue(key);
      r := R(key);
      s := Pad(key);
      accumulator := Limbs5(0, 0, 0, 0, 0);
      leftover := new Byte[16];
      used := 0;
      absorbed := [];
      new;
      NothingAbsorbed(r.Value());
      assert leftover[..used] == [] && absorbed[..0] == [];
    }

    /** One pass of the loop of poly_blocks. */
    method OneBlock(data: array<Byte>, at: nat, high: nat, ghost v: nat)
      requires at + 16 <= data.Length && accumulator.Carried() && r.Reduced() && (high == 0 || high == 0x100_0000)
      requires Congruent(accumulator.Value(), v, PRIME)
      modifies this`accumulator
      ensures accumulator.Carried()
      ensures Congruent(accumulator.Value(),
              Times(v + Le(data[at..at + 16]) + high * 0x100_0000_0000_0000_0000_0000_0000, r.Value()), PRIME)
    {
      hide Absorb, Load, Le, Limbs5.Value, Times, Congruent;
      ghost var h, block := accumulator, data[at..at + 16];
      AbsorbCorrect(h, block, high, r);
      LoadValue(h, block, high);
      accumulator := Absorb(accumulator, data[at..at + 16], high, r);
      StepCongruent(accumulator.Value(), h.Value(), v, Le(block) + high * 0x100_0000_0000_0000_0000_0000_0000,
          r.Value());
    }

    /** poly_blocks: the whole blocks of `length` bytes of data, `final` for the closed last one. */
    method Blocks(data: array<Byte>, start: nat, length: nat, final: bool, ghost v: nat)
      requires start + length <= data.Length && accumulator.Carried() && r.Reduced()
      requires Congruent(accumulator.Value(), v, PRIME)
      modifies this`accumulator
      ensures accumulator.Carried()
      ensures Congruent(accumulator.Value(),
                        Horner(v, data[start..start + length / 16 * 16], if final then 0 else TWO128, r.Value()), PRIME)
    {
      hide Le, Times, Horner, Congruent, Limbs5.Value, Limbs5.Carried, Limbs5.Reduced;
      var high := if final then 0 else 0x100_0000;
      ghost var top := if final then 0 else TWO128;
      var at, left := start, length;
      HornerNone(v, data[start..at], top, r.Value());
      while left >= 16
        invariant 0 <= left <= length && start <= at && at + left == start + length && (at - start) % 16 == 0
        invariant accumulator.Carried()
        invariant Congruent(accumulator.Value(), Horner(v, data[start..at], top, r.Value()), PRIME)
      {
        HornerOne(v, data[start..at], data[at..at + 16], top, r.Value());
        assert data[start..at] + data[at..at + 16] == data[start..at + 16];
        OneBlock(data, at, high, Horner(v, data[start..at], top, r.Value()));
        at := at + 16;
        left := left - 16;
      }
      WholePart(length, left, at - start);
    }

    /** poly_add: the piece continues the message exactly where the last one ended, however it was cut. */
    method Add(data: array<Byte>, start: nat, length: nat)
      requires Valid() && start + length <= data.Length && data != leftover
      modifies this`accumulator, this`used, this`absorbed, leftover
      ensures Valid() && absorbed == old(absorbed) + data[start..start + length]
    {
      hide Stream.Valid;
      var take := 0;
      if used != 0 {
        take := TakeLeftover(data, start, length);
        if used != 0 {
          return;
        }
      }
      ghost var first, rest := data[start..start + take], data[start + take..start + length];
      assert absorbed == old(absorbed) + first;
      AddRest(data, start + take, length - take);
      assert absorbed == old(absorbed) + first + rest;
      assert first + rest == data[start..start + length];
    }

    /** The rest of Add, with the buffer empty: whole blocks straight from the data, the remainder kept. */
    method AddRest(data: array<Byte>, at: nat, left: nat)
      requires Valid() && used == 0 && at + left <= data.Length && data != leftover
      modifies this`accumulator, this`used, this`absorbed, leftover
      ensures Valid() && absorbed == old(absorbed) + data[at..at + left]
    {
      hide Stream.Valid;
      var whole := 0;
      if left >= 16 {
        whole := left / 16 * 16;
        WholeBlocks(data, at, whole);
      }
      assert absorbed == old(absorbed) + data[at..at + whole];
      if left - whole != 0 {
        KeepRest(data, at + whole, left - whole);
      }
      assert data[at..at + whole] + data[at + whole..at + left] == data[at..at + left];
    }

    /** Bytes put behind those held back. */
    method TopUp(data: array<Byte>, start: nat, take: nat)
      requires start + take <= data.Length && data != leftover && used + take <= leftover.Length
      modifies leftover
      ensures leftover[..used + take] == old(leftover[..used]) + data[start..start + take]
    {
      for i := 0 to take
        modifies leftover
        invariant leftover[..used + i] == old(leftover[..used]) + data[start..start + i]
      {
        leftover[used + i] := data[start + i];
      }
    }

    /** A full buffer absorbed. */
    method AbsorbLeftover(ghost full: seq<Byte>)
      requires leftover.Length == 16 && r.Reduced() && accumulator.Carried() && |full| % 16 == 0
      requires absorbed == full + leftover[..16]
      requires Congruent(accumulator.Value(), Polynomial(r.Value(), full), PRIME)
      modifies this`accumulator, this`used
      ensures Valid() && used == 0
    {
      hide Polynomial, Congruent, Limbs5.Value, Limbs5.Carried, Limbs5.Reduced, Horner;
      Blocks(leftover, 0, 16, false, Polynomial(r.Value(), full));
      PolynomialBlocks(r.Value(), full, leftover[0..16]);
      assert full + leftover[0..16] == absorbed[..|absorbed|];
      used := 0;
      WholePart(|absorbed|, 0, |absorbed|);
    }

    /** The first part of Add: top up the buffer, and absorb it once it is full. */
    method TakeLeftover(data: array<Byte>, start: nat, length: nat) returns (take: nat)
      requires Valid() && start + length <= data.Length && data != leftover && used != 0
      modifies this`accumulator, this`used, this`absorbed, leftover
      ensures Valid() && take <= length && absorbed == old(absorbed) + data[start..start + take]
      ensures used != 0 ==> take == length
    {
      hide Polynomial, Congruent, Limbs5.Value, Limbs5.Carried, Limbs5.Reduced, Horner;
      take := 16 - used;
      if take > length {
        take := length;
      }
      ghost var full := absorbed[..|absorbed| - used];
      assert |full| % 16 == 0;
      TopUp(data, start, take);
      absorbed := absorbed + data[start..start + take];
      used := used + take;
      assert absorbed[..|full|] == full && absorbed[|full|..] == leftover[..used];
      if used < 16 {
        WholePart(|absorbed|, used, |full|);
      } else {
        AbsorbLeftover(full);
      }
    }

    method WholeBlocks(data: array<Byte>, at: nat, whole: nat)
      requires Valid() && at + whole <= data.Length && used == 0 && whole % 16 == 0
      modifies this`accumulator, this`absorbed
      ensures Valid() && used == 0 && absorbed == old(absorbed) + data[at..at + whole]
    {
      hide Polynomial, Congruent, Limbs5.Value, Limbs5.Carried, Limbs5.Reduced, Horner;
      ghost var full := absorbed[..|absorbed| - used];
      assert full == absorbed && |full| % 16 == 0;
      Blocks(data, at, whole, false, Polynomial(r.Value(), full));
      PolynomialBlocks(r.Value(), full, data[at..at + whole]);
      absorbed := absorbed + data[at..at + whole];
      WholePart(|absorbed|, 0, |absorbed|);
      assert absorbed[..|absorbed| - used] == absorbed;
    }

    method KeepRest(data: array<Byte>, at: nat, left: nat)
      requires Valid() && at + left <= data.Length && used == 0 && left < 16 && data != leftover
      modifies this`used, this`absorbed, leftover
      ensures Valid() && absorbed == old(absorbed) + data[at..at + left]
    {
      hide Polynomial, Congruent, Limbs5.Value, Limbs5.Carried, Limbs5.Reduced;
      for i := 0 to left
        modifies leftover
        invariant leftover[..i] == data[at..at + i]
      {
        leftover[i] := data[at + i];
      }
      ghost var before := absorbed;
      absorbed := absorbed + data[at..at + left];
      used := left;
      assert absorbed[..|absorbed| - used] == before == before[..|before|];
      assert absorbed[|absorbed| - used..] == data[at..at + left];
    }

    /** poly_finish: the tag is the residue of the message's polynomial plus the pad. The record is spent afterwards. */
    method Finish(tag: array<Byte>)
      requires Valid() && tag.Length == 16 && tag != leftover
      modifies this`accumulator, this`used, leftover, tag
      ensures Le(tag[..]) == (Polynomial(r.Value(), old(absorbed)) % PRIME + s.Value()) % TWO128
    {
      hide Polynomial, Times, Le, Congruent, Limbs5.Value, Words4.Value, Limbs5.Reduced, Limbs5.Carried, Horner, Closed;
      ghost var message := absorbed;
      ghost var k := |message| - used;
      assert leftover[..used] == message[k..];
      if used != 0 {
        CloseLeftover();
        ghost var v := Polynomial(r.Value(), message[..k]);
        Blocks(leftover, 0, 16, true, v);
        assert leftover[0..16] == Closed(message[k..]);
        ClosedValue(message[k..]);
        HornerSingle(v, leftover[0..16], 0, r.Value());
        PolynomialStep(r.Value(), message[..k], message[k..]);
        assert message[..k] + message[k..] == message;
      } else {
        assert message[..k] == message;
      }
      CongruentResidue(accumulator.Value(), Polynomial(r.Value(), message), PRIME);
      WriteTag(tag);
    }

    method WriteTag(tag: array<Byte>)
      requires accumulator.Carried() && tag.Length == 16
      modifies tag
      ensures Le(tag[..]) == (accumulator.Value() % PRIME + s.Value()) % TWO128
    {
      hide Tag, Le, Limbs5.Value, Words4.Value, Limbs5.Carried;
      TagCorrect(accumulator, s);
      var bytes := Tag(accumulator, s);
      for i := 0 to 16
        invariant tag[..i] == bytes[..i]
      {
        tag[i] := bytes[i];
      }
      assert tag[..] == bytes;
    }

    method CloseLeftover()
      requires leftover.Length == 16 && 0 < used < 16
      modifies this`used, leftover
      ensures leftover[..] == Closed(old(leftover[..used]))
    {
      ghost var n := used;
      leftover[used] := 1;
      used := used + 1;
      while used < 16
        invariant n < used <= 16
        invariant leftover[..n] == old(leftover[..used]) && leftover[n] == 1
        invariant forall i :: n < i < used ==> leftover[i] == 0
      {
        leftover[used] := 0;
        used := used + 1;
      }
    }
  }

  lemma StepCongruent(next: nat, h: nat, v: nat, block: nat, r: nat)
    requires Congruent(next, (h + block) * r, PRIME) && Congruent(h, v, PRIME)
    ensures Congruent(next, Times(v + block, r), PRIME)
  {
    hide Congruent;
    CongruentFrom(block, block, PRIME, 0);
    CongruentAdd(h, v, block, block, PRIME);
    CongruentFrom(r, r, PRIME, 0);
    CongruentMul(h + block, v + block, r, r, PRIME);
    CongruentTrans(next, (h + block) * r, (v + block) * r, PRIME);
  }

  lemma NothingAbsorbed(r: nat)
    ensures Limbs5(0, 0, 0, 0, 0).Carried()
    ensures Congruent(Limbs5(0, 0, 0, 0, 0).Value(), Polynomial(r, []), PRIME)
  {
  }

  lemma WholePart(length: nat, left: nat, whole: nat)
    requires left < 16 && whole % 16 == 0 && whole + left == length
    ensures whole == length / 16 * 16 && left == length % 16
  {
  }

  lemma HornerNone(v: nat, data: seq<Byte>, top: nat, r: nat)
    requires data == []
    ensures Horner(v, data, top, r) == v
  {
  }

  lemma HornerSingle(v: nat, block: seq<Byte>, top: nat, r: nat)
    requires |block| == 16
    ensures Horner(v, block, top, r) == Times(v + Le(block) + top, r)
  {
    hide Le, Times, Horner;
    HornerNone(v, [], top, r);
    HornerOne(v, [], block, top, r);
    assert [] + block == block;
  }

  /** What a stream gives is settled by its key and its message: cutting the message differently changes neither the
      residue it holds nor the bytes it keeps. */
  lemma CutsDoNotMatter(a: Stream, b: Stream)
    requires a.Valid() && b.Valid() && a.r == b.r && a.absorbed == b.absorbed
    ensures a.accumulator.Value() % PRIME == b.accumulator.Value() % PRIME && a.used == b.used
    ensures a.leftover[..a.used] == b.leftover[..b.used]
  {
    hide Polynomial, Limbs5.Value, Limbs5.Carried, Limbs5.Reduced;
    var p := Polynomial(a.r.Value(), a.absorbed[..|a.absorbed| - a.used]);
    CongruentResidue(a.accumulator.Value(), p, PRIME);
    CongruentResidue(b.accumulator.Value(), p, PRIME);
  }
}
