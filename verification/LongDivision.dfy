/** kernel/bignum.c: reading bits, and the remainder by long division one bit at a time. */
module LongDivision {
  import opened Numbers
  import opened Words
  import opened Limbs
  import opened Bignum

  method BitOf(value: BigNum, bit: nat) returns (b: int)
    requires value.Padded()
    ensures b == Shr(value.Value(), bit) % 2
  {
    if bit >= value.count * 32 {
      ShrLimbs(value.limb[..value.count], value.count);
      ShrSplit(value.Value(), 32 * value.count, bit - 32 * value.count);
      ShrZero(bit - 32 * value.count);
      return 0;
    }
    BitOfLimb(value.limb[..value.count], bit);
    return Shr(value.limb[bit / 32], bit % 32) % 2;
  }

  lemma {:induction false} ShrZero(bits: nat)
    ensures Shr(0, bits) == 0
  {
    if bits > 0 {
      ShrZero(bits - 1);
    }
  }

  lemma ShrNone(value: nat)
    ensures Shr(value, 0) == value
  {
  }

  lemma TopLimb(s: seq<Word>, bits: nat)
    requires |s| > 0 && bits <= 32
    ensures Shr(Val(s), 32 * (|s| - 1) + bits) == Shr(s[|s| - 1], bits)
  {
    LimbAt(s, |s| - 1);
    ShrSplit(Val(s), 32 * (|s| - 1), bits);
    assert Val(s[|s| - 1 + 1..]) == 0;
  }

  lemma LastBit(limb: nat, at: nat)
    requires Shr(limb, at + 1) == 0
    ensures Shr(limb, at) == Shr(limb, at) % 2
  {
    assert Shr(limb, at + 1) == Shr(limb, at) / 2;
  }

  /** How many bits the number has. An untrimmed number may get more than it needs, never fewer. */
  method BitLength(value: BigNum) returns (bits: nat)
    requires value.Padded()
    ensures Shr(value.Value(), bits) == 0
    ensures value.Valid() && bits > 0 ==> Shr(value.Value(), bits - 1) == 1
    ensures bits <= 32 * value.count
  {
    hide Pow, Shr;
    if value.count == 0 {
      ShrZero(0);
      return 0;
    }
    ghost var s := value.limb[..value.count];
    var limb := value.limb[value.count - 1];
    PowerOf32();
    ShrBelow(limb, 32);
    var at := 31;
    while at >= 0
      invariant -1 <= at <= 31 && Shr(limb, at + 1) == 0
    {
      LastBit(limb, at);
      if Shr(limb, at) % 2 != 0 {
        break;
      }
      at := at - 1;
    }
    bits := (value.count - 1) * 32 + at + 1;
    TopLimb(s, at + 1);
    if at >= 0 {
      TopLimb(s, at);
    } else {
      ShrNone(limb);
    }
  }

  /** What one step of the division does to the part of the number read so far. */
  lemma RemainderStep(x: nat, bit: int, n: int)
    requires 0 < n && 0 <= bit <= 1
    ensures var r := 2 * (x % n) + bit;
            0 <= r < 2 * n && (2 * x + bit) % n == if r >= n then r - n else r
  {
    var r := 2 * (x % n) + bit;
    DivModFacts(x, n);
    var q := 2 * (x / n);
    assert n * q == 2 * (n * (x / n));
    if r >= n {
      assert n * (q + 1) == n * q + n;
      DivModUnique(2 * x + bit, n, q + 1, r - n);
    } else {
      DivModUnique(2 * x + bit, n, q, r);
    }
  }

  /** Two limbs above the largest modulus: what is no larger than a modulus can be doubled. */
  lemma DoubleFits(r: nat, modulus: seq<Word>, capacity: nat)
    requires |modulus| < capacity && r <= Val(modulus)
    ensures 2 * r < Weight(capacity)
  {
    ValBound(modulus);
    PowMono(BASE, |modulus|, capacity - 1);
    assert Weight(capacity) == BASE * Weight(capacity - 1);
  }

  method SetLowBit(value: BigNum)
    requires value.Valid() && value.limb[0] % 2 == 0
    modifies value, value.limb
    ensures value.Valid() && value.Value() == old(value.Value()) + 1
  {
    ghost var s := value.limb[..value.count];
    if value.count == 0 {
      value.count := 1;
    }
    ghost var t := value.limb[..value.count];
    ValHead(t);
    value.limb[0] := value.limb[0] - value.limb[0] % 2 + 1;
    ghost var u := value.limb[..value.count];
    ValHead(u);
    assert u[1..] == t[1..];
    if |s| == 0 {
      assert t[1..] == [];
    } else {
      assert s == t;
    }
  }

  /** Shift the next bit into the remainder and take the modulus off once if it fits. With two limbs of headroom the
      shift cannot lose the bit it pushes out. */
  method DivisionStep(remainder: BigNum, bit: int, modulus: BigNum, ghost x: nat)
    requires remainder.Valid() && modulus.Valid() && remainder != modulus && remainder.limb != modulus.limb
    requires 0 <= bit <= 1 && modulus.count <= MAX_LIMBS
    requires modulus.Value() > 0 && remainder.Value() == x % modulus.Value()
    modifies remainder, remainder.limb
    ensures remainder.Valid() && remainder.Value() == (2 * x + bit) % modulus.Value()
  {
    hide Pow, Val, Weight;
    RemainderStep(x, bit, modulus.Value());
    DoubleFits(remainder.Value(), modulus.limb[..modulus.count], remainder.limb.Length);
    ShiftLeftOne(remainder);
    if bit != 0 {
      SetLowBit(remainder);
    }
    var order := Compare(remainder, modulus);
    if order >= 0 {
      Subtract(remainder, modulus);
    }
  }

  lemma ShrStep(x: nat, at: nat)
    ensures Shr(x, at) == 2 * Shr(x, at + 1) + Shr(x, at) % 2
  {
  }

  method Reduce(value: BigNum, modulus: BigNum)
    requires value.Valid() && modulus.Valid() && value != modulus && value.limb != modulus.limb
    requires 0 < modulus.count <= MAX_LIMBS
    modifies value, value.limb
    ensures value.Valid() && modulus.Value() > 0
    ensures value.Value() == old(value.Value()) % modulus.Value()
  {
    hide Val, Shr;
    Positive(modulus);
    var top := BitLength(value);
    var order := Compare(value, modulus);
    if order < 0 {
      DivModUnique(value.Value(), modulus.Value(), 0, value.Value());
      return;
    }
    var remainder := BringDown(value, modulus, top);
    value.CopyFrom(remainder);
  }

  lemma Positive(modulus: BigNum)
    requires modulus.Valid() && 0 < modulus.count
    ensures modulus.Value() > 0
  {
    ValTop(modulus.limb[..modulus.count]);
  }

  /** The bits of the value brought down one by one, highest first. */
  method BringDown(value: BigNum, modulus: BigNum, top: nat) returns (remainder: BigNum)
    requires value.Valid() && modulus.Valid() && 0 < modulus.count <= MAX_LIMBS && modulus.Value() > 0
    requires top <= 32 * value.count && Shr(value.Value(), top) == 0
    ensures fresh(remainder) && fresh(remainder.limb) && remainder.Valid()
    ensures remainder.Value() == value.Value() % modulus.Value()
  {
    hide Weight;
    ghost var v, n := value.Value(), modulus.Value();
    remainder := new BigNum();
    DivModUnique(0, n, 0, 0);
    for at := top downto 0
      modifies remainder, remainder.limb
      invariant remainder.Valid() && remainder.Value() == Shr(v, at) % n
    {
      var bit := BitOf(value, at);
      ShrStep(v, at);
      DivisionStep(remainder, bit, modulus, Shr(v, at + 1));
    }
  }

  method SkipLeadingZeros(value: array<Word>, count: nat) returns (top: nat)
    requires count <= value.Length
    ensures top <= 32 * count && Shr(Val(value[..count]), top) == 0
  {
    ghost var s := value[..count];
    top := count * 32;
    ShrLimbs(s, count);
    while top > 0 && Shr(value[(top - 1) / 32], (top - 1) % 32) % 2 == 0
      invariant 0 <= top <= 32 * count && Shr(Val(s), top) == 0
    {
      BitOfLimb(s, top - 1);
      ShrStep(Val(s), top - 1);
      top := top - 1;
    }
  }

  /** The same division over a plain array of limbs, which is where a double-width product lies. */
  method ReduceWide(value: array<Word>, count: nat, modulus: BigNum, out: BigNum)
    requires count <= value.Length && modulus.Valid() && 0 < modulus.count <= MAX_LIMBS
    requires out.Padded() && out != modulus && out.limb != modulus.limb && out.limb != value
    modifies out, out.limb
    ensures out.Valid() && modulus.Value() > 0
    ensures out.Value() == Val(value[..count]) % modulus.Value()
  {
    ValTop(modulus.limb[..modulus.count]);
    ghost var s := value[..count];
    ghost var v, n := Val(s), modulus.Value();
    var top := SkipLeadingZeros(value, count);
    var remainder := new BigNum();
    DivModUnique(0, n, 0, 0);
    for at := top downto 0
      modifies remainder, remainder.limb
      invariant remainder.Valid() && remainder.Value() == Shr(v, at) % n
    {
      BitOfLimb(s, at);
      ShrStep(v, at);
      DivisionStep(remainder, Shr(value[at / 32], at % 32) % 2, modulus, Shr(v, at + 1));
    }
    out.CopyFrom(remainder);
  }
}
