/** kernel/bignum.c: the number record, comparison, subtraction, shifting and long division. */
module Bignum {
  import opened Numbers
  import opened Words
  import opened Limbs

  const MAX_LIMBS := 128
  const CAPACITY := 130

  /** BIGNUM: a fixed buffer of limbs and how many of them are in use. */
  class BigNum {
    const limb: array<Word>
    var count: nat

    /** The shape every operation keeps; the top limb may still be zero. */
    ghost predicate Padded()
      reads this, limb
    {
      limb.Length == CAPACITY && count <= CAPACITY && forall i :: count <= i < CAPACITY ==> limb[i] == 0
    }

    /** Trimmed as well: the number has one representation. */
    ghost predicate Valid()
      reads this, limb
    {
      Padded() && (count > 0 ==> limb[count - 1] != 0)
    }

    ghost function Value(): nat
      requires Padded()
      reads this, limb
    {
      Val(limb[..count])
    }

    constructor ()
      ensures Valid() && count == 0 && fresh(limb)
    {
      limb := new Word[CAPACITY](_ => 0);
      count := 0;
    }

    /** Structure assignment. */
    method CopyFrom(other: BigNum)
      requires Padded() && other.Padded() && (this == other || limb != other.limb)
      modifies this, limb
      ensures Padded() && count == other.count && limb[..] == old(other.limb[..])
      ensures other.Padded() && Value() == old(other.Value())
      ensures old(other.Valid()) ==> Valid()
    {
      for i := 0 to CAPACITY
        modifies limb
        invariant limb[..i] == other.limb[..i]
        invariant other.limb[..] == old(other.limb[..])
      {
        limb[i] := other.limb[i];
      }
      count := other.count;
      assert limb[..] == limb[..CAPACITY] == other.limb[..CAPACITY] == other.limb[..];
      assert limb[..count] == limb[..][..count];
      assert old(other.limb[..other.count]) == old(other.limb[..])[..count];
    }

    method Trim()
      requires Padded()
      modifies this`count
      ensures Valid() && count <= old(count) && Value() == old(Value())
    {
      while count > 0 && limb[count - 1] == 0
        invariant Padded() && count <= old(count) && Value() == old(Value())
      {
        assert limb[..count][..count - 1] == limb[..count - 1];
        count := count - 1;
      }
    }

    method Small(value: Word)
      requires limb.Length == CAPACITY
      modifies this, limb
      ensures Valid() && Value() == value
    {
      for i := 0 to CAPACITY
        invariant forall j :: 0 <= j < i ==> limb[j] == 0
      {
        limb[i] := 0;
      }
      count := 0;
      if value != 0 {
        limb[0] := value;
        count := 1;
        assert limb[..1] == [value];
        ValHead([value]);
      }
    }

    /** The value does not depend on how far past `count` one looks. */
    lemma ValueUpTo(k: nat)
      requires Padded() && count <= k <= CAPACITY
      ensures Value() == Val(limb[..k])
    {
      ValPad(limb[..k], count);
      assert limb[..k][..count] == limb[..count];
    }
  }

  method Compare(left: BigNum, right: BigNum) returns (order: int)
    requires left.Valid() && right.Valid()
    ensures order == (if left.Value() < right.Value() then -1 else if left.Value() > right.Value() then 1 else 0)
  {
    ghost var s, t := left.limb[..left.count], right.limb[..right.count];
    if left.count != right.count {
      if left.count > right.count {
        ValLonger(t, s);
        return 1;
      }
      ValLonger(s, t);
      return -1;
    }
    var at := left.count - 1;
    while at >= 0
      invariant -1 <= at < left.count
      invariant forall i :: at < i < left.count ==> left.limb[i] == right.limb[i]
    {
      if left.limb[at] != right.limb[at] {
        if left.limb[at] > right.limb[at] {
          ValDecide(t, s, at);
          return 1;
        }
        ValDecide(s, t, at);
        return -1;
      }
      at := at - 1;
    }
    assert s == t;
    return 0;
  }

  /** One limb of a subtraction with borrow, as 64-bit unsigned arithmetic does it. */
  lemma BorrowStep(x: Word, y: Word, borrow: int)
    requires 0 <= borrow <= 1
    ensures var value := (x - borrow - y) % BASE64;
            var out := value / BASE % 2;
            0 <= out <= 1 && value % BASE == x - y - borrow + out * BASE
  {
  }

  /** The low `at` limbs of d are those of x minus those of y, less one borrowed from above. */
  ghost predicate Subtracted(d: seq<Word>, x: seq<Word>, y: seq<Word>, at: nat, borrow: int) {
    at <= |d| && at <= |x| && at <= |y| && 0 <= borrow <= 1 &&
    Val(d[..at]) == Val(x[..at]) - Val(y[..at]) + if borrow == 1 then Weight(at) else 0
  }

  lemma BorrowTerms(x: int, y: int, borrow: int, out: int, w: int)
    requires 0 <= borrow <= 1 && 0 <= out <= 1
    ensures (x - y - borrow + out * BASE) * w
         == x * w - y * w - (if borrow == 1 then w else 0) + if out == 1 then BASE * w else 0
  {
  }

  lemma SubtractStep(d: seq<Word>, x: seq<Word>, y: seq<Word>, at: nat, borrow: int, digit: Word, out: int)
    requires Subtracted(d, x, y, at, borrow) && at < |d| && at < |x| && at < |y|
    requires 0 <= out <= 1 && digit == x[at] - y[at] - borrow + out * BASE
    ensures Subtracted(d[at := digit], x, y, at + 1, out)
  {
    var e, w := d[at := digit], Weight(at);
    assert e[..at] == d[..at];
    ValPrefix(e, at);
    ValPrefix(x, at);
    ValPrefix(y, at);
    BorrowTerms(x[at], y[at], borrow, out, w);
    assert Weight(at + 1) == BASE * w;
  }

  /** The loop of the subtraction, over the low n limbs. */
  method SubtractLimbs(left: array<Word>, right: BigNum, n: nat) returns (borrow: int)
    requires right.Padded() && left != right.limb && left.Length == CAPACITY && n <= CAPACITY
    modifies left
    ensures Subtracted(left[..], old(left[..]), right.limb[..], n, borrow)
    ensures forall i :: n <= i < CAPACITY ==> left[i] == old(left[i])
  {
    ghost var x, y := left[..], right.limb[..];
    borrow := 0;
    for at := 0 to n
      invariant right.limb[..] == y
      invariant forall i :: at <= i < CAPACITY ==> left[i] == x[i]
      invariant Subtracted(left[..], x, y, at, borrow)
    {
      var value: DWord := (left[at] - borrow - (if at < right.count then right.limb[at] else 0)) % BASE64;
      ghost var d := left[..];
      BorrowStep(x[at], y[at], borrow);
      var digit: Word := value % BASE;
      SubtractStep(d, x, y, at, borrow, digit, value / BASE % 2);
      left[at] := digit;
      assert left[..] == d[at := digit];
      borrow := value / BASE % 2;
    }
  }

  method Subtract(left: BigNum, right: BigNum)
    requires left.Valid() && right.Valid() && left != right && left.limb != right.limb
    requires left.Value() >= right.Value()
    modifies left, left.limb
    ensures left.Valid() && left.Value() == old(left.Value()) - right.Value()
    ensures left.count <= old(left.count)
  {
    ghost var n := left.count;
    ghost var x, y := left.limb[..], right.limb[..];
    assert x[..n] == left.limb[..n] && y[..right.count] == right.limb[..right.count];
    if n < right.count {
      ValLonger(x[..n], y[..right.count]);
      assert false;
    }
    right.ValueUpTo(n);
    var _ := SubtractLimbs(left.limb, right, left.count);
    assert left.limb[..][..n] == left.limb[..n] && y[..n] == right.limb[..n];
    ValBound(left.limb[..n]);
    left.Trim();
  }

  /** The low `at` limbs of d are those of x doubled, less a carry into the limb above. */
  ghost predicate Doubled(d: seq<Word>, x: seq<Word>, at: nat, carry: int) {
    at <= |d| && at <= |x| && 0 <= carry <= 1 &&
    Val(d[..at]) == 2 * Val(x[..at]) - if carry == 1 then Weight(at) else 0
  }

  lemma DoubleWord(x: Word)
    ensures var d := (x * 2) % BASE;
            d % 2 == 0 && d <= BASE - 2 && d == x * 2 - x / 0x8000_0000 * BASE && 0 <= x / 0x8000_0000 <= 1
  {
    assert (x * 2) % BASE == x * 2 - x / 0x8000_0000 * BASE;
  }

  lemma DoubleTerms(x: Word, carry: int, out: int, w: int)
    requires 0 <= carry <= 1 && out == x / 0x8000_0000
    ensures 0 <= out <= 1 && (x * 2) % BASE == 2 * x - out * BASE
    ensures ((x * 2) % BASE + carry) * w
         == 2 * (x * w) - (if out == 1 then BASE * w else 0) + if carry == 1 then w else 0
  {
    assert (x * 2) % BASE == 2 * x - out * BASE;
    var digit := 2 * x - out * BASE + carry;
    assert digit * w == 2 * (x * w) - out * (BASE * w) + carry * w;
  }

  lemma DoubleStep(d: seq<Word>, x: seq<Word>, at: nat, carry: int)
    requires Doubled(d, x, at, carry) && at < |d| && at < |x|
    ensures Doubled(d[at := (x[at] * 2) % BASE + carry], x, at + 1, x[at] / 0x8000_0000)
  {
    var digit, out := (x[at] * 2) % BASE + carry, x[at] / 0x8000_0000;
    var e, w := d[at := digit], Weight(at);
    assert e[..at] == d[..at];
    ValPrefix(e, at);
    ValPrefix(x, at);
    DoubleTerms(x[at], carry, out, w);
    assert Weight(at + 1) == BASE * w;
  }

  lemma DoubledCarry(d: seq<Word>, x: seq<Word>, n: nat, e: seq<Word>)
    requires Doubled(d, x, n, 1) && n < |e| && e[..n] == d[..n] && e[n] == 1
    ensures Val(e[..n + 1]) == 2 * Val(x[..n])
  {
    ValPrefix(e, n);
  }

  /** A carry out of the top is a number of one limb more. */
  lemma DoubledFits(d: seq<Word>, x: seq<Word>, n: nat)
    requires Doubled(d, x, n, 1) && 2 * Val(x[..n]) < Weight(|d|)
    ensures n < |d|
  {
  }

  /** The loop of the shift: the low n limbs doubled in place, and the bit that left the top one. */
  method DoubleLimbs(limb: array<Word>, n: nat) returns (carry: Word)
    requires n <= limb.Length
    modifies limb
    ensures Doubled(limb[..], old(limb[..]), n, carry)
    ensures forall i :: n <= i < limb.Length ==> limb[i] == old(limb[i])
    ensures if n == 0 then carry == 0 else limb[0] % 2 == 0
    ensures n > 0 && carry == 0 && limb[n - 1] == 0 ==> old(limb[n - 1]) == 0
  {
    ghost var x := limb[..];
    carry := 0;
    for at := 0 to n
      invariant forall i :: at <= i < limb.Length ==> limb[i] == x[i]
      invariant Doubled(limb[..], x, at, carry)
      invariant if at == 0 then carry == 0 else limb[0] % 2 == 0
      invariant at > 0 && carry == 0 && limb[at - 1] == 0 ==> x[at - 1] == 0
    {
      ghost var d := limb[..];
      DoubleStep(d, x, at, carry);
      DoubleWord(limb[at]);
      var out := limb[at] / 0x8000_0000;
      var digit: Word := (limb[at] * 2) % BASE + carry;
      limb[at] := digit;
      assert limb[..] == d[at := digit];
      carry := out;
    }
  }

  /** value << 1. The carry out of the top limb is kept as long as there is a limb to keep it in. */
  method ShiftLeftOne(value: BigNum)
    requires value.Valid() && 2 * value.Value() < Weight(value.limb.Length)
    modifies value, value.limb
    ensures value.Valid() && value.Value() == 2 * old(value.Value())
    ensures value.limb[0] % 2 == 0
  {
    ghost var n, x := value.count, value.limb[..];
    assert x[..n] == value.limb[..n];
    var carry := DoubleLimbs(value.limb, value.count);
    ghost var d := value.limb[..];
    assert d[..n] == value.limb[..n];
    if carry != 0 {
      DoubledFits(d, x, n);
      if value.count < CAPACITY {
        value.limb[value.count] := carry;
        value.count := value.count + 1;
        DoubledCarry(d, x, n, value.limb[..]);
        assert value.limb[..][..n + 1] == value.limb[..n + 1];
      }
    }
  }
}
