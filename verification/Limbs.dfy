/** The number a run of 32-bit limbs stands for, least significant limb first. */
module Limbs {
  import opened Numbers
  import opened Words

  /** 2^(32 * limbs). */
  function Weight(limbs: nat): (w: int)
    ensures 0 < w
  {
    PowPositive(BASE, limbs);
    Pow(BASE, limbs)
  }

  function Val(s: seq<Word>): nat {
    if |s| == 0 then 0
    else
      MulNonneg(s[|s| - 1], Weight(|s| - 1));
      Val(s[..|s| - 1]) + s[|s| - 1] * Weight(|s| - 1)
  }

  lemma ValPrefix(s: seq<Word>, k: nat)
    requires k < |s|
    ensures Val(s[..k + 1]) == Val(s[..k]) + s[k] * Weight(k)
  {
    assert s[..k + 1][..k] == s[..k];
  }

  lemma {:induction false} ValBound(s: seq<Word>)
    ensures Val(s) < Weight(|s|)
  {
    if |s| > 0 {
      var k := |s| - 1;
      ValBound(s[..k]);
      MulMono(s[k], Weight(k), BASE - 1, Weight(k));
      assert Weight(|s|) == BASE * Weight(k);
    }
  }

  lemma {:induction false} ValSplit(s: seq<Word>, k: nat)
    requires k <= |s|
    ensures Val(s) == Val(s[..k]) + Weight(k) * Val(s[k..])
  {
    if k == |s| {
      assert s[..k] == s;
    } else {
      var n := |s| - 1;
      ValSplit(s[..n], k);
      assert s[..n][..k] == s[..k];
      assert s[..n][k..] == s[k..][..n - k];
      PowAdd(BASE, k, n - k);
      var high, top := Val(s[k..][..n - k]), s[n];
      assert Val(s[k..]) == high + top * Weight(n - k);
      SplitTop(Weight(k), high, top, Weight(n - k));
    }
  }

  lemma SplitTop(w: int, high: int, top: int, v: int)
    ensures w * (high + top * v) == w * high + top * (w * v)
  {
  }

  lemma ValHead(s: seq<Word>)
    requires |s| > 0
    ensures Val(s) == s[0] + BASE * Val(s[1..])
  {
    ValSplit(s, 1);
    assert s[..1] == [s[0]];
    assert Weight(1) == BASE * Weight(0);
    assert Val([s[0]]) == Val([s[0]][..0]) + s[0] * Weight(0);
  }

  lemma {:induction false} ValZero(s: seq<Word>)
    requires forall i :: 0 <= i < |s| ==> s[i] == 0
    ensures Val(s) == 0
  {
    if |s| > 0 {
      ValZero(s[..|s| - 1]);
    }
  }

  /** Limbs that are zero above k carry no value. */
  lemma ValPad(s: seq<Word>, k: nat)
    requires k <= |s| && forall i :: k <= i < |s| ==> s[i] == 0
    ensures Val(s) == Val(s[..k])
  {
    ValSplit(s, k);
    ValZero(s[k..]);
  }

  /** A nonzero top limb puts the value above everything that is one limb shorter. */
  lemma ValTop(s: seq<Word>)
    requires |s| > 0 && s[|s| - 1] != 0
    ensures Weight(|s| - 1) <= Val(s)
  {
    MulMono(1, Weight(|s| - 1), s[|s| - 1], Weight(|s| - 1));
  }

  lemma ValLonger(s: seq<Word>, t: seq<Word>)
    requires |s| < |t| && t[|t| - 1] != 0
    ensures Val(s) < Val(t)
  {
    ValBound(s);
    ValTop(t);
    PowMono(BASE, |s|, |t| - 1);
  }

  /** The highest limb that differs decides. */
  lemma ValDecide(s: seq<Word>, t: seq<Word>, k: nat)
    requires |s| == |t| && k < |s| && s[k] < t[k]
    requires forall i :: k < i < |s| ==> s[i] == t[i]
    ensures Val(s) < Val(t)
  {
    ValSplit(s, k + 1);
    ValSplit(t, k + 1);
    assert s[k + 1..] == t[k + 1..];
    ValPrefix(s, k);
    ValPrefix(t, k);
    ValBound(s[..k]);
    DigitDecides(s[k], t[k], Weight(k));
  }

  lemma DigitDecides(x: int, y: int, w: int)
    requires 0 <= x < y && 0 < w
    ensures x * w + w <= y * w
  {
    MulMono(x + 1, w, y, w);
    assert (x + 1) * w == x * w + w;
  }

  /** Taking whole limbs off the bottom is a shift by 32 bits each. */
  lemma {:induction false} ShrLimbs(s: seq<Word>, k: nat)
    requires k <= |s|
    ensures Shr(Val(s), 32 * k) == Val(s[k..])
  {
    if k == 0 {
      assert s[0..] == s;
    } else {
      ShrLimbs(s, k - 1);
      var rest := s[k - 1..];
      ValHead(rest);
      assert rest[1..] == s[k..];
      ShrSplit(Val(s), 32 * (k - 1), 32);
      assert Pow(2, 32) == BASE by { PowerOf32(); }
      ShrAbove(rest[0], Val(s[k..]), 32);
      ShrBelow(rest[0], 32);
    }
  }

  lemma PowerOf32()
    ensures Pow(2, 32) == BASE
  {
    assert Pow(2, 8) == 256;
    PowAdd(2, 8, 8);
    PowAdd(2, 16, 16);
  }

  /** Bit `at` of the number is bit at % 32 of limb at / 32. */
  lemma BitOfLimb(s: seq<Word>, at: nat)
    requires at < 32 * |s|
    ensures Shr(Val(s), at) % 2 == Shr(s[at / 32], at % 32) % 2
  {
    hide Val, Shr;
    var q, r := at / 32, at % 32;
    assert at == 32 * q + r;
    LimbAt(s, q);
    LowLimbBit(s[q], Val(s[q + 1..]), r);
    ShrSplit(Val(s), 32 * q, r);
  }

  lemma LimbAt(s: seq<Word>, k: nat)
    requires k < |s|
    ensures Shr(Val(s), 32 * k) == s[k] + BASE * Val(s[k + 1..])
  {
    ShrLimbs(s, k);
    ValHead(s[k..]);
    assert s[k..][1..] == s[k + 1..];
  }

  /** What sits above a limb does not reach its bits. */
  lemma LowLimbBit(limb: Word, high: nat, r: nat)
    requires r < 32
    ensures Shr(limb + BASE * high, r) % 2 == Shr(limb, r) % 2
  {
    var p, q := Pow(2, r), Pow(2, 31 - r);
    PowerOf32();
    assert Pow(2, 32) == 2 * Pow(2, 31);
    PowAdd(2, r, 31 - r);
    PowPositive(2, 31 - r);
    MulNonneg(q, high);
    Regroup(p, q, high);
    ShrAbove(limb, 2 * (q * high), r);
  }

  lemma Regroup(x: int, y: int, z: int)
    ensures (2 * (x * y)) * z == x * (2 * (y * z))
  {
  }
}
