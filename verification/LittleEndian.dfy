/** Little-endian bytes, as kernel/aead.c and kernel/fat32.c read and write them. */
module LittleEndian {
  import opened Numbers
  import opened Words
  import opened Bits

  /** The number a run of bytes stands for, least significant byte first. */
  function Le(s: seq<Byte>): nat {
    if |s| == 0 then 0 else s[0] + 0x100 * Le(s[1..])
  }

  /** read_le32 and read32: the four bytes occupy disjoint bits, so or-ing them together adds them up. */
  function Read32(s: seq<Byte>, at: nat): (w: Word)
    requires at + 4 <= |s|
  {
    s[at] as int + 0x100 * s[at + 1] as int + 0x1_0000 * s[at + 2] as int + 0x100_0000 * s[at + 3] as int
  }

  function Read16(s: seq<Byte>, at: nat): (w: Half)
    requires at + 2 <= |s|
  {
    s[at] as int + 0x100 * s[at + 1] as int
  }

  /** write_le32 and write32: the low byte of each shifted copy. */
  function Bytes32(w: Word): (s: seq<Byte>)
    ensures |s| == 4
  {
    [w % 0x100, w / 0x100 % 0x100, w / 0x1_0000 % 0x100, w / 0x100_0000 % 0x100]
  }

  function Bytes16(h: Half): (s: seq<Byte>)
    ensures |s| == 2
  {
    [h % 0x100, h / 0x100 % 0x100]
  }

  /** What the source writes: or-ing the shifted bytes gives Read32. */
  lemma Read32IsOr(s: seq<Byte>, at: nat)
    requires at + 4 <= |s|
    ensures Read32(s, at)
         == Or(Or(Or(s[at], s[at + 1] as int * 0x100), s[at + 2] as int * 0x1_0000), s[at + 3] as int * 0x100_0000)
  {
    hide Or, Pow;
    BytePowers();
    OrDisjoint(s[at], s[at + 1] as int * 0x100, s[at + 1], 8);
    var two := s[at] as int + s[at + 1] as int * 0x100;
    OrDisjoint(two, s[at + 2] as int * 0x1_0000, s[at + 2], 16);
    OrDisjoint(two + s[at + 2] as int * 0x1_0000, s[at + 3] as int * 0x100_0000, s[at + 3], 24);
  }

  lemma BytePowers()
    ensures Pow(2, 8) == 0x100 && Pow(2, 16) == 0x1_0000 && Pow(2, 24) == 0x100_0000
  {
    assert Pow(2, 8) == 0x100;
    PowAdd(2, 8, 8);
    PowAdd(2, 16, 8);
  }

  lemma Read32Le(s: seq<Byte>, at: nat)
    requires at + 4 <= |s|
    ensures Read32(s, at) == Le(s[at..at + 4])
  {
    LeFour(s[at..at + 4]);
  }

  lemma LeFour(t: seq<Byte>)
    requires |t| == 4
    ensures Le(t) == Read32(t, 0)
  {
    var u := t[1..];
    var v := u[1..];
    var w := v[1..];
    assert Le(w) == w[0] + 0x100 * Le(w[1..]);
    assert Le(v) == v[0] + 0x100 * Le(w);
    assert Le(u) == u[0] + 0x100 * Le(v);
  }

  lemma Bytes32Read(w: Word)
    ensures Read32(Bytes32(w), 0) == w
  {
    var x, y, z := w / 0x100, w / 0x1_0000, w / 0x100_0000;
    assert y == x / 0x100 && z == y / 0x100 && z % 0x100 == z;
    assert w == w % 0x100 + 0x100 * x && x == x % 0x100 + 0x100 * y && y == y % 0x100 + 0x100 * z;
  }

  lemma Read32Bytes(s: seq<Byte>, at: nat)
    requires at + 4 <= |s|
    ensures Bytes32(Read32(s, at)) == s[at..at + 4]
  {
    var a, b, c, d := s[at] as int, s[at + 1] as int, s[at + 2] as int, s[at + 3] as int;
    var w := Read32(s, at);
    var x, y := b + 0x100 * c + 0x1_0000 * d, c + 0x100 * d;
    assert w == a + 0x100 * x && w % 0x100 == a && w / 0x100 == x;
    assert x == b + 0x100 * y && x % 0x100 == b && x / 0x100 == y;
    assert w / 0x1_0000 == x / 0x100 && y % 0x100 == c && y / 0x100 == d;
    assert w / 0x100_0000 == w / 0x1_0000 / 0x100;
  }

  lemma {:induction false} LeSplit(s: seq<Byte>, k: nat)
    requires k <= |s|
    ensures Le(s) == Le(s[..k]) + Pow(0x100, k) * Le(s[k..])
  {
    if k == 0 {
      assert s[0..] == s;
    } else {
      LeSplit(s[1..], k - 1);
      assert s[..k][1..] == s[1..][..k - 1] && s[1..][k - 1..] == s[k..];
      assert Pow(0x100, k) * Le(s[k..]) == 0x100 * (Pow(0x100, k - 1) * Le(s[k..]));
    }
  }

  /** Trailing zero bytes carry no value. */
  lemma {:induction false} LeZeros(s: seq<Byte>)
    requires forall i :: 0 <= i < |s| ==> s[i] == 0
    ensures Le(s) == 0
  {
    if |s| > 0 {
      LeZeros(s[1..]);
    }
  }

  lemma LeTrailing(s: seq<Byte>, zeros: seq<Byte>)
    requires forall i :: 0 <= i < |zeros| ==> zeros[i] == 0
    ensures Le(s + zeros) == Le(s)
  {
    var t := s + zeros;
    LeSplit(t, |s|);
    assert t[..|s|] == s && t[|s|..] == zeros;
    LeZeros(zeros);
  }

  /** Equal numbers in equally many bytes are the same bytes. */
  lemma {:induction false} LeInjective(s: seq<Byte>, t: seq<Byte>)
    requires |s| == |t| && Le(s) == Le(t)
    ensures s == t
  {
    if |s| > 0 {
      assert s[0] == Le(s) % 0x100 && t[0] == Le(t) % 0x100;
      LeInjective(s[1..], t[1..]);
      assert s == [s[0]] + s[1..] && t == [t[0]] + t[1..];
    }
  }

  /** n in k bytes, least significant first. */
  function ToBytes(n: nat, k: nat): (s: seq<Byte>)
    ensures |s| == k
  {
    if k == 0 then [] else [n % 0x100] + ToBytes(n / 0x100, k - 1)
  }

  lemma {:induction false} LeOfToBytes(n: nat, k: nat)
    requires n < Pow(0x100, k)
    ensures Le(ToBytes(n, k)) == n
    decreases k
  {
    if k > 0 {
      LeOfToBytes(n / 0x100, k - 1);
      assert ToBytes(n, k)[1..] == ToBytes(n / 0x100, k - 1);
    }
  }

  /** Byte i is the number shifted right by 8 i, masked to a byte. */
  lemma {:induction false} ToBytesAt(n: nat, k: nat, i: nat)
    requires i < k
    ensures ToBytes(n, k)[i] == Shr(n, 8 * i) % 0x100
    decreases k
  {
    hide Shr;
    if i == 0 {
      ShrNone(n);
    } else {
      ToBytesAt(n / 0x100, k - 1, i - 1);
      ShrSplit(n, 8, 8 * (i - 1));
      ShrEight(n);
    }
  }

  lemma ShrNone(n: nat)
    ensures Shr(n, 0) == n
  {
  }

  lemma ShrEight(n: nat)
    ensures Shr(n, 8) == n / 0x100
  {
    assert Pow(2, 8) == 0x100;
    ShrIsDivision(n, 8);
  }

  /** write16 and write32, in place. */
  method Write16(a: array<Byte>, at: nat, value: Half)
    requires at + 2 <= a.Length
    modifies a
    ensures Read16(a[..], at) == value
    ensures forall i :: 0 <= i < a.Length && !(at <= i < at + 2) ==> a[i] == old(a[i])
  {
    a[at], a[at + 1] := value % 0x100, value / 0x100 % 0x100;
  }

  method Write32(a: array<Byte>, at: nat, value: Word)
    requires at + 4 <= a.Length
    modifies a
    ensures Read32(a[..], at) == value
    ensures forall i :: 0 <= i < a.Length && !(at <= i < at + 4) ==> a[i] == old(a[i])
  {
    hide Bytes32;
    Bytes32Read(value);
    var b := Bytes32(value);
    a[at], a[at + 1], a[at + 2], a[at + 3] := b[0], b[1], b[2], b[3];
  }
}
