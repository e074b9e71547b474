/** kernel/fat32.c: the allocation table as a plain array of entries, and the chains in it. */
module FatTable {
  import opened Numbers
  import opened Words
  import opened Bits

  /** a * b as repeated addition, for the products of two variables in a volume's layout. */
  function Times(a: nat, b: nat): (product: nat) {
    if a == 0 then 0 else b + Times(a - 1, b)
  }

  lemma TimesNone(b: nat)
    ensures Times(0, b) == 0
  {
  }

  lemma TimesNext(k: nat, b: nat)
    ensures Times(k + 1, b) == Times(k, b) + b
  {
  }

  lemma InsideCapacity(k: nat, rest: nat, b: nat, n: nat)
    requires k < n && rest <= b
    ensures Times(k, b) + rest <= Times(n, b)
    ensures rest < b ==> Times(k, b) + rest < Times(n, b)
  {
    TimesMono(k + 1, n, b);
  }

  lemma {:induction false} TimesIsProduct(a: nat, b: nat)
    ensures Times(a, b) == a * b
  {
    if a > 0 {
      TimesIsProduct(a - 1, b);
    }
  }

  /** a / b rounded down, by repeated subtraction. */
  function Over(a: nat, b: nat): nat
    requires 0 < b
  {
    if a < b then 0 else 1 + Over(a - b, b)
  }

  lemma {:induction false} OverFacts(a: nat, b: nat)
    requires 0 < b
    ensures Over(a, b) == a / b && Over(a, b) * b <= a < (Over(a, b) + 1) * b && Over(a, b) <= a
  {
    if a >= b {
      OverFacts(a - b, b);
      DivModUnique(a, b, 1 + (a - b) / b, (a - b) % b);
    } else {
      DivModUnique(a, b, 0, a);
    }
  }

  lemma {:induction false} TimesMono(a: nat, c: nat, b: nat)
    requires a <= c
    ensures Times(a, b) <= Times(c, b)
    decreases c
  {
    if a < c {
      TimesMono(a, c - 1, b);
    }
  }

  /** Twenty-eight bits of an entry are a link; the four above them are reserved. */
  const LINKS := 0x1000_0000
  const FREE := 0
  const BAD := 0x0FFF_FFF7
  const END_MINIMUM := 0x0FFF_FFF8
  const LAST := 0x0FFF_FFFF

  type Table = seq<Word>

  function Link(entry: Word): (link: nat)
    ensures link < LINKS
  {
    entry % LINKS
  }

  /** An entry with a new link and its old reserved bits. */
  function Merge(entry: Word, value: Word): (merged: Word)
    ensures Link(merged) == value % LINKS && merged / LINKS == entry / LINKS
  {
    entry / LINKS * LINKS + value % LINKS
  }

  /** The masks write_fat_entry uses come to the same thing. */
  lemma MergeIsOr(entry: Word, value: Word)
    ensures Merge(entry, value) == Or(And(value, LAST), And(entry, 0xF000_0000))
  {
    LinkBits();
    var low, high: int := entry % LINKS, entry / LINKS;
    LowMask(value);
    HighMask(entry, low, high, 0xF000_0000);
    OrDisjoint(value % LINKS, high * LINKS, high, 28);
  }

  lemma LowMask(value: Word)
    ensures And(value, LAST) == value % LINKS
  {
    LinkBits();
    AndOnes(value, 28);
  }

  lemma HighMask(entry: Word, low: nat, high: nat, mask: nat)
    requires entry == low + LINKS * high && low < LINKS && high < 16 && mask == LINKS * 15
    ensures And(entry, mask) == LINKS * high
  {
    LinkBits();
    KeepHigh(entry, low, high, 28, LINKS, 4, 16, mask);
  }

  lemma LinkBits()
    ensures Pow(2, 28) == LINKS && Pow(2, 4) == 16
  {
    PowAdd(2, 8, 8);
    PowAdd(2, 16, 8);
    PowAdd(2, 24, 4);
    assert Pow(2, 8) == 0x100 && Pow(2, 4) == 16;
  }

  lemma KeepHigh(x: nat, low: nat, high: nat, k: nat, p: nat, n: nat, q: nat, mask: nat)
    requires p == Pow(2, k) && q == Pow(2, n) && mask == p * (q - 1)
    requires low < p && high < q && x == low + p * high
    ensures And(x, mask) == p * high
  {
    PowPositive(2, k);
    PowPositive(2, n);
    AndAll(high, n);
    AndSplit(x, mask, low, high, 0, q - 1, k);
  }

  predicate Ended(link: nat) {
    link >= END_MINIMUM
  }

  predicate InRange(cluster: nat, total: nat) {
    2 <= cluster < total
  }

  predicate IsFree(t: Table, cluster: nat)
    requires cluster < |t|
  {
    Link(t[cluster]) == FREE
  }

  /** No cluster is free. */
  ghost predicate Full(t: Table, total: nat) {
    total <= |t| && forall c: nat :: InRange(c, total) ==> !IsFree(t, c)
  }

  function Put(t: Table, cluster: nat, value: Word): (u: Table)
    requires cluster < |t|
    ensures |u| == |t|
  {
    t[cluster := Merge(t[cluster], value)]
  }

  /** One step along a chain, as next_cluster answers it. */
  function Next(t: Table, total: nat, cluster: nat): (link: nat)
    requires total <= |t|
    ensures link < LINKS
  {
    if InRange(cluster, total) then Link(t[cluster]) else LAST
  }

  /** A chain: linked in order, inside the volume, closed by an end mark. */
  predicate Chain(t: Table, total: nat, ids: seq<nat>)
    requires total <= |t|
  {
    |ids| > 0 && (forall i :: 0 <= i < |ids| ==> InRange(ids[i], total)) &&
    (forall i :: 0 <= i < |ids| - 1 ==> Link(t[ids[i]]) == ids[i + 1]) &&
    Ended(Link(t[ids[|ids| - 1]]))
  }

  predicate Apart(ids: seq<nat>, others: seq<nat>) {
    forall i, j :: 0 <= i < |ids| && 0 <= j < |others| ==> ids[i] != others[j]
  }

  predicate Distinct(ids: seq<nat>) {
    forall i, j :: 0 <= i < j < |ids| ==> ids[i] != ids[j]
  }

  /** The cluster k links on from `first`, or 0 once the chain has been left. */
  function Follow(t: Table, total: nat, first: nat, k: nat): nat
    requires total <= |t|
  {
    if k == 0 then first
    else
      var before := Follow(t, total, first, k - 1);
      var link := Next(t, total, before);
      if before == 0 || Ended(link) || link < 2 then 0 else link
  }

  lemma {:induction false} ChainFollow(t: Table, total: nat, ids: seq<nat>, k: nat)
    requires total <= |t| && total <= BAD && Chain(t, total, ids)
    ensures Follow(t, total, ids[0], k) == if k < |ids| then ids[k] else 0
  {
    if k > 0 {
      ChainFollow(t, total, ids, k - 1);
    }
  }

  /** Following a link from inside a chain: the next cluster, or an end mark at the last. */
  lemma ChainNext(t: Table, total: nat, ids: seq<nat>, k: nat)
    requires total <= |t| && total <= BAD && Chain(t, total, ids) && k < |ids|
    ensures InRange(ids[k], total)
    ensures k + 1 < |ids| ==> Next(t, total, ids[k]) == ids[k + 1] && InRange(ids[k + 1], total) && !Ended(ids[k + 1])
    ensures k + 1 == |ids| ==> Ended(Next(t, total, ids[k]))
  {
  }

  /** A chain that ends has no cluster twice: a repeated cluster would repeat its successors for ever. */
  lemma {:induction false} ChainNeverReturns(t: Table, total: nat, ids: seq<nat>, i: nat, j: nat)
    requires total <= |t| && total <= BAD && Chain(t, total, ids) && i < j < |ids|
    ensures ids[i] != ids[j]
    decreases |ids| - j
  {
    assert InRange(ids[i + 1], total);
    if ids[i] == ids[j] && j + 1 < |ids| {
      ChainNeverReturns(t, total, ids, i + 1, j + 1);
    }
  }

  lemma ChainHead(t: Table, total: nat, ids: seq<nat>)
    requires total <= |t| && Chain(t, total, ids)
    ensures |ids| > 0 && InRange(ids[0], total)
  {
  }

  lemma ChainDistinct(t: Table, total: nat, ids: seq<nat>)
    requires total <= |t| && total <= BAD && Chain(t, total, ids)
    ensures Distinct(ids)
  {
    forall i, j | 0 <= i < j < |ids|
      ensures ids[i] != ids[j]
    {
      ChainNeverReturns(t, total, ids, i, j);
    }
  }

  /** Chains that share a cluster share everything after it. */
  lemma {:induction false} ChainsAgree(t: Table, total: nat, ids: seq<nat>, others: seq<nat>, i: nat, j: nat, k: nat)
    requires total <= |t| && total <= BAD && Chain(t, total, ids) && Chain(t, total, others)
    requires i < |ids| && j < |others| && ids[i] == others[j] && i + k < |ids|
    ensures j + k < |others| && others[j + k] == ids[i + k]
  {
    if k > 0 {
      ChainsAgree(t, total, ids, others, i, j, k - 1);
      assert InRange(ids[i + k], total) && Link(t[ids[i + k - 1]]) == ids[i + k];
    }
  }

  /** There is one chain from a cluster. */
  lemma ChainUnique(t: Table, total: nat, ids: seq<nat>, others: seq<nat>)
    requires total <= |t| && total <= BAD && Chain(t, total, ids) && Chain(t, total, others) && ids[0] == others[0]
    ensures ids == others
  {
    ChainsAgree(t, total, ids, others, 0, 0, |ids| - 1);
    ChainsAgree(t, total, others, ids, 0, 0, |others| - 1);
    forall k | 0 <= k < |ids|
      ensures ids[k] == others[k]
    {
      ChainsAgree(t, total, ids, others, 0, 0, k);
    }
  }

  /** Nothing in a chain is free. */
  lemma ChainHoldsNoFree(t: Table, total: nat, ids: seq<nat>, i: nat)
    requires total <= |t| && Chain(t, total, ids) && i < |ids|
    ensures !IsFree(t, ids[i])
  {
    if i + 1 < |ids| {
      assert InRange(ids[i + 1], total);
    }
  }

  /** What allocate_cluster does to the table: claim a free cluster, and link it after `previous` when there is one. */
  function Extended(t: Table, found: nat, previous: nat): (u: Table)
    requires found < |t| && previous < |t| && found < BASE
    ensures |u| == |t|
  {
    var claimed := Put(t, found, LAST);
    if previous == 0 then claimed else Put(claimed, previous, found)
  }

  lemma ExtendedAt(t: Table, found: nat, previous: nat, c: nat)
    requires found < |t| && previous < |t| && found < LINKS && c < |t| && found != previous
    ensures var u := Extended(t, found, previous);
            Link(u[c]) == (if c == previous && previous != 0 then found else if c == found then LAST else Link(t[c])) &&
            (c != found && c != previous ==> u[c] == t[c]) && (previous == 0 && c != found ==> u[c] == t[c])
  {
    hide Merge, Link;
  }

  /** A claimed cluster on its own is a chain of one. */
  lemma ChainOfOne(t: Table, total: nat, found: nat)
    requires total <= |t| && total <= BAD && InRange(found, total)
    ensures Chain(Extended(t, found, 0), total, [found])
  {
    ExtendedAt(t, found, 0, found);
  }

  /** Linked after the last cluster of a chain it lengthens that chain by exactly one. */
  lemma ChainExtended(t: Table, total: nat, ids: seq<nat>, found: nat)
    requires total <= |t| && total <= BAD && Chain(t, total, ids) && InRange(found, total) && IsFree(t, found)
    ensures Chain(Extended(t, found, ids[|ids| - 1]), total, ids + [found])
  {
    var last := ids[|ids| - 1];
    var u, longer := Extended(t, found, last), ids + [found];
    ChainDistinct(t, total, ids);
    ExtendedAt(t, found, last, found);
    ExtendedAt(t, found, last, last);
    forall i | 0 <= i < |longer| - 1
      ensures Link(u[longer[i]]) == longer[i + 1]
    {
      ChainHoldsNoFree(t, total, ids, i);
      ExtendedAt(t, found, last, ids[i]);
    }
  }

  // ---- Counting free clusters -----------------------------------------------

  function FreeCount(t: Table, low: nat, high: nat): (count: nat)
    requires low <= high <= |t|
    ensures count <= high - low
  {
    if low == high then 0 else FreeCount(t, low, high - 1) + if IsFree(t, high - 1) then 1 else 0
  }

  lemma {:induction false} FreeCountPut(t: Table, low: nat, high: nat, cluster: nat, value: Word)
    requires low <= cluster < high <= |t|
    ensures FreeCount(Put(t, cluster, value), low, high)
         == FreeCount(t, low, high) - (if IsFree(t, cluster) then 1 else 0) + (if value % LINKS == FREE then 1 else 0)
  {
    hide Merge, Link;
    if cluster + 1 < high {
      FreeCountPut(t, low, high - 1, cluster, value);
    } else {
      FreeCountKept(t, Put(t, cluster, value), low, cluster);
    }
  }

  lemma {:induction false} FreeCountKept(t: Table, u: Table, low: nat, high: nat)
    requires low <= high <= |t| && |u| == |t|
    requires forall c :: low <= c < high ==> t[c] == u[c]
    ensures FreeCount(t, low, high) == FreeCount(u, low, high)
  {
    if low < high {
      FreeCountKept(t, u, low, high - 1);
    }
  }

  lemma {:induction false} FreeCountZero(t: Table, low: nat, high: nat)
    requires low <= high <= |t|
    ensures FreeCount(t, low, high) == 0 <==> forall c :: low <= c < high ==> !IsFree(t, c)
  {
    if low < high {
      FreeCountZero(t, low, high - 1);
    }
  }

  // ---- Releasing clusters -----------------------------------------------------

  /** The table with a set of clusters given back. */
  function Released(t: Table, gone: seq<nat>): (u: Table)
    ensures |u| == |t|
  {
    seq(|t|, c requires 0 <= c < |t| => if c in gone then Merge(t[c], FREE) else t[c])
  }

  lemma ReleasedNext(t: Table, gone: seq<nat>, c: nat)
    requires c < |t|
    ensures Put(Released(t, gone), c, FREE) == Released(t, if c in gone then gone else gone + [c])
  {
    hide Merge;
    var u, v := Released(t, gone), Released(t, if c in gone then gone else gone + [c]);
    assert Merge(Merge(t[c], FREE), FREE) == Merge(t[c], FREE);
    forall i | 0 <= i < |t|
      ensures Put(u, c, FREE)[i] == v[i]
    {
    }
  }

  /** What free_chain visits, on any table at all: link after link until it leaves the volume or meets itself. */
  predicate Trail(t: Table, total: nat, first: nat, trail: seq<nat>)
    requires total <= |t|
  {
    Distinct(trail) && (forall i :: 0 <= i < |trail| ==> InRange(trail[i], total)) &&
    (forall i :: 0 <= i < |trail| - 1 ==> Link(t[trail[i]]) == trail[i + 1]) &&
    if |trail| == 0 then !InRange(first, total)
    else trail[0] == first && (!InRange(Link(t[trail[|trail| - 1]]), total) || Link(t[trail[|trail| - 1]]) in trail)
  }

  /** On a proper chain the trail is the chain. */
  lemma TrailOfChain(t: Table, total: nat, ids: seq<nat>, trail: seq<nat>)
    requires total <= |t| && total <= BAD && Chain(t, total, ids) && Trail(t, total, ids[0], trail)
    ensures trail == ids
  {
    TrailAlong(t, total, ids, trail, |trail| - 1);
    forall k | 0 <= k < |trail|
      ensures k < |ids| && trail[k] == ids[k]
    {
      TrailAlong(t, total, ids, trail, k);
    }
    if |trail| < |ids| {
      var following := Link(t[trail[|trail| - 1]]);
      assert following == ids[|trail|];
      var k :| 0 <= k < |trail| && trail[k] == following;
      ChainNeverReturns(t, total, ids, k, |trail|);
      assert false;
    }
  }

  lemma {:induction false} TrailAlong(t: Table, total: nat, ids: seq<nat>, trail: seq<nat>, k: nat)
    requires total <= |t| && total <= BAD && Chain(t, total, ids) && Trail(t, total, ids[0], trail) && k < |trail|
    ensures k < |ids| && trail[k] == ids[k]
  {
    if k > 0 {
      TrailAlong(t, total, ids, trail, k - 1);
      assert InRange(trail[k], total);
    }
  }

  /** Clusters that are not free, which is what free_chain uses up. */
  function Used(t: Table, total: nat): (count: nat)
    requires 2 <= total <= |t|
  {
    total - 2 - FreeCount(t, 2, total)
  }
}
