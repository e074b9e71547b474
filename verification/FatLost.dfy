/** kernel/fat32.c: clusters that belong to nothing, the free count they leave, and the copies of the table. */
module FatLost {
  import opened Words
  import opened LittleEndian
  import opened FatTable
  import opened FatVolume
  import opened FatAllocation
  import opened FatCheck

  /** In use, not bad, and reached by nothing. */
  predicate Lost(t: Table, seen: seq<bool>, c: nat)
    requires c < |t| && c < |seen|
  {
    Link(t[c]) != FREE && Link(t[c]) != BAD && !seen[c]
  }

  /** The table with the lost clusters below n given back. */
  function Swept(t: Table, seen: seq<bool>, n: nat): (u: Table)
    requires n <= |seen| && n <= |t|
    ensures |u| == |t|
  {
    seq(|t|, c requires 0 <= c < |t| => if 2 <= c < n && Lost(t, seen, c) then Merge(t[c], FREE) else t[c])
  }

  function BadCount(t: Table, low: nat, high: nat): (count: nat)
    requires low <= high <= |t|
  {
    if low == high then 0 else BadCount(t, low, high - 1) + if Link(t[high - 1]) == BAD then 1 else 0
  }

  function LostCount(t: Table, seen: seq<bool>, low: nat, high: nat): (count: nat)
    requires low <= high <= |t| && high <= |seen|
  {
    if low == high then 0 else LostCount(t, seen, low, high - 1) + if Lost(t, seen, high - 1) then 1 else 0
  }

  /** How far the pass has come: everything below n has been looked at. */
  ghost predicate Counted(v: Volume, t: Table, seen: seq<bool>, mayFree: bool, n: nat, used: nat, free: nat, lost: nat)
    reads v`table
  {
    2 <= n <= v.Total() <= |t| && v.Total() == |seen| && |v.table| == |t| &&
    v.table == (if mayFree then Swept(t, seen, n) else t) && free == FreeCount(v.table, 2, n) &&
    used + free + BadCount(t, 2, n) == n - 2 && lost == LostCount(t, seen, 2, n)
  }

  lemma CountedStart(v: Volume, seen: seq<bool>, mayFree: bool)
    requires v.Total() <= |v.table| && v.Total() == |seen|
    ensures Counted(v, v.table, seen, mayFree, 2, 0, 0, 0)
  {
    assert Swept(v.table, seen, 2) == v.table;
  }

  lemma SweptNext(t: Table, seen: seq<bool>, n: nat)
    requires 2 <= n < |seen| <= |t|
    ensures Swept(t, seen, n)[n] == t[n]
    ensures Swept(t, seen, n + 1) == if Lost(t, seen, n) then Put(Swept(t, seen, n), n, FREE) else Swept(t, seen, n)
  {
    hide Lost, Merge, Link;
  }

  /** The counts when one more entry has been looked at. */
  lemma CountedNext(v: Volume, t: Table, seen: seq<bool>, mayFree: bool, n: nat, before: Table, used: nat, free: nat,
                    lost: nat)
    requires 2 <= n < v.Total() <= |t| && v.Total() == |seen| && |before| == |t| == |v.table|
    requires before == (if mayFree then Swept(t, seen, n) else t) && free == FreeCount(before, 2, n)
    requires used + free + BadCount(t, 2, n) == n - 2 && lost == LostCount(t, seen, 2, n)
    requires v.table == if mayFree && Lost(t, seen, n) then Put(before, n, FREE) else before
    ensures before[n] == t[n]
    ensures var l := Link(t[n]);
            if l == FREE then Counted(v, t, seen, mayFree, n + 1, used, free + 1, lost)
            else if l == BAD then Counted(v, t, seen, mayFree, n + 1, used, free, lost)
            else if !Lost(t, seen, n) then Counted(v, t, seen, mayFree, n + 1, used + 1, free, lost)
            else if mayFree then Counted(v, t, seen, mayFree, n + 1, used, free + 1, lost + 1)
            else Counted(v, t, seen, mayFree, n + 1, used + 1, free, lost + 1)
  {
    hide Swept, Merge, FreeCount, BadCount, LostCount, Link;
    SweptNext(t, seen, n);
    CountSteps(t, seen, n);
    FreeStep(before, v.table, n);
    assert mayFree && Lost(t, seen, n) ==> Link(v.table[n]) == FREE by {
      PutFree(before, n);
    }
  }

  lemma PutFree(t: Table, n: nat)
    requires n < |t|
    ensures Link(Put(t, n, FREE)[n]) == FREE
  {
  }

  lemma CountSteps(t: Table, seen: seq<bool>, n: nat)
    requires 2 <= n < |t| && n < |seen|
    ensures BadCount(t, 2, n + 1) == BadCount(t, 2, n) + if Link(t[n]) == BAD then 1 else 0
    ensures LostCount(t, seen, 2, n + 1) == LostCount(t, seen, 2, n) + if Lost(t, seen, n) then 1 else 0
  {
  }

  lemma FreeStep(before: Table, after: Table, n: nat)
    requires 2 <= n < |before| == |after| && forall c :: 2 <= c < n ==> before[c] == after[c]
    ensures FreeCount(after, 2, n + 1) == FreeCount(before, 2, n) + if Link(after[n]) == FREE then 1 else 0
  {
    FreeCountKept(before, after, 2, n);
  }

  /** One entry of the lost pass. */
  method LostEntry(c: Check, cluster: nat, mayFree: bool, used: nat, free: nat, lost: nat, ghost t: Table)
    returns (used1: nat, free1: nat, lost1: nat)
    requires c.Valid() && InRange(cluster, c.fat.Total()) && Counted(c.fat, t, c.seen[..], mayFree, cluster, used,
             free, lost)
    requires c.fat.cacheValid && c.fat.cacheSector == cluster / PER_SECTOR
    modifies c.fat, c.fat.disk, c.fat.cache
    ensures c.Valid() && c.fat.Elsewhere() == old(c.fat.Elsewhere()) && c.fat.apart <= old(c.fat.apart)
    ensures Counted(c.fat, t, c.seen[..], mayFree, cluster + 1, used1, free1, lost1)
    ensures !mayFree ==> c.fat.disk[..] == old(c.fat.disk[..]) && c.fat.cacheDirty == old(c.fat.cacheDirty) &&
                         c.fat.searchHint == old(c.fat.searchHint)
  {
    hide Volume.Cached, Volume.Stored, Volume.Walked, Volume.Elsewhere, FreeCount, BadCount, LostCount, Swept, Merge,
         Read32, Holds;
    var v := c.fat;
    ghost var before, seen := v.table, c.seen[..];
    v.CachedEntry(cluster);
    used1, free1, lost1 := used, free, lost;
    SweptAt(t, seen, mayFree, cluster);
    var value := Read32(v.cache[..], cluster % PER_SECTOR * 4) % LINKS;
    if value != FREE && value != BAD && !c.seen[cluster] && mayFree {
      var ok := v.WriteEntry(cluster, FREE);
    }
    CountedNext(v, t, seen, mayFree, cluster, before, used, free, lost);
    if value == FREE {
      free1 := free + 1;
    } else if value == BAD {
    } else if c.seen[cluster] {
      used1 := used + 1;
    } else {
      lost1 := lost + 1;
      if mayFree {
        free1 := free + 1;
      } else {
        used1 := used + 1;
      }
    }
  }

  lemma SweptAt(t: Table, seen: seq<bool>, mayFree: bool, n: nat)
    requires 2 <= n < |seen| <= |t|
    ensures (if mayFree then Swept(t, seen, n) else t)[n] == t[n]
  {
  }

  /** The walk of the table: every entry of every sector, each read through the cache. */
  method CountTable(c: Check, mayFree: bool) returns (used: nat, free: nat, lost: nat)
    requires c.Valid()
    modifies c.fat, c.fat.disk, c.fat.cache
    ensures c.Valid() && c.fat.Elsewhere() == old(c.fat.Elsewhere()) && c.fat.apart <= old(c.fat.apart)
    ensures Counted(c.fat, old(c.fat.table), c.seen[..], mayFree, c.fat.Total(), used, free, lost)
    ensures !mayFree && old(!c.fat.cacheDirty) ==> !c.fat.cacheDirty && c.fat.disk[..] == old(c.fat.disk[..])
    ensures !mayFree ==> c.fat.searchHint == old(c.fat.searchHint)
  {
    hide Volume.Cached, Volume.Stored, Volume.Walked, Counted;
    var v := c.fat;
    ghost var t := v.table;
    CountedStart(v, c.seen[..], mayFree);
    used, free, lost := 0, 0, 0;
    var index := 0;
    while index < v.sectorsPerFat
      invariant index <= v.sectorsPerFat && c.Valid() && v.Elsewhere() == old(v.Elsewhere()) && v.apart <= old(v.apart)
      invariant Counted(v, t, c.seen[..], mayFree, ScanLimit(index * PER_SECTOR, v.Total()), used, free, lost)
      invariant !mayFree && old(!v.cacheDirty) ==> !v.cacheDirty && v.disk[..] == old(v.disk[..])
      invariant !mayFree ==> v.searchHint == old(v.searchHint)
    {
      var slot := 0;
      while slot < PER_SECTOR
        invariant slot <= PER_SECTOR && c.Valid() && v.Elsewhere() == old(v.Elsewhere()) && v.apart <= old(v.apart)
        invariant Counted(v, t, c.seen[..], mayFree, ScanLimit(index * PER_SECTOR + slot, v.Total()), used, free, lost)
        invariant !mayFree && old(!v.cacheDirty) ==> !v.cacheDirty && v.disk[..] == old(v.disk[..])
        invariant !mayFree ==> v.searchHint == old(v.searchHint)
      {
        var cluster := index * PER_SECTOR + slot;
        var ok := v.Fetch(index);
        if cluster >= 2 {
          if cluster >= v.Total() {
            break;
          }
          assert cluster / PER_SECTOR == index;
          used, free, lost := LostEntry(c, cluster, mayFree, used, free, lost, t);
        }
        slot := slot + 1;
      }
      index := index + 1;
    }
  }

  /** Giving back what is lost touches no bad cluster. */
  lemma {:induction false} SweptBad(t: Table, seen: seq<bool>, n: nat, high: nat)
    requires n <= |seen| && n <= |t| && 2 <= high <= |t|
    ensures BadCount(Swept(t, seen, n), 2, high) == BadCount(t, 2, high)
  {
    if high > 2 {
      SweptBad(t, seen, n, high - 1);
      hide Merge, Link;
    }
  }

  /** After a complete pass with repairs nothing is lost any more. */
  lemma SweptClean(t: Table, seen: seq<bool>, total: nat)
    requires total <= |seen| && total <= |t|
    ensures forall c :: 2 <= c < total ==> !Lost(Swept(t, seen, total), seen, c)
    ensures forall c :: 2 <= c < total && seen[c] ==> Swept(t, seen, total)[c] == t[c]
  {
    hide Merge, Link;
  }

  /** What FSInfo says is compared with the count, and refreshed when repairs are wanted. */
  method CheckFreeHint(c: Check, free: nat)
    requires c.Valid() && free == FreeCount(c.fat.table, 2, c.fat.Total())
    modifies c.fat.disk, c.fat, c`faults, c`repaired
    ensures c.Valid() && c.fat.Data() == old(c.fat.Data()) && c.fat.apart <= old(c.fat.apart) &&
            c.fat.table == old(c.fat.table)
    ensures !c.repair ==> c.fat.disk[..] == old(c.fat.disk[..]) && c.fat.cacheDirty == old(c.fat.cacheDirty) &&
                          c.fat.searchHint == old(c.fat.searchHint)
    ensures SameFront(c.fat, old(c.fat.disk[..c.fat.reserved]))
    ensures c.fat.freeKnown && c.fat.Exact()
  {
    hide Volume.Cached, Volume.Stored, Volume.Walked, FreeCount, Read32, Signed, Informed, FreeClusters;
    var v := c.fat;
    var sector := v.disk[FSINFO_SECTOR];
    if Signed(sector) {
      var stored := Read32(sector, FSINFO_FREE_COUNT_OFFSET);
      if stored != 0xFFFF_FFFF && stored != free {
        v.freeBytes, v.freeKnown := Times(free, v.ClusterBytes()), true;
        if c.repair {
          UpdateFsinfo(v);
        }
        c.Note(c.repair);
      }
    }
    v.freeBytes, v.freeKnown := Times(free, v.ClusterBytes()), true;
  }

  /** check_lost: counts what is used, free and lost, and gives back the lost only after a walk that reached
      everything. */
  method CheckLost(c: Check)
    requires c.Valid()
    modifies c.fat, c.fat.disk, c.fat.cache, c`clustersUsed, c`clustersFree, c`clustersLost, c`faults, c`repaired
    ensures c.Valid() && c.fat.Data() == old(c.fat.Data()) && c.fat.apart <= old(c.fat.apart)
    ensures c.fat.table == if c.repair && c.complete then Swept(old(c.fat.table), c.seen[..], c.fat.Total())
            else old(c.fat.table)
    ensures c.clustersUsed + c.clustersFree + BadCount(c.fat.table, 2, c.fat.Total()) == c.fat.clusterCount
    ensures c.clustersFree == FreeCount(c.fat.table, 2, c.fat.Total())
    ensures c.clustersLost == LostCount(old(c.fat.table), c.seen[..], 2, c.fat.Total())
    ensures SameFront(c.fat, old(c.fat.disk[..c.fat.reserved]))
    ensures !c.repair && old(!c.fat.cacheDirty) ==> !c.fat.cacheDirty && c.fat.disk[..] == old(c.fat.disk[..])
    ensures !c.repair ==> c.fat.searchHint == old(c.fat.searchHint)
    ensures c.fat.freeKnown && c.fat.Exact()
  {
    hide Volume.Cached, Volume.Stored, Volume.Walked, FreeCount, BadCount, LostCount, Swept, SameFront;
    ghost var t := c.fat.table;
    var mayFree := c.repair && c.complete;
    var used, free, lost := CountTable(c, mayFree);
    SweptBad(t, c.seen[..], c.fat.Total(), c.fat.Total());
    c.clustersUsed, c.clustersFree, c.clustersLost := used, free, lost;
    if lost > 0 {
      c.Note(mayFree);
    }
    CheckFreeHint(c, free);
  }

  // ---- The copies of the table -----------------------------------------------------------

  /** The other copies agree with the first: all the earlier ones, and this one below `offset`. */
  ghost predicate Compared(v: Volume, copy: nat, offset: nat)
    requires v.Geometry()
    reads v.disk
  {
    forall k: nat, relative: nat ::
      k < v.fatCount && relative < v.sectorsPerFat && (k < copy || (k == copy && relative < offset)) ==>
      v.CopySector(k, relative) < v.disk.Length && v.CopySector(0, relative) < v.disk.Length &&
      v.disk[v.CopySector(k, relative)] == v.disk[v.CopySector(0, relative)]
  }

  const PER_PASS := 8

  /** One run of sectors compared, and with repairs copied over. */
  method CompareRun(c: Check, copy: nat, offset: nat, run: nat) returns (differ: nat)
    requires c.Valid() && !c.fat.cacheDirty && 1 <= copy < c.fat.fatCount && offset + run <= c.fat.sectorsPerFat
    modifies c.fat.disk
    ensures c.Valid() && c.fat.Elsewhere() == old(c.fat.Elsewhere()) && (!c.repair ==>
            c.fat.disk[..] == old(c.fat.disk[..]))
    ensures old(Compared(c.fat, copy, offset)) && (c.repair || differ == 0) ==> Compared(c.fat, copy, offset + run)
    ensures differ == 0 ==> c.fat.disk[..] == old(c.fat.disk[..])
  {
    hide Volume.Cached, Volume.Stored, Volume.Walked, Times, Compared;
    var v := c.fat;
    v.CopyEnds(copy, offset, run);
    var here, there := v.CopySector(0, offset), v.CopySector(copy, offset);
    var first, other := v.disk[here..here + run], v.disk[there..there + run];
    differ := 0;
    if first == other {
      SameRuns(v, copy, offset, run);
      return;
    }
    for index := 0 to run
      invariant differ == 0 ==> forall i :: 0 <= i < index ==> first[i] == other[i]
    {
      if first[index] != other[index] {
        differ := differ + 1;
      }
    }
    assert differ != 0;
    if c.repair {
      CopyRun(v, copy, offset, run);
    }
  }

  /** A run of the first copy written over the same run of another. */
  method CopyRun(v: Volume, copy: nat, offset: nat, run: nat)
    requires v.Valid() && !v.cacheDirty && 1 <= copy < v.fatCount && offset + run <= v.sectorsPerFat
    modifies v.disk
    ensures v.Valid() && v.Elsewhere() == old(v.Elsewhere())
    ensures old(Compared(v, copy, offset)) ==> Compared(v, copy, offset + run)
  {
    hide Volume.Cached, Volume.Stored, Volume.Walked, Times, Volume.CopySector;
    v.CopyOver(copy, offset, run);
  }

  lemma SameRuns(v: Volume, copy: nat, offset: nat, run: nat)
    requires v.Geometry() && copy < v.fatCount && offset + run <= v.sectorsPerFat
    requires v.CopySector(copy, offset) + run <= v.disk.Length && v.CopySector(0, offset) + run <= v.disk.Length
    requires var here, there := v.CopySector(0, offset), v.CopySector(copy, offset);
             v.disk[here..here + run] == v.disk[there..there + run]
    ensures Compared(v, copy, offset) ==> Compared(v, copy, offset + run)
  {
    hide Times;
    var here, there := v.CopySector(0, offset), v.CopySector(copy, offset);
    forall relative: nat | offset <= relative < offset + run
      ensures v.CopySector(copy, relative) < v.disk.Length && v.CopySector(0, relative) < v.disk.Length &&
              v.disk[v.CopySector(copy, relative)] == v.disk[v.CopySector(0, relative)]
    {
      var k := relative - offset;
      assert v.CopySector(copy, relative) == there + k && v.CopySector(0, relative) == here + k;
      assert v.disk[here..here + run][k] == v.disk[there..there + run][k];
    }
  }

  /** check_fat_copies: with repairs every copy ends up the same as the first. */
  method CheckFatCopies(c: Check)
    requires c.Valid() && !c.fat.cacheDirty
    modifies c.fat.disk, c.fat`apart, c`faults, c`repaired
    ensures c.Valid() && c.fat.Elsewhere() == old(c.fat.Elsewhere()) && c.fat.apart <= old(c.fat.apart)
    ensures !c.repair ==> c.fat.disk[..] == old(c.fat.disk[..])
    ensures c.repair || c.faults == old(c.faults) ==> Compared(c.fat, c.fat.fatCount, 0) && c.fat.apart == {}
  {
    hide Volume.Cached, Volume.Stored, Volume.Walked, Times, Compared;
    var v := c.fat;
    ComparedFirst(v);
    var differences, copy := 0, 1;
    while copy < v.fatCount
      invariant 1 <= copy <= v.fatCount && c.Valid() && !v.cacheDirty && v.Elsewhere() == old(v.Elsewhere())
      invariant !c.repair ==> v.disk[..] == old(v.disk[..])
      invariant c.repair || differences == 0 ==> Compared(v, copy, 0)
      modifies v.disk
    {
      var offset := 0;
      while offset < v.sectorsPerFat
        invariant offset <= v.sectorsPerFat && c.Valid() && !v.cacheDirty && v.Elsewhere() == old(v.Elsewhere())
        invariant !c.repair ==> v.disk[..] == old(v.disk[..])
        invariant c.repair || differences == 0 ==> Compared(v, copy, offset)
        modifies v.disk
      {
        var run := if v.sectorsPerFat - offset > PER_PASS then PER_PASS else v.sectorsPerFat - offset;
        var differ := CompareRun(c, copy, offset, run);
        differences, offset := differences + differ, offset + run;
      }
      if c.repair || differences == 0 {
        ComparedCopy(v, copy);
      }
      copy := copy + 1;
    }
    if c.repair || differences == 0 {
      ComparedAgree(v);
      v.Rejoin();
    }
    if differences > 0 {
      c.Note(c.repair);
    }
  }

  lemma ComparedFirst(v: Volume)
    requires v.Geometry()
    ensures Compared(v, 1, 0)
  {
    forall relative: nat | relative < v.sectorsPerFat
      ensures v.CopySector(0, relative) < v.disk.Length
    {
      v.CopyInside(0, relative);
    }
  }

  lemma ComparedCopy(v: Volume, copy: nat)
    requires v.Geometry() && Compared(v, copy, v.sectorsPerFat)
    ensures Compared(v, copy + 1, 0)
  {
  }

  lemma ComparedAgree(v: Volume)
    requires v.Geometry() && Compared(v, v.fatCount, 0)
    ensures forall relative: nat :: relative < v.sectorsPerFat ==> v.CopiesAgree(relative)
  {
  }
}
