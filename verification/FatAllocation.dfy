/** kernel/fat32.c: claiming and releasing clusters, and the free figure. */
module FatAllocation {
  import opened Numbers
  import opened Words
  import opened LittleEndian
  import opened FatTable
  import opened FatVolume

  /** Sectors of the table already searched by a lap that started at `first`. */
  predicate Visited(relative: nat, first: nat, steps: nat, sectors: nat) {
    first <= relative < first + steps || relative + sectors < first + steps
  }

  /** A sector's number, past the end of the table taken up from its start. */
  function Wrapped(index: nat, sectors: nat): nat {
    if index >= sectors then index - sectors else index
  }

  /** How many sectors of the table a lap that starts at `first` has searched when it comes to this one. */
  function LapPlace(relative: nat, first: nat, sectors: nat): int {
    if first <= relative then relative - first else relative + sectors - first
  }

  /** The first free cluster of a lap that starts with the sector of the hint, or of cluster 2 if there is no such
      cluster. */
  ghost predicate FirstInLap(t: Table, total: nat, sectors: nat, hint: nat, found: nat) {
    var first := (if 2 <= hint < total then hint else 2) / PER_SECTOR;
    total <= |t| && InRange(found, total) && IsFree(t, found) &&
    forall c: nat :: InRange(c, total) && IsFree(t, c) ==>
      c == found || LapPlace(found / PER_SECTOR, first, sectors) < LapPlace(c / PER_SECTOR, first, sectors) ||
      (c / PER_SECTOR == found / PER_SECTOR && found < c)
  }

  /** One sector of the table is searched for a free cluster; 0 when it has none. */
  method SearchSector(v: Volume, index: nat) returns (found: nat)
    requires v.Valid() && v.cacheValid && v.cacheSector == index
    ensures found == 0 || (InRange(found, v.Total()) && IsFree(v.table, found))
    ensures found == 0 ==> forall c: nat :: InRange(c, v.Total()) && c / PER_SECTOR == index ==> !IsFree(v.table, c)
    ensures found != 0 ==> found / PER_SECTOR == index &&
                           forall c: nat :: InRange(c, v.Total()) && c / PER_SECTOR == index && c < found ==>
                             !IsFree(v.table, c)
  {
    hide Holds, Volume.Stored, Volume.Walked, Read32;
    found := 0;
    var slot := 0;
    while slot < PER_SECTOR
      invariant slot <= PER_SECTOR
      invariant forall c: nat :: InRange(c, v.Total()) && PER_SECTOR * index <= c < PER_SECTOR * index + slot ==>
                !IsFree(v.table, c)
    {
      var cluster := index * PER_SECTOR + slot;
      if cluster >= 2 {
        if cluster >= v.Total() {
          break;
        }
        assert cluster / PER_SECTOR == index && cluster % PER_SECTOR == slot;
        v.CachedEntry(cluster);
        if Read32(v.cache[..], slot * 4) % LINKS == FREE {
          return cluster;
        }
      }
      slot := slot + 1;
    }
  }

  /** The search of allocate_cluster: one lap of the table from the hint. */
  method FindFree(v: Volume) returns (found: nat)
    requires v.Valid()
    modifies v.disk, v.cache, v`cacheDirty, v`cacheSector, v`cacheValid, v`apart
    ensures v.Valid() && v.Elsewhere() == old(v.Elsewhere()) && v.apart <= old(v.apart)
    ensures found != 0 ==> FirstInLap(v.table, v.Total(), v.sectorsPerFat, v.searchHint, found)
    ensures found == 0 || (InRange(found, v.Total()) && IsFree(v.table, found))
    ensures found == 0 ==> Full(v.table, v.Total())
    ensures found == 0 ==> v.cacheDirty == (old(v.cacheDirty) && v.sectorsPerFat == 1)
  {
    hide Ended, Follow, Holds, IsFree, Link, Next, Read32, Times, Volume.Behind, Volume.ClusterBytes,
         Volume.CopySector, Volume.Data, Volume.Elsewhere, Volume.Stored, Volume.Walked;
    assert v.cacheDirty ==> v.cacheSector < v.sectorsPerFat;
    hide Holds, Volume.Stored, Volume.Walked, Volume.Cached, IsFree, Volume.Elsewhere;
    var total := v.Total();
    var start := if 2 <= v.searchHint < total then v.searchHint else 2;
    var first := start / PER_SECTOR;
    found := 0;
    var step := 0;
    while step < v.sectorsPerFat && found == 0
      invariant step <= v.sectorsPerFat && first < v.sectorsPerFat
      invariant v.Valid() && v.Elsewhere() == old(v.Elsewhere()) && v.apart <= old(v.apart)
      invariant found == 0 || (InRange(found, v.Total()) && IsFree(v.table, found))
      invariant step == 0 ==> v.cacheDirty == old(v.cacheDirty) && v.cacheSector == old(v.cacheSector)
      invariant step > 0 ==> v.cacheSector == Wrapped(first + step - 1, v.sectorsPerFat) &&
                             (v.cacheDirty ==> old(v.cacheDirty) && step == 1)
      invariant v.sectorsPerFat == 1 ==> v.cacheDirty == old(v.cacheDirty)
      invariant found == 0 ==> forall c: nat :: InRange(c, total) && Visited(c / PER_SECTOR, first, step,
                v.sectorsPerFat) ==> !IsFree(v.table, c)
      invariant found != 0 ==> FirstInLap(v.table, total, v.sectorsPerFat, v.searchHint, found)
    {
      var index := first + step;
      if index >= v.sectorsPerFat {
        index := index - v.sectorsPerFat;
      }
      var ok := v.Fetch(index);
      found := SearchSector(v, index);
      if found != 0 {
        LapFirst(v.table, total, v.sectorsPerFat, v.searchHint, found, step);
      }
      step := step + 1;
    }
  }

  lemma LapFirst(t: Table, total: nat, sectors: nat, hint: nat, found: nat, step: nat)
    requires total <= |t| && InRange(found, total) && IsFree(t, found)
    requires total <= PER_SECTOR * sectors && step < sectors
    requires var first := (if 2 <= hint < total then hint else 2) / PER_SECTOR;
             first < sectors && found / PER_SECTOR == Wrapped(first + step, sectors) &&
             forall c: nat :: InRange(c, total) && Visited(c / PER_SECTOR, first, step, sectors) ==> !IsFree(t, c)
    requires forall c: nat :: InRange(c, total) && c / PER_SECTOR == found / PER_SECTOR && c < found ==> !IsFree(t, c)
    ensures FirstInLap(t, total, sectors, hint, found)
  {
    hide IsFree;
    var first := (if 2 <= hint < total then hint else 2) / PER_SECTOR;
    forall c: nat | InRange(c, total) && IsFree(t, c) && c != found && c / PER_SECTOR != found / PER_SECTOR
      ensures LapPlace(found / PER_SECTOR, first, sectors) < LapPlace(c / PER_SECTOR, first, sectors)
    {
      assert !Visited(c / PER_SECTOR, first, step, sectors);
      assert c / PER_SECTOR < sectors;
    }
  }

  const BLANK_MAX_PAGES := 8

  /** How many sectors the scratch pages of blank_cluster hold. */
  function BlankPass(clusterBytes: nat): (sectors: nat)
    requires 0 < clusterBytes
    ensures 0 < sectors
  {
    var pages := (clusterBytes + 4095) / 4096;
    (if pages > BLANK_MAX_PAGES then BLANK_MAX_PAGES else pages) * 8
  }

  /** blank_cluster: zeroes, as many sectors at a time as the scratch pages hold. */
  method BlankCluster(v: Volume, cluster: nat)
    requires v.Valid() && InRange(cluster, v.Total())
    modifies v.disk
    ensures v.Valid() && v.disk[..v.reserved] == old(v.disk[..v.reserved])
    ensures v.Data() == v.Blanked(old(v.Data()), cluster)
  {
    hide Volume.Cached, Volume.Stored, Volume.Walked, Overlaid, BlankPass, Volume.Start, Blanks, Times;
    v.ClusterInside(cluster);
    var first := v.FirstSector(cluster);
    var perPass := BlankPass(v.ClusterBytes());
    ghost var data, at := v.Data(), v.Start(cluster);
    var done := 0;
    OverlayNothing(data, at);
    while done < v.sectorsPerCluster
      invariant done <= v.sectorsPerCluster && v.Valid() && v.disk[..v.reserved] == old(v.disk[..v.reserved])
      invariant v.Data() == Overlaid(data, at, Blanks(done))
    {
      var chunk := if v.sectorsPerCluster - done > perPass then perPass else v.sectorsPerCluster - done;
      v.WriteRun(first + done, Blanks(chunk));
      OverlayNext(data, at, Blanks(done), Blanks(chunk));
      BlanksAdd(done, chunk);
      done := done + chunk;
    }
  }

  lemma BlanksAdd(done: nat, chunk: nat)
    ensures Blanks(done) + Blanks(chunk) == Blanks(done + chunk)
  {
  }

  lemma OverlayNothing(data: seq<Sector>, at: nat)
    ensures Overlaid(data, at, Blanks(0)) == data
  {
  }

  /** Replacing sectors, and then the ones after them, replaces both runs. */
  lemma OverlayNext(data: seq<Sector>, at: nat, run: seq<Sector>, more: seq<Sector>)
    requires at + |run| + |more| <= |data|
    ensures Overlaid(Overlaid(data, at, run), at + |run|, more) == Overlaid(data, at, run + more)
  {
  }

  /** The claim itself: a free cluster becomes the end of a chain, of its own or of the one that ended at `previous`. */
  method Claim(v: Volume, previous: nat) returns (found: nat)
    requires v.Valid() && (previous != 0 ==> InRange(previous, v.Total()) && !IsFree(v.table, previous))
    modifies v.disk, v.cache, v
    ensures v.Valid() && v.Elsewhere() == old(v.Elsewhere()) && v.apart <= old(v.apart)
    ensures found == 0 <==> Full(old(v.table), v.Total())
    ensures found == 0 ==> v.table == old(v.table)
    ensures v.cacheDirty == (found != 0 || (old(v.cacheDirty) && v.sectorsPerFat == 1))
    ensures found != 0 ==> InRange(found, v.Total()) && IsFree(old(v.table), found)
    ensures found != 0 ==> v.table == Extended(old(v.table), found, previous) && v.searchHint == found + 1
    ensures found != 0 ==> FirstInLap(old(v.table), v.Total(), v.sectorsPerFat, old(v.searchHint), found)
    ensures old(v.Exact()) ==> v.Exact()
  {
    hide Holds, Volume.Stored, Volume.Walked, Volume.Cached, Volume.Exact, Volume.Elsewhere, Link, Merge;
    found := FindFree(v);
    if found == 0 {
      return;
    }
    v.searchHint := found + 1;
    var claimed := v.WriteEntry(found, LAST);
    if previous != 0 {
      var linked := v.WriteEntry(previous, found);
    }
  }

  /** allocate_cluster: a claim, and for a directory the cluster cleared. */
  method AllocateCluster(v: Volume, previous: nat, blank: bool) returns (found: nat)
    requires v.Valid() && (previous != 0 ==> InRange(previous, v.Total()) && !IsFree(v.table, previous))
    modifies v.disk, v.cache, v
    ensures v.Valid() && v.disk[..v.reserved] == old(v.disk[..v.reserved]) && v.apart <= old(v.apart)
    ensures found == 0 <==> Full(old(v.table), v.Total())
    ensures found != 0 ==> InRange(found, v.Total()) && IsFree(old(v.table), found)
    ensures v.table == if found == 0 then old(v.table) else Extended(old(v.table), found, previous)
    ensures found != 0 ==> FirstInLap(old(v.table), v.Total(), v.sectorsPerFat, old(v.searchHint), found) &&
                           v.searchHint == found + 1
    ensures v.cacheDirty == (found != 0 || (old(v.cacheDirty) && v.sectorsPerFat == 1))
    ensures v.Data() == if found != 0 && blank then v.Blanked(old(v.Data()), found) else old(v.Data())
    ensures old(v.Exact()) ==> v.Exact()
  {
    hide Volume.Stored, Volume.Walked, Volume.Cached, Volume.Exact, Volume.Blanked, IsFree, Extended, FirstInLap;
    found := Claim(v, previous);
    if found != 0 && blank {
      BlankCluster(v, found);
    }
  }

  /** Where free_chain stands: it has released `trail`, and stands on its last link unless it has met itself. */
  predicate Standing(t: Table, total: nat, first: nat, trail: seq<nat>, cluster: nat)
    requires total <= |t|
  {
    Distinct(trail) && (forall i :: 0 <= i < |trail| ==> InRange(trail[i], total)) &&
    (forall i :: 0 <= i < |trail| - 1 ==> Link(t[trail[i]]) == trail[i + 1]) &&
    if |trail| == 0 then cluster == first
    else trail[0] == first &&
         (cluster == Link(t[trail[|trail| - 1]]) || (cluster == FREE && Link(t[trail[|trail| - 1]]) in trail))
  }

  lemma StandingNext(t: Table, total: nat, first: nat, trail: seq<nat>, cluster: nat)
    requires total <= |t| && Standing(t, total, first, trail, cluster) && InRange(cluster, total)
    ensures cluster !in trail ==> Standing(t, total, first, trail + [cluster], Link(t[cluster]))
    ensures cluster in trail ==> Standing(t, total, first, trail, FREE)
  {
  }

  /** Each round of free_chain uses up a cluster in use, or ends at a free one. */
  lemma FreeingEnds(t: Table, total: nat, cluster: nat)
    requires 2 <= total <= |t| && InRange(cluster, total)
    ensures if IsFree(t, cluster) then Put(t, cluster, FREE) == t && Link(t[cluster]) == FREE
            else Used(Put(t, cluster, FREE), total) < Used(t, total)
  {
    FreeCountPut(t, 2, total, cluster, FREE);
  }

  /** free_chain: every cluster on the trail goes back, on any table whatever. */
  method FreeChain(v: Volume, first: nat) returns (ghost trail: seq<nat>)
    requires v.Valid()
    modifies v.disk, v.cache, v
    ensures v.Valid() && v.Elsewhere() == old(v.Elsewhere()) && v.apart <= old(v.apart)
    ensures Trail(old(v.table), v.Total(), first, trail) && v.table == Released(old(v.table), trail)
    ensures old(v.Exact()) ==> v.Exact()
  {
    hide Holds, Volume.Stored, Volume.Walked, Volume.Cached, Volume.Exact, Volume.Elsewhere, Link, Merge, Standing,
         Distinct, FreeCount, Put, Released;
    ghost var t, total := v.table, v.Total();
    trail := [];
    StandingFirst(t, total, first);
    var cluster: nat := first;
    while cluster >= 2 && cluster < END_MINIMUM && cluster < v.Total()
      invariant v.Valid() && v.Elsewhere() == old(v.Elsewhere()) && v.apart <= old(v.apart)
      invariant Standing(t, total, first, trail, cluster) && v.table == Released(t, trail)
      invariant old(v.Exact()) ==> v.Exact()
      decreases Used(v.table, v.Total()), if InRange(cluster, v.Total()) then 1 else 0
    {
      StandingNext(t, total, first, trail, cluster);
      ReleasedLink(t, trail, cluster);
      FreeingEnds(v.table, total, cluster);
      ReleasedNext(t, trail, cluster);
      var following := v.Next(cluster);
      var ok := v.WriteEntry(cluster, FREE);
      trail := if cluster in trail then trail else trail + [cluster];
      cluster := following;
    }
    StandingDone(t, total, first, trail, cluster);
  }

  lemma StandingFirst(t: Table, total: nat, first: nat)
    requires total <= |t|
    ensures Standing(t, total, first, [], first) && Released(t, []) == t
  {
  }

  lemma StandingDone(t: Table, total: nat, first: nat, trail: seq<nat>, cluster: nat)
    requires total <= |t| && total <= BAD && Standing(t, total, first, trail, cluster) && !InRange(cluster, total)
    ensures Trail(t, total, first, trail)
  {
  }

  lemma ReleasedLink(t: Table, gone: seq<nat>, c: nat)
    requires c < |t|
    ensures Link(Released(t, gone)[c]) == if c in gone then FREE else Link(t[c])
  {
    hide Merge, Link;
  }

  const FREE_SCAN_PAGES := 16

  /** How far into the clusters a scan that has looked at this many entries has come. */
  function ScanLimit(entries: nat, total: nat): (limit: nat)
    requires 2 <= total
    ensures 2 <= limit <= total
  {
    if entries < 2 then 2 else if entries > total then total else entries
  }

  /** Consecutive sectors of the table. */
  ghost predicate HoldRun(buffer: seq<Sector>, t: Table, index: nat) {
    forall k :: 0 <= k < |buffer| ==> Holds(buffer[k], t, index + k)
  }

  /** One pass of the scan: the free entries among the sectors just read. */
  method CountRun(v: Volume, index: nat, buffer: seq<Sector>, before: nat) returns (count: nat)
    requires v.Geometry() && v.Total() <= |v.table| && index + |buffer| <= v.sectorsPerFat
    requires HoldRun(buffer, v.table, index)
    requires before == FreeCount(v.table, 2, ScanLimit(index * PER_SECTOR, v.Total()))
    ensures count == FreeCount(v.table, 2, ScanLimit((index + |buffer|) * PER_SECTOR, v.Total()))
  {
    hide Read32;
    count := before;
    var entry, entries := 0, |buffer| * PER_SECTOR;
    while entry < entries
      invariant entry <= entries && count == FreeCount(v.table, 2, ScanLimit(index * PER_SECTOR + entry, v.Total()))
    {
      var cluster := index * PER_SECTOR + entry;
      if cluster >= 2 {
        if cluster >= v.Total() {
          break;
        }
        var k := entry / PER_SECTOR;
        assert PER_SECTOR * (index + k) <= cluster < PER_SECTOR * (index + k) + PER_SECTOR;
        if Read32(buffer[k], entry % PER_SECTOR * 4) % LINKS == FREE {
          count := count + 1;
        }
      }
      entry := entry + 1;
    }
  }

  /** What the disk holds once nothing is held back. */
  lemma DiskHolds(v: Volume, index: nat, run: nat)
    requires v.Valid() && !v.cacheDirty && 0 < run && index + run <= v.sectorsPerFat
    ensures v.reserved + index + run <= v.disk.Length
    ensures HoldRun(v.disk[v.reserved + index..v.reserved + index + run], v.table, index)
  {
    hide Holds;
    v.CopyInside(0, index + run - 1);
    var buffer := v.disk[v.reserved + index..v.reserved + index + run];
    forall k: nat | k < run
      ensures Holds(buffer[k], v.table, index + k)
    {
      assert v.CopySector(0, index + k) == v.reserved + index + k;
    }
  }

  /** fat32_free_bytes: the running figure when there is one, and a count of the whole table when there is not. */
  method FreeBytes(v: Volume) returns (bytes: nat)
    requires v.Valid()
    modifies v.disk, v`cacheDirty, v`apart, v`freeBytes, v`freeKnown
    ensures v.Valid() && v.Elsewhere() == old(v.Elsewhere()) && v.apart <= old(v.apart)
    ensures v.freeKnown && v.freeBytes == bytes && (old(!v.cacheDirty) ==> !v.cacheDirty)
    ensures bytes == if old(v.freeKnown) then old(v.freeBytes) else Times(FreeCount(v.table, 2, v.Total()),
            v.ClusterBytes())
    ensures old(v.Exact()) ==> v.Exact()
    ensures old(!v.cacheDirty) ==> v.disk[..] == old(v.disk[..])
  {
    hide Volume.Stored, Volume.Walked, Volume.Cached, Holds, FreeCount;
    if v.freeKnown {
      return v.freeBytes;
    }
    v.Flush();
    var perPass := FREE_SCAN_PAGES * 4096 / SECTOR_SIZE;
    var index, count := 0, 0;
    assert count == FreeCount(v.table, 2, ScanLimit(0, v.Total())) by {
      FreeCountNone(v.table, 2);
    }
    while index < v.sectorsPerFat
      invariant index <= v.sectorsPerFat && count == FreeCount(v.table, 2, ScanLimit(index * PER_SECTOR, v.Total()))
      modifies {}
    {
      var run := if v.sectorsPerFat - index > perPass then perPass else v.sectorsPerFat - index;
      DiskHolds(v, index, run);
      var buffer := v.disk[v.reserved + index..v.reserved + index + run];
      count := CountRun(v, index, buffer, count);
      index := index + run;
    }
    v.freeBytes := Times(count, v.ClusterBytes());
    v.freeKnown := true;
    return v.freeBytes;
  }

  lemma FreeCountNone(t: Table, low: nat)
    requires low <= |t|
    ensures FreeCount(t, low, low) == 0
  {
  }

  // ---- FSInfo and the end of every operation ---------------------------------

  const FSINFO_SECTOR := 1
  const FSINFO_LEAD_SIGNATURE := 0x4161_5252
  const FSINFO_STRUCT_SIGNATURE := 0x6141_7272
  const FSINFO_FREE_COUNT_OFFSET := 488
  const FSINFO_NEXT_FREE_OFFSET := 492

  predicate Signed(s: Sector) {
    Read32(s, 0) == FSINFO_LEAD_SIGNATURE && Read32(s, 484) == FSINFO_STRUCT_SIGNATURE
  }

  /** In letters: RRaA in front, and rrAa before the figures. */
  lemma SignedBytes(s: Sector)
    ensures Signed(s) <==> s[..4] == [0x52, 0x52, 0x61, 0x41] && s[484..488] == [0x72, 0x72, 0x41, 0x61]
  {
    if Signed(s) {
      assert s[0] == Read32(s, 0) % 0x100 && s[484] == Read32(s, 484) % 0x100;
    } else if s[..4] == [0x52, 0x52, 0x61, 0x41] && s[484..488] == [0x72, 0x72, 0x41, 0x61] {
      assert forall i :: 0 <= i < 4 ==> s[i] == s[..4][i] && s[484 + i] == s[484..488][i];
    }
  }

  /** FSInfo with a free count and a place to search from. */
  function Informed(s: Sector, free: Word, next: Word): Sector {
    Patched(Patched(s, FSINFO_FREE_COUNT_OFFSET, free), FSINFO_NEXT_FREE_OFFSET, next)
  }

  lemma InformedElsewhere(s: Sector, free: Word, next: Word, i: nat)
    requires i < 488 || 496 <= i < 512
    ensures Informed(s, free, next)[i] == s[i]
  {
    hide Bytes32;
  }

  lemma InformedRead(s: Sector, free: Word, next: Word)
    ensures var t := Informed(s, free, next);
            Read32(t, FSINFO_FREE_COUNT_OFFSET) == free && Read32(t, FSINFO_NEXT_FREE_OFFSET) == next &&
            (Signed(t) <==> Signed(s))
  {
    hide Patched, Read32;
    var p := Patched(s, FSINFO_FREE_COUNT_OFFSET, free);
    PatchedRead(s, FSINFO_FREE_COUNT_OFFSET, free, FSINFO_FREE_COUNT_OFFSET);
    PatchedRead(s, FSINFO_FREE_COUNT_OFFSET, free, 0);
    PatchedRead(s, FSINFO_FREE_COUNT_OFFSET, free, 484);
    PatchedRead(p, FSINFO_NEXT_FREE_OFFSET, next, FSINFO_FREE_COUNT_OFFSET);
    PatchedRead(p, FSINFO_NEXT_FREE_OFFSET, next, FSINFO_NEXT_FREE_OFFSET);
    PatchedRead(p, FSINFO_NEXT_FREE_OFFSET, next, 0);
    PatchedRead(p, FSINFO_NEXT_FREE_OFFSET, next, 484);
  }

  lemma PatchedSame(s: Sector, at: nat)
    requires at + 4 <= SECTOR_SIZE
    ensures Patched(s, at, Read32(s, at)) == s
  {
    hide Read32, Bytes32;
    Read32Bytes(s, at);
    var b := Bytes32(Read32(s, at));
    assert forall i :: 0 <= i < 4 ==> b[i] == s[at..at + 4][i];
  }

  /** The free figure as a number of clusters. */
  function FreeClusters(v: Volume): Word
    requires 0 < v.sectorsPerCluster
    reads v`freeBytes
  {
    v.freeBytes / v.ClusterBytes() % BASE
  }

  /** When the figure is exact, so is that number. */
  lemma FreeClustersExact(v: Volume)
    requires v.Geometry() && v.Total() <= |v.table| && v.freeKnown && v.Exact()
    ensures FreeClusters(v) == FreeCount(v.table, 2, v.Total())
  {
    hide FreeCount, Times, Volume.Total;
    TimesBack(FreeCount(v.table, 2, v.Total()), v.ClusterBytes());
  }

  lemma TimesBack(n: nat, b: nat)
    requires 0 < b
    ensures Times(n, b) / b == n
  {
    hide Times;
    TimesIsProduct(n, b);
    assert n * b == b * n;
    DivModUnique(Times(n, b), b, n, 0);
  }

  /** FSInfo, where it is signed, says how many clusters are free. */
  ghost predicate InfoCounts(v: Volume)
    requires v.Geometry() && v.Total() <= |v.table|
    reads v.disk, v`table
  {
    FSINFO_SECTOR < v.disk.Length &&
    (Signed(v.disk[FSINFO_SECTOR]) ==> Read32(v.disk[FSINFO_SECTOR], FSINFO_FREE_COUNT_OFFSET) == FreeCount(v.table, 2,
       v.Total()))
  }

  /** FSInfo is one of the volume's first sectors. */
  lemma FrontInfo(v: Volume, front: seq<Sector>)
    requires v.Geometry() && v.reserved <= v.disk.Length && v.disk[..v.reserved] == front
    ensures FSINFO_SECTOR < |front| && v.disk[FSINFO_SECTOR] == front[FSINFO_SECTOR]
  {
  }

  /** update_fsinfo: the hint is rewritten only when it has moved. */
  method UpdateFsinfo(v: Volume)
    requires v.Valid()
    modifies v.disk, v`cacheDirty, v`apart, v`freeBytes, v`freeKnown
    ensures v.Valid() && v.Data() == old(v.Data()) && v.apart <= old(v.apart) && (old(!v.cacheDirty) ==> !v.cacheDirty)
    ensures old(v.Exact()) ==> v.Exact()
    ensures Signed(old(v.disk[FSINFO_SECTOR])) ==> v.freeKnown
    ensures v.disk[..v.reserved] ==
            if Signed(old(v.disk[FSINFO_SECTOR]))
            then old(v.disk[..v.reserved])[FSINFO_SECTOR := Informed(old(v.disk[FSINFO_SECTOR]), FreeClusters(v),
            v.searchHint)]
            else old(v.disk[..v.reserved])
    ensures old(!v.cacheDirty) ==> v.disk[..] == old(v.disk[..])[FSINFO_SECTOR := v.disk[FSINFO_SECTOR]]
    ensures old(v.freeKnown) ==> v.freeKnown
  {
    hide Volume.Stored, Volume.Walked, Volume.Cached, Holds, FreeCount, Patched, Volume.Data, Read32, FreeClusters,
         Times;
    var sector := v.disk[FSINFO_SECTOR];
    ghost var front := v.disk[..v.reserved];
    assert front[FSINFO_SECTOR := sector] == front;
    if Signed(sector) {
      var bytes := FreeBytes(v);
      var clusters := FreeClusters(v);
      PatchedSame(sector, FSINFO_FREE_COUNT_OFFSET);
      PatchedSame(sector, FSINFO_NEXT_FREE_OFFSET);
      if Read32(sector, FSINFO_FREE_COUNT_OFFSET) != clusters || Read32(sector,
          FSINFO_NEXT_FREE_OFFSET) != v.searchHint {
        v.WriteFront(FSINFO_SECTOR, Informed(sector, clusters, v.searchHint));
      } else {
        assert Informed(sector, clusters, v.searchHint) == sector;
      }
    }
  }

  /** The volume's first sectors, but for FSInfo, are as they were. */
  ghost predicate SameFront(v: Volume, front: seq<Sector>)
    reads v.disk
  {
    v.reserved <= v.disk.Length && |front| == v.reserved &&
    forall i :: 0 <= i < v.reserved && i != FSINFO_SECTOR ==> v.disk[..v.reserved][i] == front[i]
  }

  predicate SameButInfo(a: seq<Sector>, b: seq<Sector>) {
    |a| == |b| && forall i :: 0 <= i < |a| && i != FSINFO_SECTOR ==> a[i] == b[i]
  }

  lemma FrontOnce(v: Volume, before: seq<Sector>)
    requires SameFront(v, before)
    ensures SameButInfo(v.disk[..v.reserved], before)
  {
  }

  lemma FrontAgain(v: Volume, middle: seq<Sector>, before: seq<Sector>)
    requires SameFront(v, middle) && SameButInfo(middle, before)
    ensures SameFront(v, before) && SameButInfo(v.disk[..v.reserved], before)
  {
  }

  /** Of a whole disk, FSInfo is brought up to these figures if it is signed, and nothing else changes. */
  predicate OnlyInfo(before: seq<Sector>, after: seq<Sector>, free: Word, hint: Word) {
    FSINFO_SECTOR < |before| &&
    after == if Signed(before[FSINFO_SECTOR])
             then before[FSINFO_SECTOR := Informed(before[FSINFO_SECTOR], free, hint)] else before
  }

  /** That changes nothing at all exactly if FSInfo is not signed or says so already. */
  lemma OnlyInfoExactly(before: seq<Sector>, after: seq<Sector>, free: Word, hint: Word)
    requires OnlyInfo(before, after, free, hint)
    ensures after == before <==>
            Signed(before[FSINFO_SECTOR]) ==>
              Read32(before[FSINFO_SECTOR], FSINFO_FREE_COUNT_OFFSET) == free &&
              Read32(before[FSINFO_SECTOR], FSINFO_NEXT_FREE_OFFSET) == hint
  {
    hide Read32, Signed, Patched;
    var s := before[FSINFO_SECTOR];
    InformedRead(s, free, hint);
    PatchedSame(s, FSINFO_FREE_COUNT_OFFSET);
    PatchedSame(s, FSINFO_NEXT_FREE_OFFSET);
  }

  /** An FSInfo that leaves the count open, as it may, is always written to. */
  lemma UnknownWritten(before: seq<Sector>, after: seq<Sector>, free: Word, hint: Word)
    requires OnlyInfo(before, after, free, hint) && Signed(before[FSINFO_SECTOR]) && free != 0xFFFF_FFFF
    requires Read32(before[FSINFO_SECTOR], FSINFO_FREE_COUNT_OFFSET) == 0xFFFF_FFFF
    ensures after != before
  {
    hide Read32, Signed, Informed;
    OnlyInfoExactly(before, after, free, hint);
  }

  lemma OnlyInfoTwice(before: seq<Sector>, middle: seq<Sector>, after: seq<Sector>, free0: Word, free: Word,
                      hint0: Word, hint: Word)
    requires OnlyInfo(before, middle, free0, hint0) && OnlyInfo(middle, after, free, hint)
    ensures OnlyInfo(before, after, free, hint)
  {
    hide Signed, Informed;
    InformedRead(before[FSINFO_SECTOR], free0, hint0);
    InformedTwice(before[FSINFO_SECTOR], free0, free, hint0, hint);
  }

  lemma InformedTwice(s: Sector, free0: Word, free: Word, hint0: Word, hint: Word)
    ensures Informed(Informed(s, free0, hint0), free, hint) == Informed(s, free, hint)
  {
    hide Bytes32;
  }

  /** commit: afterwards the disk is behind on nothing. */
  method Commit(v: Volume)
    requires v.Valid()
    modifies v.disk, v`cacheDirty, v`apart, v`freeBytes, v`freeKnown
    ensures v.Valid() && v.Data() == old(v.Data()) && v.apart <= old(v.apart) && !v.cacheDirty
    ensures old(v.Exact()) ==> v.Exact() && InfoCounts(v)
    ensures v.disk[..v.reserved] ==
            if Signed(old(v.disk[FSINFO_SECTOR]))
            then old(v.disk[..v.reserved])[FSINFO_SECTOR := Informed(old(v.disk[FSINFO_SECTOR]), FreeClusters(v),
            v.searchHint)]
            else old(v.disk[..v.reserved])
    ensures SameFront(v, old(v.disk[..v.reserved]))
    ensures old(!v.cacheDirty) ==> OnlyInfo(old(v.disk[..]), v.disk[..], FreeClusters(v), v.searchHint)
    ensures old(v.freeKnown) ==> v.freeKnown
  {
    hide Volume.Stored, Volume.Walked, Volume.Cached, Holds, FreeCount, Informed, FreeClusters, Signed, InfoCounts,
         Volume.Exact;
    v.Flush();
    assert v.disk[FSINFO_SECTOR] == v.disk[..v.reserved][FSINFO_SECTOR];
    assert old(v.disk[FSINFO_SECTOR]) == old(v.disk[..v.reserved])[FSINFO_SECTOR];
    UpdateFsinfo(v);
    assert v.disk[FSINFO_SECTOR] == v.disk[..v.reserved][FSINFO_SECTOR];
    if old(v.Exact()) {
      InfoWritten(v, old(v.disk[FSINFO_SECTOR]));
    }
  }

  /** What is written to FSInfo is what it then says, and the exact figure divided by the cluster size is the free
      count. */
  lemma InfoWritten(v: Volume, sector: Sector)
    requires v.Geometry() && v.Total() <= |v.table| && v.Exact() && FSINFO_SECTOR < v.disk.Length &&
             (Signed(sector) ==> v.freeKnown)
    requires v.disk[FSINFO_SECTOR] == if Signed(sector) then Informed(sector, FreeClusters(v), v.searchHint) else sector
    ensures InfoCounts(v)
  {
    hide Informed, FreeClusters, Read32, FreeCount;
    if Signed(sector) {
      InformedRead(sector, FreeClusters(v), v.searchHint);
      FreeClustersExact(v);
    }
  }

  /** With nothing held back, every copy of the table that has not been left apart is the table. */
  lemma AllCopiesHold(v: Volume, copy: nat, relative: nat)
    requires v.Valid() && !v.cacheDirty && copy < v.fatCount && relative < v.sectorsPerFat && relative !in v.apart
    ensures v.CopySector(copy, relative) < v.disk.Length && Holds(v.disk[v.CopySector(copy, relative)], v.table,
            relative)
  {
  }
}
