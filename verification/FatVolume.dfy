/** kernel/fat32.c: a mounted volume - the allocation table behind its one-sector write-back cache. */
module FatVolume {
  import opened Numbers
  import opened Words
  import opened LittleEndian
  import opened FatTable

  const SECTOR_SIZE := 512
  /** Table entries in a sector. */
  const PER_SECTOR := 128

  type Sector = s: seq<Byte> | |s| == 512 witness seq(512, _ => 0)

  /** These bytes are the entries of one sector of the table. */
  ghost predicate Holds(s: seq<Byte>, t: Table, relative: nat) {
    |s| == SECTOR_SIZE && PER_SECTOR * relative + PER_SECTOR <= |t| &&
    forall c :: PER_SECTOR * relative <= c < PER_SECTOR * relative + PER_SECTOR ==>
      t[c] == Read32(s, 4 * (c - PER_SECTOR * relative))
  }

  /** The table that sectors of entries make up. */
  function TableOn(sectors: seq<Sector>): (t: Table)
    ensures |t| == PER_SECTOR * |sectors|
  {
    seq(PER_SECTOR * |sectors|, c requires 0 <= c < PER_SECTOR * |sectors| => Read32(sectors[c / PER_SECTOR],
    4 * (c % PER_SECTOR)))
  }

  lemma TableOnHolds(sectors: seq<Sector>, relative: nat)
    requires relative < |sectors|
    ensures Holds(sectors[relative], TableOn(sectors), relative)
  {
    hide Read32;
    forall c | PER_SECTOR * relative <= c < PER_SECTOR * relative + PER_SECTOR
      ensures TableOn(sectors)[c] == Read32(sectors[relative], 4 * (c - PER_SECTOR * relative))
    {
      assert c / PER_SECTOR == relative && c % PER_SECTOR == c - PER_SECTOR * relative;
    }
  }

  /** Writing one entry's four bytes into the sector that holds it. */
  function Patched(s: seq<Byte>, at: nat, entry: Word): (p: seq<Byte>)
    requires at + 4 <= |s|
    ensures |p| == |s|
  {
    var b := Bytes32(entry);
    s[at := b[0]][at + 1 := b[1]][at + 2 := b[2]][at + 3 := b[3]]
  }

  lemma PatchedRead(s: seq<Byte>, at: nat, entry: Word, other: nat)
    requires at + 4 <= |s| && other + 4 <= |s| && at % 4 == 0 && other % 4 == 0
    ensures Read32(Patched(s, at, entry), other) == if other == at then entry else Read32(s, other)
  {
    hide Bytes32;
    Bytes32Read(entry);
  }

  lemma PatchedHolds(s: seq<Byte>, t: Table, cluster: nat, value: Word)
    requires cluster < |t| && Holds(s, t, cluster / PER_SECTOR)
    ensures Holds(Patched(s, cluster % PER_SECTOR * 4, Merge(t[cluster], value)), Put(t, cluster, value),
            cluster / PER_SECTOR)
  {
    hide Merge, Read32, Patched;
    var relative, u := cluster / PER_SECTOR, Put(t, cluster, value);
    var p := Patched(s, cluster % PER_SECTOR * 4, Merge(t[cluster], value));
    forall c | PER_SECTOR * relative <= c < PER_SECTOR * relative + PER_SECTOR
      ensures u[c] == Read32(p, 4 * (c - PER_SECTOR * relative))
    {
      PatchedRead(s, cluster % PER_SECTOR * 4, Merge(t[cluster], value), 4 * (c - PER_SECTOR * relative));
    }
  }

  lemma OtherHolds(s: seq<Byte>, t: Table, cluster: nat, value: Word, relative: nat)
    requires cluster < |t| && relative != cluster / PER_SECTOR && Holds(s, t, relative)
    ensures Holds(s, Put(t, cluster, value), relative)
  {
    hide Merge, Read32;
  }

  lemma {:induction false} CopyRange(copy: nat, copies: nat, size: nat, relative: nat)
    requires copy < copies && relative < size
    ensures Times(copy, size) + relative < Times(copies, size)
  {
    TimesMono(copy + 1, copies, size);
  }

  lemma {:induction false} CopyApart(copy: nat, other: nat, size: nat, relative: nat, place: nat)
    requires relative < size && place < size && Times(copy, size) + relative == Times(other, size) + place
    ensures relative == place && copy == other
  {
    if copy < other {
      TimesMono(copy + 1, other, size);
    } else if copy > other {
      TimesMono(other + 1, copy, size);
    }
  }

  /** Some sectors replaced from `at` on. */
  function Overlaid(data: seq<Sector>, at: nat, run: seq<Sector>): (d: seq<Sector>)
    ensures |d| == |data|
  {
    if at + |run| <= |data| then data[..at] + run + data[at + |run|..] else data
  }

  const BLANK: Sector := seq(512, _ => 0)

  function Blanks(count: nat): (s: seq<Sector>)
    ensures |s| == count
  {
    seq(count, _ => BLANK)
  }

  lemma EntryOffset(cluster: nat)
    requires cluster < LINKS
    ensures cluster * 4 % BASE / SECTOR_SIZE == cluster / PER_SECTOR
    ensures cluster * 4 % BASE % SECTOR_SIZE == cluster % PER_SECTOR * 4
  {
    var q, r := cluster / PER_SECTOR, cluster % PER_SECTOR;
    assert cluster * 4 == SECTOR_SIZE * q + r * 4;
  }

  class Volume {
    const disk: array<Sector>
    const sectorsPerCluster: nat
    const reserved: nat
    const fatCount: nat
    const sectorsPerFat: nat
    const firstData: nat
    const clusterCount: nat

    const cache: array<Byte>
    var cacheSector: nat
    var cacheValid: bool
    var cacheDirty: bool
    var searchHint: Word
    var freeBytes: nat
    var freeKnown: bool
    var walkFirst: nat
    var walkOffset: nat
    var walkCluster: nat

    /** The table this volume has: every entry as last written, wherever it is now. */
    ghost var table: Table
    /** Sectors of the table whose copies disagreed when the volume was mounted and have not been written since. */
    ghost var apart: set<nat>
    /** How many links the remembered read position is from the start of its file. */
    ghost var walkIndex: nat

    /** One past the last cluster number. */
    function Total(): nat {
      clusterCount + 2
    }

    function ClusterBytes(): nat {
      sectorsPerCluster * SECTOR_SIZE
    }

    /** What mounting checks, and a table with an entry for every cluster. */
    ghost predicate Geometry() {
      0 < sectorsPerCluster < 256 && 2 <= reserved && 0 < fatCount && firstData == reserved + Times(fatCount,
      sectorsPerFat) &&
      Total() <= PER_SECTOR * sectorsPerFat && Total() <= BAD && cache.Length == SECTOR_SIZE &&
      firstData + Times(clusterCount, sectorsPerCluster) <= disk.Length
    }

    /** Where on the volume one copy of one sector of the table is. */
    function CopySector(copy: nat, relative: nat): nat {
      reserved + Times(copy, sectorsPerFat) + relative
    }

    lemma CopyInside(copy: nat, relative: nat)
      requires Geometry() && copy < fatCount && relative < sectorsPerFat
      ensures reserved <= CopySector(copy, relative) < firstData <= disk.Length
    {
      CopyRange(copy, fatCount, sectorsPerFat, relative);
    }

    lemma CopiesDiffer(copy: nat, relative: nat, other: nat, place: nat)
      requires relative < sectorsPerFat && place < sectorsPerFat && CopySector(copy, relative) == CopySector(other,
               place)
      ensures copy == other && relative == place
    {
      CopyApart(copy, other, sectorsPerFat, relative, place);
    }

    /** The sector is held in memory and the disk is behind. */
    ghost predicate Behind(relative: nat)
      reads this`cacheDirty, this`cacheSector
    {
      cacheDirty && cacheSector == relative
    }

    /** The cache refines the table. */
    ghost predicate Cached()
      reads this`cacheDirty, this`cacheSector, this`cacheValid, this`table, cache
    {
      (cacheDirty ==> cacheValid) &&
      (cacheValid ==> cacheSector < sectorsPerFat && Holds(cache[..], table, cacheSector))
    }

    /** And so does the disk: the first copy everywhere, the others wherever they agreed or have been written. */
    ghost predicate Stored()
      requires Geometry()
      reads this`cacheDirty, this`cacheSector, this`table, this`apart, disk
    {
      forall copy: nat, relative: nat :: copy < fatCount && relative < sectorsPerFat ==>
        CopySector(copy, relative) < disk.Length &&
        (!Behind(relative) && (copy == 0 || relative !in apart) ==> Holds(disk[CopySector(copy, relative)], table,
           relative))
    }

    /** A remembered read position is a position in the file's chain as it is now. */
    ghost predicate Walked()
      requires Total() <= |table|
      reads this`walkFirst, this`walkOffset, this`walkCluster, this`walkIndex, this`table
    {
      walkFirst >= 2 && walkCluster >= 2 ==>
        walkOffset == Times(walkIndex, ClusterBytes()) && walkCluster == Follow(table, Total(), walkFirst, walkIndex)
    }

    ghost predicate Valid()
      reads this, cache, disk
    {
      Geometry() && |table| == PER_SECTOR * sectorsPerFat && Cached() && Stored() && Walked()
    }

    /** The free figure, when it is known, is exact. */
    ghost predicate Exact()
      reads this`freeKnown, this`freeBytes, this`table
    {
      freeKnown ==> Total() <= |table| && freeBytes == Times(FreeCount(table, 2, Total()), ClusterBytes())
    }

    /** Where a cluster begins among the data sectors. */
    function Start(cluster: nat): (at: nat)
      requires 2 <= cluster
    {
      Times(cluster - 2, sectorsPerCluster)
    }

    /** cluster_first_sector. */
    function FirstSector(cluster: nat): nat
      requires 2 <= cluster
    {
      firstData + Start(cluster)
    }

    /** Both in plain arithmetic: the reserved sectors, the copies of the table one after another, the clusters. */
    lemma Places(copy: nat, relative: nat, cluster: nat)
      requires Geometry() && 2 <= cluster
      ensures CopySector(copy, relative) == reserved + copy * sectorsPerFat + relative
      ensures FirstSector(cluster) == reserved + fatCount * sectorsPerFat + (cluster - 2) * sectorsPerCluster
    {
      hide Times;
      TimesIsProduct(copy, sectorsPerFat);
      TimesIsProduct(fatCount, sectorsPerFat);
      TimesIsProduct(cluster - 2, sectorsPerCluster);
    }

    /** An entry that is not waiting in the cache, in every copy that was never left apart: four bytes of its sector. */
    lemma EntryOnDisk(copy: nat, cluster: nat)
      requires Valid() && copy < fatCount && cluster < |table| && !Behind(cluster / PER_SECTOR)
      requires copy == 0 || cluster / PER_SECTOR !in apart
      ensures var sector := reserved + copy * sectorsPerFat + cluster / 128;
              sector < disk.Length && table[cluster] == Read32(disk[sector], cluster % 128 * 4)
    {
      hide Times, Read32;
      var relative := cluster / PER_SECTOR;
      TimesIsProduct(copy, sectorsPerFat);
      assert Holds(disk[CopySector(copy, relative)], table, relative);
      assert 4 * (cluster - PER_SECTOR * relative) == cluster % 128 * 4;
    }

    lemma ClusterInside(cluster: nat)
      requires Geometry() && InRange(cluster, Total())
      ensures Start(cluster) + sectorsPerCluster <= Times(clusterCount, sectorsPerCluster)
      ensures FirstSector(cluster) + sectorsPerCluster <= disk.Length
    {
      TimesMono(cluster - 1, clusterCount, sectorsPerCluster);
    }

    /** The clusters, one after another from number 2. */
    ghost function Data(): (data: seq<Sector>)
      requires Geometry()
      reads disk
      ensures |data| >= Times(clusterCount, sectorsPerCluster)
    {
      disk[firstData..]
    }

    /** The data with one cluster cleared. */
    ghost function Blanked(data: seq<Sector>, cluster: nat): seq<Sector>
      requires 2 <= cluster
    {
      Overlaid(data, Start(cluster), Blanks(sectorsPerCluster))
    }

    /** Everything on the volume but its allocation table. */
    ghost function Elsewhere(): (seq<Sector>, seq<Sector>)
      requires Geometry()
      reads disk
    {
      (disk[..reserved], Data())
    }

    /** write_volume_sectors, anywhere but into the allocation table. */
    method WriteRun(sector: nat, run: seq<Sector>)
      requires Valid() && firstData <= sector && sector + |run| <= disk.Length
      modifies disk
      ensures Valid() && disk[..reserved] == old(disk[..reserved])
      ensures Data() == Overlaid(old(Data()), sector - firstData, run)
    {
      hide Holds, Volume.Walked, FatTable.Follow;
      ghost var before := disk[..];
      forall copy: nat, relative: nat | copy < fatCount && relative < sectorsPerFat
        ensures reserved <= CopySector(copy, relative) < firstData
      {
        CopyInside(copy, relative);
      }
      forall i | 0 <= i < |run| {
        disk[sector + i] := run[i];
      }
      assert disk[..reserved] == before[..reserved];
      assert disk[firstData..] == Overlaid(before[firstData..], sector - firstData, run);
    }

    /** write_volume_sector below the allocation table. */
    method WriteFront(sector: nat, s: Sector)
      requires Valid() && sector < reserved
      modifies disk
      ensures Valid() && Data() == old(Data())
      ensures reserved <= disk.Length && disk[..reserved] == old(disk[..reserved])[sector := s]
      ensures disk[..] == old(disk[..])[sector := s]
    {
      hide Holds, Volume.Walked, FatTable.Follow;
      ghost var before := disk[..];
      forall copy: nat, relative: nat | copy < fatCount && relative < sectorsPerFat
        ensures reserved <= CopySector(copy, relative)
      {
        CopyInside(copy, relative);
      }
      disk[sector] := s;
      assert disk[..reserved] == before[..reserved][sector := s];
      assert disk[firstData..] == before[firstData..];
    }

    /** All the copies of one sector of the table are the same. */
    ghost predicate CopiesAgree(relative: nat)
      reads disk
    {
      forall copy: nat :: copy < fatCount ==>
        CopySector(copy, relative) < disk.Length && CopySector(0, relative) < disk.Length &&
        disk[CopySector(copy, relative)] == disk[CopySector(0, relative)]
    }

    /** write_volume_sectors into one copy of the table other than the first: the same sectors of the first, written
        over it. */
    method CopyOver(copy: nat, offset: nat, run: nat)
      requires Valid() && !cacheDirty && 1 <= copy < fatCount && offset + run <= sectorsPerFat
      modifies disk
      ensures Valid() && Elsewhere() == old(Elsewhere())
      ensures forall k: nat, relative: nat :: k < fatCount && relative < sectorsPerFat ==>
                CopySector(k, relative) < disk.Length &&
                disk[CopySector(k, relative)] ==
                if k == copy && offset <= relative < offset + run then old(disk[CopySector(0, relative)])
                    else old(disk[CopySector(k, relative)])
    {
      hide Holds, Volume.Walked, FatTable.Follow, Times, Volume.CopySector;
      ghost var before := disk[..];
      CopyEnds(copy, offset, run);
      var here, there := CopySector(0, offset), CopySector(copy, offset);
      forall i | 0 <= i < run {
        disk[there + i] := disk[here + i];
      }
      forall k: nat, relative: nat | k < fatCount && relative < sectorsPerFat
        ensures CopySector(k, relative) < disk.Length &&
                disk[CopySector(k, relative)] ==
                if k == copy && offset <= relative < offset + run then before[CopySector(0, relative)]
                    else before[CopySector(k, relative)]
      {
        CopyInside(k, relative);
        CopyShift(copy, offset, run, k, relative);
      }
      assert disk[..reserved] == before[..reserved] && disk[firstData..] == before[firstData..];
    }

    /** Which sectors of which copy a run of one copy is. */
    lemma CopyShift(copy: nat, offset: nat, run: nat, k: nat, relative: nat)
      requires Geometry() && copy < fatCount && k < fatCount
      requires offset + run <= sectorsPerFat && relative < sectorsPerFat
      ensures var at, there := CopySector(k, relative), CopySector(copy, offset);
              if k == copy && offset <= relative < offset + run
              then at == there + (relative - offset) &&
                   CopySector(0, relative) == CopySector(0, offset) + (relative - offset)
              else at < there || there + run <= at
    {
      var at, there := CopySector(k, relative), CopySector(copy, offset);
      if there <= at < there + run {
        CopiesDiffer(k, relative, copy, offset + (at - there));
      }
    }

    lemma CopyEnds(copy: nat, offset: nat, run: nat)
      requires Geometry() && copy < fatCount && offset + run <= sectorsPerFat
      ensures reserved <= CopySector(0, offset) && CopySector(0, offset) + run <= firstData <= disk.Length
      ensures reserved <= CopySector(copy, offset) && CopySector(copy, offset) + run <= firstData
    {
      if run > 0 {
        CopyInside(0, offset + run - 1);
        CopyInside(copy, offset + run - 1);
      } else {
        TimesMono(copy + 1, fatCount, sectorsPerFat);
      }
    }

    /** Nothing is apart once all copies have been seen to agree. */
    ghost method Rejoin()
      requires Valid() && !cacheDirty
      requires forall relative: nat :: relative < sectorsPerFat ==> CopiesAgree(relative)
      modifies this`apart
      ensures Valid() && apart == {}
    {
      hide Holds, Volume.Walked, FatTable.Follow, Times;
      apart := {};
      forall copy: nat, relative: nat | copy < fatCount && relative < sectorsPerFat
        ensures CopySector(copy, relative) < disk.Length && Holds(disk[CopySector(copy, relative)], table, relative)
      {
        CopyInside(copy, relative);
        assert CopiesAgree(relative);
      }
    }

    /** The record fat32_mount fills in, with nothing known and nothing held. */
    constructor (disk: array<Sector>, sectorsPerCluster: nat, reserved: nat, fatCount: nat, sectorsPerFat: nat,
    clusterCount: nat)
      requires 0 < sectorsPerCluster < 256 && 2 <= reserved && 0 < fatCount
      requires clusterCount + 2 <= PER_SECTOR * sectorsPerFat && clusterCount + 2 <= BAD
      requires reserved + Times(fatCount, sectorsPerFat) + Times(clusterCount, sectorsPerCluster) <= disk.Length
      ensures Valid() && fresh(cache) && this.disk == disk && !freeKnown && searchHint == 0 && !cacheDirty
      ensures this.sectorsPerCluster == sectorsPerCluster && this.reserved == reserved && this.fatCount == fatCount
      ensures this.sectorsPerFat == sectorsPerFat && this.clusterCount == clusterCount
      ensures reserved + sectorsPerFat <= disk.Length && table == TableOn(disk[reserved..reserved + sectorsPerFat])
      ensures forall relative: nat :: relative in apart ==> relative < sectorsPerFat && !CopiesAgree(relative)
    {
      hide Ended, Holds, InRange, Link, TableOn, Volume.ClusterBytes, Volume.CopiesAgree, Volume.CopySector,
           Volume.Stored;
      this.disk := disk;
      this.sectorsPerCluster, this.reserved, this.fatCount := sectorsPerCluster, reserved, fatCount;
      this.sectorsPerFat, this.clusterCount := sectorsPerFat, clusterCount;
      firstData := reserved + Times(fatCount, sectorsPerFat);
      cache := new Byte[SECTOR_SIZE](_ => 0);
      cacheSector, cacheValid, cacheDirty := 0, false, false;
      searchHint, freeBytes, freeKnown := 0, 0, false;
      walkFirst, walkOffset, walkCluster := 0, 0, 0;
      walkIndex := 0;
      new;
      TimesMono(1, fatCount, sectorsPerFat);
      table := TableOn(disk[reserved..reserved + sectorsPerFat]);
      apart := set relative: nat | relative < sectorsPerFat && !CopiesAgree(relative);
      StoredFresh();
    }

    lemma StoredFresh()
      requires Geometry() && !cacheDirty && reserved + sectorsPerFat <= disk.Length
      requires table == TableOn(disk[reserved..reserved + sectorsPerFat])
      requires forall relative: nat :: relative < sectorsPerFat && !CopiesAgree(relative) ==> relative in apart
      ensures Stored()
    {
      hide Holds, TableOn;
      forall copy: nat, relative: nat | copy < fatCount && relative < sectorsPerFat
        ensures CopySector(copy, relative) < disk.Length && (copy == 0 || relative !in apart ==>
                Holds(disk[CopySector(copy, relative)], table, relative))
      {
        CopyInside(copy, relative);
        CopyInside(0, relative);
        TableOnHolds(disk[reserved..reserved + sectorsPerFat], relative);
      }
    }

    /** fat_flush: the held sector goes out to every copy of the table. */
    method Flush()
      requires Valid()
      modifies disk, this`cacheDirty, this`apart
      ensures Valid() && !cacheDirty && Elsewhere() == old(Elsewhere())
      ensures apart == if old(cacheDirty) then old(apart) - {cacheSector} else old(apart)
      ensures old(!cacheDirty) ==> disk[..] == old(disk[..])
    {
      hide Holds, Volume.Walked, FatTable.Follow;
      if !cacheValid || !cacheDirty {
        return;
      }
      ghost var before := disk[..];
      var copy := 0;
      while copy < fatCount
        invariant copy <= fatCount
        invariant forall k: nat :: k < copy ==>
                    CopySector(k, cacheSector) < disk.Length && disk[CopySector(k, cacheSector)] == cache[..]
        invariant forall k: nat, relative: nat ::
                    k < fatCount && relative < sectorsPerFat && relative != cacheSector ==>
                      CopySector(k, relative) < disk.Length &&
                      disk[CopySector(k, relative)] == before[CopySector(k, relative)]
        invariant forall i :: 0 <= i < disk.Length && !(reserved <= i < firstData) ==> disk[i] == before[i]
        modifies disk
      {
        CopyInside(copy, cacheSector);
        forall k: nat, relative: nat | k < fatCount && relative < sectorsPerFat &&
            CopySector(copy, cacheSector) == CopySector(k, relative)
          ensures k == copy && relative == cacheSector
        {
          CopiesDiffer(copy, cacheSector, k, relative);
        }
        disk[CopySector(copy, cacheSector)] := cache[..];
        copy := copy + 1;
      }
      assert disk[..reserved] == before[..reserved] && disk[firstData..] == before[firstData..];
      cacheDirty := false;
      apart := apart - {cacheSector};
    }

    /** fat_sector: bring in the sector of the table with this number. */
    method Fetch(relative: nat) returns (ok: bool)
      requires Valid()
      modifies disk, cache, this`cacheDirty, this`cacheSector, this`cacheValid, this`apart
      ensures Valid() && Elsewhere() == old(Elsewhere()) && apart <= old(apart)
      ensures ok <==> relative < sectorsPerFat
      ensures ok ==> cacheValid && cacheSector == relative
      ensures cacheDirty ==> old(cacheDirty)
      ensures cacheDirty == (old(cacheDirty) && (!ok || old(cacheSector) == relative))
      ensures old(!cacheDirty) ==> disk[..] == old(disk[..])
    {
      hide Holds, Volume.Walked, FatTable.Follow;
      if relative >= sectorsPerFat {
        return false;
      }
      if cacheValid && cacheSector == relative {
        return true;
      }
      Flush();
      CopyInside(0, relative);
      assert CopySector(0, relative) == reserved + relative;
      var read := disk[reserved + relative];
      forall i | 0 <= i < SECTOR_SIZE {
        cache[i] := read[i];
      }
      assert cache[..] == read;
      cacheSector := relative;
      cacheValid := true;
      return true;
    }

    /** The held sector answers for its entries. */
    lemma CachedEntry(cluster: nat)
      requires Geometry() && Cached() && cacheValid && cacheSector == cluster / PER_SECTOR && cluster < |table|
      ensures Read32(cache[..], cluster % PER_SECTOR * 4) == table[cluster]
    {
      hide Read32;
      assert PER_SECTOR * cacheSector <= cluster < PER_SECTOR * cacheSector + PER_SECTOR;
    }

    /** An entry's byte offset, worked out in 32 bits, finds its sector and its place there. */
    lemma EntryPlace(cluster: nat)
      requires Geometry() && cluster < Total()
      ensures cluster * 4 % BASE / SECTOR_SIZE == cluster / PER_SECTOR < sectorsPerFat
      ensures cluster * 4 % BASE % SECTOR_SIZE == cluster % PER_SECTOR * 4
    {
      EntryOffset(cluster);
    }

    /** next_cluster: one link, read through the cache. */
    method Next(cluster: nat) returns (link: nat)
      requires Valid()
      modifies disk, cache, this`cacheDirty, this`cacheSector, this`cacheValid, this`apart
      ensures Valid() && Elsewhere() == old(Elsewhere()) && apart <= old(apart)
      ensures link == FatTable.Next(table, Total(), cluster)
      ensures (cacheDirty ==> old(cacheDirty)) && (sectorsPerFat == 1 ==> cacheDirty == old(cacheDirty))
      ensures old(!cacheDirty) ==> disk[..] == old(disk[..])
    {
      if cluster < 2 || cluster >= Total() {
        return LAST;
      }
      EntryPlace(cluster);
      var ok := Fetch(cluster * 4 % BASE / SECTOR_SIZE);
      CachedEntry(cluster);
      hide Read32, Volume.Stored, Volume.Walked, Volume.Cached, FatTable.Follow;
      assert ok;
      return Read32(cache[..], cluster * 4 % BASE % SECTOR_SIZE) % LINKS;
    }

    /** Storing an entry's bytes in the held sector, which the disk is then behind on. */
    method Store(cluster: nat, value: Word)
      requires Valid() && 2 <= cluster < Total() && cacheValid && cacheSector == cluster / PER_SECTOR
      modifies cache, this`cacheDirty, this`table, this`walkFirst, this`walkOffset, this`walkCluster
      ensures Valid() && table == Put(old(table), cluster, value) && cacheDirty
    {
      hide Holds, Bytes32, Read32, Merge, FatTable.Follow, Volume.Walked;
      EntryPlace(cluster);
      var within := cluster * 4 % BASE % SECTOR_SIZE;
      ghost var held := cache[..];
      CachedEntry(cluster);
      var entry := Merge(Read32(cache[..], within), value);
      var bytes := Bytes32(entry);
      PatchedHolds(held, table, cluster, value);
      OthersHold(cluster, value);
      cache[within], cache[within + 1], cache[within + 2], cache[within + 3] := bytes[0], bytes[1], bytes[2], bytes[3];
      assert cache[..] == Patched(held, within, entry);
      table := Put(table, cluster, value);
      cacheDirty := true;
      walkFirst, walkOffset, walkCluster := 0, 0, 0;
      assert Walked() by {
        WalkForgotten();
      }
    }

    lemma WalkForgotten()
      requires Total() <= |table| && walkFirst == 0
      ensures Walked()
    {
    }

    /** Every other sector of the table reads the same after the entry changes. */
    lemma OthersHold(cluster: nat, value: Word)
      requires Geometry() && Stored() && cluster < Total() <= |table|
      ensures forall copy: nat, relative: nat ::
                copy < fatCount && relative < sectorsPerFat && relative != cluster / PER_SECTOR && !Behind(relative) &&
                (copy == 0 || relative !in apart) ==>
                CopySector(copy, relative) < disk.Length && Holds(disk[CopySector(copy, relative)],
                Put(table, cluster, value), relative)
    {
      hide Holds;
      forall copy: nat, relative: nat |
        copy < fatCount && relative < sectorsPerFat && relative != cluster / PER_SECTOR && !Behind(relative) &&
        (copy == 0 || relative !in apart)
        ensures CopySector(copy, relative) < disk.Length && Holds(disk[CopySector(copy, relative)],
                Put(table, cluster, value), relative)
      {
        OtherHolds(disk[CopySector(copy, relative)], table, cluster, value, relative);
      }
    }

    /** The free figure after one entry changes. */
    lemma ExactPut(before: Table, cluster: nat, value: Word, known: bool, figure: nat)
      requires Total() <= |before| && 2 <= cluster < Total()
      requires known ==> figure == Times(FreeCount(before, 2, Total()), ClusterBytes())
      ensures var u, now := Put(before, cluster, value), FreeCount(Put(before, cluster, value), 2, Total());
              var was, free := IsFree(before, cluster), value % LINKS == FREE;
              known ==>
                (was && !free ==> figure >= ClusterBytes() && figure - ClusterBytes() == Times(now, ClusterBytes())) &&
                (!was && free ==> figure + ClusterBytes() == Times(now, ClusterBytes())) &&
                (was == free ==> figure == Times(now, ClusterBytes()))
    {
      hide Put, IsFree;
      FreeCountPut(before, 2, Total(), cluster, value);
      FreeCountZero(before, 2, Total());
    }

    /** write_fat_entry. */
    method WriteEntry(cluster: nat, value: Word) returns (ok: bool)
      requires Valid()
      modifies disk, cache, this
      ensures Valid() && Elsewhere() == old(Elsewhere()) && apart <= old(apart)
      ensures ok <==> 2 <= cluster < Total()
      ensures table == if ok then Put(old(table), cluster, value) else old(table)
      ensures ok ==> cacheDirty
      ensures old(Exact()) ==> Exact()
      ensures freeKnown == old(freeKnown)
      ensures searchHint == if ok && value % LINKS == FREE && !IsFree(old(table), cluster) &&
              cluster < old(searchHint) then cluster
                            else old(searchHint)
    {
      hide Holds, Read32, Volume.Stored, Volume.Walked, Volume.Cached, FatTable.Follow, FreeCount;
      if cluster < 2 || cluster >= Total() {
        return false;
      }
      EntryPlace(cluster);
      var fetched := Fetch(cluster * 4 % BASE / SECTOR_SIZE);
      assert fetched;
      CachedEntry(cluster);
      ghost var before, known, figure := table, freeKnown, freeBytes;
      var wasFree := Read32(cache[..], cluster * 4 % BASE % SECTOR_SIZE) % LINKS == FREE;
      var nowFree := value % LINKS == FREE;
      if Exact() {
        ExactPut(before, cluster, value, known, figure);
      }
      Store(cluster, value);
      if nowFree && !wasFree && cluster < searchHint {
        searchHint := cluster;
      }
      if freeKnown {
        if wasFree && !nowFree {
          freeBytes := if freeBytes >= ClusterBytes() then freeBytes - ClusterBytes() else 0;
        } else if !wasFree && nowFree {
          freeBytes := freeBytes + ClusterBytes();
        }
      }
      return true;
    }
  }
}
