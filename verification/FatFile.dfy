/** kernel/fat32.c: fat32_write as a whole, and what it leaves of every file on the volume. */
module FatFile {
  import opened Words
  import opened LittleEndian
  import opened FatTable
  import opened FatVolume
  import opened FatAllocation
  import opened FatContents
  import opened FatWrite

  /** What a write started from: the volume as it was, the file's chain, and what is to go where. */
  datatype Job = Job(table: Table, front: seq<Sector>, data: seq<Sector>, apart: set<nat>, exact: bool, chain: seq<nat>,
                     start: nat, input: seq<Byte>)

  /** No cluster has been claimed that the write does not reach. */
  ghost predicate Needed(v: Volume, job: Job, ids: seq<nat>) {
    |ids| <= |job.chain| || Times(|ids| - 1, v.ClusterBytes()) < job.start + |job.input|
  }

  /** The chain has grown to `ids`, and the rest of the table and the volume's first sectors are as they were. */
  ghost predicate Growing(v: Volume, job: Job, ids: seq<nat>)
    reads v`table, v`apart, v`freeKnown, v`freeBytes, v.disk
  {
    v.Geometry() && v.reserved <= v.disk.Length && v.disk[..v.reserved] == job.front && v.apart <= job.apart &&
    (job.exact ==> v.Exact()) && Grown(job.table, v.table, v.Total(), job.chain, ids) && Needed(v, job, ids)
  }

  /** And part of the buffer is in the file. */
  ghost predicate Writing(v: Volume, job: Job, ids: seq<nat>, written: nat)
    reads v`table, v`apart, v`freeKnown, v`freeBytes, v.disk
  {
    Growing(v, job, ids) && written <= |job.input| && Written(v, v.Data(), job.data, ids, job.start,
    job.input[..written])
  }

  lemma GrowingChain(v: Volume, job: Job, ids: seq<nat>)
    requires v.Valid() && Growing(v, job, ids)
    ensures Fits(v, v.Data(), ids) && Distinct(ids) && |ids| > 0 && forall i :: 0 <= i < |ids| ==>
            InRange(ids[i], v.Total())
  {
    ChainFits(v, ids);
    ChainDistinct(v.table, v.Total(), ids);
  }

  /** The next cluster of the chain, one more being claimed when it ends here. */
  method Step(v: Volume, cluster: nat, ghost job: Job, ghost ids1: seq<nat>, ghost k: nat) returns (following: nat,
              ghost ids: seq<nat>)
    requires v.Valid() && Growing(v, job, ids1) && k < |ids1| && cluster == ids1[k]
    requires Times(k + 1, v.ClusterBytes()) < job.start + |job.input|
    modifies v.disk, v.cache, v
    ensures v.Valid() && v.Data() == old(v.Data()) && Growing(v, job, ids) && |ids| > 0 && ids[0] == ids1[0]
    ensures following == 0 ==> Full(v.table, v.Total()) && ids == ids1 && k + 1 == |ids|
    ensures following != 0 ==> k + 1 < |ids| && following == ids[k + 1]
    ensures ids == ids1 ==> v.table == old(v.table) && (v.cacheDirty ==> old(v.cacheDirty))
    ensures following == 0 || v.sectorsPerFat == 1 ==>
              v.cacheDirty == (v.sectorsPerFat == 1 && (ids != ids1 || old(v.cacheDirty)))
    ensures ids == ids1 || (ids == ids1 + [following] && following !in ids1)
  {
    hide Volume.Cached, Volume.Stored, Volume.Walked, Volume.Exact, Times, Grown, Full;
    following, ids := Advance(v, cluster, job.table, job.chain, ids1, k);
    if ids != ids1 {
      assert |ids| - 1 == k + 1;
    }
  }

  /** The walk to the cluster holding `start`, growing the chain when the write starts past its end; 0 when it
      cannot. */
  method Reach(v: Volume, first: nat, offset: nat, ghost job: Job, ghost ids1: seq<nat>)
    returns (cluster: nat, rest: nat, ghost k: nat, ghost ids: seq<nat>)
    requires v.Valid() && Growing(v, job, ids1) && |ids1| > 0 && first == ids1[0] != 0 && offset == job.start &&
             0 < |job.input|
    modifies v.disk, v.cache, v
    ensures v.Valid() && v.Data() == old(v.Data()) && Growing(v, job, ids) && |ids| > 0 && ids[0] == first
    ensures ids1 <= ids && (cluster == 0 ==> Full(v.table, v.Total()) && Capacity(v, ids) <= offset)
    ensures cluster == 0 ==> v.cacheDirty == (v.sectorsPerFat == 1 && (ids != ids1 || old(v.cacheDirty)))
    ensures ids == ids1 ==> v.table == old(v.table) && (v.cacheDirty ==> old(v.cacheDirty))
    ensures cluster != 0 ==> k < |ids| && cluster == ids[k] && rest < v.ClusterBytes() &&
                             offset == Times(k, v.ClusterBytes()) + rest
  {
    hide Volume.Cached, Volume.Stored, Volume.Walked, Times, Growing, Full;
    ghost var b := v.ClusterBytes();
    TimesNone(b);
    cluster, rest, k, ids := first, offset, 0, ids1;
    while rest >= v.ClusterBytes()
      invariant v.Valid() && v.Data() == old(v.Data()) && Growing(v, job, ids) && |ids| > 0 && ids[0] == first
      invariant k < |ids| && cluster == ids[k] && offset == Times(k, b) + rest && cluster != 0 && ids1 <= ids
      invariant ids == ids1 ==> v.table == old(v.table) && (v.cacheDirty ==> old(v.cacheDirty))
      invariant v.sectorsPerFat == 1 ==> v.cacheDirty == (ids != ids1 || old(v.cacheDirty))
      decreases rest
    {
      TimesNext(k, b);
      cluster, ids := Step(v, cluster, job, ids, k);
      if cluster == 0 {
        return;
      }
      rest := rest - v.ClusterBytes();
      k := k + 1;
    }
  }

  lemma WritingStart(v: Volume, job: Job, ids: seq<nat>, k: nat, rest: nat)
    requires v.Valid() && Growing(v, job, ids) && job.data == v.Data()
    requires k < |ids| && rest < v.ClusterBytes() && job.start == Times(k, v.ClusterBytes()) + rest
    ensures Writing(v, job, ids, 0)
  {
    hide Volume.Cached, Volume.Stored, Volume.Walked, Times, Growing, Written;
    GrowingChain(v, job, ids);
    InsideCapacity(k, rest, v.ClusterBytes(), |ids|);
    NothingWritten(v, v.Data(), ids, job.start);
    assert job.input[..0] == [];
  }

  /** The round that moves to the next cluster. */
  method Onward(v: Volume, cluster: nat, ghost k: nat, ghost written: nat, ghost job: Job, ghost ids1: seq<nat>)
    returns (following: nat, ghost ids: seq<nat>)
    requires v.Valid() && Writing(v, job, ids1, written) && written < |job.input|
    requires k < |ids1| && cluster == ids1[k] && job.start + written == Times(k + 1, v.ClusterBytes())
    modifies v.disk, v.cache, v
    ensures v.Valid() && Writing(v, job, ids, written) && |ids| > 0 && ids[0] == ids1[0]
    ensures following == 0 ==> Full(v.table, v.Total()) && k + 1 == |ids|
    ensures following != 0 ==> k + 1 < |ids| && following == ids[k + 1]
  {
    hide Volume.Cached, Volume.Stored, Volume.Walked, Volume.Exact, Times, Growing, Full, Written;
    following, ids := Step(v, cluster, job, ids1, k);
    GrowingChain(v, job, ids);
    if ids != ids1 {
      WrittenGrown(v, v.Data(), job.data, ids1, job.start, job.input[..written], following);
    }
  }

  /** The round that moves bytes. */
  method PutPiece(v: Volume, cluster: nat, rest: nat, input: seq<Byte>, written: nat, address: nat, ghost k: nat,
                  ghost job: Job, ghost ids: seq<nat>)
    returns (chunk: nat)
    requires v.Valid() && Writing(v, job, ids, written) && written < |input| && input == job.input
    requires k < |ids| && cluster == ids[k] && rest < v.ClusterBytes() && job.start + written == Times(k,
             v.ClusterBytes()) + rest
    modifies v.disk
    ensures v.Valid() && 0 < chunk <= |input| - written && rest + chunk <= v.ClusterBytes()
    ensures Writing(v, job, ids, written + chunk)
  {
    hide Volume.Cached, Volume.Stored, Volume.Walked, Volume.Exact, Times, Grown, Written, Recorded;
    GrowingChain(v, job, ids);
    ghost var middle := v.Data();
    chunk := WritePiece(v, cluster, rest, input, written, address);
    WrittenMore(v, v.Data(), middle, job.data, ids, job.start, input[..written], k, rest,
        input[written..written + chunk]);
    assert input[..written] + input[written..written + chunk] == input[..written + chunk];
  }

  /** The writing loop, from a place in the chain on. */
  method PutBytes(v: Volume, cluster0: nat, rest0: nat, ghost k0: nat, input: seq<Byte>, address: nat, ghost job: Job,
                  ghost ids1: seq<nat>)
    returns (written: nat, ghost ids: seq<nat>)
    requires v.Valid() && Writing(v, job, ids1, 0) && input == job.input && k0 < |ids1| && cluster0 == ids1[k0]
    requires rest0 < v.ClusterBytes() && job.start == Times(k0, v.ClusterBytes()) + rest0
    modifies v.disk, v.cache, v
    ensures v.Valid() && Writing(v, job, ids, written) && |ids| > 0 && ids[0] == ids1[0]
    ensures written < |input| ==> Full(v.table, v.Total()) && job.start + written == Capacity(v, ids)
    ensures 0 < |input| ==> 0 < written
  {
    hide Volume.Valid, Times, Writing, Full;
    ids, written := ids1, 0;
    ghost var b := v.ClusterBytes();
    var cluster, rest: nat := cluster0, rest0;
    ghost var k: nat := k0;
    while written < |input|
      invariant v.Valid() && Writing(v, job, ids, written) && written <= |input| && |ids| > 0 && ids[0] == ids1[0]
      invariant rest < b || 0 < written
      invariant k < |ids| && cluster == ids[k] && rest <= b && job.start + written == Times(k, b) + rest
      decreases |input| - written, rest
    {
      if rest >= v.ClusterBytes() {
        TimesNext(k, b);
        var following;
        following, ids := Onward(v, cluster, k, written, job, ids);
        if following == 0 {
          return;
        }
        cluster, rest, k := following, rest - v.ClusterBytes(), k + 1;
      } else {
        var chunk := PutPiece(v, cluster, rest, input, written, address, k, job, ids);
        written, rest := written + chunk, rest + chunk;
      }
    }
  }

  // ---- The directory entry ------------------------------------------------------

  const DIRECTORY_BIT := 0x10

  class FileEntry {
    const attributes: Byte
    const sector: nat
    const offset: nat
    var firstCluster: Word
    var size: Word
    var date: Half
    var time: Half
  }

  /** The twelve bytes of a short entry that a write brings up to date. */
  function Stamped(first: Word, time: Half, date: Half, size: Word): (b: seq<Byte>)
    ensures |b| == 12
  {
    Bytes16(first / 0x1_0000) + Bytes16(time) + Bytes16(date) + Bytes16(first % 0x1_0000) + Bytes32(size)
  }

  /** The sector that holds the entry, with those bytes replaced. */
  function Renewed(s: Sector, at: nat, first: Word, time: Half, date: Half, size: Word): Sector
    requires at + 32 <= SECTOR_SIZE
  {
    Spliced(s, at + 20, Stamped(first, time, date, size))
  }

  /** What a reader finds at the entry's place, and every other byte of the sector as it was. */
  predicate EntrySays(s: Sector, before: Sector, at: nat, first: Word, time: Half, date: Half, size: Word) {
    at + 32 <= SECTOR_SIZE && Read16(s, at + 20) as int * 0x1_0000 + Read16(s, at + 26) == first &&
    Read16(s, at + 22) == time && Read16(s, at + 24) == date && Read32(s, at + 28) == size &&
    forall i :: 0 <= i < SECTOR_SIZE && !(at + 20 <= i < at + 32) ==> s[i] == before[i]
  }

  lemma RenewedSays(s: Sector, at: nat, first: Word, time: Half, date: Half, size: Word)
    requires at + 32 <= SECTOR_SIZE
    ensures EntrySays(Renewed(s, at, first, time, date, size), s, at, first, time, date, size)
  {
    hide Stamped;
    var t, b := Renewed(s, at, first, time, date, size), Stamped(first, time, date, size);
    assert forall i :: 0 <= i < 12 ==> t[at + 20 + i] == b[i];
    StampedSays(first, time, date, size);
  }

  lemma StampedSays(first: Word, time: Half, date: Half, size: Word)
    ensures var b := Stamped(first, time, date, size);
            Read16(b, 0) as int * 0x1_0000 + Read16(b, 6) == first && Read16(b, 2) == time && Read16(b, 4) == date &&
            Read32(b, 8) == size
  {
    hide Bytes32;
    var b := Stamped(first, time, date, size);
    Bytes32Read(size);
    assert forall i :: 0 <= i < 4 ==> b[8 + i] == Bytes32(size)[i];
  }

  /** The entry is a slot of a directory cluster. */
  ghost predicate Slotted(v: Volume, e: FileEntry, dir: nat)
    requires 2 <= dir
  {
    v.FirstSector(dir) <= e.sector < v.FirstSector(dir) + v.sectorsPerCluster && e.offset + 32 <= SECTOR_SIZE
  }

  /** A window of the file has been replaced, its entry brought up to date, and no other cluster touched. */
  ghost predicate Saved(v: Volume, data: seq<Sector>, before: seq<Sector>, ids: seq<nat>, start: nat, piece: seq<Byte>,
                        dir: nat, at: nat, entry: Sector) {
    |data| == |before| && Fits(v, data, ids) && start + |piece| <= Capacity(v, ids) && 2 <= dir &&
    (forall p: nat :: p < Capacity(v, ids) ==>
       ByteAt(v, data, ids, p) == if start <= p < start + |piece| then piece[p - start]
       else ByteAt(v, before, ids, p)) &&
    (forall c: nat :: 2 <= c && c !in ids && c != dir && v.Start(c) + v.sectorsPerCluster <= |data| ==>
       SameCluster(v, data, before, c)) &&
    v.Start(dir) + v.sectorsPerCluster <= |data| &&
    forall i :: v.Start(dir) <= i < v.Start(dir) + v.sectorsPerCluster ==> data[i] == if i == at then entry
        else before[i]
  }

  /** Writing the entry's sector after the file's bytes. */
  lemma EntrySaved(v: Volume, middle: seq<Sector>, before: seq<Sector>, ids: seq<nat>, start: nat, piece: seq<Byte>,
                   dir: nat, at: nat,
                   entry: Sector)
    requires Written(v, middle, before, ids, start, piece) && 2 <= dir && dir !in ids
    requires v.Start(dir) <= at < v.Start(dir) + v.sectorsPerCluster <= |middle|
    ensures Saved(v, Overlaid(middle, at, [entry]), before, ids, start, piece, dir, at, entry)
    ensures middle[at] == before[at] && |middle| == |before|
  {
    hide Times;
    var data := Overlaid(middle, at, [entry]);
    assert forall i :: 0 <= i < |data| && i != at ==> data[i] == middle[i];
    forall c: nat | 2 <= c && c != dir && v.Start(c) + v.sectorsPerCluster <= |data|
      ensures SameCluster(v, data, middle, c)
    {
      if c < dir {
        StartsApart(v, c, dir);
      } else {
        StartsApart(v, dir, c);
      }
    }
    forall p: nat | p < Capacity(v, ids)
      ensures ByteAt(v, data, ids, p) == ByteAt(v, middle, ids, p)
    {
      Place(p, v.ClusterBytes());
      IndexBelow(p, v.ClusterBytes(), |ids|);
      assert ids[Index(p, v.ClusterBytes())] in ids;
      SameByte(v, data, middle, ids[Index(p, v.ClusterBytes())], Within(p, v.ClusterBytes()));
    }
    forall c: nat | 2 <= c && c !in ids && c != dir && v.Start(c) + v.sectorsPerCluster <= |data|
      ensures SameCluster(v, data, before, c)
    {
      assert SameCluster(v, middle, before, c);
    }
    assert SameCluster(v, middle, before, dir);
    forall i | v.Start(dir) <= i < v.Start(dir) + v.sectorsPerCluster
      ensures middle[i] == before[i]
    {
      var at, n := v.Start(dir), v.sectorsPerCluster;
      assert middle[at..at + n][i - at] == before[at..at + n][i - at];
    }
  }

  /** flush_entry. */
  method FlushEntry(v: Volume, e: FileEntry, ghost dir: nat)
    requires v.Valid() && InRange(dir, v.Total()) && Slotted(v, e, dir)
    modifies v.disk
    ensures v.Valid() && v.disk[..v.reserved] == old(v.disk[..v.reserved])
    ensures v.firstData <= e.sector < v.firstData + |old(v.Data())|
    ensures v.Data() == Overlaid(old(v.Data()), e.sector - v.firstData,
                                 [Renewed(old(v.Data())[e.sector - v.firstData], e.offset, e.firstCluster, e.time,
                                 e.date, e.size)])
    ensures e.sector < v.disk.Length && EntrySays(v.disk[e.sector], old(v.disk[e.sector]), e.offset, e.firstCluster,
            e.time, e.date, e.size)
  {
    hide Volume.Cached, Volume.Stored, Volume.Walked, Times, Overlaid, Renewed, EntrySays, Volume.Start;
    v.ClusterInside(dir);
    assert v.disk[e.sector] == v.Data()[e.sector - v.firstData];
    RenewedSays(v.disk[e.sector], e.offset, e.firstCluster, e.time, e.date, e.size);
    OverlaidOne(v.Data(), e.sector - v.firstData, Renewed(v.disk[e.sector], e.offset, e.firstCluster, e.time, e.date,
        e.size));
    v.WriteRun(e.sector, [Renewed(v.disk[e.sector], e.offset, e.firstCluster, e.time, e.date, e.size)]);
  }

  lemma OverlaidOne(data: seq<Sector>, at: nat, s: Sector)
    requires at < |data|
    ensures Overlaid(data, at, [s])[at] == s
  {
  }

  /** The chain an entry names, or nothing while it names none. */
  ghost predicate Owns(v: Volume, first: nat, chain: seq<nat>)
    requires v.Total() <= |v.table|
    reads v`table
  {
    if first == 0 then chain == [] else Chain(v.table, v.Total(), chain) && chain[0] == first
  }

  /** The first cluster of the file, claimed when it has none; 0 when the volume is full. */
  method First(v: Volume, e: FileEntry, ghost job: Job) returns (cluster: nat, ghost ids: seq<nat>)
    requires v.Valid() && Owns(v, e.firstCluster, job.chain) && 0 < |job.input|
    requires job.table == v.table && job.front == v.disk[..v.reserved] && job.apart == v.apart && job.exact == v.Exact()
    modifies v.disk, v.cache, v, e`firstCluster
    ensures v.Valid() && v.Data() == old(v.Data()) && e.firstCluster == cluster
    ensures cluster == 0 ==> Full(v.table, v.Total()) && v.table == old(v.table) && ids == [] == job.chain &&
                             (job.exact ==> v.Exact())
    ensures cluster == 0 ==> v.disk[..v.reserved] == job.front && v.apart <= job.apart &&
                             v.cacheDirty == (old(v.cacheDirty) && v.sectorsPerFat == 1)
    ensures cluster != 0 ==> Growing(v, job, ids) && |ids| > 0 && ids[0] == cluster
    ensures cluster != 0 ==> job.chain <= ids && if ids == job.chain then v.table == old(v.table) &&
            v.cacheDirty == old(v.cacheDirty) else v.cacheDirty
  {
    ids := job.chain;
    if e.firstCluster == 0 {
      ghost var t := v.table;
      assert Times(0, v.ClusterBytes()) == 0;
      cluster := AllocateCluster(v, 0, false);
      e.firstCluster := cluster;
      if cluster != 0 {
        GrownFirst(t, v.Total(), cluster);
        ids := [cluster];
      }
    } else {
      GrownNot(v.table, v.Total(), job.chain);
      cluster := e.firstCluster;
    }
  }

  /** The bytes a chain can come to hold: its own clusters and every free one. */
  ghost function RoomFor(v: Volume, t: Table, chain: seq<nat>): nat
    requires 2 <= v.Total() <= |t|
  {
    Times(|chain| + FreeCount(t, 2, v.Total()), v.ClusterBytes())
  }

  /** How many bytes of a buffer find room behind an offset. */
  function Fitting(room: nat, offset: nat, length: nat): (count: nat)
    ensures count <= length
  {
    if room <= offset then 0 else if room - offset < length then room - offset else length
  }

  /** A chain that has taken every free cluster has all the room there was; any other has no more. */
  lemma GrownRoom(v: Volume, before: Table, chain: seq<nat>, ids: seq<nat>)
    requires Grown(before, v.table, v.Total(), chain, ids)
    ensures Capacity(v, ids) <= RoomFor(v, before, chain)
    ensures Full(v.table, v.Total()) ==> |ids| == |chain| + FreeCount(before, 2, v.Total()) &&
                                         Capacity(v, ids) == RoomFor(v, before, chain)
    ensures |chain| <= |ids| && FreeCount(v.table, 2, v.Total()) + |ids| == FreeCount(before, 2, v.Total()) + |chain|
  {
    hide Chain, FreeCount, Times;
    FreeCountZero(v.table, 2, v.Total());
    TimesMono(|ids|, |chain| + FreeCount(before, 2, v.Total()), v.ClusterBytes());
  }

  /** The size after a write: the end of what was written, worked out in 32 bits, when that is further on. */
  function Longer(size: Word, offset: Word, written: nat): Word {
    var end := (offset + written) % BASE;
    if end > size then end else size
  }

  /** The size recorded is right if and only if the end of the buffer, or of the room there is for it, stays within 32
      bits. */
  lemma LongerExact(size: Word, offset: Word, room: nat, length: nat)
    requires offset < room && 0 < length < BASE
    ensures var written := Fitting(room, offset, length);
            Longer(size, offset, written) == (if offset + written > size then offset + written else size) <==>
            offset + length < BASE || room < BASE
  {
  }

  ghost predicate EntryPlaced(v: Volume, e: FileEntry)
    requires v.Geometry()
    reads v.disk
  {
    v.firstData <= e.sector < v.firstData + |v.Data()| && e.offset + 32 <= SECTOR_SIZE
  }

  /** The entry's sector as it was, with what the entry says now. */
  ghost function EntryNow(v: Volume, e: FileEntry, data: seq<Sector>): Sector
    requires v.firstData <= e.sector < v.firstData + |data| && e.offset + 32 <= SECTOR_SIZE
    reads e
  {
    Renewed(data[e.sector - v.firstData], e.offset, e.firstCluster, e.time, e.date, e.size)
  }

  /** The entry goes out after the bytes. */
  method SaveEntry(v: Volume, e: FileEntry, ghost written: nat, ghost job: Job, ghost ids: seq<nat>, ghost dir: nat)
    requires v.Valid() && Writing(v, job, ids, written) && InRange(dir, v.Total()) && Slotted(v, e, dir) && dir !in ids
    modifies v.disk
    ensures v.Valid() && v.disk[..v.reserved] == job.front && |job.front| == v.reserved
    ensures EntryPlaced(v, e) && |job.data| == |v.Data()|
    ensures Saved(v, v.Data(), job.data, ids, job.start, job.input[..written], dir, e.sector - v.firstData,
            EntryNow(v, e, job.data))
  {
    hide Volume.Cached, Volume.Stored, Volume.Walked, Volume.Exact, Times, Grown, Written, Saved, Renewed,
         Volume.Start, Overlaid, Needed, Chain;
    v.ClusterInside(dir);
    ghost var middle := v.Data();
    EntrySaved(v, middle, job.data, ids, job.start, job.input[..written], dir, e.sector - v.firstData,
        EntryNow(v, e, middle));
    FlushEntry(v, e, dir);
  }

  /** What follows the last byte: the size, the entry and the commit. */
  method Finish(v: Volume, e: FileEntry, written: nat, date: Half, time: Half, offset: Word, ghost job: Job,
                ghost ids: seq<nat>, ghost dir: nat)
    requires v.Valid() && Writing(v, job, ids, written) && job.start == offset
    requires InRange(dir, v.Total()) && Slotted(v, e, dir) && dir !in ids
    modifies v.disk, v`cacheDirty, v`apart, v`freeBytes, v`freeKnown, e`size, e`date, e`time
    ensures v.Valid() && v.apart <= job.apart && (job.exact ==> v.Exact()) && !v.cacheDirty
    ensures e.size == Longer(old(e.size), offset, written) && e.date == date && e.time == time &&
            (job.exact ==> InfoCounts(v))
    ensures EntryPlaced(v, e) && |job.data| == |v.Data()|
    ensures Saved(v, v.Data(), job.data, ids, job.start, job.input[..written], dir, e.sector - v.firstData,
            EntryNow(v, e, job.data))
    ensures SameFront(v, job.front)
  {
    hide Volume.Cached, Volume.Stored, Volume.Walked, Volume.Exact, Grown, Written, Saved, EntryNow,
         Volume.FirstSector, Informed, FreeClusters, Signed;
    var end := (offset + written) % BASE;
    if end > e.size {
      e.size := end;
    }
    e.date, e.time := date, time;
    assert v.apart <= job.apart && (job.exact ==> v.Exact());
    SaveEntry(v, e, written, job, ids, dir);
    Commit(v);
  }

  lemma FrontSame(v: Volume, job: Job, ids: seq<nat>)
    requires Growing(v, job, ids)
    ensures |job.front| == v.reserved && SameFront(v, job.front)
  {
    hide Grown, Needed, Volume.Exact;
  }

  /** From the first cluster on: the walk, the bytes, the entry. */
  method Transfer(v: Volume, e: FileEntry, first: nat, offset: Word, input: seq<Byte>, address: nat, date: Half,
                  time: Half,
                  ghost job: Job, ghost ids1: seq<nat>, ghost dir: nat)
    returns (written: nat, ghost ids: seq<nat>)
    requires v.Valid() && Growing(v, job, ids1) && |ids1| > 0 && ids1[0] == first == e.firstCluster != 0
    requires job.start == offset && job.input == input && 0 < |input| && job.data == v.Data()
    requires InRange(dir, v.Total()) && Slotted(v, e, dir) && dir < |job.table| && !IsFree(job.table, dir) &&
             dir !in job.chain
    modifies v.disk, v.cache, v, e`size, e`date, e`time
    ensures v.Valid() && v.apart <= job.apart && (job.exact ==> v.Exact())
    ensures written == Fitting(RoomFor(v, job.table, job.chain), offset, |input|) &&
            (written < |input| ==> Full(v.table, v.Total()))
    ensures written == 0 ==> v.cacheDirty == (v.sectorsPerFat == 1 && (ids != ids1 || old(v.cacheDirty)))
    ensures |job.chain| <= |ids| && (written == 0 ==> ids1 <= ids) && |ids| + FreeCount(v.table, 2,
            v.Total()) == |job.chain| + FreeCount(job.table, 2, v.Total())
    ensures written == 0 ==> FreeCount(v.table, 2, v.Total()) == 0 && (ids == ids1 ==> v.table == old(v.table))
    ensures written > 0 && job.exact ==> InfoCounts(v)
    ensures ids != [] && Owns(v, e.firstCluster, ids) && Grown(job.table, v.table, v.Total(), job.chain, ids) &&
            Needed(v, job, ids)
    ensures written == 0 ==> v.Data() == job.data && e.size == old(e.size) && v.disk[..v.reserved] == job.front
    ensures |job.front| == v.reserved && |job.data| == |v.Data()| && SameFront(v, job.front)
    ensures written > 0 ==> !v.cacheDirty && e.date == date && e.time == time &&
                            e.size == Longer(old(e.size), offset, written)
    ensures written > 0 ==> EntryPlaced(v, e) &&
                            Saved(v, v.Data(), job.data, ids, offset, input[..written], dir, e.sector - v.firstData,
                            EntryNow(v, e, job.data))
  {
    hide Volume.Cached, Volume.Stored, Volume.Walked, Volume.Exact, Times, Full, Growing, Writing, Saved, EntryNow,
         EntryPlaced, Volume.FirstSector, Grown, Owns, Needed, FreeCount, RoomFor, InfoCounts, Slotted, Longer,
         SameFront;
    FrontSame(v, job, ids1);
    var cluster, rest;
    ghost var k;
    cluster, rest, k, ids := Reach(v, first, offset, job, ids1);
    GrowingOwns(v, job, ids);
    GrownRoom(v, job.table, job.chain, ids);
    FullMeans(v);
    if cluster == 0 {
      FrontSame(v, job, ids);
      return 0, ids;
    }
    InsideCapacity(k, rest, v.ClusterBytes(), |ids|);
    WritingStart(v, job, ids, k, rest);
    written, ids := PutBytes(v, cluster, rest, k, input, address, job, ids);
    WritingGrowing(v, job, ids, written);
    GrowingOwns(v, job, ids);
    GrownRoom(v, job.table, job.chain, ids);
    WritingRoom(v, job, ids, written);
    DirectoryApart(v, job, ids, dir);
    Finish(v, e, written, date, time, offset, job, ids, dir);
  }

  /** A write that claims every free cluster without reaching the place it was to write to. */
  ghost predicate InVain(v: Volume, t: Table, chain: seq<nat>, offset: nat)
    requires 2 <= v.Total() <= |t|
  {
    RoomFor(v, t, chain) <= offset && 0 < FreeCount(t, 2, v.Total())
  }

  /** A file without clusters, written beyond the only cluster that is free. */
  lemma LastClusterInVain(v: Volume, t: Table, offset: nat, length: nat)
    requires 2 <= v.Total() <= |t| && FreeCount(t, 2, v.Total()) == 1 && v.ClusterBytes() <= offset
    ensures InVain(v, t, [], offset) && Fitting(RoomFor(v, t, []), offset, length) == 0
  {
    hide FreeCount;
    TimesNext(0, v.ClusterBytes());
  }

  /** With nothing written either all the free clusters were claimed in vain, or there were none. */
  lemma VainOrNot(v: Volume, t: Table, chain: seq<nat>, ids: seq<nat>, ids1: seq<nat>, offset: nat, length: nat)
    requires 2 <= v.Total() <= |t| && chain <= ids1 <= ids && 0 < length &&
             Fitting(RoomFor(v, t, chain), offset, length) == 0
    ensures InVain(v, t, chain, offset) <==> 0 < FreeCount(t, 2, v.Total())
    ensures |ids| == |chain| ==> ids == ids1 == chain
    ensures ids == ids1 || |ids| > |ids1|
  {
    hide Times, FreeCount;
  }

  lemma VainWrites(v: Volume, t: Table, chain: seq<nat>, offset: nat, length: nat)
    requires 2 <= v.Total() <= |t|
    ensures InVain(v, t, chain, offset) ==> Fitting(RoomFor(v, t, chain), offset, length) == 0
  {
    hide Times, FreeCount;
  }

  /** fat32_write. The device never fails here, so it stops short only when no cluster is free: it puts down as many
      bytes as there is room for, counting every free cluster. When there is none for the first of them it has
      claimed what was free all the same, and then neither commits nor writes the entry. */
  method Write(v: Volume, e: FileEntry, offset: Word, input: seq<Byte>, address: nat, date: Half, time: Half,
               ghost chain: seq<nat>, ghost dir: nat)
    returns (written: nat, ghost ids: seq<nat>)
    requires v.Valid() && Owns(v, e.firstCluster, chain) && |input| < BASE
    requires InRange(dir, v.Total()) && Slotted(v, e, dir) && !IsFree(v.table, dir) && dir !in chain
    modifies v.disk, v.cache, v, e
    ensures v.Valid() && v.apart <= old(v.apart) && (old(v.Exact()) ==> v.Exact())
    ensures written == if e.attributes / DIRECTORY_BIT % 2 == 1 then 0 else Fitting(RoomFor(v, old(v.table), chain),
            offset, |input|)
    ensures e.attributes / DIRECTORY_BIT % 2 == 0 && |input| > 0 && InVain(v, old(v.table), chain, offset) ==>
              FreeCount(v.table, 2, v.Total()) == 0 && |ids| == |chain| + FreeCount(old(v.table), 2, v.Total()) &&
              (v.cacheDirty <==> v.sectorsPerFat == 1) && (old(InfoCounts(v)) && Signed(v.disk[FSINFO_SECTOR]) ==>
                 !InfoCounts(v))
    ensures written == 0 && (e.attributes / DIRECTORY_BIT % 2 == 1 || |input| == 0 ||
            !InVain(v, old(v.table), chain, offset)) ==>
              v.table == old(v.table) && (v.cacheDirty ==> old(v.cacheDirty))
    ensures written > 0 && old(v.Exact()) ==> InfoCounts(v)
    ensures Owns(v, e.firstCluster, ids)
    ensures if ids == [] then v.table == old(v.table) && chain == [] else Grown(old(v.table), v.table, v.Total(),
            chain, ids)
    ensures |ids| <= |chain| || Times(|ids| - 1, v.ClusterBytes()) < offset + |input|
    ensures written == 0 ==> v.Data() == old(v.Data()) && e.size == old(e.size) &&
                             v.disk[..v.reserved] == old(v.disk[..v.reserved])
    ensures written > 0 ==> !v.cacheDirty && e.date == date && e.time == time
    ensures written > 0 ==> e.size == Longer(old(e.size), offset, written)
    ensures written > 0 ==> EntryPlaced(v, e) &&
                            Saved(v, v.Data(), old(v.Data()), ids, offset, input[..written], dir,
                            e.sector - v.firstData, EntryNow(v, e, old(v.Data())))
    ensures written > 0 ==> e.sector < v.disk.Length &&
                            EntrySays(v.disk[e.sector], old(v.disk[e.sector]), e.offset, e.firstCluster, time, date,
                                      e.size)
    ensures SameFront(v, old(v.disk[..v.reserved]))
  {
    hide Volume.Cached, Volume.Stored, Volume.Walked, Volume.Exact, Times, Full, Growing, Saved, EntryNow, EntryPlaced,
         Volume.FirstSector, Grown, Owns, Needed, RoomFor, Fitting, Read32, Slotted, Longer, SameFront, FreeCount,
         Signed, InVain, IsFree, EntrySays, Renewed;
    ids := chain;
    OwnedGrown(v, e.firstCluster, chain);
    FrontIs(v, v.disk[..v.reserved]);
    if |input| == 0 || e.attributes / DIRECTORY_BIT % 2 == 1 {
      NothingFits(v, v.table, chain, offset);
      return 0, chain;
    }
    ghost var job := Job(v.table, v.disk[..v.reserved], v.Data(), v.apart, v.Exact(), chain, offset, input);
    var first;
    ghost var ids1;
    first, ids1 := First(v, e, job);
    ids := ids1;
    if first == 0 {
      NoRoom(v, job.table, offset, |input|);
      OwnsNothing(v);
      FrontIs(v, job.front);
      return 0, ids;
    }
    written, ids := Transfer(v, e, first, offset, input, address, date, time, job, ids1, dir);
    VainWrites(v, job.table, chain, offset, |input|);
    if written == 0 {
      VainOrNot(v, job.table, chain, ids, ids1, offset, |input|);
      FrontIs(v, job.front);
    }
    NeededMeans(v, job, ids);
    if written > 0 {
      PlacedMeans(v, e);
      SavedSays(v, v.Data(), job.data, ids, offset, input[..written], dir, e);
      assert v.disk[e.sector] == v.Data()[e.sector - v.firstData];
      assert old(v.disk[e.sector]) == job.data[e.sector - v.firstData];
    }
  }

  lemma PlacedMeans(v: Volume, e: FileEntry)
    requires v.Geometry() && EntryPlaced(v, e)
    ensures v.firstData <= e.sector < v.firstData + |v.Data()| && e.offset + 32 <= SECTOR_SIZE
  {
  }

  /** The entry's sector, once saved. */
  lemma SavedSays(v: Volume, data: seq<Sector>, before: seq<Sector>, ids: seq<nat>, start: nat, piece: seq<Byte>,
                  dir: nat, e: FileEntry)
    requires v.firstData <= e.sector < v.firstData + |before| && e.offset + 32 <= SECTOR_SIZE
    requires 2 <= dir && Slotted(v, e, dir)
    requires Saved(v, data, before, ids, start, piece, dir, e.sector - v.firstData, EntryNow(v, e, before))
    ensures v.firstData <= e.sector < v.firstData + |data|
    ensures EntrySays(data[e.sector - v.firstData], before[e.sector - v.firstData], e.offset, e.firstCluster, e.time,
                      e.date, e.size)
  {
    hide Renewed, EntrySays, Times, Volume.Start;
    RenewedSays(before[e.sector - v.firstData], e.offset, e.firstCluster, e.time, e.date, e.size);
  }

  lemma NeededMeans(v: Volume, job: Job, ids: seq<nat>)
    requires Needed(v, job, ids)
    ensures |ids| <= |job.chain| || Times(|ids| - 1, v.ClusterBytes()) < job.start + |job.input|
  {
  }

  lemma FrontIs(v: Volume, front: seq<Sector>)
    requires v.Valid() && v.disk[..v.reserved] == front
    ensures SameFront(v, front) && FSINFO_SECTOR < |front| && v.disk[FSINFO_SECTOR] == front[FSINFO_SECTOR]
  {
    FrontInfo(v, front);
  }

  lemma OwnsNothing(v: Volume)
    requires v.Total() <= |v.table|
    ensures Owns(v, 0, [])
  {
  }

  lemma NothingFits(v: Volume, t: Table, chain: seq<nat>, offset: nat)
    requires 2 <= v.Total() <= |t|
    ensures Fitting(RoomFor(v, t, chain), offset, 0) == 0
  {
    hide RoomFor;
  }

  lemma NoRoom(v: Volume, t: Table, offset: nat, length: nat)
    requires 2 <= v.Total() <= |t| && Full(t, v.Total())
    ensures !InVain(v, t, [], offset) && Fitting(RoomFor(v, t, []), offset, length) == 0
  {
    FreeCountZero(t, 2, v.Total());
    TimesNone(v.ClusterBytes());
    hide FreeCount, Full;
  }

  lemma FullMeans(v: Volume)
    requires 2 <= v.Total() <= |v.table|
    ensures Full(v.table, v.Total()) <==> FreeCount(v.table, 2, v.Total()) == 0
  {
    FreeCountZero(v.table, 2, v.Total());
  }

  lemma WritingRoom(v: Volume, job: Job, ids: seq<nat>, written: nat)
    requires Writing(v, job, ids, written)
    ensures written <= |job.input| && job.start + written <= Capacity(v, ids)
  {
    hide Times;
  }

  lemma WritingGrowing(v: Volume, job: Job, ids: seq<nat>, written: nat)
    requires Writing(v, job, ids, written)
    ensures Growing(v, job, ids)
  {
  }

  lemma OwnedGrown(v: Volume, first: nat, chain: seq<nat>)
    requires v.Valid() && Owns(v, first, chain)
    ensures chain != [] ==> Grown(v.table, v.table, v.Total(), chain, chain)
  {
  }

  lemma GrowingOwns(v: Volume, job: Job, ids: seq<nat>)
    requires v.Valid() && Growing(v, job, ids) && |ids| > 0
    ensures Owns(v, ids[0], ids) && ids[0] != 0 && Grown(job.table, v.table, v.Total(), job.chain, ids) &&
            Needed(v, job, ids)
    ensures v.disk[..v.reserved] == job.front && v.apart <= job.apart && (job.exact ==> v.Exact())
  {
    assert InRange(ids[0], v.Total());
  }

  /** The directory's cluster was in use, so the file has not grown into it. */
  lemma DirectoryApart(v: Volume, job: Job, ids: seq<nat>, dir: nat)
    requires v.Valid() && Growing(v, job, ids) && dir < |job.table| && !IsFree(job.table, dir) && dir !in job.chain
    ensures dir !in ids
  {
  }

  // ---- What a write means ---------------------------------------------------------

  /** A file's bytes with a window of them replaced, or added at the end. */
  function Replaced(bytes: seq<Byte>, start: nat, piece: seq<Byte>): seq<Byte>
    requires start <= |bytes|
  {
    bytes[..start] + piece + if start + |piece| < |bytes| then bytes[start + |piece|..] else []
  }

  /** A write that starts inside the file or at its end changes exactly that window of it. */
  lemma ContentsAfter(v: Volume, data: seq<Sector>, before: seq<Sector>, chain: seq<nat>, ids: seq<nat>, size: nat,
                      start: nat,
                      piece: seq<Byte>, dir: nat, at: nat, entry: Sector)
    requires Saved(v, data, before, ids, start, piece, dir, at, entry) && chain <= ids
    requires start <= size <= Capacity(v, chain)
    ensures var after := if start + |piece| > size then start + |piece| else size;
            after <= Capacity(v, ids) && Fits(v, before, chain) &&
            Contents(v, data, ids, after) == Replaced(Contents(v, before, chain, size), start, piece)
  {
    hide Times, ByteAt;
    TimesMono(|chain|, |ids|, v.ClusterBytes());
    assert forall i :: 0 <= i < |chain| ==> chain[i] == ids[i];
    var after := if start + |piece| > size then start + |piece| else size;
    var old0 := Contents(v, before, chain, size);
    forall p | 0 <= p < after
      ensures ByteAt(v, data, ids, p) == Replaced(old0, start, piece)[p]
    {
      if p < size {
        SameChainByte(v, before, chain, ids, p);
      }
    }
    assert Contents(v, data, ids, after) == Replaced(old0, start, piece);
  }

  lemma SameChainByte(v: Volume, data: seq<Sector>, chain: seq<nat>, ids: seq<nat>, p: nat)
    requires chain <= ids && Fits(v, data, ids) && p < Capacity(v, chain)
    ensures Fits(v, data, chain) && p < Capacity(v, ids) && ByteAt(v, data, ids, p) == ByteAt(v, data, chain, p)
  {
    hide Times;
    TimesMono(|chain|, |ids|, v.ClusterBytes());
    IndexBelow(p, v.ClusterBytes(), |chain|);
    assert forall i :: 0 <= i < |chain| ==> chain[i] == ids[i];
  }

  /** A file apart from the one written is still a file, still apart, and byte for byte what it was. */
  lemma OthersAfter(v: Volume, table: Table, data: seq<Sector>, before: seq<Sector>, chain: seq<nat>, ids: seq<nat>,
                    start: nat,
                    piece: seq<Byte>, dir: nat, at: nat, entry: Sector, others: seq<nat>, size: nat)
    requires v.Valid() && data == v.Data() && Grown(table, v.table, v.Total(), chain, ids)
    requires Saved(v, data, before, ids, start, piece, dir, at, entry)
    requires Chain(table, v.Total(), others) && Apart(chain, others) && dir !in others && size <= Capacity(v, others)
    ensures Chain(v.table, v.Total(), others) && Apart(ids, others)
    ensures Fits(v, data, others) && Fits(v, before, others)
    ensures Contents(v, data, others, size) == Contents(v, before, others, size)
  {
    OthersKept(table, v.table, v.Total(), chain, ids, others);
    ChainFits(v, others);
    hide Times, Saved;
    forall p | 0 <= p < size
      ensures ByteAt(v, data, others, p) == ByteAt(v, before, others, p)
    {
      var j, o := Index(p, v.ClusterBytes()), Within(p, v.ClusterBytes());
      Place(p, v.ClusterBytes());
      IndexBelow(p, v.ClusterBytes(), |others|);
      assert others[j] in others;
      SavedCluster(v, data, before, ids, start, piece, dir, at, entry, others[j]);
      SameByte(v, data, before, others[j], o);
    }
  }

  lemma SavedCluster(v: Volume, data: seq<Sector>, before: seq<Sector>, ids: seq<nat>, start: nat, piece: seq<Byte>,
                     dir: nat, at: nat,
                     entry: Sector, c: nat)
    requires Saved(v, data, before, ids, start, piece, dir, at, entry) && 2 <= c && c !in ids && c != dir
    requires v.Start(c) + v.sectorsPerCluster <= |data|
    ensures SameCluster(v, data, before, c) && |data| == |before|
  {
  }
}
