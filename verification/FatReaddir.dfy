/** kernel/fat32.c: fat32_readdir over a directory's chain of clusters. */
module FatReaddir {
  import opened Words
  import opened LittleEndian
  import opened FatTable
  import opened FatVolume
  import opened FatContents
  import opened FatSlots
  import opened LongName
  import opened EntryReader

  datatype Entry = Entry(name: seq<Byte>, attributes: Byte, size: Word, firstCluster: Word, date: Half, time: Half,
                         sector: nat, offset: nat, firstSector: nat, firstOffset: nat)

  /** FAT_DIRECTORY: where an iteration stands, and the long name it is putting together. */
  class Directory {
    var cluster: nat
    var entryIndex: nat
    const longName: array<Byte>
    var longNameValid: bool
    var longNameChecksum: Byte
    var firstSector: nat
    var firstOffset: nat

    constructor (cluster: nat)
      ensures this.cluster == cluster && entryIndex == 0 && longName.Length == FAT_NAME_MAX && fresh(longName) &&
              !longNameValid
    {
      this.cluster, entryIndex, longNameValid, longNameChecksum, firstSector, firstOffset := cluster, 0, false, 0, 0, 0;
      longName := new Byte[FAT_NAME_MAX](_ => 0);
    }

    /** The name so far, as the specification sees it. */
    ghost function State(): Partial
      requires longName.Length == FAT_NAME_MAX
      reads this, longName
    {
      Partial(longNameValid, longNameChecksum, longName[..])
    }

    /** What one slot does to the name; the first slot of a run is remembered. */
    method Take(raw: Raw, sector: nat, offset: nat)
      requires longName.Length == FAT_NAME_MAX && !Real(raw) && raw[0] != ENTRY_END
      modifies this`longNameValid, this`longNameChecksum, this`firstSector, this`firstOffset, longName
      ensures State() == Fed(old(State()), raw)
      ensures if Begins(raw) then firstSector == sector && firstOffset == offset
              else firstSector == old(firstSector) && firstOffset == old(firstOffset)
    {
      if raw[0] == ENTRY_FREE {
        longNameValid := false;
        return;
      }
      if IsLongName(raw) {
        if raw[0] as int / LONG_NAME_LAST % 2 == 1 {
          forall i | 0 <= i < FAT_NAME_MAX {
            longName[i] := 0;
          }
          assert longName[..] == Zeros();
          longNameChecksum, longNameValid, firstSector, firstOffset := raw[13], true, sector, offset;
        }
        if longNameValid && raw[13] != longNameChecksum {
          longNameValid := false;
        }
        if longNameValid {
          GatherLongName(raw, longName);
        }
        return;
      }
      longNameValid := false;
    }
  }

  /** format_short_name. */
  method FormatShortName(raw: Raw) returns (name: seq<Byte>)
    ensures name == ShortName(raw)
  {
    name := Unpadded(raw[..8]);
    if raw[8] != SPACE {
      var extension := Unpadded(raw[8..11]);
      name := name + [0x2E] + extension;
      assert name == Trimmed(raw[..8]) + ([0x2E] + Trimmed(raw[8..11]));
    }
  }

  method Unpadded(s: seq<Byte>) returns (t: seq<Byte>)
    ensures t == Trimmed(s)
  {
    var i := 0;
    t := [];
    assert s[0..] == s;
    while i < |s| && s[i] != SPACE
      invariant i <= |s| && t + Trimmed(s[i..]) == Trimmed(s)
    {
      assert s[i..][1..] == s[i + 1..];
      t := t + [s[i]];
      i := i + 1;
    }
  }

  /** strlen and memcpy of the finished name. */
  method CopyName(b: array<Byte>) returns (name: seq<Byte>)
    ensures name == Str(b[..], 0)
  {
    var length := 0;
    while length < b.Length && b[length] != 0
      invariant length <= b.Length && Str(b[..], length) == Str(b[..], 0)
    {
      length := length + 1;
    }
    name := b[..length];
    assert b[..][..length] == b[..length];
  }

  /** The entry a short slot describes. */
  ghost predicate Describes(e: Entry, p: Partial, raw: Raw) {
    e.name == NameOf(p, raw) && e.attributes == raw[11] && e.time == Read16(raw, 22) && e.date == Read16(raw, 24) &&
    e.size == Read32(raw, 28) && e.firstCluster == Read16(raw, 20) as int * 0x1_0000 + Read16(raw, 26)
  }

  /** An entry without a long name is called by the two parts of its short one. */
  lemma ShortEntryRead(e: Entry, p: Partial, raw: Raw, base: seq<Byte>, extension: seq<Byte>)
    requires Describes(e, p, raw) && SpacedName(raw, base, extension) && !Belongs(p, raw)
    ensures e.name == if extension == [] then base else base + [0x2E] + extension
  {
    ShortNameRead(p, raw, base, extension);
  }

  /** Where on the volume slot i of a cluster is. */
  predicate PlacedAt(v: Volume, sector: nat, offset: nat, cluster: nat, i: nat)
    requires 2 <= cluster
  {
    sector == v.FirstSector(cluster) + i / ENTRIES_PER_SECTOR && offset == i % ENTRIES_PER_SECTOR * SLOT_SIZE
  }

  /** The place of the last slot that began a long name, of slots `start` to i of this cluster. */
  ghost predicate FirstIs(v: Volume, sector: nat, offset: nat, data: seq<Sector>, cluster: nat, start: nat, i: nat)
    requires 2 <= cluster && v.Start(cluster) + v.sectorsPerCluster <= |data| && i <= PerCluster(v)
  {
    forall b :: start <= b < i && Begins(Slots(v, data, cluster)[b]) && (forall m :: b < m < i ==>
        !Begins(Slots(v, data, cluster)[m])) ==>
      PlacedAt(v, sector, offset, cluster, b)
  }

  lemma FirstMore(v: Volume, data: seq<Sector>, cluster: nat, start: nat, i: nat, sector0: nat, offset0: nat,
                  sector: nat, offset: nat)
    requires 2 <= cluster && v.Start(cluster) + v.sectorsPerCluster <= |data| && start <= i < PerCluster(v)
    requires FirstIs(v, sector0, offset0, data, cluster, start, i)
    requires if Begins(Slots(v, data, cluster)[i]) then PlacedAt(v, sector, offset, cluster, i)
             else sector == sector0 && offset == offset0
    ensures FirstIs(v, sector, offset, data, cluster, start, i + 1)
  {
    hide Slots, Begins, PlacedAt, Times;
    forall b | start <= b < i + 1 && Begins(Slots(v, data, cluster)[b]) && forall m :: b < m < i + 1 ==>
        !Begins(Slots(v, data, cluster)[m])
      ensures PlacedAt(v, sector, offset, cluster, b)
    {
      if b < i {
        assert !Begins(Slots(v, data, cluster)[i]);
      }
    }
  }

  /** The name of the short slot: the long one when it belongs. */
  method EntryOf(d: Directory, raw: Raw, sector: nat, offset: nat) returns (e: Entry)
    requires d.longName.Length == FAT_NAME_MAX
    ensures Describes(e, d.State(), raw) && e.sector == sector && e.offset == offset
    ensures if Belongs(d.State(), raw) then e.firstSector == d.firstSector && e.firstOffset == d.firstOffset
            else e.firstSector == sector && e.firstOffset == offset
  {
    var sum := Checksum(raw);
    var name;
    var firstSector, firstOffset := sector, offset;
    if d.longNameValid && d.longNameChecksum == sum && d.longName[0] != 0 {
      name := CopyName(d.longName);
      firstSector, firstOffset := d.firstSector, d.firstOffset;
    } else {
      name := FormatShortName(raw);
    }
    e := Entry(name, raw[11], Read32(raw, 28), Read16(raw, 20) as int * 0x1_0000 + Read16(raw, 26), Read16(raw, 24),
    Read16(raw, 22),
               sector, offset, firstSector, firstOffset);
  }

  /** No slot from (k0, i0) up to (k, i) is an entry or an end mark. */
  ghost predicate PassedOver(v: Volume, data: seq<Sector>, ids: seq<nat>, k0: nat, i0: nat, k: nat, i: nat)
    requires Fits(v, data, ids) && k < |ids|
  {
    forall j, t :: k0 <= j <= k && 0 <= t < PerCluster(v) && (j == k0 ==> i0 <= t) && (j == k ==> t < i) ==>
      !Real(Slots(v, data, ids[j])[t]) && Slots(v, data, ids[j])[t][0] != ENTRY_END
  }

  /** No entry is left from (k0, i0) on. */
  ghost predicate NothingLeft(v: Volume, data: seq<Sector>, ids: seq<nat>, k0: nat, i0: nat)
    requires Fits(v, data, ids)
  {
    forall j, t :: k0 <= j < |ids| && 0 <= t < PerCluster(v) && (j == k0 ==> i0 <= t) ==>
        !Real(Slots(v, data, ids[j])[t])
  }

  /** An end mark that obeys the rule has no entry after it. */
  lemma EndOfDirectory(v: Volume, data: seq<Sector>, ids: seq<nat>, k0: nat, i0: nat, k: nat, i: nat)
    requires NothingHidden(v, data, ids) && k0 <= k < |ids| && i < PerCluster(v) &&
             PassedOver(v, data, ids, k0, i0, k, i)
    requires Slots(v, data, ids[k])[i][0] == ENTRY_END
    ensures NothingLeft(v, data, ids, k0, i0)
  {
    hide Slots;
    forall j, t | k0 <= j < |ids| && 0 <= t < PerCluster(v) && (j == k0 ==> i0 <= t)
      ensures !Real(Slots(v, data, ids[j])[t])
    {
      if j > k || (j == k && t >= i) {
        assert (j == k && t == i) || Vacant(Slots(v, data, ids[j])[t]);
      }
    }
  }

  /** The slots of the current cluster that this call has fed to the reader come last. */
  ghost predicate FedTail(v: Volume, data: seq<Sector>, cluster: nat, passed: seq<Raw>, from: nat, i: nat)
    requires 2 <= cluster && v.Start(cluster) + v.sectorsPerCluster <= |data|
  {
    from <= i <= PerCluster(v) && i - from <= |passed| && passed[|passed| - (i - from)..] == Slots(v, data,
    cluster)[from..i]
  }

  lemma FedTailMore(v: Volume, data: seq<Sector>, cluster: nat, passed: seq<Raw>, from: nat, i: nat)
    requires 2 <= cluster && v.Start(cluster) + v.sectorsPerCluster <= |data| &&
             FedTail(v, data, cluster, passed, from, i) && i < PerCluster(v)
    ensures FedTail(v, data, cluster, passed + [Slots(v, data, cluster)[i]], from, i + 1)
  {
    hide Slots;
    var s, more := Slots(v, data, cluster), passed + [Slots(v, data, cluster)[i]];
    assert s[from..i + 1] == s[from..i] + [s[i]];
    assert more[|more| - (i + 1 - from)..] == passed[|passed| - (i - from)..] + [s[i]];
  }

  /** Where one call started: the directory, the place in it, and the name put together so far. */
  datatype Origin = Origin(data: seq<Sector>, ids: seq<nat>, k: nat, i: nat, partial: Partial)

  /** Where it has come to: cluster number k of the chain, every slot up to here passed over and fed to the reader. */
  ghost predicate Scanning(v: Volume, d: Directory, from: Origin, k: nat, passed: seq<Raw>)
    reads d, d.longName
  {
    Fits(v, from.data, from.ids) && from.k <= k < |from.ids| && d.cluster == from.ids[k] &&
    d.entryIndex <= PerCluster(v) &&
    d.longName.Length == FAT_NAME_MAX && d.State() == FedAll(from.partial, passed) &&
    PassedOver(v, from.data, from.ids, from.k, from.i, k, d.entryIndex) &&
    FedTail(v, from.data, from.ids[k], passed, if k == from.k then from.i else 0, d.entryIndex) &&
    FirstIs(v, d.firstSector, d.firstOffset, from.data, from.ids[k], if k == from.k then from.i else 0, d.entryIndex)
  }

  lemma PassedMore(v: Volume, from: Origin, k: nat, i: nat, passed: seq<Raw>, raw: Raw)
    requires Fits(v, from.data, from.ids) && from.k <= k < |from.ids| && i < PerCluster(v) &&
             raw == Slots(v, from.data, from.ids[k])[i]
    requires PassedOver(v, from.data, from.ids, from.k, from.i, k, i) && !Real(raw) && raw[0] != ENTRY_END
    requires FedTail(v, from.data, from.ids[k], passed, if k == from.k then from.i else 0, i)
    ensures PassedOver(v, from.data, from.ids, from.k, from.i, k, i + 1)
    ensures FedTail(v, from.data, from.ids[k], passed + [raw], if k == from.k then from.i else 0, i + 1)
    ensures FedAll(from.partial, passed + [raw]) == Fed(FedAll(from.partial, passed), raw)
  {
    hide Slots, Real, Fed, FedTail;
    FedTailMore(v, from.data, from.ids[k], passed, if k == from.k then from.i else 0, i);
    assert (passed + [raw])[..|passed|] == passed;
  }

  lemma TailStarts(v: Volume, data: seq<Sector>, cluster: nat, passed: seq<Raw>, from: nat, i: nat)
    requires 2 <= cluster && v.Start(cluster) + v.sectorsPerCluster <= |data| &&
             FedTail(v, data, cluster, passed, from, i)
    ensures from <= i
  {
  }

  /** One slot that is neither an entry nor an end mark. */
  method PassSlot(v: Volume, d: Directory, raw: Raw, sector: nat, offset: nat, ghost from: Origin, ghost k: nat,
                  ghost passed: seq<Raw>)
    requires Scanning(v, d, from, k, passed) && d.entryIndex < PerCluster(v) &&
             raw == Slots(v, from.data, from.ids[k])[d.entryIndex]
    requires !Real(raw) && raw[0] != ENTRY_END && PlacedAt(v, sector, offset, from.ids[k], d.entryIndex)
    modifies d, d.longName
    ensures Scanning(v, d, from, k, passed + [raw]) && d.entryIndex == old(d.entryIndex) + 1
  {
    hide FedTail, Slots, Real, Fed, FedAll, PassedOver, PerCluster, Times, Volume.Start, Vacant, IsLongName, FirstIs,
         Begins, PlacedAt;
    PassedMore(v, from, k, d.entryIndex, passed, raw);
    ghost var sector0, offset0, start := d.firstSector, d.firstOffset, if k == from.k then from.i else 0;
    TailStarts(v, from.data, from.ids[k], passed, start, d.entryIndex);
    d.Take(raw, sector, offset);
    FirstMore(v, from.data, from.ids[k], start, d.entryIndex, sector0, offset0, d.firstSector, d.firstOffset);
    d.entryIndex := d.entryIndex + 1;
  }

  /** From the end of one cluster to the start of the next. */
  method PassCluster(v: Volume, d: Directory, following: nat, ghost from: Origin, ghost k: nat, ghost passed: seq<Raw>)
    requires Scanning(v, d, from, k, passed) && d.entryIndex == PerCluster(v) && k + 1 < |from.ids| &&
             following == from.ids[k + 1]
    modifies d`cluster, d`entryIndex
    ensures Scanning(v, d, from, k + 1, passed) && d.entryIndex == 0
  {
    hide Slots, Real, FedAll;
    d.cluster, d.entryIndex := following, 0;
  }

  /** The slot an entry was read from. */
  ghost predicate FoundAt(v: Volume, from: Origin, e: Entry, k: nat, i: nat, passed: seq<Raw>) {
    Fits(v, from.data, from.ids) && from.k <= k < |from.ids| && i < PerCluster(v) &&
    Real(Slots(v, from.data, from.ids[k])[i]) &&
    PassedOver(v, from.data, from.ids, from.k, from.i, k, i) &&
    FedTail(v, from.data, from.ids[k], passed, if k == from.k then from.i else 0, i) &&
    Describes(e, FedAll(from.partial, passed), Slots(v, from.data, from.ids[k])[i]) &&
    PlacedAt(v, e.sector, e.offset, from.ids[k], i) &&
    if Belongs(FedAll(from.partial, passed), Slots(v, from.data, from.ids[k])[i])
    then FirstIs(v, e.firstSector, e.firstOffset, from.data, from.ids[k], if k == from.k then from.i else 0, i)
    else e.firstSector == e.sector && e.firstOffset == e.offset
  }

  lemma InsideChain(v: Volume, ids: seq<nat>, k: nat)
    requires v.Valid() && Chain(v.table, v.Total(), ids) && k < |ids|
    ensures InRange(ids[k], v.Total()) && v.Total() <= BAD && v.Total() <= |v.table|
    ensures k + 1 < |ids| ==> FatTable.Next(v.table, v.Total(), ids[k]) == ids[k + 1] && InRange(ids[k + 1], v.Total())
    ensures k + 1 == |ids| ==> Ended(FatTable.Next(v.table, v.Total(), ids[k]))
  {
    ChainNext(v.table, v.Total(), ids, k);
  }

  lemma ScanFacts(v: Volume, d: Directory, from: Origin, k: nat, passed: seq<Raw>)
    requires Scanning(v, d, from, k, passed)
    ensures from.k <= k < |from.ids| && d.cluster == from.ids[k] && d.entryIndex <= PerCluster(v) &&
            d.longName.Length == FAT_NAME_MAX
    ensures Fits(v, from.data, from.ids) && PassedOver(v, from.data, from.ids, from.k, from.i, k, d.entryIndex)
  {
  }

  /** The entry in hand. */
  method TakeEntry(v: Volume, d: Directory, raw: Raw, sector: nat, offset: nat, ghost from: Origin, ghost k: nat,
                   ghost passed: seq<Raw>)
    returns (e: Entry)
    requires Scanning(v, d, from, k, passed) && d.entryIndex < PerCluster(v) && Real(raw) &&
             raw == Slots(v, from.data, from.ids[k])[d.entryIndex]
    requires PlacedAt(v, sector, offset, from.ids[k], d.entryIndex)
    modifies d`entryIndex, d`longNameValid
    ensures FoundAt(v, from, e, k, old(d.entryIndex), passed) && d.entryIndex == old(d.entryIndex) + 1 &&
            !d.longNameValid
  {
    hide Slots, Real, FedAll, FedTail, PassedOver, Describes, FirstIs, PlacedAt, Belongs;
    e := EntryOf(d, raw, sector, offset);
    d.entryIndex, d.longNameValid := d.entryIndex + 1, false;
  }

  /** fat32_readdir: the first entry from here on; none exactly when none is left. */
  method Readdir(v: Volume, d: Directory, ghost from: Origin) returns (found: bool, e: Entry, ghost k: nat,
                 ghost i: nat, ghost passed: seq<Raw>)
    requires v.Valid() && Chain(v.table, v.Total(), from.ids) && NothingHidden(v, from.data, from.ids) &&
             from.data == v.Data()
    requires from.k < |from.ids| && d.cluster == from.ids[from.k] && d.entryIndex == from.i <= PerCluster(v)
    requires d.longName.Length == FAT_NAME_MAX && d.longName != v.cache && from.partial == d.State()
    modifies d, d.longName, v.disk, v.cache, v`cacheDirty, v`cacheSector, v`cacheValid, v`apart
    ensures v.Valid() && v.Elsewhere() == old(v.Elsewhere()) && v.apart <= old(v.apart)
    ensures !found ==> NothingLeft(v, from.data, from.ids, from.k, from.i)
    ensures found ==> FoundAt(v, from, e, k, i, passed) && d.cluster == from.ids[k] && d.entryIndex == i + 1 &&
                      !d.longNameValid
  {
    hide Volume.Valid, Volume.Geometry, Volume.Cached, Volume.Stored, Volume.Walked, Chain, NothingHidden, Slots, Real,
         FedAll, FedTail, PassedOver, NothingLeft, FoundAt, Fits, Times, Volume.Start, Scanning, PlacedAt;
    k, i, passed, found := from.k, from.i, [], false;
    e := Entry([], 0, 0, 0, 0, 0, 0, 0, 0, 0);
    OriginFacts(v, from);
    ScanningStart(v, d, from);
    InsideChain(v, from.ids, k);
    if d.cluster >= END_MINIMUM || d.cluster < 2 {
      assert false;
      return;
    }
    while true
      invariant v.Valid() && v.Elsewhere() == old(v.Elsewhere()) && v.apart <= old(v.apart)
      invariant Scanning(v, d, from, k, passed)
      decreases |from.ids| - k, PerCluster(v) - d.entryIndex
    {
      ScanFacts(v, d, from, k, passed);
      var index := d.entryIndex;
      InsideChain(v, from.ids, k);
      if index >= v.sectorsPerCluster * ENTRIES_PER_SECTOR {
        var following := v.Next(d.cluster);
        if following >= END_MINIMUM || following < 2 {
          AllPassed(v, from, k, index);
          return;
        }
        PassCluster(v, d, following, from, k, passed);
        k := k + 1;
      } else {
        var sector, offset, raw := ReadSlot(v, d.cluster, index);
        if raw[0] == ENTRY_END {
          EndOfDirectory(v, from.data, from.ids, from.k, from.i, k, index);
          return;
        }
        if Real(raw) {
          e := TakeEntry(v, d, raw, sector, offset, from, k, passed);
          found, i := true, index;
          return;
        }
        PassSlot(v, d, raw, sector, offset, from, k, passed);
        passed := passed + [raw];
      }
    }
  }

  /** The slot itself, and where on the volume it is. */
  method ReadSlot(v: Volume, cluster: nat, index: nat) returns (sector: nat, offset: nat, raw: Raw)
    requires v.Valid() && InRange(cluster, v.Total()) && index < PerCluster(v)
    ensures PlacedAt(v, sector, offset, cluster, index)
    ensures v.Start(cluster) + v.sectorsPerCluster <= |v.Data()| && raw == Slots(v, v.Data(), cluster)[index]
  {
    hide Volume.Cached, Volume.Stored, Volume.Walked, Slots, Volume.Start, Times;
    v.ClusterInside(cluster);
    sector := v.FirstSector(cluster) + index / ENTRIES_PER_SECTOR;
    offset := index % ENTRIES_PER_SECTOR * SLOT_SIZE;
    raw := SlotIn(v.disk[sector], index % ENTRIES_PER_SECTOR);
    SlotRead(v, v.Data(), cluster, index, sector, raw);
  }

  lemma OriginFacts(v: Volume, from: Origin)
    requires v.Valid() && NothingHidden(v, from.data, from.ids)
    ensures Fits(v, from.data, from.ids) && v.Geometry() && v.Total() <= |v.table|
  {
    hide Slots, Times, Volume.Cached, Volume.Stored, Volume.Walked;
  }

  lemma ScanningStart(v: Volume, d: Directory, from: Origin)
    requires Fits(v, from.data, from.ids) && from.k < |from.ids| && d.cluster == from.ids[from.k] &&
             d.entryIndex == from.i <= PerCluster(v)
    requires d.longName.Length == FAT_NAME_MAX && from.partial == d.State()
    ensures Scanning(v, d, from, from.k, [])
  {
    hide Slots;
    assert Slots(v, from.data, from.ids[from.k])[from.i..from.i] == [];
  }

  lemma AllPassed(v: Volume, from: Origin, k: nat, i: nat)
    requires Fits(v, from.data, from.ids) && k + 1 == |from.ids| && i >= PerCluster(v) &&
             PassedOver(v, from.data, from.ids, from.k, from.i, k, i)
    ensures NothingLeft(v, from.data, from.ids, from.k, from.i)
  {
    hide Slots;
  }

  lemma SlotRead(v: Volume, data: seq<Sector>, cluster: nat, index: nat, sector: nat, raw: Raw)
    requires v.Geometry() && data == v.Data() && InRange(cluster, v.Total()) && index < PerCluster(v)
    requires sector == v.FirstSector(cluster) + index / ENTRIES_PER_SECTOR < v.disk.Length
    requires raw == SlotIn(v.disk[sector], index % ENTRIES_PER_SECTOR)
    ensures v.Start(cluster) + v.sectorsPerCluster <= |data| && raw == Slots(v, data, cluster)[index]
  {
    v.ClusterInside(cluster);
  }
}
