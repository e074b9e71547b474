/** kernel/fat32.c: writing a file's set of slots, looking for its short name, and erasing the set again. */
module FatEntries {
  import opened Words
  import opened LittleEndian
  import opened FatTable
  import opened FatVolume
  import opened FatContents
  import opened FatWrite
  import opened FatSlots
  import opened FatDirectory
  import opened LongName
  import opened EntryReader
  import opened FatReaddir

  // ---- Writing ------------------------------------------------------------------------

  /** Slots replaced from `index` on. */
  function Placed(s: seq<Raw>, index: nat, raws: seq<Raw>): (t: seq<Raw>)
    requires index + |raws| <= |s|
    ensures |t| == |s|
  {
    s[..index] + raws + s[index + |raws|..]
  }

  lemma PlacedMore(s: seq<Raw>, index: nat, raws: seq<Raw>, raw: Raw)
    requires index + |raws| < |s|
    ensures Placed(s, index, raws)[index + |raws| := raw] == Placed(s, index, raws + [raw])
  {
  }

  /** A set put where there is room keeps the rule about end marks, whichever cluster of the chain it is in. */
  lemma PlacedInRoom(s: seq<Raw>, index: nat, raws: seq<Raw>)
    requires Room(s, index, |raws|) && forall t :: 0 <= t < |raws| ==> raws[t][0] != ENTRY_END
    ensures NoEnd(s) ==> NoEnd(Placed(s, index, raws))
    ensures EndsLast(s) ==> EndsLast(Placed(s, index, raws))
  {
  }

  lemma ChangedAgain(v: Volume, data: seq<Sector>, middle: seq<Sector>, before: seq<Sector>, cluster: nat, s: seq<Raw>,
                     t: seq<Raw>)
    requires SlotChanged(v, middle, before, cluster, s) && SlotChanged(v, data, middle, cluster, t)
    ensures SlotChanged(v, data, before, cluster, t)
  {
    hide Slots, Times;
    forall c: nat | 2 <= c && c != cluster && v.Start(c) + v.sectorsPerCluster <= |data|
      ensures SameCluster(v, data, before, c)
    {
      assert SameCluster(v, data, middle, c) && SameCluster(v, middle, before, c);
    }
  }

  /** The short entry of a set. */
  method ShortEntry(short: seq<Byte>, attributes: Byte, first: Word, size: Word, date: Half,
                    time: Half) returns (raw: Raw)
    requires |short| == 11
    ensures ShortSays(raw, short, attributes, first, size, date, time)
  {
    var entry := new Byte[SLOT_SIZE](_ => 0);
    forall i | 0 <= i < 11 {
      entry[i] := short[i];
    }
    entry[11] := attributes;
    assert entry[..11] == short;
    ghost var head := entry[..];
    CreationFields(entry, date, time);
    ghost var middle := entry[..];
    FileFields(entry, first, size, date, time);
    raw := entry[..];
    ShortJoined(head, middle, raw, short, attributes, first, size, date, time);
  }

  method CreationFields(entry: array<Byte>, date: Half, time: Half)
    requires entry.Length == SLOT_SIZE
    modifies entry
    ensures Read16(entry[..], 14) == time && Read16(entry[..], 16) == date && Read16(entry[..], 18) == date
    ensures forall i :: 0 <= i < 14 || 20 <= i < entry.Length ==> entry[i] == old(entry[i])
  {
    Write16(entry, 14, time);
    Write16(entry, 16, date);
    Write16(entry, 18, date);
  }

  method FileFields(entry: array<Byte>, first: Word, size: Word, date: Half, time: Half)
    requires entry.Length == SLOT_SIZE
    modifies entry
    ensures Read16(entry[..], 20) == first / 0x1_0000 && Read16(entry[..], 22) == time &&
            Read16(entry[..], 24) == date && Read16(entry[..], 26) == first % 0x1_0000 && Read32(entry[..], 28) == size
    ensures forall i :: 0 <= i < 20 ==> entry[i] == old(entry[i])
  {
    Write16(entry, 20, first / 0x1_0000);
    Write16(entry, 22, time);
    Write16(entry, 24, date);
    Write16(entry, 26, first % 0x1_0000);
    Write32(entry, 28, size);
  }

  lemma ShortJoined(head: Raw, middle: Raw, raw: Raw, short: seq<Byte>, attributes: Byte, first: Word, size: Word,
                    date: Half, time: Half)
    requires head[..11] == short && head[11] == attributes && head[12] == 0 && head[13] == 0
    requires Read16(middle, 14) == time && Read16(middle, 16) == date && Read16(middle, 18) == date
    requires Read16(raw, 20) == first / 0x1_0000 && Read16(raw, 22) == time && Read16(raw, 24) == date &&
             Read16(raw, 26) == first % 0x1_0000 && Read32(raw, 28) == size
    requires forall i :: 0 <= i < 14 ==> middle[i] == head[i]
    requires forall i :: 0 <= i < 20 ==> raw[i] == middle[i]
    ensures ShortSays(raw, short, attributes, first, size, date, time)
  {
    hide Read32;
    assert raw[..11] == head[..11];
  }

  /** The record of a new entry that its creator is handed: all it was given, and the places of the short entry, n
      slots behind `index`, and of the first slot. */
  ghost predicate Handed(v: Volume, e: Entry, cluster: nat, index: nat, n: nat, name: seq<Byte>, attributes: Byte,
                         first: Word, size: Word, date: Half, time: Half) {
    2 <= cluster && e.name == name && e.attributes == attributes && e.size == size && e.firstCluster == first &&
    e.date == date && e.time == time && PlacedAt(v, e.sector, e.offset, cluster, index + n) &&
    PlacedAt(v, e.firstSector, e.firstOffset, cluster, index)
  }

  /** write_directory_entries: the pieces of the name, last piece first, and the short entry behind them. */
  method WriteDirectoryEntries(v: Volume, cluster: nat, index: nat, name: seq<Byte>, short: seq<Byte>,
                               attributes: Byte, first: Word,
                               size: Word, date: Half, time: Half)
    returns (ok: bool, result: Entry, ghost raws: seq<Raw>)
    requires v.Valid() && InRange(cluster, v.Total()) && Name(name) && |short| == 11
    modifies v.disk
    ensures v.Valid() && v.disk[..v.reserved] == old(v.disk[..v.reserved]) &&
            v.Start(cluster) + v.sectorsPerCluster <= |old(v.Data())|
    ensures ok <==> index + Pieces(|name|) + 1 <= PerCluster(v)
    ensures ok ==> EntrySet(raws, name, short, attributes, first, size, date, time) &&
                   SlotChanged(v, v.Data(), old(v.Data()), cluster, Placed(Slots(v, old(v.Data()), cluster), index,
                   raws))
    ensures ok ==> Handed(v, result, cluster, index, Pieces(|name|), name, attributes, first, size, date, time)
  {
    hide Volume.Cached, Volume.Stored, Volume.Walked, Times, Volume.Start, Slots, Placed, PieceSays, ShortSays,
         ChecksumOf, Pieces, SlotChanged;
    v.ClusterInside(cluster);
    ghost var before, s := v.Data(), Slots(v, v.Data(), cluster);
    result := Entry([], 0, 0, 0, 0, 0, 0, 0, 0, 0);
    raws := [];
    if index >= v.sectorsPerCluster * ENTRIES_PER_SECTOR {
      return false, result, raws;
    }
    SetStart(v, before, cluster, index);
    PiecesBound(|name|);
    var longEntries := Pieces(|name|);
    var checksum := Checksum(short);
    assert short[..11] == short;
    var piece := 0;
    while piece < longEntries
      invariant piece <= longEntries && |raws| == piece && index + piece <= |s|
      invariant v.Valid() && v.disk[..v.reserved] == old(v.disk[..v.reserved])
      invariant |v.Data()| == |before| && SlotChanged(v, v.Data(), before, cluster, Placed(s, index, raws))
      invariant forall t :: 0 <= t < piece ==> PieceSays(raws[t], name, longEntries - t, t == 0, ChecksumOf(short))
    {
      if index + piece >= v.sectorsPerCluster * ENTRIES_PER_SECTOR {
        return false, result, raws;
      }
      var entry := Piece(name, longEntries - piece, piece == 0, checksum);
      raws := PatchNext(v, cluster, index + piece, entry, index, before, s, raws);
      piece := piece + 1;
    }
    if index + longEntries >= v.sectorsPerCluster * ENTRIES_PER_SECTOR {
      return false, result, raws;
    }
    var entry := ShortEntry(short, attributes, first, size, date, time);
    raws := PatchNext(v, cluster, index + longEntries, entry, index, before, s, raws);
    var slot := index + longEntries;
    result := Entry(name, attributes, size, first, date, time, v.FirstSector(cluster) + slot / ENTRIES_PER_SECTOR,
                    slot % ENTRIES_PER_SECTOR * SLOT_SIZE, v.FirstSector(cluster) + index / ENTRIES_PER_SECTOR,
                    index % ENTRIES_PER_SECTOR * SLOT_SIZE);
    ok := true;
  }

  lemma SetStart(v: Volume, data: seq<Sector>, cluster: nat, index: nat)
    requires 2 <= cluster && v.Start(cluster) + v.sectorsPerCluster <= |data| && index <= PerCluster(v)
    ensures SlotChanged(v, data, data, cluster, Placed(Slots(v, data, cluster), index, []))
  {
    hide Slots;
    assert Placed(Slots(v, data, cluster), index, []) == Slots(v, data, cluster);
  }

  /** The next slot of the set. */
  method PatchNext(v: Volume, cluster: nat, slot: nat, raw: Raw, ghost index: nat, ghost before: seq<Sector>,
                   ghost s: seq<Raw>, ghost raws: seq<Raw>)
    returns (ghost more: seq<Raw>)
    requires v.Valid() && InRange(cluster, v.Total()) && slot == index + |raws| < PerCluster(v) == |s|
    requires SlotChanged(v, v.Data(), before, cluster, Placed(s, index, raws))
    modifies v.disk
    ensures v.Valid() && v.disk[..v.reserved] == old(v.disk[..v.reserved]) && more == raws + [raw]
    ensures |v.Data()| == |before| && SlotChanged(v, v.Data(), before, cluster, Placed(s, index, more))
  {
    hide Volume.Cached, Volume.Stored, Volume.Walked, Times, Volume.Start, Slots, Placed;
    ghost var middle := v.Data();
    PlacedMore(s, index, raws, raw);
    PatchEntry(v, cluster, slot, raw);
    ChangedAgain(v, v.Data(), middle, before, cluster, Placed(s, index, raws), Placed(s, index, raws + [raw]));
    more := raws + [raw];
  }

  // ---- Short names ----------------------------------------------------------------------

  /** A short slot that uses this name. */
  predicate Uses(raw: Raw, short: seq<Byte>) {
    !Vacant(raw) && !IsLongName(raw) && raw[..11] == short
  }

  /** One cluster of the search: the name, or an end mark, or neither. */
  method ScanShort(v: Volume, cluster: nat, short: seq<Byte>) returns (taken: bool, ended: bool, ghost at: nat)
    requires v.Valid() && InRange(cluster, v.Total()) && v.Start(cluster) + v.sectorsPerCluster <= |v.Data()|
    ensures at <= PerCluster(v) && forall i :: 0 <= i < at ==> !Uses(Slots(v, v.Data(), cluster)[i], short)
    ensures taken ==> !ended && at < PerCluster(v) && Uses(Slots(v, v.Data(), cluster)[at], short)
    ensures ended ==> at < PerCluster(v) && Slots(v, v.Data(), cluster)[at][0] == ENTRY_END
    ensures !taken && !ended ==> at == PerCluster(v)
  {
    hide Volume.Cached, Volume.Stored, Volume.Walked, Times, SlotIn, Slots, Volume.Start;
    ghost var s := Slots(v, v.Data(), cluster);
    v.ClusterInside(cluster);
    var sector := v.disk[v.FirstSector(cluster)];
    taken, ended, at := false, false, 0;
    var index := 0;
    while index < v.sectorsPerCluster * ENTRIES_PER_SECTOR
      invariant at == index <= |s| == v.sectorsPerCluster * ENTRIES_PER_SECTOR && !taken && !ended
      invariant index % ENTRIES_PER_SECTOR != 0 ==>
                sector == v.disk[v.FirstSector(cluster) + index / ENTRIES_PER_SECTOR]
      invariant forall i :: 0 <= i < index ==> !Uses(s[i], short)
    {
      if index % ENTRIES_PER_SECTOR == 0 {
        sector := v.disk[v.FirstSector(cluster) + index / ENTRIES_PER_SECTOR];
      }
      var raw := SlotIn(sector, index % ENTRIES_PER_SECTOR);
      SlotHere(v, cluster, index);
      if raw[0] == ENTRY_END {
        ended := true;
        return;
      }
      if raw[0] != ENTRY_FREE && !IsLongName(raw) && raw[..11] == short {
        taken := true;
        return;
      }
      index := index + 1;
      at := index;
    }
  }

  /** Some slot of the directory uses this short name. */
  ghost predicate Taken(v: Volume, data: seq<Sector>, ids: seq<nat>, short: seq<Byte>)
    requires Fits(v, data, ids)
  {
    exists k, i :: 0 <= k < |ids| && 0 <= i < PerCluster(v) && Uses(Slots(v, data, ids[k])[i], short)
  }

  /** short_name_taken: stopping at an end mark is safe where the rule about end marks holds. */
  method ShortNameTaken(v: Volume, directory: nat, short: seq<Byte>, ghost ids: seq<nat>) returns (taken: bool)
    requires v.Valid() && Chain(v.table, v.Total(), ids) && Sealed(v, v.Data(), ids) && directory == ids[0]
    modifies v.disk, v.cache, v`cacheDirty, v`cacheSector, v`cacheValid, v`apart
    ensures v.Valid() && v.Elsewhere() == old(v.Elsewhere()) && v.apart <= old(v.apart)
    ensures taken <==> Taken(v, v.Data(), ids, short)
  {
    assert |ids| > 0;
    hide Volume.Cached, Volume.Stored, Volume.Walked, Slots, Times, Volume.Start, Chain, Uses, EndsLast, NoEnd;
    ghost var data := v.Data();
    var cluster := directory;
    ghost var k: nat := 0;
    while true
      invariant v.Valid() && v.Elsewhere() == old(v.Elsewhere()) && v.apart <= old(v.apart)
      invariant k < |ids| && cluster == ids[k]
      invariant forall j, i :: 0 <= j < k && 0 <= i < PerCluster(v) ==> !Uses(Slots(v, data, ids[j])[i], short)
      decreases |ids| - k
    {
      ChainNext(v.table, v.Total(), ids, k);
      var ended;
      ghost var at;
      taken, ended, at := ScanShort(v, cluster, short);
      if taken {
        return;
      }
      if ended {
        NoneAfterEnd(v, data, ids, k, at, short);
        return;
      }
      cluster := v.Next(cluster);
      if cluster < 2 || cluster >= END_MINIMUM {
        return;
      }
      k := k + 1;
    }
  }

  lemma NoneAfterEnd(v: Volume, data: seq<Sector>, ids: seq<nat>, k: nat, at: nat, short: seq<Byte>)
    requires Sealed(v, data, ids) && k < |ids| && at < PerCluster(v) && Slots(v, data, ids[k])[at][0] == ENTRY_END
    requires forall i :: 0 <= i < at ==> !Uses(Slots(v, data, ids[k])[i], short)
    ensures k + 1 == |ids| && forall i :: 0 <= i < PerCluster(v) ==> !Uses(Slots(v, data, ids[k])[i], short)
  {
    hide Slots;
    var s := Slots(v, data, ids[k]);
    forall i | 0 <= i < PerCluster(v)
      ensures !Uses(s[i], short)
    {
      if i >= at {
        assert Vacant(s[i]);
      }
    }
  }

  // ---- Erasing ---------------------------------------------------------------------------

  /** Slots a up to b marked free. */
  function Freed(s: seq<Raw>, a: nat, b: nat): (t: seq<Raw>)
    ensures |t| == |s|
  {
    seq(|s|, i requires 0 <= i < |s| => if a <= i < b then s[i][0 := ENTRY_FREE] else s[i])
  }

  /** Erasing keeps the rule about end marks. */
  lemma FreedKeepsRule(s: seq<Raw>, a: nat, b: nat)
    ensures NoEnd(s) ==> NoEnd(Freed(s, a, b))
    ensures EndsLast(s) ==> EndsLast(Freed(s, a, b))
  {
  }

  /** Slot n of the data area, counted from its first sector. */
  predicate AtSlot(v: Volume, sector: nat, offset: nat, n: nat) {
    sector == v.firstData + n / ENTRIES_PER_SECTOR && offset == n % ENTRIES_PER_SECTOR * SLOT_SIZE
  }

  function ErasedSector(s: Sector, first: nat, a: nat, b: nat): Sector {
    seq(SECTOR_SIZE, o requires 0 <= o < SECTOR_SIZE =>
      if o % SLOT_SIZE == 0 && a <= first + o / SLOT_SIZE < b then ENTRY_FREE else s[o])
  }

  /** The data with the first byte of each of the slots a up to b marked free, and no other byte changed. */
  function Erased(data: seq<Sector>, a: nat, b: nat): (d: seq<Sector>)
    ensures |d| == |data|
  {
    seq(|data|, s requires 0 <= s < |data| => ErasedSector(data[s], s * ENTRIES_PER_SECTOR, a, b))
  }

  /** How far erasing goes: past the set's last slot, if it begins no later; otherwise to the end of the second sector
      behind that one or of the volume, or past one slot when that lies behind already. */
  function EraseEnd(a: nat, b: nat, sectors: nat): nat {
    if a <= b then b + 1
    else
      var stop := b / ENTRIES_PER_SECTOR + 3;
      var last := (if stop < sectors then stop else sectors) * ENTRIES_PER_SECTOR;
      if last <= a then a + 1 else last
  }

  lemma ErasedNone(data: seq<Sector>, a: nat)
    ensures Erased(data, a, a) == data
  {
    forall s | 0 <= s < |data|
      ensures ErasedSector(data[s], s * ENTRIES_PER_SECTOR, a, a) == data[s]
    {
    }
  }

  lemma ErasedNext(data: seq<Sector>, a: nat, n: nat)
    requires a <= n && n / ENTRIES_PER_SECTOR < |data|
    ensures var s, before := n / ENTRIES_PER_SECTOR, Erased(data, a, n);
            Overlaid(before, s, [before[s][n % ENTRIES_PER_SECTOR * SLOT_SIZE := ENTRY_FREE]]) == Erased(data, a, n + 1)
  {
    hide ErasedSector;
    var s, before, after := n / ENTRIES_PER_SECTOR, Erased(data, a, n), Erased(data, a, n + 1);
    forall r | 0 <= r < |data|
      ensures after[r] == if r == s then before[s][n % ENTRIES_PER_SECTOR * SLOT_SIZE := ENTRY_FREE] else before[r]
    {
      SectorNext(data[r], r, a, n);
    }
  }

  lemma SectorNext(s: Sector, r: nat, a: nat, n: nat)
    requires a <= n
    ensures ErasedSector(s, r * ENTRIES_PER_SECTOR, a, n + 1)
            == if r == n / ENTRIES_PER_SECTOR
               then ErasedSector(s, r * ENTRIES_PER_SECTOR, a, n)[n % ENTRIES_PER_SECTOR * SLOT_SIZE := ENTRY_FREE]
               else ErasedSector(s, r * ENTRIES_PER_SECTOR, a, n)
  {
    forall o | 0 <= o < SECTOR_SIZE
      ensures o % SLOT_SIZE == 0 && r * ENTRIES_PER_SECTOR + o / SLOT_SIZE == n <==>
              r == n / ENTRIES_PER_SECTOR && o == n % ENTRIES_PER_SECTOR * SLOT_SIZE
    {
    }
  }

  /** mark_entry_free: there is nothing to mark behind the end of the device. */
  method MarkEntryFree(v: Volume, sector: nat, offset: nat) returns (ok: bool)
    requires v.Valid() && v.firstData <= sector && offset < SECTOR_SIZE
    modifies v.disk
    ensures v.Valid() && v.disk[..v.reserved] == old(v.disk[..v.reserved]) && |v.Data()| == |old(v.Data())|
    ensures ok <==> sector - v.firstData < |v.Data()|
    ensures v.Data() == if ok then Overlaid(old(v.Data()), sector - v.firstData,
            [old(v.Data())[sector - v.firstData][offset := ENTRY_FREE]]) else old(v.Data())
  {
    if sector >= v.disk.Length {
      return false;
    }
    var s := v.disk[sector];
    assert s == v.Data()[sector - v.firstData];
    v.WriteRun(sector, [s[offset := ENTRY_FREE]]);
    ok := true;
  }

  lemma MarkedSector(s: Sector, slot: nat)
    requires slot < ENTRIES_PER_SECTOR
    ensures s[slot * SLOT_SIZE := ENTRY_FREE] == SlotPut(s, slot, SlotIn(s, slot)[0 := ENTRY_FREE])
  {
  }

  /** erase_entries, wherever the set's first slot and its last are. */
  method EraseEntries(v: Volume, firstSector: nat, firstOffset: nat, entrySector: nat, entryOffset: nat, ghost a: nat,
                      ghost b: nat)
    returns (ok: bool)
    requires v.Valid() && a / ENTRIES_PER_SECTOR < |v.Data()| && b / ENTRIES_PER_SECTOR < |v.Data()|
    requires AtSlot(v, firstSector, firstOffset, a) && AtSlot(v, entrySector, entryOffset, b)
    modifies v.disk
    ensures v.Valid() && v.disk[..v.reserved] == old(v.disk[..v.reserved]) && (ok <==> a <= b)
    ensures v.Data() == Erased(old(v.Data()), a, EraseEnd(a, b, |old(v.Data())|))
  {
    hide Volume.Cached, Volume.Stored, Volume.Walked, Times, Erased, Overlaid, EraseEnd;
    ghost var before := v.Data();
    ghost var end := EraseEnd(a, b, |before|);
    ErasedNone(before, a);
    EraseStart(a, b, |before|);
    var sector: nat, offset: nat := firstSector, firstOffset;
    ghost var n := a;
    while true
      invariant a <= n <= end && (n == end ==> b < a && n == |before| * ENTRIES_PER_SECTOR)
      invariant AtSlot(v, sector, offset, n) && v.Valid() && v.disk[..v.reserved] == old(v.disk[..v.reserved])
      invariant v.Data() == Erased(before, a, n)
      decreases end - n
    {
      EraseStep(a, b, |before|, n);
      var marked := MarkEntryFree(v, sector, offset);
      if !marked {
        return false;
      }
      ErasedNext(before, a, n);
      if sector == entrySector && offset == entryOffset {
        SameSlot(n, b);
        return true;
      }
      NextSlot(n, offset);
      offset := offset + SLOT_SIZE;
      if offset >= SECTOR_SIZE {
        offset := 0;
        sector := sector + 1;
      }
      n := n + 1;
      if sector > entrySector + 2 {
        return false;
      }
    }
  }

  lemma EraseStart(a: nat, b: nat, sectors: nat)
    ensures a < EraseEnd(a, b, sectors)
  {
  }

  /** What one more slot means for the end. */
  lemma EraseStep(a: nat, b: nat, sectors: nat, n: nat)
    requires a / ENTRIES_PER_SECTOR < sectors && b / ENTRIES_PER_SECTOR < sectors && a <= n <= EraseEnd(a, b, sectors)
    requires n == EraseEnd(a, b, sectors) ==> b < a && n == sectors * ENTRIES_PER_SECTOR
    ensures n / ENTRIES_PER_SECTOR >= sectors ==> b < a && n == EraseEnd(a, b, sectors)
    ensures n / ENTRIES_PER_SECTOR < sectors ==>
              var end := EraseEnd(a, b, sectors);
              n < end && (n == b ==> a <= b && n + 1 == end) &&
              (n != b ==>
                 if (n + 1) / ENTRIES_PER_SECTOR > b / ENTRIES_PER_SECTOR + 2 then b < a && n + 1 == end
                 else n + 1 < end || (b < a && n + 1 == end == sectors * ENTRIES_PER_SECTOR))
  {
  }

  lemma SameSlot(i: nat, b: nat)
    requires i / ENTRIES_PER_SECTOR == b / ENTRIES_PER_SECTOR &&
             i % ENTRIES_PER_SECTOR * SLOT_SIZE == b % ENTRIES_PER_SECTOR * SLOT_SIZE
    ensures i == b
  {
  }

  lemma NextSlot(i: nat, offset: nat)
    requires offset == i % ENTRIES_PER_SECTOR * SLOT_SIZE
    ensures if offset + SLOT_SIZE >= SECTOR_SIZE
            then (i + 1) / ENTRIES_PER_SECTOR == i / ENTRIES_PER_SECTOR + 1 && (i + 1) % ENTRIES_PER_SECTOR == 0
            else (i + 1) / ENTRIES_PER_SECTOR == i / ENTRIES_PER_SECTOR &&
                 (i + 1) % ENTRIES_PER_SECTOR * SLOT_SIZE == offset + SLOT_SIZE
  {
  }

  // ---- What that is to the clusters --------------------------------------------------------------------

  /** Slot i of a cluster, as a slot of the data area. */
  function InArea(v: Volume, cluster: nat, i: nat): nat
    requires 2 <= cluster
  {
    v.Start(cluster) * ENTRIES_PER_SECTOR + i
  }

  lemma ErasedSlots(v: Volume, data: seq<Sector>, cluster: nat, a: nat, b: nat, i: nat)
    requires 2 <= cluster && v.Start(cluster) + v.sectorsPerCluster <= |data| && i < PerCluster(v)
    ensures var raw := Slots(v, data, cluster)[i];
            Slots(v, Erased(data, a, b), cluster)[i] ==
            if a <= InArea(v, cluster, i) < b then raw[0 := ENTRY_FREE] else raw
  {
    hide Times, Volume.Start;
    var s, slot := v.Start(cluster) + i / ENTRIES_PER_SECTOR, i % ENTRIES_PER_SECTOR;
    ErasedSlot(data[s], s * ENTRIES_PER_SECTOR, a, b, slot);
    assert s * ENTRIES_PER_SECTOR + slot == InArea(v, cluster, i);
  }

  lemma ErasedSlot(s: Sector, first: nat, a: nat, b: nat, slot: nat)
    requires slot < ENTRIES_PER_SECTOR
    ensures SlotIn(ErasedSector(s, first, a, b), slot) ==
            if a <= first + slot < b then SlotIn(s, slot)[0 := ENTRY_FREE] else SlotIn(s, slot)
  {
    var after, raw := SlotIn(ErasedSector(s, first, a, b), slot), SlotIn(s, slot);
    forall o | 0 <= o < SLOT_SIZE
      ensures after[o] == if o == 0 && a <= first + slot < b then ENTRY_FREE else raw[o]
    {
      assert (slot * SLOT_SIZE + o) % SLOT_SIZE == o && (slot * SLOT_SIZE + o) / SLOT_SIZE == slot;
    }
  }

  /** A cluster no slot of which is erased stays as it is. */
  lemma ErasedApart(v: Volume, data: seq<Sector>, cluster: nat, a: nat, b: nat)
    requires 2 <= cluster && v.Start(cluster) + v.sectorsPerCluster <= |data|
    requires b <= InArea(v, cluster, 0) || InArea(v, cluster, PerCluster(v)) <= a
    ensures SameCluster(v, Erased(data, a, b), data, cluster)
  {
    hide Times, Volume.Start;
    forall s | v.Start(cluster) <= s < v.Start(cluster) + v.sectorsPerCluster
      ensures Erased(data, a, b)[s] == data[s]
    {
      ErasedOutside(data[s], s * ENTRIES_PER_SECTOR, a, b);
    }
  }

  lemma ErasedOutside(s: Sector, first: nat, a: nat, b: nat)
    requires b <= first || first + ENTRIES_PER_SECTOR <= a
    ensures ErasedSector(s, first, a, b) == s
  {
  }

  /** The slots of one cluster come one after another, before those of the next. */
  lemma AreasApart(v: Volume, c: nat, d: nat)
    requires 2 <= c < d
    ensures InArea(v, c, PerCluster(v)) <= InArea(v, d, 0)
  {
    StartsApart(v, c, d);
  }

  /** A set that lies in one cluster: exactly its slots are marked deleted. */
  lemma ErasedSet(v: Volume, data: seq<Sector>, cluster: nat, a: nat, b: nat)
    requires 2 <= cluster && v.Start(cluster) + v.sectorsPerCluster <= |data| && a <= b < PerCluster(v)
    ensures SlotChanged(v, Erased(data, InArea(v, cluster, a), InArea(v, cluster, b) + 1), data, cluster,
                        Freed(Slots(v, data, cluster), a, b + 1))
  {
    hide Times, Slots, Erased, Volume.Start;
    var lo, hi := InArea(v, cluster, a), InArea(v, cluster, b) + 1;
    var after := Erased(data, lo, hi);
    forall i | 0 <= i < PerCluster(v)
      ensures Slots(v, after, cluster)[i] == Freed(Slots(v, data, cluster), a, b + 1)[i]
    {
      ErasedSlots(v, data, cluster, lo, hi, i);
    }
    forall c: nat | 2 <= c && c != cluster && v.Start(c) + v.sectorsPerCluster <= |data|
      ensures SameCluster(v, after, data, c)
    {
      if c < cluster {
        AreasApart(v, c, cluster);
      } else {
        AreasApart(v, cluster, c);
      }
      ErasedApart(v, data, c, lo, hi);
    }
  }

  /** A set from slot a of one cluster to slot b of a later one. In every cluster that lies between the two on the
      device, whosever it is, the first byte of every slot is marked; no other cluster changes. */
  lemma ErasedAcross(v: Volume, data: seq<Sector>, c: nat, a: nat, d: nat, b: nat, e: nat)
    requires 2 <= c < d && a < PerCluster(v) && b < PerCluster(v)
    requires 2 <= e && v.Start(e) + v.sectorsPerCluster <= |data|
    ensures var after := Erased(data, InArea(v, c, a), InArea(v, d, b) + 1);
            (c < e < d ==> Slots(v, after, e) == Freed(Slots(v, data, e), 0, PerCluster(v))) &&
            (e < c || d < e ==> SameCluster(v, after, data, e))
  {
    hide Times, Slots, Erased, Volume.Start;
    var lo, hi := InArea(v, c, a), InArea(v, d, b) + 1;
    if c < e < d {
      AreasApart(v, c, e);
      AreasApart(v, e, d);
      forall i | 0 <= i < PerCluster(v)
        ensures Slots(v, Erased(data, lo, hi), e)[i] == Freed(Slots(v, data, e), 0, PerCluster(v))[i]
      {
        ErasedSlots(v, data, e, lo, hi, i);
      }
    } else if e < c {
      AreasApart(v, e, c);
      ErasedApart(v, data, e, lo, hi);
    } else if d < e {
      AreasApart(v, d, e);
      ErasedApart(v, data, e, lo, hi);
    }
  }

  /** So such a set can be erased without a change to any cluster but its own exactly when nothing lies between
      that a mark would change. */
  lemma AcrossHarmless(v: Volume, data: seq<Sector>, c: nat, a: nat, d: nat, b: nat)
    requires 2 <= c < d && v.Start(d) + v.sectorsPerCluster <= |data| && a < PerCluster(v) && b < PerCluster(v)
    ensures (forall e: nat :: c < e < d ==>
               v.Start(e) + v.sectorsPerCluster <= |data| &&
               Slots(v, Erased(data, InArea(v, c, a), InArea(v, d, b) + 1), e) == Slots(v, data, e))
            <==> forall e: nat, i: nat :: c < e < d && i < PerCluster(v) ==>
                   v.Start(e) + v.sectorsPerCluster <= |data| && Slots(v, data, e)[i][0] == ENTRY_FREE
  {
    hide Times, Slots, Erased, Volume.Start;
    forall e: nat | c < e < d
      ensures v.Start(e) + v.sectorsPerCluster <= |data|
      ensures Slots(v, Erased(data, InArea(v, c, a), InArea(v, d, b) + 1), e) == Slots(v, data, e)
              <==> forall i: nat :: i < PerCluster(v) ==> Slots(v, data, e)[i][0] == ENTRY_FREE
    {
      StartsApart(v, e, d);
      ErasedAcross(v, data, c, a, d, b, e);
      FreedAll(Slots(v, data, e));
    }
  }

  lemma FreedAll(s: seq<Raw>)
    ensures Freed(s, 0, |s|) == s <==> forall i: nat :: i < |s| ==> s[i][0] == ENTRY_FREE
  {
    assert forall i: nat :: i < |s| ==> Freed(s, 0, |s|)[i] == s[i][0 := ENTRY_FREE];
    if forall i: nat :: i < |s| ==> s[i][0] == ENTRY_FREE {
      assert forall i: nat :: i < |s| ==> s[i][0 := ENTRY_FREE] == s[i];
    } else {
      var i: nat :| i < |s| && s[i][0] != ENTRY_FREE;
      assert Freed(s, 0, |s|)[i][0] != s[i][0];
    }
  }

  /** In clusters of one sector: a set in the last slot of cluster 5 and the first of cluster 7 costs cluster 6 every
      32nd byte. */
  lemma Bystander(v: Volume, data: seq<Sector>, p: nat)
    requires v.sectorsPerCluster == 1 && v.Start(6) < |data| && p < SECTOR_SIZE
    ensures ClusterByte(Erased(data, InArea(v, 5, 15), InArea(v, 7, 0) + 1), v.Start(6), p)
            == if p % 32 == 0 then ENTRY_FREE else ClusterByte(data, v.Start(6), p)
  {
    hide Times;
    StartsOneByOne(v);
  }

  lemma StartsOneByOne(v: Volume)
    requires v.sectorsPerCluster == 1
    ensures v.Start(6) == v.Start(5) + 1 && v.Start(7) == v.Start(6) + 1
  {
    TimesNext(3, v.sectorsPerCluster);
    TimesNext(4, v.sectorsPerCluster);
  }
}
