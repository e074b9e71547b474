/** kernel/fat32.c: a directory as slots of 32 bytes, and the rule about where its end mark may stand. */
module FatSlots {
  import opened Words
  import opened FatTable
  import opened FatVolume
  import opened FatContents
  import opened FatWrite

  const SLOT_SIZE := 32
  const ENTRIES_PER_SECTOR := 16
  const ENTRY_FREE := 0xE5
  const ENTRY_END := 0x00

  type Raw = s: seq<Byte> | |s| == 32 witness seq(32, _ => 0)

  /** Slots in a cluster. */
  function PerCluster(v: Volume): nat {
    v.sectorsPerCluster * ENTRIES_PER_SECTOR
  }

  function SlotIn(s: Sector, slot: nat): Raw
    requires slot < ENTRIES_PER_SECTOR
  {
    s[slot * SLOT_SIZE..slot * SLOT_SIZE + SLOT_SIZE]
  }

  /** Slot i of a cluster that begins at data sector `start`. */
  function SlotAt(data: seq<Sector>, start: nat, i: nat): Raw
    requires start + i / ENTRIES_PER_SECTOR < |data|
  {
    SlotIn(data[start + i / ENTRIES_PER_SECTOR], i % ENTRIES_PER_SECTOR)
  }

  /** Every slot of a cluster. */
  ghost function Slots(v: Volume, data: seq<Sector>, cluster: nat): (s: seq<Raw>)
    requires 2 <= cluster && v.Start(cluster) + v.sectorsPerCluster <= |data|
    ensures |s| == PerCluster(v)
  {
    seq(PerCluster(v), i requires 0 <= i < PerCluster(v) => SlotAt(data, v.Start(cluster), i))
  }

  /** Where that is on the device: sixteen slots of 32 bytes to a sector. */
  lemma SlotOnDisk(v: Volume, cluster: nat, i: nat)
    requires v.Geometry() && 2 <= cluster && v.Start(cluster) + v.sectorsPerCluster <= |v.Data()| && i < PerCluster(v)
    ensures var sector := v.reserved + v.fatCount * v.sectorsPerFat + (cluster - 2) * v.sectorsPerCluster + i / 16;
            sector < v.disk.Length &&
            Slots(v, v.Data(), cluster)[i] == v.disk[sector][i % 16 * 32..i % 16 * 32 + 32]
  {
    hide Times;
    v.Places(0, 0, cluster);
  }

  predicate Vacant(raw: Raw) {
    raw[0] == ENTRY_END || raw[0] == ENTRY_FREE
  }

  /** No end mark anywhere. */
  predicate NoEnd(s: seq<Raw>) {
    forall i :: 0 <= i < |s| ==> s[i][0] != ENTRY_END
  }

  /** Nothing live after an end mark. */
  predicate EndsLast(s: seq<Raw>) {
    forall i, j :: 0 <= i < j < |s| && s[i][0] == ENTRY_END ==> Vacant(s[j])
  }

  /** The rule: a cluster with a successor has no end mark, and in the last one nothing live follows one. */
  ghost predicate Sealed(v: Volume, data: seq<Sector>, ids: seq<nat>) {
    Fits(v, data, ids) && forall k :: 0 <= k < |ids| ==>
      if k + 1 < |ids| then NoEnd(Slots(v, data, ids[k])) else EndsLast(Slots(v, data, ids[k]))
  }

  /** What the rule is for: no live slot anywhere behind an end mark. */
  ghost predicate NothingHidden(v: Volume, data: seq<Sector>, ids: seq<nat>) {
    Fits(v, data, ids) && forall k, i, l, j ::
      (0 <= k <= l < |ids| && 0 <= i < PerCluster(v) && 0 <= j < PerCluster(v) && (k < l || i < j) &&
         Slots(v, data, ids[k])[i][0] == ENTRY_END) ==>
      Vacant(Slots(v, data, ids[l])[j])
  }

  lemma SealedHidesNothing(v: Volume, data: seq<Sector>, ids: seq<nat>)
    requires Sealed(v, data, ids)
    ensures NothingHidden(v, data, ids)
  {
    hide Slots;
  }

  /** It is less than the rule: two clusters of end marks hide nothing, but the first of them may not stay that way. */
  lemma HiddenIsNotSealed(v: Volume, data: seq<Sector>, a: nat, b: nat)
    requires 2 <= a && v.Start(a) + v.sectorsPerCluster <= |data| && 2 <= b &&
             v.Start(b) + v.sectorsPerCluster <= |data| && 0 < v.sectorsPerCluster
    requires forall i :: 0 <= i < PerCluster(v) ==>
               Slots(v, data, a)[i][0] == ENTRY_END && Slots(v, data, b)[i][0] == ENTRY_END
    ensures NothingHidden(v, data, [a, b]) && !Sealed(v, data, [a, b])
  {
    hide Slots, Times;
    assert [a, b][0] == a && [a, b][1] == b;
    assert !NoEnd(Slots(v, data, a)) by {
      assert Slots(v, data, a)[0][0] == ENTRY_END;
    }
  }

  /** Replacing one slot. */
  function SlotPut(s: Sector, slot: nat, raw: Raw): (t: Sector)
    requires slot < ENTRIES_PER_SECTOR
  {
    Spliced(s, slot * SLOT_SIZE, raw)
  }

  lemma SlotPutGet(s: Sector, slot: nat, raw: Raw, other: nat)
    requires slot < ENTRIES_PER_SECTOR && other < ENTRIES_PER_SECTOR
    ensures SlotIn(SlotPut(s, slot, raw), other) == if other == slot then raw else SlotIn(s, other)
  {
    var t := SlotPut(s, slot, raw);
    forall b | 0 <= b < SLOT_SIZE
      ensures SlotIn(t, other)[b] == if other == slot then raw[b] else SlotIn(s, other)[b]
    {
    }
  }

  /** One sector of a cluster replaced changes the slots in it and no others. */
  lemma SectorReplaced(v: Volume, data: seq<Sector>, cluster: nat, j: nat, s: Sector)
    requires 2 <= cluster && v.Start(cluster) + v.sectorsPerCluster <= |data| && j < v.sectorsPerCluster
    ensures var after := Overlaid(data, v.Start(cluster) + j, [s]);
            forall i :: 0 <= i < PerCluster(v) ==>
              Slots(v, after, cluster)[i] == if i / ENTRIES_PER_SECTOR == j then SlotIn(s, i % ENTRIES_PER_SECTOR)
              else Slots(v, data, cluster)[i]
  {
    hide SlotIn, Times;
  }

  lemma OthersUntouched(v: Volume, data: seq<Sector>, cluster: nat, j: nat, s: Sector, other: nat)
    requires 2 <= cluster && v.Start(cluster) + v.sectorsPerCluster <= |data| && j < v.sectorsPerCluster
    requires 2 <= other && other != cluster && v.Start(other) + v.sectorsPerCluster <= |data|
    ensures SameCluster(v, Overlaid(data, v.Start(cluster) + j, [s]), data, other)
  {
    hide Times, Overlaid;
    if other < cluster {
      StartsApart(v, other, cluster);
    } else {
      StartsApart(v, cluster, other);
    }
    OutsideSlice(data, v.Start(cluster) + j, s, v.Start(other), v.sectorsPerCluster);
  }

  lemma OutsideSlice(data: seq<Sector>, at: nat, s: Sector, from: nat, n: nat)
    requires from + n <= |data| && (at < from || from + n <= at)
    ensures Overlaid(data, at, [s])[from..from + n] == data[from..from + n]
  {
    var after := Overlaid(data, at, [s]);
    forall i | from <= i < from + n
      ensures after[i] == data[i]
    {
    }
  }

  lemma SameSlots(v: Volume, data: seq<Sector>, before: seq<Sector>, cluster: nat)
    requires 2 <= cluster && SameCluster(v, data, before, cluster)
    ensures Slots(v, data, cluster) == Slots(v, before, cluster)
  {
    hide SlotIn, Times;
    var at, n := v.Start(cluster), v.sectorsPerCluster;
    forall i | 0 <= i < PerCluster(v)
      ensures Slots(v, data, cluster)[i] == Slots(v, before, cluster)[i]
    {
      assert data[at..at + n][i / ENTRIES_PER_SECTOR] == before[at..at + n][i / ENTRIES_PER_SECTOR];
    }
  }

  /** The data after one slot of one cluster is written. */
  ghost predicate SlotChanged(v: Volume, data: seq<Sector>, before: seq<Sector>, cluster: nat, slots: seq<Raw>) {
    |data| == |before| && 2 <= cluster && v.Start(cluster) + v.sectorsPerCluster <= |data| &&
    Slots(v, data, cluster) == slots &&
    forall c: nat :: 2 <= c && c != cluster && v.Start(c) + v.sectorsPerCluster <= |data| ==>
        SameCluster(v, data, before, c)
  }

  /** patch_entry: read, modify and write one slot. */
  method PatchEntry(v: Volume, cluster: nat, slot: nat, raw: Raw)
    requires v.Valid() && InRange(cluster, v.Total()) && slot < PerCluster(v)
    modifies v.disk
    ensures v.Valid() && v.disk[..v.reserved] == old(v.disk[..v.reserved])
    ensures v.Start(cluster) + v.sectorsPerCluster <= |old(v.Data())|
    ensures SlotChanged(v, v.Data(), old(v.Data()), cluster, Slots(v, old(v.Data()), cluster)[slot := raw])
  {
    hide Volume.Cached, Volume.Stored, Volume.Walked, Times, Volume.Start, Overlaid, Slots, SlotPut;
    v.ClusterInside(cluster);
    var number := v.FirstSector(cluster) + slot / ENTRIES_PER_SECTOR;
    var sector := SlotPut(v.disk[number], slot % ENTRIES_PER_SECTOR, raw);
    PatchedSlots(v, v.Data(), cluster, slot, raw);
    v.WriteRun(number, [sector]);
  }

  lemma PatchedSlots(v: Volume, data: seq<Sector>, cluster: nat, slot: nat, raw: Raw)
    requires 2 <= cluster && v.Start(cluster) + v.sectorsPerCluster <= |data| && slot < PerCluster(v)
    ensures var j := slot / ENTRIES_PER_SECTOR;
            SlotChanged(v, Overlaid(data, v.Start(cluster) + j, [SlotPut(data[v.Start(cluster) + j],
            slot % ENTRIES_PER_SECTOR, raw)]), data,
                        cluster, Slots(v, data, cluster)[slot := raw])
  {
    hide SlotIn, SlotPut, Times, Overlaid;
    var j := slot / ENTRIES_PER_SECTOR;
    var s := SlotPut(data[v.Start(cluster) + j], slot % ENTRIES_PER_SECTOR, raw);
    var after := Overlaid(data, v.Start(cluster) + j, [s]);
    SectorReplaced(v, data, cluster, j, s);
    forall i | 0 <= i < PerCluster(v)
      ensures Slots(v, after, cluster)[i] == Slots(v, data, cluster)[slot := raw][i]
    {
      if i / ENTRIES_PER_SECTOR == j {
        SlotPutGet(data[v.Start(cluster) + j], slot % ENTRIES_PER_SECTOR, raw, i % ENTRIES_PER_SECTOR);
        assert i == j * ENTRIES_PER_SECTOR + i % ENTRIES_PER_SECTOR &&
               slot == j * ENTRIES_PER_SECTOR + slot % ENTRIES_PER_SECTOR;
      }
    }
    forall c: nat | 2 <= c && c != cluster && v.Start(c) + v.sectorsPerCluster <= |data|
      ensures SameCluster(v, after, data, c)
    {
      OthersUntouched(v, data, cluster, j, s, c);
    }
  }
}
