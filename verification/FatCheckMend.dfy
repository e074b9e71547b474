/** kernel/fat32.c: what the checker may do to a directory's slots while it walks them. */
module FatCheckMend {
  import opened Words
  import opened LittleEndian
  import opened FatTable
  import opened FatVolume
  import opened FatAllocation
  import opened FatContents
  import opened FatWrite
  import opened FatSlots
  import opened LongName
  import opened EntryReader
  import opened FatDirectory
  import opened FatEntries
  import opened FatCheck
  import opened FatSurvey
  import opened FatDeeds
  import opened FatRuns
  import opened FatCheckSlots

  // ---- One slot ------------------------------------------------------------------------------------------

  /** A short entry with another first cluster, or another size. */
  function Relinked(raw: Raw, link: Word): (r: Raw)
    ensures r[0] == raw[0]
  {
    raw[..20] + Bytes16(link / 0x1_0000) + raw[22..26] + Bytes16(link % 0x1_0000) + raw[28..]
  }

  function Resized(raw: Raw, size: Word): (r: Raw)
    ensures r[0] == raw[0]
  {
    raw[..28] + Bytes32(size)
  }

  lemma ResizedReads(raw: Raw, size: Word)
    ensures Resized(raw, size)[..28] == raw[..28] && Read32(Resized(raw, size), 28) == size
  {
    hide Bytes32;
    var r := Resized(raw, size);
    assert r[28..32] == Bytes32(size);
    Bytes32Read(size);
    assert forall i :: 0 <= i < 4 ==> r[28 + i] == r[28..32][i];
  }

  lemma RelinkedReads(raw: Raw, link: Word)
    ensures FirstOf(Relinked(raw, link)) == link
    ensures var r := Relinked(raw, link);
            r[..20] == raw[..20] && r[22..26] == raw[22..26] && r[28..] == raw[28..]
  {
    hide Bytes16;
    var r, high, low := Relinked(raw, link), Bytes16(link / 0x1_0000), Bytes16(link % 0x1_0000);
    assert r[20] == high[0] && r[21] == high[1] && r[26] == low[0] && r[27] == low[1];
    HalfRead(link / 0x1_0000);
    HalfRead(link % 0x1_0000);
  }

  lemma HalfRead(h: Half)
    ensures Read16(Bytes16(h), 0) == h
  {
  }

  /** Where "." and ".." are to point: the directory itself and its parent, the root being written as cluster 0. */
  function DotTarget(name: seq<Byte>, start: Word, parent: Word, root: nat): Word {
    if |name| == 2 then if parent == root then 0 else parent else start
  }

  function Redotted(raw: Raw, name: seq<Byte>, start: Word, parent: Word, root: nat): (r: Raw)
    ensures r[0] == raw[0]
  {
    var link := DotTarget(name, start, parent, root);
    if FirstOf(raw) == link then raw else Relinked(raw, link)
  }

  /** A file's entry after what was done to the file. */
  function Settled(d: Deed, raw: Raw): (r: Raw)
    ensures r[0] == raw[0]
  {
    if d.resize then Resized(raw, d.newSize) else raw
  }

  /** What one directory's pass started from: the volume as it was then and as the whole check found it, the
      directories walked before, and what had been done to files and long names. */
  datatype Pass = Pass(table: Table, data: seq<Sector>, seen: seq<bool>, start: Word, parent: Word, last: int,
                       repair: bool, budget: nat, apart: set<nat>, ground: Ground, walks: seq<seq<nat>>,
                       deeds: seq<Deed>, freed: set<Spot>, disk: seq<Sector>, hint: Word)

  function SpotIn(pass: Pass, k: nat, i: nat): Spot {
    Spot(|pass.walks|, k, i)
  }

  /** A short entry before and after: a label and a directory's entry stay as they are, "." and ".." are set right,
      and a file's entry keeps everything but a size that was corrected. */
  predicate ShortTreated(pass: Pass, deeds: seq<Deed>, spot: Spot, name: seq<Byte>, before: Raw, raw: Raw) {
    if !Real(before) then raw == before
    else if Dotted(name) then
      raw == if pass.repair then Redotted(before, name, pass.start, pass.parent, pass.ground.root) else before
    else if IsDirectory(before) then raw == before
    else exists d :: d in deeds && d.spot == spot && raw == Settled(d, before)
  }

  /** A slot before and after the pass has been over it: with repairs an end mark that hid something has become a
      deleted entry, and so has a piece of a long name that belongs to nothing. */
  predicate Treated(pass: Pass, deeds: seq<Deed>, freed: set<Spot>, spot: Spot, position: nat, name: seq<Byte>,
                    before: Raw, raw: Raw) {
    if before[0] == ENTRY_END then
      raw == if pass.repair && position < pass.last then before[0 := ENTRY_FREE] else before
    else if before[0] == ENTRY_FREE then raw == before
    else if IsLongName(before) then raw == if spot in freed then before[0 := ENTRY_FREE] else before
    else ShortTreated(pass, deeds, spot, name, before, raw)
  }

  /** Nothing comes to life and nothing becomes an end mark. */
  lemma TreatedMarks(pass: Pass, deeds: seq<Deed>, freed: set<Spot>, spot: Spot, position: nat, name: seq<Byte>,
                     before: Raw, raw: Raw)
    requires Treated(pass, deeds, freed, spot, position, name, before, raw)
    ensures if before[0] == ENTRY_END
            then raw[0] == if pass.repair && position < pass.last then ENTRY_FREE else ENTRY_END
            else raw[0] != ENTRY_END && (before[0] == ENTRY_FREE ==> raw[0] == ENTRY_FREE)
  {
    hide Real, Redotted, Settled, Dotted, IsDirectory, IsLongName;
  }

  // ---- The directory so far -----------------------------------------------------------------------------

  /** Slot t of cluster number j, when the pass has come to slot i of the last cluster of `ids`. */
  ghost predicate SlotMended(v: Volume, data: seq<Sector>, pass: Pass, ids: seq<nat>, i: nat, deeds: seq<Deed>,
                             freed: set<Spot>, j: nat, t: nat)
    requires Fits(v, data, ids) && Fits(v, pass.data, ids) && j < |ids| && t < PerCluster(v)
  {
    var before, raw := Slots(v, pass.data, ids[j])[t], Slots(v, data, ids[j])[t];
    if j + 1 < |ids| || t < i
    then Treated(pass, deeds, freed, SpotIn(pass, j, t), Numbered(v, j, t), NameAt(v, pass.data, ids, j, t), before,
                 raw)
    else raw == before
  }

  /** Every slot of the clusters before the last of `ids`, and the first i of that one, treated. */
  ghost predicate SlotsMended(v: Volume, data: seq<Sector>, pass: Pass, ids: seq<nat>, i: nat, deeds: seq<Deed>,
                              freed: set<Spot>) {
    |data| == |pass.data| && |ids| > 0 && Fits(v, data, ids) && Fits(v, pass.data, ids) &&
    forall j: nat, t: nat :: j < |ids| && t < PerCluster(v) ==> SlotMended(v, data, pass, ids, i, deeds, freed, j, t)
  }

  /** And nothing outside the directory changed. */
  ghost predicate Mended(v: Volume, data: seq<Sector>, pass: Pass, ids: seq<nat>, i: nat, deeds: seq<Deed>,
                         freed: set<Spot>) {
    SlotsMended(v, data, pass, ids, i, deeds, freed) && Distinct(ids) && i <= PerCluster(v) &&
    forall c: nat :: 2 <= c && c !in ids && v.Start(c) + v.sectorsPerCluster <= |data| ==>
        SameCluster(v, data, pass.data, c)
  }

  /** A file more accounted for changes nothing in what the slots are held against. */
  lemma MendedRecord(v: Volume, data: seq<Sector>, pass: Pass, ids: seq<nat>, i: nat, deeds: seq<Deed>,
                     more: seq<Deed>, freed: set<Spot>)
    requires Mended(v, data, pass, ids, i, deeds, freed) && deeds <= more
    ensures Mended(v, data, pass, ids, i, more, freed)
  {
    hide Slots, Times, Numbered, SlotMended;
    forall j: nat, t: nat | j < |ids| && t < PerCluster(v)
      ensures SlotMended(v, data, pass, ids, i, more, freed, j, t)
    {
      SlotRecord(v, data, pass, ids, i, deeds, more, freed, freed, j, t);
    }
  }

  lemma SlotRecord(v: Volume, data: seq<Sector>, pass: Pass, ids: seq<nat>, i: nat, deeds: seq<Deed>, more: seq<Deed>,
                   freed: set<Spot>, freed1: set<Spot>, j: nat, t: nat)
    requires Fits(v, data, ids) && Fits(v, pass.data, ids) && j < |ids| && t < PerCluster(v)
    requires SlotMended(v, data, pass, ids, i, deeds, freed, j, t) && deeds <= more
    requires SpotIn(pass, j, t) in freed <==> SpotIn(pass, j, t) in freed1
    ensures SlotMended(v, data, pass, ids, i, more, freed1, j, t)
  {
    hide Slots, Times, Numbered, Real, Dotted, IsDirectory, IsLongName, NameAt, Redotted, Settled;
    assert forall d :: d in deeds ==> d in more;
  }

  /** The slot depends on nothing but itself. */
  lemma SlotSame(v: Volume, data: seq<Sector>, other: seq<Sector>, pass: Pass, ids: seq<nat>, i: nat, i1: nat,
                 deeds: seq<Deed>, freed: set<Spot>, j: nat, t: nat)
    requires Fits(v, data, ids) && Fits(v, other, ids) && Fits(v, pass.data, ids) && j < |ids| && t < PerCluster(v)
    requires SlotMended(v, other, pass, ids, i, deeds, freed, j, t)
    requires Slots(v, data, ids[j])[t] == Slots(v, other, ids[j])[t] && (j + 1 < |ids| || (t < i <==> t < i1))
    ensures SlotMended(v, data, pass, ids, i1, deeds, freed, j, t)
  {
    hide Slots, Times, Numbered, NameAt, Treated;
  }

  /** Treating the next slot. */
  lemma MendedNext(v: Volume, data: seq<Sector>, before: seq<Sector>, pass: Pass, ids: seq<nat>, i: nat,
                   deeds: seq<Deed>, freed: set<Spot>, raw: Raw)
    requires Mended(v, before, pass, ids, i, deeds, freed) && i < PerCluster(v)
    requires SlotChanged(v, data, before, ids[|ids| - 1], Slots(v, before, ids[|ids| - 1])[i := raw])
    requires var last := |ids| - 1;
             Treated(pass, deeds, freed, SpotIn(pass, last, i), Numbered(v, last, i),
                     NameAt(v, pass.data, ids, last, i), Slots(v, pass.data, ids[last])[i], raw)
    ensures Mended(v, data, pass, ids, i + 1, deeds, freed)
  {
    hide Slots, Times, Treated, Numbered, NameAt, SlotMended;
    var last, next := |ids| - 1, i + 1;
    forall j: nat, t: nat | j < |ids| && t < PerCluster(v)
      ensures SlotMended(v, data, pass, ids, next, deeds, freed, j, t)
    {
      if j == last && t == i {
        SlotDone(v, data, pass, ids, i, deeds, freed);
      } else {
        if j < last {
          SameSlots(v, data, before, ids[j]);
        }
        SlotSame(v, data, before, pass, ids, i, next, deeds, freed, j, t);
      }
    }
    MendedOutside(v, data, before, pass, ids, ids[last]);
  }

  lemma SlotDone(v: Volume, data: seq<Sector>, pass: Pass, ids: seq<nat>, i: nat, deeds: seq<Deed>, freed: set<Spot>)
    requires Fits(v, data, ids) && Fits(v, pass.data, ids) && |ids| > 0 && i < PerCluster(v)
    requires var last := |ids| - 1;
             Treated(pass, deeds, freed, SpotIn(pass, last, i), Numbered(v, last, i),
                     NameAt(v, pass.data, ids, last, i), Slots(v, pass.data, ids[last])[i],
                     Slots(v, data, ids[last])[i])
    ensures SlotMended(v, data, pass, ids, i + 1, deeds, freed, |ids| - 1, i)
  {
    hide Slots, Times, Treated, Numbered, NameAt;
  }

  /** A piece of a long name already passed may still become a deleted slot. */
  lemma MendedFree(v: Volume, data: seq<Sector>, before: seq<Sector>, pass: Pass, ids: seq<nat>, i: nat,
                   deeds: seq<Deed>, freed: set<Spot>, k: nat, m: nat)
    requires Mended(v, before, pass, ids, i, deeds, freed) && pass.repair && k < |ids| && m < PerCluster(v) &&
             (k + 1 < |ids| || m < i)
    requires SlotChanged(v, data, before, ids[k], Slots(v, before, ids[k])[m := Slots(v, before,
             ids[k])[m][0 := ENTRY_FREE]])
    requires IsPiece(Slots(v, pass.data, ids[k])[m])
    ensures Mended(v, data, pass, ids, i, deeds, freed + {SpotIn(pass, k, m)})
  {
    hide Slots, Times, Treated, Numbered, NameAt, SlotMended, IsPiece;
    var more := freed + {SpotIn(pass, k, m)};
    forall j: nat, t: nat | j < |ids| && t < PerCluster(v)
      ensures SlotMended(v, data, pass, ids, i, deeds, more, j, t)
    {
      if j != k {
        SameSlots(v, data, before, ids[j]);
      }
      if j == k && t == m {
        SlotFreed(v, data, before, pass, ids, i, deeds, freed, k, m);
      } else {
        SlotRecord(v, before, pass, ids, i, deeds, deeds, freed, more, j, t);
        SlotSame(v, data, before, pass, ids, i, i, deeds, more, j, t);
      }
    }
    MendedOutside(v, data, before, pass, ids, ids[k]);
  }

  lemma SlotFreed(v: Volume, data: seq<Sector>, before: seq<Sector>, pass: Pass, ids: seq<nat>, i: nat,
                  deeds: seq<Deed>, freed: set<Spot>, k: nat, m: nat)
    requires Fits(v, data, ids) && Fits(v, before, ids) && Fits(v, pass.data, ids) && k < |ids| && m < PerCluster(v)
    requires SlotMended(v, before, pass, ids, i, deeds, freed, k, m) && (k + 1 < |ids| || m < i)
    requires Slots(v, data, ids[k])[m] == Slots(v, before, ids[k])[m][0 := ENTRY_FREE]
    requires IsPiece(Slots(v, pass.data, ids[k])[m])
    ensures SlotMended(v, data, pass, ids, i, deeds, freed + {SpotIn(pass, k, m)}, k, m)
  {
    hide Slots, Times, ShortTreated, Numbered, NameAt, IsLongName;
  }

  lemma MendedOutside(v: Volume, data: seq<Sector>, before: seq<Sector>, pass: Pass, ids: seq<nat>, cluster: nat)
    requires |data| == |before| == |pass.data| && cluster in ids
    requires forall c: nat :: 2 <= c && c != cluster && v.Start(c) + v.sectorsPerCluster <= |data| ==>
             SameCluster(v, data, before, c)
    requires forall c: nat :: 2 <= c && c !in ids && v.Start(c) + v.sectorsPerCluster <= |data| ==>
             SameCluster(v, before, pass.data, c)
    ensures forall c: nat :: 2 <= c && c !in ids && v.Start(c) + v.sectorsPerCluster <= |data| ==>
            SameCluster(v, data, pass.data, c)
  {
    hide Times;
    forall c: nat | 2 <= c && c !in ids && v.Start(c) + v.sectorsPerCluster <= |data|
      ensures SameCluster(v, data, pass.data, c)
    {
      assert SameCluster(v, data, before, c) && SameCluster(v, before, pass.data, c);
    }
  }

  /** On to the next cluster, when this one has been gone through. */
  lemma MendedOnward(v: Volume, data: seq<Sector>, pass: Pass, ids: seq<nat>, deeds: seq<Deed>, freed: set<Spot>,
                     following: nat)
    requires Mended(v, data, pass, ids, PerCluster(v), deeds, freed) && following !in ids && 2 <= following
    requires v.Start(following) + v.sectorsPerCluster <= |data|
    ensures Mended(v, data, pass, ids + [following], 0, deeds, freed)
  {
    hide Times, Slots, Numbered, SlotMended, NameAt;
    var longer := ids + [following];
    assert longer[|ids|] == following;
    SameSlots(v, data, pass.data, following);
    assert forall j :: 0 <= j < |ids| ==> longer[j] == ids[j];
    forall j: nat, t: nat | j < |longer| && t < PerCluster(v)
      ensures SlotMended(v, data, pass, longer, 0, deeds, freed, j, t)
    {
      SlotOnward(v, data, pass, ids, longer, deeds, freed, j, t);
    }
    forall c: nat | 2 <= c && c !in longer && v.Start(c) + v.sectorsPerCluster <= |data|
      ensures SameCluster(v, data, pass.data, c)
    {
      assert c !in ids;
    }
  }

  lemma SlotOnward(v: Volume, data: seq<Sector>, pass: Pass, ids: seq<nat>, longer: seq<nat>, deeds: seq<Deed>,
                   freed: set<Spot>, j: nat, t: nat)
    requires Fits(v, data, longer) && Fits(v, pass.data, longer) && j < |longer| && t < PerCluster(v)
    requires Fits(v, data, ids) && Fits(v, pass.data, ids) && |longer| == |ids| + 1 && ids == longer[..|ids|]
    requires j < |ids| ==> SlotMended(v, data, pass, ids, PerCluster(v), deeds, freed, j, t)
    requires Slots(v, data, longer[|ids|]) == Slots(v, pass.data, longer[|ids|])
    ensures SlotMended(v, data, pass, longer, 0, deeds, freed, j, t)
  {
    hide Slots, Times, Numbered, Treated, PartialAt;
    if j < |ids| {
      assert longer[j] == ids[j];
      PartialPrefix(v, pass.data, ids, longer, j, t);
    }
  }

  lemma MendedStart(v: Volume, pass: Pass, start: nat)
    requires 0 < v.sectorsPerCluster && 2 <= start && v.Start(start) + v.sectorsPerCluster <= |pass.data|
    ensures Mended(v, pass.data, pass, [start], 0, pass.deeds, pass.freed)
  {
    hide Slots, Times, Treated, NameAt;
  }

  // ---- The sector in hand -------------------------------------------------------------------

  /** The volume's data as it will be once the sector in hand is written back. */
  function InHand(data: seq<Sector>, at: nat, sector: Sector): (d: seq<Sector>)
    ensures |d| == |data|
  {
    Overlaid(data, at, [sector])
  }

  lemma InHandSlot(v: Volume, data: seq<Sector>, cluster: nat, j: nat, sector: Sector, slot: nat, raw: Raw)
    requires 2 <= cluster && v.Start(cluster) + v.sectorsPerCluster <= |data| && j < v.sectorsPerCluster &&
             slot < ENTRIES_PER_SECTOR
    ensures var at, i := v.Start(cluster) + j, j * ENTRIES_PER_SECTOR + slot;
            i < PerCluster(v) && Slots(v, InHand(data, at, sector), cluster)[i] == SlotIn(sector, slot) &&
            SlotChanged(v, InHand(data, at, SlotPut(sector, slot, raw)), InHand(data, at, sector), cluster,
                        Slots(v, InHand(data, at, sector), cluster)[i := raw])
  {
    hide SlotPut, SlotIn, Times;
    var at, i := v.Start(cluster) + j, j * ENTRIES_PER_SECTOR + slot;
    var eff := InHand(data, at, sector);
    assert i / ENTRIES_PER_SECTOR == j && i % ENTRIES_PER_SECTOR == slot;
    PatchedSlots(v, eff, cluster, i, raw);
    assert eff[at] == sector;
    OverlaidTwice(data, at, sector, SlotPut(sector, slot, raw));
  }

  lemma OverlaidTwice(data: seq<Sector>, at: nat, s: Sector, t: Sector)
    ensures Overlaid(Overlaid(data, at, [s]), at, [t]) == Overlaid(data, at, [t])
  {
  }

  lemma OverlaidApart(data: seq<Sector>, at: nat, s: Sector, other: nat, t: Sector)
    requires at != other && at < |data| && other < |data|
    ensures Overlaid(Overlaid(data, other, [t]), at, [s]) == Overlaid(Overlaid(data, at, [s]), other, [t])
    ensures Overlaid(data, at, [s])[other] == data[other]
  {
    var a, b := Overlaid(Overlaid(data, other, [t]), at, [s]), Overlaid(Overlaid(data, at, [s]), other, [t]);
    forall i | 0 <= i < |data|
      ensures a[i] == b[i]
    {
    }
  }

  /** Marking a slot deleted in a sector that is not the one in hand. */
  lemma InHandElsewhere(v: Volume, data: seq<Sector>, at: nat, sector: Sector, cluster: nat, i: nat)
    requires 2 <= cluster && v.Start(cluster) + v.sectorsPerCluster <= |data| && i < PerCluster(v) && at < |data|
    requires v.Start(cluster) + i / ENTRIES_PER_SECTOR != at
    ensures var other, slot, eff := v.Start(cluster) + i / ENTRIES_PER_SECTOR, i % ENTRIES_PER_SECTOR,
            InHand(data, at, sector);
            SlotChanged(v, InHand(Overlaid(data, other, [data[other][slot * SLOT_SIZE := ENTRY_FREE]]), at, sector),
            eff, cluster,
                        Slots(v, eff, cluster)[i := Slots(v, eff, cluster)[i][0 := ENTRY_FREE]])
  {
    hide SlotPut, SlotIn, Times, Overlaid, Slots, SlotChanged;
    var other, slot, eff := v.Start(cluster) + i / ENTRIES_PER_SECTOR, i % ENTRIES_PER_SECTOR, InHand(data, at, sector);
    OverlaidApart(data, at, sector, other, data[other][slot * SLOT_SIZE := ENTRY_FREE]);
    SlotOf(v, eff, cluster, i);
    PatchedSlots(v, eff, cluster, i, SlotIn(eff[other], slot)[0 := ENTRY_FREE]);
    MarkedSector(eff[other], slot);
  }

  lemma SlotOf(v: Volume, data: seq<Sector>, cluster: nat, i: nat)
    requires 2 <= cluster && v.Start(cluster) + v.sectorsPerCluster <= |data| && i < PerCluster(v)
    ensures Slots(v, data, cluster)[i] == SlotIn(data[v.Start(cluster) + i / ENTRIES_PER_SECTOR],
            i % ENTRIES_PER_SECTOR)
  {
  }
}
