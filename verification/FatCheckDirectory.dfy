/** kernel/fat32.c: the checker's walk over one directory. */
module FatCheckDirectory {
  import opened Words
  import opened LittleEndian
  import opened FatTable
  import opened FatVolume
  import opened FatAllocation
  import opened FatContents
  import opened FatWrite
  import opened FatSlots
  import opened LongName
  import opened EntryReader
  import opened FatDirectory
  import opened FatEntries
  import opened FatCheck
  import ShortNames
  import opened FatSurvey
  import opened FatDeeds
  import opened FatRuns
  import opened FatCheckFile
  import opened FatCheckSlots
  import opened FatCheckMend

  /** The long-name slots met since the last short entry, and the name they make. */
  datatype LongRun = LongRun(name: Partial, slots: seq<(nat, nat)>)

  /** Where each of those slots is: pieces the pass has already been over. */
  ghost predicate RunIs(v: Volume, pass: Pass, ids: seq<nat>, i: nat, run: LongRun, at: seq<(nat, nat)>) {
    |run.slots| == |at| <= CHECK_LONG_RUN_MAX && Fits(v, pass.data, ids) && |ids| > 0 && i <= PerCluster(v) &&
    at == RunAt(v, pass.data, ids, |ids| - 1, i) &&
    forall r :: 0 <= r < |at| ==>
      var (k, m) := at[r];
      k < |ids| && m < PerCluster(v) && (k + 1 < |ids| || m < i) && IsPiece(Slots(v, pass.data, ids[k])[m]) &&
      run.slots[r] == (v.FirstSector(ids[k]) + m / ENTRIES_PER_SECTOR, m % ENTRIES_PER_SECTOR * SLOT_SIZE)
  }

  /** With repairs exactly the pieces so far that belong to nothing have been marked deleted. */
  ghost predicate FreedIs(v: Volume, pass: Pass, ids: seq<nat>, i: nat, freed: set<Spot>) {
    Fits(v, pass.data, ids) && |ids| > 0 && i <= PerCluster(v) &&
    forall k: nat, m: nat ::
      SpotIn(pass, k, m) in freed <==> pass.repair && (k, m) in FreedAt(v, pass.data, ids, |ids| - 1, i)
  }

  /** What was done before the pass began stays on record. */
  ghost predicate LogKept(pass: Pass, deeds: seq<Deed>, freed: set<Spot>) {
    pass.deeds <= deeds && forall s: Spot :: s.walk != |pass.walks| ==> (s in freed <==> s in pass.freed)
  }

  /** What the pass keeps of the table and the marks: only entries of clusters marked since it began, and not the
      directory's own, have changed; nothing is unmarked; and every directory queued has used up a mark. */
  ghost predicate KeptAs(t: Table, seen: seq<bool>, queued: nat, pass: Pass, ids: seq<nat>) {
    |t| == |pass.table| && |seen| == |pass.seen| <= |t| && (!pass.repair ==> t == pass.table) &&
    (forall x: nat :: x < |t| && t[x] != pass.table[x] ==> x < |seen| && seen[x] && x !in ids && !pass.seen[x]) &&
    (forall x: nat :: x < |seen| && pass.seen[x] ==> seen[x]) &&
    (forall j :: 0 <= j < |ids| ==> ids[j] < |seen| && seen[ids[j]]) &&
    Unmarked(seen) + queued <= pass.budget
  }

  /** Every directory queued is a cluster of the volume that has been marked. */
  ghost predicate Queued(queue: seq<Directory>, seen: seq<bool>) {
    forall q :: 0 <= q < |queue| ==>
      InRange(queue[q].cluster, |seen|) && seen[queue[q].cluster] && InRange(queue[q].parent, |seen|)
  }

  /** The sectors in front of the table are as they were, and without repairs every sector is: nothing has been
      waiting to be written. */
  ghost predicate DiskHeld(v: Volume, repair: bool, disk: seq<Sector>, hint: Word)
    reads v.disk, v`cacheDirty, v`searchHint
  {
    v.reserved <= |disk| == v.disk.Length && v.disk[..v.reserved] == disk[..v.reserved] &&
    (!repair ==> !v.cacheDirty && v.disk[..] == disk && v.searchHint == hint)
  }

  ghost predicate Kept(c: Check, pass: Pass, ids: seq<nat>)
    reads c`queue, c`deeds, c`freed, c.seen, c.fat`table, c.fat`apart, c.fat.disk, c.fat`cacheDirty,
          c.fat`searchHint
  {
    DiskHeld(c.fat, pass.repair, pass.disk, pass.hint) && Tracked(c, pass, ids)
  }

  ghost predicate Tracked(c: Check, pass: Pass, ids: seq<nat>)
    reads c`queue, c`deeds, c`freed, c.seen, c.fat`table, c.fat`apart
  {
    c.fat.apart <= pass.apart && pass.repair == c.repair && |pass.seen| == c.fat.Total() && pass.budget <= BAD &&
    LogKept(pass, c.deeds, c.freed) && KeptAs(c.fat.table, c.seen[..], |c.queue|, pass, ids) &&
    Queued(c.queue, c.seen[..])
  }

  /** In the middle of a sector: the slots before number `slot` of it have been treated, on the disk or in hand. */
  ghost predicate MidSector(v: Volume, data: seq<Sector>, pass: Pass, ids: seq<nat>, j: nat, slot: nat, sector: Sector,
                            dirty: bool, run: LongRun, at: seq<(nat, nat)>, deeds: seq<Deed>, freed: set<Spot>) {
    |ids| > 0 && (forall k :: 0 <= k < |ids| ==> InRange(ids[k], v.Total())) && j < v.sectorsPerCluster &&
    slot <= ENTRIES_PER_SECTOR &&
    v.Start(ids[|ids| - 1]) + v.sectorsPerCluster <= |data| &&
    Mended(v, InHand(data, v.Start(ids[|ids| - 1]) + j, sector), pass, ids, j * ENTRIES_PER_SECTOR + slot,
           deeds, freed) &&
    RunIs(v, pass, ids, j * ENTRIES_PER_SECTOR + slot, run, at) &&
    (!pass.repair ==> !dirty && data == pass.data) && (!dirty ==> sector == data[v.Start(ids[|ids| - 1]) + j])
  }

  ghost predicate Midway(c: Check, pass: Pass, ids: seq<nat>, j: nat, slot: nat, sector: Sector, dirty: bool,
                         run: LongRun, at: seq<(nat, nat)>)
    reads c`queue, c`queueRead, c`deeds, c`freed, c.fat, c.fat.disk, c.fat.cache, c.seen
  {
    c.Valid() && c.fat.Geometry() && Kept(c, pass, ids) &&
    MidSector(c.fat, c.fat.Data(), pass, ids, j, slot, sector, dirty, run, at, c.deeds, c.freed)
  }

  // ---- Slots without side effects ---------------------------------------------------------------

  /** What slot i of the cluster in hand is to become. */
  ghost predicate TreatedHere(v: Volume, pass: Pass, ids: seq<nat>, i: nat, deeds: seq<Deed>, freed: set<Spot>,
                              raw: Raw) {
    |ids| > 0 && Fits(v, pass.data, ids) && i < PerCluster(v) &&
    var last := |ids| - 1;
    Treated(pass, deeds, freed, SpotIn(pass, last, i), Numbered(v, last, i), NameAt(v, pass.data, ids, last, i),
            Slots(v, pass.data, ids[last])[i], raw)
  }

  /** The slot in hand, replaced by what the checker makes of it. */
  lemma SlotTreated(c: Check, pass: Pass, ids: seq<nat>, j: nat, slot: nat, sector: Sector, dirty: bool, run: LongRun,
                    at: seq<(nat, nat)>, raw: Raw, changed: bool, run1: LongRun, at1: seq<(nat, nat)>)
    requires Midway(c, pass, ids, j, slot, sector, dirty, run, at) && slot < ENTRIES_PER_SECTOR
    requires if changed then pass.repair else raw == SlotIn(sector, slot)
    requires RunIs(c.fat, pass, ids, j * ENTRIES_PER_SECTOR + slot + 1, run1, at1)
    requires TreatedHere(c.fat, pass, ids, j * ENTRIES_PER_SECTOR + slot, c.deeds, c.freed, raw)
    ensures Midway(c, pass, ids, j, slot + 1, if changed then SlotPut(sector, slot, raw) else sector, dirty || changed,
            run1, at1)
  {
    hide Slots, Times, Treated, Numbered, NameAt, SlotPut, SlotIn, Overlaid, RunIs, Kept, Check.Valid, Mended,
         SlotChanged, Volume.Valid, InHand;
    var v, last := c.fat, ids[|ids| - 1];
    var data, place, i := v.Data(), v.Start(last) + j, j * ENTRIES_PER_SECTOR + slot;
    InHandSlot(v, data, last, j, sector, slot, raw);
    if !changed {
      SamePut(sector, slot);
    }
    MendedNext(v, InHand(data, place, SlotPut(sector, slot, raw)), InHand(data, place, sector), pass, ids, i, c.deeds,
        c.freed, raw);
  }

  lemma SamePut(s: Sector, slot: nat)
    requires slot < ENTRIES_PER_SECTOR
    ensures SlotPut(s, slot, SlotIn(s, slot)) == s
  {
  }

  /** What the slot in hand was when the pass began. */
  lemma SlotBefore(c: Check, pass: Pass, ids: seq<nat>, j: nat, slot: nat, sector: Sector, dirty: bool, run: LongRun,
                   at: seq<(nat, nat)>)
    requires Midway(c, pass, ids, j, slot, sector, dirty, run, at) && slot < ENTRIES_PER_SECTOR
    ensures var i := j * ENTRIES_PER_SECTOR + slot;
            i < PerCluster(c.fat) && Fits(c.fat, pass.data, ids) && SlotIn(sector, slot) == Slots(c.fat, pass.data,
            ids[|ids| - 1])[i]
  {
    hide Slots, Times, Numbered, SlotPut, SlotIn, Overlaid, RunIs, Kept, Check.Valid, SlotChanged, Treated, NameAt;
    var v, last := c.fat, ids[|ids| - 1];
    InHandSlot(v, v.Data(), last, j, sector, slot, SlotIn(sector, slot));
    var i := j * ENTRIES_PER_SECTOR + slot;
    assert SlotMended(v, InHand(v.Data(), v.Start(last) + j, sector), pass, ids, i, c.deeds, c.freed, |ids| - 1, i);
  }

  // ---- Long names that belong to nothing -----------------------------------------------------------

  /** Two slots in the same sector are in the same cluster. */
  lemma SameSectorSameCluster(v: Volume, c: nat, i: nat, d: nat, j: nat)
    requires 2 <= c && 2 <= d && i < v.sectorsPerCluster && j < v.sectorsPerCluster && v.Start(c) + i == v.Start(d) + j
    ensures c == d && i == j
  {
    if c < d {
      StartsApart(v, c, d);
    } else if d < c {
      StartsApart(v, d, c);
    }
  }

  /** One slot of the run, in the sector in hand. */
  lemma FreedInHand(c: Check, pass: Pass, ids: seq<nat>, j: nat, slot: nat, sector: Sector, dirty: bool, run: LongRun,
                    at: seq<(nat, nat)>, r: nat)
    requires Midway(c, pass, ids, j, slot, sector, dirty, run, at) && r < |at| && pass.repair
    requires run.slots[r].0 == c.fat.FirstSector(ids[|ids| - 1]) + j
    ensures run.slots[r].1 < SECTOR_SIZE
    ensures MidSector(c.fat, c.fat.Data(), pass, ids, j, slot, sector[run.slots[r].1 := ENTRY_FREE], true, run, at,
                      c.deeds, c.freed + {SpotIn(pass, at[r].0, at[r].1)})
  {
    hide Slots, Times, Numbered, SlotPut, SlotIn, Overlaid, Kept, Check.Valid, Mended, SlotChanged, Volume.Valid,
         InHand, Volume.Start, RunAt, IsPiece;
    var v, last := c.fat, ids[|ids| - 1];
    var (k, m) := at[r];
    SameSectorSameCluster(v, ids[k], m / ENTRIES_PER_SECTOR, last, j);
    DistinctSame(c, pass, ids, k, sector, j, slot);
    var data, place, w := v.Data(), v.Start(last) + j, m % ENTRIES_PER_SECTOR;
    assert m == j * ENTRIES_PER_SECTOR + w;
    MarkedSector(sector, w);
    InHandSlot(v, data, last, j, sector, w, SlotIn(sector, w)[0 := ENTRY_FREE]);
    MendedFree(v, InHand(data, place, SlotPut(sector, w, SlotIn(sector, w)[0 := ENTRY_FREE])),
        InHand(data, place, sector), pass, ids, j * ENTRIES_PER_SECTOR + slot, c.deeds, c.freed, k, m);
  }

  lemma DistinctSame(c: Check, pass: Pass, ids: seq<nat>, k: nat, sector: Sector, j: nat, slot: nat)
    requires c.fat.Geometry() && |ids| > 0 && k < |ids| && 2 <= ids[|ids| - 1] && ids[k] == ids[|ids| - 1]
    requires Mended(c.fat, InHand(c.fat.Data(), c.fat.Start(ids[|ids| - 1]) + j, sector), pass, ids,
                    j * ENTRIES_PER_SECTOR + slot, c.deeds, c.freed)
    ensures k == |ids| - 1
  {
    hide SlotsMended, Times;
  }

  /** One slot of the run on record as marked deleted. */
  ghost method RecordFreed(c: Check, pass: Pass, ids: seq<nat>, j: nat, slot: nat, sector: Sector, dirty: bool,
                           run: LongRun, at: seq<(nat, nat)>, spot: Spot)
    requires c.Valid() && c.fat.Geometry() && Kept(c, pass, ids) && spot.walk == |pass.walks|
    requires MidSector(c.fat, c.fat.Data(), pass, ids, j, slot, sector, dirty, run, at, c.deeds, c.freed + {spot})
    modifies c`freed
    ensures Midway(c, pass, ids, j, slot, sector, dirty, run, at) && c.freed == old(c.freed) + {spot}
  {
    hide MidSector, KeptAs, Queued, Volume.Valid, Volume.Geometry;
    c.freed := c.freed + {spot};
  }

  /** One slot of the run, in a sector already written back. */
  method FreeElsewhere(c: Check, number: nat, offset: nat, ghost pass: Pass, ghost ids: seq<nat>, ghost j: nat,
                       ghost slot: nat, ghost sector: Sector, ghost dirty: bool, ghost run: LongRun,
                       ghost at: seq<(nat, nat)>, ghost r: nat)
    requires Midway(c, pass, ids, j, slot, sector, dirty, run, at) && r < |at| && pass.repair &&
             run.slots[r] == (number, offset)
    requires number != c.fat.FirstSector(ids[|ids| - 1]) + j
    modifies c.fat.disk
    ensures c.Valid() && c.fat.Geometry() && Kept(c, pass, ids)
    ensures MidSector(c.fat, c.fat.Data(), pass, ids, j, slot, sector, dirty, run, at, c.deeds,
                      c.freed + {SpotIn(pass, at[r].0, at[r].1)})
    ensures c.fat.disk[..c.fat.reserved] == old(c.fat.disk[..c.fat.reserved])
  {
    hide Slots, Times, Numbered, SlotPut, SlotIn, Overlaid, Tracked, Mended, SlotChanged, InHand, Volume.Start,
         Volume.Cached, Volume.Stored, Volume.Walked, RunAt, IsPiece;
    ghost var v, last := c.fat, ids[|ids| - 1];
    ghost var (k, m) := at[r];
    c.fat.ClusterInside(ids[k]);
    ghost var data, place := v.Data(), v.Start(last) + j;
    MidFits(v, InHand(data, place, sector), pass, ids, j * ENTRIES_PER_SECTOR + slot, c.deeds, c.freed);
    var marked := MarkEntryFree(c.fat, number, offset);
    OverlaidOther(data, v.Start(ids[k]) + m / ENTRIES_PER_SECTOR,
        data[v.Start(ids[k]) + m / ENTRIES_PER_SECTOR][offset := ENTRY_FREE], place);
    FreedThere(v, data, v.Data(), pass, ids, place, sector, offset, j * ENTRIES_PER_SECTOR + slot, c.deeds, c.freed,
        k, m);
  }

  lemma FreedThere(v: Volume, data: seq<Sector>, after: seq<Sector>, pass: Pass, ids: seq<nat>, place: nat,
                   sector: Sector, offset: nat, i: nat, deeds: seq<Deed>, freed: set<Spot>, k: nat, m: nat)
    requires Mended(v, InHand(data, place, sector), pass, ids, i, deeds, freed) && pass.repair && place < |data|
    requires k < |ids| && m < PerCluster(v) && (k + 1 < |ids| || m < i) && Fits(v, pass.data, ids)
    requires |data| == |pass.data| && IsPiece(Slots(v, pass.data, ids[k])[m])
    requires v.Start(ids[k]) + m / ENTRIES_PER_SECTOR != place && offset == m % ENTRIES_PER_SECTOR * SLOT_SIZE
    requires var other := v.Start(ids[k]) + m / ENTRIES_PER_SECTOR;
             after == Overlaid(data, other, [data[other][offset := ENTRY_FREE]])
    ensures Mended(v, InHand(after, place, sector), pass, ids, i, deeds, freed + {SpotIn(pass, k, m)})
  {
    hide Slots, Times, SlotsMended, SlotChanged, InHand, Volume.Start, IsPiece;
    InHandElsewhere(v, data, place, sector, ids[k], m);
    MendedFree(v, InHand(after, place, sector), InHand(data, place, sector), pass, ids, i, deeds, freed, k, m);
  }

  lemma MidFits(v: Volume, data: seq<Sector>, pass: Pass, ids: seq<nat>, i: nat, deeds: seq<Deed>, freed: set<Spot>)
    requires Mended(v, data, pass, ids, i, deeds, freed)
    ensures Fits(v, pass.data, ids) && |data| == |pass.data|
  {
    hide SlotMended, Times;
  }

  lemma OverlaidOther(data: seq<Sector>, other: nat, t: Sector, at: nat)
    requires at != other && at < |data|
    ensures Overlaid(data, other, [t])[at] == data[at]
  {
  }

  /** The run that belonged to nothing, marked deleted slot by slot. */
  method FreeRun(c: Check, number: nat, sector0: Sector, run: LongRun, ghost pass: Pass, ghost ids: seq<nat>,
                 ghost j: nat, ghost slot: nat, ghost dirty0: bool, ghost at: seq<(nat, nat)>)
    returns (sector: Sector, dirty: bool)
    requires Midway(c, pass, ids, j, slot, sector0, dirty0, run, at) && pass.repair &&
             number == c.fat.FirstSector(ids[|ids| - 1]) + j
    modifies c.fat.disk, c`freed
    ensures Midway(c, pass, ids, j, slot, sector, dirty || dirty0, run, at) && (!dirty ==> sector == sector0)
    ensures c.fat.disk[..c.fat.reserved] == old(c.fat.disk[..c.fat.reserved])
    ensures c.freed == old(c.freed) + Spots(pass, at, |at|)
  {
    hide Midway, MidSector, Kept, RunIs, Volume.Valid, Volume.Geometry, Volume.Start, Volume.Data, Times, Spots,
         Volume.FirstSector;
    sector, dirty := sector0, false;
    MidwayFacts(c, pass, ids, j, slot, sector0, dirty0, run, at);
    SpotsNone(pass, at);
    for r := 0 to |run.slots|
      invariant Midway(c, pass, ids, j, slot, sector, dirty || dirty0, run, at) && (!dirty ==> sector == sector0)
      invariant c.fat.disk[..c.fat.reserved] == old(c.fat.disk[..c.fat.reserved])
      invariant c.freed == old(c.freed) + Spots(pass, at, r)
    {
      MidwayFacts(c, pass, ids, j, slot, sector, dirty || dirty0, run, at);
      if run.slots[r].0 == number {
        FreedInHand(c, pass, ids, j, slot, sector, dirty || dirty0, run, at, r);
        sector, dirty := sector[run.slots[r].1 := ENTRY_FREE], true;
      } else {
        FreeElsewhere(c, run.slots[r].0, run.slots[r].1, pass, ids, j, slot, sector, dirty || dirty0, run, at, r);
      }
      RecordFreed(c, pass, ids, j, slot, sector, dirty || dirty0, run, at, SpotIn(pass, at[r].0, at[r].1));
      SpotsNext(pass, at, r);
    }
  }

  /** The first n slots of a run, on record. */
  ghost function Spots(pass: Pass, at: seq<(nat, nat)>, n: nat): set<Spot>
    requires n <= |at|
  {
    set r | 0 <= r < n :: SpotIn(pass, at[r].0, at[r].1)
  }

  lemma SpotsNone(pass: Pass, at: seq<(nat, nat)>)
    ensures Spots(pass, at, 0) == {}
  {
  }

  lemma SpotsNext(pass: Pass, at: seq<(nat, nat)>, n: nat)
    requires n < |at|
    ensures Spots(pass, at, n + 1) == Spots(pass, at, n) + {SpotIn(pass, at[n].0, at[n].1)}
  {
  }

  lemma MidwayFacts(c: Check, pass: Pass, ids: seq<nat>, j: nat, slot: nat, sector: Sector, dirty: bool, run: LongRun,
                    at: seq<(nat, nat)>)
    requires Midway(c, pass, ids, j, slot, sector, dirty, run, at)
    ensures c.Valid() && c.fat.Geometry() && c.fat.reserved <= c.fat.disk.Length && |run.slots| == |at| && |ids| > 0 &&
            2 <= ids[|ids| - 1]
    ensures Kept(c, pass, ids) && MidSector(c.fat, c.fat.Data(), pass, ids, j, slot, sector, dirty, run, at, c.deeds,
            c.freed)
    ensures RunIs(c.fat, pass, ids, j * ENTRIES_PER_SECTOR + slot, run, at) && c.fat.Total() == c.seen.Length
  {
  }

  // ---- The search so far ------------------------------------------------------------------------------

  /** The directory's slots are those the whole check found. */
  ghost predicate SameRead(v: Volume, pass: Pass, ids: seq<nat>) {
    SameDirectory(v, pass.data, pass.ground.data, ids)
  }

  /** Everything so far is accounted for, the check is complete unless memory has given out, and this is the name put
      together up to slot i of the cluster in hand. */
  ghost predicate Searching(c: Check, pass: Pass, ids: seq<nat>, i: nat, name: Partial)
    reads c`queue, c`queueLimit, c`asked, c`complete, c`crossed, c`deeds, c.fat`table, c.seen
  {
    Accounted(c.fat, pass.ground, c.repair, Now(c, pass.walks + [ids], i, true), c.deeds) && c.Roomy() &&
    SameRead(c.fat, pass, ids) && |ids| > 0 && i <= PerCluster(c.fat) && name == PartialAt(c.fat, pass.ground.data,
    ids, |ids| - 1, i)
  }

  lemma SearchingFacts(c: Check, pass: Pass, ids: seq<nat>, i: nat, name: Partial)
    requires Searching(c, pass, ids, i, name)
    ensures |ids| > 0 && SameRead(c.fat, pass, ids) && i <= PerCluster(c.fat) &&
            |c.seen[..]| == c.fat.Total() <= |c.fat.table|
    ensures c.fat.Total() <= BAD && |c.queue| > |pass.walks|
    ensures var f := Now(c, pass.walks + [ids], i, true); f.walks[|f.walks| - 1] == ids && |f.walks| == |pass.walks| + 1
  {
    hide Slots, PartialAt, EntriesFollowed, LinksFollowed, MarksMeant, WalksFresh, WalksWhole, Confined, WalksApart,
         Times;
  }

  /** The name after this slot. */
  lemma NamedNext(v: Volume, data: seq<Sector>, ids: seq<nat>, k: nat, i: nat)
    requires Fits(v, data, ids) && k < |ids| && i < PerCluster(v)
    ensures PartialAt(v, data, ids, k, i + 1) == Named(PartialAt(v, data, ids, k, i), Slots(v, data, ids[k])[i])
  {
  }

  /** A slot that leads nowhere. */
  lemma SearchedNothing(c: Check, pass: Pass, ids: seq<nat>, i: nat, name: Partial, raw: Raw)
    requires Searching(c, pass, ids, i, name) && i < PerCluster(c.fat) && |ids| > 0 && Fits(c.fat, pass.data, ids)
    requires raw == Slots(c.fat, pass.data, ids[|ids| - 1])[i]
    requires !Real(raw) || Dotted(NameOf(name, raw)) || !InRange(FirstOf(raw), c.fat.Total())
    ensures Searching(c, pass, ids, i + 1, Named(name, raw))
  {
    hide Slots, PartialAt, Accounted, Named, NameOf, Real, FirstOf, Dotted;
    SearchingFacts(c, pass, ids, i, name);
    var f := Now(c, pass.walks + [ids], i, true);
    LeadsNowhere(c.fat, pass.ground.data, ids, |ids| - 1, i);
    NamedNext(c.fat, pass.ground.data, ids, |ids| - 1, i);
    AccountedSkip(c.fat, pass.ground, c.repair, f, c.deeds);
    assert f.(i := i + 1) == Now(c, pass.walks + [ids], i + 1, true);
  }

  // ---- Files and directories ------------------------------------------------------------------------

  /** A file's chain walked, and perhaps cut: everything the pass keeps is kept. */
  lemma KeptFile(pass: Pass, ids: seq<nat>, t: Table, seen: seq<bool>, queued: nat, u: Table, after: seq<bool>,
                 file: seq<nat>)
    requires KeptAs(t, seen, queued, pass, ids) && |u| == |t| && after == Marked(seen, file) &&
             Unmarked(after) <= Unmarked(seen)
    requires forall i :: 0 <= i < |file| ==> file[i] < |seen| && !seen[file[i]]
    requires u == t || (pass.repair && forall x: nat :: x < |t| && x !in file ==> u[x] == t[x])
    ensures KeptAs(u, after, queued, pass, ids)
  {
    hide Unmarked;
  }

  lemma QueuedMarked(queue: seq<Directory>, seen: seq<bool>, file: seq<nat>)
    requires Queued(queue, seen)
    ensures Queued(queue, Marked(seen, file))
  {
  }

  /** A file: what the pass keeps is kept, its clusters are marked, and what was done to it goes on record. */
  method CheckFileEntry(c: Check, raw: Raw, ghost pass: Pass, ghost ids: seq<nat>, ghost i: nat, ghost name: Partial)
    returns (resize: bool, newSize: Word)
    requires c.Valid() && Kept(c, pass, ids) && Searching(c, pass, ids, i, name)
    requires i < PerCluster(c.fat) && |ids| > 0 && Fits(c.fat, pass.data, ids) &&
             raw == Slots(c.fat, pass.data, ids[|ids| - 1])[i]
    requires Real(raw) && !Dotted(NameOf(name, raw)) && !IsDirectory(raw)
    modifies c.fat, c.fat.disk, c.fat.cache, c.seen, c`faults, c`repaired, c`files, c`bytesInFiles, c`deeds
    ensures c.Valid() && Kept(c, pass, ids) && c.fat.Elsewhere() == old(c.fat.Elsewhere()) && (resize ==> c.repair)
    ensures Unmarked(c.seen[..]) <= Unmarked(old(c.seen[..])) && (old(c.fat.Exact()) ==> c.fat.Exact())
    ensures Searching(c, pass, ids, i + 1, Named(name, raw)) && old(c.deeds) <= c.deeds
    ensures exists d :: d in c.deeds && d.spot == SpotIn(pass, |ids| - 1, i) &&
              Settled(d, raw) == if resize then Resized(raw, newSize) else raw
  {
    hide Volume.Cached, Volume.Stored, Volume.Walked, Volume.Exact, KeptAs, Unmarked, FirstOf, Read32, Accounted, Slots,
         PartialAt, FileTreated, Named, Real, NameOf, Dotted, IsDirectory, Marked, SameRead, LogKept, Resized,
         Check.Roomy;
    ghost var before := Now(c, pass.walks + [ids], i, true);
    SearchingFacts(c, pass, ids, i, name);
    ghost var file;
    resize, newSize, file := CheckFile(c, FirstOf(raw), Read32(raw, 28));
    ghost var d := Deed(SpotIn(pass, |ids| - 1, i), before, c.fat.table, c.seen[..], file, resize, newSize);
    KeptDeed(c.fat, pass, ids, c.repair, |c.queue|, c.queue, d, FirstOf(raw), Read32(raw, 28));
    FileAccounted(c.fat, pass, c.repair, d, ids, i, name, raw, c.deeds);
    LogMore(pass, c.deeds, c.freed, d);
    c.deeds := c.deeds + [d];
    assert After(d) == Now(c, pass.walks + [ids], i + 1, true);
    assert d in c.deeds;
  }

  lemma KeptDeed(v: Volume, pass: Pass, ids: seq<nat>, repair: bool, queued: nat, queue: seq<Directory>, d: Deed,
                 first: Word, size: Word)
    requires KeptAs(d.before.table, d.before.seen, queued, pass, ids) && Queued(queue, d.before.seen)
    requires v.Total() == |d.before.seen| <= |d.before.table| && v.Total() <= BAD && pass.repair == repair
    requires Unmarked(d.seen) <= Unmarked(d.before.seen)
    requires FileTreated(v.Total(), v.ClusterBytes(), d.before.table, d.table, d.before.seen, d.seen, repair, first,
                         size, d.resize, d.newSize, d.file)
    ensures KeptAs(d.table, d.seen, queued, pass, ids) && Queued(queue, d.seen)
  {
    hide KeptAs, Unmarked, FileTreated, Marked;
    TreatedFile(v.Total(), v.ClusterBytes(), d.before.table, d.table, d.before.seen, d.seen, repair, first, size,
        d.resize, d.newSize, d.file);
    QueuedMarked(queue, d.before.seen, d.file);
    KeptFile(pass, ids, d.before.table, d.before.seen, queued, d.table, d.seen, d.file);
  }

  lemma FileAccounted(v: Volume, pass: Pass, repair: bool, d: Deed, ids: seq<nat>, i: nat, name: Partial, raw: Raw,
                      deeds: seq<Deed>)
    requires |ids| > 0 && SameRead(v, pass, ids) && d.before.walks == pass.walks + [ids] &&
             d.before.i == i < PerCluster(v) && d.before.active && d.spot == SpotIn(pass, |ids| - 1, i)
    requires raw == Slots(v, pass.data, ids[|ids| - 1])[i] && name == PartialAt(v, pass.ground.data, ids, |ids| - 1, i)
    requires Real(raw) && !Dotted(NameOf(name, raw)) && !IsDirectory(raw)
    requires |d.before.seen| == v.Total() <= |d.before.table| && v.Total() <= BAD
    requires FileTreated(v.Total(), v.ClusterBytes(), d.before.table, d.table, d.before.seen, d.seen, repair,
                         FirstOf(raw), Read32(raw, 28), d.resize, d.newSize, d.file)
    requires Accounted(v, pass.ground, repair, d.before, deeds)
    ensures Accounted(v, pass.ground, repair, After(d), deeds + [d])
    ensures PartialAt(v, pass.ground.data, ids, |ids| - 1, i + 1) == Named(name, raw)
  {
    hide Accounted, FileTreated, Slots, PartialAt, Real, NameOf, Dotted, IsDirectory, FirstOf, Read32, Marked, Named,
         SameRead;
    TreatedFile(v.Total(), v.ClusterBytes(), d.before.table, d.table, d.before.seen, d.seen, repair, FirstOf(raw),
        Read32(raw, 28), d.resize, d.newSize, d.file);
    FileOutcome(v, pass, d.before, After(d), d.file, ids, i, name, raw);
    AccountedSurvey(v, pass.ground, repair, d.before, deeds);
    FileDeed(v, pass, repair, d, ids, i, name, raw);
    AccountedFile(v, pass.ground, repair, d.before, deeds, d);
    ReadNext(v, pass, ids, i, raw);
  }

  lemma LogMore(pass: Pass, deeds: seq<Deed>, freed: set<Spot>, d: Deed)
    requires LogKept(pass, deeds, freed)
    ensures LogKept(pass, deeds + [d], freed) && deeds <= deeds + [d]
  {
  }

  /** It is what is done to a file. */
  lemma FileDeed(v: Volume, pass: Pass, repair: bool, d: Deed, ids: seq<nat>, i: nat, name: Partial, raw: Raw)
    requires |ids| > 0 && SameRead(v, pass, ids) && d.before.walks == pass.walks + [ids] &&
             d.before.i == i < PerCluster(v) && d.before.active && d.spot == SpotIn(pass, |ids| - 1, i)
    requires raw == Slots(v, pass.data, ids[|ids| - 1])[i] && name == PartialAt(v, pass.ground.data, ids, |ids| - 1, i)
    requires Real(raw) && !Dotted(NameOf(name, raw)) && !IsDirectory(raw)
    requires FileTreated(v.Total(), v.ClusterBytes(), d.before.table, d.table, d.before.seen, d.seen, repair,
                         FirstOf(raw), Read32(raw, 28), d.resize, d.newSize, d.file)
    requires Surveyed(v, pass.ground, d.before)
    ensures DeedIs(v, pass.ground, repair, d)
  {
    hide Surveyed, FileTreated, Slots, PartialAt, Real, NameOf, Dotted, IsDirectory, FirstOf, Read32;
    assert Hand(d.before) == ids;
  }

  lemma FileOutcome(v: Volume, pass: Pass, f: Found, f2: Found, file: seq<nat>, ids: seq<nat>, i: nat, name: Partial,
                    raw: Raw)
    requires f.walks == pass.walks + [ids] && f.i == i < PerCluster(v) && f.active && |ids| > 0 &&
             SameRead(v, pass, ids)
    requires f2 == f.(table := f2.table, seen := f2.seen, i := i + 1) && |f2.table| == |f.table|
    requires raw == Slots(v, pass.data, ids[|ids| - 1])[i] && name == PartialAt(v, pass.ground.data, ids, |ids| - 1, i)
    requires Real(raw) && !Dotted(NameOf(name, raw)) && !IsDirectory(raw) && |f.seen| == v.Total() &&
             f2.seen == Marked(f.seen, file)
    requires forall j :: 0 <= j < |file| ==> InRange(file[j], v.Total()) && !f.seen[file[j]]
    requires forall x: nat :: x < |f.table| && f2.table[x] != f.table[x] ==>
               x in file && !InRange(Link(f2.table[x]), v.Total())
    requires file != [] ==> file[0] == FirstOf(raw)
    requires forall j :: 0 <= j < |file| - 1 ==> file[j] < |f.table| && file[j + 1] == Link(f.table[file[j]])
    requires forall j :: 0 <= j < |file| ==> LinkMarked(v, f.table, f2.seen, file[j])
    requires InRange(FirstOf(raw), v.Total()) ==> f2.seen[FirstOf(raw)]
    ensures Outcome(v, pass.ground, f, f2, file)
  {
    hide Slots, PartialAt, Real, NameOf, Dotted, IsDirectory, FirstOf, Link, LeadsAt, RawAt, SameRead, Marked,
         LinkMarked, InQueue;
    LeadsHere(v, pass, ids, i, name, raw);
    assert Hand(f) == ids;
  }

  /** What the slot in hand leads to, by what is read of it. */
  lemma LeadsHere(v: Volume, pass: Pass, ids: seq<nat>, i: nat, name: Partial, raw: Raw)
    requires SameRead(v, pass, ids) && |ids| > 0 && i < PerCluster(v)
    requires raw == Slots(v, pass.data, ids[|ids| - 1])[i] && name == PartialAt(v, pass.ground.data, ids, |ids| - 1, i)
    ensures LeadsAt(v, pass.ground.data, ids, |ids| - 1, i) <==>
            Real(raw) && !Dotted(NameOf(name, raw)) && InRange(FirstOf(raw), v.Total())
    ensures LeadsAt(v, pass.ground.data, ids, |ids| - 1, i) ==> RawAt(v, pass.ground.data, ids, |ids| - 1, i) == raw
  {
    hide Slots, PartialAt, Real, NameOf, Dotted, FirstOf;
  }

  /** A subdirectory: marked, and queued while there is room for it. */
  method CheckSubdirectory(c: Check, raw: Raw, start: nat, ghost pass: Pass, ghost ids: seq<nat>, ghost i: nat,
                           ghost name: Partial)
    requires c.Valid() && Kept(c, pass, ids) && InRange(start, c.fat.Total()) && Searching(c, pass, ids, i, name)
    requires i < PerCluster(c.fat) && |ids| > 0 && Fits(c.fat, pass.data, ids) &&
             raw == Slots(c.fat, pass.data, ids[|ids| - 1])[i]
    requires Real(raw) && !Dotted(NameOf(name, raw)) && IsDirectory(raw)
    modifies c.seen, c`faults, c`repaired, c`queue, c`queueLimit, c`asked, c`complete, c`crossed
    ensures c.Valid() && Kept(c, pass, ids) && Searching(c, pass, ids, i + 1, Named(name, raw))
    ensures Unmarked(c.seen[..]) + |c.queue| <= Unmarked(old(c.seen[..])) + |old(c.queue)| && old(c.queue) <= c.queue
  {
    hide Volume.Valid, Unmarked, FirstOf, Accounted, Slots, PartialAt, Named, Real, NameOf, Dotted, IsDirectory, KeptAs,
         Queued, Searching, SameRead, Check.Roomy;
    SearchingFacts(c, pass, ids, i, name);
    var first := FirstOf(raw);
    if !(2 <= first < c.fat.Total()) {
      SearchedNothing(c, pass, ids, i, name, raw);
      c.Note(false);
    } else if c.seen[first] {
      ghost var before := Now(c, pass.walks + [ids], i, true);
      SearchingNow(c, pass, ids, i, name);
      c.Note(false);
      c.crossed := true;
      MarkedNone(before.seen);
      SearchedDirectory(c, pass, before, [], ids, i, name, raw, start);
    } else {
      QueueSubdirectory(c, raw, first, start, pass, ids, i, name);
    }
  }

  /** One that has not been marked. */
  method QueueSubdirectory(c: Check, raw: Raw, first: nat, start: nat, ghost pass: Pass, ghost ids: seq<nat>,
                           ghost i: nat, ghost name: Partial)
    requires c.Valid() && Kept(c, pass, ids) && InRange(start, c.fat.Total()) && Searching(c, pass, ids, i, name)
    requires i < PerCluster(c.fat) && |ids| > 0 && Fits(c.fat, pass.data, ids) &&
             raw == Slots(c.fat, pass.data, ids[|ids| - 1])[i]
    requires Real(raw) && !Dotted(NameOf(name, raw)) && IsDirectory(raw)
    requires first == FirstOf(raw) && InRange(first, c.fat.Total()) && !c.seen[first]
    modifies c.seen, c`faults, c`repaired, c`queue, c`queueLimit, c`asked, c`complete
    ensures c.Valid() && Kept(c, pass, ids) && Searching(c, pass, ids, i + 1, Named(name, raw))
    ensures Unmarked(c.seen[..]) + |c.queue| <= Unmarked(old(c.seen[..])) + |old(c.queue)| && old(c.queue) <= c.queue
  {
    hide Volume.Valid, Unmarked, FirstOf, Accounted, Slots, PartialAt, Named, Real, NameOf, Dotted, IsDirectory, KeptAs,
         Queued, Searching, SameRead, RoomFor;
    SearchingFacts(c, pass, ids, i, name);
    SearchingNow(c, pass, ids, i, name);
    KeptRoom(c, pass, ids);
    ghost var before, seen0 := Now(c, pass.walks + [ids], i, true), c.seen[..];
    KeptDirectory(c.fat.table, seen0, c.queue, pass, ids, first, start);
    c.seen[first] := true;
    assert c.seen[..] == seen0[first := true];
    MarkedOne(seen0, first);
    var queued := c.Enqueue(Directory(first, start));
    if !queued {
      c.Note(false);
      c.complete := false;
    }
    SearchedDirectory(c, pass, before, [first], ids, i, name, raw, start);
  }

  lemma SearchingNow(c: Check, pass: Pass, ids: seq<nat>, i: nat, name: Partial)
    requires Searching(c, pass, ids, i, name)
    ensures Accounted(c.fat, pass.ground, c.repair, Now(c, pass.walks + [ids], i, true), c.deeds) && c.Roomy() &&
            name == PartialAt(c.fat, pass.ground.data, ids, |ids| - 1, i)
  {
    hide Accounted, SameRead, PartialAt, RoomFor;
  }

  /** A directory's entry gone over. */
  lemma SearchedDirectory(c: Check, pass: Pass, f: Found, file: seq<nat>, ids: seq<nat>, i: nat, name: Partial,
                          raw: Raw, start: nat)
    requires Accounted(c.fat, pass.ground, c.repair, f, c.deeds)
    requires f.walks == pass.walks + [ids] && f.i == i < PerCluster(c.fat) &&
             f.active && |ids| > 0 && SameRead(c.fat, pass, ids) && c.Roomy()
    requires raw == Slots(c.fat, pass.data, ids[|ids| - 1])[i] &&
             name == PartialAt(c.fat, pass.ground.data, ids, |ids| - 1, i)
    requires Real(raw) && !Dotted(NameOf(name, raw)) && IsDirectory(raw) && |f.seen| == c.fat.Total() &&
             InRange(FirstOf(raw), c.fat.Total())
    requires f.table == c.fat.table && c.seen[..] == Marked(f.seen, file)
    requires if f.seen[FirstOf(raw)] then file == [] && c.queue == f.queue && c.crossed && c.complete == f.complete
             else file == [FirstOf(raw)] && c.crossed == f.crossed &&
                  ((c.queue == f.queue && !c.complete) ||
                     (c.queue == f.queue + [Directory(FirstOf(raw), start)] && c.complete == f.complete))
    ensures Searching(c, pass, ids, i + 1, Named(name, raw))
  {
    hide Slots, PartialAt, Real, NameOf, Dotted, IsDirectory, FirstOf, Accounted, SameRead, Marked, Outcome, Named,
         RoomFor;
    var f2 := Now(c, pass.walks + [ids], i + 1, true);
    DirectoryOutcome(c.fat, pass, f, f2, file, ids, i, name, raw, start);
    AccountedStep(c.fat, pass.ground, c.repair, f, f2, file, c.deeds);
    ReadNext(c.fat, pass, ids, i, raw);
  }

  /** The name after this slot, which is what the whole check found there. */
  lemma ReadNext(v: Volume, pass: Pass, ids: seq<nat>, i: nat, raw: Raw)
    requires SameRead(v, pass, ids) && |ids| > 0 && i < PerCluster(v) && raw == Slots(v, pass.data, ids[|ids| - 1])[i]
    ensures PartialAt(v, pass.ground.data, ids, |ids| - 1, i + 1) ==
            Named(PartialAt(v, pass.ground.data, ids, |ids| - 1, i), raw)
  {
    hide Slots, PartialAt, Named;
    NamedNext(v, pass.ground.data, ids, |ids| - 1, i);
  }

  lemma MarkedNone(seen: seq<bool>)
    ensures Marked(seen, []) == seen
  {
  }

  lemma MarkedOne(seen: seq<bool>, c: nat)
    requires c < |seen|
    ensures seen[c := true] == Marked(seen, [c])
  {
    assert c in [c];
  }

  lemma KeptRoom(c: Check, pass: Pass, ids: seq<nat>)
    requires Kept(c, pass, ids)
    ensures |c.queue| <= BAD
  {
    hide Unmarked, Queued;
  }

  /** A cluster marked for a directory, and that directory queued. */
  lemma KeptDirectory(t: Table, seen: seq<bool>, queue: seq<Directory>, pass: Pass, ids: seq<nat>, first: nat,
                      start: nat)
    requires KeptAs(t, seen, |queue|, pass, ids) && Queued(queue, seen) && InRange(first, |seen|) && !seen[first] &&
             InRange(start, |seen|)
    ensures KeptAs(t, seen[first := true], |queue|, pass, ids) && Queued(queue, seen[first := true])
    ensures KeptAs(t, seen[first := true], |queue| + 1, pass, ids) && Queued(queue + [Directory(first, start)],
            seen[first := true])
    ensures Unmarked(seen[first := true]) + 1 == Unmarked(seen)
  {
    hide Unmarked;
    UnmarkedMark(seen, first);
  }

  lemma DirectoryOutcome(v: Volume, pass: Pass, f: Found, f2: Found, file: seq<nat>, ids: seq<nat>, i: nat,
                         name: Partial, raw: Raw, start: nat)
    requires f.walks == pass.walks + [ids] && f.i == i < PerCluster(v) && f.active && |ids| > 0 &&
             SameRead(v, pass, ids)
    requires raw == Slots(v, pass.data, ids[|ids| - 1])[i] && name == PartialAt(v, pass.ground.data, ids, |ids| - 1, i)
    requires Real(raw) && !Dotted(NameOf(name, raw)) && IsDirectory(raw) && |f.seen| == v.Total() &&
             InRange(FirstOf(raw), v.Total())
    requires f2 == f.(seen := Marked(f.seen, file), queue := f2.queue, complete := f2.complete, crossed := f2.crossed,
             i := i + 1)
    requires if f.seen[FirstOf(raw)] then file == [] && f2.queue == f.queue && f2.crossed && f2.complete == f.complete
             else file == [FirstOf(raw)] && f2.crossed == f.crossed &&
                  ((f2.queue == f.queue && !f2.complete) ||
                     (f2.queue == f.queue + [Directory(FirstOf(raw), start)] && f2.complete == f.complete))
    ensures Outcome(v, pass.ground, f, f2, file)
  {
    hide Slots, PartialAt, Real, NameOf, Dotted, IsDirectory, FirstOf, Link, LeadsAt, RawAt, SameRead, LinkMarked;
    LeadsHere(v, pass, ids, i, name, raw);
    assert Hand(f) == ids;
    if !f.seen[FirstOf(raw)] {
      assert FirstOf(raw) in file;
      if f2.queue != f.queue {
        assert f2.queue[|f.queue|].cluster == FirstOf(raw);
      }
    }
  }

  /** What is done for one short entry. */
  method CheckEntry(c: Check, raw: Raw, name: seq<Byte>, start: Word, parent: Word, root: nat, ghost pass: Pass,
                    ghost ids: seq<nat>, ghost i: nat, ghost partial: Partial)
    returns (treated: Raw, changed: bool)
    requires c.Valid() && Kept(c, pass, ids) && InRange(start, c.fat.Total())
    requires start == pass.start && parent == pass.parent && root == pass.ground.root
    requires Searching(c, pass, ids, i, partial) && i < PerCluster(c.fat) && |ids| > 0 && Fits(c.fat, pass.data, ids)
    requires raw == Slots(c.fat, pass.data, ids[|ids| - 1])[i] && name == NameOf(partial, raw) && IsShort(raw)
    modifies c.fat, c.fat.disk, c.fat.cache, c.seen, c`faults, c`repaired, c`files, c`bytesInFiles, c`queue,
             c`queueLimit, c`asked, c`complete, c`crossed, c`deeds
    ensures if changed then c.repair else treated == raw
    ensures ShortTreated(pass, c.deeds, SpotIn(pass, |ids| - 1, i), name, raw, treated) && old(c.deeds) <= c.deeds
    ensures c.Valid() && Kept(c, pass, ids) && c.fat.Elsewhere() == old(c.fat.Elsewhere()) &&
            Searching(c, pass, ids, i + 1, Named(partial, raw))
    ensures Unmarked(c.seen[..]) + |c.queue| <= Unmarked(old(c.seen[..])) + |old(c.queue)| && old(c.queue) <= c.queue
  {
    hide Volume.Valid, Unmarked, KeptAs, LogKept, Queued, Relinked, Resized, Settled, Read16, Read32, FirstOf,
         Searching, NameOf, Named, Real, IsLongName, Slots;
    RealBy(raw);
    treated, changed := raw, false;
    if raw[11] as int / FAT_ATTRIBUTE_VOLUME_LABEL % 2 == 1 {
      SearchedNothing(c, pass, ids, i, partial, raw);
      return;
    }
    var first := FirstOf(raw);
    if |name| > 0 && name[0] == ShortNames.DOT && (|name| == 1 || (name[1] == ShortNames.DOT && |name| == 2)) {
      SearchedNothing(c, pass, ids, i, partial, raw);
      var expected := if |name| == 2 then parent else start;
      if expected == root && |name| == 2 {
        expected := 0;
      }
      if first != expected {
        if c.repair {
          treated, changed := Relinked(raw, expected), true;
        }
        c.Note(c.repair);
      }
      return;
    }
    if raw[11] as int / 0x10 % 2 == 1 {
      CheckSubdirectory(c, raw, start, pass, ids, i, partial);
      return;
    }
    var resize, newSize := CheckFileEntry(c, raw, pass, ids, i, partial);
    if resize {
      treated, changed := Resized(raw, newSize), true;
    }
  }

  lemma RealBy(raw: Raw)
    ensures Real(raw) <==> !Vacant(raw) && !IsLongName(raw) && raw[11] as int / FAT_ATTRIBUTE_VOLUME_LABEL % 2 == 0
  {
  }
}
