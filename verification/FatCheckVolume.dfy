/** kernel/fat32.c: check_directory slot by slot, and fat32_check as a whole. */
module FatCheckVolume {
  import opened Words
  import opened LittleEndian
  import opened FatTable
  import opened FatVolume
  import opened FatAllocation
  import opened FatContents
  import opened FatWrite
  import opened FatSlots
  import opened LongName
  import opened EntryReader
  import opened FatDirectory
  import opened FatEntries
  import opened FatCheck
  import opened FatSurvey
  import opened FatDeeds
  import opened FatRuns
  import opened FatReach
  import opened FatCheckFile
  import opened FatCheckSlots
  import opened FatCheckMend
  import opened FatCheckDirectory
  import opened FatCheckPass
  import opened FatKept
  import opened FatFreed
  import opened FatResized
  import opened FatRepaired
  import opened FatLost

  /** Where one directory's walk is: its place in the chain, and how the volume is numbered around it. */
  datatype Place = Place(start: Word, parent: Word, root: nat, ordinal: nat, number: nat, last: int)

  predicate PlaceIs(v: Volume, pass: Pass, place: Place) {
    InRange(place.start, v.Total()) && place.start == pass.start && place.parent == pass.parent &&
    place.root == pass.ground.root && place.last == pass.last
  }

  /** A long-name slot joins the run, which a last piece begins anew and which remembers at most twenty. */
  method ExtendRun(v: Volume, raw: Raw, number: nat, offset: nat, run0: LongRun, ghost pass: Pass, ghost ids: seq<nat>,
                   ghost i: nat, ghost at0: seq<(nat, nat)>)
    returns (run: LongRun, ghost at: seq<(nat, nat)>)
    requires RunIs(v, pass, ids, i, run0, at0) && |ids| > 0 && i < PerCluster(v) &&
             Slots(v, pass.data, ids[|ids| - 1])[i] == raw
    requires IsPiece(raw)
    requires number == v.FirstSector(ids[|ids| - 1]) + i / ENTRIES_PER_SECTOR &&
             offset == i % ENTRIES_PER_SECTOR * SLOT_SIZE
    ensures RunIs(v, pass, ids, i + 1, run, at) && run.name == Fed(run0.name, raw)
  {
    hide Slots, Times, Fed, Volume.FirstSector, RunAt, IsPiece;
    var begins := raw[0] as int / LONG_NAME_LAST % 2 == 1;
    var kept := if begins then [] else run0.slots;
    at := if begins then [] else at0;
    run := LongRun(Fed(run0.name, raw), kept);
    if |kept| < CHECK_LONG_RUN_MAX {
      run := LongRun(run.name, kept + [(number, offset)]);
      at := at + [(|ids| - 1, i)];
    }
    RunAtNext(v, pass.data, ids, |ids| - 1, i);
  }

  /** No run goes on behind a slot that is no piece of a name. */
  lemma RunOver(v: Volume, pass: Pass, ids: seq<nat>, i: nat, run: LongRun, at: seq<(nat, nat)>)
    requires RunIs(v, pass, ids, i, run, at) && |ids| > 0 && i < PerCluster(v)
    requires !IsPiece(Slots(v, pass.data, ids[|ids| - 1])[i])
    ensures RunIs(v, pass, ids, i + 1, LongRun(NO_NAME, []), [])
  {
    hide Slots, Times, Volume.FirstSector, RunAt, IsPiece;
    RunAtNext(v, pass.data, ids, |ids| - 1, i);
  }

  lemma TreatedLong(pass: Pass, deeds: seq<Deed>, freed: set<Spot>, spot: Spot, position: nat, name: seq<Byte>,
                    raw: Raw)
    requires raw[0] == ENTRY_FREE || (IsPiece(raw) && spot !in freed)
    ensures Treated(pass, deeds, freed, spot, position, name, raw, raw)
  {
    hide ShortTreated, IsLongName;
  }

  lemma TreatedShort(pass: Pass, deeds: seq<Deed>, freed: set<Spot>, spot: Spot, position: nat, name: seq<Byte>,
                     before: Raw, raw: Raw)
    requires IsShort(before) && ShortTreated(pass, deeds, spot, name, before, raw)
    ensures Treated(pass, deeds, freed, spot, position, name, before, raw)
  {
    hide ShortTreated, IsLongName;
  }

  lemma TreatedEnd(pass: Pass, deeds: seq<Deed>, freed: set<Spot>, spot: Spot, position: nat, name: seq<Byte>,
                   before: Raw, raw: Raw)
    requires before[0] == ENTRY_END
    requires raw == if position < pass.last && pass.repair then before[0 := ENTRY_FREE] else before
    ensures Treated(pass, deeds, freed, spot, position, name, before, raw)
  {
    hide ShortTreated, IsLongName;
  }

  /** No piece at or behind the slot in hand has been marked deleted. */
  lemma NotFreed(v: Volume, pass: Pass, ids: seq<nat>, i: nat, freed: set<Spot>)
    requires FreedIs(v, pass, ids, i, freed) && i < PerCluster(v)
    ensures SpotIn(pass, |ids| - 1, i) !in freed
    ensures !IsShort(Slots(v, pass.data, ids[|ids| - 1])[i]) ==> FreedIs(v, pass, ids, i + 1, freed)
  {
    hide Slots, Times, FreedAt, IsShort;
    FreedEarlier(v, pass.data, ids, |ids| - 1, i);
    FreedNext(v, pass.data, ids, |ids| - 1, i);
  }

  /** What is known at a short entry, whose run has been dealt with. */
  lemma FreedShort(v: Volume, pass: Pass, ids: seq<nat>, i: nat, raw: Raw, name: Partial, at: seq<(nat, nat)>,
                   before: set<Spot>, freed: set<Spot>)
    requires FreedIs(v, pass, ids, i, before) && i < PerCluster(v) && raw == Slots(v, pass.data, ids[|ids| - 1])[i]
    requires at == RunAt(v, pass.data, ids, |ids| - 1, i) && name == PartialAt(v, pass.data, ids, |ids| - 1, i)
    requires freed == if Disowns(raw, name, at) && pass.repair then before + Spots(pass, at, |at|) else before
    ensures FreedIs(v, pass, ids, i + 1, freed)
  {
    hide Slots, Times, FreedAt, Disowns, RunAt, PartialAt, Spots;
    var last := |ids| - 1;
    FreedNext(v, pass.data, ids, last, i);
    forall k: nat, m: nat
      ensures SpotIn(pass, k, m) in freed <==> pass.repair && (k, m) in FreedAt(v, pass.data, ids, last, i + 1)
    {
      SpotsIn(pass, at, k, m);
    }
  }

  lemma SpotsIn(pass: Pass, at: seq<(nat, nat)>, k: nat, m: nat)
    ensures SpotIn(pass, k, m) in Spots(pass, at, |at|) <==> (k, m) in Places(at)
  {
  }

  /** The long-name slots before a short entry, marked deleted when they belong to nothing; the name in hand is
      given up then. */
  method OrphanRun(c: Check, number: nat, j: nat, slot: nat, sector0: Sector, dirty0: bool, run: LongRun,
                   ghost pass: Pass, ghost ids: seq<nat>, ghost at: seq<(nat, nat)>)
    returns (sector: Sector, dirty: bool, partial: Partial)
    requires Midway(c, pass, ids, j, slot, sector0, dirty0, run, at) && slot < ENTRIES_PER_SECTOR
    requires number == c.fat.FirstSector(ids[|ids| - 1]) + j && IsShort(SlotIn(sector0, slot))
    requires Searching(c, pass, ids, j * ENTRIES_PER_SECTOR + slot, run.name)
    requires FreedIs(c.fat, pass, ids, j * ENTRIES_PER_SECTOR + slot, c.freed)
    modifies c.fat.disk, c`faults, c`repaired, c`freed
    ensures Midway(c, pass, ids, j, slot, sector, dirty, run, at) && SlotIn(sector, slot) == SlotIn(sector0, slot)
    ensures Searching(c, pass, ids, j * ENTRIES_PER_SECTOR + slot, run.name)
    ensures FreedIs(c.fat, pass, ids, j * ENTRIES_PER_SECTOR + slot + 1, c.freed)
    ensures NameOf(partial, SlotIn(sector, slot)) == NameOf(run.name, SlotIn(sector, slot))
  {
    hide Midway, MidSector, Slots, Times, Volume.Start, Volume.FirstSector, SlotIn, SlotPut, RunIs, Kept, NameOf,
         ChecksumOf, Searching, FreedIs, IsShort, Spots;
    sector, dirty, partial := sector0, dirty0, run.name;
    SlotBefore(c, pass, ids, j, slot, sector, dirty, run, at);
    MidwayFacts(c, pass, ids, j, slot, sector, dirty, run, at);
    RunNow(c, pass, ids, j * ENTRIES_PER_SECTOR + slot, run, at);
    ghost var before := c.freed;
    var sum := Checksum(SlotIn(sector, slot));
    if |run.slots| > 0 && (!partial.valid || partial.checksum != sum) {
      KeptRepair(c, pass, ids);
      if c.repair {
        var freed;
        sector, freed := FreeRun(c, number, sector, run, pass, ids, j, slot, dirty, at);
        dirty := dirty || freed;
        SlotBefore(c, pass, ids, j, slot, sector, dirty, run, at);
      }
      c.Note(c.repair);
      partial := partial.(valid := false);
    }
    FreedShort(c.fat, pass, ids, j * ENTRIES_PER_SECTOR + slot, SlotIn(sector, slot), run.name, at, before, c.freed);
    SameName(run.name, partial, SlotIn(sector, slot));
  }

  /** The run and the name in hand are those of the directory. */
  lemma RunNow(c: Check, pass: Pass, ids: seq<nat>, i: nat, run: LongRun, at: seq<(nat, nat)>)
    requires RunIs(c.fat, pass, ids, i, run, at) && Searching(c, pass, ids, i, run.name)
    ensures at == RunAt(c.fat, pass.data, ids, |ids| - 1, i) && |at| == |run.slots|
    ensures run.name == PartialAt(c.fat, pass.data, ids, |ids| - 1, i)
  {
    hide Slots, Accounted, RunAt, PartialAt, Volume.FirstSector, SameDirectory, Check.Roomy;
    PartialSame(c.fat, pass.data, pass.ground.data, ids, |ids| - 1, i);
  }

  /** A short entry. */
  method CheckShort(c: Check, place: Place, j: nat, slot: nat, sector0: Sector, dirty0: bool, run: LongRun,
                    ghost pass: Pass, ghost ids: seq<nat>, ghost at: seq<(nat, nat)>)
    returns (sector: Sector, dirty: bool)
    requires Midway(c, pass, ids, j, slot, sector0, dirty0, run, at) && slot < ENTRIES_PER_SECTOR &&
             PlaceIs(c.fat, pass, place)
    requires place.number == c.fat.FirstSector(ids[|ids| - 1]) + j
    requires Searching(c, pass, ids, j * ENTRIES_PER_SECTOR + slot, run.name)
    requires FreedIs(c.fat, pass, ids, j * ENTRIES_PER_SECTOR + slot, c.freed)
    requires IsShort(SlotIn(sector0, slot))
    modifies c.fat, c.fat.disk, c.fat.cache, c.seen, c`faults, c`repaired, c`files, c`bytesInFiles, c`queue,
             c`queueLimit, c`asked, c`complete, c`crossed, c`deeds, c`freed
    ensures Midway(c, pass, ids, j, slot + 1, sector, dirty, LongRun(NO_NAME, []), [])
    ensures Searching(c, pass, ids, j * ENTRIES_PER_SECTOR + slot + 1, NO_NAME)
    ensures FreedIs(c.fat, pass, ids, j * ENTRIES_PER_SECTOR + slot + 1, c.freed)
    ensures Unmarked(c.seen[..]) + |c.queue| <= Unmarked(old(c.seen[..])) + |old(c.queue)| && old(c.queue) <= c.queue
  {
    hide Midway, MidSector, Slots, Times, Volume.Start, Volume.FirstSector, Treated, SlotIn, SlotPut, RunIs, Unmarked,
         Numbered, Kept, NameOf, ChecksumOf, Searching, IsShort, FreedIs, ShortTreated, TreatedHere, PlaceIs;
    ghost var i := j * ENTRIES_PER_SECTOR + slot;
    var raw := SlotIn(sector0, slot);
    PlaceFacts(c.fat, pass, place);
    var partial;
    sector, dirty, partial := OrphanRun(c, place.number, j, slot, sector0, dirty0, run, pass, ids, at);
    SlotBefore(c, pass, ids, j, slot, sector, dirty, run, at);
    MidwayFacts(c, pass, ids, j, slot, sector, dirty, run, at);
    RunNow(c, pass, ids, i, run, at);
    ghost var deeds := c.deeds;
    var treated, changed;
    treated, changed := CheckEntry(c, raw, NameOf(partial, raw), place.start, place.parent, place.root, pass, ids, i,
        run.name);
    MidwayAgain(c, pass, ids, j, slot, sector, dirty, run, at, deeds);
    ShortHere(c.fat, pass, ids, i, c.deeds, c.freed, run.name, raw, treated);
    RunOver(c.fat, pass, ids, i, run, at);
    KeptRepair(c, pass, ids);
    SlotTreated(c, pass, ids, j, slot, sector, dirty, run, at, treated, changed, LongRun(NO_NAME, []), []);
    if changed {
      sector, dirty := SlotPut(sector, slot, treated), true;
    }
  }

  lemma PlaceFacts(v: Volume, pass: Pass, place: Place)
    requires PlaceIs(v, pass, place)
    ensures InRange(place.start, v.Total()) && place.start == pass.start && place.parent == pass.parent &&
            place.root == pass.ground.root && place.last == pass.last
  {
  }

  lemma ShortHere(v: Volume, pass: Pass, ids: seq<nat>, i: nat, deeds: seq<Deed>, freed: set<Spot>, name: Partial,
                  raw: Raw, treated: Raw)
    requires |ids| > 0 && Fits(v, pass.data, ids) && i < PerCluster(v) && raw == Slots(v, pass.data, ids[|ids| - 1])[i]
    requires name == PartialAt(v, pass.data, ids, |ids| - 1, i) && IsShort(raw)
    requires ShortTreated(pass, deeds, SpotIn(pass, |ids| - 1, i), NameOf(name, raw), raw, treated)
    ensures TreatedHere(v, pass, ids, i, deeds, freed, treated)
    ensures !IsPiece(raw) && Named(name, raw) == NO_NAME
  {
    assert !IsPiece(raw) && Named(name, raw) == NO_NAME;
    hide Slots, PartialAt, NameOf, ShortTreated, Treated, Numbered, Named;
    TreatedShort(pass, deeds, freed, SpotIn(pass, |ids| - 1, i), Numbered(v, |ids| - 1, i), NameOf(name, raw), raw,
        treated);
  }

  /** Giving up a long name that is for another short entry changes nothing in what this one is called. */
  lemma SameName(p: Partial, q: Partial, raw: Raw)
    requires q == p || (q == p.(valid := false) && (!p.valid || p.checksum != ChecksumOf(raw[..11])))
    ensures NameOf(q, raw) == NameOf(p, raw)
  {
  }

  lemma MidwayAgain(c: Check, pass: Pass, ids: seq<nat>, j: nat, slot: nat, sector: Sector, dirty: bool, run: LongRun,
                    at: seq<(nat, nat)>, deeds: seq<Deed>)
    requires c.Valid() && c.fat.Geometry() && Kept(c, pass, ids) && deeds <= c.deeds
    requires MidSector(c.fat, c.fat.Data(), pass, ids, j, slot, sector, dirty, run, at, deeds, c.freed)
    ensures Midway(c, pass, ids, j, slot, sector, dirty, run, at)
  {
    hide Mended, RunIs, Kept, Volume.Valid, Volume.Geometry, InHand;
    MendedRecord(c.fat, InHand(c.fat.Data(), c.fat.Start(ids[|ids| - 1]) + j, sector), pass, ids,
        j * ENTRIES_PER_SECTOR + slot, deeds, c.deeds, c.freed);
  }

  /** One slot of the directory. */
  method CheckSlot(c: Check, place: Place, j: nat, slot: nat, sector0: Sector, dirty0: bool, run0: LongRun,
                   ghost pass: Pass, ghost ids: seq<nat>, ghost at0: seq<(nat, nat)>)
    returns (sector: Sector, dirty: bool, run: LongRun, ghost at: seq<(nat, nat)>)
    requires Midway(c, pass, ids, j, slot, sector0, dirty0, run0, at0) && slot < ENTRIES_PER_SECTOR &&
             PlaceIs(c.fat, pass, place)
    requires place.number == c.fat.FirstSector(ids[|ids| - 1]) + j && place.ordinal == |ids| - 1
    requires Searching(c, pass, ids, j * ENTRIES_PER_SECTOR + slot, run0.name)
    requires FreedIs(c.fat, pass, ids, j * ENTRIES_PER_SECTOR + slot, c.freed)
    modifies c.fat, c.fat.disk, c.fat.cache, c.seen, c`faults, c`repaired, c`files, c`bytesInFiles, c`queue,
             c`queueLimit, c`asked, c`complete, c`crossed, c`deeds, c`freed
    ensures Midway(c, pass, ids, j, slot + 1, sector, dirty, run, at)
    ensures Searching(c, pass, ids, j * ENTRIES_PER_SECTOR + slot + 1, run.name)
    ensures FreedIs(c.fat, pass, ids, j * ENTRIES_PER_SECTOR + slot + 1, c.freed)
    ensures Unmarked(c.seen[..]) + |c.queue| <= Unmarked(old(c.seen[..])) + |old(c.queue)| && old(c.queue) <= c.queue
  {
    hide Midway, MidSector, Slots, Times, Volume.Start, Volume.FirstSector, Treated, SlotIn, SlotPut, RunIs, Unmarked,
         Numbered, Kept, PlaceIs, Fed, Searching, FreedIs, TreatedHere;
    sector, dirty, run, at := sector0, dirty0, LongRun(NO_NAME, []), [];
    var raw, i := SlotIn(sector, slot), j * ENTRIES_PER_SECTOR + slot;
    var position := Numbered(c.fat, place.ordinal, i);
    SlotBefore(c, pass, ids, j, slot, sector, dirty, run0, at0);
    MidwayFacts(c, pass, ids, j, slot, sector, dirty, run0, at0);
    PlaceFacts(c.fat, pass, place);
    NotFreed(c.fat, pass, ids, i, c.freed);
    if raw[0] == ENTRY_END {
      SearchedNothing(c, pass, ids, i, run0.name, raw);
      var fixed := position < place.last && c.repair;
      var treated := if fixed then raw[0 := ENTRY_FREE] else raw;
      KeptRepair(c, pass, ids);
      EndHere(c.fat, pass, ids, i, c.deeds, c.freed, raw, treated);
      RunOver(c.fat, pass, ids, i, run0, at0);
      SlotTreated(c, pass, ids, j, slot, sector, dirty, run0, at0, treated, fixed, run, at);
      if position < place.last {
        if fixed {
          sector, dirty := SlotPut(sector, slot, treated), true;
        }
        c.Note(fixed);
      }
    } else if raw[0] == ENTRY_FREE {
      SearchedNothing(c, pass, ids, i, run0.name, raw);
      LongHere(c.fat, pass, ids, i, c.deeds, c.freed, raw);
      RunOver(c.fat, pass, ids, i, run0, at0);
      SlotTreated(c, pass, ids, j, slot, sector, dirty, run0, at0, raw, false, run, at);
    } else if IsLongName(raw) {
      SearchedNothing(c, pass, ids, i, run0.name, raw);
      LongHere(c.fat, pass, ids, i, c.deeds, c.freed, raw);
      NumberSplit(j, slot);
      run, at := ExtendRun(c.fat, raw, place.number, slot * SLOT_SIZE, run0, pass, ids, i, at0);
      SlotTreated(c, pass, ids, j, slot, sector, dirty, run0, at0, raw, false, run, at);
    } else {
      sector, dirty := CheckShort(c, place, j, slot, sector, dirty, run0, pass, ids, at0);
    }
  }

  lemma EndHere(v: Volume, pass: Pass, ids: seq<nat>, i: nat, deeds: seq<Deed>, freed: set<Spot>, raw: Raw,
                treated: Raw)
    requires |ids| > 0 && Fits(v, pass.data, ids) && i < PerCluster(v) && raw == Slots(v, pass.data, ids[|ids| - 1])[i]
    requires raw[0] == ENTRY_END
    requires treated == if Numbered(v, |ids| - 1, i) < pass.last && pass.repair then raw[0 := ENTRY_FREE] else raw
    ensures TreatedHere(v, pass, ids, i, deeds, freed, treated)
  {
    hide Slots, NameAt, Treated, Numbered;
    TreatedEnd(pass, deeds, freed, SpotIn(pass, |ids| - 1, i), Numbered(v, |ids| - 1, i),
        NameAt(v, pass.data, ids, |ids| - 1, i), raw, treated);
  }

  lemma LongHere(v: Volume, pass: Pass, ids: seq<nat>, i: nat, deeds: seq<Deed>, freed: set<Spot>, raw: Raw)
    requires |ids| > 0 && Fits(v, pass.data, ids) && i < PerCluster(v) && raw == Slots(v, pass.data, ids[|ids| - 1])[i]
    requires raw[0] == ENTRY_FREE || (IsPiece(raw) && SpotIn(pass, |ids| - 1, i) !in freed)
    ensures TreatedHere(v, pass, ids, i, deeds, freed, raw)
  {
    hide Slots, NameAt, Treated, Numbered, IsPiece;
    TreatedLong(pass, deeds, freed, SpotIn(pass, |ids| - 1, i), Numbered(v, |ids| - 1, i),
        NameAt(v, pass.data, ids, |ids| - 1, i), raw);
  }

  lemma NumberSplit(j: nat, slot: nat)
    requires slot < ENTRIES_PER_SECTOR
    ensures (j * ENTRIES_PER_SECTOR + slot) / ENTRIES_PER_SECTOR == j &&
            (j * ENTRIES_PER_SECTOR + slot) % ENTRIES_PER_SECTOR == slot
  {
  }

  lemma KeptRepair(c: Check, pass: Pass, ids: seq<nat>)
    requires Kept(c, pass, ids)
    ensures pass.repair == c.repair
  {
  }

  // ---- Sectors and clusters ---------------------------------------------------------------------------

  /** Between two sectors: everything treated so far is on the disk. */
  ghost predicate Between(c: Check, pass: Pass, ids: seq<nat>, i: nat, run: LongRun, at: seq<(nat, nat)>)
    reads c`queue, c`queueRead, c`deeds, c`freed, c.fat, c.fat.disk, c.fat.cache, c.seen
  {
    c.Valid() && c.fat.Geometry() && Kept(c, pass, ids) && |ids| > 0 &&
    (forall k :: 0 <= k < |ids| ==> InRange(ids[k], c.fat.Total())) &&
    Mended(c.fat, c.fat.Data(), pass, ids, i, c.deeds, c.freed) && RunIs(c.fat, pass, ids, i, run, at) &&
    FreedIs(c.fat, pass, ids, i, c.freed) && (!pass.repair ==> c.fat.Data() == pass.data)
  }

  lemma SectorStart(c: Check, pass: Pass, ids: seq<nat>, j: nat, sector: Sector, run: LongRun, at: seq<(nat, nat)>)
    requires Between(c, pass, ids, j * ENTRIES_PER_SECTOR, run, at) && j < c.fat.sectorsPerCluster
    requires 2 <= ids[|ids| - 1] && c.fat.FirstSector(ids[|ids| - 1]) + j < c.fat.disk.Length &&
             sector == c.fat.disk[c.fat.FirstSector(ids[|ids| - 1]) + j]
    ensures Midway(c, pass, ids, j, 0, sector, false, run, at)
    ensures FreedIs(c.fat, pass, ids, j * ENTRIES_PER_SECTOR, c.freed)
  {
    hide Mended, Times, RunIs, FreedIs, Kept, Volume.Cached, Volume.Stored, Volume.Walked;
    c.fat.ClusterInside(ids[|ids| - 1]);
    assert sector == c.fat.Data()[c.fat.Start(ids[|ids| - 1]) + j];
    OverlaySame(c.fat.Data(), c.fat.Start(ids[|ids| - 1]) + j);
  }

  lemma SectorEnd(c: Check, pass: Pass, ids: seq<nat>, j: nat, sector: Sector, dirty: bool, run: LongRun,
                  at: seq<(nat, nat)>, data: seq<Sector>)
    requires c.Valid() && c.fat.Geometry() && Kept(c, pass, ids) && MidSector(c.fat, data, pass, ids, j,
             ENTRIES_PER_SECTOR, sector, dirty, run, at, c.deeds, c.freed)
    requires c.fat.Data() == if dirty then InHand(data, c.fat.Start(ids[|ids| - 1]) + j, sector) else data
    requires FreedIs(c.fat, pass, ids, (j + 1) * ENTRIES_PER_SECTOR, c.freed)
    ensures Between(c, pass, ids, (j + 1) * ENTRIES_PER_SECTOR, run, at)
  {
    hide Mended, Times, RunIs, FreedIs, Kept, Volume.Cached, Volume.Stored, Volume.Walked;
    if !dirty {
      OverlaySame(data, c.fat.Start(ids[|ids| - 1]) + j);
    }
  }

  /** One sector: read, every slot treated, and written back when something in it has changed. */
  method CheckSector(c: Check, place: Place, j: nat, run0: LongRun, ghost pass: Pass, ghost ids: seq<nat>,
                     ghost at0: seq<(nat, nat)>)
    returns (run: LongRun, ghost at: seq<(nat, nat)>)
    requires Between(c, pass, ids, j * ENTRIES_PER_SECTOR, run0, at0) && j < c.fat.sectorsPerCluster &&
             PlaceIs(c.fat, pass, place)
    requires place.number == c.fat.FirstSector(ids[|ids| - 1]) + j && place.ordinal == |ids| - 1
    requires Searching(c, pass, ids, j * ENTRIES_PER_SECTOR, run0.name)
    modifies c.fat, c.fat.disk, c.fat.cache, c.seen, c`faults, c`repaired, c`files, c`bytesInFiles, c`queue,
             c`queueLimit, c`asked, c`complete, c`crossed, c`deeds, c`freed
    ensures Between(c, pass, ids, (j + 1) * ENTRIES_PER_SECTOR, run, at)
    ensures Searching(c, pass, ids, (j + 1) * ENTRIES_PER_SECTOR, run.name)
    ensures Unmarked(c.seen[..]) + |c.queue| <= Unmarked(old(c.seen[..])) + |old(c.queue)| && old(c.queue) <= c.queue
  {
    hide Midway, MidSector, Mended, Times, RunIs, FreedIs, Tracked, Volume.Cached, Volume.Stored, Volume.Walked,
         Unmarked, PlaceIs, Volume.Start, Searching;
    c.fat.ClusterInside(ids[|ids| - 1]);
    var sector, dirty := c.fat.disk[place.number], false;
    SectorStart(c, pass, ids, j, sector, run0, at0);
    hide Between;
    run, at := run0, at0;
    var slot := 0;
    while slot < ENTRIES_PER_SECTOR
      invariant slot <= ENTRIES_PER_SECTOR && Midway(c, pass, ids, j, slot, sector, dirty, run, at)
      invariant FreedIs(c.fat, pass, ids, j * ENTRIES_PER_SECTOR + slot, c.freed)
      invariant Searching(c, pass, ids, j * ENTRIES_PER_SECTOR + slot, run.name)
      invariant Unmarked(c.seen[..]) + |c.queue| <= Unmarked(old(c.seen[..])) + |old(c.queue)| &&
                old(c.queue) <= c.queue
    {
      sector, dirty, run, at := CheckSlot(c, place, j, slot, sector, dirty, run, pass, ids, at);
      slot := slot + 1;
    }
    MidwayFacts(c, pass, ids, j, slot, sector, dirty, run, at);
    ghost var data := c.fat.Data();
    if dirty {
      c.fat.WriteRun(place.number, [sector]);
    }
    SectorEnd(c, pass, ids, j, sector, dirty, run, at, data);
  }

  /** One cluster: every sector of it. */
  method CheckCluster(c: Check, cluster: nat, place: Place, run0: LongRun, ghost pass: Pass, ghost ids: seq<nat>,
                      ghost at0: seq<(nat, nat)>)
    returns (run: LongRun, ghost at: seq<(nat, nat)>)
    requires Between(c, pass, ids, 0, run0, at0) && cluster == ids[|ids| - 1] && PlaceIs(c.fat, pass, place)
    requires place.ordinal == |ids| - 1 && Searching(c, pass, ids, 0, run0.name)
    modifies c.fat, c.fat.disk, c.fat.cache, c.seen, c`faults, c`repaired, c`files, c`bytesInFiles, c`queue,
             c`queueLimit, c`asked, c`complete, c`crossed, c`deeds, c`freed
    ensures Between(c, pass, ids, PerCluster(c.fat), run, at) && Searching(c, pass, ids, PerCluster(c.fat), run.name)
    ensures Unmarked(c.seen[..]) + |c.queue| <= Unmarked(old(c.seen[..])) + |old(c.queue)| && old(c.queue) <= c.queue
  {
    hide Between, Times, Unmarked, Volume.Start, Volume.Valid, Volume.FirstSector, Searching;
    run, at := run0, at0;
    assert 2 <= cluster && |ids| > 0 by {
      BetweenFacts(c, pass, ids, 0, run, at);
    }
    var index := 0;
    while index < c.fat.sectorsPerCluster
      invariant index <= c.fat.sectorsPerCluster && Between(c, pass, ids, index * ENTRIES_PER_SECTOR, run, at)
      invariant Searching(c, pass, ids, index * ENTRIES_PER_SECTOR, run.name)
      invariant Unmarked(c.seen[..]) + |c.queue| <= Unmarked(old(c.seen[..])) + |old(c.queue)| &&
                old(c.queue) <= c.queue
    {
      run, at := CheckSector(c, place.(number := c.fat.FirstSector(cluster) + index), index, run, pass, ids, at);
      index := index + 1;
    }
  }

  lemma BetweenFacts(c: Check, pass: Pass, ids: seq<nat>, i: nat, run: LongRun, at: seq<(nat, nat)>)
    requires Between(c, pass, ids, i, run, at)
    ensures c.Valid() && |ids| > 0 && Kept(c, pass, ids) && RunIs(c.fat, pass, ids, i, run, at)
    ensures Mended(c.fat, c.fat.Data(), pass, ids, i, c.deeds, c.freed) && FreedIs(c.fat, pass, ids, i, c.freed)
    ensures forall k :: 0 <= k < |ids| ==> InRange(ids[k], c.fat.Total())
    ensures DiskHeld(c.fat, pass.repair, pass.disk, pass.hint)
    ensures c.seen.Length == c.fat.Total() && (!pass.repair ==> c.fat.Data() == pass.data && c.fat.table == pass.table)
    ensures c.fat.table[ids[|ids| - 1]] == pass.table[ids[|ids| - 1]] && |c.fat.table| == |pass.table|
  {
    hide Mended, Times, RunIs, FreedIs, LogKept, Unmarked;
  }

  /** The first cluster of a directory, which was marked when the directory was queued. */
  lemma BetweenStart(c: Check, pass: Pass, start: nat)
    requires c.Valid() && InRange(start, c.fat.Total()) && c.seen[start] && Queued(c.queue, c.seen[..])
    requires pass.table == c.fat.table && pass.data == c.fat.Data() && pass.seen == c.seen[..] &&
             pass.repair == c.repair && pass.apart == c.fat.apart
    requires pass.budget == Unmarked(c.seen[..]) + |c.queue| <= BAD
    requires pass.deeds == c.deeds && pass.freed == c.freed && forall s :: s in c.freed ==> s.walk < |pass.walks|
    requires DiskHeld(c.fat, pass.repair, pass.disk, pass.hint)
    ensures Between(c, pass, [start], 0, LongRun(NO_NAME, []), [])
  {
    hide Times, Slots, Unmarked, Mended;
    c.fat.ClusterInside(start);
    MendedStart(c.fat, pass, start);
  }

  /** The next cluster, just marked. */
  lemma BetweenOnward(c: Check, pass: Pass, ids: seq<nat>, before: seq<bool>, following: nat, run: LongRun,
                      at: seq<(nat, nat)>)
    requires c.Valid() && c.fat.Geometry() && |ids| > 0 && forall k :: 0 <= k < |ids| ==> InRange(ids[k], c.fat.Total())
    requires Mended(c.fat, c.fat.Data(), pass, ids, PerCluster(c.fat), c.deeds, c.freed)
    requires RunIs(c.fat, pass, ids, PerCluster(c.fat), run, at) &&
             FreedIs(c.fat, pass, ids, PerCluster(c.fat), c.freed) && LogKept(pass, c.deeds, c.freed)
    requires !pass.repair ==> c.fat.Data() == pass.data
    requires c.fat.apart <= pass.apart && pass.repair == c.repair && |pass.seen| == c.fat.Total() &&
             pass.budget <= BAD && KeptAs(c.fat.table, before, |c.queue|, pass, ids) && Queued(c.queue, before)
    requires InRange(following, c.fat.Total()) && |before| == c.seen.Length && !before[following] &&
             c.seen[..] == before[following := true] && DiskHeld(c.fat, pass.repair, pass.disk, pass.hint)
    ensures Between(c, pass, ids + [following], 0, run, at)
  {
    hide Times, Slots, Unmarked, KeptAs, Queued, LogKept, Mended, RunIs, FreedIs, Volume.Cached, Volume.Stored,
         Volume.Walked;
    c.fat.ClusterInside(following);
    KeptOnward(c.fat.table, before, c.seen[..], c.queue, pass, ids, following);
    MendedBounds(c.fat, c.fat.Data(), pass, ids, PerCluster(c.fat), c.deeds, c.freed);
    MendedOnward(c.fat, c.fat.Data(), pass, ids, c.deeds, c.freed, following);
    RunOnward(c.fat, pass, ids, following, run, at);
    FreedOnward(c.fat, pass, ids, following, c.freed);
  }

  lemma MendedBounds(v: Volume, data: seq<Sector>, pass: Pass, ids: seq<nat>, i: nat, deeds: seq<Deed>,
                     freed: set<Spot>)
    requires Mended(v, data, pass, ids, i, deeds, freed)
    ensures |data| == |pass.data| && |ids| > 0
  {
    hide SlotMended, Times;
  }

  lemma KeptOnward(t: Table, before: seq<bool>, seen: seq<bool>, queue: seq<Directory>, pass: Pass, ids: seq<nat>,
                   following: nat)
    requires KeptAs(t, before, |queue|, pass, ids) && Queued(queue, before)
    requires following < |before| && !before[following] && seen == before[following := true]
    ensures KeptAs(t, seen, |queue|, pass, ids + [following]) && Queued(queue, seen) && following !in ids
  {
    hide Unmarked;
    UnmarkedMark(before, following);
    var longer := ids + [following];
    assert forall k :: 0 <= k < |ids| ==> longer[k] == ids[k];
  }

  lemma FreedOnward(v: Volume, pass: Pass, ids: seq<nat>, following: nat, freed: set<Spot>)
    requires FreedIs(v, pass, ids, PerCluster(v), freed) && 2 <= following &&
             v.Start(following) + v.sectorsPerCluster <= |pass.data|
    ensures FreedIs(v, pass, ids + [following], 0, freed)
  {
    hide Slots, Times, DisownsAt;
    FreedPrefix(v, pass.data, ids, ids + [following], |ids| - 1, PerCluster(v));
  }

  lemma RunOnward(v: Volume, pass: Pass, ids: seq<nat>, following: nat, run: LongRun, at: seq<(nat, nat)>)
    requires RunIs(v, pass, ids, PerCluster(v), run, at) && 2 <= following &&
             v.Start(following) + v.sectorsPerCluster <= |pass.data|
    ensures RunIs(v, pass, ids + [following], 0, run, at)
  {
    hide Slots, Times, Volume.FirstSector, RunMore;
    var longer := ids + [following];
    assert forall k :: 0 <= k < |ids| ==> longer[k] == ids[k];
    RunPrefix(v, pass.data, ids, longer, |ids| - 1, PerCluster(v));
  }

  lemma KeptFacts(c: Check, pass: Pass, ids: seq<nat>)
    requires Kept(c, pass, ids)
    ensures c.fat.apart <= pass.apart && pass.repair == c.repair && |pass.seen| == c.fat.Total() && pass.budget <= BAD
    ensures KeptAs(c.fat.table, c.seen[..], |c.queue|, pass, ids) && Queued(c.queue, c.seen[..])
    ensures LogKept(pass, c.deeds, c.freed)
    ensures Unmarked(c.seen[..]) + |c.queue| <= pass.budget && |c.seen[..]| == |pass.seen|
    ensures forall x: nat :: x < |pass.seen| && pass.seen[x] ==> c.seen[..][x]
    ensures !pass.repair ==> c.fat.table == pass.table
  {
    hide Unmarked, Queued;
  }

  lemma WalkedStart(v: Volume, pass: Pass)
    requires v.Total() <= |pass.table|
    ensures Walked(v, pass, [pass.start])
  {
  }

  /** Where the survey stands between two directories. */
  function Gone(v: Volume, walks: seq<seq<nat>>): nat {
    if walks == [] then 0 else PerCluster(v)
  }

  ghost predicate Idle(c: Check, ground: Ground, walks: seq<seq<nat>>)
    reads c`queue, c`queueLimit, c`asked, c`complete, c`crossed, c`deeds, c`freed, c.fat`table, c.seen
  {
    Accounted(c.fat, ground, c.repair, Now(c, walks, Gone(c.fat, walks), false), c.deeds) && c.Roomy() &&
    forall s :: s in c.freed ==> s.walk < |walks|
  }

  lemma SearchStart(c: Check, pass: Pass, start: nat)
    requires c.fat.Geometry() && Idle(c, pass.ground, pass.walks) && |pass.walks| < |c.queue| &&
             start == c.queue[|pass.walks|].cluster
    requires DataKept(c.fat, pass.data, pass.ground.data, pass.walks) && |pass.data| == |c.fat.Data()|
    ensures Searching(c, pass, [start], 0, NO_NAME)
  {
    hide Accounted, SameRead, PartialAt, DataKept, Volume.Geometry, InWalk;
    var f := Now(c, pass.walks, Gone(c.fat, pass.walks), false);
    AccountedSurvey(c.fat, pass.ground, c.repair, f, c.deeds);
    StartApart(c.fat, pass.ground, f);
    StartRead(c.fat, pass, start);
    AccountedBegin(c.fat, pass.ground, c.repair, f, c.deeds);
    assert Begun(f) == Now(c, pass.walks + [[start]], 0, true);
  }

  lemma StartRead(v: Volume, pass: Pass, start: nat)
    requires v.Geometry() && InRange(start, v.Total()) && !InWalk(pass.walks, start) && |pass.data| == |v.Data()|
    requires DataKept(v, pass.data, pass.ground.data, pass.walks)
    ensures SameRead(v, pass, [start]) && PartialAt(v, pass.ground.data, [start], 0, 0) == NO_NAME
  {
    hide Slots, Times, InWalk;
    v.ClusterInside(start);
    SameSlots(v, pass.data, pass.ground.data, start);
  }

  lemma StartApart(v: Volume, g: Ground, f: Found)
    requires Surveyed(v, g, f) && |f.walks| < |f.queue|
    ensures InRange(f.queue[|f.walks|].cluster, v.Total()) && !InWalk(f.walks, f.queue[|f.walks|].cluster)
    ensures |f.seen| == v.Total() && f.seen[f.queue[|f.walks|].cluster]
  {
    hide EntriesFollowed, LinksFollowed, MarksMeant, WalksFresh, WalksWhole, Confined, TableKept, Times, WalksFollow;
  }

  lemma WalksMarked(v: Volume, g: Ground, f: Found, x: nat)
    requires Surveyed(v, g, f) && x < |f.seen| && !f.seen[x]
    ensures !InWalk(f.walks, x)
  {
    hide EntriesFollowed, LinksFollowed, MarksMeant, WalksFresh, WalksWhole, Confined, TableKept, Times, Run,
         WalksApart;
  }

  /** The next cluster of the directory, which no walk has been over before. */
  lemma SearchOnward(c: Check, pass: Pass, ids: seq<nat>, before: Found, following: nat, name: Partial)
    requires before.walks == pass.walks + [ids] && before.i == PerCluster(c.fat) && before.active && |ids| > 0
    requires InRange(following, c.fat.Total()) && |before.seen| == c.fat.Total() && !before.seen[following] &&
             c.fat.Geometry()
    requires ids[|ids| - 1] < |before.table| && Link(before.table[ids[|ids| - 1]]) == following
    requires Now(c, pass.walks + [ids + [following]], 0, true) == Onward(before, following) && c.Roomy()
    requires SameRead(c.fat, pass, ids) && name == PartialAt(c.fat, pass.ground.data, ids, |ids| - 1, PerCluster(c.fat))
    requires DataKept(c.fat, pass.data, pass.ground.data, pass.walks) && |pass.data| == |c.fat.Data()|
    requires Accounted(c.fat, pass.ground, c.repair, before, c.deeds)
    ensures Searching(c, pass, ids + [following], 0, name)
  {
    hide Accounted, SameRead, PartialAt, DataKept, Volume.Geometry, Link, Onward, InWalk, Volume.Data, PerCluster,
         Volume.Total, Check.Roomy, MayGoOn;
    AccountedSurvey(c.fat, pass.ground, c.repair, before, c.deeds);
    OnwardMay(c.fat, before, ids, following);
    AccountedOnward(c.fat, pass.ground, c.repair, before, following, c.deeds);
    SearchedOnward(c, pass, ids, before, following);
  }

  lemma OnwardMay(v: Volume, before: Found, ids: seq<nat>, following: nat)
    requires |before.walks| > 0 && Hand(before) == ids && before.i == PerCluster(v) && before.active && |ids| > 0
    requires InRange(following, |before.seen|) && !before.seen[following]
    requires ids[|ids| - 1] < |before.table| && Link(before.table[ids[|ids| - 1]]) == following
    ensures MayGoOn(v, before, following)
  {
    hide Link;
  }

  /** It reads as the whole check found it. */
  lemma SearchedOnward(c: Check, pass: Pass, ids: seq<nat>, before: Found, following: nat)
    requires before.walks == pass.walks + [ids] && |ids| > 0 && c.fat.Geometry()
    requires InRange(following, c.fat.Total()) && |before.seen| == c.fat.Total() && !before.seen[following]
    requires SameRead(c.fat, pass, ids) && |pass.data| == |c.fat.Data()|
    requires DataKept(c.fat, pass.data, pass.ground.data, pass.walks) && Surveyed(c.fat, pass.ground, before)
    ensures SameRead(c.fat, pass, ids + [following])
    ensures PartialAt(c.fat, pass.ground.data, ids + [following], |ids|, 0) ==
            PartialAt(c.fat, pass.ground.data, ids, |ids| - 1, PerCluster(c.fat))
  {
    hide Surveyed, SameRead, PartialAt, DataKept, Volume.Geometry, InWalk, Volume.Data;
    WalksMarked(c.fat, pass.ground, before, following);
    NotInEarlier(pass.walks, ids, following);
    OnwardRead(c.fat, pass, ids, following);
  }

  lemma NotInEarlier(walks: seq<seq<nat>>, ids: seq<nat>, x: nat)
    requires !InWalk(walks + [ids], x)
    ensures !InWalk(walks, x) && x !in ids
  {
    var all := walks + [ids];
    forall w, k | 0 <= w < |walks| && 0 <= k < |walks[w]|
      ensures walks[w][k] != x
    {
      assert all[w] == walks[w];
    }
    assert all[|walks|] == ids;
  }

  lemma OnwardRead(v: Volume, pass: Pass, ids: seq<nat>, following: nat)
    requires v.Geometry() && InRange(following, v.Total()) && !InWalk(pass.walks, following) &&
             |pass.data| == |v.Data()| && |ids| > 0
    requires DataKept(v, pass.data, pass.ground.data, pass.walks) && SameRead(v, pass, ids)
    ensures SameRead(v, pass, ids + [following])
    ensures PartialAt(v, pass.ground.data, ids + [following], |ids|, 0) == PartialAt(v, pass.ground.data, ids,
            |ids| - 1, PerCluster(v))
  {
    hide Slots, Times, InWalk, Named;
    var longer := ids + [following];
    v.ClusterInside(following);
    SameSlots(v, pass.data, pass.ground.data, following);
    assert forall k :: 0 <= k < |ids| ==> longer[k] == ids[k];
    PartialPrefix(v, pass.ground.data, ids, longer, |ids| - 1, PerCluster(v));
  }

  lemma SearchedData(v: Volume, pass: Pass, ids: seq<nat>, data: seq<Sector>)
    requires |data| == |pass.data| && forall c: nat ::
               2 <= c && c !in ids && v.Start(c) + v.sectorsPerCluster <= |data| ==> SameCluster(v, data, pass.data, c)
    requires DataKept(v, pass.data, pass.ground.data, pass.walks)
    ensures DataKept(v, data, pass.ground.data, pass.walks + [ids])
  {
    hide Slots, Times, InWalk;
    var walks := pass.walks + [ids];
    forall c: nat | 2 <= c && !InWalk(walks, c) && v.Start(c) + v.sectorsPerCluster <= |data|
      ensures SameCluster(v, data, pass.ground.data, c)
    {
      NotInEarlier(pass.walks, ids, c);
      assert SameCluster(v, data, pass.data, c) && SameCluster(v, pass.data, pass.ground.data, c);
    }
  }

  /** What a pass goes by: the last live slot, and clusters that hold what the whole check found. */
  ghost predicate PassBegun(v: Volume, pass: Pass)
    reads v.disk
  {
    LastIs(v, pass.table, pass.data, pass.start, CHECK_CHAIN_MAX, pass.last) &&
    (pass.last == -1 || LiveAt(v, pass.table, pass.data, pass.start, CHECK_CHAIN_MAX, pass.last)) &&
    DataKept(v, pass.data, pass.ground.data, pass.walks) && |pass.data| == |v.Data()| &&
    forall s :: s in pass.freed ==> s.walk < |pass.walks|
  }

  /** In a directory, before slot i of its last cluster so far. */
  ghost predicate Pacing(c: Check, pass: Pass, ids: seq<nat>, i: nat, run: LongRun, at: seq<(nat, nat)>)
    reads c`queue, c`queueRead, c`queueLimit, c`asked, c`complete, c`crossed, c`deeds, c`freed
    reads c.fat, c.fat.disk, c.fat.cache, c.seen
  {
    Between(c, pass, ids, i, run, at) && Searching(c, pass, ids, i, run.name) && Walked(c.fat, pass, ids) &&
    PassBegun(c.fat, pass)
  }

  /** Done with it. */
  ghost predicate Finished(c: Check, pass: Pass, ids: seq<nat>)
    reads c`queue, c`queueRead, c`queueLimit, c`asked, c`complete, c`crossed, c`deeds, c`freed
    reads c.fat, c.fat.disk, c.fat.cache, c.seen
  {
    c.Valid() && Queued(c.queue, c.seen[..]) && c.fat.apart <= pass.apart &&
    Unmarked(c.seen[..]) + |c.queue| <= pass.budget &&
    (!c.repair ==> c.fat.table == pass.table && c.fat.Data() == pass.data) &&
    PassIs(c.fat, pass, c.repair, ids) && SameRead(c.fat, pass, ids) && LogKept(pass, c.deeds, c.freed) &&
    Mended(c.fat, c.fat.Data(), pass, ids, PerCluster(c.fat), c.deeds, c.freed) &&
    FreedIs(c.fat, pass, ids, PerCluster(c.fat), c.freed) && Idle(c, pass.ground, pass.walks + [ids]) &&
    DataKept(c.fat, c.fat.Data(), pass.ground.data, pass.walks + [ids]) &&
    DiskHeld(c.fat, pass.repair, pass.disk, pass.hint)
  }

  lemma PacingStart(c: Check, pass: Pass, start: nat)
    requires c.Valid() && InRange(start, c.fat.Total()) && c.seen[start] && Queued(c.queue, c.seen[..])
    requires pass.table == c.fat.table && pass.data == c.fat.Data() && pass.seen == c.seen[..] &&
             pass.repair == c.repair && pass.apart == c.fat.apart && pass.start == start
    requires pass.budget == Unmarked(c.seen[..]) + |c.queue| <= BAD
    requires Idle(c, pass.ground, pass.walks) && |pass.walks| < |c.queue| && start == c.queue[|pass.walks|].cluster
    requires PassBegun(c.fat, pass) && pass.deeds == c.deeds && pass.freed == c.freed
    requires DiskHeld(c.fat, pass.repair, pass.disk, pass.hint)
    ensures Pacing(c, pass, [start], 0, LongRun(NO_NAME, []), [])
  {
    hide Between, Unmarked, Searching, Queued, DataKept, Idle, LastIs, LiveAt, Volume.Valid, Volume.Geometry;
    ValidMarked(c);
    WalkedStart(c.fat, pass);
    BetweenStart(c, pass, start);
    SearchStart(c, pass, start);
  }

  /** What is known when a cluster of the directory has been gone through. */
  lemma PacingFacts(c: Check, pass: Pass, ids: seq<nat>, run: LongRun, at: seq<(nat, nat)>)
    requires Pacing(c, pass, ids, PerCluster(c.fat), run, at)
    ensures c.Valid() && |ids| > 0 && Kept(c, pass, ids) && c.seen.Length == c.fat.Total() && pass.repair == c.repair
    ensures InRange(ids[|ids| - 1], c.fat.Total()) && c.fat.Total() <= |c.fat.table| && c.fat.Total() <= BAD
  {
    hide Searching, Walked, PassBegun, Mended, RunIs, KeptAs, Queued, Times, Volume.Cached, Volume.Stored,
         Volume.Walked;
  }

  lemma DirectoryDone(c: Check, pass: Pass, ids: seq<nat>, run: LongRun, at: seq<(nat, nat)>, before: Found)
    requires Between(c, pass, ids, PerCluster(c.fat), run, at) && Walked(c.fat, pass, ids) && PassBegun(c.fat, pass)
    requires before.walks == pass.walks + [ids] && before.active && |ids| > 0
    requires before == Found(c.fat.table, c.seen[..], c.queue, pass.walks + [ids], PerCluster(c.fat), true, c.complete,
             before.crossed)
    requires c.Roomy() && SameRead(c.fat, pass, ids)
    requires ids[|ids| - 1] < |c.fat.table| && c.fat.Total() == |c.seen[..]|
    requires var link := Link(c.fat.table[ids[|ids| - 1]]);
             if InRange(link, c.fat.Total()) then c.seen[..][link] && c.crossed else c.crossed == before.crossed
    requires Accounted(c.fat, pass.ground, c.repair, before, c.deeds)
    ensures Finished(c, pass, ids)
  {
    hide Between, Walked, Accounted, LastIs, LiveAt, DataKept, SameRead, Mended, Kept, KeptAs, Queued, RunIs, Unmarked,
         Link, Idle, RoomFor, PassIs, Volume.Cached, Volume.Stored, Volume.Walked, FreedIs, LogKept;
    BetweenFacts(c, pass, ids, PerCluster(c.fat), run, at);
    KeptFacts(c, pass, ids);
    FreedWalks(c.fat, pass, ids, PerCluster(c.fat), c.deeds, c.freed);
    SearchStop(c, pass, ids, before);
    PassDone(c.fat, pass, c.repair, ids);
    MendedElsewhere(c.fat, c.fat.Data(), pass, ids, c.deeds, c.freed);
    SearchedData(c.fat, pass, ids, c.fat.Data());
  }

  lemma MendedElsewhere(v: Volume, data: seq<Sector>, pass: Pass, ids: seq<nat>, deeds: seq<Deed>, freed: set<Spot>)
    requires Mended(v, data, pass, ids, PerCluster(v), deeds, freed)
    ensures |data| == |pass.data| && forall c: nat ::
               2 <= c && c !in ids && v.Start(c) + v.sectorsPerCluster <= |data| ==> SameCluster(v, data, pass.data, c)
  {
    hide SlotMended, Times;
  }

  /** No slot of a directory still to come is on record. */
  lemma FreedWalks(v: Volume, pass: Pass, ids: seq<nat>, i: nat, deeds: seq<Deed>, freed: set<Spot>)
    requires LogKept(pass, deeds, freed) && forall s :: s in pass.freed ==> s.walk < |pass.walks|
    ensures forall s :: s in freed ==> s.walk < |pass.walks| + 1
  {
  }

  /** The end of a directory: its chain leads nowhere, or to a cluster marked already. */
  method StopDirectory(c: Check, following: nat, ghost pass: Pass, ghost ids: seq<nat>, ghost run: LongRun,
                       ghost at: seq<(nat, nat)>)
    requires Pacing(c, pass, ids, PerCluster(c.fat), run, at) && |ids| > 0 && ids[|ids| - 1] < |c.fat.table|
    requires InRange(following, c.fat.Total()) ==> following < c.seen.Length && c.seen[following]
    requires following == Link(c.fat.table[ids[|ids| - 1]])
    modifies c`faults, c`repaired, c`crossed
    ensures Finished(c, pass, ids)
  {
    hide Between, Walked, Accounted, LastIs, LiveAt, DataKept, SameRead, Mended, Kept, Queued, PartialAt, Link, RoomFor,
         Finished, PassBegun, Searching, Volume.Valid, Volume.Geometry;
    PacingFacts(c, pass, ids, run, at);
    SearchingSurvey(c, pass, ids, PerCluster(c.fat), run.name);
    ghost var before := Now(c, pass.walks + [ids], PerCluster(c.fat), true);
    if 2 <= following < c.fat.Total() {
      c.Note(false);
      c.crossed := true;
    }
    DirectoryDone(c, pass, ids, run, at, before);
  }

  /** The next cluster of a directory: marked. */
  method MarkOnward(c: Check, following: nat, ghost pass: Pass, ghost ids: seq<nat>, ghost run: LongRun,
                    ghost at: seq<(nat, nat)>)
    requires Pacing(c, pass, ids, PerCluster(c.fat), run, at) && |ids| > 0 && ids[|ids| - 1] < |c.fat.table|
    requires InRange(following, c.fat.Total()) && following < c.seen.Length && !c.seen[following]
    requires following == Link(c.fat.table[ids[|ids| - 1]])
    modifies c.seen
    ensures Pacing(c, pass, ids + [following], 0, run, at) && Unmarked(c.seen[..]) < Unmarked(old(c.seen[..]))
  {
    hide Between, Walked, Accounted, DataKept, SameRead, Mended, Kept, KeptAs, Queued, PartialAt, Link, RoomFor, RunIs,
         FreedIs, LogKept, Searching, Unmarked, LastIs, LiveAt, Follow, Onward, Volume.Valid, Volume.Geometry;
    PacingFacts(c, pass, ids, run, at);
    BetweenFacts(c, pass, ids, PerCluster(c.fat), run, at);
    KeptFacts(c, pass, ids);
    LinkKept(c, pass, ids);
    SearchingSurvey(c, pass, ids, PerCluster(c.fat), run.name);
    ghost var before, seen1 := Now(c, pass.walks + [ids], PerCluster(c.fat), true), c.seen[..];
    UnmarkedMark(seen1, following);
    c.seen[following] := true;
    assert c.seen[..] == seen1[following := true];
    ValidMarked(c);
    BetweenOnward(c, pass, ids, seen1, following, run, at);
    OnwardNow(before, c, pass.walks, ids, following);
    SearchOnward(c, pass, ids, before, following, run.name);
    WalkedOnward(c.fat, pass, ids, following);
  }

  lemma ValidMarked(c: Check)
    requires c.Valid()
    ensures c.fat.Geometry() && c.fat.Total() <= BAD && c.fat.Total() <= |c.fat.table|
  {
    hide Volume.Cached, Volume.Stored, Volume.Walked;
  }

  /** check_directory: every slot of every cluster the directory can claim, up to where its chain ends or meets a
      mark. */
  method CheckDirectory(c: Check, start: Word, parent: Word, root: nat, ghost ground: Ground,
                        ghost walks: seq<seq<nat>>)
    returns (ghost pass: Pass, ghost ids: seq<nat>)
    requires c.Valid() && InRange(start, c.fat.Total()) && c.seen[start] && Queued(c.queue, c.seen[..])
    requires Idle(c, ground, walks) && |walks| < |c.queue| && start == c.queue[|walks|].cluster &&
             root == ground.root && DataKept(c.fat, c.fat.Data(), ground.data, walks)
    requires Unmarked(c.seen[..]) + |c.queue| <= BAD && (!c.repair ==> !c.fat.cacheDirty)
    modifies c.fat, c.fat.disk, c.fat.cache, c.seen, c`faults, c`repaired, c`files, c`bytesInFiles, c`queue,
             c`queueLimit, c`asked, c`complete, c`crossed, c`directories, c`deeds, c`freed
    ensures c.Valid() && Queued(c.queue, c.seen[..]) && old(c.queue) <= c.queue && c.fat.apart <= old(c.fat.apart)
    ensures Unmarked(c.seen[..]) + |c.queue| <= Unmarked(old(c.seen[..])) + |old(c.queue)|
    ensures !c.repair ==> c.fat.table == old(c.fat.table) && c.fat.Data() == old(c.fat.Data())
    ensures pass.data == old(c.fat.Data()) && pass.ground == ground && PassIs(c.fat, pass, c.repair, ids) &&
            SameRead(c.fat, pass, ids) && pass.start == start && pass.parent == parent && pass.walks == walks
    ensures pass.deeds == old(c.deeds) && pass.freed == old(c.freed) && LogKept(pass, c.deeds, c.freed)
    ensures Mended(c.fat, c.fat.Data(), pass, ids, PerCluster(c.fat), c.deeds, c.freed) &&
            FreedIs(c.fat, pass, ids, PerCluster(c.fat), c.freed)
    ensures Idle(c, ground, walks + [ids]) && DataKept(c.fat, c.fat.Data(), ground.data, walks + [ids])
    ensures old(DiskHeld(c.fat, c.repair, pass.disk, pass.hint)) && DiskHeld(c.fat, c.repair, pass.disk, pass.hint)
  {
    hide Between, Slots, Unmarked, Volume.Cached, Volume.Stored, Volume.Walked, LastIs, LiveAt, Mended, Kept, KeptAs,
         Queued, Follow, RunIs, Searching, Accounted, DataKept, Idle, PassIs, Walked, SameRead, PartialAt, Link, Pacing,
         FreedIs, LogKept, Volume.Geometry;
    ghost var t, data, seen0, budget := c.fat.table, c.fat.Data(), c.seen[..], Unmarked(c.seen[..]) + |c.queue|;
    var last := CheckLastLive(c.fat, start);
    FrontThere(c.fat);
    pass := Pass(t, data, seen0, start, parent, last, c.repair, budget, c.fat.apart, ground, walks, c.deeds,
        c.freed, c.fat.disk[..], c.fat.searchHint);
    c.directories := c.directories + 1;
    var place := Place(start, parent, root, 0, 0, last);
    var cluster: nat, run := start, LongRun(NO_NAME, []);
    ghost var at: seq<(nat, nat)> := [];
    ids := [start];
    IdleFreed(c, ground, walks);
    PacingStart(c, pass, start);
    hide PassBegun;
    while true
      invariant Pacing(c, pass, ids, 0, run, at) && |ids| > 0 && cluster == ids[|ids| - 1]
      invariant place.ordinal == |ids| - 1 && PlaceIs(c.fat, pass, place)
      invariant old(c.queue) <= c.queue
      decreases Unmarked(c.seen[..])
    {
      run, at := CheckPaced(c, cluster, place, run, pass, ids, at);
      PacingFacts(c, pass, ids, run, at);
      var following := NextPaced(c, cluster, pass, ids, run, at);
      if !(2 <= following < c.fat.Total()) || c.seen[following] {
        StopDirectory(c, following, pass, ids, run, at);
        return;
      }
      MarkOnward(c, following, pass, ids, run, at);
      ids := ids + [following];
      cluster, place := following, place.(ordinal := place.ordinal + 1);
    }
  }

  lemma FrontThere(v: Volume)
    requires v.Valid()
    ensures v.reserved <= v.disk.Length
  {
    hide Volume.Cached, Volume.Stored, Volume.Walked, Times;
  }

  lemma IdleFreed(c: Check, ground: Ground, walks: seq<seq<nat>>)
    requires Idle(c, ground, walks)
    ensures forall s :: s in c.freed ==> s.walk < |walks|
  {
    hide Accounted, RoomFor;
  }

  /** The link behind the cluster just gone through; reading it moves nothing but the cache. */
  method NextPaced(c: Check, cluster: nat, ghost pass: Pass, ghost ids: seq<nat>, ghost run: LongRun,
                   ghost at: seq<(nat, nat)>)
    returns (following: nat)
    requires Pacing(c, pass, ids, PerCluster(c.fat), run, at) && |ids| > 0 && cluster == ids[|ids| - 1]
    requires InRange(cluster, c.fat.Total()) && c.fat.Total() <= |c.fat.table|
    modifies c.fat.disk, c.fat.cache, c.fat`cacheDirty, c.fat`cacheSector, c.fat`cacheValid, c.fat`apart
    ensures Pacing(c, pass, ids, PerCluster(c.fat), run, at) && following == Link(c.fat.table[cluster])
  {
    hide Mended, RunIs, KeptAs, Queued, Searching, Walked, DataKept, LastIs, LiveAt, Link, Volume.Cached, Volume.Stored,
         Volume.Walked, Times;
    following := c.fat.Next(cluster);
  }

  method CheckPaced(c: Check, cluster: nat, place: Place, run0: LongRun, ghost pass: Pass, ghost ids: seq<nat>,
                    ghost at0: seq<(nat, nat)>)
    returns (run: LongRun, ghost at: seq<(nat, nat)>)
    requires Pacing(c, pass, ids, 0, run0, at0) && |ids| > 0 && cluster == ids[|ids| - 1] && PlaceIs(c.fat, pass, place)
    requires place.ordinal == |ids| - 1
    modifies c.fat, c.fat.disk, c.fat.cache, c.seen, c`faults, c`repaired, c`files, c`bytesInFiles, c`queue,
             c`queueLimit, c`asked, c`complete, c`crossed, c`deeds, c`freed
    ensures Pacing(c, pass, ids, PerCluster(c.fat), run, at)
    ensures Unmarked(c.seen[..]) + |c.queue| <= Unmarked(old(c.seen[..])) + |old(c.queue)| && old(c.queue) <= c.queue
  {
    hide Between, Unmarked, Searching, DataKept, LastIs, LiveAt, Walked, Volume.Cached, Volume.Stored, Volume.Walked;
    run, at := CheckCluster(c, cluster, place, run0, pass, ids, at0);
    BetweenData(c, pass, ids, PerCluster(c.fat), run, at);
  }

  lemma BetweenData(c: Check, pass: Pass, ids: seq<nat>, i: nat, run: LongRun, at: seq<(nat, nat)>)
    requires Between(c, pass, ids, i, run, at)
    ensures c.fat.Geometry() && |c.fat.Data()| == |pass.data|
  {
    hide RunIs, Kept, Fits, Treated, Volume.Cached, Volume.Stored, Volume.Walked;
  }

  lemma SearchingSurvey(c: Check, pass: Pass, ids: seq<nat>, i: nat, name: Partial)
    requires Searching(c, pass, ids, i, name)
    ensures Accounted(c.fat, pass.ground, c.repair, Now(c, pass.walks + [ids], i, true), c.deeds) && c.Roomy()
    ensures |ids| > 0 && SameRead(c.fat, pass, ids) && i <= PerCluster(c.fat) &&
            name == PartialAt(c.fat, pass.ground.data, ids, |ids| - 1, i)
  {
    hide Accounted;
  }

  /** The link to follow is the one the chain had when the pass began. */
  lemma LinkKept(c: Check, pass: Pass, ids: seq<nat>)
    requires Kept(c, pass, ids) && |ids| > 0
    ensures ids[|ids| - 1] < |c.fat.table| == |pass.table| && c.fat.table[ids[|ids| - 1]] == pass.table[ids[|ids| - 1]]
  {
    hide Unmarked, Queued, LogKept;
    assert ids[|ids| - 1] in ids;
  }

  lemma WalkedOnward(v: Volume, pass: Pass, ids: seq<nat>, following: nat)
    requires Walked(v, pass, ids) && |ids| > 0 && v.Total() <= |pass.table| && v.Total() <= BAD &&
             InRange(ids[|ids| - 1], v.Total())
    requires InRange(following, v.Total()) && FatTable.Next(pass.table, v.Total(), ids[|ids| - 1]) == following
    ensures Walked(v, pass, ids + [following])
  {
    hide Follow;
    FollowNext(pass.table, v.Total(), pass.start, |ids| - 1);
  }

  lemma OnwardNow(before: Found, c: Check, walks: seq<seq<nat>>, ids: seq<nat>, following: nat)
    requires before.walks == walks + [ids] && following < |before.seen| && before == Found(c.fat.table, before.seen,
             c.queue, walks + [ids], before.i, true, c.complete, c.crossed)
    requires c.seen[..] == before.seen[following := true]
    ensures Now(c, walks + [ids + [following]], 0, true) == Onward(before, following)
  {
  }

  /** The end of one directory. */
  lemma SearchStop(c: Check, pass: Pass, ids: seq<nat>, before: Found)
    requires before.walks == pass.walks + [ids] && before.i == PerCluster(c.fat) && before.active && |ids| > 0
    requires before == Found(c.fat.table, c.seen[..], c.queue, pass.walks + [ids], PerCluster(c.fat), true, c.complete,
             before.crossed)
    requires c.Roomy() && |before.seen| == c.fat.Total() &&
             ids[|ids| - 1] < |before.table|
    requires var link := Link(before.table[ids[|ids| - 1]]);
             if InRange(link, c.fat.Total()) then before.seen[link] && c.crossed else c.crossed == before.crossed
    requires Accounted(c.fat, pass.ground, c.repair, before, c.deeds)
    requires forall s :: s in c.freed ==> s.walk < |pass.walks| + 1
    ensures Idle(c, pass.ground, pass.walks + [ids])
  {
    hide Accounted, Link, Slots;
    AccountedStop(c.fat, pass.ground, c.repair, before, Now(c, pass.walks + [ids], PerCluster(c.fat), false), c.deeds);
  }

  lemma IdleFacts(c: Check, ground: Ground, walks: seq<seq<nat>>)
    requires Idle(c, ground, walks)
    ensures Accounted(c.fat, ground, c.repair, Now(c, walks, Gone(c.fat, walks), false), c.deeds)
    ensures WalksApart(Now(c, walks, Gone(c.fat, walks), false)) && |walks| <= |c.queue| && c.Roomy()
    ensures forall q :: 0 <= q < |c.queue| ==> InRange(c.queue[q].cluster, c.fat.Total())
  {
    hide WalksFollow, EntriesFollowed, LinksFollowed, MarksMeant, WalksFresh, WalksWhole, Confined, TableKept, Times,
         OnRecord;
  }

  /** Between two directories: the survey stands, and every finished pass has left what it should. */
  ghost predicate Standing(c: Check, ground: Ground, walks: seq<seq<nat>>, passes: seq<Pass>)
    reads c`queue, c`queueRead, c`queueLimit, c`asked, c`complete, c`crossed, c`deeds, c`freed
    reads c.fat, c.fat.disk, c.fat.cache, c.seen
  {
    Unmarked(c.seen[..]) + |c.queue| <= BAD && c.Valid() && Queued(c.queue, c.seen[..]) && c.queueRead == |walks| &&
    Idle(c, ground, walks) && c.fat.Geometry() &&
    DataKept(c.fat, c.fat.Data(), ground.data, walks) &&
    AllMended(c.fat, c.fat.Data(), ground, c.repair, passes, walks, c.queue, c.deeds, c.freed)
  }

  /** The next directory of the queue. */
  method CheckNext(c: Check, root: Word, ghost ground: Ground, ghost whole: seq<Sector>, ghost hint: Word,
                   ghost walks0: seq<seq<nat>>, ghost passes0: seq<Pass>)
    returns (ghost walks: seq<seq<nat>>, ghost passes: seq<Pass>)
    requires Standing(c, ground, walks0, passes0) && c.queueRead < |c.queue| && root == ground.root
    requires DiskHeld(c.fat, c.repair, whole, hint)
    modifies c, c.fat, c.fat.disk, c.fat.cache, c.seen
    ensures Standing(c, ground, walks, passes) && c.queueRead == old(c.queueRead) + 1 && old(c.queue) <= c.queue
    ensures DiskHeld(c.fat, c.repair, whole, hint)
    ensures c.fat.apart <= old(c.fat.apart)
    ensures !c.repair ==> c.fat.table == old(c.fat.table) && c.fat.Data() == old(c.fat.Data())
    ensures Unmarked(c.seen[..]) + |c.queue| <= Unmarked(old(c.seen[..])) + |old(c.queue)|
  {
    hide Times, Slots, Unmarked, Volume.Start, Volume.Cached, Volume.Stored, Volume.Walked, LastIs, Mended, Walked,
         Accounted, PassIs, SlotsMended, SameRead, FreedIs, LogKept, AllMended, Idle, DataKept, WalksApart, Queued,
         PerCluster;
    var next := c.queue[c.queueRead];
    QueuedAt(c.queue, c.seen[..], c.queueRead);
    c.queueRead := c.queueRead + 1;
    ghost var queue := c.queue;
    ghost var pass, ids := CheckDirectory(c, next.cluster, next.parent, root, ground, walks0);
    walks, passes := walks0 + [ids], passes0 + [pass];
    IdleFacts(c, ground, walks);
    AllMendedMore(c.fat, c.fat.Data(), ground, c.repair, passes0, walks0, queue, pass, ids,
        Now(c, walks, Gone(c.fat, walks), false), c.deeds, c.freed);
  }

  /** The queue of directories, run dry: every one of them was marked when it was queued, so there are no more than
      clusters. */
  method CheckDirectories(c: Check, root: Word, ghost whole: seq<Sector>, ghost hint: Word)
    returns (ghost walks: seq<seq<nat>>, ghost passes: seq<Pass>)
    requires c.Valid() && InRange(root, c.fat.Total()) && c.queue == [Directory(root, root)] && c.queueRead == 0 &&
             c.complete && !c.crossed
    requires c.Roomy() && c.deeds == [] && c.freed == {}
    requires forall x :: 0 <= x < c.seen.Length ==> (c.seen[x] <==> x == root)
    requires DiskHeld(c.fat, c.repair, whole, hint)
    modifies c, c.fat, c.fat.disk, c.fat.cache, c.seen
    ensures c.Valid() && 0 < c.queueRead == |c.queue| == |walks| && c.fat.apart <= old(c.fat.apart) &&
            c.queue[0] == Directory(root, root)
    ensures !c.repair ==> c.fat.table == old(c.fat.table) && c.fat.Data() == old(c.fat.Data())
    ensures |c.queue| <= 1 + Unmarked(old(c.seen[..]))
    ensures Idle(c, Ground(old(c.fat.table), old(c.fat.Data()), root), walks)
    ensures AllMended(c.fat, c.fat.Data(), Ground(old(c.fat.table), old(c.fat.Data()), root), c.repair, passes, walks,
            c.queue, c.deeds, c.freed)
    ensures DataKept(c.fat, c.fat.Data(), old(c.fat.Data()), walks) && DiskHeld(c.fat, c.repair, whole, hint)
  {
    ghost var ground := Ground(c.fat.table, c.fat.Data(), root);
    walks, passes := [], [];
    IdleStart(c, ground);
    assert Standing(c, ground, walks, passes);
    hide Times, Unmarked, Volume.Cached, Volume.Stored, Volume.Walked, Idle, AllMended, DataKept, Queued, Standing;
    while c.queueRead < |c.queue|
      invariant Standing(c, ground, walks, passes) && c.queueRead <= |c.queue| && c.fat.apart <= old(c.fat.apart) &&
                old(c.queue) <= c.queue
      invariant !c.repair ==> c.fat.table == old(c.fat.table) && c.fat.Data() == old(c.fat.Data())
      invariant Unmarked(c.seen[..]) + |c.queue| <= Unmarked(old(c.seen[..])) + |old(c.queue)|
      invariant DiskHeld(c.fat, c.repair, whole, hint)
      decreases Unmarked(c.seen[..]) + |c.queue| - c.queueRead
    {
      walks, passes := CheckNext(c, root, ground, whole, hint, walks, passes);
      StandingFacts(c, ground, walks, passes);
    }
    StandingFacts(c, ground, walks, passes);
  }

  lemma StandingFacts(c: Check, ground: Ground, walks: seq<seq<nat>>, passes: seq<Pass>)
    requires Standing(c, ground, walks, passes)
    ensures c.Valid() && c.queueRead == |walks| <= |c.queue| && Idle(c, ground, walks) &&
            AllMended(c.fat, c.fat.Data(), ground, c.repair, passes, walks, c.queue, c.deeds, c.freed) &&
            DataKept(c.fat, c.fat.Data(), ground.data, walks)
  {
    hide Times, Unmarked, Volume.Cached, Volume.Stored, Volume.Walked, Idle, AllMended, DataKept, Queued;
  }

  lemma IdleStart(c: Check, ground: Ground)
    requires c.Valid() && InRange(ground.root, c.fat.Total()) && c.queue == [Directory(ground.root, ground.root)] &&
             c.complete && !c.crossed
    requires c.Roomy() && c.deeds == [] && c.freed == {}
    requires forall x :: 0 <= x < c.seen.Length ==> (c.seen[x] <==> x == ground.root)
    requires ground.table == c.fat.table && ground.data == c.fat.Data()
    ensures Idle(c, ground, []) && DataKept(c.fat, c.fat.Data(), ground.data, [])
    ensures AllMended(c.fat, c.fat.Data(), ground, c.repair, [], [], c.queue, c.deeds, c.freed)
    ensures Queued(c.queue, c.seen[..]) && Unmarked(c.seen[..]) + |c.queue| <= BAD
  {
    hide Surveyed, OnRecord, Times, Volume.Cached, Volume.Stored, Volume.Walked, Unmarked;
    OneMarked(c.seen[..], ground.root);
    SurveyInit(c.fat, ground, Now(c, [], 0, false));
    OnRecordNone(c.fat, ground, c.repair, Now(c, [], 0, false));
  }

  lemma OneMarked(seen: seq<bool>, c: nat)
    requires c < |seen| && seen[c]
    ensures Unmarked(seen) < |seen|
  {
    var before := seen[c := false];
    assert before[c := true] == seen;
    UnmarkedMark(before, c);
    UnmarkedBound(before);
  }

  lemma QueuedAt(queue: seq<Directory>, seen: seq<bool>, q: nat)
    requires Queued(queue, seen) && q < |queue|
    ensures InRange(queue[q].cluster, |seen|) && seen[queue[q].cluster] && InRange(queue[q].parent, |seen|)
  {
  }

  lemma CheckedNow(c: Check, ground: Ground, walks: seq<seq<nat>>, passes: seq<Pass>)
    requires Idle(c, ground, walks) && |walks| == |c.queue| > 0 && c.Valid()
    requires AllMended(c.fat, c.fat.Data(), ground, c.repair, passes, walks, c.queue, c.deeds, c.freed)
    requires DataKept(c.fat, c.fat.Data(), ground.data, walks)
    ensures Checked(c.fat, ground, Now(c, walks, PerCluster(c.fat), false), c.repair, c.fat.Data(), passes, c.deeds,
            c.freed)
    ensures c.Roomy() && c.fat.Total() <= |c.fat.table|
  {
    hide Accounted, AllMended, DataKept, RoomFor, Volume.Cached, Volume.Stored, Volume.Walked;
  }

  /** fat32_check. */
  method CheckVolume(fat: Volume, repair: bool, root: Word, grants: nat -> bool)
    returns (c: Check, ghost f: Found, ghost passes: seq<Pass>)
    requires fat.Valid() && InRange(root, fat.Total())
    modifies fat, fat.disk, fat.cache
    ensures c.fat == fat && c.repair == repair && c.Valid() && !fat.cacheDirty && c.grants == grants
    ensures !repair ==> fat.table == old(fat.table) && fat.Data() == old(fat.Data())
    ensures repair ==> fat.apart == {}
    ensures InfoCounts(fat) && SameFront(fat, old(fat.disk[..fat.reserved]))
    ensures FreeClusters(fat) == FreeCount(fat.table, 2, fat.Total())
    ensures !repair && old(!fat.cacheDirty) ==> OnlyInfo(old(fat.disk[..]), fat.disk[..], FreeClusters(fat),
            old(fat.searchHint))
    ensures c.clustersUsed + c.clustersFree + BadCount(fat.table, 2, fat.Total()) == fat.clusterCount
    ensures c.clustersFree == FreeCount(fat.table, 2, fat.Total()) && fat.Exact()
    ensures repair && c.complete ==> forall x :: 2 <= x < fat.Total() ==> !Lost(fat.table, c.seen[..], x)
    ensures c.Roomy() && f == Now(c, f.walks, PerCluster(fat), false).(table := f.table)
    ensures Checked(fat, Ground(old(fat.table), old(fat.Data()), root), f, repair, fat.Data(), passes, c.deeds,
                     c.freed)
    ensures fat.Total() <= |f.table| && fat.Total() <= |f.seen| &&
            c.clustersLost == LostCount(f.table, f.seen, 2, fat.Total())
    ensures EntriesKept(fat, fat.Data(), old(fat.Data()), f.walks) &&
            DataKept(fat, fat.Data(), old(fat.Data()), f.walks)
    ensures SizesRight(fat, Ground(old(fat.table), old(fat.Data()), root), repair, f, fat.Data(), c.deeds) &&
            DotsRight(fat, Ground(old(fat.table), old(fat.Data()), root), repair, f, fat.Data())
    ensures GivenBack(fat, Ground(old(fat.table), old(fat.Data()), root), repair, f, c.deeds, fat.table)
    ensures (exists clusters, directories, held ::
              Tidy(fat, Ground(old(fat.table), old(fat.Data()), root), clusters, directories, held)) ==> !c.crossed
    ensures (exists clusters, directories ::
              SurplusApart(fat, Ground(old(fat.table), old(fat.Data()), root), clusters, directories)) ==>
              NoneNames(fat, Ground(old(fat.table), old(fat.Data()), root), f.walks, fat.table)
    ensures repair ==> forall w :: 0 <= w < |f.walks| && |f.walks[w]| <= CHECK_CHAIN_MAX ==>
            NothingHidden(fat, fat.Data(), f.walks[w])
  {
    hide Times, Slots, Unmarked, Volume.Start, Volume.Cached, Volume.Stored, Volume.Walked, FreeCount, BadCount,
         LostCount, Swept, Lost, Compared, Informed, FreeClusters, Signed, Volume.Exact, AllMended, Idle, DataKept,
         Tidy, GivenBack, NoneNames, SurplusApart, NothingHidden, Checked, EntriesKept, RoomFor,
         SizesRight, DotsRight, SameFront, InfoCounts, SameButInfo, OnlyInfo;
    ghost var ground := Ground(fat.table, fat.Data(), root);
    ghost var front0 := fat.disk[..fat.reserved];
    c := StartCheck(fat, repair, root, grants);
    ghost var walks;
    ghost var disk1, free1 := fat.disk[..], FreeClusters(fat);
    FrontThere(fat);
    FrontOnce(fat, front0);
    walks, passes := CheckDirectories(c, root, disk1, fat.searchHint);
    f := Now(c, walks, PerCluster(fat), false);
    CheckedNow(c, ground, walks, passes);
    CheckedSizes(fat, ground, f, repair, fat.Data(), passes, c.deeds, c.freed);
    EndCheck(c);
    FrontAgain(fat, disk1[..fat.reserved], front0);
    if !repair && old(!fat.cacheDirty) {
      OnlyInfoTwice(old(fat.disk[..]), disk1, fat.disk[..], free1, FreeClusters(fat), fat.searchHint, fat.searchHint);
    }
    CheckedFacts(fat, ground, f, repair, fat.Data(), passes, c.deeds, c.freed);
    SweptClean(f.table, f.seen, fat.Total());
  }

  /** The table swept and counted, and committed again. */
  method EndCheck(c: Check)
    requires c.Valid()
    modifies c.fat, c.fat.disk, c.fat.cache, c`clustersUsed, c`clustersFree, c`clustersLost, c`faults, c`repaired
    ensures c.Valid() && c.fat.Data() == old(c.fat.Data()) && c.fat.apart <= old(c.fat.apart) && !c.fat.cacheDirty
    ensures c.fat.table == if c.repair && c.complete then Swept(old(c.fat.table), c.seen[..], c.fat.Total())
            else old(c.fat.table)
    ensures c.clustersUsed + c.clustersFree + BadCount(c.fat.table, 2, c.fat.Total()) == c.fat.clusterCount
    ensures c.clustersFree == FreeCount(c.fat.table, 2, c.fat.Total()) == FreeClusters(c.fat) && c.fat.Exact()
    ensures c.clustersLost == LostCount(old(c.fat.table), c.seen[..], 2, c.fat.Total())
    ensures InfoCounts(c.fat) && SameFront(c.fat, old(c.fat.disk[..c.fat.reserved]))
    ensures !c.repair ==> c.fat.searchHint == old(c.fat.searchHint)
    ensures !c.repair && old(!c.fat.cacheDirty) ==> OnlyInfo(old(c.fat.disk[..]), c.fat.disk[..],
            FreeClusters(c.fat), c.fat.searchHint)
  {
    hide Volume.Cached, Volume.Stored, Volume.Walked, Volume.Exact, FreeCount, BadCount, LostCount, Swept, SameFront,
         InfoCounts, SameButInfo, OnlyInfo, FreeClusters, Signed, Informed;
    ghost var front := c.fat.disk[..c.fat.reserved];
    CheckLost(c);
    FrontOnce(c.fat, front);
    ghost var middle := c.fat.disk[..c.fat.reserved];
    Commit(c.fat);
    FrontAgain(c.fat, middle, front);
    FreeClustersExact(c.fat);
  }

  /** The table committed and its copies compared, the root marked and queued. */
  method StartCheck(fat: Volume, repair: bool, root: Word, grants: nat -> bool) returns (c: Check)
    requires fat.Valid() && InRange(root, fat.Total())
    modifies fat, fat.disk
    ensures fresh(c) && fresh(c.seen) && c.fat == fat && c.repair == repair && c.grants == grants && c.Valid()
    ensures c.queue == [Directory(root, root)] && c.queueRead == 0 && c.complete && !c.crossed && c.Roomy()
    ensures c.deeds == [] && c.freed == {}
    ensures forall x :: 0 <= x < c.seen.Length ==> (c.seen[x] <==> x == root)
    ensures fat.Data() == old(fat.Data()) && fat.table == old(fat.table) && (repair ==> fat.apart == {})
    ensures SameFront(fat, old(fat.disk[..fat.reserved])) && !fat.cacheDirty
    ensures fat.searchHint == old(fat.searchHint)
    ensures !repair && old(!fat.cacheDirty) ==> OnlyInfo(old(fat.disk[..]), fat.disk[..], FreeClusters(fat),
            fat.searchHint)
  {
    hide Times, Volume.Start, Volume.Cached, Volume.Stored, Volume.Walked, Compared, Informed, FreeClusters, Signed,
         Volume.Exact, RoomFor, OnlyInfo;
    c := new Check(fat, repair, grants);
    Commit(fat);
    CheckFatCopies(c);
    c.seen[root] := true;
    c.queue := [Directory(root, root)];
    RoomAtFirst(grants);
  }

  lemma RoomAtFirst(grants: nat -> bool)
    ensures RoomFor(grants, 1, CHECK_QUEUE_START, 0, true)
  {
  }
}
