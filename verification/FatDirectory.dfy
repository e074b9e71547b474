/** kernel/fat32.c: finding room in a directory, growing it, and sealing the cluster it grows past. */
module FatDirectory {
  import opened Words
  import opened FatTable
  import opened FatVolume
  import opened FatAllocation
  import opened FatContents
  import opened FatWrite
  import opened FatSlots

  // ---- Sealing --------------------------------------------------------------------

  /** An end mark turned into a deleted entry. */
  function SealRaw(raw: Raw): Raw {
    if raw[0] == ENTRY_END then raw[0 := ENTRY_FREE] else raw
  }

  /** The first n slots sealed. */
  function SealedTo(s: seq<Raw>, n: nat): (t: seq<Raw>)
    ensures |t| == |s|
  {
    seq(|s|, i requires 0 <= i < |s| => if i < n then SealRaw(s[i]) else s[i])
  }

  /** The slots of one sector. */
  method SealSector(s: Sector) returns (t: Sector, changed: bool)
    ensures forall slot :: 0 <= slot < ENTRIES_PER_SECTOR ==> SlotIn(t, slot) == SealRaw(SlotIn(s, slot))
    ensures !changed ==> t == s
  {
    t, changed := s, false;
    var slot := 0;
    while slot < ENTRIES_PER_SECTOR
      invariant slot <= ENTRIES_PER_SECTOR && (!changed ==> t == s)
      invariant forall k :: 0 <= k < ENTRIES_PER_SECTOR ==> SlotIn(t, k) == if k < slot then SealRaw(SlotIn(s, k))
                else SlotIn(s, k)
    {
      var raw := SlotIn(t, slot);
      if raw[0] == ENTRY_END {
        forall k | 0 <= k < ENTRIES_PER_SECTOR
          ensures SlotIn(SlotPut(t, slot, raw[0 := ENTRY_FREE]), k) == if k == slot then raw[0 := ENTRY_FREE]
                  else SlotIn(t, k)
        {
          SlotPutGet(t, slot, raw[0 := ENTRY_FREE], k);
        }
        t, changed := SlotPut(t, slot, raw[0 := ENTRY_FREE]), true;
      }
      slot := slot + 1;
    }
  }

  /** One more sector of the cluster is sealed. */
  lemma SealedSector(v: Volume, data: seq<Sector>, before: seq<Sector>, cluster: nat, j: nat, s: Sector)
    requires 2 <= cluster && v.Start(cluster) + v.sectorsPerCluster <= |before| && j < v.sectorsPerCluster
    requires SlotChanged(v, data, before, cluster, SealedTo(Slots(v, before, cluster), j * ENTRIES_PER_SECTOR))
    requires forall slot :: 0 <= slot < ENTRIES_PER_SECTOR ==>
             SlotIn(s, slot) == SealRaw(SlotIn(data[v.Start(cluster) + j], slot))
    ensures SlotChanged(v, Overlaid(data, v.Start(cluster) + j, [s]), before, cluster,
            SealedTo(Slots(v, before, cluster), (j + 1) * ENTRIES_PER_SECTOR))
  {
    hide SlotIn, Times, Overlaid;
    var after, was := Overlaid(data, v.Start(cluster) + j, [s]), Slots(v, before, cluster);
    SectorReplaced(v, data, cluster, j, s);
    var goal := SealedTo(was, (j + 1) * ENTRIES_PER_SECTOR);
    forall i | 0 <= i < PerCluster(v)
      ensures Slots(v, after, cluster)[i] == goal[i]
    {
      var q, r := i / ENTRIES_PER_SECTOR, i % ENTRIES_PER_SECTOR;
      assert i == q * ENTRIES_PER_SECTOR + r;
      assert Slots(v, data, cluster)[i] == SealedTo(was, j * ENTRIES_PER_SECTOR)[i];
      if q == j {
        assert Slots(v, data, cluster)[i] == was[i];
      }
    }
    forall c: nat | 2 <= c && c != cluster && v.Start(c) + v.sectorsPerCluster <= |data|
      ensures SameCluster(v, after, before, c)
    {
      OthersUntouched(v, data, cluster, j, s, c);
      assert SameCluster(v, data, before, c);
    }
  }

  /** seal_directory_cluster: no end mark is left in the cluster, and everything else is as it was. */
  method SealDirectoryCluster(v: Volume, cluster: nat)
    requires v.Valid() && InRange(cluster, v.Total())
    modifies v.disk
    ensures v.Valid() && v.disk[..v.reserved] == old(v.disk[..v.reserved])
    ensures v.Start(cluster) + v.sectorsPerCluster <= |old(v.Data())|
    ensures SlotChanged(v, v.Data(), old(v.Data()), cluster, SealedTo(Slots(v, old(v.Data()), cluster), PerCluster(v)))
  {
    hide Volume.Cached, Volume.Stored, Volume.Walked, Times, SlotChanged, SealedTo, Slots, Volume.Start, Overlaid,
         SealRaw, SlotIn;
    v.ClusterInside(cluster);
    ghost var before := v.Data();
    var first := v.FirstSector(cluster);
    SealedNone(v, before, cluster);
    var index := 0;
    while index < v.sectorsPerCluster
      invariant index <= v.sectorsPerCluster && v.Valid() && v.disk[..v.reserved] == old(v.disk[..v.reserved])
      invariant |v.Data()| == |before| && SlotChanged(v, v.Data(), before, cluster,
                SealedTo(Slots(v, before, cluster), index * ENTRIES_PER_SECTOR))
    {
      var sector := v.disk[first + index];
      var sealed, changed := SealSector(sector);
      assert sector == v.Data()[v.Start(cluster) + index];
      SealedSector(v, v.Data(), before, cluster, index, sealed);
      if changed {
        v.WriteRun(first + index, [sealed]);
      } else {
        OverlaySame(v.Data(), v.Start(cluster) + index);
      }
      index := index + 1;
    }
  }

  lemma OverlaySame(data: seq<Sector>, at: nat)
    requires at < |data|
    ensures Overlaid(data, at, [data[at]]) == data
  {
  }

  lemma SealedNone(v: Volume, data: seq<Sector>, cluster: nat)
    requires 2 <= cluster && v.Start(cluster) + v.sectorsPerCluster <= |data|
    ensures SlotChanged(v, data, data, cluster, SealedTo(Slots(v, data, cluster), 0))
  {
    hide Slots;
    assert SealedTo(Slots(v, data, cluster), 0) == Slots(v, data, cluster);
  }

  // ---- Room for a set of entries ---------------------------------------------------

  /** Vacant slots from `index` on, with no end mark before them in their cluster. */
  predicate Room(s: seq<Raw>, index: nat, count: nat) {
    index + count <= |s| && (forall i :: index <= i < index + count ==> Vacant(s[i])) && forall i :: 0 <= i < index ==>
    s[i][0] != ENTRY_END
  }

  /** `count` vacant slots in a row. */
  predicate HasRun(s: seq<Raw>, count: nat) {
    exists index: nat :: index + count <= |s| && VacantRun(s, index, count)
  }

  predicate VacantRun(s: seq<Raw>, index: nat, count: nat)
    requires index + count <= |s|
  {
    forall i :: index <= i < index + count ==> Vacant(s[i])
  }

  /** No such run ends at or before `upto`. */
  predicate NoRun(s: seq<Raw>, count: nat, upto: nat)
    requires upto <= |s|
  {
    forall index: nat :: index + count <= upto ==> !VacantRun(s, index, count)
  }

  /** Where the search of a cluster stands: a run of vacant slots that ends here, none long enough before. */
  predicate Scan(s: seq<Raw>, count: nat, index: nat, run: nat, runIndex: nat) {
    index <= |s| && run < count && run <= index && NoRun(s, count, index) &&
    (run < index ==> !Vacant(s[index - run - 1])) &&
    if run > 0 then runIndex + run == index && Room(s, runIndex, run) else forall i :: 0 <= i < index ==>
        s[i][0] != ENTRY_END
  }

  lemma ScanStart(s: seq<Raw>, count: nat)
    requires 0 < count
    ensures Scan(s, count, 0, 0, 0)
  {
  }

  lemma ScanVacant(s: seq<Raw>, count: nat, index: nat, run: nat, runIndex: nat)
    requires Scan(s, count, index, run, runIndex) && index < |s| && Vacant(s[index])
    ensures var first := if run == 0 then index else runIndex;
            if run + 1 == count then Room(s, first, count) && HasRun(s, count)
                else Scan(s, count, index + 1, run + 1, first)
  {
    var first := if run == 0 then index else runIndex;
    if run + 1 == count {
      assert VacantRun(s, first, count);
    } else {
      NoRunNext(s, count, index, run + 1);
    }
  }

  lemma ScanLive(s: seq<Raw>, count: nat, index: nat, run: nat, runIndex: nat)
    requires Scan(s, count, index, run, runIndex) && index < |s| && !Vacant(s[index]) && EndsLast(s)
    ensures Scan(s, count, index + 1, 0, runIndex)
  {
    NoRunNext(s, count, index, 0);
  }

  lemma ScanDone(s: seq<Raw>, count: nat, run: nat, runIndex: nat)
    requires Scan(s, count, |s|, run, runIndex)
    ensures !HasRun(s, count)
  {
  }

  lemma NoRunNext(s: seq<Raw>, count: nat, upto: nat, run: nat)
    requires upto < |s| && NoRun(s, count, upto) && run < count && run <= upto + 1
    requires run <= upto ==> !Vacant(s[upto - run])
    ensures NoRun(s, count, upto + 1)
  {
    forall index: nat | index + count <= upto + 1
      ensures !VacantRun(s, index, count)
    {
      if index + count == upto + 1 {
        assert !Vacant(s[upto - run]);
      }
    }
  }

  /** The search of one cluster for `count` vacant slots in a row. */
  method ScanCluster(v: Volume, cluster: nat, count: nat) returns (found: bool, runIndex: nat)
    requires v.Valid() && InRange(cluster, v.Total()) && 0 < count
    requires v.Start(cluster) + v.sectorsPerCluster <= |v.Data()| && EndsLast(Slots(v, v.Data(), cluster))
    ensures found ==> Room(Slots(v, v.Data(), cluster), runIndex, count)
    ensures found <==> HasRun(Slots(v, v.Data(), cluster), count)
  {
    hide Volume.Cached, Volume.Stored, Volume.Walked, Times, SlotIn, Slots, Volume.Start, Scan, HasRun, Room, EndsLast,
         Vacant;
    ghost var s := Slots(v, v.Data(), cluster);
    v.ClusterInside(cluster);
    ScanStart(s, count);
    var sector := v.disk[v.FirstSector(cluster)];
    var run: nat, index: nat := 0, 0;
    runIndex := 0;
    while index < v.sectorsPerCluster * ENTRIES_PER_SECTOR
      invariant index <= |s| == v.sectorsPerCluster * ENTRIES_PER_SECTOR && Scan(s, count, index, run, runIndex)
      invariant index % ENTRIES_PER_SECTOR != 0 ==>
                sector == v.disk[v.FirstSector(cluster) + index / ENTRIES_PER_SECTOR]
    {
      if index % ENTRIES_PER_SECTOR == 0 {
        sector := v.disk[v.FirstSector(cluster) + index / ENTRIES_PER_SECTOR];
      }
      var raw := SlotIn(sector, index % ENTRIES_PER_SECTOR);
      SlotHere(v, cluster, index);
      if Vacant(raw) {
        ScanVacant(s, count, index, run, runIndex);
        if run == 0 {
          runIndex := index;
        }
        run := run + 1;
        if run == count {
          return true, runIndex;
        }
      } else {
        ScanLive(s, count, index, run, runIndex);
        run := 0;
      }
      index := index + 1;
    }
    ScanDone(s, count, run, runIndex);
    return false, 0;
  }

  lemma SlotHere(v: Volume, cluster: nat, index: nat)
    requires v.Geometry() && InRange(cluster, v.Total()) && index < PerCluster(v)
    ensures v.Start(cluster) + v.sectorsPerCluster <= |v.Data()|
    ensures v.FirstSector(cluster) + index / ENTRIES_PER_SECTOR < v.disk.Length
    ensures SlotIn(v.disk[v.FirstSector(cluster) + index / ENTRIES_PER_SECTOR], index % ENTRIES_PER_SECTOR) == Slots(v,
            v.Data(), cluster)[index]
  {
    v.ClusterInside(cluster);
  }

  /** The same entries in the same places; only what marks a vacant slot may differ. */
  ghost predicate SameEntries(s: seq<Raw>, before: seq<Raw>) {
    |s| == |before| &&
    forall i :: 0 <= i < |s| ==>
      (Vacant(s[i]) <==> Vacant(before[i])) && (!Vacant(before[i]) ==> s[i] == before[i])
  }

  /** A directory that may have grown: the same entries, room in any new cluster, the rule about end marks kept, and
      nothing outside the directory touched but one spare cluster, when there is one. */
  ghost predicate Tended(v: Volume, data: seq<Sector>, before: seq<Sector>, ids0: seq<nat>, ids: seq<nat>, spare: nat) {
    |data| == |before| && ids0 <= ids && Sealed(v, data, ids) &&
    (forall k :: 0 <= k < |ids0| ==> SameEntries(Slots(v, data, ids[k]), Slots(v, before, ids[k]))) &&
    (forall k, i :: |ids0| <= k < |ids| && 0 <= i < PerCluster(v) ==> Vacant(Slots(v, data, ids[k])[i])) &&
    forall c: nat :: 2 <= c && c !in ids && c != spare && v.Start(c) + v.sectorsPerCluster <= |data| ==>
        SameCluster(v, data, before, c)
  }

  lemma TendedNot(v: Volume, data: seq<Sector>, ids: seq<nat>)
    requires Sealed(v, data, ids)
    ensures Tended(v, data, data, ids, ids, 0)
  {
    hide Slots;
  }

  lemma SealedEntries(s: seq<Raw>)
    ensures NoEnd(SealedTo(s, |s|)) && SameEntries(SealedTo(s, |s|), s)
  {
  }

  /** Sealing the last cluster of a directory keeps the rule. */
  lemma TendedSealed(v: Volume, data: seq<Sector>, before: seq<Sector>, ids: seq<nat>)
    requires Sealed(v, before, ids) && Distinct(ids) && |ids| > 0
    requires SlotChanged(v, data, before, ids[|ids| - 1], SealedTo(Slots(v, before, ids[|ids| - 1]), PerCluster(v)))
    ensures Tended(v, data, before, ids, ids, 0) && NoEnd(Slots(v, data, ids[|ids| - 1]))
  {
    hide Slots, SealedTo, Times;
    var last := ids[|ids| - 1];
    SealedEntries(Slots(v, before, last));
    forall k | 0 <= k < |ids| - 1
      ensures Slots(v, data, ids[k]) == Slots(v, before, ids[k])
    {
      SameSlots(v, data, before, ids[k]);
    }
    assert last in ids;
  }

  lemma BlankSlots(v: Volume, data: seq<Sector>, cluster: nat)
    requires 2 <= cluster && v.Start(cluster) + v.sectorsPerCluster <= |data|
    ensures SlotChanged(v, v.Blanked(data, cluster), data, cluster, Slots(v, v.Blanked(data, cluster), cluster))
    ensures forall i :: 0 <= i < PerCluster(v) ==> Slots(v, v.Blanked(data, cluster), cluster)[i][0] == ENTRY_END
  {
    hide Times;
    var after := v.Blanked(data, cluster);
    forall c: nat | 2 <= c && c != cluster && v.Start(c) + v.sectorsPerCluster <= |data|
      ensures SameCluster(v, after, data, c)
    {
      BlankElsewhere(v, data, cluster, c);
    }
  }

  lemma BlankElsewhere(v: Volume, data: seq<Sector>, cluster: nat, c: nat)
    requires 2 <= cluster && v.Start(cluster) + v.sectorsPerCluster <= |data|
    requires 2 <= c && c != cluster && v.Start(c) + v.sectorsPerCluster <= |data|
    ensures SameCluster(v, v.Blanked(data, cluster), data, c)
  {
    hide Times;
    if c < cluster {
      StartsApart(v, c, cluster);
    } else {
      StartsApart(v, cluster, c);
    }
    var after, at, n := v.Blanked(data, cluster), v.Start(c), v.sectorsPerCluster;
    forall i | at <= i < at + n
      ensures after[i] == data[i]
    {
    }
  }

  /** Growing past a sealed cluster keeps the rule: the new cluster is all end marks. */
  lemma TendedGrown(v: Volume, data: seq<Sector>, before: seq<Sector>, ids: seq<nat>, found: nat)
    requires Tended(v, data, before, ids, ids, 0) && |ids| > 0 && NoEnd(Slots(v, data, ids[|ids| - 1]))
    requires found !in ids && 2 <= found && v.Start(found) + v.sectorsPerCluster <= |data|
    ensures Tended(v, v.Blanked(data, found), before, ids, ids + [found], 0)
    ensures Room(Slots(v, v.Blanked(data, found), found), 0, PerCluster(v))
  {
    hide Slots, Times, Volume.Blanked;
    var after, longer := v.Blanked(data, found), ids + [found];
    BlankSlots(v, data, found);
    forall k | 0 <= k < |ids|
      ensures longer[k] == ids[k] && Slots(v, after, ids[k]) == Slots(v, data, ids[k])
    {
      assert ids[k] in ids;
      SameSlots(v, after, data, ids[k]);
    }
    assert longer[|ids|] == found;
    forall c: nat | 2 <= c && c !in longer && v.Start(c) + v.sectorsPerCluster <= |data|
      ensures SameCluster(v, after, before, c)
    {
      assert c != found by {
        assert longer[|ids|] == found;
      }
      assert forall k :: 0 <= k < |ids| ==> longer[k] == ids[k];
      assert c !in ids;
      assert SameCluster(v, data, before, c) && SameCluster(v, after, data, c);
    }
  }

  /** Clearing a cluster for a directory yet to be. */
  lemma TendedBlanked(v: Volume, data: seq<Sector>, before: seq<Sector>, ids0: seq<nat>, ids: seq<nat>, spare: nat)
    requires Tended(v, data, before, ids0, ids, 0)
    requires spare !in ids && 2 <= spare && v.Start(spare) + v.sectorsPerCluster <= |data|
    ensures Tended(v, v.Blanked(data, spare), before, ids0, ids, spare)
  {
    var after := v.Blanked(data, spare);
    hide Slots, Times, Volume.Blanked;
    forall k | 0 <= k < |ids|
      ensures Slots(v, after, ids[k]) == Slots(v, data, ids[k])
    {
      assert ids[k] in ids;
      BlankElsewhere(v, data, spare, ids[k]);
      SameSlots(v, after, data, ids[k]);
    }
    forall c: nat | 2 <= c && c !in ids && c != spare && v.Start(c) + v.sectorsPerCluster <= |data|
      ensures SameCluster(v, after, before, c)
    {
      BlankElsewhere(v, data, spare, c);
      assert SameCluster(v, data, before, c);
    }
  }

  /** Growing the directory by one sealed-off cluster. */
  method Grow(v: Volume, last: nat, ghost ids0: seq<nat>) returns (added: nat, ghost ids: seq<nat>)
    requires v.Valid() && Chain(v.table, v.Total(), ids0) && Sealed(v, v.Data(), ids0) && last == ids0[|ids0| - 1]
    modifies v.disk, v.cache, v
    ensures v.Valid() && v.disk[..v.reserved] == old(v.disk[..v.reserved]) && v.apart <= old(v.apart) &&
            (old(v.Exact()) ==> v.Exact())
    ensures Grown(old(v.table), v.table, v.Total(), ids0, ids) && Tended(v, v.Data(), old(v.Data()), ids0, ids, 0)
    ensures added == 0 <==> Full(old(v.table), v.Total())
    ensures added == 0 ==> v.table == old(v.table) && ids == ids0
    ensures added != 0 ==> InRange(added, v.Total()) && v.Start(added) + v.sectorsPerCluster <= |v.Data()|
    ensures added != 0 ==> v.cacheDirty && ids == ids0 + [added] && Room(Slots(v, v.Data(), added), 0, PerCluster(v))
  {
    hide Volume.Cached, Volume.Stored, Volume.Walked, Volume.Exact, Sealed, Slots, SlotChanged, Tended, SealedTo,
         Times, Volume.Start, Volume.Blanked, Extended, Link;
    ghost var t, before := v.table, v.Data();
    ids := ids0;
    ChainDistinct(t, v.Total(), ids);
    ChainHoldsNoFree(t, v.Total(), ids, |ids| - 1);
    GrownNot(t, v.Total(), ids);
    hide Chain, Grown;
    SealDirectoryCluster(v, last);
    TendedSealed(v, v.Data(), before, ids);
    ghost var middle := v.Data();
    added := AllocateCluster(v, last, true);
    if added != 0 {
      v.ClusterInside(added);
      GrownMore(t, t, v.Total(), ids, ids, added);
      TendedGrown(v, middle, before, ids, added);
      ids := ids + [added];
    }
  }

  /** Some cluster of the directory has room. */
  ghost predicate HasRoom(v: Volume, data: seq<Sector>, ids: seq<nat>, count: nat)
    requires Fits(v, data, ids)
  {
    exists k :: 0 <= k < |ids| && HasRun(Slots(v, data, ids[k]), count)
  }

  /** find_free_slots: room for `count` entries in one cluster, the directory growing by one cluster exactly when
      there is none. */
  method FindFreeSlots(v: Volume, directory: nat, count: nat, ghost ids0: seq<nat>)
    returns (found: bool, cluster: nat, index: nat, ghost ids: seq<nat>)
    requires v.Valid() && Chain(v.table, v.Total(), ids0) && Sealed(v, v.Data(), ids0) && directory == ids0[0] &&
             0 < count
    modifies v.disk, v.cache, v
    ensures v.Valid() && v.disk[..v.reserved] == old(v.disk[..v.reserved]) && v.apart <= old(v.apart) &&
            (old(v.Exact()) ==> v.Exact())
    ensures Grown(old(v.table), v.table, v.Total(), ids0, ids) && Tended(v, v.Data(), old(v.Data()), ids0, ids, 0)
    ensures found ==> 2 <= cluster && cluster in ids && v.Start(cluster) + v.sectorsPerCluster <= |v.Data()| &&
                      Room(Slots(v, v.Data(), cluster), index, count)
    ensures found <==>
            count <= PerCluster(v) && (HasRoom(v, old(v.Data()), ids0, count) || !Full(old(v.table), v.Total()))
    ensures if found && !HasRoom(v, old(v.Data()), ids0, count) then |ids| == |ids0| + 1 else ids == ids0
    ensures if ids == ids0 then v.table == old(v.table) else v.cacheDirty
  {
    hide Volume.Cached, Volume.Stored, Volume.Walked, Volume.Exact, Sealed, Slots, Tended, Grown, Times, Volume.Start,
         Chain, EndsLast, Room, HasRun, Full;
    ids := ids0;
    GrownNot(v.table, v.Total(), ids0);
    TendedNot(v, v.Data(), ids0);
    ChainHead(v.table, v.Total(), ids0);
    SealedFits(v, v.Data(), ids0);
    if count > v.sectorsPerCluster * ENTRIES_PER_SECTOR {
      return false, 0, 0, ids;
    }
    ghost var data := v.Data();
    cluster := directory;
    ghost var k: nat := 0;
    while true
      invariant v.Valid() && v.Elsewhere() == old(v.Elsewhere()) && v.apart <= old(v.apart) && v.table == old(v.table)
      invariant old(v.Exact()) ==> v.Exact()
      invariant k < |ids0| && cluster == ids0[k] && ids == ids0
      invariant forall j :: 0 <= j < k ==> !HasRun(Slots(v, data, ids0[j]), count)
      decreases |ids0| - k
    {
      ChainNext(v.table, v.Total(), ids0, k);
      SealedEnds(v, v.Data(), ids0, k);
      found, index := ScanCluster(v, cluster, count);
      if found {
        return;
      }
      var following := v.Next(cluster);
      if following >= END_MINIMUM || following < 2 {
        cluster, ids := Grow(v, cluster, ids0);
        if cluster != 0 {
          assert ids[|ids0|] == cluster;
          RoomLess(v, cluster, count);
        }
        return cluster != 0, cluster, 0, ids;
      }
      cluster, k := following, k + 1;
    }
  }

  lemma SealedFits(v: Volume, data: seq<Sector>, ids: seq<nat>)
    requires Sealed(v, data, ids)
    ensures Fits(v, data, ids)
  {
    hide Slots;
  }

  lemma SealedEnds(v: Volume, data: seq<Sector>, ids: seq<nat>, k: nat)
    requires Sealed(v, data, ids) && k < |ids|
    ensures v.Start(ids[k]) + v.sectorsPerCluster <= |data| && EndsLast(Slots(v, data, ids[k]))
  {
    hide Slots;
  }

  lemma RoomLess(v: Volume, cluster: nat, count: nat)
    requires v.Geometry() && InRange(cluster, v.Total()) && v.Start(cluster) + v.sectorsPerCluster <= |v.Data()|
    requires Room(Slots(v, v.Data(), cluster), 0, PerCluster(v)) && count <= PerCluster(v)
    ensures Room(Slots(v, v.Data(), cluster), 0, count)
  {
    hide Slots;
  }
}
