/** kernel/fat32.c: fat32_create and fat32_remove, and what they leave of a directory. */
module FatCreate {
  import opened Words
  import opened LittleEndian
  import opened FatTable
  import opened FatVolume
  import opened FatAllocation
  import opened FatContents
  import opened FatWrite
  import opened FatSlots
  import opened FatDirectory
  import opened LongName
  import opened EntryReader
  import opened FatReaddir
  import opened FatEntries
  import opened ShortNames

  // ---- What is promised of a directory ----------------------------------------------------

  predicate HasShort(raw: Raw) {
    !Vacant(raw) && !IsLongName(raw)
  }

  /** No two short entries of the directory have the same name. */
  ghost predicate ShortNamesDiffer(v: Volume, data: seq<Sector>, ids: seq<nat>) {
    Fits(v, data, ids) &&
    forall k, i, l, j ::
      (0 <= k < |ids| && 0 <= i < PerCluster(v) && 0 <= l < |ids| && 0 <= j < PerCluster(v) && (k != l || i != j) &&
       HasShort(Slots(v, data, ids[k])[i]) && HasShort(Slots(v, data, ids[l])[j])) ==>
      Slots(v, data, ids[k])[i][..11] != Slots(v, data, ids[l])[j][..11]
  }

  /** A set of slots has been added to a directory, in place of vacant ones; every other entry is where it was. */
  ghost predicate Added(v: Volume, data: seq<Sector>, before: seq<Sector>, ids0: seq<nat>, ids: seq<nat>, k: nat,
                        index: nat, raws: seq<Raw>,
                        spare: nat) {
    |data| == |before| && ids0 <= ids && Sealed(v, data, ids) && Fits(v, before, ids) && k < |ids| &&
    index + |raws| <= PerCluster(v) &&
    Slots(v, data, ids[k])[index..index + |raws|] == raws &&
    (forall j, i :: 0 <= j < |ids0| && 0 <= i < PerCluster(v) ==>
       if j == k && index <= i < index + |raws| then Vacant(Slots(v, before, ids[j])[i])
       else SameEntry(Slots(v, data, ids[j])[i], Slots(v, before, ids[j])[i])) &&
    (forall j, i :: |ids0| <= j < |ids| && 0 <= i < PerCluster(v) && !(j == k && index <= i < index + |raws|) ==>
       Vacant(Slots(v, data, ids[j])[i])) &&
    forall c: nat :: 2 <= c && c !in ids && c != spare && v.Start(c) + v.sectorsPerCluster <= |data| ==>
        SameCluster(v, data, before, c)
  }

  predicate SameEntry(raw: Raw, before: Raw) {
    if Vacant(before) then Vacant(raw) else raw == before
  }

  /** A set put into the room that was found for it. */
  lemma AddedInRoom(v: Volume, data: seq<Sector>, middle: seq<Sector>, before: seq<Sector>, ids0: seq<nat>,
                    ids: seq<nat>, k: nat, index: nat,
                    raws: seq<Raw>, spare: nat)
    requires Tended(v, middle, before, ids0, ids, spare) && Fits(v, before, ids) && Distinct(ids) && k < |ids|
    requires Room(Slots(v, middle, ids[k]), index, |raws|) && forall t :: 0 <= t < |raws| ==> raws[t][0] != ENTRY_END
    requires SlotChanged(v, data, middle, ids[k], Placed(Slots(v, middle, ids[k]), index, raws))
    ensures Added(v, data, before, ids0, ids, k, index, raws, spare)
  {
    hide Slots, Times, Placed, Vacant;
    forall j | 0 <= j < |ids| && j != k
      ensures Slots(v, data, ids[j]) == Slots(v, middle, ids[j])
    {
      SameSlots(v, data, middle, ids[j]);
    }
    PlacedInRoom(Slots(v, middle, ids[k]), index, raws);
    AddedSealed(v, data, middle, ids, k, index, raws);
    forall c: nat | 2 <= c && c !in ids && c != spare && v.Start(c) + v.sectorsPerCluster <= |data|
      ensures SameCluster(v, data, before, c)
    {
      assert c != ids[k];
      assert SameCluster(v, data, middle, c) && SameCluster(v, middle, before, c);
    }
    AddedSlots(v, data, middle, before, ids0, ids, k, index, raws, spare);
  }

  lemma AddedSealed(v: Volume, data: seq<Sector>, middle: seq<Sector>, ids: seq<nat>, k: nat, index: nat,
                    raws: seq<Raw>)
    requires Sealed(v, middle, ids) && k < |ids| && |data| == |middle| && index + |raws| <= PerCluster(v)
    requires forall j :: 0 <= j < |ids| && j != k ==> Slots(v, data, ids[j]) == Slots(v, middle, ids[j])
    requires Slots(v, data, ids[k]) == Placed(Slots(v, middle, ids[k]), index, raws)
    requires NoEnd(Slots(v, middle, ids[k])) ==> NoEnd(Slots(v, data, ids[k]))
    requires EndsLast(Slots(v, middle, ids[k])) ==> EndsLast(Slots(v, data, ids[k]))
    ensures Sealed(v, data, ids)
  {
    hide Slots, Placed, NoEnd, EndsLast;
  }

  lemma AddedSlots(v: Volume, data: seq<Sector>, middle: seq<Sector>, before: seq<Sector>, ids0: seq<nat>,
                   ids: seq<nat>, k: nat, index: nat,
                   raws: seq<Raw>, spare: nat)
    requires Tended(v, middle, before, ids0, ids, spare) && Fits(v, before, ids) && k < |ids| && |data| == |middle|
    requires Room(Slots(v, middle, ids[k]), index, |raws|) && Fits(v, data, ids)
    requires forall j :: 0 <= j < |ids| && j != k ==> Slots(v, data, ids[j]) == Slots(v, middle, ids[j])
    requires Slots(v, data, ids[k]) == Placed(Slots(v, middle, ids[k]), index, raws)
    ensures Slots(v, data, ids[k])[index..index + |raws|] == raws
    ensures forall j, i :: 0 <= j < |ids0| && 0 <= i < PerCluster(v) ==>
              if j == k && index <= i < index + |raws| then Vacant(Slots(v, before, ids[j])[i])
              else SameEntry(Slots(v, data, ids[j])[i], Slots(v, before, ids[j])[i])
    ensures forall j, i :: |ids0| <= j < |ids| && 0 <= i < PerCluster(v) && !(j == k && index <= i < index + |raws|) ==>
              Vacant(Slots(v, data, ids[j])[i])
  {
    hide Slots, Sealed;
    forall j, i | 0 <= j < |ids0| && 0 <= i < PerCluster(v)
      ensures if j == k && index <= i < index + |raws| then Vacant(Slots(v, before, ids[j])[i])
              else SameEntry(Slots(v, data, ids[j])[i], Slots(v, before, ids[j])[i])
    {
      assert SameEntries(Slots(v, middle, ids[j]), Slots(v, before, ids[j]));
    }
  }

  /** A set whose short name was not in use leaves all short names different. */
  lemma AddedShortNames(v: Volume, data: seq<Sector>, before: seq<Sector>, ids0: seq<nat>, ids: seq<nat>, k: nat,
                        index: nat, raws: seq<Raw>,
                        short: seq<Byte>, spare: nat)
    requires Added(v, data, before, ids0, ids, k, index, raws, spare) && Fits(v, before, ids0) &&
             ShortNamesDiffer(v, before, ids0)
    requires |short| == 11 && !Taken(v, before, ids0, short) && |raws| > 0 && raws[|raws| - 1][..11] == short
    requires forall t :: 0 <= t < |raws| - 1 ==> IsLongName(raws[t])
    ensures ShortNamesDiffer(v, data, ids)
  {
    hide Slots, Times, Sealed, Vacant;
    forall j, i | 0 <= j < |ids| && 0 <= i < PerCluster(v) && HasShort(Slots(v, data, ids[j])[i])
      ensures (j == k && i == index + |raws| - 1 && Slots(v, data, ids[j])[i][..11] == short) ||
              (j < |ids0| && ids0[j] == ids[j] && HasShort(Slots(v, before, ids0[j])[i]) &&
                 Slots(v, data, ids[j])[i] == Slots(v, before, ids0[j])[i])
    {
      if j == k && index <= i < index + |raws| {
        assert Slots(v, data, ids[k])[index..index + |raws|][i - index] == raws[i - index];
      }
    }
    forall j, i, l, m | 0 <= j < |ids| && 0 <= i < PerCluster(v) && 0 <= l < |ids| && 0 <= m < PerCluster(v) &&
        (j != l || i != m) &&
                        HasShort(Slots(v, data, ids[j])[i]) && HasShort(Slots(v, data, ids[l])[m])
      ensures Slots(v, data, ids[j])[i][..11] != Slots(v, data, ids[l])[m][..11]
    {
      if j == k && i == index + |raws| - 1 {
        assert !Uses(Slots(v, before, ids0[l])[m], short);
      } else if l == k && m == index + |raws| - 1 {
        assert !Uses(Slots(v, before, ids0[j])[i], short);
      }
    }
  }

  // ---- Creating -----------------------------------------------------------------------------

  const FAT_ATTRIBUTE_DIRECTORY := 0x10
  const FAT_ATTRIBUTE_ARCHIVE := 0x20

  /** Every one of the thousand short names there are for a name is in use. */
  ghost predicate AllTaken(v: Volume, data: seq<Sector>, ids: seq<nat>, name: seq<Byte>)
    requires Fits(v, data, ids)
  {
    forall ordinal: nat :: ordinal < ORDINALS ==> Taken(v, data, ids, ShortFor(name, ordinal))
  }

  /** The first of a thousand short names that no entry of the directory has. */
  method PickShortName(v: Volume, directory: nat, name: seq<Byte>, ghost ids: seq<nat>) returns (ok: bool,
                       short: seq<Byte>)
    requires v.Valid() && Chain(v.table, v.Total(), ids) && Sealed(v, v.Data(), ids) && directory == ids[0] &&
             Name(name)
    modifies v.disk, v.cache, v`cacheDirty, v`cacheSector, v`cacheValid, v`apart
    ensures v.Valid() && v.Elsewhere() == old(v.Elsewhere()) && v.apart <= old(v.apart)
    ensures ok <==> !AllTaken(v, v.Data(), ids, name)
    ensures ok ==> |short| == 11 && ShortOf(short, name) && ShortBytes(short, name) && !Taken(v, v.Data(), ids, short)
  {
    hide Volume.Cached, Volume.Stored, Volume.Walked, Slots, Times, Volume.Start, Chain, Taken, NoEnd, EndsLast,
         ShortFor, ShortBytes;
    ok, short := false, [];
    ghost var data := v.Data();
    var ordinal := 0;
    while ordinal < ORDINALS
      invariant ordinal <= ORDINALS && v.Valid() && v.Elsewhere() == old(v.Elsewhere()) && v.apart <= old(v.apart)
      invariant forall o: nat :: o < ordinal ==> Taken(v, data, ids, ShortFor(name, o))
    {
      short := MakeShortName(name, ordinal);
      ShortFacts(name, ordinal);
      var taken := ShortNameTaken(v, directory, short, ids);
      if !taken {
        return true, short;
      }
      if ordinal == ORDINALS - 1 {
        return false, short;
      }
      ordinal := ordinal + 1;
    }
  }

  /** The slots of a set, in the terms the directory needs. */
  lemma SetSlots(raws: seq<Raw>, name: seq<Byte>, short: seq<Byte>, attributes: Byte, first: Word, size: Word,
                 date: Half, time: Half)
    requires Name(name) && EntrySet(raws, name, short, attributes, first, size, date, time) && ShortBytes(short, name)
    ensures |raws| > 0 && raws[|raws| - 1][..11] == short
    ensures forall t :: 0 <= t < |raws| - 1 ==> IsLongName(raws[t])
    ensures forall t :: 0 <= t < |raws| ==> raws[t][0] != ENTRY_END
  {
    hide Pieces, Read16, Read32, CharFor, ChecksumOf;
    var n := Pieces(|name|);
    var last := raws[n];
    assert last[..11][0] == short[0] == last[0];
    forall t | 0 <= t < n
      ensures raws[t][0] != ENTRY_END && IsLongName(raws[t])
    {
      assert PieceSays(raws[t], name, n - t, t == 0, ChecksumOf(short));
    }
  }

  /** slots_needed. */
  function SlotsNeeded(name: seq<Byte>): nat {
    1 + Pieces(|name|)
  }

  /** One slot for the short entry, and one for every thirteen characters. */
  lemma SlotsEnough(name: seq<Byte>, n: nat)
    ensures SlotsNeeded(name) <= n + 1 <==> |name| <= 13 * n
  {
    PiecesEnough(|name|, n);
  }

  /** Halfway through: the directory tended, the table grown by its new cluster, and perhaps one more cluster
      claimed. */
  ghost predicate Claimed(v: Volume, before: Table, t: Table, ids0: seq<nat>, ids: seq<nat>, spare: nat)
    reads v`table
  {
    Grown(before, t, v.Total(), ids0, ids) &&
    if spare == 0 then v.table == t
    else spare < LINKS && InRange(spare, v.Total()) && IsFree(t, spare) && spare !in ids &&
         v.table == Extended(t, spare, 0)
  }

  /** The directory's chain is a chain still, and so is the spare cluster. */
  lemma ClaimedChains(v: Volume, before: Table, t: Table, ids0: seq<nat>, ids: seq<nat>, spare: nat)
    requires Claimed(v, before, t, ids0, ids, spare) && v.Total() <= BAD
    ensures Chain(v.table, v.Total(), ids) && (spare != 0 ==> Chain(v.table, v.Total(), [spare]))
  {
    if spare != 0 {
      ChainOfOne(t, v.Total(), spare);
      forall i | 0 <= i < |ids|
        ensures v.table[ids[i]] == t[ids[i]]
      {
        assert ids[i] in ids;
        ExtendedAt(t, spare, 0, ids[i]);
      }
    }
  }

  /** The cluster for a new directory; 0 when the volume is full. */
  method ClaimSpare(v: Volume, ghost before: Table, ghost data: seq<Sector>, ghost ids0: seq<nat>,
                    ghost ids: seq<nat>) returns (spare: nat)
    requires v.Valid() && Grown(before, v.table, v.Total(), ids0, ids) && Tended(v, v.Data(), data, ids0, ids, 0)
    modifies v.disk, v.cache, v
    ensures v.Valid() && v.disk[..v.reserved] == old(v.disk[..v.reserved]) && v.apart <= old(v.apart) &&
            (old(v.Exact()) ==> v.Exact())
    ensures Claimed(v, before, old(v.table), ids0, ids, spare) && Tended(v, v.Data(), data, ids0, ids, spare)
    ensures spare == 0 <==> Full(old(v.table), v.Total())
    ensures spare == 0 ==> v.Data() == old(v.Data()) && v.table == old(v.table) &&
                           v.cacheDirty == (old(v.cacheDirty) && v.sectorsPerFat == 1)
    ensures spare != 0 ==> v.Data() == v.Blanked(old(v.Data()), spare) &&
                           v.Start(spare) + v.sectorsPerCluster <= |old(v.Data())|
  {
    hide Volume.Cached, Volume.Stored, Volume.Walked, Volume.Exact, Volume.Start, Times, Slots, Tended, Volume.Blanked,
         Extended, Full;
    ghost var t, middle := v.table, v.Data();
    GrownFits(v, before, ids0, ids);
    spare := AllocateCluster(v, 0, true);
    if spare != 0 {
      v.ClusterInside(spare);
      SpareOutside(t, v.Total(), ids, spare);
      TendedBlanked(v, middle, data, ids0, ids, spare);
    }
  }

  lemma GrownFits(v: Volume, before: Table, ids0: seq<nat>, ids: seq<nat>)
    requires v.Valid() && Grown(before, v.table, v.Total(), ids0, ids)
    ensures Chain(v.table, v.Total(), ids)
  {
  }

  lemma SpareOutside(t: Table, total: nat, ids: seq<nat>, spare: nat)
    requires total <= |t| && Chain(t, total, ids) && spare < |t| && IsFree(t, spare)
    ensures spare !in ids
  {
    forall i | 0 <= i < |ids|
      ensures ids[i] != spare
    {
      ChainHoldsNoFree(t, total, ids, i);
    }
  }

  /** The clusters an addition claims: one for a directory without room, one for a directory to be made. */
  ghost function ClustersFor(v: Volume, data: seq<Sector>, ids: seq<nat>, name: seq<Byte>, making: bool): nat
    requires Fits(v, data, ids)
  {
    (if HasRoom(v, data, ids, SlotsNeeded(name)) then 0 else 1) + if making then 1 else 0
  }

  /** When a name can be added: one of its short names is not in use, its slots fit a cluster, and there are clusters
      enough. */
  ghost predicate MayAdd(v: Volume, t: Table, data: seq<Sector>, ids: seq<nat>, name: seq<Byte>, making: bool)
    requires Fits(v, data, ids) && 2 <= v.Total() <= |t|
  {
    !AllTaken(v, data, ids, name) && SlotsNeeded(name) <= PerCluster(v) && ClustersFor(v, data, ids, name,
    making) <= FreeCount(t, 2, v.Total())
  }

  /** When an addition is refused only after the directory has grown: the volume's last free cluster went into it. */
  ghost predicate GrowsInVain(v: Volume, t: Table, data: seq<Sector>, ids: seq<nat>, name: seq<Byte>, making: bool)
    requires Fits(v, data, ids) && 2 <= v.Total() <= |t|
  {
    !AllTaken(v, data, ids, name) && SlotsNeeded(name) <= PerCluster(v) && making &&
    !HasRoom(v, data, ids, SlotsNeeded(name)) &&
    FreeCount(t, 2, v.Total()) == 1
  }

  /** A directory made in a directory of one cluster, every slot of it live, with the only free cluster of the
      volume. */
  lemma FullDirectoryGrows(v: Volume, t: Table, data: seq<Sector>, cluster: nat, name: seq<Byte>)
    requires Fits(v, data, [cluster]) && 2 <= v.Total() <= |t| && FreeCount(t, 2, v.Total()) == 1 &&
             SlotsNeeded(name) <= PerCluster(v)
    requires 2 <= cluster && v.Start(cluster) + v.sectorsPerCluster <= |data| && forall i :: 0 <= i < PerCluster(v) ==>
             !Vacant(Slots(v, data, cluster)[i])
    requires !AllTaken(v, data, [cluster], name)
    ensures GrowsInVain(v, t, data, [cluster], name, true) && !MayAdd(v, t, data, [cluster], name, true)
  {
    hide Slots, Vacant, AllTaken, FreeCount, Times;
    var s := Slots(v, data, cluster);
    forall index: nat | index + SlotsNeeded(name) <= |s|
      ensures !VacantRun(s, index, SlotsNeeded(name))
    {
      assert !Vacant(s[index]);
    }
    assert [cluster][0] == cluster;
  }

  lemma FullCount(t: Table, total: nat)
    requires 2 <= total <= |t|
    ensures Full(t, total) <==> FreeCount(t, 2, total) == 0
  {
    hide FreeCount;
    FreeCountZero(t, 2, total);
  }

  lemma FitsAlready(v: Volume, data: seq<Sector>, ids: seq<nat>)
    requires Sealed(v, data, ids)
    ensures Fits(v, data, ids)
  {
  }

  /** A set added to a directory, and before it the cluster of a new directory when it is for one: what fat32_create
      and fat32_rename share. */
  method AddEntry(v: Volume, directory: nat, name: seq<Byte>, attributes: Byte, first: Word, making: bool, size: Word,
                  date: Half, time: Half,
                  ghost ids0: seq<nat>)
    returns (ok: bool, result: Entry, spare: nat, ghost t: Table, ghost ids: seq<nat>, ghost k: nat, ghost index: nat,
            ghost raws: seq<Raw>,
             ghost short: seq<Byte>)
    requires v.Valid() && Chain(v.table, v.Total(), ids0) && Sealed(v, v.Data(), ids0) && directory == ids0[0] &&
             Name(name)
    requires ShortNamesDiffer(v, v.Data(), ids0)
    modifies v.disk, v.cache, v
    ensures v.Valid() && v.disk[..v.reserved] == old(v.disk[..v.reserved]) && v.apart <= old(v.apart) &&
            (old(v.Exact()) ==> v.Exact())
    ensures Claimed(v, old(v.table), t, ids0, ids, spare) && Sealed(v, v.Data(), ids) &&
            (ok ==> (spare != 0 <==> making))
    ensures Fits(v, old(v.Data()), ids0) && (ok <==> MayAdd(v, old(v.table), old(v.Data()), ids0, name, making))
    ensures !ok ==> (if GrowsInVain(v, old(v.table), old(v.Data()), ids0, name, making)
                     then |ids| == |ids0| + 1 && (v.cacheDirty <==> v.sectorsPerFat == 1)
                     else ids == ids0 && v.table == old(v.table))
    ensures ok ==> EntrySet(raws, name, short, attributes, if making then spare else first, size, date, time) &&
                   ShortOf(short, name) && Added(v, v.Data(), old(v.Data()), ids0, ids, k, index, raws, spare) &&
                   ShortNamesDiffer(v, v.Data(), ids)
    ensures ok ==> k < |ids| && Handed(v, result, ids[k], index, Pieces(|name|), name, attributes,
                                       if making then spare else first, size, date, time)
    ensures ok && making ==> v.Start(spare) + v.sectorsPerCluster <= |v.Data()| &&
                             forall i :: 0 <= i < PerCluster(v) ==> Slots(v, v.Data(), spare)[i][0] == ENTRY_END
    ensures !ok ==> Tended(v, v.Data(), old(v.Data()), ids0, ids, 0) && spare == 0
  {
    hide Volume.Cached, Volume.Stored, Volume.Walked, Volume.Exact, Volume.Start, Times, Chain, Slots, Tended, Added,
         Grown, Room, SlotChanged, Placed,
         EntrySet, Taken, ShortNamesDiffer, NoEnd, EndsLast, Name, Pieces, Volume.Blanked, AllTaken, HasRoom, ShortOf,
         ShortBytes, Full, FreeCount, Sealed, Fits, SameCluster, Link, Extended, Vacant;
    result := Entry([], 0, 0, 0, 0, 0, 0, 0, 0, 0);
    ids, k, index, raws, ok, spare, t := ids0, 0, 0, [], false, 0, v.table;
    ghost var before := v.Data();
    FitsAlready(v, before, ids0);
    FullCount(v.table, v.Total());
    var picked, chosen := PickShortName(v, directory, name, ids0);
    short := chosen;
    if !picked {
      GrownNot(v.table, v.Total(), ids0);
      TendedNot(v, before, ids0);
      return;
    }
    var found, cluster, at;
    found, cluster, at, ids := FindFreeSlots(v, directory, SlotsNeeded(name), ids0);
    index, t := at, v.table;
    GrownCount(old(v.table), t, v.Total(), ids0, ids);
    FullCount(t, v.Total());
    TendedSealedBy(v, v.Data(), before, ids0, ids, 0);
    if !found {
      return;
    }
    k := IndexOf(ids, cluster);
    InChain(v, old(v.table), ids0, ids, k);
    RoomFits(v, v.Data(), cluster, index, SlotsNeeded(name));
    ghost var roomy := v.Data();
    if making {
      spare := ClaimSpare(v, old(v.table), before, ids0, ids);
      if spare == 0 {
        return;
      }
      BlankedRoom(v, roomy, spare, cluster, index, SlotsNeeded(name));
    }
    ghost var middle := v.Data();
    ok, result, raws := WriteDirectoryEntries(v, cluster, at, name, chosen, attributes, if making then spare
        else first, size, date, time);
    SetSlots(raws, name, chosen, attributes, if making then spare else first, size, date, time);
    SetLength(raws, name, chosen, attributes, if making then spare else first, size, date, time);
    TendedFits(v, middle, before, ids0, ids, spare);
    AddedInRoom(v, v.Data(), middle, before, ids0, ids, k, index, raws, spare);
    AddedShortNames(v, v.Data(), before, ids0, ids, k, index, raws, chosen, spare);
    AddedRule(v, v.Data(), before, ids0, ids, k, index, raws, spare);
    if making {
      StillBlank(v, v.Data(), roomy, spare, ids, k, index, raws);
    }
  }

  lemma GrownCount(before: Table, t: Table, total: nat, ids0: seq<nat>, ids: seq<nat>)
    requires Grown(before, t, total, ids0, ids)
    ensures 2 <= total <= |t| == |before| && FreeCount(t, 2, total) + |ids| == FreeCount(before, 2, total) + |ids0| &&
            ids0 <= ids
  {
    hide Chain, FreeCount;
  }

  /** The room found is still there when another cluster has been cleared. */
  lemma BlankedRoom(v: Volume, data: seq<Sector>, spare: nat, cluster: nat, index: nat, count: nat)
    requires 2 <= spare && v.Start(spare) + v.sectorsPerCluster <= |data| && 2 <= cluster && cluster != spare
    requires v.Start(cluster) + v.sectorsPerCluster <= |data| && Room(Slots(v, data, cluster), index, count)
    ensures |v.Blanked(data, spare)| == |data| && Room(Slots(v, v.Blanked(data, spare), cluster), index, count)
  {
    BlankElsewhere(v, data, spare, cluster);
    SameSlots(v, v.Blanked(data, spare), data, cluster);
  }

  /** And the cleared cluster is still clear when the set has been written elsewhere. */
  lemma StillBlank(v: Volume, data: seq<Sector>, roomy: seq<Sector>, spare: nat, ids: seq<nat>, k: nat, index: nat,
                   raws: seq<Raw>)
    requires 2 <= spare && v.Start(spare) + v.sectorsPerCluster <= |roomy| && spare !in ids && k < |ids|
    requires 2 <= ids[k] && v.Start(ids[k]) + v.sectorsPerCluster <= |roomy| && index + |raws| <= PerCluster(v)
    requires |v.Blanked(roomy, spare)| == |roomy|
    requires SlotChanged(v, data, v.Blanked(roomy, spare), ids[k], Placed(Slots(v, v.Blanked(roomy, spare), ids[k]),
             index, raws))
    ensures v.Start(spare) + v.sectorsPerCluster <= |data| && forall i :: 0 <= i < PerCluster(v) ==>
            Slots(v, data, spare)[i][0] == ENTRY_END
  {
    BlankSlots(v, roomy, spare);
    assert ids[k] in ids;
    SameSlots(v, data, v.Blanked(roomy, spare), spare);
  }

  lemma TendedSealedBy(v: Volume, data: seq<Sector>, before: seq<Sector>, ids0: seq<nat>, ids: seq<nat>, spare: nat)
    requires Tended(v, data, before, ids0, ids, spare)
    ensures Sealed(v, data, ids) && |data| == |before| && ids0 <= ids
  {
  }

  lemma AddedRule(v: Volume, data: seq<Sector>, before: seq<Sector>, ids0: seq<nat>, ids: seq<nat>, k: nat, index: nat,
                  raws: seq<Raw>, spare: nat)
    requires Added(v, data, before, ids0, ids, k, index, raws, spare)
    ensures Sealed(v, data, ids)
  {
  }

  lemma TendedFits(v: Volume, data: seq<Sector>, before: seq<Sector>, ids0: seq<nat>, ids: seq<nat>, spare: nat)
    requires Tended(v, data, before, ids0, ids, spare)
    ensures Fits(v, before, ids) && Fits(v, before, ids0)
  {
    hide Slots, Times;
    assert forall i :: 0 <= i < |ids0| ==> ids0[i] == ids[i];
  }

  lemma RoomFits(v: Volume, data: seq<Sector>, cluster: nat, index: nat, count: nat)
    requires 2 <= cluster && v.Start(cluster) + v.sectorsPerCluster <= |data| &&
             Room(Slots(v, data, cluster), index, count)
    ensures index + count <= PerCluster(v)
  {
    hide Slots;
  }

  lemma SetLength(raws: seq<Raw>, name: seq<Byte>, short: seq<Byte>, attributes: Byte, first: Word, size: Word,
                  date: Half, time: Half)
    requires EntrySet(raws, name, short, attributes, first, size, date, time)
    ensures |raws| == SlotsNeeded(name)
  {
  }

  ghost function IndexOf(ids: seq<nat>, c: nat): (k: nat)
    requires c in ids
    ensures k < |ids| && ids[k] == c
  {
    var k :| 0 <= k < |ids| && ids[k] == c;
    k
  }

  lemma InChain(v: Volume, before: Table, ids0: seq<nat>, ids: seq<nat>, k: nat)
    requires v.Valid() && Grown(before, v.table, v.Total(), ids0, ids) && k < |ids|
    ensures InRange(ids[k], v.Total()) && Distinct(ids)
  {
    ChainDistinct(v.table, v.Total(), ids);
  }

  // ---- "." and ".." ---------------------------------------------------------------------------

  /** One or two dots in eleven bytes. */
  predicate DotName(short: seq<Byte>, dots: nat) {
    |short| == 11 && (dots == 1 || dots == 2) && forall i :: 0 <= i < 11 ==> short[i] == if i < dots then DOT else SPACE
  }

  ghost predicate DotSays(raw: Raw, dots: nat, link: Word) {
    DotName(raw[..11], dots) && raw[11] == FAT_ATTRIBUTE_DIRECTORY && Read16(raw, 20) == link / 0x1_0000 &&
    Read16(raw, 26) == link % 0x1_0000
  }

  /** The rest of it: when it was made, and no size. */
  ghost predicate DotDated(raw: Raw, date: Half, time: Half) {
    Read16(raw, 22) == time && Read16(raw, 24) == date && Read32(raw, 28) == 0 &&
    forall i :: 12 <= i < 20 ==> raw[i] == 0
  }

  method DotEntry(dots: nat, link: Word, date: Half, time: Half) returns (raw: Raw)
    requires dots == 1 || dots == 2
    ensures DotSays(raw, dots, link) && DotDated(raw, date, time)
  {
    var dot := new Byte[SLOT_SIZE](_ => 0);
    forall i | 0 <= i < 11 {
      dot[i] := if i < dots then DOT else SPACE;
    }
    dot[11] := FAT_ATTRIBUTE_DIRECTORY;
    ghost var head := dot[..];
    FileFields(dot, link, 0, date, time);
    raw := dot[..];
    assert raw[..11] == head[..11];
  }

  /** A new directory: itself, its parent, and nothing else. */
  ghost predicate NewDirectory(s: seq<Raw>, cluster: nat, parentLink: nat, date: Half, time: Half) {
    2 <= |s| && cluster < BASE && parentLink < BASE && DotSays(s[0], 1, cluster) && DotSays(s[1], 2, parentLink) &&
    DotDated(s[0], date, time) && DotDated(s[1], date, time) &&
    forall i :: 2 <= i < |s| ==> s[i][0] == ENTRY_END
  }

  /** Both entries of a directory just cleared. */
  method WriteDots(v: Volume, cluster: nat, parentLink: Word, date: Half, time: Half)
    requires v.Valid() && InRange(cluster, v.Total()) && v.Start(cluster) + v.sectorsPerCluster <= |v.Data()|
    requires forall i :: 0 <= i < PerCluster(v) ==> Slots(v, v.Data(), cluster)[i][0] == ENTRY_END
    modifies v.disk
    ensures v.Valid() && v.disk[..v.reserved] == old(v.disk[..v.reserved]) && |v.Data()| == |old(v.Data())|
    ensures NewDirectory(Slots(v, v.Data(), cluster), cluster, parentLink, date, time)
    ensures SlotChanged(v, v.Data(), old(v.Data()), cluster, Slots(v, v.Data(), cluster))
  {
    hide Volume.Cached, Volume.Stored, Volume.Walked, Times, Volume.Start, Slots, DotSays, DotDated, SlotChanged;
    ghost var before, s := v.Data(), Slots(v, v.Data(), cluster);
    var dot := DotEntry(1, cluster, date, time);
    PatchEntry(v, cluster, 0, dot);
    ghost var middle := v.Data();
    ChangedTo(v, middle, before, cluster, s[0 := dot]);
    var dotDot := DotEntry(2, parentLink, date, time);
    PatchEntry(v, cluster, 1, dotDot);
    ChangedAgain(v, v.Data(), middle, before, cluster, s[0 := dot], s[0 := dot][1 := dotDot]);
    ChangedTo(v, v.Data(), before, cluster, s[0 := dot][1 := dotDot]);
  }

  lemma ChangedTo(v: Volume, data: seq<Sector>, before: seq<Sector>, cluster: nat, s: seq<Raw>)
    requires SlotChanged(v, data, before, cluster, s)
    ensures |data| == |before| && 2 <= cluster && v.Start(cluster) + v.sectorsPerCluster <= |data| &&
            Slots(v, data, cluster) == s
  {
  }

  /** A new directory obeys the rule about end marks. */
  lemma NewDirectorySealed(v: Volume, data: seq<Sector>, cluster: nat, parentLink: nat, date: Half, time: Half)
    requires 0 < v.sectorsPerCluster && 2 <= cluster && v.Start(cluster) + v.sectorsPerCluster <= |data|
    requires NewDirectory(Slots(v, data, cluster), cluster, parentLink, date, time)
    ensures Sealed(v, data, [cluster])
  {
    hide Slots, Times;
    var s := Slots(v, data, cluster);
    assert s[0][..11][0] == s[0][0] && s[1][..11][0] == s[1][0];
  }

  /** Writing in a cluster that is not the directory's leaves it as it was. */
  lemma AddedElsewhere(v: Volume, data: seq<Sector>, middle: seq<Sector>, before: seq<Sector>, ids0: seq<nat>,
                       ids: seq<nat>, k: nat, index: nat,
                       raws: seq<Raw>, spare: nat, s: seq<Raw>)
    requires Added(v, middle, before, ids0, ids, k, index, raws, spare) && SlotChanged(v, data, middle, spare, s) &&
             spare !in ids
    requires ShortNamesDiffer(v, middle, ids)
    ensures Added(v, data, before, ids0, ids, k, index, raws, spare) && ShortNamesDiffer(v, data, ids)
  {
    hide Slots, Times, Vacant, SameEntry, NoEnd, EndsLast, HasShort;
    forall j | 0 <= j < |ids|
      ensures Slots(v, data, ids[j]) == Slots(v, middle, ids[j])
    {
      assert ids[j] in ids;
      SameSlots(v, data, middle, ids[j]);
    }
    forall c: nat | 2 <= c && c !in ids && c != spare && v.Start(c) + v.sectorsPerCluster <= |data|
      ensures SameCluster(v, data, before, c)
    {
      assert SameCluster(v, data, middle, c) && SameCluster(v, middle, before, c);
    }
  }

  /** The directory's own link to its parent: the root is written as cluster 0. */
  function ParentLink(parent: nat, root: nat): nat {
    if parent == root then 0 else parent
  }

  /** fat32_create, once the name is known not to exist and its directory is known. */
  method Create(v: Volume, parent: nat, root: nat, name: seq<Byte>, directory: bool, date: Half, time: Half,
                ghost ids0: seq<nat>)
    returns (ok: bool, result: Entry, spare: nat, ghost t: Table, ghost ids: seq<nat>, ghost k: nat, ghost index: nat,
            ghost raws: seq<Raw>,
             ghost short: seq<Byte>)
    requires v.Valid() && Chain(v.table, v.Total(), ids0) && Sealed(v, v.Data(), ids0) && parent == ids0[0] &&
             Name(name)
    requires ShortNamesDiffer(v, v.Data(), ids0)
    modifies v.disk, v.cache, v
    ensures v.Valid() && v.apart <= old(v.apart) && (old(v.Exact()) ==> v.Exact())
    ensures Claimed(v, old(v.table), t, ids0, ids, spare) && Chain(v.table, v.Total(), ids) && Sealed(v, v.Data(), ids)
    ensures ok ==> EntrySet(raws, name, short, if directory then FAT_ATTRIBUTE_DIRECTORY else FAT_ATTRIBUTE_ARCHIVE,
            spare, 0, date, time) &&
                   ShortOf(short, name) && Added(v, v.Data(), old(v.Data()), ids0, ids, k, index, raws, spare) &&
                   ShortNamesDiffer(v, v.Data(), ids) && !v.cacheDirty
    ensures ok ==> k < |ids| && Handed(v, result, ids[k], index, Pieces(|name|), name, if directory
                   then FAT_ATTRIBUTE_DIRECTORY else FAT_ATTRIBUTE_ARCHIVE, spare, 0, date, time) &&
                   (spare != 0 <==> directory)
    ensures ok && directory ==> Chain(v.table, v.Total(), [spare]) && Sealed(v, v.Data(), [spare]) &&
                                NewDirectory(Slots(v, v.Data(), spare), spare, ParentLink(parent, root), date, time)
    ensures !ok ==> spare == 0 && Tended(v, v.Data(), old(v.Data()), ids0, ids, 0) &&
                    v.disk[..v.reserved] == old(v.disk[..v.reserved])
    ensures Fits(v, old(v.Data()), ids0) && (ok <==> MayAdd(v, old(v.table), old(v.Data()), ids0, name, directory))
    ensures !ok ==> (if GrowsInVain(v, old(v.table), old(v.Data()), ids0, name, directory)
                     then |ids| == |ids0| + 1 && FreeCount(v.table, 2, v.Total()) == 0 &&
                     (v.cacheDirty <==> v.sectorsPerFat == 1) &&
                          (old(InfoCounts(v)) && Signed(v.disk[FSINFO_SECTOR]) ==> !InfoCounts(v))
                     else ids == ids0 && v.table == old(v.table))
    ensures ok && old(v.Exact()) ==> InfoCounts(v)
    ensures SameFront(v, old(v.disk[..v.reserved]))
  {
    hide Volume.Cached, Volume.Stored, Volume.Walked, Volume.Exact, Volume.Start, Times, Chain, Slots, Tended, Added,
         Grown, SlotChanged,
         EntrySet, ShortNamesDiffer, NoEnd, EndsLast, Name, Extended, NewDirectory, Signed, Informed, FreeClusters,
         MayAdd, AllTaken, HasRoom, ShortOf, FreeCount, Read32;
    ghost var before, front := v.Data(), v.disk[..v.reserved];
    ChainHead(v.table, v.Total(), ids0);
    FrontInfo(v, front);
    ok, result, spare, t, ids, k, index, raws, short :=
      AddEntry(v, parent, name, if directory then FAT_ATTRIBUTE_DIRECTORY else FAT_ATTRIBUTE_ARCHIVE, 0, directory, 0,
          date, time, ids0);
    ClaimedChains(v, old(v.table), t, ids0, ids, spare);
    if !ok {
      GrownCount(old(v.table), v.table, v.Total(), ids0, ids);
      FrontInfo(v, front);
      return;
    }
    if directory {
      ghost var middle := v.Data();
      WriteDots(v, spare, ParentLink(parent, root), date, time);
      NewDirectorySealed(v, v.Data(), spare, ParentLink(parent, root), date, time);
      AddedElsewhere(v, v.Data(), middle, before, ids0, ids, k, index, raws, spare, Slots(v, v.Data(), spare));
      AddedRule(v, v.Data(), before, ids0, ids, k, index, raws, spare);
    }
    Commit(v);
  }

  // ---- Finding it again ---------------------------------------------------------------------------

  /** A created entry is seen by a reader if and only if the first character of its name that counts for the short
      one is not the byte that marks a deleted entry. */
  lemma SeenUnlessDeleted(raws: seq<Raw>, name: seq<Byte>, short: seq<Byte>, attributes: Byte, first: Word, size: Word,
                          date: Half, time: Half)
    requires Name(name) && EntrySet(raws, name, short, attributes, first, size, date, time) && ShortOf(short, name)
    requires attributes == FAT_ATTRIBUTE_DIRECTORY || attributes == FAT_ATTRIBUTE_ARCHIVE
    ensures Real(raws[Pieces(|name|)]) <==> Leading(name) != ENTRY_FREE
    ensures Ascii(name) ==> Real(raws[Pieces(|name|)])
  {
    hide ShortSays, Real, Shortened, Leading, ShortOf;
    ShortOfBegins(short, name);
    RealUnlessDeleted(raws[Pieces(|name|)], short, attributes, first, size, date, time);
    if Ascii(name) {
      LeadingAscii(name);
    }
  }

  lemma ShortOfBegins(short: seq<Byte>, name: seq<Byte>)
    requires Name(name) && ShortOf(short, name)
    ensures |short| == 11 && short[0] == Shortened(Leading(name)) && short[0] != 0 &&
            (short[0] == ENTRY_FREE <==> Leading(name) == ENTRY_FREE)
  {
    hide ShortFor, Leading, Forbidden;
    var ordinal: nat :| ordinal < ORDINALS && short == ShortFor(name, ordinal);
    ShortBegins(name, ordinal);
    ShortFacts(name, ordinal);
    assert ShortBytes(short, name);
  }

  lemma LeadingAscii(name: seq<Byte>)
    requires Ascii(name)
    ensures Leading(name) < 0x80
  {
    hide ExtensionAt;
  }

  lemma RealUnlessDeleted(raw: Raw, short: seq<Byte>, attributes: Byte, first: Word, size: Word, date: Half, time: Half)
    requires ShortSays(raw, short, attributes, first, size, date, time) && short[0] != 0
    requires attributes == FAT_ATTRIBUTE_DIRECTORY || attributes == FAT_ATTRIBUTE_ARCHIVE
    ensures Real(raw) <==> short[0] != ENTRY_FREE
  {
    hide Read16, Read32;
    assert raw[..11][0] == raw[0] == short[0];
    assert 0x10 / FAT_ATTRIBUTE_VOLUME_LABEL % 2 == 0 && 0x20 / FAT_ATTRIBUTE_VOLUME_LABEL % 2 == 0;
  }

  /** A file called by that byte alone can be created and never found. */
  lemma UnseenName(raws: seq<Raw>, short: seq<Byte>, first: Word, size: Word, date: Half, time: Half)
    requires EntrySet(raws, [ENTRY_FREE], short, FAT_ATTRIBUTE_ARCHIVE, first, size, date, time) &&
             ShortOf(short, [ENTRY_FREE])
    ensures Name([ENTRY_FREE]) && !Real(raws[1])
  {
    var name: seq<Byte> := [ENTRY_FREE];
    assert Leading(name) == ENTRY_FREE && Pieces(|name|) == 1;
    hide EntrySet, Leading, ShortOf, Real;
    SeenUnlessDeleted(raws, name, short, FAT_ATTRIBUTE_ARCHIVE, first, size, date, time);
  }

  /** No call that starts at or before a set that is seen goes past it. */
  lemma NotMissed(v: Volume, from: Origin, e: Entry, k: nat, i: nat, passed: seq<Raw>, found: bool, setK: nat,
                  setI: nat)
    requires Fits(v, from.data, from.ids) && setK < |from.ids| && setI < PerCluster(v) &&
             Real(Slots(v, from.data, from.ids[setK])[setI])
    requires from.k < setK || (from.k == setK && from.i <= setI)
    requires if found then FoundAt(v, from, e, k, i, passed) else NothingLeft(v, from.data, from.ids, from.k, from.i)
    ensures found && (k < setK || (k == setK && i <= setI))
  {
    hide Slots, Real, Describes, FedTail;
  }

  /** The entry a reader makes of a set is what the set was written for. */
  lemma CreatedReadsBack(v: Volume, from: Origin, e: Entry, k: nat, index: nat, passed: seq<Raw>, raws: seq<Raw>,
                         name: seq<Byte>, short: seq<Byte>,
                         attributes: Byte, first: Word, size: Word, date: Half, time: Half)
    requires Name(name) && EntrySet(raws, name, short, attributes, first, size, date, time)
    requires FoundAt(v, from, e, k, index + Pieces(|name|), passed) && index + |raws| <= PerCluster(v)
    requires Slots(v, from.data, from.ids[k])[index..index + |raws|] == raws
    requires from.k < k || (from.k == k && from.i <= index)
    ensures e.name == KeptName(name) && e.attributes == attributes && e.firstCluster == first && e.size == size &&
            e.date == date && e.time == time
    ensures PlacedAt(v, e.sector, e.offset, from.ids[k], index + Pieces(|name|)) &&
            PlacedAt(v, e.firstSector, e.firstOffset, from.ids[k], index)
  {
    hide Slots, Real, PassedOver, FedAll, NameOf, Read16, Read32, PieceSays, ChecksumOf, KeptName, Pieces, PerCluster,
         Times, Volume.Start, Begins, FirstIs,
         PlacedAt, Belongs;
    var n, s := Pieces(|name|), Slots(v, from.data, from.ids[k]);
    TailIsSet(s, passed, raws, if k == from.k then from.i else 0, index, n);
    var pre := passed[..|passed| - n];
    FedAllSplit(from.partial, pre, raws[..n]);
    ReadsBack(FedAll(from.partial, pre), raws, name, short, attributes, first, size, date, time);
    SetBegins(raws, name, short, attributes, first, size, date, time);
    PiecesBound(|name|);
    FirstOfSet(v, from, e, k, index, raws, n);
    assert first == first / 0x1_0000 * 0x1_0000 + first % 0x1_0000;
  }

  lemma FirstOfSet(v: Volume, from: Origin, e: Entry, k: nat, index: nat, raws: seq<Raw>, n: nat)
    requires Fits(v, from.data, from.ids) && from.k <= k < |from.ids| && n > 0 && |raws| == n + 1 &&
             index + |raws| <= PerCluster(v)
    requires (if k == from.k then from.i else 0) <= index && Slots(v, from.data,
             from.ids[k])[index..index + |raws|] == raws
    requires FirstIs(v, e.firstSector, e.firstOffset, from.data, from.ids[k], if k == from.k then from.i else 0,
             index + n)
    requires Begins(raws[0]) && forall t :: 0 < t < n ==> !Begins(raws[t])
    ensures PlacedAt(v, e.firstSector, e.firstOffset, from.ids[k], index)
  {
    hide Slots, Times, Begins, PlacedAt;
    var s := Slots(v, from.data, from.ids[k]);
    assert s[index..index + |raws|][0] == s[index];
    forall m | index < m < index + n
      ensures !Begins(s[m])
    {
      assert s[index..index + |raws|][m - index] == s[m];
    }
  }

  /** What a reader was fed last, when that was the slots of one cluster up to the short entry of a set. */
  lemma TailIsSet(s: seq<Raw>, passed: seq<Raw>, raws: seq<Raw>, start: nat, index: nat, n: nat)
    requires |raws| == n + 1 && start <= index && index + n + 1 <= |s| && s[index..index + n + 1] == raws
    requires index + n - start <= |passed| && passed[|passed| - (index + n - start)..] == s[start..index + n]
    ensures n <= |passed| && passed == passed[..|passed| - n] + raws[..n] && s[index + n] == raws[n]
  {
    var m := index + n - start;
    forall t | 0 <= t < n
      ensures passed[|passed| - n + t] == raws[t]
    {
      assert passed[|passed| - m..][m - n + t] == s[start..index + n][m - n + t];
      assert s[index..index + n + 1][t] == raws[t];
    }
    assert s[index..index + n + 1][n] == raws[n];
  }

  // ---- Removing -----------------------------------------------------------------------------------

  /** fat32_remove, once the entry has been found and a directory known to be empty: the clusters go back, then the
      slots. */
  method Remove(v: Volume, first: Word, firstSector: nat, firstOffset: nat, entrySector: nat, entryOffset: nat,
                ghost file: seq<nat>, ghost ids: seq<nat>, ghost k: nat, ghost a: nat, ghost b: nat)
    returns (ok: bool)
    requires v.Valid() && Chain(v.table, v.Total(), ids) && Sealed(v, v.Data(), ids) && k < |ids| &&
             a <= b < PerCluster(v)
    requires if first == 0 then file == [] else Chain(v.table, v.Total(), file) && file[0] == first && Apart(file, ids)
    requires 2 <= ids[k] && PlacedAt(v, firstSector, firstOffset, ids[k], a) &&
             PlacedAt(v, entrySector, entryOffset, ids[k], b)
    modifies v.disk, v.cache, v
    ensures v.Valid() && v.apart <= old(v.apart) && (old(v.Exact()) ==> v.Exact()) && ok && !v.cacheDirty
    ensures v.table == Released(old(v.table), file) && Chain(v.table, v.Total(), ids) && Sealed(v, v.Data(), ids)
    ensures SlotChanged(v, v.Data(), old(v.Data()), ids[k], Freed(Slots(v, old(v.Data()), ids[k]), a, b + 1))
    ensures old(ShortNamesDiffer(v, v.Data(), ids)) ==> ShortNamesDiffer(v, v.Data(), ids)
    ensures SameFront(v, old(v.disk[..v.reserved]))
  {
    hide Volume.Cached, Volume.Stored, Volume.Walked, Volume.Exact, Volume.Start, Volume.FirstSector, Times, Slots,
         SlotChanged, NoEnd, EndsLast, Freed,
         Released, Informed, FreeClusters, Signed, Trail, ShortNamesDiffer, Erased, AtSlot, InArea, EraseEnd, Chain,
         Apart, Distinct;
    ghost var t, before := v.table, v.Data();
    ChainNext(t, v.Total(), ids, k);
    ChainDistinct(t, v.Total(), ids);
    ReleasedNone(t);
    if first != 0 {
      ghost var trail := FreeChain(v, first);
      TrailOfChain(t, v.Total(), file, trail);
    }
    ReleasedApart(t, v.Total(), file, ids);
    v.ClusterInside(ids[k]);
    SetInArea(v, ids[k], a);
    SetInArea(v, ids[k], b);
    ErasedSet(v, v.Data(), ids[k], a, b);
    SetEnd(v, ids[k], a, b, |v.Data()|);
    ok := EraseEntries(v, firstSector, firstOffset, entrySector, entryOffset, InArea(v, ids[k], a),
        InArea(v, ids[k], b));
    FreedSealed(v, v.Data(), before, ids, k, a, b + 1);
    FreedShortNames(v, v.Data(), before, ids, k, a, b + 1);
    Commit(v);
  }

  lemma SetInArea(v: Volume, cluster: nat, i: nat)
    requires 2 <= cluster && i < PerCluster(v)
    ensures InArea(v, cluster, i) / ENTRIES_PER_SECTOR == v.Start(cluster) + i / ENTRIES_PER_SECTOR
    ensures InArea(v, cluster, i) / ENTRIES_PER_SECTOR < v.Start(cluster) + v.sectorsPerCluster
    ensures AtSlot(v, v.FirstSector(cluster) + i / ENTRIES_PER_SECTOR, i % ENTRIES_PER_SECTOR * SLOT_SIZE,
                   InArea(v, cluster, i))
  {
    hide Volume.Start;
  }

  lemma SetEnd(v: Volume, cluster: nat, a: nat, b: nat, sectors: nat)
    requires 2 <= cluster && a <= b
    ensures InArea(v, cluster, a) <= InArea(v, cluster, b)
    ensures EraseEnd(InArea(v, cluster, a), InArea(v, cluster, b), sectors) == InArea(v, cluster, b) + 1
  {
  }

  lemma ReleasedNone(t: Table)
    ensures Released(t, []) == t
  {
  }

  lemma ReleasedApart(t: Table, total: nat, file: seq<nat>, ids: seq<nat>)
    requires total <= |t| && Chain(t, total, ids) && (file == [] || Apart(file, ids))
    ensures Chain(Released(t, file), total, ids)
  {
    forall i | 0 <= i < |ids|
      ensures Released(t, file)[ids[i]] == t[ids[i]]
    {
    }
  }

  lemma FreedSealed(v: Volume, data: seq<Sector>, before: seq<Sector>, ids: seq<nat>, k: nat, a: nat, b: nat)
    requires Sealed(v, before, ids) && Distinct(ids) && k < |ids|
    requires SlotChanged(v, data, before, ids[k], Freed(Slots(v, before, ids[k]), a, b))
    ensures Sealed(v, data, ids)
  {
    hide Slots, Times, Freed, NoEnd, EndsLast;
    FreedKeepsRule(Slots(v, before, ids[k]), a, b);
    forall j | 0 <= j < |ids| && j != k
      ensures Slots(v, data, ids[j]) == Slots(v, before, ids[j])
    {
      SameSlots(v, data, before, ids[j]);
    }
  }

  /** Erasing only makes slots vacant, so short names that differed still do. */
  lemma FreedShortNames(v: Volume, data: seq<Sector>, before: seq<Sector>, ids: seq<nat>, k: nat, a: nat, b: nat)
    requires Sealed(v, before, ids) && Distinct(ids) && k < |ids|
    requires SlotChanged(v, data, before, ids[k], Freed(Slots(v, before, ids[k]), a, b))
    ensures ShortNamesDiffer(v, before, ids) ==> ShortNamesDiffer(v, data, ids)
  {
    hide Slots, Times, NoEnd, EndsLast;
    hide Freed, HasShort;
    forall j | 0 <= j < |ids| && j != k
      ensures Slots(v, data, ids[j]) == Slots(v, before, ids[j])
    {
      SameSlots(v, data, before, ids[j]);
    }
    FreedShort(Slots(v, before, ids[k]), a, b);
    forall j, i | 0 <= j < |ids| && 0 <= i < PerCluster(v) && HasShort(Slots(v, data, ids[j])[i])
      ensures Slots(v, data, ids[j])[i] == Slots(v, before, ids[j])[i]
    {
    }
  }

  lemma FreedShort(s: seq<Raw>, a: nat, b: nat)
    ensures forall i :: 0 <= i < |s| && HasShort(Freed(s, a, b)[i]) ==> Freed(s, a, b)[i] == s[i]
  {
  }
}
