/** kernel/fat32.c: one directory under the checker - where its last entry is, and what is done to each of its slots. */
module FatCheckSlots {
  import opened Words
  import opened LittleEndian
  import opened FatTable
  import opened FatVolume
  import opened FatAllocation
  import opened FatContents
  import opened FatWrite
  import opened FatSlots
  import opened LongName
  import opened EntryReader
  import opened FatDirectory
  import opened FatCheck

  const CHECK_CHAIN_MAX := 65536

  // ---- The last live entry --------------------------------------------------------------

  /** A slot's number, counted from the start of the directory. */
  function Position(v: Volume, ordinal: nat, i: nat): nat {
    Times(ordinal, PerCluster(v)) + i
  }

  /** That number as the checker works it out, in 32 bits. */
  function Numbered(v: Volume, ordinal: nat, i: nat): Word {
    Position(v, ordinal, i) % BASE
  }

  /** Nothing is cut off in the first 65536 clusters. */
  lemma NumberedShort(v: Volume, ordinal: nat, i: nat)
    requires v.Geometry() && ordinal < CHECK_CHAIN_MAX && i < PerCluster(v)
    ensures Numbered(v, ordinal, i) == Position(v, ordinal, i)
  {
    hide Times;
    TimesIsProduct(ordinal, PerCluster(v));
    assert Position(v, ordinal, i) < (ordinal + 1) * PerCluster(v) <= CHECK_CHAIN_MAX * 0x1000;
  }

  /** Every live slot of the first n clusters of the chain is at or before `last`. */
  ghost predicate LastIs(v: Volume, t: Table, data: seq<Sector>, start: nat, n: nat, last: int) {
    v.Total() <= |t| && v.Geometry() && Times(v.clusterCount, v.sectorsPerCluster) <= |data| &&
    forall j: nat, i: nat :: j < n && i < PerCluster(v) && InRange(Follow(t, v.Total(), start, j), v.Total()) ==>
      (v.ClusterInside(Follow(t, v.Total(), start, j));
       Vacant(Slots(v, data, Follow(t, v.Total(), start, j))[i]) || Position(v, j, i) <= last)
  }

  /** A live slot of the first n clusters has this number. */
  ghost predicate LiveAt(v: Volume, t: Table, data: seq<Sector>, start: nat, n: nat, position: int) {
    v.Total() <= |t| && v.Geometry() && Times(v.clusterCount, v.sectorsPerCluster) <= |data| &&
    exists j: nat, i: nat :: j < n && i < PerCluster(v) && InRange(Follow(t, v.Total(), start, j), v.Total()) &&
      (v.ClusterInside(Follow(t, v.Total(), start, j));
       !Vacant(Slots(v, data, Follow(t, v.Total(), start, j))[i]) && Position(v, j, i) == position)
  }

  lemma LiveMore(v: Volume, t: Table, data: seq<Sector>, start: nat, n: nat, m: nat, position: int)
    requires LiveAt(v, t, data, start, n, position) && n <= m
    ensures LiveAt(v, t, data, start, m, position)
  {
    hide Slots, Times, Vacant, Follow, Position;
    var j: nat, i: nat :| j < n && i < PerCluster(v) && InRange(Follow(t, v.Total(), start, j), v.Total()) &&
      (v.ClusterInside(Follow(t, v.Total(), start, j));
       !Vacant(Slots(v, data, Follow(t, v.Total(), start, j))[i]) && Position(v, j, i) == position);
    assert j < m;
  }

  lemma LiveHere(v: Volume, t: Table, data: seq<Sector>, start: nat, n: nat, i: nat)
    requires v.Total() <= |t| && v.Geometry() && Times(v.clusterCount, v.sectorsPerCluster) <= |data| &&
             i < PerCluster(v)
    requires InRange(Follow(t, v.Total(), start, n), v.Total())
    requires var c := Follow(t, v.Total(), start, n);
             v.Start(c) + v.sectorsPerCluster <= |data| && !Vacant(Slots(v, data, c)[i])
    ensures LiveAt(v, t, data, start, n + 1, Position(v, n, i))
  {
    hide Slots, Times, Vacant, Follow, Position;
  }

  lemma FollowNext(t: Table, total: nat, start: nat, k: nat)
    requires total <= |t| && total <= BAD && InRange(Follow(t, total, start, k), total)
    ensures var link := FatTable.Next(t, total, Follow(t, total, start, k));
            if InRange(link, total) then Follow(t, total, start, k + 1) == link
            else !InRange(Follow(t, total, start, k + 1), total)
  {
  }

  /** A chain once left stays left. */
  lemma {:induction false} FollowLeft(t: Table, total: nat, start: nat, k: nat, j: nat)
    requires total <= |t| && total <= BAD && k <= j && !InRange(Follow(t, total, start, k), total)
    ensures !InRange(Follow(t, total, start, j), total)
    decreases j - k
  {
    if k < j {
      FollowLeft(t, total, start, k, j - 1);
    }
  }

  /** One cluster of the search: the last live slot is remembered. */
  method LastInCluster(v: Volume, cluster: nat, ordinal: nat, last0: int) returns (last: int, ghost at: nat)
    requires v.Valid() && InRange(cluster, v.Total()) && v.Start(cluster) + v.sectorsPerCluster <= |v.Data()|
    requires last0 < Position(v, ordinal, 0) && ordinal < CHECK_CHAIN_MAX
    ensures last0 <= last < Position(v, ordinal + 1, 0)
    ensures forall i :: 0 <= i < PerCluster(v) ==>
              Vacant(Slots(v, v.Data(), cluster)[i]) || Position(v, ordinal, i) <= last
    ensures last == last0 || (at < PerCluster(v) && !Vacant(Slots(v, v.Data(), cluster)[at]) &&
            Position(v, ordinal, at) == last)
  {
    hide Volume.Cached, Volume.Stored, Volume.Walked, Times, Slots, SlotIn, Volume.Start, Vacant;
    TimesNext(ordinal, PerCluster(v));
    v.ClusterInside(cluster);
    last, at := last0, 0;
    var first := v.FirstSector(cluster);
    var index := 0;
    while index < v.sectorsPerCluster
      invariant index <= v.sectorsPerCluster && last0 <= last < Position(v, ordinal, index * ENTRIES_PER_SECTOR)
      invariant last == last0 || (at < PerCluster(v) && !Vacant(Slots(v, v.Data(), cluster)[at]) &&
                Position(v, ordinal, at) == last)
      invariant forall i :: 0 <= i < index * ENTRIES_PER_SECTOR ==>
                  Vacant(Slots(v, v.Data(), cluster)[i]) || Position(v, ordinal, i) <= last
    {
      var sector := v.disk[first + index];
      var slot := 0;
      while slot < ENTRIES_PER_SECTOR
        invariant slot <= ENTRIES_PER_SECTOR && last0 <= last < Position(v, ordinal, index * ENTRIES_PER_SECTOR + slot)
        invariant last == last0 || (at < PerCluster(v) && !Vacant(Slots(v, v.Data(), cluster)[at]) &&
                  Position(v, ordinal, at) == last)
        invariant forall i :: 0 <= i < index * ENTRIES_PER_SECTOR + slot ==>
                    Vacant(Slots(v, v.Data(), cluster)[i]) || Position(v, ordinal, i) <= last
      {
        var i := index * ENTRIES_PER_SECTOR + slot;
        assert i / ENTRIES_PER_SECTOR == index && i % ENTRIES_PER_SECTOR == slot;
        SlotHere(v, cluster, i);
        if !Vacant(SlotIn(sector, slot)) {
          NumberedShort(v, ordinal, i);
          last, at := Numbered(v, ordinal, i), i;
        }
        slot := slot + 1;
      }
      index := index + 1;
    }
  }

  /** check_last_live: read before anything is marked, so a chain that loops is given up on after 65536 clusters. */
  method CheckLastLive(v: Volume, start: nat) returns (last: int)
    requires v.Valid()
    modifies v.disk, v.cache, v`cacheDirty, v`cacheSector, v`cacheValid, v`apart
    ensures v.Valid() && v.Elsewhere() == old(v.Elsewhere()) && v.apart <= old(v.apart)
    ensures LastIs(v, v.table, v.Data(), start, CHECK_CHAIN_MAX, last)
    ensures last == -1 || LiveAt(v, v.table, v.Data(), start, CHECK_CHAIN_MAX, last)
    ensures old(!v.cacheDirty) ==> !v.cacheDirty && v.disk[..] == old(v.disk[..])
  {
    hide Volume.Cached, Volume.Stored, Volume.Walked, Times, Slots, Volume.Start, Vacant, LastIs, Follow, Position,
         LiveAt;
    var cluster: nat, ordinal := start, 0;
    last := -1;
    LastNone(v, start);
    while 2 <= cluster < v.Total() && ordinal < CHECK_CHAIN_MAX
      invariant v.Valid() && v.Elsewhere() == old(v.Elsewhere()) && v.apart <= old(v.apart) &&
                ordinal <= CHECK_CHAIN_MAX
      invariant old(!v.cacheDirty) ==> !v.cacheDirty && v.disk[..] == old(v.disk[..])
      invariant cluster == Follow(v.table, v.Total(), start, ordinal)
      invariant last < Position(v, ordinal, 0) && LastIs(v, v.table, v.Data(), start, ordinal, last)
      invariant last == -1 || LiveAt(v, v.table, v.Data(), start, CHECK_CHAIN_MAX, last)
      decreases CHECK_CHAIN_MAX - ordinal
    {
      v.ClusterInside(cluster);
      ghost var before := last;
      ghost var at;
      last, at := LastInCluster(v, cluster, ordinal, last);
      LastMore(v, v.table, v.Data(), start, ordinal, before, last);
      if last != before {
        LiveHere(v, v.table, v.Data(), start, ordinal, at);
        LiveMore(v, v.table, v.Data(), start, ordinal + 1, CHECK_CHAIN_MAX, last);
      }
      FollowNext(v.table, v.Total(), start, ordinal);
      var following := v.Next(cluster);
      if !(2 <= following < v.Total()) {
        LastAll(v, v.table, v.Data(), start, ordinal + 1, last);
        return;
      }
      cluster, ordinal := following, ordinal + 1;
    }
    if ordinal < CHECK_CHAIN_MAX {
      LastAll(v, v.table, v.Data(), start, ordinal, last);
    }
  }

  lemma LastNone(v: Volume, start: nat)
    requires v.Valid()
    ensures LastIs(v, v.table, v.Data(), start, 0, -1) && start == Follow(v.table, v.Total(), start, 0) &&
            Position(v, 0, 0) == 0
  {
    hide Slots;
  }

  lemma LastMore(v: Volume, t: Table, data: seq<Sector>, start: nat, n: nat, before: int, last: int)
    requires LastIs(v, t, data, start, n, before) && before <= last && InRange(Follow(t, v.Total(), start, n),
             v.Total())
    requires var c := Follow(t, v.Total(), start, n);
             v.Start(c) + v.sectorsPerCluster <= |data| &&
             forall i :: 0 <= i < PerCluster(v) ==> Vacant(Slots(v, data, c)[i]) || Position(v, n, i) <= last
    ensures LastIs(v, t, data, start, n + 1, last)
  {
    hide Slots, Times, Vacant, Follow, Position;
    forall j: nat, i: nat | j < n + 1 && i < PerCluster(v) && InRange(Follow(t, v.Total(), start, j), v.Total())
      ensures (v.ClusterInside(Follow(t, v.Total(), start, j));
               Vacant(Slots(v, data, Follow(t, v.Total(), start, j))[i]) || Position(v, j, i) <= last)
    {
      v.ClusterInside(Follow(t, v.Total(), start, j));
    }
  }

  lemma LastAll(v: Volume, t: Table, data: seq<Sector>, start: nat, n: nat, last: int)
    requires LastIs(v, t, data, start, n, last) && !InRange(Follow(t, v.Total(), start, n), v.Total())
    ensures forall m: nat :: LastIs(v, t, data, start, m, last)
  {
    hide Slots, Times, Vacant, Position;
    forall m: nat
      ensures LastIs(v, t, data, start, m, last)
    {
      forall j: nat, i: nat | j < m && i < PerCluster(v) && InRange(Follow(t, v.Total(), start, j), v.Total())
        ensures (v.ClusterInside(Follow(t, v.Total(), start, j));
                 Vacant(Slots(v, data, Follow(t, v.Total(), start, j))[i]) || Position(v, j, i) <= last)
      {
        if j >= n {
          FollowLeft(t, v.Total(), start, n, j);
        }
      }
    }
  }
}
