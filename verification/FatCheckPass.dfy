/** kernel/fat32.c: what the checker leaves of a directory it has gone over. */
module FatCheckPass {
  import opened Words
  import opened LittleEndian
  import opened FatTable
  import opened FatVolume
  import opened FatAllocation
  import opened FatContents
  import opened FatWrite
  import opened FatSlots
  import opened LongName
  import opened EntryReader
  import opened FatDirectory
  import opened FatEntries
  import opened FatCheck
  import opened FatSurvey
  import opened FatDeeds
  import opened FatRuns
  import opened FatCheckFile
  import opened FatCheckSlots
  import opened FatCheckMend
  import opened FatCheckDirectory

  /** The clusters walked are those the chain had when the pass began. */
  ghost predicate Walked(v: Volume, pass: Pass, ids: seq<nat>) {
    v.Total() <= |pass.table| && forall j :: 0 <= j < |ids| ==> ids[j] == Follow(pass.table, v.Total(), pass.start, j)
  }

  /** Clusters of no directory walked so far hold what the whole check found. */
  ghost predicate DataKept(v: Volume, data: seq<Sector>, ground: seq<Sector>, walks: seq<seq<nat>>) {
    |data| == |ground| && forall c: nat :: 2 <= c && !InWalk(walks, c) && v.Start(c) + v.sectorsPerCluster <= |data| ==>
    SameCluster(v, data, ground, c)
  }

  /** What is known of a finished pass, whatever comes after it. */
  ghost predicate PassIs(v: Volume, pass: Pass, repair: bool, ids: seq<nat>) {
    pass.repair == repair && Walked(v, pass, ids) && |ids| > 0 && (forall j :: 0 <= j < |ids| ==> InRange(ids[j],
    v.Total())) &&
    LastIs(v, pass.table, pass.data, pass.start, CHECK_CHAIN_MAX, pass.last) &&
    (pass.last == -1 || LiveAt(v, pass.table, pass.data, pass.start, CHECK_CHAIN_MAX, pass.last))
  }

  lemma PassDone(v: Volume, pass: Pass, repair: bool, ids: seq<nat>)
    requires pass.repair == repair && Walked(v, pass, ids) && |ids| > 0 && forall j :: 0 <= j < |ids| ==>
             InRange(ids[j], v.Total())
    requires LastIs(v, pass.table, pass.data, pass.start, CHECK_CHAIN_MAX, pass.last)
    requires pass.last == -1 || LiveAt(v, pass.table, pass.data, pass.start, CHECK_CHAIN_MAX, pass.last)
    ensures PassIs(v, pass, repair, ids)
  {
  }

  /** The whole directory gone over. */
  ghost predicate Cleared(v: Volume, data: seq<Sector>, pass: Pass, ids: seq<nat>, deeds: seq<Deed>,
                          freed: set<Spot>) {
    SlotsMended(v, data, pass, ids, PerCluster(v), deeds, freed) && FreedIs(v, pass, ids, PerCluster(v), freed)
  }

  lemma ClearedAt(v: Volume, data: seq<Sector>, pass: Pass, ids: seq<nat>, deeds: seq<Deed>, freed: set<Spot>, k: nat,
                  i: nat)
    requires Cleared(v, data, pass, ids, deeds, freed) && k < |ids| && i < PerCluster(v)
    ensures Fits(v, data, ids) && Fits(v, pass.data, ids)
    ensures Treated(pass, deeds, freed, SpotIn(pass, k, i), Numbered(v, k, i), NameAt(v, pass.data, ids, k, i),
                    Slots(v, pass.data, ids[k])[i], Slots(v, data, ids[k])[i])
  {
    hide Slots, Times, Numbered, NameAt, Treated, FreedIs;
    assert SlotMended(v, data, pass, ids, PerCluster(v), deeds, freed, k, i);
  }

  /** What the first byte of a slot has become. */
  lemma ClearedMarks(v: Volume, data: seq<Sector>, pass: Pass, ids: seq<nat>, deeds: seq<Deed>, freed: set<Spot>,
                     k: nat, i: nat)
    requires Cleared(v, data, pass, ids, deeds, freed) && k < |ids| && i < PerCluster(v)
    ensures Fits(v, data, ids) && Fits(v, pass.data, ids)
    ensures var before, raw := Slots(v, pass.data, ids[k])[i], Slots(v, data, ids[k])[i];
            if before[0] == ENTRY_END
            then raw[0] == if pass.repair && Numbered(v, k, i) < pass.last then ENTRY_FREE else ENTRY_END
            else raw[0] != ENTRY_END && (before[0] == ENTRY_FREE ==> raw[0] == ENTRY_FREE)
  {
    hide Slots, Times, Numbered, NameAt, Treated, Cleared;
    ClearedAt(v, data, pass, ids, deeds, freed, k, i);
    TreatedMarks(pass, deeds, freed, SpotIn(pass, k, i), Numbered(v, k, i), NameAt(v, pass.data, ids, k, i),
        Slots(v, pass.data, ids[k])[i], Slots(v, data, ids[k])[i]);
  }

  /** With repairs, no end mark is left in front of a live entry of the clusters walked. */
  lemma Uncovered(v: Volume, data: seq<Sector>, pass: Pass, ids: seq<nat>, deeds: seq<Deed>, freed: set<Spot>)
    requires v.Geometry() && Cleared(v, data, pass, ids, deeds, freed) && PassIs(v, pass, true, ids) &&
             |ids| <= CHECK_CHAIN_MAX
    ensures NothingHidden(v, data, ids)
  {
    hide Slots, Times, Follow, Position, Numbered, LiveAt, Cleared;
    ClearedFits(v, data, pass, ids, deeds, freed);
    forall k, i, l, j | 0 <= k <= l < |ids| && 0 <= i < PerCluster(v) && 0 <= j < PerCluster(v) && (k < l || i < j) &&
                        Slots(v, data, ids[k])[i][0] == ENTRY_END
      ensures Vacant(Slots(v, data, ids[l])[j])
    {
      PositionsRise(v, k, i, l, j);
      NumberedShort(v, k, i);
      ClearedMarks(v, data, pass, ids, deeds, freed, k, i);
      ClearedMarks(v, data, pass, ids, deeds, freed, l, j);
      assert ids[l] == Follow(pass.table, v.Total(), pass.start, l);
    }
  }

  lemma ClearedFits(v: Volume, data: seq<Sector>, pass: Pass, ids: seq<nat>, deeds: seq<Deed>, freed: set<Spot>)
    requires Cleared(v, data, pass, ids, deeds, freed)
    ensures |ids| > 0 && Fits(v, data, ids) && Fits(v, pass.data, ids)
  {
    hide SlotMended, FreedIs;
  }

  /** An end mark that a live slot of the directory stood behind when the pass began. */
  ghost predicate Covers(v: Volume, pass: Pass, k: nat, i: nat) {
    exists position: int ::
      LiveAt(v, pass.table, pass.data, pass.start, CHECK_CHAIN_MAX, position) && Position(v, k, i) < position
  }

  lemma CoversBefore(v: Volume, pass: Pass, ids: seq<nat>, k: nat, i: nat)
    requires PassIs(v, pass, true, ids)
    ensures Covers(v, pass, k, i) <==> Position(v, k, i) < pass.last
  {
    hide Slots, Times, Follow, Position, Walked;
    if position :| LiveAt(v, pass.table, pass.data, pass.start, CHECK_CHAIN_MAX, position) &&
                   Position(v, k, i) < position {
      LiveBelow(v, pass.table, pass.data, pass.start, CHECK_CHAIN_MAX, position, pass.last);
    }
  }

  lemma LiveBelow(v: Volume, t: Table, data: seq<Sector>, start: nat, n: nat, position: int, last: int)
    requires LiveAt(v, t, data, start, n, position) && LastIs(v, t, data, start, n, last)
    ensures position <= last
  {
    hide Slots, Times, Follow, Position, Vacant;
  }

  /** Slot i of cluster number k of a directory is an end mark. */
  ghost predicate SlotEnds(v: Volume, data: seq<Sector>, ids: seq<nat>, k: nat, i: nat) {
    Fits(v, data, ids) && k < |ids| && i < PerCluster(v) && Slots(v, data, ids[k])[i][0] == ENTRY_END
  }

  /** A repaired directory obeys the rule if and only if, when its pass began, every end mark in a cluster with a
      successor had a live entry behind it: the repair leaves the other end marks where they are. */
  lemma SealedAfterRepair(v: Volume, data: seq<Sector>, pass: Pass, ids: seq<nat>, deeds: seq<Deed>,
                          freed: set<Spot>)
    requires v.Geometry() && Cleared(v, data, pass, ids, deeds, freed) && PassIs(v, pass, true, ids) &&
             |ids| <= CHECK_CHAIN_MAX
    ensures Sealed(v, data, ids) <==>
            forall k: nat, i: nat :: k + 1 < |ids| && SlotEnds(v, pass.data, ids, k, i) ==> Covers(v, pass, k, i)
  {
    hide SlotEnds, Cleared, PassIs, Covers, NothingHidden, Volume.Geometry, Sealed;
    ClearedFits(v, data, pass, ids, deeds, freed);
    Uncovered(v, data, pass, ids, deeds, freed);
    forall k: nat, i: nat
      ensures SlotEnds(v, data, ids, k, i) <==> SlotEnds(v, pass.data, ids, k, i) && !Covers(v, pass, k, i)
    {
      EndsAfter(v, data, pass, ids, deeds, freed, k, i);
    }
    SealedBySlots(v, data, ids);
  }

  /** An end mark is left exactly when it covered nothing. */
  lemma EndsAfter(v: Volume, data: seq<Sector>, pass: Pass, ids: seq<nat>, deeds: seq<Deed>, freed: set<Spot>, k: nat,
                  i: nat)
    requires v.Geometry() && Cleared(v, data, pass, ids, deeds, freed) && PassIs(v, pass, true, ids) &&
             |ids| <= CHECK_CHAIN_MAX
    ensures SlotEnds(v, data, ids, k, i) <==> SlotEnds(v, pass.data, ids, k, i) && !Covers(v, pass, k, i)
  {
    hide Slots, Times, Numbered, Position, Walked, LastIs, LiveAt, Covers, Cleared;
    if k < |ids| && i < PerCluster(v) {
      CoversBefore(v, pass, ids, k, i);
      NumberedShort(v, k, i);
      ClearedMarks(v, data, pass, ids, deeds, freed, k, i);
    }
  }

  /** A directory that hides nothing obeys the rule when no cluster with a successor has an end mark. */
  lemma SealedBySlots(v: Volume, data: seq<Sector>, ids: seq<nat>)
    requires NothingHidden(v, data, ids) && |ids| > 0
    ensures Sealed(v, data, ids) <==> forall k: nat, i: nat :: k + 1 < |ids| ==> !SlotEnds(v, data, ids, k, i)
  {
    LastEnds(v, data, ids);
    hide Slots, EndsLast, NothingHidden;
    if !Sealed(v, data, ids) {
      var k :| 0 <= k < |ids| - 1 && !NoEnd(Slots(v, data, ids[k]));
      var i :| 0 <= i < PerCluster(v) && Slots(v, data, ids[k])[i][0] == ENTRY_END;
      assert SlotEnds(v, data, ids, k, i);
    }
  }

  lemma LastEnds(v: Volume, data: seq<Sector>, ids: seq<nat>)
    requires NothingHidden(v, data, ids) && |ids| > 0
    ensures EndsLast(Slots(v, data, ids[|ids| - 1]))
  {
    hide Slots;
  }

  /** An empty directory of two clusters goes through a repair with its end marks in place, and does not obey the
      rule. */
  lemma EmptyStaysUnsealed(v: Volume, data: seq<Sector>, pass: Pass, deeds: seq<Deed>, freed: set<Spot>, a: nat,
                           b: nat)
    requires v.Geometry() && Cleared(v, data, pass, [a, b], deeds, freed) && PassIs(v, pass, true, [a, b])
    requires Fits(v, pass.data, [a, b])
    requires forall j, i :: 0 <= j < 2 && 0 <= i < PerCluster(v) ==> Slots(v, pass.data, [a, b][j])[i][0] == ENTRY_END
    requires !InRange(FatTable.Next(pass.table, v.Total(), b), v.Total())
    ensures NothingHidden(v, data, [a, b]) && !Sealed(v, data, [a, b])
  {
    Uncovered(v, data, pass, [a, b], deeds, freed);
    SealedAfterRepair(v, data, pass, [a, b], deeds, freed);
    hide Slots, Times, Position, Sealed, NothingHidden, Cleared;
    assert !Covers(v, pass, 0, 0) by {
      forall position: int
        ensures !LiveAt(v, pass.table, pass.data, pass.start, CHECK_CHAIN_MAX, position)
      {
        NoneLive(v, pass, a, b, position);
      }
    }
    assert Slots(v, pass.data, [a, b][0])[0][0] == ENTRY_END;
  }

  lemma NoneLive(v: Volume, pass: Pass, a: nat, b: nat, position: int)
    requires v.Geometry() && PassIs(v, pass, true, [a, b]) && v.Total() <= BAD && Fits(v, pass.data, [a, b])
    requires forall j, i :: 0 <= j < 2 && 0 <= i < PerCluster(v) ==> Slots(v, pass.data, [a, b][j])[i][0] == ENTRY_END
    requires !InRange(FatTable.Next(pass.table, v.Total(), b), v.Total())
    ensures !LiveAt(v, pass.table, pass.data, pass.start, CHECK_CHAIN_MAX, position)
  {
    hide Slots, Times, Position, Follow, LastIs;
    assert [a, b][1] == b && [a, b][0] == a;
    assert Follow(pass.table, v.Total(), pass.start, 0) == a && Follow(pass.table, v.Total(), pass.start, 1) == b;
    FollowNext(pass.table, v.Total(), pass.start, 1);
    forall j: nat | j < CHECK_CHAIN_MAX && InRange(Follow(pass.table, v.Total(), pass.start, j), v.Total())
      ensures j < 2
    {
      if j >= 2 {
        FollowLeft(pass.table, v.Total(), pass.start, 2, j);
      }
    }
    forall j: nat, i: nat | j < 2 && i < PerCluster(v)
      ensures Vacant(Slots(v, pass.data, [a, b][j])[i])
    {
    }
  }

  lemma PositionsRise(v: Volume, k: nat, i: nat, l: nat, j: nat)
    requires i < PerCluster(v) && j < PerCluster(v) && (k < l || (k == l && i < j))
    ensures Position(v, k, i) < Position(v, l, j)
  {
    if k < l {
      TimesMono(k + 1, l, PerCluster(v));
    }
  }

  // ---- The whole volume ---------------------------------------------------------------------------------

  /** What every finished pass has left, and what it found there: its clusters' slots as they were when the check
      began. */
  ghost predicate PassEnded(v: Volume, data: seq<Sector>, ground: Ground, repair: bool, pass: Pass, ids: seq<nat>,
                            w: nat, queue: seq<Directory>, deeds: seq<Deed>, freed: set<Spot>) {
    PassIs(v, pass, repair, ids) && pass.ground == ground && SameRead(v, pass, ids) && |pass.walks| == w < |queue| &&
    queue[w] == Directory(pass.start, pass.parent) && Cleared(v, data, pass, ids, deeds, freed)
  }

  ghost predicate AllMended(v: Volume, data: seq<Sector>, ground: Ground, repair: bool, passes: seq<Pass>,
                            walks: seq<seq<nat>>, queue: seq<Directory>, deeds: seq<Deed>, freed: set<Spot>) {
    |passes| == |walks| && forall w :: 0 <= w < |walks| ==>
      PassEnded(v, data, ground, repair, passes[w], walks[w], w, queue, deeds, freed)
  }

  /** A directory stays cleared while its clusters do not change and nothing of it is marked deleted. */
  lemma ClearedStill(v: Volume, data: seq<Sector>, before: seq<Sector>, pass: Pass, ids: seq<nat>, deeds: seq<Deed>,
                     more: seq<Deed>, freed: set<Spot>, freed1: set<Spot>)
    requires Cleared(v, before, pass, ids, deeds, freed) && |data| == |before| && deeds <= more
    requires forall k :: 0 <= k < |ids| ==> SameCluster(v, data, before, ids[k])
    requires forall s: Spot :: s.walk == |pass.walks| ==> (s in freed <==> s in freed1)
    ensures Cleared(v, data, pass, ids, more, freed1)
  {
    hide Slots, Times, SlotMended, FreedIs;
    ClearedFits(v, before, pass, ids, deeds, freed);
    forall k | 0 <= k < |ids|
      ensures Slots(v, data, ids[k]) == Slots(v, before, ids[k])
    {
      SameSlots(v, data, before, ids[k]);
    }
    var n := PerCluster(v);
    forall j: nat, t: nat | j < |ids| && t < PerCluster(v)
      ensures SlotMended(v, data, pass, ids, n, more, freed1, j, t)
    {
      SlotRecord(v, before, pass, ids, n, deeds, more, freed, freed1, j, t);
      SlotSame(v, data, before, pass, ids, n, n, more, freed1, j, t);
    }
    FreedStill(v, pass, ids, n, freed, freed1);
  }

  lemma FreedStill(v: Volume, pass: Pass, ids: seq<nat>, i: nat, freed: set<Spot>, freed1: set<Spot>)
    requires FreedIs(v, pass, ids, i, freed)
    requires forall s: Spot :: s.walk == |pass.walks| ==> (s in freed <==> s in freed1)
    ensures FreedIs(v, pass, ids, i, freed1)
  {
    hide FreedAt;
  }

  /** One more pass leaves the earlier ones' clusters alone. */
  lemma AllMendedMore(v: Volume, data: seq<Sector>, ground: Ground, repair: bool, passes: seq<Pass>,
                      walks: seq<seq<nat>>, queue: seq<Directory>, pass: Pass, ids: seq<nat>, f: Found,
                      deeds: seq<Deed>, freed: set<Spot>)
    requires AllMended(v, pass.data, ground, repair, passes, walks, queue, pass.deeds, pass.freed)
    requires Mended(v, data, pass, ids, PerCluster(v), deeds, freed) && FreedIs(v, pass, ids, PerCluster(v), freed)
    requires PassIs(v, pass, repair, ids) && pass.ground == ground && SameRead(v, pass, ids) && pass.walks == walks
    requires LogKept(pass, deeds, freed) && queue <= f.queue && |walks| < |f.queue| &&
             f.queue[|walks|] == Directory(pass.start, pass.parent)
    requires WalksApart(f) && f.walks == walks + [ids]
    ensures AllMended(v, data, ground, repair, passes + [pass], walks + [ids], f.queue, deeds, freed)
  {
    hide Slots, PassEnded, Mended, FreedIs, PassIs, SameRead, LogKept, WalksApart;
    EndedNow(v, data, ground, repair, pass, ids, f.queue, deeds, freed);
    forall w | 0 <= w < |walks|
      ensures PassEnded(v, data, ground, repair, passes[w], walks[w], w, f.queue, deeds, freed)
    {
      EndedStill(v, data, ground, repair, pass, ids, f, walks, w, passes[w], queue, deeds, freed);
    }
    forall w | 0 <= w < |walks| + 1
      ensures PassEnded(v, data, ground, repair, (passes + [pass])[w], (walks + [ids])[w], w, f.queue, deeds, freed)
    {
      if w < |walks| {
        assert (passes + [pass])[w] == passes[w] && (walks + [ids])[w] == walks[w];
      }
    }
  }

  lemma EndedNow(v: Volume, data: seq<Sector>, ground: Ground, repair: bool, pass: Pass, ids: seq<nat>,
                 queue: seq<Directory>, deeds: seq<Deed>, freed: set<Spot>)
    requires Mended(v, data, pass, ids, PerCluster(v), deeds, freed) && FreedIs(v, pass, ids, PerCluster(v), freed)
    requires PassIs(v, pass, repair, ids) && pass.ground == ground && SameRead(v, pass, ids)
    requires |pass.walks| < |queue| && queue[|pass.walks|] == Directory(pass.start, pass.parent)
    ensures PassEnded(v, data, ground, repair, pass, ids, |pass.walks|, queue, deeds, freed)
  {
    hide SlotsMended, FreedIs, PassIs, SameRead;
  }

  lemma EndedStill(v: Volume, data: seq<Sector>, ground: Ground, repair: bool, pass: Pass, ids: seq<nat>, f: Found,
                   walks: seq<seq<nat>>, w: nat, other: Pass, queue: seq<Directory>, deeds: seq<Deed>,
                   freed: set<Spot>)
    requires w < |walks| == |pass.walks|
    requires PassEnded(v, pass.data, ground, repair, other, walks[w], w, queue, pass.deeds, pass.freed)
    requires Mended(v, data, pass, ids, PerCluster(v), deeds, freed) && LogKept(pass, deeds, freed)
    requires WalksApart(f) && f.walks == walks + [ids] && queue <= f.queue
    ensures PassEnded(v, data, ground, repair, other, walks[w], w, f.queue, deeds, freed)
  {
    hide Slots, Times, SlotMended, Cleared, PassIs, SameRead;
    assert f.walks[w] == walks[w] && f.walks[|walks|] == ids;
    ClearedFits(v, pass.data, other, walks[w], pass.deeds, pass.freed);
    forall k | 0 <= k < |walks[w]|
      ensures SameCluster(v, data, pass.data, walks[w][k])
    {
      assert forall k1 :: 0 <= k1 < |ids| ==> f.walks[w][k] != f.walks[|walks|][k1];
      assert walks[w][k] !in ids;
    }
    ClearedStill(v, data, pass.data, other, walks[w], pass.deeds, deeds, pass.freed, freed);
  }

  /** What a repair leaves of every directory walked: nothing behind an end mark. */
  lemma NothingHiddenAfter(v: Volume, data: seq<Sector>, ground: Ground, passes: seq<Pass>, walks: seq<seq<nat>>,
                           queue: seq<Directory>, deeds: seq<Deed>, freed: set<Spot>)
    requires v.Geometry() && AllMended(v, data, ground, true, passes, walks, queue, deeds, freed)
    ensures forall w :: 0 <= w < |walks| && |walks[w]| <= CHECK_CHAIN_MAX ==> NothingHidden(v, data, walks[w])
  {
    hide PassIs, Cleared, SameRead, NothingHidden;
    forall w | 0 <= w < |walks| && |walks[w]| <= CHECK_CHAIN_MAX
      ensures NothingHidden(v, data, walks[w])
    {
      assert PassEnded(v, data, ground, true, passes[w], walks[w], w, queue, deeds, freed);
      Uncovered(v, data, passes[w], walks[w], deeds, freed);
    }
  }
}
