/** kernel/fat32.c: what a finished check has reached, when that is everything, and when it is not. */
module FatReach {
  import opened Words
  import opened LittleEndian
  import opened FatTable
  import opened FatVolume
  import opened FatContents
  import opened FatWrite
  import opened FatSlots
  import opened LongName
  import opened EntryReader
  import opened FatCheck
  import opened FatSurvey

  // ---- What a finished check knows ---------------------------------------------------------------------------

  ghost function Marks(f: Found): set<nat> {
    set x: nat | x < |f.seen| && f.seen[x]
  }

  ghost function Directories(f: Found): set<nat> {
    set q | 0 <= q < |f.queue| :: f.queue[q].cluster
  }

  /** Every run of clusters from the start of a walked directory is a part of its walk. */
  lemma {:induction false} RunInWalk(v: Volume, g: Ground, f: Found, w: nat, ids: seq<nat>, k: nat)
    requires Surveyed(v, g, f) && !f.active && !f.crossed && w < |f.walks| &&
             Run(v, g.data, g.table, f.queue[w].cluster, ids) && k < |ids|
    ensures k < |f.walks[w]| && ids[k] == f.walks[w][k]
  {
    hide Surveyed, WalkWhole;
    WalkDone(v, g, f, w);
    if k == 0 {
      RunFirst(v, g.data, g.table, f.queue[w].cluster, ids);
      RunFirst(v, g.data, g.table, f.queue[w].cluster, f.walks[w]);
    } else {
      RunInWalk(v, g, f, w, ids, k - 1);
      RunStep(v, g, f.queue[w].cluster, f.walks[w], ids, k);
    }
  }

  lemma WalkDone(v: Volume, g: Ground, f: Found, w: nat)
    requires Surveyed(v, g, f) && !f.active && !f.crossed && w < |f.walks|
    ensures |f.walks| <= |f.queue| && Run(v, g.data, g.table, f.queue[w].cluster, f.walks[w])
    ensures WalkWhole(v, g, f.walks[w])
  {
    hide Shape, WalksFollow, WalksApart, TableKept, EntriesFollowed, LinksFollowed, MarksMeant, WalksFresh, Confined,
         WalkWhole, Run;
    WalkAt(v, g, f, w);
  }

  lemma RunStep(v: Volume, g: Ground, start: nat, walk: seq<nat>, ids: seq<nat>, k: nat)
    requires Run(v, g.data, g.table, start, walk) && Run(v, g.data, g.table, start, ids) && WalkWhole(v, g, walk)
    requires 0 < k < |ids| && k <= |walk| && ids[k - 1] == walk[k - 1]
    ensures k < |walk| && ids[k] == walk[k]
  {
    hide Fits, Link;
    assert Link(g.table[ids[k - 1]]) == ids[k] && InRange(ids[k], v.Total());
    if k < |walk| {
      assert Link(g.table[walk[k - 1]]) == walk[k];
    }
  }

  lemma RunIsPart(v: Volume, g: Ground, f: Found, w: nat, ids: seq<nat>)
    requires Surveyed(v, g, f) && !f.active && !f.crossed && w < |f.walks| &&
             Run(v, g.data, g.table, f.queue[w].cluster, ids)
    ensures ids <= f.walks[w]
  {
    RunFirst(v, g.data, g.table, f.queue[w].cluster, ids);
    hide Surveyed, Run;
    RunInWalk(v, g, f, w, ids, |ids| - 1);
    forall k | 0 <= k < |ids|
      ensures k < |f.walks[w]| && ids[k] == f.walks[w][k]
    {
      RunInWalk(v, g, f, w, ids, k);
    }
  }

  /** A check that queued everything it met and whose directories met no marked cluster has marked everything that
      links and directory entries led to when it began. */
  lemma SurveyClosed(v: Volume, g: Ground, f: Found)
    requires Surveyed(v, g, f) && !f.active && |f.walks| == |f.queue| && f.complete && !f.crossed
    ensures Closed(v, g.data, g.table, g.root, Marks(f), Directories(f))
  {
    LinksClosed(v, g, f);
    assert f.queue[0].cluster in Directories(f);
    hide Surveyed, LinksInside, LeadsInside;
    forall s, ids, k: nat, i: nat | EntryOf(v, g.data, g.table, Directories(f), s, ids, k, i)
      ensures LeadsInside(v, g.data, ids, k, i, Marks(f), Directories(f))
    {
      var w :| 0 <= w < |f.queue| && f.queue[w].cluster == s;
      EntryOfRun(v, g, f, w, ids, k, i);
    }
  }

  lemma LinksClosed(v: Volume, g: Ground, f: Found)
    requires Surveyed(v, g, f) && !f.active && |f.walks| == |f.queue| && f.complete
    ensures LinksInside(v, g.table, Marks(f))
  {
    hide Times, Link, Volume.Geometry, WalksFollow, WalksApart, TableKept, EntriesFollowed, MarksMeant, WalksFresh,
         WalksWhole, Confined;
    forall x | x in Marks(f) && x < v.Total() && InRange(Link(g.table[x]), v.Total())
      ensures Link(g.table[x]) in Marks(f)
    {
      assert !Pending(f, x);
      assert LinkMarked(v, g.table, f.seen, x);
    }
  }

  lemma EntryOfRun(v: Volume, g: Ground, f: Found, w: nat, ids: seq<nat>, k: nat, i: nat)
    requires Surveyed(v, g, f) && !f.active && |f.walks| == |f.queue| && f.complete && !f.crossed && w < |f.walks|
    requires Run(v, g.data, g.table, f.queue[w].cluster, ids) && LeadsAt(v, g.data, ids, k, i)
    ensures LeadsInside(v, g.data, ids, k, i, Marks(f), Directories(f))
  {
    RunIsPart(v, g, f, w, ids);
    WalkAt(v, g, f, w);
    RunFirst(v, g.data, g.table, f.queue[w].cluster, f.walks[w]);
    LeadsInPlace(v, g.data, ids, k, i);
    LeadsPrefix(v, g.data, ids, f.walks[w], k, i);
    assert f.i == PerCluster(v);
    hide Surveyed, Run, LeadsAt, RawAt, Fits, FirstOf, IsDirectory;
    WalkedHandled(v, g, f, w, k, i);
  }

  lemma WalkedHandled(v: Volume, g: Ground, f: Found, w: nat, k: nat, i: nat)
    requires Surveyed(v, g, f) && f.complete && !f.crossed && w < |f.walks| && LeadsAt(v, g.data, f.walks[w], k, i)
    requires k < |f.walks[w]| && i < f.i
    ensures LeadsInside(v, g.data, f.walks[w], k, i, Marks(f), Directories(f))
  {
    assert EntriesFollowed(v, g, f);
    hide Surveyed, LeadsAt, RawAt, FirstOf, IsDirectory, Handled, Marks, Directories;
    assert Met(v, g, f, w, k, i);
    HandledInside(f, RawMet(v, g, f, w, k, i));
  }

  lemma HandledInside(f: Found, raw: Raw)
    requires Handled(f, raw) && f.complete && !f.crossed
    ensures FirstOf(raw) in Marks(f) && (IsDirectory(raw) ==> FirstOf(raw) in Directories(f))
  {
    hide FirstOf, IsDirectory;
  }

  /** Whatever is marked could be reached from the root when the check began; and when it queued everything it met
      and no directory met a mark, the other way round. */
  lemma MarkedIsReachable(v: Volume, g: Ground, f: Found, x: nat)
    requires Surveyed(v, g, f) && x < |f.seen|
    ensures f.seen[x] ==> Reachable(v, g.data, g.table, g.root, x)
    ensures !f.active && |f.walks| == |f.queue| && f.complete && !f.crossed ==>
              (f.seen[x] <==> Reachable(v, g.data, g.table, g.root, x))
  {
    hide Surveyed, Closed;
    if f.seen[x] {
      forall clusters: set<nat>, directories: set<nat> | Closed(v, g.data, g.table, g.root, clusters, directories)
        ensures x in clusters
      {
        InsideBy(v, g, f, clusters, directories);
      }
    }
    if !f.active && |f.walks| == |f.queue| && f.complete && !f.crossed {
      SurveyClosed(v, g, f);
    }
  }

  /** And no directory meets a marked cluster where no cluster of a directory is claimed twice. */
  lemma TidyNotCrossed(v: Volume, g: Ground, f: Found, clusters: set<nat>, directories: set<nat>, held: set<nat>)
    requires Surveyed(v, g, f) && Tidy(v, g, clusters, directories, held)
    ensures !f.crossed
  {
    hide Surveyed, Tidy;
    ConfinedBy(v, g, f, clusters, directories, held);
  }

  // ---- When something is overlooked ------------------------------------------------------------------------------

  /** The root directory's second cluster is also where a file in its first cluster begins, and there is no other
      directory; slot j of the second cluster names a cluster that nothing else leads to. */
  ghost predicate Crossing(v: Volume, g: Ground, second: nat, i: nat, j: nat, victim: nat) {
    Run(v, g.data, g.table, g.root, [g.root]) && Run(v, g.data, g.table, g.root, [g.root, second]) &&
    LeadsAt(v, g.data, [g.root], 0, i) && Target(v, g.data, [g.root], 0, i) == second &&
    (forall m: nat :: LeadsAt(v, g.data, [g.root], 0, m) ==>
       !IsDirectory(RawAt(v, g.data, [g.root], 0, m)) && Target(v, g.data, [g.root], 0, m) != victim) &&
    LeadsAt(v, g.data, [g.root, second], 1, j) && Target(v, g.data, [g.root, second], 1, j) == victim &&
    victim != g.root && v.Total() <= |g.table| && forall y: nat :: y < v.Total() ==> Link(g.table[y]) != victim
  }

  lemma RunNext(v: Volume, data: seq<Sector>, t: Table, start: nat, ids: seq<nat>)
    requires Run(v, data, t, start, ids)
    ensures |ids| > 1 ==> ids[0] < |t| && ids[1] == Link(t[ids[0]])
  {
  }

  /** There the walk of the root stops after its first cluster, and is the only one. */
  lemma CrossingWalk(v: Volume, g: Ground, f: Found, second: nat, i: nat, j: nat, victim: nat)
    requires Surveyed(v, g, f) && !f.active && |f.walks| == |f.queue| && Crossing(v, g, second, i, j, victim)
    ensures |f.walks| == 1 && f.walks[0] == [g.root]
  {
    assert |f.walks| > 0 && f.queue[0].cluster == g.root && MarksMeant(v, g, f);
    RootStops(v, g, f, second, i, j, victim);
    RootLeads(v, g, f, second, i, j, victim);
    hide Surveyed, FromEntry, FromLink;
    if |f.queue| > 1 {
      SecondLed(v, g, f);
      assert false;
    }
  }

  lemma SecondLed(v: Volume, g: Ground, f: Found)
    requires MarksMeant(v, g, f) && |f.queue| > 1
    ensures exists x: nat :: FromEntry(v, g, f, x, true, 1)
  {
    hide FromEntry;
    assert FromEntry(v, g, f, f.queue[1].cluster, true, 1);
  }

  lemma RootStops(v: Volume, g: Ground, f: Found, second: nat, i: nat, j: nat, victim: nat)
    requires Surveyed(v, g, f) && |f.walks| > 0 && Crossing(v, g, second, i, j, victim)
    ensures f.walks[0] == [g.root]
  {
    var w := f.walks[0];
    assert f.queue[0].cluster == g.root && WalkFresh(v, g, w);
    WalkAt(v, g, f, 0);
    RunFirst(v, g.data, g.table, g.root, w);
    RunFirst(v, g.data, g.table, g.root, [g.root]);
    hide Surveyed, LeadsAt, RawAt, Fits, Run, Link;
    RunNext(v, g.data, g.table, g.root, w);
    RunNext(v, g.data, g.table, g.root, [g.root, second]);
    assert [g.root, second][1] == second && [g.root, second][0] == g.root;
    LeadsPrefix(v, g.data, [g.root], w, 0, i);
    if |w| > 1 {
      FreshAt(v, g, w, i);
      assert false;
    }
  }

  lemma FreshAt(v: Volume, g: Ground, ids: seq<nat>, i: nat)
    requires WalkFresh(v, g, ids) && |ids| > 1 && LeadsAt(v, g.data, ids, 0, i)
    ensures Target(v, g.data, ids, 0, i) != ids[1]
  {
    hide LeadsAt, Target;
  }

  lemma RootLeads(v: Volume, g: Ground, f: Found, second: nat, i: nat, j: nat, victim: nat)
    requires Crossing(v, g, second, i, j, victim) && |f.walks| > 0 && f.walks[0] == [g.root]
    ensures forall x: nat :: !FromEntry(v, g, f, x, true, 1)
    ensures |f.walks| == 1 ==> !FromEntry(v, g, f, victim, false, 0)
  {
    hide Link, LeadsAt, RawAt, Run, IsDirectory, FirstOf;
    forall k: nat, m: nat | Met(v, g, f, 0, k, m)
      ensures !IsDirectory(RawMet(v, g, f, 0, k, m)) && FirstOf(RawMet(v, g, f, 0, k, m)) != victim
    {
      assert k == 0 && Target(v, g.data, [g.root], 0, m) == FirstOf(RawMet(v, g, f, 0, k, m));
    }
  }

  /** So a cluster only reached through the second cluster is not marked, although entries lead to it from the root. */
  lemma Overlooked(v: Volume, g: Ground, f: Found, second: nat, i: nat, j: nat, victim: nat)
    requires Surveyed(v, g, f) && !f.active && |f.walks| == |f.queue| && Crossing(v, g, second, i, j, victim)
    ensures |f.queue| == 1 && victim < |f.seen| && !f.seen[victim] && Reachable(v, g.data, g.table, g.root, victim)
  {
    CrossingWalk(v, g, f, second, i, j, victim);
    OverlookedMark(v, g, f, second, i, j, victim);
    OverlookedReachable(v, g, second, i, j, victim);
  }

  lemma OverlookedMark(v: Volume, g: Ground, f: Found, second: nat, i: nat, j: nat, victim: nat)
    requires Surveyed(v, g, f) && Crossing(v, g, second, i, j, victim) && |f.walks| == 1 && f.walks[0] == [g.root]
    ensures victim < |f.seen| && !f.seen[victim]
  {
    RootLeads(v, g, f, second, i, j, victim);
    assert |f.seen| == v.Total() && MarksMeant(v, g, f);
    hide Surveyed, Link, LeadsAt, RawAt, FirstOf, IsDirectory, FromEntry, Run;
    assert !FromLink(g, f, victim) && !Meant(v, g, f, victim);
  }

  lemma OverlookedReachable(v: Volume, g: Ground, second: nat, i: nat, j: nat, victim: nat)
    requires Crossing(v, g, second, i, j, victim)
    ensures Reachable(v, g.data, g.table, g.root, victim)
  {
    hide Run, LeadsAt, RawAt, IsDirectory, FirstOf, Link;
    forall clusters: set<nat>, directories: set<nat> | Closed(v, g.data, g.table, g.root, clusters, directories)
      ensures victim in clusters
    {
      assert EntryOf(v, g.data, g.table, directories, g.root, [g.root, second], 1, j);
    }
  }
}
