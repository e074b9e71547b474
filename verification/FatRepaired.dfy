/** kernel/fat32.c: what a whole check leaves of the volume it found. */
module FatRepaired {
  import opened Words
  import opened LittleEndian
  import opened FatTable
  import opened FatVolume
  import opened FatAllocation
  import opened FatContents
  import opened FatWrite
  import opened FatSlots
  import opened LongName
  import opened EntryReader
  import opened FatDirectory
  import opened FatEntries
  import opened FatCheck
  import opened FatSurvey
  import opened FatDeeds
  import opened FatRuns
  import opened FatReach
  import opened FatCheckFile
  import opened FatCheckSlots
  import opened FatCheckMend
  import opened FatCheckDirectory
  import opened FatCheckPass
  import opened FatKept
  import opened FatFreed
  import opened FatLost
  import opened FatNamed
  import opened FatUndercut
  import opened FatResized

  /** The walk of the whole volume, done. */
  ghost predicate Checked(v: Volume, g: Ground, f: Found, repair: bool, data: seq<Sector>, passes: seq<Pass>,
                           deeds: seq<Deed>, freed: set<Spot>) {
    Accounted(v, g, repair, f, deeds) && !f.active && |f.walks| == |f.queue| && DataKept(v, data, g.data, f.walks) &&
    AllMended(v, data, g, repair, passes, f.walks, f.queue, deeds, freed)
  }

  lemma CheckedSizes(v: Volume, g: Ground, f: Found, repair: bool, data: seq<Sector>, passes: seq<Pass>,
                      deeds: seq<Deed>, freed: set<Spot>)
    requires Checked(v, g, f, repair, data, passes, deeds, freed)
    ensures |f.seen| == v.Total() <= |f.table| == |g.table| && v.Geometry() && 0 < v.ClusterBytes() <= 0x2_0000
  {
    hide Surveyed, OnRecord, AllMended, DataKept;
    FoundSizes(v, g, f);
  }

  // ---- What has been given back -----------------------------------------------------------------------------

  /** A cluster that was in use is free afterwards exactly when nothing has marked it in a complete check, and it is
      not bad, or it was the surplus of a file. In a complete check whose directories met no mark, what is marked is
      what links and entries led to from the root. */
  ghost predicate GivenBackAt(v: Volume, g: Ground, repair: bool, f: Found, deeds: seq<Deed>, t: Table, x: nat)
    requires x < |g.table| && x < |t| && x < |f.seen|
  {
    (!IsFree(g.table, x) ==>
       (IsFree(t, x) <==>
          repair && ((f.complete && !f.seen[x] && Link(g.table[x]) != BAD) ||
                       exists n :: 0 <= n < |deeds| && Surplus(v, g, deeds[n], x)))) &&
    (f.complete && !f.crossed ==> (f.seen[x] <==> Reachable(v, g.data, g.table, g.root, x)))
  }

  ghost predicate GivenBack(v: Volume, g: Ground, repair: bool, f: Found, deeds: seq<Deed>, t: Table) {
    |f.seen| == v.Total() <= |t| == |g.table| &&
    forall x: nat :: InRange(x, v.Total()) ==> GivenBackAt(v, g, repair, f, deeds, t, x)
  }

  lemma GivenBackAfter(v: Volume, g: Ground, f: Found, repair: bool, data: seq<Sector>, passes: seq<Pass>,
                       deeds: seq<Deed>, freed: set<Spot>)
    requires Checked(v, g, f, repair, data, passes, deeds, freed)
    ensures |f.seen| == v.Total() <= |f.table|
    ensures GivenBack(v, g, repair, f, deeds, Ending(f, repair, v.Total()))
  {
    hide Checked, GivenBackAt, Accounted, Ending;
    CheckedSizes(v, g, f, repair, data, passes, deeds, freed);
    CheckedAll(v, g, f, repair, data, passes, deeds, freed);
    forall x: nat | InRange(x, v.Total())
      ensures GivenBackAt(v, g, repair, f, deeds, Ending(f, repair, v.Total()), x)
    {
      GivenBackOne(v, g, f, repair, deeds, x);
    }
  }

  lemma GivenBackOne(v: Volume, g: Ground, f: Found, repair: bool, deeds: seq<Deed>, x: nat)
    requires Accounted(v, g, repair, f, deeds) && !f.active && |f.walks| == |f.queue| && InRange(x, v.Total())
    ensures |f.seen| == v.Total() <= |f.table| == |g.table|
    ensures GivenBackAt(v, g, repair, f, deeds, Ending(f, repair, v.Total()), x)
  {
    hide Surveyed, OnRecord, Link, Surplus, Ending, Reachable, IsFree;
    FreedExactly(v, g, repair, f, deeds, x);
    MarkedIsReachable(v, g, f, x);
  }

  /** No entry of these directories names what another file may have to give back. */
  ghost predicate SurplusApart(v: Volume, g: Ground, clusters: set<nat>, directories: set<nat>) {
    Closed(v, g.data, g.table, g.root, clusters, directories) && SurplusUnnamed(v, g, directories)
  }

  /** No entry of the directories walked names a cluster that was in use and is free now. */
  ghost predicate NoneNames(v: Volume, g: Ground, walks: seq<seq<nat>>, t: Table) {
    v.Total() <= |t| == |g.table| &&
    forall w: nat, k: nat, i: nat :: w < |walks| && LeadsAt(v, g.data, walks[w], k, i) ==>
      (IsFree(t, Target(v, g.data, walks[w], k, i)) ==> IsFree(g.table, Target(v, g.data, walks[w], k, i)))
  }

  lemma NoneNamesAfter(v: Volume, g: Ground, f: Found, repair: bool, data: seq<Sector>, passes: seq<Pass>,
                       deeds: seq<Deed>, freed: set<Spot>, clusters: set<nat>, directories: set<nat>)
    requires Checked(v, g, f, repair, data, passes, deeds, freed) && SurplusApart(v, g, clusters, directories)
    ensures |f.seen| == v.Total() <= |f.table|
    ensures NoneNames(v, g, f.walks, Ending(f, repair, v.Total()))
  {
    hide Accounted, AllMended, DataKept, SurplusUnnamed, Closed, Ending, Link, Target, Met, TargetMet, LeadsAt;
    CheckedSizes(v, g, f, repair, data, passes, deeds, freed);
    CheckedAll(v, g, f, repair, data, passes, deeds, freed);
    NoneNamed(v, g, repair, f, deeds, clusters, directories);
    forall w: nat, k: nat, i: nat | w < |f.walks| && LeadsAt(v, g.data, f.walks[w], k, i)
      ensures IsFree(Ending(f, repair, v.Total()), Target(v, g.data, f.walks[w], k, i)) ==>
                IsFree(g.table, Target(v, g.data, f.walks[w], k, i))
    {
      MetAtEnd(v, g, f, w, k, i);
    }
  }

  lemma CheckedAll(v: Volume, g: Ground, f: Found, repair: bool, data: seq<Sector>, passes: seq<Pass>,
                    deeds: seq<Deed>, freed: set<Spot>)
    requires Checked(v, g, f, repair, data, passes, deeds, freed)
    ensures f.i == PerCluster(v) && |f.walks| > 0 && f.queue[0].cluster == g.root
    ensures Accounted(v, g, repair, f, deeds) && !f.active && |f.walks| == |f.queue|
    ensures Times(v.clusterCount, v.sectorsPerCluster) <= |g.data|
  {
    hide OnRecord, AllMended, DataKept, WalksFollow, EntriesFollowed, LinksFollowed, MarksMeant, WalksFresh, WalksWhole,
         Confined, TableKept, Times;
  }

  lemma MetAtEnd(v: Volume, g: Ground, f: Found, w: nat, k: nat, i: nat)
    requires w < |f.walks| && LeadsAt(v, g.data, f.walks[w], k, i) && f.i == PerCluster(v)
    ensures Met(v, g, f, w, k, i) && TargetMet(v, g, f, w, k, i) == Target(v, g.data, f.walks[w], k, i)
  {
    hide LeadsAt, Target;
    LeadsInPlace(v, g.data, f.walks[w], k, i);
  }

  // ---- Files -----------------------------------------------------------------------------------------------------

  /** A file in order on a chain that nothing else leads to comes through a repair with its entry, its size and its
      contents; and with its chain, if and only if its size rounded up to clusters stays within 32 bits. */
  lemma FileSurvives(v: Volume, g: Ground, f: Found, data: seq<Sector>, passes: seq<Pass>, deeds: seq<Deed>,
                     freed: set<Spot>, w: nat, k: nat, i: nat, clusters: set<nat>, directories: set<nat>,
                     chain: seq<nat>)
    requires Checked(v, g, f, true, data, passes, deeds, freed) && w < |f.walks|
    requires OwnChain(v, g, clusters, directories, f.walks[w], k, i, chain)
    requires FileAt(v, g.data, f.walks[w], k, i) && 0 < v.ClusterBytes()
    requires |chain| == Over(Read32(FileRaw(v, g.data, f.walks[w], k, i), 28) + v.ClusterBytes() - 1, v.ClusterBytes())
    ensures |f.seen| == v.Total() <= |f.table| == |g.table| && Fits(v, data, f.walks[w]) && k < |f.walks[w]|
    ensures Slots(v, data, f.walks[w][k])[i] == FileRaw(v, g.data, f.walks[w], k, i)
    ensures (forall j :: 0 <= j < |chain| ==>
               chain[j] < |g.table| && Ending(f, true, v.Total())[chain[j]] == g.table[chain[j]])
            <==> Read32(FileRaw(v, g.data, f.walks[w], k, i), 28) + v.ClusterBytes() - 1 < BASE
    ensures forall j :: 0 <= j < |chain| ==> 2 <= chain[j] && SameCluster(v, data, g.data, chain[j])
  {
    hide Accounted, AllMended, DataKept, OwnChain, Over, FileAt, FileRaw, Read32, Ending, Link, Slots, SameCluster,
         DeedPlaced, DeedRaw, Settled;
    CheckedSizes(v, g, f, true, data, passes, deeds, freed);
    CheckedAll(v, g, f, true, data, passes, deeds, freed);
    var n := FileSettled(v, data, g, true, passes, f.walks, f.queue, deeds, freed, w, k, i);
    DeedHere(v, g, true, f, deeds, n, w, k, i);
    OwnHere(v, g, clusters, directories, f.walks[w], Hand(deeds[n].before), k, i, chain);
    OwnFileKept(v, g, f, deeds, n, clusters, directories, chain);
    SettledSame(deeds[n], FileRaw(v, g.data, f.walks[w], k, i));
    OwnFacts(v, g, clusters, directories, f.walks[w], k, i, chain);
    ChainInside(g.table, v.Total(), chain);
    forall j | 0 <= j < |chain|
      ensures 2 <= chain[j] && SameCluster(v, data, g.data, chain[j])
    {
      KeptCluster(v, data, g.data, f, chain[j]);
    }
  }

  /** With repairs a file that holds anything is left with a proper chain of the clusters it keeps, and nothing that
      comes after it changes that. */
  lemma FileChained(v: Volume, g: Ground, f: Found, data: seq<Sector>, passes: seq<Pass>, deeds: seq<Deed>,
                    freed: set<Spot>, n: nat)
    requires Checked(v, g, f, true, data, passes, deeds, freed) && n < |deeds| && deeds[n].file != []
    ensures |f.seen| == v.Total() <= |f.table| == |g.table| && DeedPlaced(v, g, deeds[n]) && 0 < v.ClusterBytes()
    ensures Chain(Ending(f, true, v.Total()), v.Total(),
                  KeptOf(deeds[n].file, ClustersNeeded(Read32(DeedRaw(v, g, deeds[n]), 28), v.ClusterBytes())))
  {
    hide Checked, Accounted, Ending, Chain, DeedIs, DeedPlaced, DeedRaw, Read32, ClustersNeeded, KeptOf;
    CheckedSizes(v, g, f, true, data, passes, deeds, freed);
    CheckedAll(v, g, f, true, data, passes, deeds, freed);
    DeedSound(v, g, true, f, deeds, n);
    DeedChain(v, g, deeds[n]);
    var kept := KeptOf(deeds[n].file, ClustersNeeded(Read32(DeedRaw(v, g, deeds[n]), 28), v.ClusterBytes()));
    forall j | 0 <= j < |kept|
      ensures kept[j] < |f.table| == |deeds[n].table| && Ending(f, true, v.Total())[kept[j]] == deeds[n].table[kept[j]]
    {
      KeptIn(deeds[n].file, ClustersNeeded(Read32(DeedRaw(v, g, deeds[n]), 28), v.ClusterBytes()), j);
      FileEnds(v, g, true, f, deeds, n, kept[j]);
    }
    ChainCopied(deeds[n].table, Ending(f, true, v.Total()), v.Total(), kept);
  }

  lemma KeptIn(file: seq<nat>, needed: nat, j: nat)
    requires j < |KeptOf(file, needed)|
    ensures KeptOf(file, needed)[j] in file
  {
  }

  lemma DeedSound(v: Volume, g: Ground, repair: bool, f: Found, deeds: seq<Deed>, n: nat)
    requires Accounted(v, g, repair, f, deeds) && n < |deeds|
    ensures DeedIs(v, g, repair, deeds[n]) && DeedPlaced(v, g, deeds[n])
  {
    hide Surveyed, OnRecord, Grew, DeedPlaced, FileTreated;
    DeedOf(v, g, repair, f, deeds, n);
  }

  lemma DeedChain(v: Volume, g: Ground, d: Deed)
    requires DeedIs(v, g, true, d) && d.file != [] && DeedPlaced(v, g, d) && 0 < v.ClusterBytes()
    ensures v.Total() <= |d.table| && Chain(d.table, v.Total(),
              KeptOf(d.file, ClustersNeeded(Read32(DeedRaw(v, g, d), 28), v.ClusterBytes())))
  {
    hide Surveyed, FileAt, FileTreated, FirstOf, Read32, Link, FileRaw, ClustersNeeded, Chain, KeptOf;
    var raw, f := DeedRaw(v, g, d), d.before;
    FoundSizes(v, g, f);
    DeedFacts(v, g, true, d);
    TreatedChain(v.Total(), v.ClusterBytes(), f.table, d.table, f.seen, d.seen, true, FirstOf(raw), Read32(raw, 28),
        d.resize, d.newSize, d.file);
  }

  lemma ChainCopied(t: Table, u: Table, total: nat, ids: seq<nat>)
    requires total <= |t| && total <= |u| && Chain(t, total, ids)
    requires forall j :: 0 <= j < |ids| ==> ids[j] < |u| && ids[j] < |t| && u[ids[j]] == t[ids[j]]
    ensures Chain(u, total, ids)
  {
    hide Link;
  }

  lemma SettledSame(d: Deed, raw: Raw)
    requires !d.resize
    ensures Settled(d, raw) == raw
  {
  }

  lemma KeptCluster(v: Volume, data: seq<Sector>, before: seq<Sector>, f: Found, x: nat)
    requires DataKept(v, data, before, f.walks) && v.Geometry() && InRange(x, v.Total()) && !Held(f, x)
    requires Times(v.clusterCount, v.sectorsPerCluster) <= |before|
    ensures SameCluster(v, data, before, x)
  {
    hide Times;
    v.ClusterInside(x);
  }

  lemma OwnHere(v: Volume, g: Ground, clusters: set<nat>, directories: set<nat>, ids: seq<nat>, hand: seq<nat>, k: nat,
                i: nat, chain: seq<nat>)
    requires OwnChain(v, g, clusters, directories, ids, k, i, chain) && hand <= ids && k < |hand|
    requires FileAt(v, g.data, hand, k, i)
    ensures OwnChain(v, g, clusters, directories, hand, k, i, chain)
  {
    hide Closed, Chain, LinksOwn, EntryOf, Slots, Real, NameAt, Dotted, IsDirectory, FirstOf, Target;
    assert hand[k] == ids[k];
  }

  /** The contents of such a chain. */
  lemma ContentsKept(v: Volume, data: seq<Sector>, before: seq<Sector>, chain: seq<nat>, size: nat)
    requires 0 < v.sectorsPerCluster && size <= Capacity(v, chain)
    requires forall j :: 0 <= j < |chain| ==> 2 <= chain[j] && SameCluster(v, data, before, chain[j])
    ensures Fits(v, data, chain) && Fits(v, before, chain)
    ensures Contents(v, data, chain, size) == Contents(v, before, chain, size)
  {
    hide Times, Volume.Start, Capacity;
    forall p | 0 <= p < size
      ensures ByteAt(v, data, chain, p) == ByteAt(v, before, chain, p)
    {
      ByteKept(v, data, before, chain, p);
    }
  }

  lemma ByteKept(v: Volume, data: seq<Sector>, before: seq<Sector>, chain: seq<nat>, p: nat)
    requires Fits(v, data, chain) && Fits(v, before, chain) && p < Capacity(v, chain)
    requires forall j :: 0 <= j < |chain| ==> SameCluster(v, data, before, chain[j])
    ensures ByteAt(v, data, chain, p) == ByteAt(v, before, chain, p)
  {
    hide Times, Index, Within, Volume.Start;
    Place(p, v.ClusterBytes());
    IndexBelow(p, v.ClusterBytes(), |chain|);
    var c, o := chain[Index(p, v.ClusterBytes())], Within(p, v.ClusterBytes());
    var at, n := v.Start(c), v.sectorsPerCluster;
    assert SameCluster(v, data, before, c);
    SectorInside(o, n);
    assert data[at..at + n][o / SECTOR_SIZE] == before[at..at + n][o / SECTOR_SIZE];
  }

  // ---- When an entry is left naming what has been given back ------------------------------------------------

  /** A repair of such a volume leaves the later entry in place, naming a cluster that is free. */
  lemma UndercutLeft(v: Volume, g: Ground, f: Found, data: seq<Sector>, passes: seq<Pass>, deeds: seq<Deed>,
                     freed: set<Spot>, i: nat, j: nat, chain: seq<nat>, m: nat)
    requires Checked(v, g, f, true, data, passes, deeds, freed) && Undercut(v, g, i, j, chain, m)
    ensures |f.seen| == v.Total() <= |f.table| == |g.table| && |f.walks| > 0 && LeadsAt(v, data, f.walks[0], 0, j)
    ensures var x := Target(v, data, f.walks[0], 0, j);
            x == chain[m] && !IsFree(g.table, x) && IsFree(Ending(f, true, v.Total()), x)
  {
    hide AllMended, DataKept, Undercut, FileAt, LeadsAt, Target, Ending, IsFree, Surveyed, OnRecord, LinksOwn, Chain;
    CheckedSizes(v, g, f, true, data, passes, deeds, freed);
    CheckedAll(v, g, f, true, data, passes, deeds, freed);
    UndercutFacts(v, g, i, j, chain, m);
    UndercutNamed(v, g, i, j, chain, m);
    RootPrefix(v, g, f, deeds, i, j);
    var n := FileSettled(v, data, g, true, passes, f.walks, f.queue, deeds, freed, 0, 0, i);
    UndercutFreed(v, g, f, deeds, n, i, j, chain, m);
    AllKept(v, data, g, true, passes, f.walks, f.queue, deeds, freed);
    LeadsInPlace(v, g.data, f.walks[0], 0, j);
    assert EntryKept(v, data, g.data, f.walks[0], 0, j);
    KeptLeads(v, data, g.data, f.walks[0], 0, j);
  }

  /** The walk of the root begins with its first cluster. */
  lemma RootPrefix(v: Volume, g: Ground, f: Found, deeds: seq<Deed>, i: nat, j: nat)
    requires Accounted(v, g, true, f, deeds) && |f.walks| > 0 && f.queue[0].cluster == g.root
    requires FileAt(v, g.data, [g.root], 0, i) && LeadsAt(v, g.data, [g.root], 0, j)
    ensures FileAt(v, g.data, f.walks[0], 0, i) && LeadsAt(v, g.data, f.walks[0], 0, j)
    ensures Target(v, g.data, f.walks[0], 0, j) == Target(v, g.data, [g.root], 0, j)
  {
    assert WalksFollow(v, g, f);
    hide Surveyed, OnRecord, Slots, Real, Dotted, IsDirectory, FirstOf, NameOf, PartialAt;
    WalkAt(v, g, f, 0);
    RunFirst(v, g.data, g.table, g.root, f.walks[0]);
    PartialPrefix(v, g.data, [g.root], f.walks[0], 0, i);
    LeadsPrefix(v, g.data, [g.root], f.walks[0], 0, j);
  }

  // ---- The other way something is overlooked ---------------------------------------------------------------

  /** A cross-link the other way round: the root's walk stops where a file of its own has run into its second
      cluster, the check counts as complete, and a repair gives back what entries behind that point lead to. */
  lemma OverlookedFreed(c: Check, ground: Ground, f: Found, walks: seq<seq<nat>>, second: nat, i: nat, j: nat,
                        victim: nat)
    requires Surveyed(c.fat, ground, f) && f == Now(c, walks, PerCluster(c.fat), false).(table := f.table) &&
             |walks| == |c.queue|
    requires c.Roomy() && c.repair
    requires Crossing(c.fat, ground, second, i, j, victim) && !IsFree(ground.table, victim) &&
             Link(ground.table[victim]) != BAD
    requires |f.seen| <= |f.table| && (c.complete ==> c.fat.table == Swept(f.table, c.seen[..], |f.seen|))
    ensures c.complete && Reachable(c.fat, ground.data, ground.table, ground.root, victim)
    ensures victim < |c.fat.table| && IsFree(c.fat.table, victim)
  {
    assert TableKept(c.fat, ground, f);
    hide Surveyed, Crossing, Reachable, Merge, Link;
    Overlooked(c.fat, ground, f, second, i, j, victim);
    assert f.table[victim] == ground.table[victim];
    VictimInside(c.fat, ground, second, i, j, victim);
  }

  lemma VictimInside(v: Volume, g: Ground, second: nat, i: nat, j: nat, victim: nat)
    requires Crossing(v, g, second, i, j, victim)
    ensures InRange(victim, v.Total())
  {
    hide Slots, Times, Link;
    assert [g.root, second][1] == second;
  }

  // ---- All of it -------------------------------------------------------------------------------------------------

  /** What is known when a check is over. */
  lemma CheckedFacts(v: Volume, g: Ground, f: Found, repair: bool, data: seq<Sector>, passes: seq<Pass>,
                      deeds: seq<Deed>, freed: set<Spot>)
    requires Checked(v, g, f, repair, data, passes, deeds, freed)
    ensures |f.seen| == v.Total() <= |f.table| && DataKept(v, data, g.data, f.walks)
    ensures EntriesKept(v, data, g.data, f.walks)
    ensures SizesRight(v, g, repair, f, data, deeds) && DotsRight(v, g, repair, f, data)
    ensures GivenBack(v, g, repair, f, deeds, Ending(f, repair, v.Total()))
    ensures (exists clusters, directories, held :: Tidy(v, g, clusters, directories, held)) ==> !f.crossed
    ensures (exists clusters, directories :: SurplusApart(v, g, clusters, directories)) ==>
              NoneNames(v, g, f.walks, Ending(f, repair, v.Total()))
    ensures repair ==> forall w :: 0 <= w < |f.walks| && |f.walks[w]| <= CHECK_CHAIN_MAX ==>
              NothingHidden(v, data, f.walks[w])
  {
    hide Accounted, AllMended, DataKept, Tidy, GivenBack, NoneNames, NothingHidden, EntriesKept, Ending, SurplusApart,
         SizesRight, DotsRight;
    CheckedSizes(v, g, f, repair, data, passes, deeds, freed);
    GivenBackAfter(v, g, f, repair, data, passes, deeds, freed);
    AccountedSurvey(v, g, repair, f, deeds);
    AllKept(v, data, g, repair, passes, f.walks, f.queue, deeds, freed);
    SizesAfter(v, g, repair, f, data, passes, deeds, freed);
    DotsAfter(v, g, repair, f, data, passes, deeds, freed);
    if clusters, directories, held :| Tidy(v, g, clusters, directories, held) {
      TidyNotCrossed(v, g, f, clusters, directories, held);
    }
    if clusters, directories :| SurplusApart(v, g, clusters, directories) {
      NoneNamesAfter(v, g, f, repair, data, passes, deeds, freed, clusters, directories);
    }
    if repair {
      NothingHiddenAfter(v, data, g, passes, f.walks, f.queue, deeds, freed);
    }
  }
}
