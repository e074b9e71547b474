/** kernel/fat32.c: a file whose first cluster is the surplus of an earlier one: a repair gives it back, and the file's
    entry still names it. */
module FatUndercut {
  import opened Words
  import opened LittleEndian
  import opened FatTable
  import opened FatVolume
  import opened FatContents
  import opened FatWrite
  import opened FatSlots
  import opened LongName
  import opened EntryReader
  import opened FatCheck
  import opened FatSurvey
  import opened FatCheckFile
  import opened FatDeeds
  import opened FatFreed
  import opened FatNamed

  predicate Below(x: nat, n: nat) {
    x < n
  }

  function Everything(v: Volume): set<nat> {
    set x: nat | x < v.Total() && Below(x, v.Total())
  }

  /** The first entry of the root to lead anywhere is a file's, in slot i; nothing else links into its chain, but a
      later entry, in slot j, names a cluster of it behind those its size entitles it to. */
  ghost predicate Undercut(v: Volume, g: Ground, i: nat, j: nat, chain: seq<nat>, m: nat) {
    FileAt(v, g.data, [g.root], 0, i) && LeadsAt(v, g.data, [g.root], 0, j) && i < j &&
    0 < v.ClusterBytes() && v.Total() <= |g.table| && Chain(g.table, v.Total(), chain) &&
    FirstOf(FileRaw(v, g.data, [g.root], 0, i)) == chain[0] && EntitledAt(v, g.data, [g.root], 0, i) <= m < |chain| &&
    Target(v, g.data, [g.root], 0, j) == chain[m] && g.root !in chain &&
    LinksOwn(v, g.table, Everything(v), chain) &&
    forall t: nat :: t < i ==> !LeadsAt(v, g.data, [g.root], 0, t)
  }

  lemma UndercutFacts(v: Volume, g: Ground, i: nat, j: nat, chain: seq<nat>, m: nat)
    requires Undercut(v, g, i, j, chain, m)
    ensures 0 < v.ClusterBytes() && v.Total() <= |g.table| && Chain(g.table, v.Total(), chain) && m < |chain|
    ensures FileAt(v, g.data, [g.root], 0, i) && EntitledAt(v, g.data, [g.root], 0, i) <= m
    ensures FirstOf(FileRaw(v, g.data, [g.root], 0, i)) == chain[0] && g.root !in chain
    ensures LinksOwn(v, g.table, Everything(v), chain)
  {
    hide FileAt, LeadsAt, FirstOf, FileRaw, LinksOwn, ClustersNeeded, Target, EntitledAt;
  }

  /** When the check comes to the first file, it is in the root's first cluster and nothing has named a cluster yet. */
  lemma UndercutStart(v: Volume, g: Ground, d: Deed, i: nat, j: nat, chain: seq<nat>, m: nat)
    requires DeedPlaced(v, g, d) && d.spot == Spot(0, 0, i) && Undercut(v, g, i, j, chain, m)
    ensures Hand(d.before) == [g.root] && ChainUnnamed(v, g, d.before, chain)
  {
    hide Surveyed, FileAt, LeadsAt, Target, FirstOf, FileRaw, LinksOwn, Chain, TargetMet, Met, EntitledAt;
    FirstHand(v, g, d.before);
    NothingMet(v, g, d.before);
  }

  lemma FirstHand(v: Volume, g: Ground, f: Found)
    requires Surveyed(v, g, f) && |f.walks| == 1 && |Hand(f)| == 1
    ensures Hand(f) == [g.root]
  {
    assert WalksFollow(v, g, f) && f.queue[0].cluster == g.root;
    hide Surveyed, Shape, WalksFollow;
    WalkAt(v, g, f, 0);
    RunFirst(v, g.data, g.table, g.root, f.walks[0]);
  }

  lemma NothingMet(v: Volume, g: Ground, f: Found)
    requires |f.walks| == 1 && Hand(f) == [g.root]
    requires forall t: nat :: t < f.i ==> !LeadsAt(v, g.data, [g.root], 0, t)
    ensures forall w: nat, k: nat, t: nat :: !Met(v, g, f, w, k, t)
  {
    hide LeadsAt;
  }

  /** So it is found to hold its whole chain. */
  lemma UndercutWalk(v: Volume, g: Ground, d: Deed, i: nat, j: nat, chain: seq<nat>, m: nat)
    requires DeedIs(v, g, true, d) && d.spot == Spot(0, 0, i) && Undercut(v, g, i, j, chain, m)
    ensures d.file == chain && m < |chain| && Surplus(v, g, d, chain[m])
  {
    UndercutFacts(v, g, i, j, chain, m);
    UndercutStart(v, g, d, i, j, chain, m);
    DeedSurveyed(v, g, true, d);
    FoundSizes(v, g, d.before);
    ChainInside(g.table, v.Total(), chain);
    var raw, f := DeedRaw(v, g, d), d.before;
    hide Surveyed, Undercut, Chain, FileAt, FileTreated, ChainUnnamed, FirstOf, Read32, LinksOwn, ClustersNeeded, Over,
         CutShort, Everything;
    UndercutUnmarked(v, g, f, chain);
    ChainYet(v, g, f, chain);
    SoundTreated(v.Total(), v.ClusterBytes(), f.table, d.table, f.seen, d.seen, FirstOf(raw), Read32(raw, 28),
        d.resize, d.newSize, d.file, chain);
    assert d.file[m] == chain[m];
  }

  lemma UndercutUnmarked(v: Volume, g: Ground, f: Found, chain: seq<nat>)
    requires Surveyed(v, g, f) && v.Total() <= |g.table| && Chain(g.table, v.Total(), chain) && g.root !in chain
    requires LinksOwn(v, g.table, Everything(v), chain) && ChainUnnamed(v, g, f, chain) && |f.seen| == v.Total()
    ensures forall c :: 0 <= c < |chain| ==> chain[c] < |f.seen| && !f.seen[chain[c]]
  {
    ChainInside(g.table, v.Total(), chain);
    hide Surveyed, Chain, LinksOwn, ChainUnnamed;
    forall c | 0 <= c < |chain|
      ensures chain[c] < |f.seen| && !f.seen[chain[c]]
    {
      ChainUnmarked(v, g, f, Everything(v), chain, c);
    }
  }

  /** And a repair gives back the cluster the later entry names. */
  lemma UndercutFreed(v: Volume, g: Ground, f: Found, deeds: seq<Deed>, n: nat, i: nat, j: nat, chain: seq<nat>, m: nat)
    requires Accounted(v, g, true, f, deeds) && n < |deeds| && deeds[n].spot == Spot(0, 0, i)
    requires Undercut(v, g, i, j, chain, m)
    ensures |f.seen| == v.Total() <= |f.table| == |g.table| && LeadsAt(v, g.data, [g.root], 0, j)
    ensures var x := Target(v, g.data, [g.root], 0, j);
            !IsFree(g.table, x) && IsFree(Ending(f, true, v.Total()), x)
  {
    UndercutFacts(v, g, i, j, chain, m);
    hide Surveyed, OnRecord, Undercut, DeedIs, Surplus, FileAt, LeadsAt, Target, FirstOf, LinksOwn, Grew, Ending, Link;
    UndercutNamed(v, g, i, j, chain, m);
    DeedOf(v, g, true, f, deeds, n);
    UndercutWalk(v, g, deeds[n], i, j, chain, m);
    ChainInside(g.table, v.Total(), chain);
    ChainHoldsNoFree(g.table, v.Total(), chain, m);
    FreedExactly(v, g, true, f, deeds, chain[m]);
  }

  lemma UndercutNamed(v: Volume, g: Ground, i: nat, j: nat, chain: seq<nat>, m: nat)
    requires Undercut(v, g, i, j, chain, m)
    ensures LeadsAt(v, g.data, [g.root], 0, j) && Target(v, g.data, [g.root], 0, j) == chain[m]
  {
    hide FileAt, LeadsAt, FirstOf, FileRaw, LinksOwn, ClustersNeeded, Target, EntitledAt, Chain;
  }

  /** All that can be so where directories share nothing, and then no directory meets a mark. */
  lemma UndercutTidy(v: Volume, g: Ground)
    requires v.Total() <= |g.table| && InRange(g.root, v.Total()) && !InRange(Link(g.table[g.root]), v.Total())
    requires forall y: nat :: y < v.Total() ==> Link(g.table[y]) != g.root
    requires forall t: nat :: LeadsAt(v, g.data, [g.root], 0, t) ==>
               !IsDirectory(RawAt(v, g.data, [g.root], 0, t)) && Target(v, g.data, [g.root], 0, t) != g.root
    ensures Tidy(v, g, Everything(v), {g.root}, {g.root})
  {
    hide LeadsAt, RawAt, IsDirectory, Target, Link, Fits;
    forall s, ids, k: nat, t: nat | EntryOf(v, g.data, g.table, {g.root}, s, ids, k, t)
      ensures LeadsInside(v, g.data, ids, k, t, Everything(v), {g.root}) && Target(v, g.data, ids, k, t) != g.root
    {
      RootRun(v, g, ids);
      EntryPlace(v, g, ids, k, t);
    }
  }

  lemma RootRun(v: Volume, g: Ground, ids: seq<nat>)
    requires Run(v, g.data, g.table, g.root, ids) && v.Total() <= |g.table| && InRange(g.root, v.Total()) &&
             !InRange(Link(g.table[g.root]), v.Total())
    ensures ids == [g.root]
  {
    hide Link, Fits;
    if |ids| > 1 {
      RunSecond(v, g, ids);
    }
  }

  lemma RunSecond(v: Volume, g: Ground, ids: seq<nat>)
    requires Run(v, g.data, g.table, g.root, ids) && |ids| > 1
    ensures g.root < |g.table| && InRange(Link(g.table[g.root]), v.Total())
  {
    hide Link, Fits;
    assert InRange(ids[1], v.Total()) && Link(g.table[ids[0]]) == ids[1];
  }

  lemma EntryPlace(v: Volume, g: Ground, ids: seq<nat>, k: nat, t: nat)
    requires LeadsAt(v, g.data, ids, k, t) && |ids| == 1
    ensures k == 0 && Target(v, g.data, ids, k, t) < v.Total()
    ensures Target(v, g.data, ids, k, t) == FirstOf(RawAt(v, g.data, ids, k, t))
  {
    hide Slots, Real, Dotted, NameAt, FirstOf;
  }

  /** In clusters of one sector: the first file has the chain [a, b] and one byte, and the second begins at b. */
  lemma TwoFiles(v: Volume, g: Ground, i: nat, j: nat, a: nat, b: nat)
    requires v.sectorsPerCluster == 1 && v.Total() <= |g.table| && InRange(a, v.Total()) && InRange(b, v.Total())
    requires FileAt(v, g.data, [g.root], 0, i) && FirstOf(FileRaw(v, g.data, [g.root], 0, i)) == a &&
             Read32(FileRaw(v, g.data, [g.root], 0, i), 28) == 1
    requires i < j && FileAt(v, g.data, [g.root], 0, j) && FirstOf(FileRaw(v, g.data, [g.root], 0, j)) == b &&
             Read32(FileRaw(v, g.data, [g.root], 0, j), 28) == 10
    requires Link(g.table[a]) == b && Ended(Link(g.table[b])) && a != b && g.root != a && g.root != b
    requires forall y: nat :: y < v.Total() ==> Link(g.table[y]) != a && (Link(g.table[y]) == b ==> y == a)
    requires forall t: nat :: t < i ==> !LeadsAt(v, g.data, [g.root], 0, t)
    ensures Undercut(v, g, i, j, [a, b], 1)
  {
    hide Slots, Real, Dotted, NameAt, FirstOf, Read32, Link, Fits;
    OneByte();
    assert [a, b][0] == a && [a, b][1] == b;
  }

  lemma OneByte()
    ensures AtLeastOne(ClustersNeeded(1, SECTOR_SIZE)) == 1
  {
    OverFacts(SECTOR_SIZE, SECTOR_SIZE);
  }
}
