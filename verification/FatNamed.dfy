/** kernel/fat32.c: what a repair means for the files: which of them come through it whole, and when an entry is left
    naming a cluster that has been given back. */
module FatNamed {
  import opened Words
  import opened LittleEndian
  import opened FatTable
  import opened FatVolume
  import opened FatContents
  import opened FatWrite
  import opened FatSlots
  import opened LongName
  import opened EntryReader
  import opened FatCheck
  import opened FatSurvey
  import opened FatCheckFile
  import opened FatDeeds
  import opened FatFreed

  // ---- Entries and the clusters given back ------------------------------------------------------------------

  /** What an entry gone over names. */
  ghost function TargetMet(v: Volume, g: Ground, f: Found, w: nat, k: nat, i: nat): (x: nat)
    requires Met(v, g, f, w, k, i)
    ensures InRange(x, v.Total())
  {
    Target(v, g.data, f.walks[w], k, i)
  }

  /** An entry gone over is left naming a cluster that was in use and has been given back exactly when that cluster
      was the surplus of a file. */
  lemma NamedFreed(v: Volume, g: Ground, repair: bool, f: Found, deeds: seq<Deed>, w: nat, k: nat, i: nat)
    requires Accounted(v, g, repair, f, deeds) && Met(v, g, f, w, k, i)
    ensures |f.seen| == v.Total() <= |f.table| == |g.table|
    ensures var x := TargetMet(v, g, f, w, k, i);
            !IsFree(g.table, x) ==>
              (IsFree(Ending(f, repair, v.Total()), x) <==>
                 repair && exists n :: 0 <= n < |deeds| && Surplus(v, g, deeds[n], x))
  {
    var x := TargetMet(v, g, f, w, k, i);
    MetMarked(v, g, f, w, k, i);
    hide Surveyed, OnRecord, Link, Surplus, Ending, Met, TargetMet;
    FreedExactly(v, g, repair, f, deeds, x);
  }

  lemma MetMarked(v: Volume, g: Ground, f: Found, w: nat, k: nat, i: nat)
    requires Surveyed(v, g, f) && Met(v, g, f, w, k, i)
    ensures var x := TargetMet(v, g, f, w, k, i); x < |f.seen| && f.seen[x]
  {
    assert EntriesFollowed(v, g, f);
    hide Surveyed, LeadsAt, RawAt, FirstOf, IsDirectory;
    assert Handled(f, RawMet(v, g, f, w, k, i));
  }

  /** The clusters the size of the file at a place entitles it to. */
  ghost function EntitledAt(v: Volume, data: seq<Sector>, ids: seq<nat>, k: nat, i: nat): (n: nat)
    requires FileAt(v, data, ids, k, i) && 0 < v.ClusterBytes()
    ensures 0 < n
  {
    AtLeastOne(ClustersNeeded(Read32(FileRaw(v, data, ids, k, i), 28), v.ClusterBytes()))
  }

  /** A cluster that links lead to from a file's first cluster, behind those. */
  ghost predicate Behind(v: Volume, g: Ground, ids: seq<nat>, k: nat, i: nat, x: nat) {
    FileAt(v, g.data, ids, k, i) && LeadsAt(v, g.data, ids, k, i) && 0 < v.ClusterBytes() && v.Total() <= |g.table| &&
    exists j: nat :: EntitledAt(v, g.data, ids, k, i) <= j &&
      Follow(g.table, v.Total(), Target(v, g.data, ids, k, i), j) == x
  }

  /** No entry of these directories names a cluster behind those another file is entitled to. */
  ghost predicate SurplusUnnamed(v: Volume, g: Ground, directories: set<nat>) {
    forall s, ids, k: nat, i: nat, s1, ids1, k1: nat, i1: nat ::
      EntryOf(v, g.data, g.table, directories, s, ids, k, i) &&
      EntryOf(v, g.data, g.table, directories, s1, ids1, k1, i1) && (ids[k] != ids1[k1] || i != i1) ==>
        !Behind(v, g, ids, k, i, Target(v, g.data, ids1, k1, i1))
  }

  /** A file's clusters are those its links led to when the check began. */
  lemma {:induction false} FileFollows(v: Volume, g: Ground, repair: bool, f: Found, deeds: seq<Deed>, n: nat, j: nat)
    requires Accounted(v, g, repair, f, deeds) && n < |deeds| && j < |deeds[n].file|
    ensures v.Total() <= |g.table| && InRange(deeds[n].file[j], v.Total())
    ensures Follow(g.table, v.Total(), deeds[n].file[0], j) == deeds[n].file[j]
  {
    hide Surveyed, OnRecord, DeedIs, Grew, Link;
    var file := deeds[n].file;
    DeedOf(v, g, repair, f, deeds, n);
    DeedFacts(v, g, repair, deeds[n]);
    FoundSizes(v, g, f);
    if j > 0 {
      FileFollows(v, g, repair, f, deeds, n, j - 1);
      FileEntries(v, g, repair, f, deeds, n, file[j - 1]);
      assert file[(j - 1) + 1] == Link(g.table[file[j - 1]]);
    }
  }

  /** The entry a deed is about. */
  lemma DeedEntry(v: Volume, g: Ground, d: Deed, clusters: set<nat>, directories: set<nat>)
    requires DeedPlaced(v, g, d) && Closed(v, g.data, g.table, g.root, clusters, directories)
    requires InRange(FirstOf(DeedRaw(v, g, d)), v.Total())
    ensures |d.before.walks| <= |d.before.queue|
    ensures EntryOf(v, g.data, g.table, directories, d.before.queue[|d.before.walks| - 1].cluster, Hand(d.before),
                    d.spot.k, d.spot.i)
    ensures Target(v, g.data, Hand(d.before), d.spot.k, d.spot.i) == FirstOf(DeedRaw(v, g, d))
  {
    hide Surveyed, Closed, FirstOf, IsDirectory, Run;
    InsideBy(v, g, d.before, clusters, directories);
    WalkAt(v, g, d.before, |d.before.walks| - 1);
    hide Real, Dotted, NameAt, Slots;
  }

  lemma MetEntry(v: Volume, g: Ground, f: Found, clusters: set<nat>, directories: set<nat>, w: nat, k: nat, i: nat)
    requires Surveyed(v, g, f) && Closed(v, g.data, g.table, g.root, clusters, directories) && Met(v, g, f, w, k, i)
    ensures w < |f.queue| && w < |f.walks| &&
            EntryOf(v, g.data, g.table, directories, f.queue[w].cluster, f.walks[w], k, i)
    ensures TargetMet(v, g, f, w, k, i) == Target(v, g.data, f.walks[w], k, i)
  {
    hide Surveyed, Closed, LeadsAt, Run;
    InsideBy(v, g, f, clusters, directories);
    WalkAt(v, g, f, w);
  }

  /** Where no entry names another file's surplus, none is left naming a cluster that has been given back. */
  lemma NoneNamed(v: Volume, g: Ground, repair: bool, f: Found, deeds: seq<Deed>, clusters: set<nat>,
                  directories: set<nat>)
    requires Accounted(v, g, repair, f, deeds) && Closed(v, g.data, g.table, g.root, clusters, directories)
    requires SurplusUnnamed(v, g, directories)
    ensures |f.seen| == v.Total() <= |f.table| == |g.table|
    ensures forall w: nat, k: nat, i: nat :: Met(v, g, f, w, k, i) ==>
              var x := TargetMet(v, g, f, w, k, i);
              !IsFree(g.table, x) ==> !IsFree(Ending(f, repair, v.Total()), x)
  {
    hide Accounted, Met, TargetMet, Surplus, SurplusUnnamed, Closed, Ending, Link;
    AccountedSizes(v, g, repair, f, deeds);
    forall w: nat, k: nat, i: nat | Met(v, g, f, w, k, i)
      ensures var x := TargetMet(v, g, f, w, k, i);
              !IsFree(g.table, x) ==> !IsFree(Ending(f, repair, v.Total()), x)
    {
      NamedFreed(v, g, repair, f, deeds, w, k, i);
      forall n | 0 <= n < |deeds|
        ensures !Surplus(v, g, deeds[n], TargetMet(v, g, f, w, k, i))
      {
        NotSurplus(v, g, repair, f, deeds, clusters, directories, w, k, i, n);
      }
    }
  }

  lemma AccountedSizes(v: Volume, g: Ground, repair: bool, f: Found, deeds: seq<Deed>)
    requires Accounted(v, g, repair, f, deeds)
    ensures |f.seen| == v.Total() <= |f.table| == |g.table| && v.Total() <= BAD && 0 < v.ClusterBytes()
  {
    hide Surveyed, OnRecord;
    FoundSizes(v, g, f);
  }

  lemma NotSurplus(v: Volume, g: Ground, repair: bool, f: Found, deeds: seq<Deed>, clusters: set<nat>,
                   directories: set<nat>, w: nat, k: nat, i: nat, n: nat)
    requires Accounted(v, g, repair, f, deeds) && Closed(v, g.data, g.table, g.root, clusters, directories)
    requires SurplusUnnamed(v, g, directories) && Met(v, g, f, w, k, i) && n < |deeds|
    ensures !Surplus(v, g, deeds[n], TargetMet(v, g, f, w, k, i))
  {
    hide Surveyed, OnRecord, Closed, SurplusUnnamed, Met, TargetMet, DeedIs, Grew;
    var d, x := deeds[n], TargetMet(v, g, f, w, k, i);
    DeedOf(v, g, repair, f, deeds, n);
    DeedFacts(v, g, repair, d);
    FoundSizes(v, g, f);
    if Surplus(v, g, d, x) {
      var j := SurplusPlace(v, g, d, x);
      hide Surplus, DeedPlaced, EntryOf, Behind, Entitled;
      FileFollows(v, g, repair, f, deeds, n, j);
      MetEntry(v, g, f, clusters, directories, w, k, i);
      SurplusBehind(v, g, d, clusters, directories, x, j);
      NotBehind(v, g, f, d, directories, w, k, i, j);
      assert false;
    }
  }

  lemma SurplusPlace(v: Volume, g: Ground, d: Deed, x: nat) returns (j: nat)
    requires Surplus(v, g, d, x)
    ensures DeedPlaced(v, g, d) && 0 < v.ClusterBytes() && Entitled(v, g, d) <= j < |d.file| && d.file[j] == x
    ensures 0 < j
  {
    hide DeedPlaced, Entitled;
    j :| Entitled(v, g, d) <= j < |d.file| && d.file[j] == x;
  }

  lemma SurplusBehind(v: Volume, g: Ground, d: Deed, clusters: set<nat>, directories: set<nat>, x: nat, j: nat)
    requires DeedPlaced(v, g, d) && 0 < v.ClusterBytes() && Entitled(v, g, d) <= j < |d.file| && d.file[j] == x
    requires d.file[0] == FirstOf(DeedRaw(v, g, d)) && InRange(d.file[0], v.Total()) && v.Total() <= |g.table|
    requires Follow(g.table, v.Total(), d.file[0], j) == x
    requires Closed(v, g.data, g.table, g.root, clusters, directories)
    ensures |d.before.walks| <= |d.before.queue|
    ensures EntryOf(v, g.data, g.table, directories, d.before.queue[|d.before.walks| - 1].cluster, Hand(d.before),
                    d.spot.k, d.spot.i)
    ensures Target(v, g.data, Hand(d.before), d.spot.k, d.spot.i) == d.file[0]
    ensures Behind(v, g, Hand(d.before), d.spot.k, d.spot.i, x)
  {
    DeedEntry(v, g, d, clusters, directories);
    hide Surveyed, Closed, Follow, Target, FirstOf, Run, LeadsAt, ClustersNeeded;
  }

  lemma NotBehind(v: Volume, g: Ground, f: Found, d: Deed, directories: set<nat>, w: nat, k: nat, i: nat, j: nat)
    requires SurplusUnnamed(v, g, directories) && DeedPlaced(v, g, d) && w < |f.queue| && w < |f.walks|
    requires Met(v, g, f, w, k, i)
    requires EntryOf(v, g.data, g.table, directories, f.queue[w].cluster, f.walks[w], k, i)
    requires |d.before.walks| <= |d.before.queue|
    requires EntryOf(v, g.data, g.table, directories, d.before.queue[|d.before.walks| - 1].cluster, Hand(d.before),
                     d.spot.k, d.spot.i)
    requires 0 < j < |d.file| && Distinct(d.file) && d.file[j] == TargetMet(v, g, f, w, k, i)
    requires Target(v, g.data, Hand(d.before), d.spot.k, d.spot.i) == d.file[0]
    ensures !Behind(v, g, Hand(d.before), d.spot.k, d.spot.i, d.file[j])
  {
    var ids, a, b := Hand(d.before), d.spot.k, d.spot.i;
    if ids[a] == f.walks[w][k] && b == i {
      assert false;
    }
    hide Surveyed, EntryOf, Behind, FirstOf;
  }

  // ---- Files that share nothing ---------------------------------------------------------------------------------

  /** Among these clusters a chain's are linked to by the chain alone. */
  predicate LinksOwn(v: Volume, t: Table, clusters: set<nat>, chain: seq<nat>) {
    v.Total() <= |t| &&
    forall y, j :: y in clusters && y < v.Total() && 0 <= j < |chain| && Link(t[y]) == chain[j] ==>
      0 < j && y == chain[j - 1]
  }

  /** No entry gone over names a cluster of the chain. */
  ghost predicate ChainUnnamed(v: Volume, g: Ground, f: Found, chain: seq<nat>) {
    forall w: nat, k: nat, i: nat :: Met(v, g, f, w, k, i) ==> TargetMet(v, g, f, w, k, i) !in chain
  }

  /** A chain that nothing gone over names, and nothing else links to, has not been marked. */
  lemma {:induction false} ChainUnmarked(v: Volume, g: Ground, f: Found, clusters: set<nat>, chain: seq<nat>, j: nat)
    requires Surveyed(v, g, f) && LinksOwn(v, g.table, clusters, chain) && g.root !in chain && j < |chain|
    requires ChainUnnamed(v, g, f, chain)
    requires forall x: nat :: x < |f.seen| && f.seen[x] ==> x in clusters
    ensures chain[j] < |f.seen| ==> !f.seen[chain[j]]
  {
    FoundSizes(v, g, f);
    var x := chain[j];
    if x < |f.seen| && f.seen[x] {
      MarkMeant(v, g, f, x);
      hide Surveyed, Link, FromEntry;
      UnnamedEntry(v, g, f, chain, x);
      var y: nat :| y < |f.seen| && y < |g.table| && f.seen[y] && !Pending(f, y) && Link(g.table[y]) == x;
      ChainUnmarked(v, g, f, clusters, chain, j - 1);
    }
  }

  lemma MarkMeant(v: Volume, g: Ground, f: Found, x: nat)
    requires Surveyed(v, g, f) && x < |f.seen| && f.seen[x]
    ensures Meant(v, g, f, x)
  {
    assert MarksMeant(v, g, f);
  }

  lemma UnnamedEntry(v: Volume, g: Ground, f: Found, chain: seq<nat>, x: nat)
    requires ChainUnnamed(v, g, f, chain) && x in chain
    ensures !FromEntry(v, g, f, x, false, 0)
  {
    hide LeadsAt, RawAt, FirstOf, IsDirectory, Before;
    forall w: nat, k: nat, i: nat | Met(v, g, f, w, k, i)
      ensures FirstOf(RawMet(v, g, f, w, k, i)) != x
    {
      assert TargetMet(v, g, f, w, k, i) != x;
    }
  }

  /** A file whose chain nothing but its own entry leads to. */
  ghost predicate OwnChain(v: Volume, g: Ground, clusters: set<nat>, directories: set<nat>, ids: seq<nat>, k: nat,
                           i: nat, chain: seq<nat>) {
    Closed(v, g.data, g.table, g.root, clusters, directories) && v.Total() <= |g.table| &&
    Chain(g.table, v.Total(), chain) && LinksOwn(v, g.table, clusters, chain) && g.root !in chain &&
    FileAt(v, g.data, ids, k, i) && FirstOf(FileRaw(v, g.data, ids, k, i)) == chain[0] &&
    forall s1, ids1, k1: nat, i1: nat ::
      EntryOf(v, g.data, g.table, directories, s1, ids1, k1, i1) && (ids1[k1] != ids[k] || i1 != i) ==>
        Target(v, g.data, ids1, k1, i1) !in chain
  }

  lemma OwnFacts(v: Volume, g: Ground, clusters: set<nat>, directories: set<nat>, ids: seq<nat>, k: nat, i: nat,
                 chain: seq<nat>)
    requires OwnChain(v, g, clusters, directories, ids, k, i, chain)
    ensures Closed(v, g.data, g.table, g.root, clusters, directories) && v.Total() <= |g.table|
    ensures Chain(g.table, v.Total(), chain) && LinksOwn(v, g.table, clusters, chain) && g.root !in chain
    ensures FileAt(v, g.data, ids, k, i) && |chain| > 0 && FirstOf(FileRaw(v, g.data, ids, k, i)) == chain[0]
  {
    hide Closed, FileAt, FirstOf, Link, EntryOf, LinksOwn;
  }

  /** When the check comes to it, none of its clusters has been marked. */
  lemma OwnUnnamed(v: Volume, g: Ground, d: Deed, clusters: set<nat>, directories: set<nat>, chain: seq<nat>)
    requires DeedPlaced(v, g, d)
    requires OwnChain(v, g, clusters, directories, Hand(d.before), d.spot.k, d.spot.i, chain)
    ensures ChainUnnamed(v, g, d.before, chain)
    ensures forall x: nat :: x < |d.before.seen| && d.before.seen[x] ==> x in clusters
  {
    OwnFacts(v, g, clusters, directories, Hand(d.before), d.spot.k, d.spot.i, chain);
    var f := d.before;
    InsideBy(v, g, f, clusters, directories);
    WalkAt(v, g, f, |f.walks| - 1);
    hide Surveyed, Closed, LinksOwn, FileAt, Met, TargetMet, Target, EntryOf, Chain, Run, WalksApart, Distinct, FirstOf;
    forall w: nat, k: nat, i: nat | Met(v, g, f, w, k, i)
      ensures TargetMet(v, g, f, w, k, i) !in chain
    {
      MetEntry(v, g, f, clusters, directories, w, k, i);
      MetElsewhere(v, g, f, w, k, i);
    }
  }

  lemma MetElsewhere(v: Volume, g: Ground, f: Found, w: nat, k: nat, i: nat)
    requires Met(v, g, f, w, k, i) && WalksApart(f) && |f.walks| > 0 && |Hand(f)| > 0 && Distinct(Hand(f))
    ensures w < |f.walks| && k < |f.walks[w]| && (f.walks[w][k] != Hand(f)[|Hand(f)| - 1] || i != f.i)
  {
    hide WalksApart, LeadsAt, Distinct;
    OtherPlace(f, w, k, i);
  }

  /** A chain none of whose clusters has been marked is still the chain the check found. */
  lemma ChainYet(v: Volume, g: Ground, f: Found, chain: seq<nat>)
    requires Surveyed(v, g, f) && v.Total() <= |g.table| && Chain(g.table, v.Total(), chain)
    requires forall j :: 0 <= j < |chain| ==> chain[j] < |f.seen| && !f.seen[chain[j]]
    ensures v.Total() <= |f.table| && Chain(f.table, v.Total(), chain)
  {
    FoundSizes(v, g, f);
    assert TableKept(v, g, f);
    hide Surveyed, Link;
    assert forall j :: 0 <= j < |chain| ==> f.table[chain[j]] == g.table[chain[j]];
  }

  /** The file is found to hold exactly that chain. */
  lemma OwnWalk(v: Volume, g: Ground, d: Deed, clusters: set<nat>, directories: set<nat>, chain: seq<nat>)
    requires DeedIs(v, g, true, d)
    requires OwnChain(v, g, clusters, directories, Hand(d.before), d.spot.k, d.spot.i, chain)
    ensures |d.before.seen| == v.Total() <= |d.before.table| && Chain(d.before.table, v.Total(), chain)
    ensures forall j :: 0 <= j < |chain| ==> chain[j] < |d.before.seen| && !d.before.seen[chain[j]]
  {
    var f := d.before;
    OwnFacts(v, g, clusters, directories, Hand(f), d.spot.k, d.spot.i, chain);
    FoundSizes(v, g, f);
    OwnUnnamed(v, g, d, clusters, directories, chain);
    ChainInside(g.table, v.Total(), chain);
    hide DeedIs, Surveyed, OwnChain, Closed, LinksOwn, ChainUnnamed, Chain, FileAt, FirstOf;
    DeedSurveyed(v, g, true, d);
    forall j | 0 <= j < |chain|
      ensures chain[j] < |f.seen| && !f.seen[chain[j]]
    {
      ChainUnmarked(v, g, f, clusters, chain, j);
    }
    ChainYet(v, g, f, chain);
  }

  lemma DeedSurveyed(v: Volume, g: Ground, repair: bool, d: Deed)
    requires DeedIs(v, g, repair, d)
    ensures Surveyed(v, g, d.before)
  {
    hide Surveyed, FileAt, FileTreated;
  }

  lemma ChainInside(t: Table, total: nat, chain: seq<nat>)
    requires total <= |t| && Chain(t, total, chain)
    ensures forall j :: 0 <= j < |chain| ==> InRange(chain[j], total)
  {
    hide Link;
  }

  /** A file in order on a chain of its own comes through a repair with its size, and with its chain if and only if
      that size rounded up to clusters stays within 32 bits. */
  lemma OwnFileKept(v: Volume, g: Ground, f: Found, deeds: seq<Deed>, n: nat, clusters: set<nat>,
                    directories: set<nat>, chain: seq<nat>)
    requires Accounted(v, g, true, f, deeds) && n < |deeds| && v.ClusterBytes() <= 0x2_0000
    requires OwnChain(v, g, clusters, directories, Hand(deeds[n].before), deeds[n].spot.k, deeds[n].spot.i, chain)
    requires DeedPlaced(v, g, deeds[n]) && 0 < v.ClusterBytes()
    requires |chain| == Over(Read32(DeedRaw(v, g, deeds[n]), 28) + v.ClusterBytes() - 1, v.ClusterBytes())
    ensures deeds[n].file == chain && !deeds[n].resize
    ensures |f.seen| == v.Total() <= |f.table| == |g.table|
    ensures (forall j :: 0 <= j < |chain| ==>
               chain[j] < |g.table| && Ending(f, true, v.Total())[chain[j]] == g.table[chain[j]])
            <==> Read32(DeedRaw(v, g, deeds[n]), 28) + v.ClusterBytes() - 1 < BASE
    ensures forall j :: 0 <= j < |chain| ==> chain[j] < |f.seen| && f.seen[chain[j]] && !Held(f, chain[j])
  {
    hide Surveyed, OnRecord, DeedIs, OwnChain, Ending, Over, FileAt, FileRaw, Link, Grew, Read32, Held;
    var d := deeds[n];
    DeedOf(v, g, true, f, deeds, n);
    OwnTreated(v, g, d, clusters, directories, chain);
    AccountedSizes(v, g, true, f, deeds);
    forall j | 0 <= j < |chain|
      ensures chain[j] < |f.seen| && f.seen[chain[j]] && !Held(f, chain[j])
      ensures chain[j] < |g.table| && Ending(f, true, v.Total())[chain[j]] == d.table[chain[j]]
      ensures d.before.table[chain[j]] == g.table[chain[j]]
    {
      assert chain[j] in d.file;
      FileEntries(v, g, true, f, deeds, n, chain[j]);
      FileHeld(v, g, true, f, d, chain[j]);
      EndingAt(f, true, v.Total(), chain[j]);
    }
  }

  /** A file's clusters are marked and no directory's, then and later. */
  lemma FileHeld(v: Volume, g: Ground, repair: bool, f: Found, d: Deed, x: nat)
    requires DeedIs(v, g, repair, d) && Grew(After(d), f) && x in d.file
    ensures x < |f.seen| && f.seen[x] && !Held(f, x)
  {
    DeedFacts(v, g, repair, d);
    DeedSurveyed(v, g, repair, d);
    DeedWalks(v, g, repair, d);
    hide DeedIs, Surveyed;
    HeldMarked(v, g, d.before, x);
    HeldSame(d, x);
    hide Held, Before;
  }

  lemma DeedWalks(v: Volume, g: Ground, repair: bool, d: Deed)
    requires DeedIs(v, g, repair, d)
    ensures |d.before.seen| == v.Total()
  {
    hide FileAt, FileTreated;
    FoundSizes(v, g, d.before);
  }

  lemma HeldMarked(v: Volume, g: Ground, f: Found, x: nat)
    requires Surveyed(v, g, f) && x < |f.seen| && !f.seen[x]
    ensures !Held(f, x)
  {
    assert Shape(v, g, f) && WalksFollow(v, g, f);
    hide Surveyed, Shape, WalksFollow;
    NotYetSeen(v, g, f, x);
  }

  lemma HeldSame(d: Deed, x: nat)
    ensures Held(After(d), x) <==> Held(d.before, x)
  {
  }

  lemma OwnTreated(v: Volume, g: Ground, d: Deed, clusters: set<nat>, directories: set<nat>, chain: seq<nat>)
    requires DeedIs(v, g, true, d) && DeedPlaced(v, g, d) && 0 < v.ClusterBytes() <= 0x2_0000
    requires OwnChain(v, g, clusters, directories, Hand(d.before), d.spot.k, d.spot.i, chain)
    requires |chain| == Over(Read32(DeedRaw(v, g, d), 28) + v.ClusterBytes() - 1, v.ClusterBytes())
    ensures d.file == chain && !d.resize && |d.table| == |d.before.table| == |g.table|
    ensures (forall j :: 0 <= j < |chain| ==>
               chain[j] < |d.table| && d.table[chain[j]] == d.before.table[chain[j]])
            <==> Read32(DeedRaw(v, g, d), 28) + v.ClusterBytes() - 1 < BASE
  {
    hide Surveyed, OwnChain, Over, FileAt, FileRaw, Link, Read32, FileTreated, FirstOf, CutShort, Chain;
    var raw, f := DeedRaw(v, g, d), d.before;
    OwnFacts(v, g, clusters, directories, Hand(f), d.spot.k, d.spot.i, chain);
    OwnWalk(v, g, d, clusters, directories, chain);
    DeedFacts(v, g, true, d);
    FoundSizes(v, g, f);
    SoundFileKept(v.Total(), v.ClusterBytes(), f.table, d.table, f.seen, d.seen, FirstOf(raw), Read32(raw, 28),
        d.resize, d.newSize, d.file, chain);
    ChainInside(f.table, v.Total(), chain);
    if forall j :: 0 <= j < |chain| ==> d.table[chain[j]] == f.table[chain[j]] {
      assert forall x :: 0 <= x < |f.table| ==> d.table[x] == f.table[x];
      assert d.table == f.table;
    }
  }
}
