/** kernel/fat32.c: what a check with repairs gives back, of the whole volume, and what it leaves of every file. */
module FatFreed {
  import opened Words
  import opened LittleEndian
  import opened FatTable
  import opened FatVolume
  import opened FatContents
  import opened FatWrite
  import opened FatSlots
  import opened LongName
  import opened EntryReader
  import opened FatCheck
  import opened FatSurvey
  import opened FatReach
  import opened FatCheckFile
  import opened FatDeeds
  import opened FatLost

  // ---- The files gone over, one by one ------------------------------------------------------------------

  lemma DeedOf(v: Volume, g: Ground, repair: bool, f: Found, deeds: seq<Deed>, n: nat)
    requires OnRecord(v, g, repair, f, deeds) && n < |deeds|
    ensures DeedIs(v, g, repair, deeds[n]) && Grew(After(deeds[n]), f)
    ensures deeds[n].before.table == TableAt(g, deeds, n) && f.table == TableAt(g, deeds, |deeds|)
  {
    hide DeedIs, Grew, DeedsOrdered;
  }

  lemma DeedOrder(v: Volume, g: Ground, repair: bool, f: Found, deeds: seq<Deed>, n: nat, m: nat)
    requires OnRecord(v, g, repair, f, deeds) && n < m < |deeds|
    ensures Grew(After(deeds[n]), deeds[m].before)
  {
    hide DeedIs, Grew, DeedsDone;
  }

  /** How big everything is. */
  lemma FoundSizes(v: Volume, g: Ground, f: Found)
    requires Surveyed(v, g, f)
    ensures v.Geometry() && |f.seen| == v.Total() <= |f.table| == |g.table| && v.Total() <= BAD && 0 < v.ClusterBytes()
  {
    hide WalksFollow, WalksApart, TableKept, EntriesFollowed, LinksFollowed, MarksMeant, WalksFresh, WalksWhole,
         Confined, Times;
  }

  /** What a deed has done to the marks and the table. */
  lemma DeedFacts(v: Volume, g: Ground, repair: bool, d: Deed)
    requires DeedIs(v, g, repair, d)
    ensures |d.table| == |d.before.table| == |g.table| && |d.seen| == |d.before.seen| == v.Total() <= |g.table|
    ensures forall j :: 0 <= j < |d.file| ==>
              InRange(d.file[j], v.Total()) && !d.before.seen[d.file[j]] && d.seen[d.file[j]]
    ensures forall x: nat :: x < |g.table| && d.table[x] != d.before.table[x] ==> repair && x in d.file
    ensures forall j :: 0 <= j < |d.file| - 1 ==> d.file[j + 1] == Link(d.before.table[d.file[j]])
    ensures Distinct(d.file) && (d.file != [] ==> d.file[0] == FirstOf(DeedRaw(v, g, d)))
  {
    hide Surveyed, FileAt, FileTreated, FirstOf, Read32, Link, FileRaw;
    var raw, f := DeedRaw(v, g, d), d.before;
    FoundSizes(v, g, f);
    TreatedFile(v.Total(), v.ClusterBytes(), f.table, d.table, f.seen, d.seen, repair, FirstOf(raw), Read32(raw, 28),
        d.resize, d.newSize, d.file);
    forall j | 0 <= j < |d.file|
      ensures d.seen[d.file[j]]
    {
      assert d.file[j] in d.file;
    }
  }

  /** A cluster belongs to one file at most. */
  lemma FilesApart(v: Volume, g: Ground, repair: bool, f: Found, deeds: seq<Deed>, n: nat, m: nat, x: nat)
    requires OnRecord(v, g, repair, f, deeds) && n < |deeds| && m < |deeds|
    requires x in deeds[n].file && x in deeds[m].file
    ensures n == m
  {
    hide OnRecord, DeedIs, Held, Before;
    DeedOf(v, g, repair, f, deeds, n);
    DeedOf(v, g, repair, f, deeds, m);
    DeedFacts(v, g, repair, deeds[n]);
    DeedFacts(v, g, repair, deeds[m]);
    if n < m {
      DeedOrder(v, g, repair, f, deeds, n, m);
    } else if m < n {
      DeedOrder(v, g, repair, f, deeds, m, n);
    }
  }

  /** The entry of a cluster of one file has not changed before that file, nor after it. */
  lemma {:induction false} TableUntil(v: Volume, g: Ground, repair: bool, f: Found, deeds: seq<Deed>, m: nat, x: nat)
    requires OnRecord(v, g, repair, f, deeds) && m <= |deeds| && x < |g.table|
    requires forall n :: 0 <= n < m ==> x !in deeds[n].file
    ensures |TableAt(g, deeds, m)| == |g.table| && TableAt(g, deeds, m)[x] == g.table[x]
  {
    hide OnRecord, DeedIs, Grew;
    if m > 0 {
      TableUntil(v, g, repair, f, deeds, m - 1, x);
      DeedOf(v, g, repair, f, deeds, m - 1);
      DeedFacts(v, g, repair, deeds[m - 1]);
    }
  }

  lemma {:induction false} TableSince(v: Volume, g: Ground, repair: bool, f: Found, deeds: seq<Deed>, n: nat, m: nat,
                                      x: nat)
    requires OnRecord(v, g, repair, f, deeds) && n < m <= |deeds| && x in deeds[n].file
    ensures x < |g.table| == |TableAt(g, deeds, m)| == |deeds[n].table|
    ensures x < |TableAt(g, deeds, m)| == |deeds[n].table| && TableAt(g, deeds, m)[x] == deeds[n].table[x]
    decreases m
  {
    hide OnRecord, DeedIs, Grew;
    DeedOf(v, g, repair, f, deeds, m - 1);
    DeedFacts(v, g, repair, deeds[m - 1]);
    if n + 1 < m {
      TableSince(v, g, repair, f, deeds, n, m - 1, x);
      if x in deeds[m - 1].file {
        FilesApart(v, g, repair, f, deeds, n, m - 1, x);
      }
    } else {
      DeedFacts(v, g, repair, deeds[n]);
    }
  }

  /** So a file's clusters had the entries the check found, and keep those the file's treatment left them. */
  lemma FileEntries(v: Volume, g: Ground, repair: bool, f: Found, deeds: seq<Deed>, n: nat, x: nat)
    requires OnRecord(v, g, repair, f, deeds) && n < |deeds| && x in deeds[n].file
    ensures x < |g.table| == |f.table| == |deeds[n].table| == |deeds[n].before.table|
    ensures deeds[n].before.table[x] == g.table[x] && f.table[x] == deeds[n].table[x]
  {
    hide OnRecord, DeedIs, Grew;
    DeedOf(v, g, repair, f, deeds, n);
    DeedFacts(v, g, repair, deeds[n]);
    TableSince(v, g, repair, f, deeds, n, |deeds|, x);
    forall m | 0 <= m < n
      ensures x !in deeds[m].file
    {
      if x in deeds[m].file {
        FilesApart(v, g, repair, f, deeds, m, n, x);
      }
    }
    TableUntil(v, g, repair, f, deeds, n, x);
  }

  /** And every entry of the table that has changed is one of a file's, which is the only one. */
  lemma ChangedByFile(v: Volume, g: Ground, repair: bool, f: Found, deeds: seq<Deed>, x: nat)
    requires OnRecord(v, g, repair, f, deeds) && x < |g.table|
    ensures |f.table| == |g.table|
    ensures f.table[x] != g.table[x] ==> exists n :: 0 <= n < |deeds| && x in deeds[n].file
  {
    if forall n :: 0 <= n < |deeds| ==> x !in deeds[n].file {
      TableUntil(v, g, repair, f, deeds, |deeds|, x);
    } else {
      var n :| 0 <= n < |deeds| && x in deeds[n].file;
      FileEntries(v, g, repair, f, deeds, n, x);
    }
  }

  // ---- What is given back -----------------------------------------------------------------------------------

  /** The clusters a file is entitled to, by its size. */
  ghost function Entitled(v: Volume, g: Ground, d: Deed): (n: nat)
    requires DeedPlaced(v, g, d) && 0 < v.ClusterBytes()
    ensures 0 < n
  {
    AtLeastOne(ClustersNeeded(Read32(DeedRaw(v, g, d), 28), v.ClusterBytes()))
  }

  /** A cluster a file was found to hold behind those. */
  ghost predicate Surplus(v: Volume, g: Ground, d: Deed, x: nat) {
    DeedPlaced(v, g, d) && 0 < v.ClusterBytes() &&
    exists j: nat :: Entitled(v, g, d) <= j < |d.file| && d.file[j] == x
  }

  /** The table when everything is over. */
  function Ending(f: Found, repair: bool, total: nat): (t: Table)
    requires total <= |f.seen| && total <= |f.table|
    ensures |t| == |f.table|
  {
    if repair && f.complete then Swept(f.table, f.seen, total) else f.table
  }

  lemma EndingAt(f: Found, repair: bool, total: nat, x: nat)
    requires total <= |f.seen| && total <= |f.table| && x < |f.table|
    ensures x < total && f.seen[x] ==> Ending(f, repair, total)[x] == f.table[x]
    ensures IsFree(f.table, x) ==> IsFree(Ending(f, repair, total), x)
    ensures InRange(x, total) && !f.seen[x] && !IsFree(f.table, x) ==>
              (IsFree(Ending(f, repair, total), x) <==> repair && f.complete && Link(f.table[x]) != BAD)
  {
  }

  /** The table after a file: the surplus is free. */
  lemma DeedFrees(v: Volume, g: Ground, repair: bool, d: Deed, x: nat)
    requires DeedIs(v, g, repair, d) && x in d.file
    ensures x < |d.table| == |d.before.table|
    ensures if repair && Surplus(v, g, d, x) then IsFree(d.table, x)
            else d.table[x] == d.before.table[x] || !IsFree(d.table, x)
  {
    hide Surveyed, FileAt, FileTreated, FirstOf, Read32, Link, FileRaw, ClustersNeeded;
    var raw, f := DeedRaw(v, g, d), d.before;
    FoundSizes(v, g, f);
    DeedFacts(v, g, repair, d);
    TreatedChain(v.Total(), v.ClusterBytes(), f.table, d.table, f.seen, d.seen, repair, FirstOf(raw), Read32(raw, 28),
        d.resize, d.newSize, d.file);
    if Surplus(v, g, d, x) {
      var j: nat :| Entitled(v, g, d) <= j < |d.file| && d.file[j] == x;
    } else {
      var j: nat :| j < |d.file| && d.file[j] == x;
    }
  }

  /** A repair gives back exactly two kinds of cluster: those the complete check has not marked, except bad ones, and
      the surplus of a file. */
  lemma FreedExactly(v: Volume, g: Ground, repair: bool, f: Found, deeds: seq<Deed>, x: nat)
    requires Accounted(v, g, repair, f, deeds) && InRange(x, v.Total())
    ensures |f.seen| == v.Total() <= |f.table| == |g.table|
    ensures !IsFree(g.table, x) ==>
              (IsFree(Ending(f, repair, v.Total()), x) <==>
                 repair && ((f.complete && !f.seen[x] && Link(g.table[x]) != BAD) ||
                              exists n :: 0 <= n < |deeds| && Surplus(v, g, deeds[n], x)))
  {
    hide Surveyed, OnRecord, Link, Surplus, DeedIs, Grew, Ending;
    FoundSizes(v, g, f);
    EndingAt(f, repair, v.Total(), x);
    ChangedByFile(v, g, repair, f, deeds, x);
    if n :| 0 <= n < |deeds| && x in deeds[n].file {
      FileFrees(v, g, repair, f, deeds, n, x);
    } else {
      forall n | 0 <= n < |deeds|
        ensures !Surplus(v, g, deeds[n], x)
      {
        SurplusHeld(v, g, deeds[n], x);
      }
    }
  }

  lemma SurplusHeld(v: Volume, g: Ground, d: Deed, x: nat)
    ensures Surplus(v, g, d, x) ==> x in d.file
  {
    hide DeedPlaced, Entitled;
  }

  lemma FileFrees(v: Volume, g: Ground, repair: bool, f: Found, deeds: seq<Deed>, n: nat, x: nat)
    requires OnRecord(v, g, repair, f, deeds) && n < |deeds| && x in deeds[n].file && |f.seen| == v.Total()
    ensures x < |f.table| == |g.table| && x < |f.seen| && f.seen[x]
    ensures forall m :: 0 <= m < |deeds| && Surplus(v, g, deeds[m], x) ==> m == n
    ensures if repair && Surplus(v, g, deeds[n], x) then IsFree(f.table, x)
            else f.table[x] == g.table[x] || !IsFree(f.table, x)
  {
    hide OnRecord, Link, Surplus, DeedIs, Held, Before;
    DeedOf(v, g, repair, f, deeds, n);
    DeedFacts(v, g, repair, deeds[n]);
    FileEntries(v, g, repair, f, deeds, n, x);
    DeedFrees(v, g, repair, deeds[n], x);
    forall m | 0 <= m < |deeds| && Surplus(v, g, deeds[m], x)
      ensures m == n
    {
      SurplusHeld(v, g, deeds[m], x);
      FilesApart(v, g, repair, f, deeds, m, n, x);
    }
  }

  /** What a file's treatment has made of its clusters' entries is what they are when everything is over. */
  lemma FileEnds(v: Volume, g: Ground, repair: bool, f: Found, deeds: seq<Deed>, n: nat, x: nat)
    requires Accounted(v, g, repair, f, deeds) && n < |deeds| && x in deeds[n].file
    ensures |f.seen| == v.Total() <= |f.table| == |g.table| == |deeds[n].table| && x < |f.table|
    ensures Ending(f, repair, v.Total())[x] == deeds[n].table[x]
  {
    hide Surveyed, OnRecord, Ending, Surplus, IsFree;
    FoundSizes(v, g, f);
    FileFrees(v, g, repair, f, deeds, n, x);
    FileEntries(v, g, repair, f, deeds, n, x);
    FileBelow(v, g, repair, f, deeds, n, x);
    EndingAt(f, repair, v.Total(), x);
  }

  lemma FileBelow(v: Volume, g: Ground, repair: bool, f: Found, deeds: seq<Deed>, n: nat, x: nat)
    requires OnRecord(v, g, repair, f, deeds) && n < |deeds| && x in deeds[n].file
    ensures x < v.Total()
  {
    hide OnRecord, DeedIs, Grew;
    DeedOf(v, g, repair, f, deeds, n);
    DeedFacts(v, g, repair, deeds[n]);
  }

  /** When the check was complete and no directory met a mark, the first kind is what nothing led to from the root
      when the check began. */
  lemma FreedUnreachable(v: Volume, g: Ground, repair: bool, f: Found, deeds: seq<Deed>, x: nat)
    requires Accounted(v, g, repair, f, deeds) && InRange(x, v.Total())
    requires !f.active && |f.walks| == |f.queue| && f.complete && !f.crossed
    ensures |f.seen| == v.Total() <= |f.table| == |g.table|
    ensures !IsFree(g.table, x) ==>
              (IsFree(Ending(f, repair, v.Total()), x) <==>
                 repair && ((!Reachable(v, g.data, g.table, g.root, x) && Link(g.table[x]) != BAD) ||
                              exists n :: 0 <= n < |deeds| && Surplus(v, g, deeds[n], x)))
  {
    hide Surveyed, OnRecord, Link, Surplus, Ending, Reachable;
    FreedExactly(v, g, repair, f, deeds, x);
    MarkedIsReachable(v, g, f, x);
  }
}
