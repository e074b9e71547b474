/** kernel/fat32.c: one file under the checker - its chain walked, and held against its recorded size. */
module FatCheckFile {
  import opened Words
  import opened FatTable
  import opened FatVolume
  import opened FatAllocation
  import opened FatCheck

  /** The clusters a size needs, worked out in 32 bits. */
  function ClustersNeeded(size: Word, clusterBytes: nat): nat
    requires 0 < clusterBytes
  {
    Over((size + clusterBytes - 1) % BASE, clusterBytes)
  }

  /** It is right exactly for sizes whose rounding up stays within 32 bits: the last cluster's worth below 4 GiB
      comes out as too few. */
  lemma NeededExact(size: Word, clusterBytes: nat)
    requires 0 < clusterBytes < 0x1_0000_0000
    ensures ClustersNeeded(size, clusterBytes) == Over(size + clusterBytes - 1, clusterBytes) <==>
            size + clusterBytes - 1 < BASE
  {
    var x := size + clusterBytes - 1;
    OverFacts(x, clusterBytes);
    OverFacts(x % BASE, clusterBytes);
    if x >= BASE {
      assert x % BASE == x - BASE;
    }
  }

  /** The clusters a truncation keeps: never none. */
  function AtLeastOne(keep: nat): (n: nat)
    ensures 0 < n
  {
    if keep > 1 then keep else 1
  }

  /** The table when a walk has cut a chain that did not end properly. */
  function WalkedTable(t: Table, file: seq<nat>, repair: bool): (u: Table)
    requires file != [] ==> file[|file| - 1] < |t|
    ensures |u| == |t|
  {
    if repair && file != [] && !Ended(Link(t[file[|file| - 1]])) then Put(t, file[|file| - 1], LAST) else t
  }

  /** What becomes of a file: the clusters it is found to hold, its chain afterwards, and its size. */
  ghost predicate FileTreated(total: nat, b: nat, t: Table, u: Table, seen0: seq<bool>, seen: seq<bool>, repair: bool,
                              first: Word, size: Word,
                              resize: bool, newSize: Word, file: seq<nat>) {
    if !InRange(first, total) then
      file == [] && u == t && seen == seen0 && resize == (repair && first == 0 && size != 0) &&
      newSize == if resize then 0 else size
    else
      0 < b && (file != [] ==> file[|file| - 1] < |t|) &&
      var walked, needed := WalkedTable(t, file, repair), ClustersNeeded(size, b);
      FileWalked(total, t, walked, seen0, seen, repair, first, file) &&
      u == (if repair && needed < |file| then CutShort(walked, file, AtLeastOne(needed)) else walked) &&
      resize == (repair && |file| < needed) && newSize == if resize then Times(|file|, b) % BASE else size
  }

  /** A file's chain against its recorded size: a size no cluster holds comes down, and clusters no size needs go
      back. */
  method CheckFile(c: Check, first: Word, size: Word) returns (resize: bool, newSize: Word, ghost file: seq<nat>)
    requires c.Valid()
    modifies c.fat, c.fat.disk, c.fat.cache, c.seen, c`faults, c`repaired, c`files, c`bytesInFiles
    ensures c.Valid() && c.fat.Elsewhere() == old(c.fat.Elsewhere()) && c.fat.apart <= old(c.fat.apart)
    ensures Unmarked(c.seen[..]) <= Unmarked(old(c.seen[..])) && (old(c.fat.Exact()) ==> c.fat.Exact()) &&
            (resize ==> c.repair)
    ensures FileTreated(c.fat.Total(), c.fat.ClusterBytes(), old(c.fat.table), c.fat.table, old(c.seen[..]),
            c.seen[..], c.repair, first, size,
                        resize, newSize, file)
    ensures !c.repair && old(!c.fat.cacheDirty) ==> !c.fat.cacheDirty && c.fat.disk[..] == old(c.fat.disk[..])
    ensures !c.repair ==> c.fat.searchHint == old(c.fat.searchHint)
  {
    hide Volume.Cached, Volume.Stored, Volume.Walked, Volume.Exact, FileWalked, Unmarked, Chain, CutShort, Over, Times,
         ClustersNeeded, Put, Marked, Link;
    var v := c.fat;
    c.files, c.bytesInFiles := c.files + 1, c.bytesInFiles + size;
    resize, newSize, file := false, size, [];
    if first == 0 {
      if size != 0 {
        resize, newSize := c.repair, if c.repair then 0 else size;
        c.Note(c.repair);
      }
      return;
    }
    if !(2 <= first < v.Total()) {
      c.Note(false);
      return;
    }
    ghost var t, seen0 := v.table, c.seen[..];
    var held;
    held, file := CheckFileChain(c, first);
    WalkedAs(v.Total(), t, v.table, seen0, c.seen[..], c.repair, first, file);
    var needed := ClustersNeeded(size, v.ClusterBytes());
    if needed > held {
      resize := c.repair;
      if c.repair {
        newSize := Times(held, v.ClusterBytes()) % BASE;
      }
      c.Note(c.repair);
    } else if held > needed {
      if c.repair {
        CheckTruncate(c, first, needed, file);
      }
      c.Note(c.repair);
    }
  }

  lemma WalkedAs(total: nat, t: Table, u: Table, seen0: seq<bool>, seen: seq<bool>, repair: bool, first: nat,
                 file: seq<nat>)
    requires FileWalked(total, t, u, seen0, seen, repair, first, file)
    ensures file != [] ==> file[|file| - 1] < |t|
    ensures u == WalkedTable(t, file, repair) && (repair && file != [] ==> Chain(u, total, file) && file[0] == first)
  {
  }

  /** What a file's treatment changes: marks along its chain, and entries of that chain only, where it ends now. */
  lemma TreatedFile(total: nat, b: nat, t: Table, u: Table, seen0: seq<bool>, seen: seq<bool>, repair: bool,
                    first: Word, size: Word,
                    resize: bool, newSize: Word, file: seq<nat>)
    requires FileTreated(total, b, t, u, seen0, seen, repair, first, size, resize, newSize, file) &&
             total == |seen0| <= |t| && total <= BAD
    ensures |u| == |t| && seen == Marked(seen0, file)
    ensures forall i :: 0 <= i < |file| ==> InRange(file[i], total) && !seen0[file[i]]
    ensures forall x: nat :: x < |t| && u[x] != t[x] ==> repair && x in file && !InRange(Link(u[x]), total)
    ensures (file != [] ==> file[0] == first) && Distinct(file)
    ensures forall j :: 0 <= j < |file| - 1 ==> file[j] < |t| && file[j + 1] == Link(t[file[j]])
    ensures forall j :: 0 <= j < |file| ==>
              file[j] < |t| && (!InRange(Link(t[file[j]]), total) || seen[Link(t[file[j]])])
    ensures InRange(first, total) ==> seen[first]
  {
    hide ClustersNeeded, Times, Merge, Put, Chain, Link, CutShort;
    if !InRange(first, total) {
      assert Marked(seen0, []) == seen0;
    } else {
      var walked, needed := WalkedTable(t, file, repair), ClustersNeeded(size, b);
      WalkedEnds(total, t, seen0, seen, repair, first, file);
      if repair && needed < |file| {
        CutEnds(total, walked, file, AtLeastOne(needed));
      }
    }
  }

  lemma WalkedEnds(total: nat, t: Table, seen0: seq<bool>, seen: seq<bool>, repair: bool, first: Word, file: seq<nat>)
    requires total <= |t| && total <= BAD && (file != [] ==> file[|file| - 1] < |t|)
    requires FileWalked(total, t, WalkedTable(t, file, repair), seen0, seen, repair, first, file)
    ensures var u := WalkedTable(t, file, repair);
            forall x: nat :: x < |t| && u[x] != t[x] ==> repair && x in file && !InRange(Link(u[x]), total)
    ensures forall j :: 0 <= j < |file| ==>
              file[j] < |t| && (!InRange(Link(t[file[j]]), total) || seen[Link(t[file[j]])])
    ensures InRange(first, total) ==> seen[first]
  {
    hide Chain, Link, Merge;
    forall j | 0 <= j < |file|
      ensures !InRange(Link(t[file[j]]), total) || seen[Link(t[file[j]])]
    {
      if j + 1 < |file| {
        assert file[j + 1] in file;
      }
    }
    if file != [] {
      assert file[0] in file;
    }
  }

  lemma CutEnds(total: nat, t: Table, file: seq<nat>, n: nat)
    requires total <= |t| && total <= BAD && Chain(t, total, file) && 0 < n <= |file|
    ensures file[n - 1] < |t|
    ensures var u := CutShort(t, file, n);
            |u| == |t| && forall x: nat :: x < |t| && u[x] != t[x] ==> x in file && !InRange(Link(u[x]), total)
  {
    hide Merge, Link, CutShort;
    CutShortIs(t, total, file, n);
    ChainDistinct(t, total, file);
    var u := CutShort(t, file, n);
    forall x: nat | x < |t| && u[x] != t[x]
      ensures x in file && !InRange(Link(u[x]), total)
    {
      var i :| 0 <= i < |file| && file[i] == x;
      if i + 1 < n {
        CutInside(t, file, n, i);
      } else if i < n {
        CutAt(t, file, n);
      } else {
        assert IsFree(u, file[i]);
      }
    }
  }

  lemma CutInside(t: Table, file: seq<nat>, n: nat, i: nat)
    requires Distinct(file) && 0 < n <= |file| && file[n - 1] < |t| && i + 1 < n && file[i] < |t|
    ensures CutShort(t, file, n)[file[i]] == t[file[i]]
  {
    hide Merge, Link;
    assert file[i] !in file[n..];
  }

  lemma CutAt(t: Table, file: seq<nat>, n: nat)
    requires Distinct(file) && 0 < n <= |file| && file[n - 1] < |t|
    ensures Link(CutShort(t, file, n)[file[n - 1]]) == LAST
  {
    assert file[n - 1] !in file[n..];
  }

  /** The clusters a file keeps of those it was found to hold. */
  function KeptOf(file: seq<nat>, needed: nat): seq<nat> {
    if needed < |file| then file[..AtLeastOne(needed)] else file
  }

  /** With repairs a file that holds anything ends up with a proper chain of the clusters it keeps; those it does not
      keep are free, and no other becomes so. */
  lemma TreatedChain(total: nat, b: nat, t: Table, u: Table, seen0: seq<bool>, seen: seq<bool>, repair: bool,
                     first: Word, size: Word, resize: bool, newSize: Word, file: seq<nat>)
    requires FileTreated(total, b, t, u, seen0, seen, repair, first, size, resize, newSize, file) &&
             total == |seen0| <= |t| && total <= BAD && 0 < b
    ensures |u| == |t| && forall j :: 0 <= j < |file| ==> file[j] < |t|
    ensures repair && file != [] ==> Chain(u, total, KeptOf(file, ClustersNeeded(size, b)))
    ensures forall j :: 0 <= j < |file| ==>
              if repair && AtLeastOne(ClustersNeeded(size, b)) <= j then IsFree(u, file[j])
              else u[file[j]] == t[file[j]] || !IsFree(u, file[j])
  {
    hide ClustersNeeded, Times, Merge, Put, Chain, Link, CutShort;
    if InRange(first, total) {
      var walked, needed := WalkedTable(t, file, repair), ClustersNeeded(size, b);
      if repair && file != [] {
        WalkedChain(total, t, seen0, seen, first, file);
        if needed < |file| {
          CutShortIs(walked, total, file, AtLeastOne(needed));
          CutKeeps(total, walked, file, AtLeastOne(needed));
        } else {
          ChainKeeps(total, walked, file);
        }
      }
    }
  }

  lemma WalkedChain(total: nat, t: Table, seen0: seq<bool>, seen: seq<bool>, first: Word, file: seq<nat>)
    requires file != [] && file[|file| - 1] < |t|
    requires FileWalked(total, t, WalkedTable(t, file, true), seen0, seen, true, first, file)
    ensures Chain(WalkedTable(t, file, true), total, file)
  {
  }

  lemma ChainKeeps(total: nat, t: Table, file: seq<nat>)
    requires total <= |t| && total <= BAD && Chain(t, total, file)
    ensures forall j :: 0 <= j < |file| ==> file[j] < |t| && !IsFree(t, file[j])
  {
    hide Link;
    forall j | 0 <= j < |file|
      ensures file[j] < |t| && !IsFree(t, file[j])
    {
      ChainHoldsNoFree(t, total, file, j);
    }
  }

  lemma CutKeeps(total: nat, t: Table, file: seq<nat>, n: nat)
    requires total <= |t| && total <= BAD && Chain(t, total, file) && 0 < n <= |file| && file[n - 1] < |t|
    ensures forall j :: 0 <= j < n ==> file[j] < |t| && !IsFree(CutShort(t, file, n), file[j])
  {
    hide Merge, Link, CutShort, Chain;
    CutShortIs(t, total, file, n);
    ChainKeeps(total, CutShort(t, file, n), file[..n]);
    assert forall j :: 0 <= j < n ==> file[..n][j] == file[j];
  }

  // ---- What that means for a file in order ----------------------------------------------------------

  /** A file whose chain is as long as its size asks for, and is nobody else's, is left alone by a repair if and
      only if its size rounded up to clusters stays within 32 bits. */
  lemma SoundFileKept(total: nat, b: nat, t: Table, u: Table, seen0: seq<bool>, seen: seq<bool>, first: Word,
                      size: Word, resize: bool,
                      newSize: Word, file: seq<nat>, chain: seq<nat>)
    requires FileTreated(total, b, t, u, seen0, seen, true, first, size, resize, newSize, file) && 0 < b <= 0x2_0000
    requires total <= |t| && total <= BAD && |seen0| == total && Chain(t, total, chain) && chain[0] == first
    requires (forall i :: 0 <= i < |chain| ==> !seen0[chain[i]]) && |chain| == Over(size + b - 1, b)
    ensures file == chain && newSize == size && !resize
    ensures u == t <==> size + b - 1 < BASE
    ensures size + b - 1 >= BASE ==> |chain| > 1 && u == CutShort(t, chain, 1)
  {
    hide Over, Link, Merge, FileTreated, Chain, CutShort, ClustersNeeded, Times;
    SoundTreated(total, b, t, u, seen0, seen, first, size, resize, newSize, file, chain);
    NeededExact(size, b);
    if size + b - 1 >= BASE {
      NothingNeeded(size, b);
      LongChain(size, b, |chain|);
      CutShortIs(t, total, chain, 1);
      ChainHoldsNoFree(t, total, chain, 1);
    }
  }

  lemma SoundTreated(total: nat, b: nat, t: Table, u: Table, seen0: seq<bool>, seen: seq<bool>, first: Word,
                     size: Word, resize: bool,
                     newSize: Word, file: seq<nat>, chain: seq<nat>)
    requires FileTreated(total, b, t, u, seen0, seen, true, first, size, resize, newSize, file) && 0 < b
    requires total <= |t| && total <= BAD && |seen0| == total && Chain(t, total, chain) && chain[0] == first
    requires forall i :: 0 <= i < |chain| ==> !seen0[chain[i]]
    ensures var needed := ClustersNeeded(size, b);
            file == chain && chain[|chain| - 1] < |t| && (needed < |chain| ==> chain[AtLeastOne(needed) - 1] < |t|) &&
            u == (if needed < |chain| then CutShort(t, chain, AtLeastOne(needed)) else t) &&
            resize == (|chain| < needed) && newSize == if resize then Times(|chain|, b) % BASE else size
  {
    hide Over, Link, Merge, FileWalked, Times, ClustersNeeded;
    assert InRange(chain[0], total);
    SoundWalk(total, t, WalkedTable(t, file, true), seen0, seen, true, first, file, chain);
  }

  lemma NothingNeeded(size: Word, b: nat)
    requires 0 < b <= 0x2_0000 && size + b - 1 >= BASE
    ensures ClustersNeeded(size, b) == 0
  {
    assert (size + b - 1) % BASE == size + b - 1 - BASE < b;
  }

  lemma LongChain(size: Word, b: nat, n: nat)
    requires 0 < b <= 0x2_0000 && size + b - 1 >= BASE && n == Over(size + b - 1, b)
    ensures n > 1
  {
    hide Over;
    OverFacts(size + b - 1, b);
    assert n == 0 ==> (n + 1) * b == b;
    assert n == 1 ==> (n + 1) * b == 2 * b;
  }

  /** The largest file there can be, in clusters of 32 KiB: a repair cuts it down to its first cluster. */
  lemma LargestFileCut(total: nat, t: Table, u: Table, seen0: seq<bool>, seen: seq<bool>, first: Word, resize: bool,
                       newSize: Word,
                       file: seq<nat>, chain: seq<nat>)
    requires FileTreated(total, 0x8000, t, u, seen0, seen, true, first, 0xFFFF_FFFF, resize, newSize, file)
    requires total <= |t| && total <= BAD && |seen0| == total && Chain(t, total, chain) && chain[0] == first
    requires (forall i :: 0 <= i < |chain| ==> !seen0[chain[i]]) && |chain| == 0x2_0000
    ensures newSize == 0xFFFF_FFFF && u != t && Chain(u, total, [first]) && forall i :: 1 <= i < |chain| ==>
            IsFree(u, chain[i])
  {
    hide FileTreated, Over;
    OverFacts(0xFFFF_FFFF + 0x8000 - 1, 0x8000);
    SoundFileKept(total, 0x8000, t, u, seen0, seen, first, 0xFFFF_FFFF, resize, newSize, file, chain);
    CutShortIs(t, total, chain, 1);
    assert chain[..1] == [first];
  }
}
