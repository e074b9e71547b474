/** kernel/fat32.c: checking a volume - the chain walks, the truncation and the lost pass. */
module FatCheck {
  import opened Words
  import opened LittleEndian
  import opened FatTable
  import opened FatVolume
  import opened FatAllocation

  /** Clusters not marked yet: what every step of every walk uses up. */
  function Unmarked(seen: seq<bool>): nat {
    if |seen| == 0 then 0 else Unmarked(seen[..|seen| - 1]) + if seen[|seen| - 1] then 0 else 1
  }

  lemma {:induction false} UnmarkedMark(seen: seq<bool>, c: nat)
    requires c < |seen| && !seen[c]
    ensures Unmarked(seen[c := true]) + 1 == Unmarked(seen)
  {
    var last := |seen| - 1;
    if c < last {
      UnmarkedMark(seen[..last], c);
      assert seen[c := true][..last] == seen[..last][c := true];
    } else {
      assert seen[c := true][..last] == seen[..last];
    }
  }

  /** The marks with a run of clusters added. */
  function Marked(seen: seq<bool>, ids: seq<nat>): (after: seq<bool>)
    ensures |after| == |seen|
  {
    seq(|seen|, c requires 0 <= c < |seen| => seen[c] || c in ids)
  }

  lemma {:induction false} UnmarkedBound(seen: seq<bool>)
    ensures Unmarked(seen) <= |seen|
  {
    if |seen| > 0 {
      UnmarkedBound(seen[..|seen| - 1]);
    }
  }

  datatype Directory = Directory(cluster: nat, parent: nat)

  /** How far a check has come: the table and the marks, the directories queued, and the clusters walked of each one
      taken from the queue so far: all their slots, and of the last cluster of the last walk the first i. While that
      walk is under way its last cluster's link is still to be followed. */
  datatype Found = Found(table: Table, seen: seq<bool>, queue: seq<Directory>, walks: seq<seq<nat>>, i: nat,
                         active: bool, complete: bool, crossed: bool)

  /** A slot of a directory: in which walk, in which of its clusters, and which slot there. */
  datatype Spot = Spot(walk: nat, k: nat, i: nat)

  /** What was done to one file: where its entry is, how far the check had come, the table and the marks afterwards,
      the clusters it was found to hold, and its size when that was corrected. */
  datatype Deed = Deed(spot: Spot, before: Found, table: Table, seen: seq<bool>, file: seq<nat>, resize: bool,
                       newSize: Word)

  const CHECK_QUEUE_START := 64

  /** A check is complete exactly while every longer queue asked for has been granted; none is asked for before the
      first is full. */
  ghost predicate RoomFor(grants: nat -> bool, queued: nat, limit: nat, asked: nat, complete: bool) {
    CHECK_QUEUE_START <= limit && queued <= limit && (asked > 0 ==> CHECK_QUEUE_START <= queued) &&
    (complete <==> forall n: nat :: n < asked ==> grants(n))
  }

  class Check {
    const fat: Volume
    const repair: bool
    /** One mark per cluster reached from the root. */
    const seen: array<bool>
    /** Whether there is memory for a queue twice as long, for each time it is asked for. */
    const grants: nat -> bool
    var queue: seq<Directory>
    var queueRead: nat
    var queueLimit: Word
    var asked: nat
    var directories: nat
    var files: nat
    var bytesInFiles: nat
    var clustersUsed: nat
    var clustersFree: nat
    var clustersLost: nat
    var faults: nat
    var repaired: nat
    var complete: bool
    /** A directory entry or a directory's chain has led to a cluster marked already. */
    ghost var crossed: bool
    /** Every file gone over, in order, and every long-name slot marked deleted. */
    ghost var deeds: seq<Deed>
    ghost var freed: set<Spot>

    constructor (fat: Volume, repair: bool, grants: nat -> bool)
      ensures this.fat == fat && this.repair == repair && this.grants == grants && fresh(seen) &&
              seen.Length == fat.Total()
      ensures (forall c :: 0 <= c < seen.Length ==> !seen[c]) && queue == [] && queueRead == 0 && !crossed &&
              faults == 0
      ensures complete && queueLimit == CHECK_QUEUE_START && asked == 0 && deeds == [] && freed == {}
    {
      this.fat, this.repair, this.grants := fat, repair, grants;
      seen := new bool[fat.Total()](_ => false);
      queue, queueRead, queueLimit, asked := [], 0, CHECK_QUEUE_START, 0;
      directories, files, bytesInFiles, faults, repaired := 0, 0, 0, 0, 0;
      clustersUsed, clustersFree, clustersLost := 0, 0, 0;
      complete, crossed, deeds, freed := true, false, [], {};
    }

    ghost predicate Roomy()
      reads this`queue, this`queueLimit, this`asked, this`complete
    {
      RoomFor(grants, |queue|, queueLimit, asked, complete)
    }

    ghost predicate Valid()
      reads this`queue, this`queueRead, fat, fat.disk, fat.cache
    {
      fat.Valid() && seen.Length == fat.Total() && queueRead <= |queue|
    }

    /** check_queue: a full queue is made twice as long first, if there is memory for that. */
    method Enqueue(directory: Directory) returns (ok: bool)
      requires Roomy() && |queue| < 0x8000_0000
      modifies this`queue, this`queueLimit, this`asked
      ensures queue == if ok then old(queue) + [directory] else old(queue)
      ensures RoomFor(grants, |queue|, queueLimit, asked, complete && ok)
    {
      if |queue| == queueLimit {
        asked := asked + 1;
        if !grants(asked - 1) {
          return false;
        }
        queueLimit := queueLimit as int * 2 % BASE;
      }
      queue := queue + [directory];
      ok := true;
    }

    /** check_note. */
    method Note(fixed: bool)
      modifies this`faults, this`repaired
      ensures faults == old(faults) + 1 && repaired == old(repaired) + if fixed then 1 else 0
    {
      faults := faults + 1;
      if fixed {
        repaired := repaired + 1;
      }
    }
  }

  /** Where a walk stands: the clusters it has marked, linked in order, none of them marked before. */
  ghost predicate Walking(t: Table, total: nat, seen0: seq<bool>, seen: seq<bool>, first: nat, ids: seq<nat>,
                          cluster: nat) {
    2 <= total <= |t| && |seen0| == total && seen == Marked(seen0, ids) && Distinct(ids) &&
    (forall i :: 0 <= i < |ids| ==> InRange(ids[i], total) && !seen0[ids[i]]) &&
    (forall i :: 0 <= i < |ids| - 1 ==> Link(t[ids[i]]) == ids[i + 1]) &&
    if |ids| == 0 then cluster == first else ids[0] == first && cluster == Link(t[ids[|ids| - 1]])
  }

  lemma WalkingStart(t: Table, total: nat, seen: seq<bool>, first: nat)
    requires 2 <= total <= |t| && |seen| == total
    ensures Walking(t, total, seen, seen, first, [], first)
  {
  }

  lemma WalkingNext(t: Table, total: nat, seen0: seq<bool>, seen: seq<bool>, first: nat, ids: seq<nat>, cluster: nat)
    requires Walking(t, total, seen0, seen, first, ids, cluster) && InRange(cluster, total) && !seen[cluster]
    ensures Walking(t, total, seen0, seen[cluster := true], first, ids + [cluster], Link(t[cluster]))
    ensures Unmarked(seen[cluster := true]) < Unmarked(seen)
  {
    UnmarkedMark(seen, cluster);
    var longer := ids + [cluster];
    forall c | 0 <= c < |seen0|
      ensures Marked(seen0, longer)[c] == seen[cluster := true][c]
    {
      if c == cluster {
        assert longer[|ids|] == c;
      } else if c in ids {
        assert c in longer;
      } else {
        assert forall i :: 0 <= i < |longer| ==> longer[i] != c;
      }
    }
  }

  /** Cutting a walked chain behind its last cluster makes it a proper chain. */
  lemma WalkedCut(t: Table, total: nat, seen0: seq<bool>, seen: seq<bool>, first: nat, ids: seq<nat>, cluster: nat)
    requires Walking(t, total, seen0, seen, first, ids, cluster) && |ids| > 0
    ensures Chain(Put(t, ids[|ids| - 1], LAST), total, ids)
    ensures Ended(cluster) ==> Chain(t, total, ids)
  {
    hide Merge;
    var u := Put(t, ids[|ids| - 1], LAST);
    forall i | 0 <= i < |ids| - 1
      ensures u[ids[i]] == t[ids[i]]
    {
    }
  }

  /** What a walk along a file's chain leaves: the clusters it marked, in order, up to an end mark, a link to
      nowhere or a cluster marked already; and, when it may repair, a proper chain of exactly those. */
  ghost predicate FileWalked(total: nat, t: Table, u: Table, seen0: seq<bool>, seen: seq<bool>, repair: bool,
                             first: nat, ids: seq<nat>) {
    |u| == |t| && total <= |t| && |seen0| == total && seen == Marked(seen0, ids) &&
    (ids == [] <==> !InRange(first, total) || seen0[first]) && (ids != [] ==> ids[0] == first) &&
    (forall i :: 0 <= i < |ids| ==> InRange(ids[i], total) && !seen0[ids[i]]) && Distinct(ids) &&
    (forall i :: 0 <= i < |ids| - 1 ==> Link(t[ids[i]]) == ids[i + 1]) &&
    (ids != [] ==> !InRange(Link(t[ids[|ids| - 1]]), total) || seen[Link(t[ids[|ids| - 1]])]) &&
    u == (if repair && ids != [] && !Ended(Link(t[ids[|ids| - 1]])) then Put(t, ids[|ids| - 1], LAST) else t) &&
    (repair && ids != [] ==> Chain(u, total, ids))
  }

  /** check_file_chain: it ends on every table, because every step marks a cluster no step has marked before. */
  method CheckFileChain(c: Check, first: nat) returns (count: nat, ghost ids: seq<nat>)
    requires c.Valid()
    modifies c.fat, c.fat.disk, c.fat.cache, c.seen, c`faults, c`repaired
    ensures c.Valid() && c.fat.Elsewhere() == old(c.fat.Elsewhere()) && c.fat.apart <= old(c.fat.apart)
    ensures old(c.fat.Exact()) ==> c.fat.Exact()
    ensures FileWalked(c.fat.Total(), old(c.fat.table), c.fat.table, old(c.seen[..]), c.seen[..], c.repair, first,
            ids) && count == |ids|
    ensures Unmarked(c.seen[..]) <= Unmarked(old(c.seen[..]))
    ensures !c.repair && old(!c.fat.cacheDirty) ==> !c.fat.cacheDirty && c.fat.disk[..] == old(c.fat.disk[..])
    ensures !c.repair ==> c.fat.searchHint == old(c.fat.searchHint)
  {
    hide Volume.Cached, Volume.Stored, Volume.Walked, Volume.Exact, Walking, Unmarked, Marked, Link, Merge, FileWalked,
         Chain, Distinct, Put;
    var v := c.fat;
    ghost var t, total, seen0 := v.table, v.Total(), c.seen[..];
    WalkingStart(t, total, seen0, first);
    ids, count := [], 0;
    var cluster: nat, previous: nat := first, 0;
    while 2 <= cluster < v.Total()
      invariant c.Valid() && v.Elsewhere() == old(v.Elsewhere()) && v.apart <= old(v.apart) && v.table == t
      invariant old(v.Exact()) ==> v.Exact()
      invariant Walking(t, total, seen0, c.seen[..], first, ids, cluster) && count == |ids|
      invariant Unmarked(c.seen[..]) <= Unmarked(seen0)
      invariant old(!v.cacheDirty) ==> !v.cacheDirty && v.disk[..] == old(v.disk[..])
      invariant v.searchHint == old(v.searchHint)
      invariant if ids == [] then previous == 0
                else previous == ids[|ids| - 1] && InRange(previous, total) && InRange(cluster, total)
      decreases Unmarked(c.seen[..])
    {
      WalkingFirst(t, total, seen0, c.seen[..], first, ids, cluster);
      if c.seen[cluster] {
        StopWalk(c, c.repair && previous != 0, previous, first, cluster, t, seen0, ids);
        return;
      }
      WalkingNext(t, total, seen0, c.seen[..], first, ids, cluster);
      c.seen[cluster] := true;
      ids, count := ids + [cluster], count + 1;
      var following := v.Next(cluster);
      if following >= END_MINIMUM {
        WalkDone(t, v.table, total, seen0, c.seen[..], c.repair, first, ids, following);
        return;
      }
      if !(2 <= following < v.Total()) {
        StopWalk(c, c.repair, cluster, first, following, t, seen0, ids);
        return;
      }
      previous, cluster := cluster, following;
    }
    WalkingFirst(t, total, seen0, c.seen[..], first, ids, cluster);
    WalkDone(t, v.table, total, seen0, c.seen[..], c.repair, first, ids, cluster);
  }

  lemma WalkingFirst(t: Table, total: nat, seen0: seq<bool>, seen: seq<bool>, first: nat, ids: seq<nat>, cluster: nat)
    requires Walking(t, total, seen0, seen, first, ids, cluster)
    ensures ids == [] ==> cluster == first
  {
  }

  /** A fault on the way: the walk ends here, and with repairs the chain does too. */
  method StopWalk(c: Check, cut: bool, last: nat, ghost first: nat, ghost cluster: nat, ghost t: Table,
                  ghost seen0: seq<bool>, ghost ids: seq<nat>)
    requires c.Valid() && c.fat.table == t && Walking(t, c.fat.Total(), seen0, c.seen[..], first, ids, cluster) &&
             !Ended(cluster)
    requires cut == (c.repair && ids != []) && (cut ==> last == ids[|ids| - 1] && InRange(last, c.fat.Total()))
    requires ids == [] ==> !InRange(first, c.fat.Total()) || c.seen[first]
    requires !InRange(cluster, c.fat.Total()) || c.seen[cluster]
    modifies c.fat, c.fat.disk, c.fat.cache, c`faults, c`repaired
    ensures c.Valid() && c.fat.Elsewhere() == old(c.fat.Elsewhere()) && c.fat.apart <= old(c.fat.apart)
    ensures old(c.fat.Exact()) ==> c.fat.Exact()
    ensures FileWalked(c.fat.Total(), t, c.fat.table, seen0, c.seen[..], c.repair, first, ids)
    ensures !c.repair && old(!c.fat.cacheDirty) ==> !c.fat.cacheDirty && c.fat.disk[..] == old(c.fat.disk[..])
    ensures !c.repair ==> c.fat.searchHint == old(c.fat.searchHint)
  {
    hide Volume.Cached, Volume.Stored, Volume.Walked, Volume.Exact, Walking, Marked, Link, Merge, FileWalked, Chain,
         Distinct, Put;
    if cut {
      var ok := c.fat.WriteEntry(last, LAST);
    }
    WalkDone(t, c.fat.table, c.fat.Total(), seen0, c.seen[..], c.repair, first, ids, cluster);
    c.Note(cut);
  }

  /** However the walk ends. */
  lemma WalkDone(t: Table, u: Table, total: nat, seen0: seq<bool>, seen: seq<bool>, repair: bool, first: nat,
                 ids: seq<nat>, cluster: nat)
    requires Walking(t, total, seen0, seen, first, ids, cluster) && |u| == |t|
    requires if ids != [] && repair && !Ended(cluster) then u == Put(t, ids[|ids| - 1], LAST) else u == t
    requires ids == [] ==> !InRange(first, total) || seen[first]
    requires !InRange(cluster, total) || seen[cluster]
    ensures FileWalked(total, t, u, seen0, seen, repair, first, ids)
  {
    hide Link, Merge, Put, Marked;
    WalkedFacts(t, total, seen0, seen, first, ids, cluster);
    if ids != [] {
      WalkedCut(t, total, seen0, seen, first, ids, cluster);
    }
  }

  lemma WalkedFacts(t: Table, total: nat, seen0: seq<bool>, seen: seq<bool>, first: nat, ids: seq<nat>, cluster: nat)
    requires Walking(t, total, seen0, seen, first, ids, cluster)
    ensures seen == Marked(seen0, ids) && Distinct(ids)
    ensures forall i :: 0 <= i < |ids| ==> InRange(ids[i], total) && !seen0[ids[i]]
    ensures if |ids| == 0 then cluster == first && seen == seen0
            else ids[0] == first && !seen0[first] && InRange(first, total)
    ensures forall i :: 0 <= i < |ids| - 1 ==> Link(t[ids[i]]) == ids[i + 1]
    ensures |ids| > 0 ==> cluster == Link(t[ids[|ids| - 1]])
  {
    if |ids| == 0 {
      assert Marked(seen0, ids) == seen0;
    }
  }

  /** Links followed from the start of a chain stay on it. */
  lemma {:induction false} WalkAlong(t: Table, total: nat, ids: seq<nat>, chain: seq<nat>, k: nat)
    requires total <= |t| && total <= BAD && Chain(t, total, chain) && k < |ids| && ids[0] == chain[0]
    requires forall i :: 0 <= i < |ids| ==> 2 <= ids[i] < total
    requires forall i :: 0 <= i < |ids| - 1 ==> Link(t[ids[i]]) == ids[i + 1]
    ensures k < |chain| && ids[k] == chain[k]
  {
    if k > 0 {
      WalkAlong(t, total, ids, chain, k - 1);
      assert InRange(ids[k], total);
    }
  }

  /** On a proper chain of clusters not marked yet, the walk is that chain and changes nothing. */
  lemma SoundWalk(total: nat, t: Table, u: Table, seen0: seq<bool>, seen: seq<bool>, repair: bool, first: nat,
                  ids: seq<nat>, chain: seq<nat>)
    requires FileWalked(total, t, u, seen0, seen, repair, first, ids) && total <= BAD
    requires Chain(t, total, chain) && chain[0] == first && forall i :: 0 <= i < |chain| ==> !seen0[chain[i]]
    ensures ids == chain && u == t
  {
    hide Link, Merge, Put;
    assert InRange(first, total);
    forall k | 0 <= k < |ids|
      ensures k < |chain| && ids[k] == chain[k]
    {
      WalkAlong(t, total, ids, chain, k);
    }
    assert |ids| <= |chain| by {
      if |ids| > |chain| {
        WalkAlong(t, total, ids, chain, |chain|);
      }
    }
    if |ids| < |chain| {
      var following := chain[|ids|];
      assert Link(t[ids[|ids| - 1]]) == following && seen[following];
      var j :| 0 <= j < |ids| && ids[j] == following;
      ChainNeverReturns(t, total, chain, j, |ids|);
      assert false;
    }
  }

  // ---- Truncation -------------------------------------------------------------------

  /** A chain cut behind its first n clusters, the rest given back. */
  function CutShort(t: Table, ids: seq<nat>, n: nat): (u: Table)
    requires 0 < n <= |ids| && ids[n - 1] < |t|
    ensures |u| == |t|
  {
    Released(Put(t, ids[n - 1], LAST), ids[n..])
  }

  /** What is left is a chain of the clusters kept, and no other entry has changed. */
  lemma CutShortIs(t: Table, total: nat, ids: seq<nat>, n: nat)
    requires total <= |t| && total <= BAD && Chain(t, total, ids) && 0 < n <= |ids|
    ensures Chain(CutShort(t, ids, n), total, ids[..n])
    ensures forall c: nat :: c < |t| && c !in ids ==> CutShort(t, ids, n)[c] == t[c]
    ensures forall i :: n <= i < |ids| ==> IsFree(CutShort(t, ids, n), ids[i])
  {
    hide Merge, Link;
    ChainDistinct(t, total, ids);
    var u, kept := CutShort(t, ids, n), ids[..n];
    assert forall i :: 0 <= i < n ==> ids[i] !in ids[n..];
    assert Link(u[ids[n - 1]]) == LAST;
    forall i | 0 <= i < n - 1
      ensures Link(u[kept[i]]) == kept[i + 1]
    {
      assert u[ids[i]] == t[ids[i]];
    }
  }

  /** The tail of a chain whose link to it has been cut. */
  lemma TailChain(t: Table, total: nat, ids: seq<nat>, n: nat)
    requires total <= |t| && total <= BAD && Chain(t, total, ids) && 0 < n < |ids|
    ensures Chain(Put(t, ids[n - 1], LAST), total, ids[n..])
  {
    hide Merge, Link;
    ChainDistinct(t, total, ids);
    var tail := ids[n..];
    forall i | 0 <= i < |tail|
      ensures Put(t, ids[n - 1], LAST)[tail[i]] == t[ids[n + i]]
    {
    }
  }

  lemma LastWritten(t: Table, ids: seq<nat>, n: nat)
    requires 0 < n == |ids| && ids[n - 1] < |t|
    ensures Put(t, ids[n - 1], LAST) == CutShort(t, ids, n)
  {
  }

  /** check_truncate: only clusters of this chain are given back, and at least one is kept. */
  method CheckTruncate(c: Check, first: nat, keep: nat, ghost ids: seq<nat>)
    requires c.Valid() && Chain(c.fat.table, c.fat.Total(), ids) && ids[0] == first
    modifies c.fat, c.fat.disk, c.fat.cache
    ensures c.Valid() && c.fat.Elsewhere() == old(c.fat.Elsewhere()) && c.fat.apart <= old(c.fat.apart)
    ensures old(c.fat.Exact()) ==> c.fat.Exact()
    ensures var n := if keep > 1 then keep else 1;
            if n > |ids| then c.fat.table == old(c.fat.table)
            else ids[n - 1] < |old(c.fat.table)| && c.fat.table == CutShort(old(c.fat.table), ids, n)
  {
    hide Volume.Cached, Volume.Stored, Volume.Walked, Volume.Exact, Chain, Put, CutShort, FatTable.Next,
         Volume.Elsewhere;
    var v := c.fat;
    ghost var t, total := v.table, v.Total();
    assert |ids| > 0 by {
      ChainSome(t, total, ids);
    }
    ChainNext(t, total, ids, 0);
    var cluster: nat, left: nat := first, keep;
    ghost var k: nat := 0;
    while left > 1 && 2 <= cluster < v.Total()
      invariant c.Valid() && v.Elsewhere() == old(v.Elsewhere()) && v.apart <= old(v.apart) && v.table == t
      invariant old(v.Exact()) ==> v.Exact()
      invariant k < |ids| && cluster == ids[k] && InRange(cluster, total)
      invariant if keep > 1 then left >= 1 && left + k == keep else left == keep && k == 0
      decreases left
    {
      ChainNext(t, total, ids, k);
      var following := v.Next(cluster);
      if !(2 <= following < v.Total()) {
        return;
      }
      cluster, left, k := following, left - 1, k + 1;
    }
    CutBehind(v, cluster, ids, k);
  }

  lemma ChainSome(t: Table, total: nat, ids: seq<nat>)
    requires total <= |t| && Chain(t, total, ids)
    ensures |ids| > 0
  {
  }

  /** The cut itself: an end mark at the last cluster kept, and the clusters behind it given back. */
  method CutBehind(v: Volume, cluster: nat, ghost ids: seq<nat>, ghost k: nat)
    requires v.Valid() && Chain(v.table, v.Total(), ids) && k < |ids| && cluster == ids[k]
    modifies v, v.disk, v.cache
    ensures v.Valid() && v.Elsewhere() == old(v.Elsewhere()) && v.apart <= old(v.apart) &&
            (old(v.Exact()) ==> v.Exact())
    ensures ids[k] < |old(v.table)| && v.table == CutShort(old(v.table), ids, k + 1)
  {
    hide Volume.Cached, Volume.Stored, Volume.Walked, Volume.Exact, Chain, Put, CutShort, Released, Trail,
         FatTable.Next, Volume.Elsewhere;
    ghost var t, total := v.table, v.Total();
    ChainNext(t, total, ids, k);
    var surplus := v.Next(cluster);
    var ok := v.WriteEntry(cluster, LAST);
    if 2 <= surplus < v.Total() {
      TailChain(t, total, ids, k + 1);
      ghost var trail := FreeChain(v, surplus);
      TrailOfChain(Put(t, ids[k], LAST), total, ids[k + 1..], trail);
      CutShortBy(t, ids, k + 1);
    } else {
      LastWritten(t, ids, k + 1);
    }
  }

  lemma CutShortBy(t: Table, ids: seq<nat>, n: nat)
    requires 0 < n <= |ids| && ids[n - 1] < |t|
    ensures CutShort(t, ids, n) == Released(Put(t, ids[n - 1], LAST), ids[n..])
  {
  }
}
