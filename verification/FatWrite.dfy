/** kernel/fat32.c: fat32_write - growing a chain, and putting bytes into it. */
module FatWrite {
  import opened Words
  import opened LittleEndian
  import opened FatTable
  import opened FatVolume
  import opened FatAllocation
  import opened FatContents

  // ---- Bytes -------------------------------------------------------------------

  /** One cluster's bytes have been replaced from `offset` on by `piece`, and no other sector has changed. */
  ghost predicate Recorded(data: seq<Sector>, before: seq<Sector>, start: nat, sectors: nat, offset: nat,
                           piece: seq<Byte>) {
    |data| == |before| && start + sectors <= |data| && offset + |piece| <= sectors * SECTOR_SIZE &&
    (forall o :: 0 <= o < sectors * SECTOR_SIZE ==>
       ClusterByte(data, start, o) == if offset <= o < offset + |piece| then piece[o - offset]
       else ClusterByte(before, start, o)) &&
    (forall i :: 0 <= i < |data| && !(start <= i < start + sectors) ==> data[i] == before[i])
  }

  /** A buffer's bytes as sectors. */
  function Sectors(input: seq<Byte>, at: nat, run: nat): (s: seq<Sector>)
    requires at + run * SECTOR_SIZE <= |input|
    ensures |s| == run
  {
    seq(run, j requires 0 <= j < run => input[at + j * SECTOR_SIZE..at + j * SECTOR_SIZE + SECTOR_SIZE])
  }

  lemma RunRecorded(before: seq<Sector>, start: nat, sectors: nat, offset: nat, input: seq<Byte>, at: nat, run: nat)
    requires offset % SECTOR_SIZE == 0 && at + run * SECTOR_SIZE <= |input|
    requires start + sectors <= |before| && offset / SECTOR_SIZE + run <= sectors
    ensures Recorded(Overlaid(before, start + offset / SECTOR_SIZE, Sectors(input, at, run)), before, start, sectors,
            offset,
                     input[at..at + run * SECTOR_SIZE])
  {
    hide Sectors, Overlaid;
    var first, s, piece := offset / SECTOR_SIZE, Sectors(input, at, run), input[at..at + run * SECTOR_SIZE];
    var data := Overlaid(before, start + first, s);
    OverlaidAt(before, start + first, s);
    forall o | 0 <= o < sectors * SECTOR_SIZE
      ensures ClusterByte(data, start, o) == if offset <= o < offset + |piece| then piece[o - offset]
              else ClusterByte(before, start, o)
    {
      var j, w := o / SECTOR_SIZE, o % SECTOR_SIZE;
      assert o == j * SECTOR_SIZE + w;
      if first <= j < first + run {
        SectorsAt(input, at, run, j - first, w);
      }
    }
  }

  lemma OverlaidAt(before: seq<Sector>, at: nat, s: seq<Sector>)
    requires at + |s| <= |before|
    ensures forall i :: 0 <= i < |before| ==>
              Overlaid(before, at, s)[i] == if at <= i < at + |s| then s[i - at] else before[i]
  {
  }

  lemma SectorsAt(input: seq<Byte>, at: nat, run: nat, k: nat, w: nat)
    requires at + run * SECTOR_SIZE <= |input| && k < run && w < SECTOR_SIZE
    ensures Sectors(input, at, run)[k][w] == input[at..at + run * SECTOR_SIZE][k * SECTOR_SIZE + w]
  {
  }

  /** A sector with some of its bytes replaced. */
  function Spliced(s: Sector, within: nat, piece: seq<Byte>): (t: Sector)
    requires within + |piece| <= SECTOR_SIZE
  {
    s[..within] + piece + s[within + |piece|..]
  }

  lemma PartRecorded(before: seq<Sector>, start: nat, sectors: nat, offset: nat, piece: seq<Byte>)
    requires start + sectors <= |before| && offset < sectors * SECTOR_SIZE &&
             offset % SECTOR_SIZE + |piece| <= SECTOR_SIZE
    ensures start + offset / SECTOR_SIZE < |before|
    ensures var i := start + offset / SECTOR_SIZE;
            Recorded(Overlaid(before, i, [Spliced(before[i], offset % SECTOR_SIZE, piece)]), before, start, sectors,
            offset, piece)
  {
    hide Overlaid, Spliced;
    var q, r := offset / SECTOR_SIZE, offset % SECTOR_SIZE;
    assert offset == q * SECTOR_SIZE + r;
    var t := Spliced(before[start + q], r, piece);
    var data := Overlaid(before, start + q, [t]);
    OverlaidAt(before, start + q, [t]);
    forall o | 0 <= o < sectors * SECTOR_SIZE
      ensures ClusterByte(data, start, o) == if offset <= o < offset + |piece| then piece[o - offset]
              else ClusterByte(before, start, o)
    {
      var j, w := o / SECTOR_SIZE, o % SECTOR_SIZE;
      assert o == j * SECTOR_SIZE + w;
      if j == q {
        SplicedAt(before[start + q], r, piece, w);
      }
    }
  }

  lemma SplicedAt(s: Sector, within: nat, piece: seq<Byte>, w: nat)
    requires within + |piece| <= SECTOR_SIZE && w < SECTOR_SIZE
    ensures Spliced(s, within, piece)[w] == if within <= w < within + |piece| then piece[w - within] else s[w]
  {
  }

  /** Part of a sector. A whole sector is not read first; anything less is, or the bytes on either side would be
      lost. */
  method WritePart(v: Volume, cluster: nat, offset: nat, piece: seq<Byte>)
    requires v.Valid() && InRange(cluster, v.Total()) && offset < v.ClusterBytes() &&
             offset % SECTOR_SIZE + |piece| <= SECTOR_SIZE
    modifies v.disk
    ensures v.Valid() && v.disk[..v.reserved] == old(v.disk[..v.reserved])
    ensures Recorded(v.Data(), old(v.Data()), v.Start(cluster), v.sectorsPerCluster, offset, piece)
  {
    hide Volume.Cached, Volume.Stored, Volume.Walked, Times, Volume.Start, Recorded, Overlaid, Spliced;
    v.ClusterInside(cluster);
    ghost var data := v.Data();
    var sectorNumber := v.FirstSector(cluster) + offset / SECTOR_SIZE;
    PartRecorded(data, v.Start(cluster), v.sectorsPerCluster, offset, piece);
    var scratch := BLANK;
    if |piece| != SECTOR_SIZE {
      scratch := v.disk[sectorNumber];
    }
    SplicedWhole(scratch, data[v.Start(cluster) + offset / SECTOR_SIZE], offset % SECTOR_SIZE, piece);
    v.WriteRun(sectorNumber, [Spliced(scratch, offset % SECTOR_SIZE, piece)]);
  }

  /** Whole sectors, straight from the caller's buffer. */
  method WriteWhole(v: Volume, cluster: nat, offset: nat, input: seq<Byte>, at: nat, run: nat)
    requires v.Valid() && InRange(cluster, v.Total()) && offset % SECTOR_SIZE == 0 && at + run * SECTOR_SIZE <= |input|
    requires offset / SECTOR_SIZE + run <= v.sectorsPerCluster
    modifies v.disk
    ensures v.Valid() && v.disk[..v.reserved] == old(v.disk[..v.reserved])
    ensures Recorded(v.Data(), old(v.Data()), v.Start(cluster), v.sectorsPerCluster, offset,
            input[at..at + run * SECTOR_SIZE])
  {
    hide Volume.Cached, Volume.Stored, Volume.Walked, Times, Volume.Start, Recorded, Sectors, Overlaid;
    v.ClusterInside(cluster);
    RunRecorded(v.Data(), v.Start(cluster), v.sectorsPerCluster, offset, input, at, run);
    v.WriteRun(v.FirstSector(cluster) + offset / SECTOR_SIZE, Sectors(input, at, run));
  }

  /** One round of the writing loop: a run of whole sectors when the place and the buffer are aligned for it. */
  method WritePiece(v: Volume, cluster: nat, offset: nat, input: seq<Byte>, at: nat, address: nat) returns (chunk: nat)
    requires v.Valid() && InRange(cluster, v.Total()) && offset < v.ClusterBytes() && at < |input|
    modifies v.disk
    ensures v.Valid() && v.disk[..v.reserved] == old(v.disk[..v.reserved])
    ensures 0 < chunk <= |input| - at && offset + chunk <= v.ClusterBytes()
    ensures Recorded(v.Data(), old(v.Data()), v.Start(cluster), v.sectorsPerCluster, offset, input[at..at + chunk])
  {
    hide Volume.Cached, Volume.Stored, Volume.Walked, Times, Volume.Start, Recorded, Sectors, Overlaid, WholeRun,
         PartRun;
    v.ClusterInside(cluster);
    SectorInside(offset, v.sectorsPerCluster);
    var sectorIndex, sectorOffset, left := offset / SECTOR_SIZE, offset % SECTOR_SIZE, |input| - at;
    if sectorOffset == 0 && left >= SECTOR_SIZE && (address + at) % 4 == 0 {
      var run := WholeRun(left, v.sectorsPerCluster - sectorIndex);
      RunInside(offset, v.sectorsPerCluster, run);
      WriteWhole(v, cluster, offset, input, at, run);
      chunk := run * SECTOR_SIZE;
    } else {
      chunk := PartRun(sectorOffset, left);
      WritePart(v, cluster, offset, input[at..at + chunk]);
    }
  }

  lemma SplicedWhole(s: Sector, t: Sector, within: nat, piece: seq<Byte>)
    requires within + |piece| <= SECTOR_SIZE && (s == t || |piece| == SECTOR_SIZE)
    ensures Spliced(s, within, piece) == Spliced(t, within, piece)
  {
  }

  // ---- Chains -------------------------------------------------------------------

  /** A chain that grew: clusters that were free have been added at its end, and nothing else in the table has
      changed. */
  ghost predicate Grown(before: Table, t: Table, total: nat, ids0: seq<nat>, ids: seq<nat>) {
    2 <= total <= |t| == |before| && Chain(t, total, ids) && ids0 <= ids &&
    (forall i :: |ids0| <= i < |ids| ==> IsFree(before, ids[i])) &&
    (forall c: nat :: c < |t| && c !in ids ==> t[c] == before[c]) &&
    FreeCount(t, 2, total) + |ids| == FreeCount(before, 2, total) + |ids0|
  }

  lemma GrownNot(t: Table, total: nat, ids: seq<nat>)
    requires 2 <= total <= |t| && Chain(t, total, ids)
    ensures Grown(t, t, total, ids, ids)
  {
  }

  lemma ExtendedCount(t: Table, total: nat, found: nat, previous: nat)
    requires 2 <= total <= |t| && total <= BAD && InRange(found, total) && IsFree(t, found)
    requires previous != 0 ==> InRange(previous, total) && !IsFree(t, previous)
    ensures FreeCount(Extended(t, found, previous), 2, total) + 1 == FreeCount(t, 2, total)
  {
    var claimed := Put(t, found, LAST);
    FreeCountPut(t, 2, total, found, LAST);
    if previous != 0 {
      FreeCountPut(claimed, 2, total, previous, found);
    }
  }

  lemma GrownFirst(t: Table, total: nat, found: nat)
    requires 2 <= total <= |t| && total <= BAD && InRange(found, total) && IsFree(t, found)
    ensures Grown(t, Extended(t, found, 0), total, [], [found])
  {
    ChainOfOne(t, total, found);
    ExtendedCount(t, total, found, 0);
    forall c: nat | c < |t| && c !in [found]
      ensures Extended(t, found, 0)[c] == t[c]
    {
      assert c != [found][0];
      ExtendedAt(t, found, 0, c);
    }
  }

  lemma GrownMore(before: Table, t: Table, total: nat, ids0: seq<nat>, ids: seq<nat>, found: nat)
    requires Grown(before, t, total, ids0, ids) && total <= BAD && InRange(found, total) && IsFree(t, found)
    ensures found !in ids
    ensures Grown(before, Extended(t, found, ids[|ids| - 1]), total, ids0, ids + [found])
  {
    hide Link, Merge, FreeCount;
    var last, u, longer := ids[|ids| - 1], Extended(t, found, ids[|ids| - 1]), ids + [found];
    forall i | 0 <= i < |ids|
      ensures ids[i] != found
    {
      ChainHoldsNoFree(t, total, ids, i);
    }
    ChainExtended(t, total, ids, found);
    ChainHoldsNoFree(t, total, ids, |ids| - 1);
    ExtendedCount(t, total, found, last);
    assert IsFree(before, longer[|ids|]);
    forall c: nat | c < |u| && c !in longer
      ensures u[c] == before[c]
    {
      assert longer[|ids|] == found && longer[|ids| - 1] == last;
      ExtendedAt(t, found, last, c);
    }
  }

  /** Every other file's chain is untouched by the growth, and the two are still apart. */
  lemma OthersKept(before: Table, t: Table, total: nat, ids0: seq<nat>, ids: seq<nat>, others: seq<nat>)
    requires Grown(before, t, total, ids0, ids) && total <= |before| && Chain(before, total, others) &&
             Apart(ids0, others)
    ensures Chain(t, total, others) && Apart(ids, others)
  {
    forall i, j | 0 <= i < |ids| && 0 <= j < |others|
      ensures ids[i] != others[j]
    {
      if i >= |ids0| {
        ChainHoldsNoFree(before, total, others, j);
      }
    }
  }

  /** The next cluster of the chain, one more being claimed when it ends here. */
  method Advance(v: Volume, cluster: nat, ghost before: Table, ghost ids0: seq<nat>, ghost ids: seq<nat>, ghost k: nat)
    returns (following: nat, ghost longer: seq<nat>)
    requires v.Valid() && Grown(before, v.table, v.Total(), ids0, ids) && k < |ids| && cluster == ids[k]
    modifies v.disk, v.cache, v
    ensures v.Valid() && v.Elsewhere() == old(v.Elsewhere()) && v.apart <= old(v.apart)
    ensures old(v.Exact()) ==> v.Exact()
    ensures Grown(before, v.table, v.Total(), ids0, longer) && ids <= longer
    ensures following == 0 ==> Full(v.table, v.Total())
    ensures following == 0 ==> k + 1 == |ids| && longer == ids
    ensures following != 0 ==> k + 1 < |longer| && following == longer[k + 1]
    ensures longer == ids || (k + 1 == |ids| && longer == ids + [following] && following !in ids)
    ensures longer == ids ==> v.table == old(v.table) && (v.cacheDirty ==> old(v.cacheDirty))
    ensures following == 0 || v.sectorsPerFat == 1 ==>
              v.cacheDirty == (v.sectorsPerFat == 1 && (longer != ids || old(v.cacheDirty)))
  {
    hide Volume.Cached, Volume.Stored, Volume.Walked, Volume.Exact, Grown, IsFree, Full, Link, Extended;
    hide Chain;
    longer := ids;
    assert Chain(v.table, v.Total(), ids) by {
      ChainOfGrown(before, v.table, v.Total(), ids0, ids);
    }
    ChainNext(v.table, v.Total(), ids, k);
    ChainHoldsNoFree(v.table, v.Total(), ids, k);
    following := v.Next(cluster);
    if following >= END_MINIMUM || following < 2 {
      ghost var t := v.table;
      following := AllocateCluster(v, cluster, false);
      if following != 0 {
        GrownMore(before, t, v.Total(), ids0, ids, following);
        longer := ids + [following];
      }
    }
  }

  lemma ChainOfGrown(before: Table, t: Table, total: nat, ids0: seq<nat>, ids: seq<nat>)
    requires Grown(before, t, total, ids0, ids)
    ensures Chain(t, total, ids)
  {
  }

  // ---- The file's bytes -----------------------------------------------------------

  ghost predicate SameCluster(v: Volume, data: seq<Sector>, before: seq<Sector>, cluster: nat)
    requires 2 <= cluster
  {
    |data| == |before| && v.Start(cluster) + v.sectorsPerCluster <= |data| &&
    data[v.Start(cluster)..v.Start(cluster) + v.sectorsPerCluster] ==
    before[v.Start(cluster)..v.Start(cluster) + v.sectorsPerCluster]
  }

  /** A window of the file has been replaced, and nothing outside the file's clusters has changed. */
  ghost predicate Written(v: Volume, data: seq<Sector>, before: seq<Sector>, ids: seq<nat>, start: nat,
                          piece: seq<Byte>) {
    |data| == |before| && Fits(v, data, ids) && start + |piece| <= Capacity(v, ids) &&
    (forall p: nat :: p < Capacity(v, ids) ==>
       ByteAt(v, data, ids, p) == if start <= p < start + |piece| then piece[p - start]
       else ByteAt(v, before, ids, p)) &&
    (forall c: nat :: 2 <= c && c !in ids && v.Start(c) + v.sectorsPerCluster <= |data| ==>
       SameCluster(v, data, before, c))
  }

  lemma NothingWritten(v: Volume, data: seq<Sector>, ids: seq<nat>, start: nat)
    requires Fits(v, data, ids) && start <= Capacity(v, ids)
    ensures Written(v, data, data, ids, start, [])
  {
  }

  /** Another cluster's bytes when one cluster's have been replaced. */
  lemma RecordedElsewhere(v: Volume, data: seq<Sector>, before: seq<Sector>, cluster: nat, offset: nat,
                          piece: seq<Byte>, other: nat)
    requires 2 <= cluster && 2 <= other && other != cluster && v.Start(other) + v.sectorsPerCluster <= |before|
    requires Recorded(data, before, v.Start(cluster), v.sectorsPerCluster, offset, piece)
    ensures SameCluster(v, data, before, other)
  {
    hide Times, ClusterByte;
    if other < cluster {
      StartsApart(v, other, cluster);
    } else {
      StartsApart(v, cluster, other);
    }
    forall i | v.Start(other) <= i < v.Start(other) + v.sectorsPerCluster
      ensures data[i] == before[i]
    {
    }
  }

  lemma SameByte(v: Volume, data: seq<Sector>, before: seq<Sector>, cluster: nat, o: nat)
    requires 2 <= cluster && SameCluster(v, data, before, cluster) && o < v.ClusterBytes()
    ensures v.Start(cluster) + o / SECTOR_SIZE < |data| == |before|
    ensures ClusterByte(data, v.Start(cluster), o) == ClusterByte(before, v.Start(cluster), o)
  {
    hide Times;
    var at, n, j := v.Start(cluster), v.sectorsPerCluster, o / SECTOR_SIZE;
    assert data[at + j] == data[at..at + n][j] && before[at + j] == before[at..at + n][j];
  }

  lemma WrittenMore(v: Volume, data: seq<Sector>, middle: seq<Sector>, before: seq<Sector>, ids: seq<nat>, start: nat,
                    piece: seq<Byte>,
                    k: nat, rest: nat, more: seq<Byte>)
    requires Written(v, middle, before, ids, start, piece) && Distinct(ids) && k < |ids|
    requires start + |piece| == Times(k, v.ClusterBytes()) + rest
    requires Recorded(data, middle, v.Start(ids[k]), v.sectorsPerCluster, rest, more)
    ensures Written(v, data, before, ids, start, piece + more)
  {
    var b, whole := v.ClusterBytes(), piece + more;
    TimesMono(k + 1, |ids|, b);
    forall p: nat | p < Capacity(v, ids)
      ensures ByteAt(v, data, ids, p) == if start <= p < start + |whole| then whole[p - start]
              else ByteAt(v, before, ids, p)
    {
      WrittenByte(v, data, middle, ids, start + |piece|, k, rest, more, p);
    }
    hide Recorded, ByteAt;
    forall c: nat | 2 <= c && c !in ids && v.Start(c) + v.sectorsPerCluster <= |data|
      ensures SameCluster(v, data, before, c)
    {
      assert c != ids[k];
      RecordedElsewhere(v, data, middle, ids[k], rest, more, c);
      assert SameCluster(v, middle, before, c);
    }
  }

  lemma WrittenByte(v: Volume, data: seq<Sector>, middle: seq<Sector>, ids: seq<nat>, from: nat, k: nat, rest: nat,
                    more: seq<Byte>, p: nat)
    requires Fits(v, middle, ids) && Distinct(ids) && k < |ids| && from == Times(k, v.ClusterBytes()) + rest
    requires Recorded(data, middle, v.Start(ids[k]), v.sectorsPerCluster, rest, more) && p < Capacity(v, ids)
    ensures Fits(v, data, ids)
    ensures ByteAt(v, data, ids, p) == if from <= p < from + |more| then more[p - from] else ByteAt(v, middle, ids, p)
  {
    var b := v.ClusterBytes();
    Place(p, b);
    IndexBelow(p, b, |ids|);
    var j, o := Index(p, b), Within(p, b);
    if j != k {
      RecordedElsewhere(v, data, middle, ids[k], rest, more, ids[j]);
      SameByte(v, data, middle, ids[j], o);
      if j < k {
        TimesMono(j + 1, k, b);
      } else {
        TimesMono(k + 1, j, b);
      }
    }
    hide Index, Within, Times, ClusterByte;
  }

  /** A cluster added at the end of the chain brings its own bytes with it. */
  lemma WrittenGrown(v: Volume, data: seq<Sector>, before: seq<Sector>, ids: seq<nat>, start: nat, piece: seq<Byte>,
                     found: nat)
    requires Written(v, data, before, ids, start, piece) && found !in ids && Fits(v, data, ids + [found])
    ensures Written(v, data, before, ids + [found], start, piece)
  {
    hide Times;
    var longer, b := ids + [found], v.ClusterBytes();
    TimesMono(|ids|, |longer|, b);
    assert longer[|ids|] == found;
    forall p: nat | p < Capacity(v, longer)
      ensures ByteAt(v, data, longer, p) == if start <= p < start + |piece| then piece[p - start]
              else ByteAt(v, before, longer, p)
    {
      Place(p, b);
      IndexBelow(p, b, |longer|);
      if p < Capacity(v, ids) {
        IndexBelow(p, b, |ids|);
        assert ByteAt(v, data, ids, p) == ByteAt(v, data, longer, p) && ByteAt(v, before, ids, p) == ByteAt(v, before,
               longer, p);
      } else {
        IndexAbove(p, b, |ids|);
        SameByte(v, data, before, found, Within(p, b));
      }
    }
  }

  lemma {:induction false} IndexAbove(p: nat, b: nat, n: nat)
    requires 0 < b && Times(n, b) <= p
    ensures n <= Index(p, b)
  {
    Place(p, b);
    if Index(p, b) < n {
      TimesMono(Index(p, b) + 1, n, b);
    }
  }
}
