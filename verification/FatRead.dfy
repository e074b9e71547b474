/** kernel/fat32.c: fat32_read, with the remembered position it starts from. */
module FatRead {
  import opened Words
  import opened FatTable
  import opened FatVolume
  import opened FatContents

  function Min(a: nat, b: nat): nat {
    if a < b then a else b
  }

  /** How many bytes a read can give: what was asked for, within the file and within what its chain holds. */
  function Readable(offset: nat, length: nat, size: nat, capacity: nat): nat {
    var end := Min(size, capacity);
    if offset < end then Min(length, end - offset) else 0
  }

  lemma SectorOf(offset: nat, i: nat)
    ensures offset % SECTOR_SIZE == 0 ==>
              (offset + i) / SECTOR_SIZE == offset / SECTOR_SIZE + i / SECTOR_SIZE &&
                 (offset + i) % SECTOR_SIZE == i % SECTOR_SIZE
    ensures offset % SECTOR_SIZE + i < SECTOR_SIZE ==>
              (offset + i) / SECTOR_SIZE == offset / SECTOR_SIZE &&
                 (offset + i) % SECTOR_SIZE == offset % SECTOR_SIZE + i
  {
    var q, r := offset / SECTOR_SIZE, offset % SECTOR_SIZE;
    assert offset == SECTOR_SIZE * q + r;
  }

  /** The buffer from `at` on holds a stretch of the sectors that begin at `start`; the rest of it is as it was. */
  ghost predicate Delivered(data: seq<Sector>, start: nat, offset: nat, output: seq<Byte>, at: nat, chunk: nat,
                            before: seq<Byte>) {
    at + chunk <= |output| == |before| && start + (offset + chunk + SECTOR_SIZE - 1) / SECTOR_SIZE <= |data| &&
    (forall i :: at <= i < at + chunk ==> output[i] == ClusterByte(data, start, offset + (i - at))) &&
    (forall i :: 0 <= i < |output| && !(at <= i < at + chunk) ==> output[i] == before[i])
  }

  /** block_read of whole sectors straight into the caller's buffer. */
  method ReadRun(v: Volume, start: nat, offset: nat, run: nat, output: array<Byte>, at: nat)
    requires v.Geometry() && offset % SECTOR_SIZE == 0 && at + run * SECTOR_SIZE <= output.Length
    requires start + offset / SECTOR_SIZE + run <= |v.Data()|
    modifies output
    ensures Delivered(v.Data(), start, offset, output[..], at, run * SECTOR_SIZE, old(output[..]))
  {
    var first := v.firstData + start + offset / SECTOR_SIZE;
    forall i | at <= i < at + run * SECTOR_SIZE {
      output[i] := v.disk[first + (i - at) / SECTOR_SIZE][(i - at) % SECTOR_SIZE];
    }
    forall i | at <= i < at + run * SECTOR_SIZE
      ensures output[i] == ClusterByte(v.Data(), start, offset + (i - at))
    {
      SectorOf(offset, i - at);
    }
  }

  /** Part of one sector, through the scratch page. */
  method ReadPart(v: Volume, start: nat, offset: nat, output: array<Byte>, at: nat, chunk: nat)
    requires v.Geometry() && 0 < chunk && offset % SECTOR_SIZE + chunk <= SECTOR_SIZE && at + chunk <= output.Length
    requires start + offset / SECTOR_SIZE < |v.Data()|
    modifies output
    ensures Delivered(v.Data(), start, offset, output[..], at, chunk, old(output[..]))
  {
    var scratch, within := v.disk[v.firstData + start + offset / SECTOR_SIZE], offset % SECTOR_SIZE;
    forall i | at <= i < at + chunk {
      output[i] := scratch[within + (i - at)];
    }
    forall i | at <= i < at + chunk
      ensures output[i] == ClusterByte(v.Data(), start, offset + (i - at))
    {
      SectorOf(offset, i - at);
    }
  }

  /** One round of the copying loop: a run of whole sectors when the place and the buffer are aligned for it, and
      the part of one sector otherwise. */
  method ReadPiece(v: Volume, cluster: nat, offset: nat, output: array<Byte>, at: nat, left: nat, address: nat)
    returns (chunk: nat)
    requires v.Valid() && InRange(cluster, v.Total()) && offset < v.ClusterBytes() && 0 < left &&
             at + left <= output.Length
    modifies output
    requires output != v.cache
    ensures v.Valid()
    ensures 0 < chunk <= left && offset + chunk <= v.ClusterBytes()
    ensures Delivered(v.Data(), v.Start(cluster), offset, output[..], at, chunk, old(output[..]))
  {
    hide Volume.Cached, Volume.Stored, Volume.Walked, Times, Volume.Start, Volume.Data, Delivered, WholeRun, PartRun;
    v.ClusterInside(cluster);
    SectorInside(offset, v.sectorsPerCluster);
    var sectorIndex, sectorOffset := offset / SECTOR_SIZE, offset % SECTOR_SIZE;
    if sectorOffset == 0 && left >= SECTOR_SIZE && (address + at) % 4 == 0 {
      var run := WholeRun(left, v.sectorsPerCluster - sectorIndex);
      RunInside(offset, v.sectorsPerCluster, run);
      ReadRun(v, v.Start(cluster), offset, run, output, at);
      chunk := run * SECTOR_SIZE;
    } else {
      chunk := PartRun(sectorOffset, left);
      ReadPart(v, v.Start(cluster), offset, output, at, chunk);
    }
  }

  lemma ChainStart(t: Table, total: nat, ids: seq<nat>, b: nat)
    requires total <= |t| && total <= BAD && Chain(t, total, ids)
    ensures 0 < |ids| && Times(0, b) == 0
  {
  }

  /** The walk to the cluster holding `offset`, from the remembered position when that is on the way. */
  method Seek(v: Volume, first: nat, offset: nat, ghost ids: seq<nat>) returns (found: bool, cluster: nat, rest: nat)
    requires v.Valid() && Chain(v.table, v.Total(), ids) && ids[0] == first
    modifies v.disk, v.cache, v`cacheDirty, v`cacheSector, v`cacheValid, v`apart
    modifies v`walkFirst, v`walkOffset, v`walkCluster, v`walkIndex
    ensures v.Valid() && v.Elsewhere() == old(v.Elsewhere()) && v.apart <= old(v.apart)
    ensures found <==> offset < Capacity(v, ids)
    ensures found ==> v.walkIndex < |ids| && cluster == ids[v.walkIndex] && rest < v.ClusterBytes() &&
                      offset == Times(v.walkIndex, v.ClusterBytes()) + rest
    ensures found ==> Remembers(v, ids)
  {
    hide Volume.Cached, Volume.Stored, Times, Follow, Chain, Volume.Elsewhere, Volume.Data;
    ghost var b := v.ClusterBytes();
    ghost var k: nat := 0;
    var walked := 0;
    cluster, rest := first, offset;
    ChainStart(v.table, v.Total(), ids, b);
    if v.walkFirst == first && first >= 2 && v.walkCluster >= 2 && v.walkOffset <= offset {
      ChainFollow(v.table, v.Total(), ids, v.walkIndex);
      cluster, walked, rest, k := v.walkCluster, v.walkOffset, offset - v.walkOffset, v.walkIndex;
    }
    while rest >= v.ClusterBytes()
      invariant v.Valid() && v.Elsewhere() == old(v.Elsewhere()) && v.apart <= old(v.apart)
      invariant k < |ids| && cluster == ids[k] && walked == Times(k, b) && offset == walked + rest
      decreases rest
    {
      ChainNext(v.table, v.Total(), ids, k);
      TimesNext(k, b);
      cluster := v.Next(cluster);
      if cluster >= END_MINIMUM || cluster < 2 {
        return false, cluster, rest;
      }
      rest := rest - v.ClusterBytes();
      walked := walked + v.ClusterBytes();
      k := k + 1;
    }
    v.walkFirst, v.walkOffset, v.walkCluster := first, walked, cluster;
    v.walkIndex := k;
    ChainFollow(v.table, v.Total(), ids, k);
    InsideCapacity(k, rest, b, |ids|);
    return true, cluster, rest;
  }

  /** The remembered position is in this file. */
  ghost predicate Remembers(v: Volume, ids: seq<nat>)
    reads v`walkFirst, v`walkOffset, v`walkCluster, v`walkIndex
  {
    v.walkIndex < |ids| && v.walkFirst == ids[0] && v.walkCluster == ids[v.walkIndex] &&
    v.walkOffset == Times(v.walkIndex, v.ClusterBytes())
  }

  /** The buffer so far: what was asked for, in order, and nothing past it. */
  ghost predicate Copied(v: Volume, data: seq<Sector>, ids: seq<nat>, offset: nat, output: seq<Byte>, copied: nat,
                         before: seq<Byte>)   {
    Fits(v, data, ids) && copied <= |output| == |before| && offset + copied <= Capacity(v, ids) &&
    (forall i :: 0 <= i < copied ==> output[i] == ByteAt(v, data, ids, offset + i)) &&
    (forall i :: copied <= i < |output| ==> output[i] == before[i])
  }

  /** From the remembered cluster to the next, if there is one. */
  method MoveOn(v: Volume, cluster: nat, ghost ids: seq<nat>) returns (following: nat)
    requires v.Valid() && Chain(v.table, v.Total(), ids) && Remembers(v, ids) && cluster == ids[v.walkIndex]
    modifies v.disk, v.cache, v`cacheDirty, v`cacheSector, v`cacheValid, v`apart
    modifies v`walkOffset, v`walkCluster, v`walkIndex
    ensures v.Valid() && v.Elsewhere() == old(v.Elsewhere()) && v.apart <= old(v.apart) && Remembers(v, ids)
    ensures if old(v.walkIndex) + 1 < |ids|
            then v.walkIndex == old(v.walkIndex) + 1 && following == ids[v.walkIndex] && 2 <= following < END_MINIMUM
            else v.walkIndex == old(v.walkIndex) && (following >= END_MINIMUM || following < 2)
  {
    hide Volume.Cached, Volume.Stored, Times, Follow, Chain;
    ChainNext(v.table, v.Total(), ids, v.walkIndex);
    TimesNext(v.walkIndex, v.ClusterBytes());
    following := v.Next(cluster);
    if following >= END_MINIMUM || following < 2 {
      return;
    }
    v.walkOffset, v.walkCluster := v.walkOffset + v.ClusterBytes(), following;
    v.walkIndex := v.walkIndex + 1;
    ChainFollow(v.table, v.Total(), ids, v.walkIndex);
  }

  /** The copying loop, from a place in the chain on. */
  method Copy(v: Volume, offset: nat, start: nat, rest0: nat, output: array<Byte>, address: nat, length: nat,
              ghost ids: seq<nat>)
    returns (copied: nat)
    requires v.Valid() && output != v.cache && 0 < length <= output.Length && Chain(v.table, v.Total(), ids) &&
             Remembers(v, ids)
    requires start == ids[v.walkIndex] && rest0 < v.ClusterBytes() && offset == Times(v.walkIndex,
             v.ClusterBytes()) + rest0
    modifies output, v.disk, v.cache, v`cacheDirty, v`cacheSector, v`cacheValid, v`apart
    modifies v`walkOffset, v`walkCluster, v`walkIndex
    ensures v.Valid() && v.Elsewhere() == old(v.Elsewhere()) && v.apart <= old(v.apart) && Remembers(v, ids)
    ensures copied == Readable(offset, length, offset + length, Capacity(v, ids))
    ensures Copied(v, v.Data(), ids, offset, output[..], copied, old(output[..]))
  {
    hide Volume.Cached, Volume.Stored, Times, Follow, Chain, Volume.Data, ClusterByte, ByteAt;
    ghost var data, b := v.Data(), v.ClusterBytes();
    ChainFits(v, ids);
    var cluster, rest: nat := start, rest0;
    InsideCapacity(v.walkIndex, rest0, b, |ids|);
    copied := 0;
    while copied < length
      invariant v.Valid() && v.Elsewhere() == old(v.Elsewhere()) && v.apart <= old(v.apart) && v.Data() == data
      invariant copied <= length && rest <= b && Remembers(v, ids) && cluster == ids[v.walkIndex]
      invariant offset + copied == Times(v.walkIndex, b) + rest
      invariant Copied(v, data, ids, offset, output[..], copied, old(output[..]))
      decreases length - copied, rest
    {
      if rest >= v.ClusterBytes() {
        TimesNext(v.walkIndex, b);
        cluster := MoveOn(v, cluster, ids);
        if cluster >= END_MINIMUM || cluster < 2 {
          break;
        }
        rest := rest - v.ClusterBytes();
      } else {
        ChainNext(v.table, v.Total(), ids, v.walkIndex);
        ghost var sofar := output[..];
        var chunk := ReadPiece(v, cluster, rest, output, copied, length - copied, address);
        CopiedMore(v, data, ids, offset, v.walkIndex, rest, sofar, output[..], copied, chunk, old(output[..]));
        copied, rest := copied + chunk, rest + chunk;
      }
    }
  }

  /** A piece adds its bytes to what has been copied. */
  lemma CopiedMore(v: Volume, data: seq<Sector>, ids: seq<nat>, offset: nat, k: nat, rest: nat, sofar: seq<Byte>,
                   output: seq<Byte>,
                   copied: nat, chunk: nat, before: seq<Byte>)
    requires Copied(v, data, ids, offset, sofar, copied, before) && k < |ids| && rest + chunk <= v.ClusterBytes()
    requires offset + copied == Times(k, v.ClusterBytes()) + rest
    requires Delivered(data, v.Start(ids[k]), rest, output, copied, chunk, sofar)
    ensures Copied(v, data, ids, offset, output, copied + chunk, before)
  {
    hide Times, ByteAt, ClusterByte;
    InsideCapacity(k, rest + chunk, v.ClusterBytes(), |ids|);
    forall i | 0 <= i < copied + chunk
      ensures output[i] == ByteAt(v, data, ids, offset + i)
    {
      if i >= copied {
        ByteAtPlace(v, data, ids, k, rest + (i - copied));
      }
    }
  }

  /** fat32_read: the bytes of the file from `offset` on, whatever position is remembered and whichever way they
      travel. */
  method Read(v: Volume, size: Word, first: nat, offset: nat, output: array<Byte>, address: nat, length: nat,
              ghost ids: seq<nat>)
    returns (copied: nat)
    requires v.Valid() && output != v.cache && length <= output.Length
    requires offset < size ==> Chain(v.table, v.Total(), ids) && ids[0] == first
    modifies output, v.disk, v.cache, v`cacheDirty, v`cacheSector, v`cacheValid, v`apart
    modifies v`walkFirst, v`walkOffset, v`walkCluster, v`walkIndex
    ensures v.Valid() && v.Elsewhere() == old(v.Elsewhere()) && v.apart <= old(v.apart)
    ensures copied == if offset < size then Readable(offset, length, size, Capacity(v, ids)) else 0
    ensures copied > 0 ==> Fits(v, v.Data(), ids) && offset + copied <= Capacity(v, ids) &&
                           output[..copied] == Contents(v, v.Data(), ids, offset + copied)[offset..]
    ensures output[copied..] == old(output[copied..])
  {
    hide Volume.Cached, Volume.Stored, Volume.Walked, Times, Follow, Chain, Volume.Data, ByteAt;
    if length == 0 || offset >= size {
      return 0;
    }
    var wanted := if length > size - offset then size - offset else length;
    var found, cluster, rest := Seek(v, first, offset, ids);
    if !found {
      return 0;
    }
    copied := Copy(v, offset, cluster, rest, output, address, wanted, ids);
    assert output[copied..] == old(output[..])[copied..];
  }
}
