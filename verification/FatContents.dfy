/** kernel/fat32.c: what the clusters of a chain hold, byte by byte. */
module FatContents {
  import opened Numbers
  import opened Words
  import opened FatTable
  import opened FatVolume

  /** Which cluster of a file a byte is in, and where in it, for clusters of b bytes. */
  function Index(p: nat, b: nat): nat
    requires 0 < b
  {
    if p < b then 0 else 1 + Index(p - b, b)
  }

  function Within(p: nat, b: nat): nat
    requires 0 < b
  {
    if p < b then p else Within(p - b, b)
  }

  lemma {:induction false} Place(p: nat, b: nat)
    requires 0 < b
    ensures p == Times(Index(p, b), b) + Within(p, b) && Within(p, b) < b
  {
    if p >= b {
      Place(p - b, b);
    }
  }

  lemma {:induction false} PlaceUnique(k: nat, o: nat, b: nat)
    requires o < b
    ensures Index(Times(k, b) + o, b) == k && Within(Times(k, b) + o, b) == o
  {
    if k > 0 {
      PlaceUnique(k - 1, o, b);
    }
  }

  lemma {:induction false} IndexBelow(p: nat, b: nat, n: nat)
    requires 0 < b && p < Times(n, b)
    ensures Index(p, b) < n
  {
    Place(p, b);
    if n <= Index(p, b) {
      TimesMono(n, Index(p, b), b);
    }
  }

  /** Byte o of a cluster that begins at data sector `start`. */
  function ClusterByte(data: seq<Sector>, start: nat, o: nat): Byte
    requires start + o / SECTOR_SIZE < |data|
  {
    data[start + o / SECTOR_SIZE][o % SECTOR_SIZE]
  }

  /** All the clusters of a chain are on the volume. */
  ghost predicate Fits(v: Volume, data: seq<Sector>, ids: seq<nat>) {
    0 < v.sectorsPerCluster &&
    forall i :: 0 <= i < |ids| ==> 2 <= ids[i] && v.Start(ids[i]) + v.sectorsPerCluster <= |data|
  }

  ghost function Capacity(v: Volume, ids: seq<nat>): nat {
    Times(|ids|, v.ClusterBytes())
  }

  /** Byte p of a file: in the cluster its position falls in. */
  ghost function ByteAt(v: Volume, data: seq<Sector>, ids: seq<nat>, p: nat): Byte
    requires Fits(v, data, ids) && p < Capacity(v, ids)
  {
    Place(p, v.ClusterBytes());
    IndexBelow(p, v.ClusterBytes(), |ids|);
    ClusterByte(data, v.Start(ids[Index(p, v.ClusterBytes())]), Within(p, v.ClusterBytes()))
  }

  /** Byte o of cluster number k of a chain is there on the device. */
  ghost predicate OnDisk(v: Volume, ids: seq<nat>, k: int, o: int, byte: Byte)
    reads v.disk
  {
    0 <= k < |ids| && 0 <= o && 2 <= ids[k] && v.FirstSector(ids[k]) + o / 512 < v.disk.Length &&
    byte == v.disk[v.FirstSector(ids[k]) + o / 512][o % 512]
  }

  /** Where a file's bytes are, in plain arithmetic. */
  lemma ByteOnDisk(v: Volume, ids: seq<nat>, p: nat, b: nat)
    requires v.Geometry() && Fits(v, v.Data(), ids) && p < Capacity(v, ids)
    requires b == 512 * v.sectorsPerCluster && 0 < b
    ensures OnDisk(v, ids, p / b, p % b, ByteAt(v, v.Data(), ids, p))
  {
    hide Index, Within, Times;
    Place(p, b);
    IndexBelow(p, b, |ids|);
    TimesIsProduct(Index(p, b), b);
    DivModUnique(p, b, Index(p, b), Within(p, b));
  }

  /** The first `size` bytes of a chain. */
  ghost function Contents(v: Volume, data: seq<Sector>, ids: seq<nat>, size: nat): (bytes: seq<Byte>)
    requires Fits(v, data, ids) && size <= Capacity(v, ids)
    ensures |bytes| == size
  {
    seq(size, p requires 0 <= p < size => ByteAt(v, data, ids, p))
  }

  /** The byte at a place in the chain's cluster k. */
  lemma {:induction false} ByteAtPlace(v: Volume, data: seq<Sector>, ids: seq<nat>, k: nat, o: nat)
    requires Fits(v, data, ids) && k < |ids| && o < v.ClusterBytes()
    ensures Times(k, v.ClusterBytes()) + o < Capacity(v, ids)
    ensures ByteAt(v, data, ids, Times(k, v.ClusterBytes()) + o) == ClusterByte(data, v.Start(ids[k]), o)
  {
    TimesMono(k + 1, |ids|, v.ClusterBytes());
    PlaceUnique(k, o, v.ClusterBytes());
    hide Index, Within, Times, ClusterByte;
  }

  lemma {:induction false} ChainFits(v: Volume, ids: seq<nat>)
    requires v.Geometry() && v.Total() <= |v.table| && Chain(v.table, v.Total(), ids)
    ensures Fits(v, v.Data(), ids)
  {
    forall i | 0 <= i < |ids|
      ensures v.Start(ids[i]) + v.sectorsPerCluster <= |v.Data()|
    {
      assert InRange(ids[i], v.Total());
      v.ClusterInside(ids[i]);
    }
  }

  /** Different clusters have no sector in common. */
  lemma {:induction false} StartsApart(v: Volume, c: nat, d: nat)
    requires 2 <= c < d
    ensures v.Start(c) + v.sectorsPerCluster <= v.Start(d)
  {
    TimesMono(c - 1, d - 2, v.sectorsPerCluster);
  }

  // ---- How much one command carries -------------------------------------------

  /** Whole sectors to move at once: what is left to move, no further than the end of the cluster. */
  function WholeRun(left: nat, room: nat): (run: nat)
    requires SECTOR_SIZE <= left && 0 < room
    ensures 0 < run <= room && run * SECTOR_SIZE <= left
  {
    if left / SECTOR_SIZE > room then room else left / SECTOR_SIZE
  }

  /** Bytes to move within one sector. */
  function PartRun(within: nat, left: nat): (chunk: nat)
    requires within < SECTOR_SIZE && 0 < left
    ensures 0 < chunk <= left && within + chunk <= SECTOR_SIZE
  {
    if SECTOR_SIZE - within > left then left else SECTOR_SIZE - within
  }

  lemma SectorInside(offset: nat, sectors: nat)
    requires offset < sectors * SECTOR_SIZE
    ensures offset / SECTOR_SIZE < sectors
    ensures offset + (SECTOR_SIZE - offset % SECTOR_SIZE) <= sectors * SECTOR_SIZE
  {
  }

  lemma RunInside(offset: nat, sectors: nat, run: nat)
    requires offset % SECTOR_SIZE == 0 && offset / SECTOR_SIZE + run <= sectors
    ensures offset + run * SECTOR_SIZE <= sectors * SECTOR_SIZE
  {
  }
}
