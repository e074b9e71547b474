/** kernel/fat32.c: how large a table a volume needs, which cluster size it gets, and what a mount makes of the
    answer. */
module FatGeometry {
  import opened Numbers
  import opened Words
  import opened LittleEndian
  import opened FatTable
  import opened FatVolume

  const FORMAT_RESERVED_SECTORS := 32
  const FORMAT_FAT_COPIES := 2
  const FORMAT_ROOT_CLUSTER := 2
  const FAT32_MINIMUM_CLUSTERS := 65525
  const FAT32_MAXIMUM_CLUSTERS := 268435445

  /** The cluster sizes there are, in sectors. */
  predicate ClusterSize(size: nat) {
    size == 1 || size == 2 || size == 4 || size == 8 || size == 16 || size == 32 || size == 64 || size == 128
  }

  /** format_fat_size: the closed form, worked out in 64 bits and kept in 32. */
  function FatSize(total: nat, size: nat): (sectors: Word)
    requires FORMAT_RESERVED_SECTORS <= total && ClusterSize(size)
  {
    var usable, denominator := total - FORMAT_RESERVED_SECTORS, (256 * size + FORMAT_FAT_COPIES) / 2;
    (usable + denominator - 1) % BASE64 / denominator % BASE
  }

  /** format_cluster_count: nothing when the tables alone are too large. */
  function ClusterCount(total: nat, size: nat, fatSize: Word): (clusters: Word)
    requires FORMAT_RESERVED_SECTORS <= total && ClusterSize(size)
  {
    var data := total - FORMAT_RESERVED_SECTORS - fatSize * FORMAT_FAT_COPIES;
    if data < 0 then 0 else Over(data, size) % BASE
  }

  predicate Legal(total: nat, size: nat)
    requires FORMAT_RESERVED_SECTORS <= total && ClusterSize(size)
  {
    var clusters := ClusterCount(total, size, FatSize(total, size));
    FatSize(total, size) != 0 && FAT32_MINIMUM_CLUSTERS <= clusters <= FAT32_MAXIMUM_CLUSTERS
  }

  lemma CeilingFacts(u: nat, d: nat)
    requires 0 < d && 0 < u
    ensures var q := (u + d - 1) / d; 0 < q <= u && d * (q - 1) < u <= d * q
  {
    var q := (u + d - 1) / d;
    DivModFacts(u + d - 1, d);
    if q <= 0 {
      MulAway(d, q);
    }
    assert d * (q - 1) == d * q - d;
    if q > u {
      MulMono(d, u, d, q - 1);
      MulMono(1, u, d, u);
    }
  }

  /** The arithmetic of it: a table that pays for itself has entries for everything it leaves room for. */
  lemma TableLargeEnough(usable: nat, fatSize: nat, clusters: nat, size: nat)
    requires ClusterSize(size) && usable <= (128 * size + 1) * fatSize
    requires FAT32_MINIMUM_CLUSTERS <= clusters && clusters * size + 2 * fatSize <= usable
    ensures clusters + 2 <= 128 * fatSize
  {
    if size == 1 {
    } else if size == 2 {
    } else if size == 4 {
    } else if size == 8 {
    } else if size == 16 {
    } else if size == 32 {
    } else if size == 64 {
    } else {
    }
  }

  lemma SizeBound(size: nat)
    requires ClusterSize(size)
    ensures 0 < size <= 128
  {
  }

  lemma SmallMod(x: int, n: int)
    requires 0 <= x < n
    ensures x % n == x
  {
  }

  lemma FatSizeFacts(total: nat, size: nat)
    requires FORMAT_RESERVED_SECTORS < total < BASE && ClusterSize(size)
    ensures total - FORMAT_RESERVED_SECTORS <= (128 * size + 1) * FatSize(total, size)
  {
    hide ClusterSize;
    SizeBound(size);
    var u, d := total - FORMAT_RESERVED_SECTORS, 128 * size + 1;
    assert (256 * size + FORMAT_FAT_COPIES) / 2 == d;
    CeilingFacts(u, d);
    SmallMod(u + d - 1, BASE64);
    SmallMod((u + d - 1) / d, BASE);
  }

  /** It is the least table that pays for itself: each of its sectors describes 128 clusters and is kept twice. */
  lemma FatSizeLeast(total: nat, size: nat, f: nat)
    requires FORMAT_RESERVED_SECTORS < total < BASE && ClusterSize(size)
    ensures FatSize(total, size) <= f <==> total - 32 <= 128 * size * f + f
  {
    hide ClusterSize;
    SizeBound(size);
    var u, d := total - FORMAT_RESERVED_SECTORS, 128 * size + 1;
    var q := (u + d - 1) / d;
    assert (256 * size + FORMAT_FAT_COPIES) / 2 == d;
    CeilingFacts(u, d);
    SmallMod(u + d - 1, BASE64);
    SmallMod(q, BASE);
    MulMono(d, if f < q then f else q, d, if f < q then q - 1 else f);
    assert d * f == 128 * size * f + f;
  }

  /** The clusters are those for which there is room behind both copies. */
  lemma ClusterCountIs(total: nat, size: nat, fatSize: Word)
    requires FORMAT_RESERVED_SECTORS <= total < BASE && ClusterSize(size)
    ensures var room, clusters := total - 32 - 2 * fatSize, ClusterCount(total, size, fatSize);
            if room < 0 then clusters == 0 else clusters * size <= room < (clusters + 1) * size
  {
    hide ClusterSize;
    SizeBound(size);
    var room := total - 32 - 2 * fatSize;
    if 0 <= room {
      OverFacts(room, size);
    }
  }

  /** The usual cluster, in bytes, for a volume of so many: 512 up to 260 MiB, and 4, 8, 16 and 32 KiB up to 8, 16,
      32 GiB and beyond; the last MiB begun does not count. */
  lemma DefaultSizes(total: nat)
    ensures var bytes, cluster, mib, gib := 512 * total, 512 * DefaultCluster(total), 0x10_0000, 0x4000_0000;
            (bytes < 261 * mib <==> cluster == 512) && (261 * mib <= bytes < 8 * gib + mib <==> cluster == 4096) &&
            (8 * gib + mib <= bytes < 16 * gib + mib <==> cluster == 8192) &&
            (16 * gib + mib <= bytes < 32 * gib + mib <==> cluster == 16384) &&
            (32 * gib + mib <= bytes <==> cluster == 32768)
  {
  }

  /** The tables describe every cluster with two entries to spare, everything fits, and no number is a marker. */
  lemma LayoutFits(total: nat, size: nat)
    requires FORMAT_RESERVED_SECTORS < total < BASE && ClusterSize(size) && Legal(total, size)
    ensures var fatSize := FatSize(total, size);
            var clusters := ClusterCount(total, size, fatSize);
            FAT32_MINIMUM_CLUSTERS <= clusters && clusters + 2 <= PER_SECTOR * fatSize && clusters + 2 <= BAD &&
            FORMAT_RESERVED_SECTORS + FORMAT_FAT_COPIES * fatSize + clusters * size <= total &&
            clusters == Over(total - FORMAT_RESERVED_SECTORS - FORMAT_FAT_COPIES * fatSize, size)
  {
    hide FatSize;
    FatSizeFacts(total, size);
    var fatSize := FatSize(total, size);
    var data := total - FORMAT_RESERVED_SECTORS - fatSize * FORMAT_FAT_COPIES;
    assert data >= 0;
    OverFacts(data, size);
    TableLargeEnough(total - FORMAT_RESERVED_SECTORS, fatSize, Over(data, size), size);
  }

  /** A legal layout's data area holds at least one cluster, however large the volume. */
  lemma LegalRoom(total: nat, size: nat)
    requires FORMAT_RESERVED_SECTORS <= total && ClusterSize(size) && Legal(total, size)
    ensures var fatSize := FatSize(total, size);
            0 < fatSize && 0 < ClusterCount(total, size, fatSize) &&
            FORMAT_RESERVED_SECTORS + FORMAT_FAT_COPIES * fatSize + size <= total
  {
    hide FatSize;
    var fatSize := FatSize(total, size);
    OverFacts(total - FORMAT_RESERVED_SECTORS - fatSize * FORMAT_FAT_COPIES, size);
  }

  /** format_default_cluster. */
  function DefaultCluster(total: nat): (size: nat)
    ensures ClusterSize(size)
  {
    var megabytes := total / 2048;
    if megabytes <= 260 then 1 else if megabytes <= 8192 then 8 else if megabytes <= 16384 then 16
        else if megabytes <= 32768 then 32 else 64
  }

  /** format_choose_cluster: up from the usual size, then down; 0 only when no size at all is legal. */
  method ChooseCluster(total: nat) returns (size: nat)
    requires FORMAT_RESERVED_SECTORS <= total
    ensures size == 0 <==> forall s: nat :: ClusterSize(s) ==> !Legal(total, s)
    ensures size != 0 ==> ClusterSize(size) && Legal(total, size)
    ensures size != 0 ==> forall s: nat :: ClusterSize(s) && Legal(total, s) ==>
              if size >= DefaultCluster(total) then s < DefaultCluster(total) || size <= s else s <= size
  {
    hide Legal;
    var wanted := DefaultCluster(total);
    size := wanted;
    while size <= 128
      invariant ClusterSize(size) || size == 256
      invariant wanted <= size
      invariant forall s: nat :: ClusterSize(s) && wanted <= s < size ==> !Legal(total, s)
      decreases 256 - size
    {
      if Legal(total, size) {
        return;
      }
      size := size * 2;
    }
    size := wanted / 2;
    while size >= 1
      invariant size == 0 || (ClusterSize(size) && size < wanted)
      invariant forall s: nat :: ClusterSize(s) && size < s ==> !Legal(total, s)
    {
      if Legal(total, size) {
        return;
      }
      if size == 1 {
        break;
      }
      size := size / 2;
    }
    return 0;
  }
}
