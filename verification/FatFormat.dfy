/** kernel/fat32.c: writing an empty filesystem over a device, and mounting what was written. */
module FatFormat {
  import opened Numbers
  import opened Words
  import opened LittleEndian
  import opened FatTable
  import opened FatVolume
  import opened FatAllocation
  import opened FatGeometry

  const FORMAT_BACKUP_BOOT_SECTOR := 6
  const FORMAT_MEDIA_DESCRIPTOR := 0xF8

  datatype Layout = Layout(sectorsPerCluster: nat, reserved: nat, fatCount: nat, sectorsPerFat: nat, rootCluster: nat,
      total: nat,
                           firstData: nat, clusterCount: nat)
  datatype Mounting = Refused | Accepted(layout: Layout)

  /** The fields of the boot sector, read, and the checks of fat32_mount on them. */
  function MountLayout(s: Sector): Mounting {
    Accept(Read16(s, 11), s[13], Read16(s, 14), s[16], Read16(s, 17), Read16(s, 22),
           if Read16(s, 19) != 0 then Read16(s, 19) else Read32(s, 32), Read32(s, 36), Read32(s, 44))
  }

  /** The checks, and the geometry worked out in 32 bits. */
  function Accept(bytesPerSector: Half, sectorsPerCluster: Byte, reserved: Half, fatCount: Byte, rootEntries: Half,
                  smallFat: Half,
                  total: Word, sectorsPerFat: Word, root: Word): Mounting {
    if rootEntries != 0 || smallFat != 0 || sectorsPerFat == 0 then Refused
    else if bytesPerSector != SECTOR_SIZE then Refused
    else if sectorsPerCluster == 0 || reserved == 0 || fatCount == 0 || root < 2 then Refused
    else
      var firstData := (reserved + Times(fatCount, sectorsPerFat)) % BASE;
      if total <= firstData then Refused
      else Accepted(Layout(sectorsPerCluster, reserved, fatCount, sectorsPerFat, root, total, firstData,
          Over(total - firstData, sectorsPerCluster)))
  }

  /** Which boot sectors are mounted, in the fields' own places and plain arithmetic: no root directory of a fixed
      size, no 16-bit table size, sectors of 512 bytes, nothing empty, a root cluster there can be, and more sectors
      than come before the data. The data starts after the reserved sectors and every copy of the table, modulo 2^32,
      and has a cluster for each whole run of sectors behind that. */
  lemma MountsWhat(s: Sector)
    ensures var total := if Read16(s, 19) != 0 then Read16(s, 19) as int else Read32(s, 32) as int;
            var start := (Read16(s, 14) as int + s[16] as int * Read32(s, 36) as int) % 0x1_0000_0000;
            MountLayout(s).Accepted? <==>
              Read16(s, 17) == 0 && Read16(s, 22) == 0 && Read16(s, 11) == 512 && 0 < s[13] && 0 < Read16(s, 14) &&
              0 < s[16] && 0 < Read32(s, 36) && 2 <= Read32(s, 44) && start < total
    ensures MountLayout(s).Accepted? ==>
              var l := MountLayout(s).layout;
              l.sectorsPerCluster == s[13] && l.reserved == Read16(s, 14) && l.fatCount == s[16] &&
              l.sectorsPerFat == Read32(s, 36) && l.rootCluster == Read32(s, 44) &&
              l.firstData == (Read16(s, 14) as int + s[16] as int * Read32(s, 36) as int) % 0x1_0000_0000 &&
              l.total == (if Read16(s, 19) != 0 then Read16(s, 19) as int else Read32(s, 32) as int) &&
              l.clusterCount * s[13] as int <= l.total - l.firstData < (l.clusterCount + 1) * s[13] as int
  {
    hide Read16, Read32, Times, Over;
    TimesIsProduct(s[16], Read32(s, 36));
    var mounting := MountLayout(s);
    if mounting.Accepted? {
      OverIsBetween(mounting.layout.total - mounting.layout.firstData, s[13]);
    }
  }

  lemma OverIsBetween(x: nat, d: nat)
    requires 0 < d
    ensures Over(x, d) * d <= x < (Over(x, d) + 1) * d
  {
    OverFacts(x, d);
    hide Over;
    DivModFacts(x, d);
    assert (x / d + 1) * d == d * (x / d) + d;
  }

  lemma AcceptTwoCopies(size: Byte, total: Word, fatSize: Word)
    requires size != 0 && 0 < fatSize && FORMAT_RESERVED_SECTORS + FORMAT_FAT_COPIES * fatSize < BASE
    ensures Accept(SECTOR_SIZE, size, FORMAT_RESERVED_SECTORS, FORMAT_FAT_COPIES, 0, 0, total, fatSize,
            FORMAT_ROOT_CLUSTER)
         == var firstData := FORMAT_RESERVED_SECTORS + FORMAT_FAT_COPIES * fatSize;
            if total <= firstData then Refused
            else Accepted(Layout(size, FORMAT_RESERVED_SECTORS, FORMAT_FAT_COPIES, fatSize, FORMAT_ROOT_CLUSTER, total,
                firstData, Over(total - firstData, size)))
  {
    TimesIsProduct(2, fatSize);
  }

  /** What the boot sector of a freshly formatted volume says. */
  predicate BootSays(s: Sector, count: nat, size: nat, fatSize: Word) {
    Read16(s, 11) == SECTOR_SIZE && s[13] == size && Read16(s, 14) == FORMAT_RESERVED_SECTORS &&
    s[16] == FORMAT_FAT_COPIES &&
    Read16(s, 17) == 0 && Read16(s, 19) == 0 && Read16(s, 22) == 0 && Read32(s, 32) == count % BASE &&
    Read32(s, 36) == fatSize &&
    Read32(s, 44) == FORMAT_ROOT_CLUSTER
  }

  /** A number of clusters that lost the multiples of 2^32 above it is the number the rest alone gives exactly when
      the lost sectors come to a multiple of 2^32 clusters. */
  lemma CountsAgree(rest: nat, lost: nat, size: nat)
    requires rest < BASE && ClusterSize(size)
    ensures Over(rest + lost * BASE, size) % BASE == Over(rest, size) <==> lost % size == 0
  {
    hide Over;
    OverFacts(rest, size);
    OverFacts(rest + lost * BASE, size);
    LostCounts(rest, lost, size, BASE / size);
  }

  lemma LostCounts(rest: nat, lost: nat, size: nat, part: nat)
    requires rest < BASE && 0 < size && 0 < part && BASE == size * part
    ensures (rest + lost * BASE) / size % BASE == rest / size <==> lost % size == 0
  {
    var few, tail, whole, over := rest / size, rest % size, lost / size, lost % size;
    DivModFacts(rest, size);
    DivModFacts(lost, size);
    DivBelow(rest, size, part);
    DivNotNegative(rest, size);
    DivNotNegative(lost, size);
    LostParts(few, tail, whole, over, size, part);
    DivModUnique(rest + lost * BASE, size, few + lost * part, tail);
    DivModUnique(few + lost * part, BASE, whole, few + over * part);
    MulAway(part, over);
  }

  lemma DivNotNegative(x: nat, n: nat)
    requires 0 < n
    ensures 0 <= x / n
  {
  }

  lemma LostParts(few: nat, tail: nat, whole: nat, over: nat, size: nat, part: nat)
    requires 0 < size && size * part == BASE && few < part && over < size
    ensures size * few + tail + (size * whole + over) * BASE == size * (few + (size * whole + over) * part) + tail
    ensures few + (size * whole + over) * part == BASE * whole + (few + over * part) && few + over * part < BASE
  {
    var lost := size * whole + over;
    assert lost * BASE == lost * (size * part) == size * (lost * part);
    assert (size * whole) * part == whole * (size * part);
    MulMono(over, part, size - 1, part);
  }

  /** When a mount finds the number of clusters the formatter worked out, for every count and every legal size. The
      boot sector and the mount keep 32 bits of the count and of where the data starts. */
  lemma MountsExactly(s: Sector, count: nat, size: nat)
    requires FORMAT_RESERVED_SECTORS < count && ClusterSize(size) && Legal(count, size) &&
             BootSays(s, count, size, FatSize(count, size))
    ensures var data := FORMAT_RESERVED_SECTORS + FORMAT_FAT_COPIES * FatSize(count, size);
            (MountLayout(s).Accepted? && MountLayout(s).layout.clusterCount == ClusterCount(count, size,
               FatSize(count, size)))
              <==> data % BASE < count % BASE && (count / BASE - data / BASE) % size == 0
  {
    hide FatSize, Legal, Read16, Read32;
    hide Over, Times;
    LegalRoom(count, size);
    var fatSize := FatSize(count, size);
    var data := FORMAT_RESERVED_SECTORS + FORMAT_FAT_COPIES * fatSize;
    TimesIsProduct(2, fatSize);
    if data % BASE < count % BASE {
      CountsAgree(count % BASE - data % BASE, count / BASE - data / BASE, size);
      assert count - data == count % BASE - data % BASE + (count / BASE - data / BASE) * BASE;
    }
  }

  /** Below 2^32 sectors that is always so, and the mount finds the whole layout the formatter chose. */
  lemma MountsAsFormatted(s: Sector, count: nat, size: nat)
    requires FORMAT_RESERVED_SECTORS < count < BASE && ClusterSize(size) && Legal(count, size) &&
             BootSays(s, count, size, FatSize(count, size))
    ensures var fatSize := FatSize(count, size);
            var clusters := ClusterCount(count, size, fatSize);
            MountLayout(s) == Accepted(Layout(size, FORMAT_RESERVED_SECTORS, FORMAT_FAT_COPIES, fatSize,
            FORMAT_ROOT_CLUSTER, count,
                                              FORMAT_RESERVED_SECTORS + FORMAT_FAT_COPIES * fatSize, clusters))
  {
    hide FatSize, ClusterCount, Legal, Read16, Read32, Accept;
    LayoutFits(count, size);
    FatSizeNotZero(count, size);
    MulMono(1, 1, ClusterCount(count, size, FatSize(count, size)), size);
    AcceptTwoCopies(size, count, FatSize(count, size));
  }

  /** From 2^32 to 2^34 sectors the formatter goes ahead with clusters of 64 sectors, */
  lemma LargeIsLegal(count: nat)
    requires BASE <= count < 4 * BASE
    ensures DefaultCluster(count) == 64 && Legal(count, 64)
  {
    hide FatSize;
    Large64(count);
    var fatSize := FatSize(count, 64);
    assert 0x3F0_0000 <= (count - 32 - 2 * fatSize) / 64 <= FAT32_MAXIMUM_CLUSTERS;
  }

  /** and no mount finds them all again. */
  lemma TooManySectors(s: Sector, count: nat)
    requires BASE <= count < 4 * BASE && BootSays(s, count, 64, FatSize(count, 64))
    ensures !(MountLayout(s).Accepted? && MountLayout(s).layout.clusterCount == ClusterCount(count, 64,
            FatSize(count, 64)))
  {
    hide FatSize, BootSays, MountLayout, Legal, ClusterCount;
    LargeIsLegal(count);
    assert FORMAT_RESERVED_SECTORS + FORMAT_FAT_COPIES * FatSize(count, 64) < BASE by {
      Large64(count);
    }
    MountsExactly(s, count, 64);
    FewLost(count, FORMAT_RESERVED_SECTORS + FORMAT_FAT_COPIES * FatSize(count, 64));
  }

  lemma FewLost(count: nat, data: nat)
    requires BASE <= count < 4 * BASE && data < BASE
    ensures (count / BASE - data / BASE) % 64 != 0
  {
  }

  /** A disk of ten terabytes gets clusters of 128 sectors, and is not mounted as it was formatted. */
  lemma TenTerabytes(s: Sector)
    requires BootSays(s, 19532873728, 128, FatSize(19532873728, 128))
    ensures !Legal(19532873728, 64) && Legal(19532873728, 128)
    ensures !(MountLayout(s).Accepted? && MountLayout(s).layout.clusterCount == ClusterCount(19532873728, 128,
            FatSize(19532873728, 128)))
  {
    hide FatSize, BootSays, MountLayout;
    Large64(19532873728);
    Large128(19532873728);
    MountsExactly(s, 19532873728, 128);
  }

  /** The exact condition is not the size alone: here both counts have lost the same, and the mount agrees. */
  lemma AgreesAgain(s: Sector)
    requires BootSays(s, 0x40_8000_0000, 64, FatSize(0x40_8000_0000, 64))
    ensures Legal(0x40_8000_0000, 64)
    ensures MountLayout(s).Accepted? && MountLayout(s).layout.clusterCount == ClusterCount(0x40_8000_0000, 64,
            FatSize(0x40_8000_0000, 64))
  {
    hide FatSize, BootSays, MountLayout;
    Large64(0x40_8000_0000);
    MountsExactly(s, 0x40_8000_0000, 64);
  }

  /** The layout of a large volume, with its divisions by constants. */
  lemma Large64(count: nat)
    requires BASE <= count < 0x80 * BASE
    ensures FatSize(count, 64) == (count + 8160) / 8193 && FORMAT_RESERVED_SECTORS + 2 * FatSize(count, 64) < BASE
    ensures ClusterCount(count, 64, FatSize(count, 64)) == (count - 32 - 2 * FatSize(count, 64)) / 64 % BASE
  {
    assert (256 * 64 + FORMAT_FAT_COPIES) / 2 == 8193;
    var fatSize := FatSize(count, 64);
    assert fatSize == (count + 8160) / 8193;
    hide FatSize;
    OverFacts(count - 32 - 2 * fatSize, 64);
  }

  lemma Large128(count: nat)
    requires BASE <= count < 0x80 * BASE
    ensures FatSize(count, 128) == (count + 16352) / 16385 && FORMAT_RESERVED_SECTORS + 2 * FatSize(count, 128) < BASE
    ensures ClusterCount(count, 128, FatSize(count, 128)) == (count - 32 - 2 * FatSize(count, 128)) / 128 % BASE
  {
    assert (256 * 128 + FORMAT_FAT_COPIES) / 2 == 16385;
    var fatSize := FatSize(count, 128);
    assert fatSize == (count + 16352) / 16385;
    hide FatSize;
    OverFacts(count - 32 - 2 * fatSize, 128);
  }

  lemma FatSizeNotZero(count: nat, size: nat)
    requires FORMAT_RESERVED_SECTORS <= count && ClusterSize(size) && Legal(count, size)
    ensures 0 < FatSize(count, size)
  {
  }

  // ---- Writing ------------------------------------------------------------------

  /** The fields a mount reads. */
  method GeometryFields(a: array<Byte>, count: nat, size: Byte, fatSize: Word)
    requires a.Length == SECTOR_SIZE && ClusterSize(size) && forall i :: 0 <= i < a.Length ==> a[i] == 0
    modifies a
    ensures BootSays(a[..], count, size, fatSize)
    ensures forall i :: 0 <= i < 11 || 17 <= i < 32 || 40 <= i < 44 || 48 <= i < a.Length ==> a[i] == 0
  {
    SectorFields(a, size);
    Write32(a, 32, count % BASE);
    Write32(a, 36, fatSize);
    Write32(a, 44, FORMAT_ROOT_CLUSTER);
  }

  method SectorFields(a: array<Byte>, size: Byte)
    requires a.Length == SECTOR_SIZE
    modifies a
    ensures Read16(a[..], 11) == SECTOR_SIZE && a[13] == size && Read16(a[..], 14) == FORMAT_RESERVED_SECTORS &&
            a[16] == FORMAT_FAT_COPIES
    ensures forall i :: 0 <= i < 11 || 17 <= i < a.Length ==> a[i] == old(a[i])
  {
    Write16(a, 11, SECTOR_SIZE);
    a[13] := size;
    Write16(a, 14, FORMAT_RESERVED_SECTORS);
    a[16] := FORMAT_FAT_COPIES;
  }

  /** Eleven bytes, padded with spaces. */
  function Label11(volumeLabel: seq<Byte>): (s: seq<Byte>)
    ensures |s| == 11
  {
    seq(11, i requires 0 <= i < 11 => if i < |volumeLabel| then volumeLabel[i] else 0x20)
  }

  method PutBytes(a: array<Byte>, at: nat, bytes: seq<Byte>)
    requires at + |bytes| <= a.Length
    modifies a
    ensures a[at..at + |bytes|] == bytes
    ensures forall i :: 0 <= i < a.Length && !(at <= i < at + |bytes|) ==> a[i] == old(a[i])
  {
    forall i | 0 <= i < |bytes| {
      a[at + i] := bytes[i];
    }
  }

  /** The fields nothing here reads back, but other systems do: the jump and the system's name, the media, a geometry
      nobody uses, where the volume starts, and where FSInfo and the spare boot sector are. */
  predicate FrontMarks(s: seq<Byte>, firstSector: nat) {
    |s| == SECTOR_SIZE && s[..11] == [0xEB, 0x58, 0x90, 0x4D, 0x53, 0x57, 0x49, 0x4E, 0x34, 0x2E, 0x31] &&
    s[21] == 0xF8 && Read16(s, 24) == 63 && Read16(s, 26) == 255 && Read32(s, 28) == firstSector % 0x1_0000_0000 &&
    Read16(s, 40) == 0 && Read16(s, 42) == 0 && Read16(s, 48) == 1 && Read16(s, 50) == 6
  }

  /** And behind those the drive, the volume's serial number and label, the kind of file system, and the signature. */
  predicate BackMarks(s: seq<Byte>, serial: Word, volumeLabel: seq<Byte>) {
    |s| == SECTOR_SIZE && s[64] == 0x80 && s[66] == 0x29 && Read32(s, 67) == serial &&
    (forall i :: 0 <= i < 11 ==> s[71 + i] == if i < |volumeLabel| then volumeLabel[i] else ' ' as int) &&
    s[82..90] == [0x46, 0x41, 0x54, 0x33, 0x32, 0x20, 0x20, 0x20] && s[510] == 0x55 && s[511] == 0xAA
  }

  method FrontFields(a: array<Byte>, firstSector: nat)
    requires a.Length == SECTOR_SIZE && forall i :: 40 <= i < 44 ==> a[i] == 0
    modifies a
    ensures FrontMarks(a[..], firstSector)
    ensures forall i :: 11 <= i < 21 || 22 <= i < 24 || 32 <= i < 48 || 52 <= i < a.Length ==> a[i] == old(a[i])
  {
    NameFields(a);
    ghost var named := a[..];
    OldFields(a, firstSector);
    ghost var placed := a[..];
    PlaceFields(a);
    MarksJoin(named, placed, a[..], firstSector);
  }

  method NameFields(a: array<Byte>)
    requires a.Length == SECTOR_SIZE
    modifies a
    ensures a[..11] == [0xEB, 0x58, 0x90, 0x4D, 0x53, 0x57, 0x49, 0x4E, 0x34, 0x2E, 0x31] && a[21] == 0xF8
    ensures forall i :: 11 <= i < 21 || 22 <= i < a.Length ==> a[i] == old(a[i])
  {
    PutBytes(a, 0, [0xEB, 0x58, 0x90]);
    PutBytes(a, 3, [0x4D, 0x53, 0x57, 0x49, 0x4E, 0x34, 0x2E, 0x31]);
    assert a[..11] == a[0..3] + a[3..11];
    ghost var name := a[..11];
    a[21] := FORMAT_MEDIA_DESCRIPTOR;
    assert a[..11] == name;
  }

  method PlaceFields(a: array<Byte>)
    requires a.Length == SECTOR_SIZE
    modifies a
    ensures Read16(a[..], 48) == 1 && Read16(a[..], 50) == 6
    ensures forall i :: 0 <= i < 48 || 52 <= i < a.Length ==> a[i] == old(a[i])
  {
    Write16(a, 48, FSINFO_SECTOR);
    Write16(a, 50, FORMAT_BACKUP_BOOT_SECTOR);
  }

  lemma MarksJoin(named: Sector, placed: Sector, s: Sector, firstSector: nat)
    requires named[..11] == [0xEB, 0x58, 0x90, 0x4D, 0x53, 0x57, 0x49, 0x4E, 0x34, 0x2E, 0x31] && named[21] == 0xF8
    requires Read16(placed, 24) == 63 && Read16(placed, 26) == 255 && Read32(placed, 28) == firstSector % BASE
    requires Read16(s, 48) == 1 && Read16(s, 50) == 6 && Read16(s, 40) == 0 && Read16(s, 42) == 0
    requires forall i :: 0 <= i < 24 ==> placed[i] == named[i]
    requires forall i :: 0 <= i < 48 ==> s[i] == placed[i]
    ensures FrontMarks(s, firstSector)
  {
    assert s[..11] == named[..11];
  }

  method OldFields(a: array<Byte>, firstSector: nat)
    requires a.Length == SECTOR_SIZE
    modifies a
    ensures Read16(a[..], 24) == 63 && Read16(a[..], 26) == 255 && Read32(a[..], 28) == firstSector % BASE
    ensures forall i :: 0 <= i < 24 || 32 <= i < a.Length ==> a[i] == old(a[i])
  {
    Write16(a, 24, 63);
    Write16(a, 26, 255);
    Write32(a, 28, firstSector % BASE);
  }

  method BackFields(a: array<Byte>, serial: Word, volumeLabel: seq<Byte>)
    requires a.Length == SECTOR_SIZE
    modifies a
    ensures BackMarks(a[..], serial, volumeLabel)
    ensures forall i :: 0 <= i < 64 || i == 65 || 90 <= i < 510 ==> a[i] == old(a[i])
  {
    a[64], a[66] := 0x80, 0x29;
    Write32(a, 67, serial);
    PutBytes(a, 71, Label11(volumeLabel));
    ghost var named := a[71..82];
    PutBytes(a, 82, [0x46, 0x41, 0x54, 0x33, 0x32, 0x20, 0x20, 0x20]);
    a[510], a[511] := 0x55, 0xAA;
    assert a[71..82] == named;
  }

  /** The boot sector. */
  method BootSector(firstSector: nat, count: nat, size: Byte, fatSize: Word, volumeLabel: seq<Byte>,
                    serial: Word) returns (s: Sector)
    requires ClusterSize(size)
    ensures BootSays(s, count, size, fatSize) && FrontMarks(s, firstSector) && BackMarks(s, serial, volumeLabel)
    ensures forall i :: 52 <= i < 64 || i == 65 || 90 <= i < 510 ==> s[i] == 0
  {
    hide FrontMarks, BackMarks, BootSays;
    var a := new Byte[SECTOR_SIZE](_ => 0);
    GeometryFields(a, count, size, fatSize);
    ghost var before := a[..];
    FrontFields(a, firstSector);
    ghost var middle := a[..];
    BackFields(a, serial, volumeLabel);
    s := a[..];
    SaysStill(before, s, count, size, fatSize);
    MarksStill(middle, s, firstSector);
  }

  lemma MarksStill(before: Sector, s: Sector, firstSector: nat)
    requires FrontMarks(before, firstSector) && forall i :: 0 <= i < 64 ==> s[i] == before[i]
    ensures FrontMarks(s, firstSector)
  {
    assert s[..11] == before[..11];
  }

  lemma SaysStill(before: Sector, s: Sector, count: nat, size: nat, fatSize: Word)
    requires BootSays(before, count, size, fatSize)
    requires forall i :: 11 <= i < 21 || 22 <= i < 24 || 32 <= i < 40 || 44 <= i < 48 ==> s[i] == before[i]
    ensures BootSays(s, count, size, fatSize)
  {
  }

  const FSINFO_TRAIL_SIGNATURE := 0xAA55_0000

  /** FSInfo: the root directory has taken one cluster, and the next is number 3. */
  method InfoSector(clusters: Word) returns (s: Sector)
    requires 0 < clusters
    ensures Signed(s) && Read32(s, FSINFO_FREE_COUNT_OFFSET) == clusters - 1 &&
            Read32(s, FSINFO_NEXT_FREE_OFFSET) == FORMAT_ROOT_CLUSTER + 1 &&
            Read32(s, 508) == FSINFO_TRAIL_SIGNATURE
  {
    var a := new Byte[SECTOR_SIZE](_ => 0);
    Write32(a, 0, FSINFO_LEAD_SIGNATURE);
    Write32(a, 484, FSINFO_STRUCT_SIGNATURE);
    Write32(a, FSINFO_FREE_COUNT_OFFSET, clusters - 1);
    Write32(a, FSINFO_NEXT_FREE_OFFSET, FORMAT_ROOT_CLUSTER + 1);
    Write32(a, 508, FSINFO_TRAIL_SIGNATURE);
    s := a[..];
  }

  const FORMAT_CHUNK_SECTORS := 256

  /** format_fill. */
  method Fill(disk: array<Sector>, first: nat, count: nat)
    requires first + count <= disk.Length
    modifies disk
    ensures forall i :: 0 <= i < disk.Length ==> disk[i] == if first <= i < first + count then BLANK else old(disk[i])
  {
    var written := 0;
    while written < count
      invariant written <= count
      invariant forall i :: 0 <= i < disk.Length ==> disk[i] == if first <= i < first + written then BLANK
                else old(disk[i])
    {
      var chunk := if count - written > FORMAT_CHUNK_SECTORS then FORMAT_CHUNK_SECTORS else count - written;
      forall i | 0 <= i < chunk {
        disk[first + written + i] := BLANK;
      }
      written := written + chunk;
    }
  }

  /** The first sector of the table: the media byte, the reserved entry, and the root directory's one cluster. */
  predicate FirstEntries(s: Sector) {
    Read32(s, 0) == 0x0FFF_FF00 + FORMAT_MEDIA_DESCRIPTOR && Read32(s, 4) == LAST && Read32(s, 8) == LAST &&
    forall i :: 12 <= i < SECTOR_SIZE ==> s[i] == 0
  }

  method TableSector() returns (s: Sector)
    ensures FirstEntries(s)
  {
    var a := new Byte[SECTOR_SIZE](_ => 0);
    Write32(a, 0, 0x0FFF_FF00 + FORMAT_MEDIA_DESCRIPTOR);
    Write32(a, 4, LAST);
    Write32(a, 8, LAST);
    s := a[..];
  }

  /** The volume's first sector of data: empty, or with the label's entry. */
  predicate RootSays(s: Sector, volumeLabel: seq<Byte>) {
    (forall i :: 12 <= i < SECTOR_SIZE ==> s[i] == 0) &&
    if |volumeLabel| == 0 then forall i :: 0 <= i < 12 ==> s[i] == 0
    else s[..11] == Label11(volumeLabel) && s[11] == 0x08
  }

  method RootSector(volumeLabel: seq<Byte>) returns (s: Sector)
    requires |volumeLabel| > 0
    ensures RootSays(s, volumeLabel)
  {
    var a := new Byte[SECTOR_SIZE](_ => 0);
    PutBytes(a, 0, Label11(volumeLabel));
    a[11] := 0x08;
    s := a[..];
    assert a[..11] == a[0..11];
  }

  predicate IsBlank(s: Sector) {
    forall i :: 0 <= i < SECTOR_SIZE ==> s[i] == 0
  }

  /** The boot sector and FSInfo, each with its spare. */
  ghost predicate FrontWritten(disk: seq<Sector>, size: nat, fatSize: Word, clusters: Word) {
    FORMAT_RESERVED_SECTORS <= |disk| && 0 < clusters &&
    BootSays(disk[0], |disk|, size, fatSize) && disk[FORMAT_BACKUP_BOOT_SECTOR] == disk[0] &&
    Signed(disk[1]) && Read32(disk[1], FSINFO_FREE_COUNT_OFFSET) == clusters - 1 &&
    Read32(disk[1], FSINFO_NEXT_FREE_OFFSET) == 3 &&
    disk[FORMAT_BACKUP_BOOT_SECTOR + 1] == disk[1]
  }

  /** Both copies of the table: every cluster free but the root directory's. */
  ghost predicate TablesWritten(disk: seq<Sector>, fatSize: Word) {
    var data := FORMAT_RESERVED_SECTORS + 2 * fatSize;
    0 < fatSize && data <= |disk| &&
    FirstEntries(disk[FORMAT_RESERVED_SECTORS]) &&
    disk[FORMAT_RESERVED_SECTORS + fatSize] == disk[FORMAT_RESERVED_SECTORS] &&
    (forall i :: FORMAT_RESERVED_SECTORS < i < data && i != FORMAT_RESERVED_SECTORS + fatSize ==> IsBlank(disk[i]))
  }

  ghost predicate RootWritten(disk: seq<Sector>, root: nat, size: nat, volumeLabel: seq<Byte>) {
    0 < size && root + size <= |disk| &&
    RootSays(disk[root], volumeLabel) && forall i :: root < i < root + size ==> IsBlank(disk[i])
  }

  /** What a freshly formatted device holds. */
  ghost predicate Formatted(disk: seq<Sector>, size: nat, fatSize: Word, clusters: Word, volumeLabel: seq<Byte>) {
    FrontWritten(disk, size, fatSize, clusters) && TablesWritten(disk, fatSize) &&
    RootWritten(disk, FORMAT_RESERVED_SECTORS + 2 * fatSize, size, volumeLabel)
  }

  method WriteFront(disk: array<Sector>, firstSector: nat, size: Byte, fatSize: Word, clusters: Word,
                    volumeLabel: seq<Byte>, serial: Word)
    requires FORMAT_RESERVED_SECTORS <= disk.Length && ClusterSize(size) && 0 < clusters
    modifies disk
    ensures FrontWritten(disk[..], size, fatSize, clusters)
    ensures FrontMarks(disk[0], firstSector) && BackMarks(disk[0], serial, volumeLabel) &&
            Read32(disk[1], 508) == 0xAA55_0000
    ensures forall i :: 2 <= i < disk.Length && i != 6 && i != 7 ==> disk[i] == old(disk[i])
  {
    hide BootSays, Signed, Read32, FrontMarks, BackMarks;
    var boot := BootSector(firstSector, disk.Length, size, fatSize, volumeLabel, serial);
    disk[0] := boot;
    disk[FORMAT_BACKUP_BOOT_SECTOR] := boot;
    var info := InfoSector(clusters);
    disk[FSINFO_SECTOR] := info;
    disk[FORMAT_BACKUP_BOOT_SECTOR + FSINFO_SECTOR] := info;
  }

  method WriteTables(disk: array<Sector>, fatSize: Word)
    requires 0 < fatSize && FORMAT_RESERVED_SECTORS + 2 * fatSize <= disk.Length
    modifies disk
    ensures TablesWritten(disk[..], fatSize)
    ensures disk[..FORMAT_RESERVED_SECTORS] == old(disk[..FORMAT_RESERVED_SECTORS])
    ensures forall i :: FORMAT_RESERVED_SECTORS + 2 * fatSize <= i < disk.Length ==> disk[i] == old(disk[i])
  {
    hide FirstEntries, IsBlank;
    BlankIsBlank([]);
    Fill(disk, FORMAT_RESERVED_SECTORS, fatSize);
    Fill(disk, FORMAT_RESERVED_SECTORS + fatSize, fatSize);
    var entries := TableSector();
    disk[FORMAT_RESERVED_SECTORS] := entries;
    disk[FORMAT_RESERVED_SECTORS + fatSize] := entries;
  }

  method WriteRoot(disk: array<Sector>, root: nat, size: nat, volumeLabel: seq<Byte>)
    requires 0 < size && root + size <= disk.Length
    modifies disk
    ensures RootWritten(disk[..], root, size, volumeLabel) && disk[..root] == old(disk[..root])
    ensures forall i :: root + size <= i < disk.Length ==> disk[i] == old(disk[i])
  {
    hide RootSays, IsBlank;
    BlankIsBlank(volumeLabel);
    Fill(disk, root, size);
    if |volumeLabel| > 0 {
      var named := RootSector(volumeLabel);
      disk[root] := named;
    }
  }

  lemma StillWritten(disk: seq<Sector>, before: seq<Sector>, size: nat, fatSize: Word, clusters: Word, upto: nat)
    requires |disk| == |before| && FORMAT_RESERVED_SECTORS <= upto <= |disk| && disk[..upto] == before[..upto]
    ensures FrontWritten(before, size, fatSize, clusters) ==> FrontWritten(disk, size, fatSize, clusters)
    ensures TablesWritten(before, fatSize) && FORMAT_RESERVED_SECTORS + 2 * fatSize <= upto ==>
            TablesWritten(disk, fatSize)
  {
    hide BootSays, Signed, Read32, FirstEntries, IsBlank;
    assert forall i :: 0 <= i < upto ==> disk[i] == disk[..upto][i] == before[..upto][i] == before[i];
  }

  lemma BlankIsBlank(volumeLabel: seq<Byte>)
    ensures IsBlank(BLANK) && (|volumeLabel| == 0 ==> RootSays(BLANK, volumeLabel))
  {
  }

  /** fat32_format, over a device that is all for it: refused only when no cluster size is legal. */
  method Format(disk: array<Sector>, firstSector: nat, volumeLabel: seq<Byte>, serial: Word) returns (ok: bool,
                ghost size: nat)
    requires disk.Length < BASE64
    modifies disk
    ensures !ok ==> disk[..] == old(disk[..])
    ensures ok <==>
            disk.Length >= FORMAT_RESERVED_SECTORS + 4 && exists s: nat :: ClusterSize(s) && Legal(disk.Length, s)
    ensures ok ==> ClusterSize(size) && Legal(disk.Length, size) &&
                   Formatted(disk[..], size, FatSize(disk.Length, size), ClusterCount(disk.Length, size,
                   FatSize(disk.Length, size)), volumeLabel)
    ensures ok ==> FrontMarks(disk[0], firstSector) && BackMarks(disk[0], serial, volumeLabel) &&
                   Read32(disk[1], 508) == 0xAA55_0000
    ensures ok ==> forall i :: 2 <= i < 6 || 8 <= i < 32 ==> disk[i] == old(disk[i])
    ensures ok ==> forall i :: 32 + 2 * FatSize(disk.Length, size) + size <= i < disk.Length ==> disk[i] == old(disk[i])
  {
    hide FatSize, ClusterCount, Legal, FrontWritten, TablesWritten, RootWritten, FrontMarks, BackMarks, Read32;
    if disk.Length < FORMAT_RESERVED_SECTORS + 4 {
      return false, 0;
    }
    var sectorsPerCluster := ChooseCluster(disk.Length);
    size := sectorsPerCluster;
    if sectorsPerCluster == 0 {
      return false, 0;
    }
    LegalRoom(disk.Length, size);
    var fatSize := FatSize(disk.Length, sectorsPerCluster);
    var clusters := ClusterCount(disk.Length, sectorsPerCluster, fatSize);
    WriteFront(disk, firstSector, sectorsPerCluster, fatSize, clusters, volumeLabel, serial);
    ghost var front := disk[..];
    WriteTables(disk, fatSize);
    StillWritten(disk[..], front, size, fatSize, clusters, FORMAT_RESERVED_SECTORS);
    ghost var tables := disk[..];
    WriteRoot(disk, FORMAT_RESERVED_SECTORS + fatSize * FORMAT_FAT_COPIES, sectorsPerCluster, volumeLabel);
    StillWritten(disk[..], tables, size, fatSize, clusters, FORMAT_RESERVED_SECTORS + 2 * fatSize);
    ok := true;
  }

  // ---- Mounting ---------------------------------------------------------------------

  /** A layout the device has room for, with a table entry for every cluster. */
  predicate Sound(l: Layout, length: nat) {
    0 < l.sectorsPerCluster < 256 && 2 <= l.reserved && 0 < l.fatCount && l.firstData == l.reserved + Times(l.fatCount,
    l.sectorsPerFat) &&
    l.clusterCount + 2 <= PER_SECTOR * l.sectorsPerFat && l.clusterCount + 2 <= BAD &&
    l.firstData + Times(l.clusterCount, l.sectorsPerCluster) <= length
  }

  /** A freshly formatted device below 2^32 sectors is mounted, and its layout is sound. */
  lemma FormattedSound(disk: seq<Sector>, size: nat, volumeLabel: seq<Byte>)
    requires |disk| < BASE && ClusterSize(size) && FORMAT_RESERVED_SECTORS < |disk| && Legal(|disk|, size)
    requires Formatted(disk, size, FatSize(|disk|, size), ClusterCount(|disk|, size, FatSize(|disk|, size)),
             volumeLabel)
    ensures MountLayout(disk[0]).Accepted? && Sound(MountLayout(disk[0]).layout, |disk|) &&
            MountLayout(disk[0]).layout.rootCluster == FORMAT_ROOT_CLUSTER
  {
    hide FatSize, ClusterCount, Legal, MountLayout, FrontWritten, TablesWritten, RootWritten;
    var fatSize, clusters := FatSize(|disk|, size), ClusterCount(|disk|, size, FatSize(|disk|, size));
    FrontReads(disk, size, fatSize, clusters);
    MountsAsFormatted(disk[0], |disk|, size);
    LayoutFits(|disk|, size);
    TimesIsProduct(2, fatSize);
    TimesIsProduct(clusters, size);
  }

  const FSINFO_UNKNOWN := 0xFFFF_FFFF

  /** The mount record for a layout, with the free figure and the search position FSInfo gives when they are
      plausible. */
  ghost predicate MountedAs(v: Volume, l: Layout)
    reads v, v.disk
  {
    2 <= v.disk.Length && v.sectorsPerCluster == l.sectorsPerCluster && v.reserved == l.reserved &&
    v.fatCount == l.fatCount &&
    v.sectorsPerFat == l.sectorsPerFat && v.clusterCount == l.clusterCount && v.firstData == l.firstData &&
    l.reserved + l.sectorsPerFat <= v.disk.Length &&
    v.table == TableOn(v.disk[l.reserved..l.reserved + l.sectorsPerFat]) &&
    (forall relative: nat :: relative in v.apart ==> relative < v.sectorsPerFat && !v.CopiesAgree(relative)) &&
       !v.cacheDirty &&
    var info := v.disk[FSINFO_SECTOR];
    var free, next := Read32(info, FSINFO_FREE_COUNT_OFFSET), Read32(info, FSINFO_NEXT_FREE_OFFSET);
    v.freeKnown == (Signed(info) && free != FSINFO_UNKNOWN && free <= v.clusterCount) &&
    (v.freeKnown ==> v.freeBytes == Times(free, v.ClusterBytes())) &&
    v.searchHint == if Signed(info) && 2 <= next < v.Total() then next else 0
  }

  /** fat32_mount. */
  method Mount(disk: array<Sector>) returns (v: Volume?)
    requires 2 <= disk.Length && (MountLayout(disk[0]).Accepted? ==> Sound(MountLayout(disk[0]).layout, disk.Length))
    ensures v == null <==> MountLayout(disk[0]).Refused?
    ensures v != null ==> v.disk == disk && v.Valid() && MountedAs(v, MountLayout(disk[0]).layout)
  {
    hide MountLayout, Read32, Signed, TableOn, Holds;
    var mounting := MountLayout(disk[0]);
    if mounting.Refused? {
      return null;
    }
    var l := mounting.layout;
    v := new Volume(disk, l.sectorsPerCluster, l.reserved, l.fatCount, l.sectorsPerFat, l.clusterCount);
    var info := disk[FSINFO_SECTOR];
    if Signed(info) {
      var free, next := Read32(info, FSINFO_FREE_COUNT_OFFSET), Read32(info, FSINFO_NEXT_FREE_OFFSET);
      if free != FSINFO_UNKNOWN && free <= v.clusterCount {
        v.freeBytes := Times(free, v.ClusterBytes());
        v.freeKnown := true;
      }
      if 2 <= next < v.Total() {
        v.searchHint := next;
      }
    }
  }

  lemma BlankEntry(s: Sector, slot: nat)
    requires slot < PER_SECTOR && forall i :: 4 * slot <= i < 4 * slot + 4 ==> s[i] == 0
    ensures Read32(s, 4 * slot) == 0
  {
  }

  /** The entries of a fresh table: the root directory's cluster is taken, every other is free. */
  lemma FreshTable(sectors: seq<Sector>, total: nat)
    requires 0 < |sectors| && 3 <= total <= PER_SECTOR * |sectors| && FirstEntries(sectors[0])
    requires forall r :: 0 < r < |sectors| ==> IsBlank(sectors[r])
    ensures var t := TableOn(sectors);
            t[2] == LAST && (forall c :: 3 <= c < total ==> t[c] == 0) && FreeCount(t, 2, total) == total - 3 &&
            Chain(t, total, [2])
  {
    hide Read32;
    var t := TableOn(sectors);
    forall c | 3 <= c < total
      ensures t[c] == 0
    {
      BlankEntry(sectors[c / PER_SECTOR], c % PER_SECTOR);
    }
    CountFresh(t, total);
  }

  lemma {:induction false} CountFresh(t: Table, high: nat)
    requires 3 <= high <= |t| && t[2] == LAST && forall c :: 3 <= c < high ==> t[c] == 0
    ensures FreeCount(t, 2, high) == high - 3
  {
    if high > 3 {
      CountFresh(t, high - 1);
    } else {
      assert FreeCount(t, 2, 2) == 0;
    }
  }

  /** A volume formatted and mounted: both copies of the table agree, the free figure FSInfo gave is exact, and the
      root directory is a chain of one cluster. */
  lemma FormattedMounts(v: Volume, size: nat, volumeLabel: seq<Byte>)
    requires v.disk.Length < BASE && ClusterSize(size) && FORMAT_RESERVED_SECTORS < v.disk.Length &&
             Legal(v.disk.Length, size)
    requires Formatted(v.disk[..], size, FatSize(v.disk.Length, size), ClusterCount(v.disk.Length, size,
             FatSize(v.disk.Length, size)), volumeLabel)
    requires MountLayout(v.disk[0]).Accepted? && MountedAs(v, MountLayout(v.disk[0]).layout) && v.Valid()
    ensures v.apart == {} && v.freeKnown && v.Exact() && v.searchHint == 3
    ensures FreeCount(v.table, 2, v.Total()) == v.clusterCount - 1 == ClusterCount(v.disk.Length, size,
            FatSize(v.disk.Length, size)) - 1
    ensures Chain(v.table, v.Total(), [FORMAT_ROOT_CLUSTER])
  {
    var count, disk := v.disk.Length, v.disk[..];
    hide FatSize, ClusterCount, Legal, MountLayout, FrontWritten, TablesWritten, RootWritten, MountedAs;
    var fatSize, clusters := FatSize(count, size), ClusterCount(count, size, FatSize(count, size));
    FrontReads(disk, size, fatSize, clusters);
    MountsAsFormatted(disk[0], count, size);
    LayoutFits(count, size);
    TimesIsProduct(2, fatSize);
    var l := Layout(size, 32, 2, fatSize, 2, count, 32 + 2 * fatSize, clusters);
    FreshTables(v, l, fatSize, clusters);
    FreshFigures(v, l);
  }

  lemma FrontReads(disk: seq<Sector>, size: nat, fatSize: Word, clusters: Word)
    requires FrontWritten(disk, size, fatSize, clusters)
    ensures |disk| >= 32 && clusters > 0 && BootSays(disk[0], |disk|, size, fatSize) && Signed(disk[1])
    ensures Read32(disk[1], FSINFO_FREE_COUNT_OFFSET) == clusters - 1 && Read32(disk[1], FSINFO_NEXT_FREE_OFFSET) == 3
  {
  }

  lemma FreshTables(v: Volume, l: Layout, fatSize: Word, clusters: Word)
    requires v.Valid() && MountedAs(v, l) && TablesWritten(v.disk[..], fatSize) && 1 <= clusters &&
             clusters + 2 <= PER_SECTOR * fatSize
    requires l.reserved == 32 && l.fatCount == 2 && l.sectorsPerFat == fatSize && l.clusterCount == clusters
    ensures v.apart == {} && FreeCount(v.table, 2, v.Total()) == clusters - 1 &&
            Chain(v.table, v.Total(), [FORMAT_ROOT_CLUSTER])
  {
    hide Read32, Signed, FirstEntries, IsBlank, TableOn, Holds, Volume.Stored, Volume.Cached, Volume.Walked, FreeCount;
    var disk, sectors := v.disk[..], v.disk[32..32 + fatSize];
    TimesIsProduct(2, fatSize);
    TimesIsProduct(1, fatSize);
    assert sectors[0] == disk[32];
    forall r | 0 < r < |sectors|
      ensures IsBlank(sectors[r])
    {
      assert sectors[r] == disk[32 + r];
    }
    FreshTable(sectors, v.Total());
    forall relative: nat | relative < fatSize
      ensures v.CopiesAgree(relative)
    {
      FreshCopies(v, disk, fatSize, relative);
    }
  }

  lemma FreshCopies(v: Volume, disk: seq<Sector>, fatSize: Word, relative: nat)
    requires v.Geometry() && disk == v.disk[..] && TablesWritten(disk, fatSize) && relative < fatSize
    requires v.reserved == 32 && v.fatCount == 2 && v.sectorsPerFat == fatSize
    ensures v.CopiesAgree(relative)
  {
    hide FirstEntries;
    TimesIsProduct(1, fatSize);
    TimesIsProduct(2, fatSize);
    assert disk[32 + relative] == v.disk[32 + relative] &&
           disk[32 + fatSize + relative] == v.disk[32 + fatSize + relative];
    if relative > 0 {
      assert IsBlank(disk[32 + relative]) && IsBlank(disk[32 + fatSize + relative]);
      assert disk[32 + relative] == disk[32 + fatSize + relative];
    }
    assert v.CopySector(0, relative) == 32 + relative && v.CopySector(1, relative) == 32 + fatSize + relative;
  }

  lemma FreshFigures(v: Volume, l: Layout)
    requires v.Valid() && MountedAs(v, l) && 1 <= v.clusterCount
    requires Signed(v.disk[1]) && Read32(v.disk[1], FSINFO_FREE_COUNT_OFFSET) == v.clusterCount - 1
    requires Read32(v.disk[1], FSINFO_NEXT_FREE_OFFSET) == 3 && FreeCount(v.table, 2, v.Total()) == v.clusterCount - 1
    ensures v.freeKnown && v.Exact() && (v.clusterCount > 1 ==> v.searchHint == 3)
  {
    hide Read32, Signed, TableOn, Holds, Volume.Stored, Volume.Cached, Volume.Walked, FreeCount;
  }
}
