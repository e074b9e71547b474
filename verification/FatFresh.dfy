/** kernel/fat32.c: the root directory of a volume just formatted, where the promises about directories begin. */
module FatFresh {
  import opened Words
  import opened LittleEndian
  import opened FatTable
  import opened FatVolume
  import opened FatContents
  import opened FatGeometry
  import opened FatFormat
  import opened FatSlots
  import opened EntryReader
  import opened FatReaddir
  import opened FatCreate

  /** Its slots: perhaps the label's in front, and end marks. */
  lemma FreshSlots(v: Volume, size: nat, volumeLabel: seq<Byte>, i: nat)
    requires v.Geometry() && v.sectorsPerCluster == size && i < PerCluster(v) &&
             RootWritten(v.disk[..], v.firstData, size, volumeLabel)
    requires 0 < v.clusterCount
    ensures v.Start(2) + size <= |v.Data()| && (0 < i ==> Slots(v, v.Data(), 2)[i][0] == ENTRY_END)
    ensures !Real(Slots(v, v.Data(), 2)[i])
  {
    v.ClusterInside(2);
    assert v.Start(2) == 0;
    var data, sector := v.Data(), i / ENTRIES_PER_SECTOR;
    assert data[sector] == v.disk[v.firstData + sector] == v.disk[..][v.firstData + sector];
    assert Slots(v, data, 2)[i] == SlotIn(data[sector], i % ENTRIES_PER_SECTOR);
    if sector > 0 {
      assert IsBlank(v.disk[..][v.firstData + sector]);
    }
  }

  /** The fresh root obeys the rule about end marks, its short names differ, and a reader finds nothing in it: a label
      is no entry. */
  lemma FreshRoot(v: Volume, size: nat, volumeLabel: seq<Byte>)
    requires v.Geometry() && v.sectorsPerCluster == size && RootWritten(v.disk[..], v.firstData, size, volumeLabel) &&
             0 < v.clusterCount
    ensures Sealed(v, v.Data(), [FORMAT_ROOT_CLUSTER]) && ShortNamesDiffer(v, v.Data(), [FORMAT_ROOT_CLUSTER])
    ensures NothingLeft(v, v.Data(), [FORMAT_ROOT_CLUSTER], 0, 0)
  {
    hide Slots, RootWritten, Real;
    forall i: nat | i < PerCluster(v)
      ensures v.Start(2) + size <= |v.Data()| && (0 < i ==> Slots(v, v.Data(), 2)[i][0] == ENTRY_END) &&
              !Real(Slots(v, v.Data(), 2)[i])
    {
      FreshSlots(v, size, volumeLabel, i);
    }
    v.ClusterInside(2);
    assert Fits(v, v.Data(), [FORMAT_ROOT_CLUSTER]);
  }

  /** And so does the root of a volume formatted and mounted. */
  lemma FormattedRoot(v: Volume, size: nat, volumeLabel: seq<Byte>)
    requires v.disk.Length < BASE && ClusterSize(size) && FORMAT_RESERVED_SECTORS < v.disk.Length &&
             Legal(v.disk.Length, size) && v.Valid()
    requires Formatted(v.disk[..], size, FatSize(v.disk.Length, size), ClusterCount(v.disk.Length, size,
             FatSize(v.disk.Length, size)), volumeLabel)
    requires MountLayout(v.disk[0]).Accepted? && MountedAs(v, MountLayout(v.disk[0]).layout)
    ensures Sealed(v, v.Data(), [FORMAT_ROOT_CLUSTER]) && ShortNamesDiffer(v, v.Data(), [FORMAT_ROOT_CLUSTER])
    ensures NothingLeft(v, v.Data(), [FORMAT_ROOT_CLUSTER], 0, 0)
  {
    hide FatSize, ClusterCount, Legal, MountLayout, FrontWritten, TablesWritten, RootWritten, MountedAs, Sealed,
         ShortNamesDiffer, NothingLeft;
    var count, disk := v.disk.Length, v.disk[..];
    var fatSize, clusters := FatSize(count, size), ClusterCount(count, size, FatSize(count, size));
    FrontReads(disk, size, fatSize, clusters);
    MountsAsFormatted(disk[0], count, size);
    MountedFields(v, MountLayout(v.disk[0]).layout);
    FreshRoot(v, size, volumeLabel);
  }

  lemma MountedFields(v: Volume, l: Layout)
    requires MountedAs(v, l)
    ensures v.sectorsPerCluster == l.sectorsPerCluster && v.firstData == l.firstData && v.clusterCount == l.clusterCount
  {
  }
}
