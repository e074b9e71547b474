/** kernel/fat32.c: what fat32_readdir finds in an entry that fat32_write has brought up to date. */
module FatReread {
  import opened Words
  import opened LittleEndian
  import opened FatTable
  import opened FatVolume
  import opened FatSlots
  import opened LongName
  import opened EntryReader
  import opened FatFile
  import opened FatReaddir

  /** The same name and attributes as before, and what the write says of the file; the other slots are as they were. */
  lemma EntryReread(before: Sector, after: Sector, slot: nat, first: Word, time: Half, date: Half, size: Word,
                    p: Partial, was: Entry, e: Entry, other: nat)
    requires slot < ENTRIES_PER_SECTOR && EntrySays(after, before, slot * SLOT_SIZE, first, time, date, size)
    requires Describes(was, p, SlotIn(before, slot)) && Describes(e, p, SlotIn(after, slot))
    requires other < ENTRIES_PER_SECTOR
    ensures e.size == size && e.firstCluster == first && e.date == date && e.time == time
    ensures e.name == was.name && e.attributes == was.attributes
    ensures other != slot ==> SlotIn(after, other) == SlotIn(before, other)
    ensures Real(SlotIn(after, slot)) == Real(SlotIn(before, slot))
  {
    hide NameOf;
    var s, t := SlotIn(before, slot), SlotIn(after, slot);
    assert forall i :: 0 <= i < SLOT_SIZE ==> t[i] == after[slot * SLOT_SIZE + i] &&
                                               s[i] == before[slot * SLOT_SIZE + i];
    assert t[..20] == s[..20] && t[..11] == t[..20][..11] && s[..11] == s[..20][..11];
    NameOfHead(p, s, t);
    if other != slot {
      assert forall i :: 0 <= i < SLOT_SIZE ==> SlotIn(after, other)[i] == SlotIn(before, other)[i];
    }
  }
}
