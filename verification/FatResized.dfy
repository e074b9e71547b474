/** kernel/fat32.c: what a repair writes into the entries it corrects. */
module FatResized {
  import opened Numbers
  import opened Words
  import opened LittleEndian
  import opened FatTable
  import opened FatVolume
  import opened FatContents
  import opened FatWrite
  import opened FatSlots
  import opened LongName
  import opened EntryReader
  import opened FatCheck
  import opened FatCheckFile
  import opened FatSurvey
  import opened FatRuns
  import opened FatDeeds
  import opened FatFreed
  import opened FatCheckSlots
  import opened FatCheckMend
  import opened FatCheckDirectory
  import opened FatCheckPass
  import opened FatKept
  import opened FatCreate
  import ShortNames

  // ---- Sizes ----------------------------------------------------------------------------------------------

  /** A file's entry before and after: everything but the size is what it was. A repair makes the size of a file
      without clusters 0, and of one that was found to hold fewer clusters than its size needs what those hold. */
  ghost predicate SizeRight(v: Volume, repair: bool, deeds: seq<Deed>, spot: Spot, before: Raw, raw: Raw) {
    raw[..28] == before[..28] && 0 < v.ClusterBytes() &&
    exists n: nat :: n < |deeds| && deeds[n].spot == spot && SizeBy(v, repair, |deeds[n].file|, before, raw)
  }

  predicate SizeBy(v: Volume, repair: bool, found: nat, before: Raw, raw: Raw)
    requires 0 < v.ClusterBytes()
  {
    var first, size := Read16(before, 20) as int * 0x1_0000 + Read16(before, 26), Read32(before, 28);
    var needed := (size + v.ClusterBytes() - 1) % BASE / v.ClusterBytes();
    Read32(raw, 28) ==
    if repair && first == 0 then 0
    else if repair && 2 <= first < v.Total() && found < needed then found * v.ClusterBytes() % BASE
    else size
  }

  ghost predicate SizeRightAt(v: Volume, data: seq<Sector>, before: seq<Sector>, repair: bool, deeds: seq<Deed>,
                              w: nat, ids: seq<nat>, k: nat, i: nat) {
    FileAt(v, before, ids, k, i) && Fits(v, data, ids) &&
    SizeRight(v, repair, deeds, Spot(w, k, i), Slots(v, before, ids[k])[i], Slots(v, data, ids[k])[i])
  }

  /** All the files of the directories walked. */
  ghost predicate SizesRight(v: Volume, g: Ground, repair: bool, f: Found, data: seq<Sector>, deeds: seq<Deed>) {
    forall w: nat, k: nat, i: nat :: w < |f.walks| && FileAt(v, g.data, f.walks[w], k, i) ==>
      SizeRightAt(v, data, g.data, repair, deeds, w, f.walks[w], k, i)
  }

  lemma TreatedSize(v: Volume, t: Table, seen0: seq<bool>, repair: bool, d: Deed, raw: Raw)
    requires 0 < v.ClusterBytes() && 2 <= v.Total()
    requires FileTreated(v.Total(), v.ClusterBytes(), t, d.table, seen0, d.seen, repair, FirstOf(raw), Read32(raw, 28),
                         d.resize, d.newSize, d.file)
    ensures Settled(d, raw)[..28] == raw[..28] && SizeBy(v, repair, |d.file|, raw, Settled(d, raw))
  {
    hide FileWalked, CutShort, WalkedTable, Resized, Read16, Read32, Over, Times;
    var b := v.ClusterBytes();
    ResizedReads(raw, d.newSize);
    OverFacts((Read32(raw, 28) + b - 1) % BASE, b);
    TimesIsProduct(|d.file|, b);
  }

  /** The deed of an entry is about that entry. */
  lemma DeedHere(v: Volume, g: Ground, repair: bool, f: Found, deeds: seq<Deed>, n: nat, w: nat, k: nat, i: nat)
    requires Accounted(v, g, repair, f, deeds) && n < |deeds| && deeds[n].spot == Spot(w, k, i) && w < |f.walks|
    requires FileAt(v, g.data, f.walks[w], k, i)
    ensures DeedIs(v, g, repair, deeds[n]) && DeedPlaced(v, g, deeds[n]) && |deeds[n].before.walks| > 0 &&
            k < |Hand(deeds[n].before)|
    ensures Hand(deeds[n].before) <= f.walks[w] && FileAt(v, g.data, Hand(deeds[n].before), k, i)
    ensures DeedRaw(v, g, deeds[n]) == FileRaw(v, g.data, f.walks[w], k, i)
  {
    hide Surveyed, OnRecord, FileTreated, Slots, Real, NameAt, Dotted, IsDirectory, Before, Held;
    DeedOf(v, g, repair, f, deeds, n);
    assert Hand(deeds[n].before) == After(deeds[n]).walks[w];
  }

  lemma SizeAfter(v: Volume, g: Ground, repair: bool, f: Found, data: seq<Sector>, passes: seq<Pass>, deeds: seq<Deed>,
                  freed: set<Spot>, w: nat, k: nat, i: nat)
    requires Accounted(v, g, repair, f, deeds) && AllMended(v, data, g, repair, passes, f.walks, f.queue, deeds, freed)
    requires w < |f.walks| && FileAt(v, g.data, f.walks[w], k, i)
    ensures SizeRightAt(v, data, g.data, repair, deeds, w, f.walks[w], k, i)
  {
    hide Accounted, AllMended, NameAt, Real, Dotted, IsDirectory, Slots, Settled, SizeBy, DeedIs, DeedPlaced, DeedRaw;
    var n := FileSettled(v, data, g, repair, passes, f.walks, f.queue, deeds, freed, w, k, i);
    DeedHere(v, g, repair, f, deeds, n, w, k, i);
    AccountedBytes(v, g, repair, f, deeds);
    DeedSize(v, g, repair, deeds[n]);
  }

  lemma AccountedBytes(v: Volume, g: Ground, repair: bool, f: Found, deeds: seq<Deed>)
    requires Accounted(v, g, repair, f, deeds)
    ensures 0 < v.ClusterBytes()
  {
    hide Surveyed, OnRecord;
    FoundSizes(v, g, f);
  }

  lemma DeedSize(v: Volume, g: Ground, repair: bool, d: Deed)
    requires DeedIs(v, g, repair, d) && DeedPlaced(v, g, d) && 0 < v.ClusterBytes()
    ensures var raw := DeedRaw(v, g, d);
            Settled(d, raw)[..28] == raw[..28] && SizeBy(v, repair, |d.file|, raw, Settled(d, raw))
  {
    hide Surveyed, FileAt, FileTreated, FirstOf, Read32, FileRaw, Settled, SizeBy;
    TreatedSize(v, d.before.table, d.before.seen, repair, d, DeedRaw(v, g, d));
  }

  lemma SizesAfter(v: Volume, g: Ground, repair: bool, f: Found, data: seq<Sector>, passes: seq<Pass>,
                   deeds: seq<Deed>, freed: set<Spot>)
    requires Accounted(v, g, repair, f, deeds) && AllMended(v, data, g, repair, passes, f.walks, f.queue, deeds, freed)
    ensures SizesRight(v, g, repair, f, data, deeds)
  {
    hide Accounted, AllMended, FileAt, SizeRightAt;
    forall w: nat, k: nat, i: nat | w < |f.walks| && FileAt(v, g.data, f.walks[w], k, i)
      ensures SizeRightAt(v, data, g.data, repair, deeds, w, f.walks[w], k, i)
    {
      SizeAfter(v, g, repair, f, data, passes, deeds, freed, w, k, i);
    }
  }

  // ---- "." and ".." -----------------------------------------------------------------------------------------

  /** Slot i of cluster number k of a directory is called "." or "..". */
  ghost predicate DotAt(v: Volume, data: seq<Sector>, ids: seq<nat>, k: nat, i: nat) {
    Fits(v, data, ids) && k < |ids| && i < PerCluster(v) && Real(Slots(v, data, ids[k])[i]) &&
    (NameAt(v, data, ids, k, i) == [ShortNames.DOT] || NameAt(v, data, ids, k, i) == [ShortNames.DOT, ShortNames.DOT])
  }

  /** Such an entry before and after. After a repair "." names the directory itself and ".." its parent, the root
      being 0; one that did so already is left byte for byte, and no other byte of the others changes. */
  predicate DotRight(repair: bool, dots: nat, here: Directory, root: nat, before: Raw, raw: Raw) {
    var link := if dots == 1 then here.cluster else if here.parent == root then 0 else here.parent;
    var old0 := Read16(before, 20) as int * 0x1_0000 + Read16(before, 26);
    raw[..20] == before[..20] && raw[22..26] == before[22..26] && raw[28..] == before[28..] &&
    (!repair || old0 == link ==> raw == before) &&
    (repair ==> Read16(raw, 20) as int * 0x1_0000 + Read16(raw, 26) == link)
  }

  ghost predicate DotRightAt(v: Volume, data: seq<Sector>, before: seq<Sector>, repair: bool, here: Directory,
                             root: nat, ids: seq<nat>, k: nat, i: nat) {
    DotAt(v, before, ids, k, i) && Fits(v, data, ids) &&
    DotRight(repair, |NameAt(v, before, ids, k, i)|, here, root, Slots(v, before, ids[k])[i], Slots(v, data, ids[k])[i])
  }

  ghost predicate DotsRight(v: Volume, g: Ground, repair: bool, f: Found, data: seq<Sector>) {
    |f.walks| <= |f.queue| &&
    forall w: nat, k: nat, i: nat :: w < |f.walks| && DotAt(v, g.data, f.walks[w], k, i) ==>
      DotRightAt(v, data, g.data, repair, f.queue[w], g.root, f.walks[w], k, i)
  }

  lemma TreatedDot(pass: Pass, deeds: seq<Deed>, freed: set<Spot>, spot: Spot, position: nat, name: seq<Byte>,
                   before: Raw, raw: Raw)
    requires Treated(pass, deeds, freed, spot, position, name, before, raw) && Real(before)
    requires name == [ShortNames.DOT] || name == [ShortNames.DOT, ShortNames.DOT]
    ensures DotRight(pass.repair, |name|, Directory(pass.start, pass.parent), pass.ground.root, before, raw)
  {
    hide Relinked, Read16, Settled, IsDirectory;
    RelinkedReads(before, DotTarget(name, pass.start, pass.parent, pass.ground.root));
  }

  lemma DotAfter(v: Volume, g: Ground, repair: bool, walks: seq<seq<nat>>, queue: seq<Directory>, data: seq<Sector>,
                 passes: seq<Pass>, deeds: seq<Deed>, freed: set<Spot>, w: nat, k: nat, i: nat)
    requires AllMended(v, data, g, repair, passes, walks, queue, deeds, freed)
    requires w < |walks| && DotAt(v, g.data, walks[w], k, i)
    ensures w < |queue| && DotRightAt(v, data, g.data, repair, queue[w], g.root, walks[w], k, i)
  {
    hide Cleared, Slots, Treated, PartialAt, AllMended, NameOf, Real, DotRight;
    EndedFacts(v, data, g, repair, passes, walks, queue, deeds, freed, w);
    EndedPlace(v, data, g, repair, passes, walks, queue, deeds, freed, w);
    var pass, ids := passes[w], walks[w];
    PartialSame(v, pass.data, g.data, ids, k, i);
    ClearedAt(v, data, pass, ids, deeds, freed, k, i);
    TreatedDot(pass, deeds, freed, SpotIn(pass, k, i), Numbered(v, k, i), NameAt(v, pass.data, ids, k, i),
        Slots(v, pass.data, ids[k])[i], Slots(v, data, ids[k])[i]);
  }

  lemma EndedPlace(v: Volume, data: seq<Sector>, g: Ground, repair: bool, passes: seq<Pass>, walks: seq<seq<nat>>,
                   queue: seq<Directory>, deeds: seq<Deed>, freed: set<Spot>, w: nat)
    requires AllMended(v, data, g, repair, passes, walks, queue, deeds, freed) && w < |walks|
    ensures w < |passes| && w < |queue| && queue[w] == Directory(passes[w].start, passes[w].parent)
    ensures passes[w].repair == repair && passes[w].ground == g
  {
    hide Cleared, Walked, LastIs, LiveAt, Slots, SameDirectory;
    assert PassEnded(v, data, g, repair, passes[w], walks[w], w, queue, deeds, freed);
  }

  lemma DotsAfter(v: Volume, g: Ground, repair: bool, f: Found, data: seq<Sector>, passes: seq<Pass>, deeds: seq<Deed>,
                  freed: set<Spot>)
    requires |f.walks| <= |f.queue| && AllMended(v, data, g, repair, passes, f.walks, f.queue, deeds, freed)
    ensures DotsRight(v, g, repair, f, data)
  {
    hide AllMended, DotRightAt, DotAt;
    forall w: nat, k: nat, i: nat | w < |f.walks| && DotAt(v, g.data, f.walks[w], k, i)
      ensures DotRightAt(v, data, g.data, repair, f.queue[w], g.root, f.walks[w], k, i)
    {
      DotAfter(v, g, repair, f.walks, f.queue, data, passes, deeds, freed, w, k, i);
    }
  }

  /** An entry that a new directory is given for itself or its parent is read as one dot or two. */
  lemma DotIsRead(p: Partial, raw: Raw, dots: nat, link: Word)
    requires DotSays(raw, dots, link) && !Belongs(p, raw)
    ensures NameOf(p, raw) == if dots == 1 then [ShortNames.DOT] else [ShortNames.DOT, ShortNames.DOT]
    ensures Dotted(NameOf(p, raw)) && Real(raw) && !IsLongName(raw) && FirstOf(raw) == link
  {
    hide NameOf, Belongs;
    var base := if dots == 1 then [ShortNames.DOT] else [ShortNames.DOT, ShortNames.DOT];
    assert forall i :: 0 <= i < 11 ==> raw[i] == raw[..11][i];
    assert raw[..|base|] == base && raw[8..8] == [];
    ShortNameRead(p, raw, base, []);
  }

  /** The two of a directory are left byte for byte, if they say where it is. */
  lemma NewDotsKept(v: Volume, g: Ground, repair: bool, f: Found, data: seq<Sector>, w: nat)
    requires DotsRight(v, g, repair, f, data) && w < |f.walks| && |f.walks[w]| > 0 && Fits(v, g.data, f.walks[w])
    requires f.queue[w].cluster < BASE && f.queue[w].parent < BASE
    requires var s := Slots(v, g.data, f.walks[w][0]);
             DotSays(s[0], 1, f.queue[w].cluster) && DotSays(s[1], 2, ParentLink(f.queue[w].parent, g.root))
    ensures Fits(v, data, f.walks[w])
    ensures Slots(v, data, f.walks[w][0])[..2] == Slots(v, g.data, f.walks[w][0])[..2]
  {
    hide Slots, DotSays, NameOf, Dotted, Real;
    var ids, s := f.walks[w], Slots(v, g.data, f.walks[w][0]);
    FirstNames(v, g.data, ids);
    DotIsRead(NO_NAME, s[0], 1, f.queue[w].cluster);
    DotIsRead(NO_NAME, s[1], 2, ParentLink(f.queue[w].parent, g.root));
    assert DotAt(v, g.data, ids, 0, 0) && DotAt(v, g.data, ids, 0, 1);
    assert DotRightAt(v, data, g.data, repair, f.queue[w], g.root, ids, 0, 0);
    assert DotRightAt(v, data, g.data, repair, f.queue[w], g.root, ids, 0, 1);
    var after := Slots(v, data, ids[0]);
    assert after[0] == s[0] && after[1] == s[1];
  }

  /** Neither of the first two slots owns a long name when the first is no piece of one. */
  lemma FirstNames(v: Volume, data: seq<Sector>, ids: seq<nat>)
    requires Fits(v, data, ids) && |ids| > 0
    ensures PerCluster(v) >= 16 && PartialAt(v, data, ids, 0, 0) == NO_NAME
    ensures !IsLongName(Slots(v, data, ids[0])[0]) ==> PartialAt(v, data, ids, 0, 1) == NO_NAME
    ensures forall raw :: !Belongs(NO_NAME, raw)
  {
    hide Slots, IsLongName, ChecksumOf;
  }
}
