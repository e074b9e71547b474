/** kernel/fat32.c: the entries of a directory come through a check under their names, with what they lead to. */
module FatKept {
  import opened Words
  import opened LittleEndian
  import opened FatTable
  import opened FatVolume
  import opened FatContents
  import opened FatWrite
  import opened FatSlots
  import opened LongName
  import opened EntryReader
  import opened FatCheck
  import opened FatSurvey
  import opened FatRuns
  import opened FatDeeds
  import opened FatCheckSlots
  import opened FatCheckMend
  import opened FatCheckDirectory
  import opened FatCheckPass

  // ---- One slot ---------------------------------------------------------------------------------------

  /** The pieces of long names marked deleted. */
  ghost function Gone(v: Volume, pass: Pass, ids: seq<nat>): set<(nat, nat)>
    requires Fits(v, pass.data, ids) && |ids| > 0
  {
    if pass.repair then FreedAt(v, pass.data, ids, |ids| - 1, PerCluster(v)) else {}
  }

  /** What stays of a slot that is live. */
  predicate Stays(before: Raw, raw: Raw, freed: bool) {
    if IsPiece(before) then raw == if freed then before[0 := ENTRY_FREE] else before
    else if IsShort(before) then raw[..20] == before[..20] && raw[22..26] == before[22..26]
    else Vacant(raw)
  }

  lemma TreatedStays(pass: Pass, deeds: seq<Deed>, freed: set<Spot>, spot: Spot, position: nat, name: seq<Byte>,
                     before: Raw, raw: Raw)
    requires Treated(pass, deeds, freed, spot, position, name, before, raw)
    ensures Stays(before, raw, spot in freed)
  {
    hide Dotted, IsDirectory, DotTarget, Bytes16, Bytes32, FirstOf;
  }

  lemma ClearedStays(v: Volume, data: seq<Sector>, pass: Pass, ids: seq<nat>, deeds: seq<Deed>, freed: set<Spot>,
                     k: nat, i: nat)
    requires Cleared(v, data, pass, ids, deeds, freed) && k < |ids| && i < PerCluster(v)
    ensures Fits(v, data, ids) && Fits(v, pass.data, ids)
    ensures Stays(Slots(v, pass.data, ids[k])[i], Slots(v, data, ids[k])[i], (k, i) in Gone(v, pass, ids))
  {
    ClearedAt(v, data, pass, ids, deeds, freed, k, i);
    ClearedFreed(v, data, pass, ids, deeds, freed, k, i);
    hide Cleared, Slots, Treated, NameAt, Numbered, FreedAt, Stays;
    TreatedStays(pass, deeds, freed, SpotIn(pass, k, i), Numbered(v, k, i), NameAt(v, pass.data, ids, k, i),
        Slots(v, pass.data, ids[k])[i], Slots(v, data, ids[k])[i]);
  }

  lemma ClearedFreed(v: Volume, data: seq<Sector>, pass: Pass, ids: seq<nat>, deeds: seq<Deed>, freed: set<Spot>,
                     k: nat, i: nat)
    requires Cleared(v, data, pass, ids, deeds, freed)
    ensures |ids| > 0 && Fits(v, pass.data, ids) && (SpotIn(pass, k, i) in freed <==> (k, i) in Gone(v, pass, ids))
  {
    hide SlotsMended, FreedAt, Fits;
  }

  // ---- Names --------------------------------------------------------------------------------------------

  /** The name in hand at every slot. */
  lemma {:induction false} NamesAgree(v: Volume, data: seq<Sector>, pass: Pass, ids: seq<nat>, deeds: seq<Deed>,
                                      freed: set<Spot>, k: nat, i: nat)
    requires Cleared(v, data, pass, ids, deeds, freed) && k < |ids| && i <= PerCluster(v)
    requires Fits(v, data, ids) && Fits(v, pass.data, ids)
    ensures Agrees(PartialAt(v, pass.data, ids, k, i), PartialAt(v, data, ids, k, i), RunAt(v, pass.data, ids, k, i),
                   Gone(v, pass, ids))
    decreases k, i
  {
    hide Slots, Cleared, Gone, RunMore, Named, Stays, IsPiece, Agrees;
    if i > 0 {
      NamesAgree(v, data, pass, ids, deeds, freed, k, i - 1);
      ClearedStays(v, data, pass, ids, deeds, freed, k, i - 1);
      GoneInRun(v, pass, ids, k, i - 1);
      StaysPiece(Slots(v, pass.data, ids[k])[i - 1], Slots(v, data, ids[k])[i - 1], (k, i - 1) in Gone(v, pass, ids));
      AgreesNext(PartialAt(v, pass.data, ids, k, i - 1), PartialAt(v, data, ids, k, i - 1),
          RunAt(v, pass.data, ids, k, i - 1), Gone(v, pass, ids), Slots(v, pass.data, ids[k])[i - 1],
          Slots(v, data, ids[k])[i - 1], k, i - 1);
    } else if k > 0 {
      NamesAgree(v, data, pass, ids, deeds, freed, k - 1, PerCluster(v));
    } else {
      AgreesNone(NO_NAME, Gone(v, pass, ids));
    }
  }

  lemma AgreesNone(p: Partial, freed: set<(nat, nat)>)
    ensures Agrees(p, p, [], freed)
  {
  }

  lemma StaysPiece(before: Raw, raw: Raw, freed: bool)
    requires Stays(before, raw, freed)
    ensures if IsPiece(before) then raw == if freed then before[0 := ENTRY_FREE] else before else !IsPiece(raw)
  {
    if IsShort(before) {
      SameHead(before, raw);
    }
  }

  lemma SameHead(before: Raw, raw: Raw)
    requires raw[..20] == before[..20]
    ensures raw[..11] == before[..11] && raw[0] == before[0] && raw[11] == before[11]
  {
    assert raw[..20][..11] == raw[..11] && before[..20][..11] == before[..11];
    assert raw[..20][11] == raw[11] && before[..20][11] == before[11] && raw[..20][0] == raw[0];
  }

  lemma GoneInRun(v: Volume, pass: Pass, ids: seq<nat>, k: nat, i: nat)
    requires Fits(v, pass.data, ids) && k < |ids| && i < PerCluster(v)
    ensures (k, i) in Gone(v, pass, ids) ==>
              (k, i) in RunMore(RunAt(v, pass.data, ids, k, i), Slots(v, pass.data, ids[k])[i], k, i)
  {
    hide Slots, RunAt, DisownsAt, RunMore, FreedAt;
    if (k, i) in Gone(v, pass, ids) {
      FreedMeans(v, pass.data, ids, |ids| - 1, PerCluster(v), (k, i));
      var q: (nat, nat) :| PlaceOf(v, ids, q) && Earlier(q, |ids| - 1, PerCluster(v)) &&
        DisownsAt(v, pass.data, ids, q.0, q.1) && (k, i) in RunAt(v, pass.data, ids, q.0, q.1);
      RunBack(v, pass.data, ids, q.0, q.1, (k, i));
      RunAtNext(v, pass.data, ids, k, i);
    }
  }

  /** Every entry is called what it was called before. */
  lemma NameStays(v: Volume, data: seq<Sector>, pass: Pass, ids: seq<nat>, deeds: seq<Deed>, freed: set<Spot>, k: nat,
                  i: nat)
    requires Cleared(v, data, pass, ids, deeds, freed) && k < |ids| && i < PerCluster(v)
    requires Fits(v, data, ids) && Fits(v, pass.data, ids) && IsShort(Slots(v, pass.data, ids[k])[i])
    ensures NameAt(v, data, ids, k, i) == NameAt(v, pass.data, ids, k, i)
  {
    hide Slots, Cleared, PartialAt, RunAt, NameOf, FreedAt, DisownsAt;
    var before, raw := Slots(v, pass.data, ids[k])[i], Slots(v, data, ids[k])[i];
    var p, q := PartialAt(v, pass.data, ids, k, i), PartialAt(v, data, ids, k, i);
    ClearedStays(v, data, pass, ids, deeds, freed, k, i);
    SameHead(before, raw);
    NamesAgree(v, data, pass, ids, deeds, freed, k, i);
    NameOfHead(p, before, raw);
    if q != p {
      var piece: (nat, nat) :| piece in RunAt(v, pass.data, ids, k, i) && piece in Gone(v, pass, ids);
      DisownedHere(v, pass.data, ids, k, i, piece, |ids| - 1);
      NameDisowned(v, pass.data, ids, k, i);
      NameOfHead(q, before, raw);
      NoLongName(p, q, before);
    }
  }

  lemma NameDisowned(v: Volume, data: seq<Sector>, ids: seq<nat>, k: nat, i: nat)
    requires Fits(v, data, ids) && k < |ids| && i < PerCluster(v) && DisownsAt(v, data, ids, k, i)
    ensures !Belongs(PartialAt(v, data, ids, k, i), Slots(v, data, ids[k])[i])
  {
    hide Slots, PartialAt, RunAt, ChecksumOf;
  }

  lemma NoLongName(p: Partial, q: Partial, raw: Raw)
    requires !Belongs(p, raw) && !q.valid
    ensures NameOf(q, raw) == NameOf(p, raw)
  {
    hide ChecksumOf, ShortName, Str;
  }

  // ---- Entries ---------------------------------------------------------------------------------------------

  /** An entry before and after: its name, its attributes and what it leads to are the same, and a directory's entry
      altogether. Nothing else has become an entry. */
  ghost predicate EntryKept(v: Volume, data: seq<Sector>, before: seq<Sector>, ids: seq<nat>, k: nat, i: nat) {
    Fits(v, data, ids) && Fits(v, before, ids) && k < |ids| && i < PerCluster(v) &&
    var raw, raw1 := Slots(v, before, ids[k])[i], Slots(v, data, ids[k])[i];
    (Real(raw1) <==> Real(raw)) &&
    (Real(raw) ==>
       NameAt(v, data, ids, k, i) == NameAt(v, before, ids, k, i) && raw1[..20] == raw[..20] &&
       raw1[22..26] == raw[22..26] &&
       (!Dotted(NameAt(v, before, ids, k, i)) ==>
          raw1[..28] == raw[..28] && (IsDirectory(raw) ==> raw1 == raw)))
  }

  lemma EntryStays(v: Volume, data: seq<Sector>, pass: Pass, ids: seq<nat>, deeds: seq<Deed>, freed: set<Spot>, k: nat,
                   i: nat)
    requires Cleared(v, data, pass, ids, deeds, freed) && k < |ids| && i < PerCluster(v)
    ensures Fits(v, data, ids) && Fits(v, pass.data, ids) && EntryKept(v, data, pass.data, ids, k, i)
  {
    hide Slots, Cleared, NameAt, FreedAt, Treated;
    ClearedStays(v, data, pass, ids, deeds, freed, k, i);
    var before, raw := Slots(v, pass.data, ids[k])[i], Slots(v, data, ids[k])[i];
    StaysReal(before, raw, (k, i) in Gone(v, pass, ids));
    if Real(before) {
      ClearedAt(v, data, pass, ids, deeds, freed, k, i);
      NameStays(v, data, pass, ids, deeds, freed, k, i);
      if !Dotted(NameAt(v, pass.data, ids, k, i)) {
        TreatedEntry(pass, deeds, freed, SpotIn(pass, k, i), Numbered(v, k, i), NameAt(v, pass.data, ids, k, i),
            before, raw);
      }
    }
  }

  lemma StaysReal(before: Raw, raw: Raw, freed: bool)
    requires Stays(before, raw, freed)
    ensures Real(raw) <==> Real(before)
  {
    if IsShort(before) {
      SameHead(before, raw);
    }
  }

  lemma TreatedEntry(pass: Pass, deeds: seq<Deed>, freed: set<Spot>, spot: Spot, position: nat, name: seq<Byte>,
                     before: Raw, raw: Raw)
    requires Treated(pass, deeds, freed, spot, position, name, before, raw) && Real(before) && !Dotted(name)
    ensures raw[..28] == before[..28] && (IsDirectory(before) ==> raw == before)
    ensures !IsDirectory(before) ==> exists d :: d in deeds && d.spot == spot && raw == Settled(d, before)
  {
    hide Dotted, IsDirectory, DotTarget, Bytes16, Bytes32, FirstOf;
  }

  /** So it leads where it led. */
  lemma KeptLeads(v: Volume, data: seq<Sector>, before: seq<Sector>, ids: seq<nat>, k: nat, i: nat)
    requires EntryKept(v, data, before, ids, k, i)
    ensures LeadsAt(v, data, ids, k, i) <==> LeadsAt(v, before, ids, k, i)
    ensures LeadsAt(v, before, ids, k, i) ==> Target(v, data, ids, k, i) == Target(v, before, ids, k, i)
  {
    hide Slots, NameAt, Dotted, IsDirectory, Read16;
    var raw, raw1 := Slots(v, before, ids[k])[i], Slots(v, data, ids[k])[i];
    if raw1[..28] == raw[..28] {
      SameFirst(raw, raw1);
    }
    if Real(raw) && Dotted(NameAt(v, before, ids, k, i)) {
      assert !LeadsAt(v, before, ids, k, i) && !LeadsAt(v, data, ids, k, i);
    }
  }

  lemma SameFirst(raw: Raw, raw1: Raw)
    requires raw1[..28] == raw[..28]
    ensures FirstOf(raw1) == FirstOf(raw)
  {
    assert raw[20] == raw[..28][20] && raw[21] == raw[..28][21] && raw[26] == raw[..28][26] && raw[27] == raw[..28][27];
    assert raw1[20] == raw1[..28][20] && raw1[21] == raw1[..28][21] && raw1[26] == raw1[..28][26] &&
           raw1[27] == raw1[..28][27];
  }

  // ---- All of them --------------------------------------------------------------------------------------------

  /** Slots that read the same make the same entries. */
  lemma KeptSame(v: Volume, data: seq<Sector>, before: seq<Sector>, other: seq<Sector>, ids: seq<nat>, k: nat, i: nat)
    requires SameDirectory(v, before, other, ids) && EntryKept(v, data, before, ids, k, i)
    ensures EntryKept(v, data, other, ids, k, i)
  {
    hide Slots, PartialAt, NameOf, Real, Dotted, IsDirectory;
    PartialSame(v, before, other, ids, k, i);
  }

  /** Every entry of the directories walked is kept. */
  ghost predicate EntriesKept(v: Volume, data: seq<Sector>, before: seq<Sector>, walks: seq<seq<nat>>) {
    forall w: nat, k: nat, i: nat :: w < |walks| && k < |walks[w]| && i < PerCluster(v) ==>
      EntryKept(v, data, before, walks[w], k, i)
  }

  lemma AllKept(v: Volume, data: seq<Sector>, ground: Ground, repair: bool, passes: seq<Pass>, walks: seq<seq<nat>>,
                queue: seq<Directory>, deeds: seq<Deed>, freed: set<Spot>)
    requires AllMended(v, data, ground, repair, passes, walks, queue, deeds, freed)
    ensures EntriesKept(v, data, ground.data, walks)
  {
    hide PassEnded, EntryKept, Cleared, SameDirectory;
    forall w: nat, k: nat, i: nat | w < |walks| && k < |walks[w]| && i < PerCluster(v)
      ensures EntryKept(v, data, ground.data, walks[w], k, i)
    {
      EndedFacts(v, data, ground, repair, passes, walks, queue, deeds, freed, w);
      EntryStays(v, data, passes[w], walks[w], deeds, freed, k, i);
      KeptSame(v, data, passes[w].data, ground.data, walks[w], k, i);
    }
  }

  lemma EndedFacts(v: Volume, data: seq<Sector>, ground: Ground, repair: bool, passes: seq<Pass>,
                   walks: seq<seq<nat>>, queue: seq<Directory>, deeds: seq<Deed>, freed: set<Spot>, w: nat)
    requires AllMended(v, data, ground, repair, passes, walks, queue, deeds, freed) && w < |walks|
    ensures w < |passes| && Cleared(v, data, passes[w], walks[w], deeds, freed) && |passes[w].walks| == w
    ensures SameDirectory(v, passes[w].data, ground.data, walks[w]) && Fits(v, ground.data, walks[w])
  {
    hide Cleared, PassIs, Slots;
    assert PassEnded(v, data, ground, repair, passes[w], walks[w], w, queue, deeds, freed);
  }

  /** A file's entry has its deed, and is what the deed says. */
  lemma FileSettled(v: Volume, data: seq<Sector>, ground: Ground, repair: bool, passes: seq<Pass>,
                    walks: seq<seq<nat>>, queue: seq<Directory>, deeds: seq<Deed>, freed: set<Spot>, w: nat, k: nat,
                    i: nat)
    returns (n: nat)
    requires AllMended(v, data, ground, repair, passes, walks, queue, deeds, freed) && w < |walks|
    requires FileAt(v, ground.data, walks[w], k, i)
    ensures n < |deeds| && deeds[n].spot == Spot(w, k, i)
    ensures Fits(v, data, walks[w]) && k < |walks[w]| && i < PerCluster(v)
    ensures Slots(v, data, walks[w][k])[i] == Settled(deeds[n], FileRaw(v, ground.data, walks[w], k, i))
  {
    hide PassEnded, Cleared, Slots, Treated, PartialAt, AllMended, NameOf, Real, Dotted, IsDirectory, Settled;
    EndedFacts(v, data, ground, repair, passes, walks, queue, deeds, freed, w);
    var pass, ids := passes[w], walks[w];
    PartialSame(v, pass.data, ground.data, ids, k, i);
    ClearedAt(v, data, pass, ids, deeds, freed, k, i);
    TreatedEntry(pass, deeds, freed, SpotIn(pass, k, i), Numbered(v, k, i), NameAt(v, pass.data, ids, k, i),
        Slots(v, pass.data, ids[k])[i], Slots(v, data, ids[k])[i]);
    var d :| d in deeds && d.spot == SpotIn(pass, k, i) && Slots(v, data, ids[k])[i] ==
      Settled(d, Slots(v, pass.data, ids[k])[i]);
    n :| 0 <= n < |deeds| && deeds[n] == d;
  }
}
