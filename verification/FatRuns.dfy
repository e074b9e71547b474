/** kernel/fat32.c: the long-name slots the checker has in hand, and which of them belong to nothing. */
module FatRuns {
  import opened Words
  import opened FatTable
  import opened FatVolume
  import opened FatContents
  import opened FatWrite
  import opened FatSlots
  import opened LongName
  import opened EntryReader
  import opened FatSurvey

  const CHECK_LONG_RUN_MAX := 20

  /** A live slot that is a piece of a long name, and one that is a short entry. */
  predicate IsPiece(raw: Raw) {
    !Vacant(raw) && IsLongName(raw)
  }

  predicate IsShort(raw: Raw) {
    !Vacant(raw) && !IsLongName(raw)
  }

  /** The places of the pieces in hand after one more slot: a last piece begins anew, and no more than twenty are
      remembered. */
  function RunMore(run: seq<(nat, nat)>, raw: Raw, k: nat, i: nat): seq<(nat, nat)> {
    if !IsPiece(raw) then []
    else
      var kept := if raw[0] as int / LONG_NAME_LAST % 2 == 1 then [] else run;
      if |kept| < CHECK_LONG_RUN_MAX then kept + [(k, i)] else kept
  }

  /** The pieces in hand before slot i of cluster number k of a directory. */
  ghost function RunAt(v: Volume, data: seq<Sector>, ids: seq<nat>, k: nat, i: nat): seq<(nat, nat)>
    requires Fits(v, data, ids) && k < |ids| && i <= PerCluster(v)
    decreases k, i
  {
    if i > 0 then RunMore(RunAt(v, data, ids, k, i - 1), Slots(v, data, ids[k])[i - 1], k, i - 1)
    else if k > 0 then RunAt(v, data, ids, k - 1, PerCluster(v))
    else []
  }

  function Places(run: seq<(nat, nat)>): set<(nat, nat)> {
    set r | 0 <= r < |run| :: run[r]
  }

  /** A short entry the pieces before it do not belong to. */
  predicate Disowns(raw: Raw, name: Partial, run: seq<(nat, nat)>) {
    IsShort(raw) && |run| > 0 && (!name.valid || name.checksum != ChecksumOf(raw[..11]))
  }

  ghost predicate DisownsAt(v: Volume, data: seq<Sector>, ids: seq<nat>, k: nat, i: nat)
    requires Fits(v, data, ids) && k < |ids| && i < PerCluster(v)
  {
    Disowns(Slots(v, data, ids[k])[i], PartialAt(v, data, ids, k, i), RunAt(v, data, ids, k, i))
  }

  /** The pieces that belong to nothing, as far as slot i of cluster number k. */
  ghost function FreedAt(v: Volume, data: seq<Sector>, ids: seq<nat>, k: nat, i: nat): set<(nat, nat)>
    requires Fits(v, data, ids) && k < |ids| && i <= PerCluster(v)
    decreases k, i
  {
    if i > 0 then
      FreedAt(v, data, ids, k, i - 1) +
      if DisownsAt(v, data, ids, k, i - 1) then Places(RunAt(v, data, ids, k, i - 1)) else {}
    else if k > 0 then FreedAt(v, data, ids, k - 1, PerCluster(v))
    else {}
  }

  lemma RunAtNext(v: Volume, data: seq<Sector>, ids: seq<nat>, k: nat, i: nat)
    requires Fits(v, data, ids) && k < |ids| && i < PerCluster(v)
    ensures RunAt(v, data, ids, k, i + 1) == RunMore(RunAt(v, data, ids, k, i), Slots(v, data, ids[k])[i], k, i)
  {
    hide Slots, RunMore;
  }

  lemma FreedNext(v: Volume, data: seq<Sector>, ids: seq<nat>, k: nat, i: nat)
    requires Fits(v, data, ids) && k < |ids| && i < PerCluster(v)
    ensures FreedAt(v, data, ids, k, i + 1) ==
            FreedAt(v, data, ids, k, i) +
            if DisownsAt(v, data, ids, k, i) then Places(RunAt(v, data, ids, k, i)) else {}
  {
    hide Slots, RunAt, DisownsAt;
  }

  lemma PlacesIn(run: seq<(nat, nat)>)
    ensures forall p :: p in Places(run) <==> p in run
  {
  }

  lemma RunMoreIn(run: seq<(nat, nat)>, raw: Raw, k: nat, i: nat)
    ensures forall p :: p in RunMore(run, raw, k, i) ==> p in run || p == (k, i)
  {
  }

  /** A place before slot i of cluster number k. */
  predicate Earlier(p: (nat, nat), k: nat, i: nat) {
    p.0 < k || (p.0 == k && p.1 < i)
  }

  /** The pieces in hand have been passed. */
  lemma {:induction false} RunEarlier(v: Volume, data: seq<Sector>, ids: seq<nat>, k: nat, i: nat)
    requires Fits(v, data, ids) && k < |ids| && i <= PerCluster(v)
    ensures forall p :: p in RunAt(v, data, ids, k, i) ==> Earlier(p, k, i)
    decreases k, i
  {
    hide Slots, RunMore;
    if i > 0 {
      RunEarlier(v, data, ids, k, i - 1);
      RunMoreIn(RunAt(v, data, ids, k, i - 1), Slots(v, data, ids[k])[i - 1], k, i - 1);
    } else if k > 0 {
      RunEarlier(v, data, ids, k - 1, PerCluster(v));
    }
  }

  lemma {:induction false} FreedEarlier(v: Volume, data: seq<Sector>, ids: seq<nat>, k: nat, i: nat)
    requires Fits(v, data, ids) && k < |ids| && i <= PerCluster(v)
    ensures forall p :: p in FreedAt(v, data, ids, k, i) ==> Earlier(p, k, i)
    decreases k, i
  {
    hide Slots, DisownsAt, RunAt, Places;
    if i > 0 {
      FreedEarlier(v, data, ids, k, i - 1);
      RunEarlier(v, data, ids, k, i - 1);
      PlacesIn(RunAt(v, data, ids, k, i - 1));
    } else if k > 0 {
      FreedEarlier(v, data, ids, k - 1, PerCluster(v));
    }
  }

  /** n pieces of one long name in a row before slot i of a cluster: the first of them, the name's last, is marked. */
  ghost predicate InARow(v: Volume, data: seq<Sector>, ids: seq<nat>, k: nat, i: nat, n: nat) {
    Fits(v, data, ids) && k < |ids| && 1 <= n <= i <= PerCluster(v) &&
    forall j :: i - n <= j < i ==>
      IsPiece(Slots(v, data, ids[k])[j]) && (Slots(v, data, ids[k])[j][0] as int / 0x40 % 2 == 1 <==> j == i - n)
  }

  /** They are the pieces in hand, up to twenty of them. */
  lemma {:induction false} RowInHand(v: Volume, data: seq<Sector>, ids: seq<nat>, k: nat, i: nat, n: nat)
    requires InARow(v, data, ids, k, i, n)
    ensures RunAt(v, data, ids, k, i) == seq(if n <= 20 then n else 20, j => (k, i - n + j))
    decreases n
  {
    hide Slots, IsPiece, RunAt;
    RunAtNext(v, data, ids, k, i - 1);
    if n > 1 {
      RowInHand(v, data, ids, k, i - 1, n - 1);
    }
  }

  lemma {:induction false} NoneFreed(v: Volume, data: seq<Sector>, ids: seq<nat>, k: nat, i: nat, n: nat)
    requires InARow(v, data, ids, k, i, n)
    ensures FreedAt(v, data, ids, k, i) == FreedAt(v, data, ids, k, i - n)
    decreases n
  {
    hide Slots, RunAt, PartialAt, ChecksumOf;
    FreedNext(v, data, ids, k, i - 1);
    if n > 1 {
      NoneFreed(v, data, ids, k, i - 1, n - 1);
    }
  }

  /** They make a name exactly if they all carry the same checksum. */
  lemma {:induction false} RowNamed(v: Volume, data: seq<Sector>, ids: seq<nat>, k: nat, i: nat, n: nat)
    requires InARow(v, data, ids, k, i, n)
    ensures var s, name := Slots(v, data, ids[k]), PartialAt(v, data, ids, k, i);
            name.checksum == s[i - n][13] && (name.valid <==> forall m :: i - n <= m < i ==> s[m][13] == s[i - n][13])
    decreases n
  {
    hide Slots, Fed, IsLongName, PartialAt;
    var s := Slots(v, data, ids[k]);
    PartialNext(v, data, ids, k, i - 1);
    FedStep(PartialAt(v, data, ids, k, i - 1), s[i - 1]);
    if n > 1 {
      RowNamed(v, data, ids, k, i - 1, n - 1);
    }
  }

  lemma PartialNext(v: Volume, data: seq<Sector>, ids: seq<nat>, k: nat, i: nat)
    requires Fits(v, data, ids) && k < |ids| && i < PerCluster(v)
    ensures PartialAt(v, data, ids, k, i + 1) == Named(PartialAt(v, data, ids, k, i), Slots(v, data, ids[k])[i])
  {
    hide Slots, Named;
  }

  /** A short entry right behind them: each of the first twenty is given up unless all of them carry this entry's
      checksum, and the others never. */
  lemma RunFreed(v: Volume, data: seq<Sector>, ids: seq<nat>, k: nat, i: nat, n: nat, j: nat)
    requires InARow(v, data, ids, k, i, n) && i < PerCluster(v) && IsShort(Slots(v, data, ids[k])[i]) && j < n
    ensures var s := Slots(v, data, ids[k]);
            (k, i - n + j) in FreedAt(v, data, ids, k, i + 1) <==>
            j < 20 && !(forall m :: i - n <= m < i ==> s[m][13] == ChecksumOf(s[i][..11]))
  {
    hide Slots, PartialAt, ChecksumOf, RunAt, FreedAt, IsPiece, IsShort, Places;
    RowInHand(v, data, ids, k, i, n);
    RowNamed(v, data, ids, k, i, n);
    NoneFreed(v, data, ids, k, i, n);
    FreedNext(v, data, ids, k, i);
    FreedEarlier(v, data, ids, k, i - n);
    PlacesIn(RunAt(v, data, ids, k, i));
    if j < 20 {
      assert RunAt(v, data, ids, k, i)[j] == (k, i - n + j);
    }
  }

  // ---- They depend on the slots read, and on no later cluster ------------------------------------------

  lemma {:induction false} RunPrefix(v: Volume, data: seq<Sector>, ids: seq<nat>, longer: seq<nat>, k: nat, i: nat)
    requires Fits(v, data, ids) && Fits(v, data, longer) && ids <= longer && k < |ids| && i <= PerCluster(v)
    ensures RunAt(v, data, longer, k, i) == RunAt(v, data, ids, k, i)
    decreases k, i
  {
    hide Slots, RunMore;
    assert longer[k] == ids[k];
    if i > 0 {
      RunPrefix(v, data, ids, longer, k, i - 1);
    } else if k > 0 {
      RunPrefix(v, data, ids, longer, k - 1, PerCluster(v));
    }
  }

  lemma {:induction false} FreedPrefix(v: Volume, data: seq<Sector>, ids: seq<nat>, longer: seq<nat>, k: nat, i: nat)
    requires Fits(v, data, ids) && Fits(v, data, longer) && ids <= longer && k < |ids| && i <= PerCluster(v)
    ensures FreedAt(v, data, longer, k, i) == FreedAt(v, data, ids, k, i)
    decreases k, i
  {
    hide Slots, RunAt, PartialAt, Disowns;
    assert longer[k] == ids[k];
    if i > 0 {
      FreedPrefix(v, data, ids, longer, k, i - 1);
      RunPrefix(v, data, ids, longer, k, i - 1);
      PartialPrefix(v, data, ids, longer, k, i - 1);
    } else if k > 0 {
      FreedPrefix(v, data, ids, longer, k - 1, PerCluster(v));
    }
  }

  /** Two volumes with the same slots in a directory. */
  ghost predicate SameDirectory(v: Volume, data: seq<Sector>, other: seq<Sector>, ids: seq<nat>) {
    Fits(v, data, ids) && Fits(v, other, ids) &&
    forall j :: 0 <= j < |ids| ==> Slots(v, data, ids[j]) == Slots(v, other, ids[j])
  }

  lemma {:induction false} PartialSame(v: Volume, data: seq<Sector>, other: seq<Sector>, ids: seq<nat>, k: nat, i: nat)
    requires SameDirectory(v, data, other, ids) && k < |ids| && i <= PerCluster(v)
    ensures PartialAt(v, data, ids, k, i) == PartialAt(v, other, ids, k, i)
    decreases k, i
  {
    hide Slots, Named;
    if i > 0 {
      PartialSame(v, data, other, ids, k, i - 1);
    } else if k > 0 {
      PartialSame(v, data, other, ids, k - 1, PerCluster(v));
    }
  }

  // ---- What they mean -----------------------------------------------------------------------------------

  ghost predicate PlaceOf(v: Volume, ids: seq<nat>, p: (nat, nat)) {
    p.0 < |ids| && p.1 < PerCluster(v)
  }

  ghost function SlotOn(v: Volume, data: seq<Sector>, ids: seq<nat>, p: (nat, nat)): Raw
    requires Fits(v, data, ids) && PlaceOf(v, ids, p)
  {
    Slots(v, data, ids[p.0])[p.1]
  }

  /** From a piece in hand up to here there are only pieces. */
  lemma {:induction false} RunPieces(v: Volume, data: seq<Sector>, ids: seq<nat>, k: nat, i: nat, p: (nat, nat),
                                     q: (nat, nat))
    requires Fits(v, data, ids) && k < |ids| && i <= PerCluster(v) && p in RunAt(v, data, ids, k, i)
    requires PlaceOf(v, ids, q) && !Earlier(q, p.0, p.1) && Earlier(q, k, i)
    ensures IsPiece(SlotOn(v, data, ids, q))
    decreases k, i
  {
    hide Slots, IsPiece;
    if i > 0 {
      RunMoreFrom(RunAt(v, data, ids, k, i - 1), Slots(v, data, ids[k])[i - 1], k, i - 1, p);
      if q != (k, i - 1) {
        RunPieces(v, data, ids, k, i - 1, p, q);
      }
    } else {
      RunPieces(v, data, ids, k - 1, PerCluster(v), p, q);
    }
  }

  lemma RunMoreFrom(run: seq<(nat, nat)>, raw: Raw, k: nat, i: nat, p: (nat, nat))
    requires p in RunMore(run, raw, k, i)
    ensures IsPiece(raw) && (p in run || p == (k, i))
  {
  }

  /** A piece in hand has been in hand ever since it was met. */
  lemma {:induction false} RunBack(v: Volume, data: seq<Sector>, ids: seq<nat>, k: nat, i: nat, p: (nat, nat))
    requires Fits(v, data, ids) && k < |ids| && i <= PerCluster(v) && p in RunAt(v, data, ids, k, i)
    ensures PlaceOf(v, ids, p) && p in RunAt(v, data, ids, p.0, p.1 + 1)
    decreases k, i
  {
    hide Slots, RunMore;
    if i > 0 {
      RunMoreFrom(RunAt(v, data, ids, k, i - 1), Slots(v, data, ids[k])[i - 1], k, i - 1, p);
      if p in RunAt(v, data, ids, k, i - 1) {
        RunBack(v, data, ids, k, i - 1, p);
      }
    } else {
      RunBack(v, data, ids, k - 1, PerCluster(v), p);
    }
  }

  /** Some short entry disowns the run a piece is in. */
  ghost predicate Disowned(v: Volume, data: seq<Sector>, ids: seq<nat>, k: nat, i: nat, p: (nat, nat))
    requires Fits(v, data, ids)
  {
    exists q: (nat, nat) :: PlaceOf(v, ids, q) && Earlier(q, k, i) && DisownsAt(v, data, ids, q.0, q.1) &&
      p in RunAt(v, data, ids, q.0, q.1)
  }

  /** What is marked deleted is exactly the pieces whose run the next short entry disowns. */
  lemma {:induction false} FreedMeans(v: Volume, data: seq<Sector>, ids: seq<nat>, k: nat, i: nat, p: (nat, nat))
    requires Fits(v, data, ids) && k < |ids| && i <= PerCluster(v)
    ensures p in FreedAt(v, data, ids, k, i) <==> Disowned(v, data, ids, k, i, p)
    decreases k, i
  {
    hide Slots, RunAt, DisownsAt, Places;
    if i > 0 {
      FreedMeans(v, data, ids, k, i - 1, p);
      PlacesIn(RunAt(v, data, ids, k, i - 1));
      assert PlaceOf(v, ids, (k, i - 1));
    } else if k > 0 {
      FreedMeans(v, data, ids, k - 1, PerCluster(v), p);
    }
  }

  /** A piece is disowned by the short entry it is in hand at, or not at all. */
  lemma DisownedHere(v: Volume, data: seq<Sector>, ids: seq<nat>, k: nat, i: nat, p: (nat, nat), last: nat)
    requires Fits(v, data, ids) && k < |ids| && i < PerCluster(v) && p in RunAt(v, data, ids, k, i)
    requires IsShort(Slots(v, data, ids[k])[i]) && last < |ids|
    requires p in FreedAt(v, data, ids, last, PerCluster(v))
    ensures DisownsAt(v, data, ids, k, i)
  {
    hide Slots, RunAt, DisownsAt, FreedAt, IsPiece, IsShort;
    FreedMeans(v, data, ids, last, PerCluster(v), p);
    var q: (nat, nat) :| PlaceOf(v, ids, q) && Earlier(q, last, PerCluster(v)) && DisownsAt(v, data, ids, q.0, q.1) &&
      p in RunAt(v, data, ids, q.0, q.1);
    RunEarlier(v, data, ids, k, i);
    RunEarlier(v, data, ids, q.0, q.1);
    DisownsShort(v, data, ids, q.0, q.1);
    if Earlier(q, k, i) {
      RunPieces(v, data, ids, k, i, p, q);
      ShortIsNoPiece(SlotOn(v, data, ids, q));
    } else if Earlier((k, i), q.0, q.1) {
      RunPieces(v, data, ids, q.0, q.1, p, (k, i));
      ShortIsNoPiece(SlotOn(v, data, ids, (k, i)));
    }
  }

  lemma ShortIsNoPiece(raw: Raw)
    ensures IsShort(raw) ==> !IsPiece(raw)
  {
  }

  lemma DisownsShort(v: Volume, data: seq<Sector>, ids: seq<nat>, k: nat, i: nat)
    requires Fits(v, data, ids) && k < |ids| && i < PerCluster(v) && DisownsAt(v, data, ids, k, i)
    ensures IsShort(Slots(v, data, ids[k])[i])
  {
    hide Slots, RunAt, PartialAt, IsShort;
  }

  // ---- Names --------------------------------------------------------------------------------------------

  /** The name put together before and after those pieces are gone: the same, or a run that has lost a piece and makes
      no name any more. */
  predicate Agrees(before: Partial, after: Partial, run: seq<(nat, nat)>, freed: set<(nat, nat)>) {
    ((forall p :: p in run ==> p !in freed) && after == before) ||
    ((exists p :: p in run && p in freed) && !after.valid)
  }

  /** One more slot. */
  lemma AgreesNext(before: Partial, after: Partial, run: seq<(nat, nat)>, freed: set<(nat, nat)>, raw: Raw, raw1: Raw,
                   k: nat, i: nat)
    requires Agrees(before, after, run, freed)
    requires if IsPiece(raw) then raw1 == if (k, i) in freed then raw[0 := ENTRY_FREE] else raw else !IsPiece(raw1)
    requires (k, i) in freed ==> (k, i) in RunMore(run, raw, k, i)
    ensures Agrees(Named(before, raw), Named(after, raw1), RunMore(run, raw, k, i), freed)
  {
    var run1 := RunMore(run, raw, k, i);
    if IsPiece(raw) && (k, i) !in freed {
      FedPiece(before, after, raw);
      hide Fed;
      if raw[0] as int / LONG_NAME_LAST % 2 != 1 {
        assert forall p :: p in run ==> p in run1;
        assert forall p :: p in run1 ==> p in run || p == (k, i);
      }
    }
  }

  lemma FedPiece(p: Partial, q: Partial, raw: Raw)
    requires IsPiece(raw)
    ensures raw[0] as int / LONG_NAME_LAST % 2 == 1 ==> Fed(p, raw) == Fed(q, raw)
    ensures raw[0] as int / LONG_NAME_LAST % 2 != 1 && !p.valid ==> !Fed(p, raw).valid
  {
  }
}
