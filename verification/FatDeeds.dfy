/** kernel/fat32.c: what the checker has done to every file it went over, kept in order. */
module FatDeeds {
  import opened Words
  import opened LittleEndian
  import opened FatTable
  import opened FatVolume
  import opened FatContents
  import opened FatWrite
  import opened FatSlots
  import opened LongName
  import opened EntryReader
  import opened FatCheck
  import opened FatSurvey
  import opened FatCheckFile

  // ---- One file --------------------------------------------------------------------------------------

  /** Slot i of cluster number k of a directory is a file's entry. */
  ghost predicate FileAt(v: Volume, data: seq<Sector>, ids: seq<nat>, k: nat, i: nat) {
    Fits(v, data, ids) && k < |ids| && i < PerCluster(v) &&
    var raw := Slots(v, data, ids[k])[i];
    Real(raw) && !Dotted(NameAt(v, data, ids, k, i)) && !IsDirectory(raw)
  }

  ghost function FileRaw(v: Volume, data: seq<Sector>, ids: seq<nat>, k: nat, i: nat): Raw
    requires FileAt(v, data, ids, k, i)
  {
    Slots(v, data, ids[k])[i]
  }

  /** The slot a check is about to go over. */
  function Here(f: Found): Spot
    requires |f.walks| > 0 && |Hand(f)| > 0
  {
    Spot(|f.walks| - 1, |Hand(f)| - 1, f.i)
  }

  /** How far the check had come after a file. */
  function After(d: Deed): Found {
    d.before.(table := d.table, seen := d.seen, i := d.before.i + 1)
  }

  /** A deed is about the slot the check had come to. */
  ghost predicate DeedPlaced(v: Volume, g: Ground, d: Deed) {
    Surveyed(v, g, d.before) && d.before.active && |d.before.walks| > 0 && |Hand(d.before)| > 0 &&
    d.spot == Here(d.before) && FileAt(v, g.data, Hand(d.before), d.spot.k, d.spot.i)
  }

  ghost function DeedRaw(v: Volume, g: Ground, d: Deed): Raw
    requires DeedPlaced(v, g, d)
  {
    FileRaw(v, g.data, Hand(d.before), d.spot.k, d.spot.i)
  }

  /** And what was done is what is done to a file. */
  ghost predicate DeedIs(v: Volume, g: Ground, repair: bool, d: Deed) {
    DeedPlaced(v, g, d) &&
    FileTreated(v.Total(), v.ClusterBytes(), d.before.table, d.table, d.before.seen, d.seen, repair,
                FirstOf(DeedRaw(v, g, d)), Read32(DeedRaw(v, g, d), 28), d.resize, d.newSize, d.file)
  }

  // ---- How a check goes on ----------------------------------------------------------------------------

  /** A cluster of a directory: walked, or where a directory in the queue begins. */
  predicate Held(f: Found, x: nat) {
    InQueue(f, x) || InWalk(f.walks, x)
  }

  /** From one point of a check to a later one: marks stay, nothing marked becomes a directory's, and what has been
      gone over stays gone over. */
  ghost predicate Grew(f: Found, f2: Found) {
    |f2.seen| == |f.seen| && f.queue <= f2.queue && |f.walks| <= |f2.walks| &&
    (forall w :: 0 <= w < |f.walks| ==> f.walks[w] <= f2.walks[w]) &&
    (forall w: nat, k: nat, i: nat :: Before(f, w, k, i) ==> Before(f2, w, k, i)) &&
    forall x: nat :: x < |f.seen| && f.seen[x] ==> f2.seen[x] && (Held(f2, x) ==> Held(f, x))
  }

  lemma GrewOn(f: Found, f2: Found, f3: Found)
    requires Grew(f, f2) && Grew(f2, f3)
    ensures Grew(f, f3)
  {
    hide Before, Held;
  }

  /** The table after the first n files. */
  function TableAt(g: Ground, deeds: seq<Deed>, n: nat): Table
    requires n <= |deeds|
  {
    if n == 0 then g.table else deeds[n - 1].table
  }

  ghost predicate DeedsDone(v: Volume, g: Ground, repair: bool, f: Found, deeds: seq<Deed>) {
    forall n :: 0 <= n < |deeds| ==> DeedIs(v, g, repair, deeds[n]) && Grew(After(deeds[n]), f)
  }

  ghost predicate DeedsOrdered(deeds: seq<Deed>) {
    forall n, m :: 0 <= n < m < |deeds| ==> Grew(After(deeds[n]), deeds[m].before)
  }

  predicate TablesFollow(g: Ground, t: Table, deeds: seq<Deed>) {
    (forall n :: 0 <= n < |deeds| ==> deeds[n].before.table == TableAt(g, deeds, n)) && t == TableAt(g, deeds, |deeds|)
  }

  /** Every file is accounted for: each deed is one, they come in order, and the table has changed by them alone. */
  ghost predicate OnRecord(v: Volume, g: Ground, repair: bool, f: Found, deeds: seq<Deed>) {
    DeedsDone(v, g, repair, f, deeds) && DeedsOrdered(deeds) && TablesFollow(g, f.table, deeds)
  }

  lemma OnRecordNone(v: Volume, g: Ground, repair: bool, f: Found)
    requires f.table == g.table
    ensures OnRecord(v, g, repair, f, [])
  {
    hide DeedIs, Grew;
  }

  lemma OnRecordLater(v: Volume, g: Ground, repair: bool, f: Found, f2: Found, deeds: seq<Deed>)
    requires OnRecord(v, g, repair, f, deeds) && f2.table == f.table && Grew(f, f2)
    ensures OnRecord(v, g, repair, f2, deeds)
  {
    hide DeedIs, Grew, DeedsOrdered;
    forall n | 0 <= n < |deeds|
      ensures Grew(After(deeds[n]), f2)
    {
      GrewOn(After(deeds[n]), f, f2);
    }
  }

  lemma OnRecordMore(v: Volume, g: Ground, repair: bool, f: Found, deeds: seq<Deed>, d: Deed)
    requires OnRecord(v, g, repair, f, deeds) && DeedIs(v, g, repair, d) && d.before == f && Grew(f, After(d))
    ensures OnRecord(v, g, repair, After(d), deeds + [d])
  {
    hide DeedIs, Grew, DeedsOrdered, DeedsDone, TablesFollow;
    DoneMore(v, g, repair, f, deeds, d);
    OrderedMore(v, g, repair, f, deeds, d);
    FollowMore(g, deeds, d);
  }

  lemma DoneMore(v: Volume, g: Ground, repair: bool, f: Found, deeds: seq<Deed>, d: Deed)
    requires DeedsDone(v, g, repair, f, deeds) && DeedIs(v, g, repair, d) && Grew(f, After(d))
    ensures DeedsDone(v, g, repair, After(d), deeds + [d])
  {
    GrewSame(After(d));
    hide DeedIs, Grew, After;
    forall n | 0 <= n < |deeds|
      ensures Grew(After(deeds[n]), After(d))
    {
      GrewOn(After(deeds[n]), f, After(d));
    }
  }

  lemma OrderedMore(v: Volume, g: Ground, repair: bool, f: Found, deeds: seq<Deed>, d: Deed)
    requires DeedsDone(v, g, repair, f, deeds) && DeedsOrdered(deeds) && d.before == f
    ensures DeedsOrdered(deeds + [d])
  {
    hide DeedIs, Grew, After;
  }

  lemma FollowMore(g: Ground, deeds: seq<Deed>, d: Deed)
    requires TablesFollow(g, d.before.table, deeds)
    ensures TablesFollow(g, d.table, deeds + [d])
  {
    var more := deeds + [d];
    forall n | 0 <= n < |more|
      ensures more[n].before.table == TableAt(g, more, n)
    {
      assert n < |deeds| ==> more[n] == deeds[n];
      assert 0 < n ==> more[n - 1] == deeds[n - 1];
    }
  }

  lemma GrewSame(f: Found)
    ensures Grew(f, f)
  {
  }

  /** One more slot. */
  lemma GrewStep(v: Volume, g: Ground, f: Found, f2: Found, file: seq<nat>)
    requires Outcome(v, g, f, f2, file)
    ensures Grew(f, f2)
  {
    hide Outcome, Before, Held, Marked, Link;
    StepQueue(v, g, f, f2, file);
    StepMarks(v, f, f2, file);
    forall w: nat, k: nat, i: nat | Before(f, w, k, i)
      ensures Before(f2, w, k, i)
    {
      StillBefore(f, f2, w, k, i);
    }
    forall x: nat | x < |f.seen| && f.seen[x] && Held(f2, x)
      ensures Held(f, x)
    {
      StillHeld(f, f2, file, x);
    }
  }

  lemma StillBefore(f: Found, f2: Found, w: nat, k: nat, i: nat)
    requires Before(f, w, k, i) && f2.walks == f.walks && f.i <= f2.i
    ensures Before(f2, w, k, i)
  {
  }

  lemma StillHeld(f: Found, f2: Found, file: seq<nat>, x: nat)
    requires f2.walks == f.walks && f.queue <= f2.queue && Held(f2, x)
    requires f2.queue == f.queue || (|file| == 1 && Joined(f, f2, file[0]) && x !in file)
    ensures Held(f, x)
  {
    if InQueue(f2, x) {
      var q :| 0 <= q < |f2.queue| && f2.queue[q].cluster == x;
      if q < |f.queue| {
        assert f.queue[q].cluster == x;
      }
    }
  }

  /** The next cluster of a directory. */
  lemma GrewOnward(v: Volume, g: Ground, f: Found, next: nat)
    requires Surveyed(v, g, f) && MayGoOn(v, f, next)
    ensures Grew(f, Onward(f, next))
  {
    hide Surveyed, Link;
    var f2 := Onward(f, next);
    assert Hand(f2) == Hand(f) + [next];
    forall x: nat | x < |f.seen| && f.seen[x] && InWalk(f2.walks, x)
      ensures InWalk(f.walks, x)
    {
      var w, k :| 0 <= w < |f2.walks| && 0 <= k < |f2.walks[w]| && f2.walks[w][k] == x;
      assert k < |f.walks[w]| && f.walks[w][k] == x;
    }
  }

  /** The end of a directory. */
  lemma GrewStop(v: Volume, f: Found, f2: Found)
    requires MayStop(v, f, f2)
    ensures Grew(f, f2)
  {
    hide Link;
  }

  /** The next directory. */
  lemma GrewBegin(f: Found)
    requires |f.walks| < |f.queue| && (|f.walks| > 0 ==> !f.active)
    ensures Grew(f, Begun(f))
  {
    BegunWalks(f);
    var f2 := Begun(f);
    forall x: nat | InWalk(f2.walks, x)
      ensures Held(f, x)
    {
      var w, k :| 0 <= w < |f2.walks| && 0 <= k < |f2.walks[w]| && f2.walks[w][k] == x;
      if w < |f.walks| {
        assert f.walks[w][k] == x;
      }
    }
  }

  // ---- The survey and the record together ------------------------------------------------------------

  /** Everything the entries so far lead to is marked, and every file among them accounted for. */
  ghost predicate Accounted(v: Volume, g: Ground, repair: bool, f: Found, deeds: seq<Deed>) {
    Surveyed(v, g, f) && OnRecord(v, g, repair, f, deeds)
  }

  lemma AccountedSurvey(v: Volume, g: Ground, repair: bool, f: Found, deeds: seq<Deed>)
    requires Accounted(v, g, repair, f, deeds)
    ensures Surveyed(v, g, f)
  {
    hide Surveyed, OnRecord;
  }

  /** A slot that is not a file's. */
  lemma AccountedStep(v: Volume, g: Ground, repair: bool, f: Found, f2: Found, file: seq<nat>, deeds: seq<Deed>)
    requires Accounted(v, g, repair, f, deeds) && Outcome(v, g, f, f2, file) && f2.table == f.table
    ensures Accounted(v, g, repair, f2, deeds)
  {
    hide Surveyed, OnRecord, Outcome, Grew;
    SurveyStep(v, g, f, f2, file);
    GrewStep(v, g, f, f2, file);
    OnRecordLater(v, g, repair, f, f2, deeds);
  }

  lemma AccountedSkip(v: Volume, g: Ground, repair: bool, f: Found, deeds: seq<Deed>)
    requires Accounted(v, g, repair, f, deeds) && f.active && f.i < PerCluster(v) && |f.walks| > 0 && |Hand(f)| > 0
    requires !LeadsAt(v, g.data, Hand(f), |Hand(f)| - 1, f.i)
    ensures Accounted(v, g, repair, f.(i := f.i + 1), deeds)
  {
    hide LeadsAt, Link, Surveyed, OnRecord;
    assert Marked(f.seen, []) == f.seen;
    assert Outcome(v, g, f, f.(i := f.i + 1), []);
    hide Outcome;
    AccountedStep(v, g, repair, f, f.(i := f.i + 1), [], deeds);
  }

  /** A file's. */
  lemma AccountedFile(v: Volume, g: Ground, repair: bool, f: Found, deeds: seq<Deed>, d: Deed)
    requires Accounted(v, g, repair, f, deeds) && d.before == f && DeedIs(v, g, repair, d)
    requires Outcome(v, g, f, After(d), d.file)
    ensures Accounted(v, g, repair, After(d), deeds + [d])
  {
    hide Surveyed, OnRecord, Outcome, Grew, DeedIs, After;
    SurveyStep(v, g, f, After(d), d.file);
    GrewStep(v, g, f, After(d), d.file);
    OnRecordMore(v, g, repair, f, deeds, d);
  }

  lemma AccountedOnward(v: Volume, g: Ground, repair: bool, f: Found, next: nat, deeds: seq<Deed>)
    requires Accounted(v, g, repair, f, deeds) && MayGoOn(v, f, next)
    ensures Accounted(v, g, repair, Onward(f, next), deeds)
  {
    assert Onward(f, next).table == f.table by {
      OnwardSame(v, f, next);
    }
    hide Surveyed, OnRecord, Grew, MayGoOn, Onward;
    SurveyOnward(v, g, f, next);
    GrewOnward(v, g, f, next);
    OnRecordLater(v, g, repair, f, Onward(f, next), deeds);
  }

  lemma AccountedStop(v: Volume, g: Ground, repair: bool, f: Found, f2: Found, deeds: seq<Deed>)
    requires Accounted(v, g, repair, f, deeds) && MayStop(v, f, f2) && (f.crossed ==> f2.crossed)
    ensures Accounted(v, g, repair, f2, deeds)
  {
    assert f2.table == f.table;
    hide Surveyed, OnRecord, Grew, MayStop;
    SurveyStop(v, g, f, f2);
    GrewStop(v, f, f2);
    OnRecordLater(v, g, repair, f, f2, deeds);
  }

  lemma AccountedBegin(v: Volume, g: Ground, repair: bool, f: Found, deeds: seq<Deed>)
    requires Accounted(v, g, repair, f, deeds) && !f.active && |f.walks| < |f.queue|
    ensures Accounted(v, g, repair, Begun(f), deeds)
  {
    BegunSame(f);
    hide Surveyed, OnRecord, Grew, Begun;
    SurveyBegin(v, g, f);
    GrewBegin(f);
    OnRecordLater(v, g, repair, f, Begun(f), deeds);
  }
}
