/** kernel/fat32.c: what the checker's marks mean - which links and directory entries they follow, and which they
    follow from. */
module FatSurvey {
  import opened Words
  import opened LittleEndian
  import opened FatTable
  import opened FatVolume
  import opened FatContents
  import opened FatWrite
  import opened FatSlots
  import opened LongName
  import opened EntryReader
  import opened FatCheck
  import ShortNames

  // ---- Directory entries as the checker reads them ------------------------------------------

  const NO_NAME: Partial := Partial(false, 0, Zeros())

  /** The long name being put together, after one more slot. */
  function Named(p: Partial, raw: Raw): Partial {
    if Vacant(raw) || !IsLongName(raw) then NO_NAME else Fed(p, raw)
  }

  /** The long name put together before slot i of cluster number k of a directory. */
  ghost function PartialAt(v: Volume, data: seq<Sector>, ids: seq<nat>, k: nat, i: nat): Partial
    requires Fits(v, data, ids) && k < |ids| && i <= PerCluster(v)
    decreases k, i
  {
    if i > 0 then Named(PartialAt(v, data, ids, k, i - 1), Slots(v, data, ids[k])[i - 1])
    else if k > 0 then PartialAt(v, data, ids, k - 1, PerCluster(v))
    else NO_NAME
  }

  ghost function NameAt(v: Volume, data: seq<Sector>, ids: seq<nat>, k: nat, i: nat): seq<Byte>
    requires Fits(v, data, ids) && k < |ids| && i < PerCluster(v)
  {
    NameOf(PartialAt(v, data, ids, k, i), Slots(v, data, ids[k])[i])
  }

  /** "." and "..", which say where a directory sits and have no clusters of their own. */
  predicate Dotted(name: seq<Byte>) {
    |name| > 0 && name[0] == ShortNames.DOT && (|name| == 1 || (name[1] == ShortNames.DOT && |name| == 2))
  }

  function FirstOf(raw: Raw): (first: nat)
    ensures first < BASE
  {
    Read16(raw, 20) as int * 0x1_0000 + Read16(raw, 26)
  }

  predicate IsDirectory(raw: Raw) {
    raw[11] as int / 0x10 % 2 == 1
  }

  /** Slot i of cluster number k of a directory is a file or a directory, and names a cluster of the volume. */
  ghost predicate LeadsAt(v: Volume, data: seq<Sector>, ids: seq<nat>, k: nat, i: nat) {
    Fits(v, data, ids) && k < |ids| && i < PerCluster(v) &&
    var raw := Slots(v, data, ids[k])[i];
    Real(raw) && !Dotted(NameAt(v, data, ids, k, i)) && InRange(FirstOf(raw), v.Total())
  }

  ghost function RawAt(v: Volume, data: seq<Sector>, ids: seq<nat>, k: nat, i: nat): Raw
    requires LeadsAt(v, data, ids, k, i)
  {
    Slots(v, data, ids[k])[i]
  }

  /** The cluster named. */
  ghost function Target(v: Volume, data: seq<Sector>, ids: seq<nat>, k: nat, i: nat): (x: nat)
    requires LeadsAt(v, data, ids, k, i)
    ensures InRange(x, v.Total())
  {
    FirstOf(RawAt(v, data, ids, k, i))
  }

  /** Clusters linked in order from the first cluster of a directory. */
  ghost predicate Run(v: Volume, data: seq<Sector>, t: Table, start: nat, ids: seq<nat>) {
    v.Total() <= |t| && |ids| > 0 && ids[0] == start && Fits(v, data, ids) &&
    (forall k :: 0 <= k < |ids| ==> InRange(ids[k], v.Total())) &&
    forall k :: 0 <= k < |ids| - 1 ==> Link(t[ids[k]]) == ids[k + 1]
  }

  // ---- Reachable clusters -----------------------------------------------------------------------

  /** What a check starts from. */
  datatype Ground = Ground(table: Table, data: seq<Sector>, root: nat)

  /** The entry at a place in a run of clusters of one of these directories. */
  ghost predicate EntryOf(v: Volume, data: seq<Sector>, t: Table, directories: set<nat>, s: nat, ids: seq<nat>, k: nat,
                          i: nat) {
    s in directories && Run(v, data, t, s, ids) && LeadsAt(v, data, ids, k, i)
  }

  /** No link leads out of a set of clusters. */
  predicate LinksInside(v: Volume, t: Table, clusters: set<nat>) {
    v.Total() <= |t| &&
    forall x :: x in clusters && x < v.Total() && InRange(Link(t[x]), v.Total()) ==> Link(t[x]) in clusters
  }

  /** What an entry leads to is in the set of clusters and, for a directory, in the set of directories. */
  ghost predicate LeadsInside(v: Volume, data: seq<Sector>, ids: seq<nat>, k: nat, i: nat, clusters: set<nat>,
                              directories: set<nat>)
    requires LeadsAt(v, data, ids, k, i)
  {
    Target(v, data, ids, k, i) in clusters &&
    (IsDirectory(RawAt(v, data, ids, k, i)) ==> Target(v, data, ids, k, i) in directories)
  }

  ghost predicate EntriesInside(v: Volume, data: seq<Sector>, t: Table, clusters: set<nat>, directories: set<nat>) {
    forall s, ids, k: nat, i: nat :: EntryOf(v, data, t, directories, s, ids, k, i) ==>
      LeadsInside(v, data, ids, k, i, clusters, directories)
  }

  /** A set of clusters and a set of directories, by their first clusters, that no link and no entry leads out of. */
  ghost predicate Closed(v: Volume, data: seq<Sector>, t: Table, root: nat, clusters: set<nat>, directories: set<nat>) {
    root in clusters && root in directories && LinksInside(v, t, clusters) &&
    EntriesInside(v, data, t, clusters, directories)
  }

  /** In every set of clusters that is closed: the clusters links and entries lead to from the root. */
  ghost predicate Reachable(v: Volume, data: seq<Sector>, t: Table, root: nat, x: nat) {
    forall clusters: set<nat>, directories: set<nat> :: Closed(v, data, t, root, clusters, directories) ==>
      x in clusters
  }

  // ---- Directories that share nothing --------------------------------------------------------------

  /** No two links lead to the same cluster of `held`. */
  predicate LinksApart(v: Volume, t: Table, clusters: set<nat>, held: set<nat>) {
    v.Total() <= |t| &&
    forall x, y :: x in clusters && y in clusters && x < y < v.Total() && Link(t[x]) in held ==>
      Link(t[x]) != Link(t[y])
  }

  /** No link and no entry leads to the root. */
  ghost predicate RootApart(v: Volume, g: Ground, clusters: set<nat>, directories: set<nat>) {
    v.Total() <= |g.table| && (forall x :: x in clusters && x < v.Total() ==> Link(g.table[x]) != g.root) &&
    forall s, ids, k: nat, i: nat :: EntryOf(v, g.data, g.table, directories, s, ids, k, i) ==>
      Target(v, g.data, ids, k, i) != g.root
  }

  /** No cluster of `held` is led to by a link and an entry. */
  ghost predicate LinksAndEntriesApart(v: Volume, g: Ground, clusters: set<nat>, directories: set<nat>,
                                       held: set<nat>) {
    v.Total() <= |g.table| &&
    forall s, ids, k: nat, i: nat, x ::
      EntryOf(v, g.data, g.table, directories, s, ids, k, i) && Target(v, g.data, ids, k, i) in held &&
      x in clusters && x < v.Total() ==>
        Link(g.table[x]) != Target(v, g.data, ids, k, i)
  }

  /** No two entries lead to the same cluster of `held`. */
  ghost predicate EntriesApart(v: Volume, g: Ground, directories: set<nat>, held: set<nat>) {
    forall s, ids, k: nat, i: nat, s1, ids1, k1: nat, i1: nat ::
      EntryOf(v, g.data, g.table, directories, s, ids, k, i) && Target(v, g.data, ids, k, i) in held &&
      EntryOf(v, g.data, g.table, directories, s1, ids1, k1, i1) && (ids[k] != ids1[k1] || i != i1) ==>
        Target(v, g.data, ids, k, i) != Target(v, g.data, ids1, k1, i1)
  }

  /** No cluster of a directory - `held` has all of them - is claimed twice: by two links, by two entries, by a link
      and an entry, or by anything when it is the root. What files share with each other is left open. */
  ghost predicate Tidy(v: Volume, g: Ground, clusters: set<nat>, directories: set<nat>, held: set<nat>) {
    Closed(v, g.data, g.table, g.root, clusters, directories) && directories <= held && LinksInside(v, g.table, held) &&
    LinksApart(v, g.table, clusters, held) && RootApart(v, g, clusters, directories) &&
    LinksAndEntriesApart(v, g, clusters, directories, held) && EntriesApart(v, g, directories, held)
  }

  // ---- How far a check has come ---------------------------------------------------------------------

  ghost function Now(c: Check, walks: seq<seq<nat>>, i: nat, active: bool): Found
    reads c`queue, c`complete, c`crossed, c.fat`table, c.seen
  {
    Found(c.fat.table, c.seen[..], c.queue, walks, i, active, c.complete, c.crossed)
  }

  ghost predicate Shape(v: Volume, g: Ground, f: Found) {
    v.Geometry() && 2 <= |f.seen| == v.Total() <= |g.table| == |f.table| && v.Total() <= BAD &&
    InRange(g.root, v.Total()) && f.seen[g.root] &&
    Times(v.clusterCount, v.sectorsPerCluster) <= |g.data| && |f.walks| <= |f.queue| && f.i <= PerCluster(v) &&
    |f.queue| > 0 && f.queue[0].cluster == g.root && (f.active ==> |f.walks| > 0) &&
    (!f.active && |f.walks| > 0 ==> f.i == PerCluster(v)) &&
    forall q :: 0 <= q < |f.queue| ==> InRange(f.queue[q].cluster, v.Total()) && f.seen[f.queue[q].cluster]
  }

  predicate AllSeen(seen: seq<bool>, ids: seq<nat>) {
    forall k :: 0 <= k < |ids| ==> ids[k] < |seen| && seen[ids[k]]
  }

  /** A walk starts at its directory's first cluster and follows the links. */
  ghost predicate WalkFrom(v: Volume, g: Ground, start: nat, ids: seq<nat>) {
    Run(v, g.data, g.table, start, ids) && Distinct(ids)
  }

  /** Every walk does, and everything in it is marked. */
  ghost predicate WalksFollow(v: Volume, g: Ground, f: Found) {
    |f.walks| <= |f.queue| &&
    forall w :: 0 <= w < |f.walks| ==> WalkFrom(v, g, f.queue[w].cluster, f.walks[w]) && AllSeen(f.seen, f.walks[w])
  }

  /** No cluster is in two walks, and no queued directory has been walked already. */
  ghost predicate WalksApart(f: Found) {
    (forall w, w1, k, k1 :: 0 <= w < w1 < |f.walks| && 0 <= k < |f.walks[w]| && 0 <= k1 < |f.walks[w1]| ==>
       f.walks[w][k] != f.walks[w1][k1]) &&
    (forall w, k, q :: 0 <= w < |f.walks| && 0 <= k < |f.walks[w]| && |f.walks| <= q < |f.queue| ==>
       f.walks[w][k] != f.queue[q].cluster) &&
    forall q, q1 :: 0 <= q < q1 < |f.queue| ==> f.queue[q].cluster != f.queue[q1].cluster
  }

  predicate InQueue(f: Found, x: nat) {
    exists q :: 0 <= q < |f.queue| && f.queue[q].cluster == x
  }

  predicate InWalk(walks: seq<seq<nat>>, x: nat) {
    exists w, k :: 0 <= w < |walks| && 0 <= k < |walks[w]| && walks[w][k] == x
  }

  /** Where the chain of a file ends now. */
  predicate Cut(v: Volume, f: Found, x: nat) {
    x < |f.seen| && x < |f.table| && f.seen[x] && !InRange(Link(f.table[x]), v.Total()) && !InQueue(f, x) &&
    !InWalk(f.walks, x)
  }

  /** Only such entries of the table have changed. */
  ghost predicate TableKept(v: Volume, g: Ground, f: Found) {
    |f.table| == |g.table| && forall x: nat :: x < |f.table| && f.table[x] != g.table[x] ==> Cut(v, f, x)
  }

  /** The slots gone over. */
  predicate Before(f: Found, w: nat, k: nat, i: nat) {
    w < |f.walks| && k < |f.walks[w]| && (w + 1 < |f.walks| || k + 1 < |f.walks[w]| || i < f.i)
  }

  /** And those of them that lead somewhere. */
  ghost predicate Met(v: Volume, g: Ground, f: Found, w: nat, k: nat, i: nat) {
    Before(f, w, k, i) && LeadsAt(v, g.data, f.walks[w], k, i)
  }

  ghost function RawMet(v: Volume, g: Ground, f: Found, w: nat, k: nat, i: nat): Raw
    requires Met(v, g, f, w, k, i)
  {
    RawAt(v, g.data, f.walks[w], k, i)
  }

  /** What an entry gone over leads to is marked, and queued if it is a directory - unless it was marked already, or
      there was no memory to queue it. */
  predicate Handled(f: Found, raw: Raw) {
    FirstOf(raw) < |f.seen| && f.seen[FirstOf(raw)] &&
    (IsDirectory(raw) ==> InQueue(f, FirstOf(raw)) || f.crossed || !f.complete)
  }

  ghost predicate EntriesFollowed(v: Volume, g: Ground, f: Found) {
    forall w: nat, k: nat, i: nat :: Met(v, g, f, w, k, i) ==> Handled(f, RawMet(v, g, f, w, k, i))
  }

  /** Whose link has not been followed yet: directories in the queue, and the cluster in hand. */
  predicate Pending(f: Found, x: nat) {
    (exists q :: |f.walks| <= q < |f.queue| && f.queue[q].cluster == x) ||
    (f.active && |f.walks| > 0 && var w := f.walks[|f.walks| - 1]; |w| > 0 && w[|w| - 1] == x)
  }

  /** The link of x leads to a marked cluster, if to any. */
  predicate LinkMarked(v: Volume, table: Table, seen: seq<bool>, x: nat) {
    |seen| == v.Total() && x < |table| && (InRange(Link(table[x]), v.Total()) ==> seen[Link(table[x])])
  }

  /** So does every other marked cluster's, as the check found it. */
  ghost predicate LinksFollowed(v: Volume, g: Ground, f: Found) {
    f.complete ==> forall x: nat :: x < |f.seen| && f.seen[x] && !Pending(f, x) ==> LinkMarked(v, g.table, f.seen, x)
  }

  /** Some entry gone over leads to x; for a directory, an entry of one of the first `limit` directories. */
  ghost predicate FromEntry(v: Volume, g: Ground, f: Found, x: nat, directory: bool, limit: nat) {
    exists w: nat, k: nat, i: nat :: Met(v, g, f, w, k, i) && FirstOf(RawMet(v, g, f, w, k, i)) == x &&
      (directory ==> IsDirectory(RawMet(v, g, f, w, k, i)) && w < limit)
  }

  /** Some link followed leads to x. */
  ghost predicate FromLink(g: Ground, f: Found, x: nat) {
    exists y: nat :: y < |f.seen| && y < |g.table| && f.seen[y] && !Pending(f, y) && Link(g.table[y]) == x
  }

  /** Why a cluster is marked. */
  ghost predicate Meant(v: Volume, g: Ground, f: Found, x: nat) {
    x == g.root || FromLink(g, f, x) || FromEntry(v, g, f, x, false, 0)
  }

  /** Nothing is marked without a reason, and no directory queued but for an entry of an earlier one. */
  ghost predicate MarksMeant(v: Volume, g: Ground, f: Found) {
    (forall x: nat :: x < |f.seen| && f.seen[x] ==> Meant(v, g, f, x)) &&
    forall q: nat :: 1 <= q < |f.queue| ==> FromEntry(v, g, f, f.queue[q].cluster, true, q)
  }

  /** No cluster a walk went on to is one that an entry before it leads to. */
  ghost predicate WalkFresh(v: Volume, g: Ground, ids: seq<nat>) {
    forall k: nat, i: nat, next: nat :: k < next < |ids| && LeadsAt(v, g.data, ids, k, i) ==>
      Target(v, g.data, ids, k, i) != ids[next]
  }

  ghost predicate WalksFresh(v: Volume, g: Ground, f: Found) {
    forall w :: 0 <= w < |f.walks| ==> WalkFresh(v, g, f.walks[w])
  }

  /** A walk that went to the end of its chain. */
  ghost predicate WalkWhole(v: Volume, g: Ground, ids: seq<nat>) {
    |ids| > 0 && ids[|ids| - 1] < |g.table| && !InRange(Link(g.table[ids[|ids| - 1]]), v.Total())
  }

  /** So did every finished one, unless some directory met a mark. */
  ghost predicate WalksWhole(v: Volume, g: Ground, f: Found) {
    !f.crossed ==> forall w :: 0 <= w < |f.walks| && (w + 1 < |f.walks| || !f.active) ==> WalkWhole(v, g, f.walks[w])
  }

  /** The marks and the queue stay inside these sets. */
  predicate Inside(f: Found, clusters: set<nat>, directories: set<nat>) {
    (forall x: nat :: x < |f.seen| && f.seen[x] ==> x in clusters) &&
    forall q :: 0 <= q < |f.queue| ==> f.queue[q].cluster in directories
  }

  /** As they do whenever the sets are closed; and where directories share nothing, no directory has met a mark. */
  ghost predicate Confined(v: Volume, g: Ground, f: Found) {
    (forall clusters: set<nat>, directories: set<nat> ::
       Closed(v, g.data, g.table, g.root, clusters, directories) ==> Inside(f, clusters, directories)) &&
    forall clusters: set<nat>, directories: set<nat>, held: set<nat> ::
      Tidy(v, g, clusters, directories, held) ==> !f.crossed
  }

  ghost predicate Surveyed(v: Volume, g: Ground, f: Found) {
    Shape(v, g, f) && WalksFollow(v, g, f) && WalksApart(f) && TableKept(v, g, f) && EntriesFollowed(v, g, f) &&
    LinksFollowed(v, g, f) && MarksMeant(v, g, f) && WalksFresh(v, g, f) && WalksWhole(v, g, f) && Confined(v, g, f)
  }

  /** The walk in hand. */
  function Hand(f: Found): seq<nat>
    requires |f.walks| > 0
  {
    f.walks[|f.walks| - 1]
  }

  lemma WalkAt(v: Volume, g: Ground, f: Found, w: nat)
    requires WalksFollow(v, g, f) && w < |f.walks|
    ensures |f.walks| <= |f.queue| && |f.walks[w]| > 0 && Run(v, g.data, g.table, f.queue[w].cluster, f.walks[w])
    ensures Distinct(f.walks[w]) && AllSeen(f.seen, f.walks[w])
  {
    hide Run, AllSeen, Distinct;
    RunFirst(v, g.data, g.table, f.queue[w].cluster, f.walks[w]);
  }

  lemma RunFirst(v: Volume, data: seq<Sector>, t: Table, start: nat, ids: seq<nat>)
    requires Run(v, data, t, start, ids)
    ensures |ids| > 0 && ids[0] == start && v.Total() <= |t| && Fits(v, data, ids)
  {
    hide Fits;
  }

  /** The last cluster of a walk is a marked cluster of the volume. */
  lemma WalkLast(v: Volume, g: Ground, f: Found, w: nat)
    requires WalksFollow(v, g, f) && w < |f.walks| && |f.seen| == v.Total() <= |g.table|
    ensures |f.walks[w]| > 0 && InRange(f.walks[w][|f.walks[w]| - 1], v.Total()) && f.seen[f.walks[w][|f.walks[w]| - 1]]
  {
    hide Fits, WalksFollow;
    WalkAt(v, g, f, w);
  }

  // ---- One more slot --------------------------------------------------------------------------------

  /** What one slot may add to the marks and the table: clusters marked in order, and an end cut into them. */
  ghost predicate Advanced(v: Volume, f: Found, f2: Found, file: seq<nat>) {
    f.active && f2.active && |f.walks| > 0 && f2.walks == f.walks && f.i < PerCluster(v) && f2.i == f.i + 1 &&
    |f2.table| == |f.table| && f2.seen == Marked(f.seen, file) && f.queue <= f2.queue &&
    (f2.complete ==> f.complete) && (f.crossed ==> f2.crossed) &&
    (forall j :: 0 <= j < |file| ==> InRange(file[j], |f.seen|) && !f.seen[file[j]]) &&
    forall x: nat :: x < |f.table| && f2.table[x] != f.table[x] ==> x in file && !InRange(Link(f2.table[x]), v.Total())
  }

  /** These clusters are linked in order, and the last one's link led to a mark, if to any. */
  ghost predicate Linked(v: Volume, f: Found, f2: Found, file: seq<nat>) {
    (forall j :: 0 <= j < |file| - 1 ==> file[j] < |f.table| && file[j + 1] == Link(f.table[file[j]])) &&
    (f2.complete && f2.queue == f.queue ==> forall j :: 0 <= j < |file| ==> LinkMarked(v, f.table, f2.seen, file[j]))
  }

  /** What the slot leads to begins them, and is marked afterwards; a directory may have joined the queue, or have
      been marked before. */
  ghost predicate Led(f: Found, f2: Found, file: seq<nat>, raw: Raw) {
    (file != [] ==> file[0] == FirstOf(raw)) && Handled(f2, raw) &&
    (f2.crossed ==> f.crossed || (IsDirectory(raw) && FirstOf(raw) < |f.seen| && f.seen[FirstOf(raw)])) &&
    (f2.queue == f.queue || (f2.table == f.table && IsDirectory(raw) && |file| == 1 && Joined(f, f2, file[0])))
  }

  predicate Joined(f: Found, f2: Found, x: nat) {
    |f2.queue| == |f.queue| + 1 && f2.queue[|f.queue|].cluster == x
  }

  /** What one slot may add. */
  ghost predicate Outcome(v: Volume, g: Ground, f: Found, f2: Found, file: seq<nat>) {
    Advanced(v, f, f2, file) && Linked(v, f, f2, file) && |Hand(f)| > 0 &&
    if LeadsAt(v, g.data, Hand(f), |Hand(f)| - 1, f.i)
    then Led(f, f2, file, RawAt(v, g.data, Hand(f), |Hand(f)| - 1, f.i))
    else file == [] && f2.queue == f.queue && f2.crossed == f.crossed
  }

  /** A directory that joined the queue is the one cluster marked. */
  lemma StepQueue(v: Volume, g: Ground, f: Found, f2: Found, file: seq<nat>)
    requires Outcome(v, g, f, f2, file)
    ensures f2.queue == f.queue || (f2.table == f.table && |file| == 1 && Joined(f, f2, file[0]))
    ensures Advanced(v, f, f2, file)
  {
    hide LeadsAt, RawAt, Handled, FirstOf, IsDirectory, Advanced, Linked, Joined;
  }

  /** What is marked and in what order it was queued. */
  lemma StepMarks(v: Volume, f: Found, f2: Found, file: seq<nat>)
    requires Advanced(v, f, f2, file)
    ensures |f2.seen| == |f.seen| && forall x: nat :: x < |f.seen| ==> (f2.seen[x] <==> f.seen[x] || x in file)
    ensures forall j :: 0 <= j < |file| ==> InRange(file[j], |f.seen|) && !f.seen[file[j]] && f2.seen[file[j]]
    ensures forall x: nat :: x < |f.seen| && f.seen[x] ==> f2.seen[x] && x !in file
    ensures forall q :: 0 <= q < |f.queue| ==> f2.queue[q] == f.queue[q]
  {
    hide Link;
  }

  lemma StepShape(v: Volume, g: Ground, f: Found, f2: Found, file: seq<nat>)
    requires Shape(v, g, f) && Outcome(v, g, f, f2, file)
    ensures Shape(v, g, f2)
  {
    hide Outcome, Times, Link, Volume.Geometry;
    StepQueue(v, g, f, f2, file);
    StepMarks(v, f, f2, file);
  }

  lemma StepFollow(v: Volume, g: Ground, f: Found, f2: Found, file: seq<nat>)
    requires WalksFollow(v, g, f) && Advanced(v, f, f2, file)
    ensures WalksFollow(v, g, f2)
  {
    hide WalkFrom, Link;
    StepMarks(v, f, f2, file);
  }

  lemma StepApart(v: Volume, g: Ground, f: Found, f2: Found, file: seq<nat>)
    requires Shape(v, g, f) && WalksFollow(v, g, f) && WalksApart(f) && Outcome(v, g, f, f2, file)
    ensures WalksApart(f2)
  {
    StepQueue(v, g, f, f2, file);
    StepMarks(v, f, f2, file);
    assert f2.walks == f.walks;
    hide Outcome, Advanced, Shape, WalksFollow, WalksApart;
    if f2.queue != f.queue {
      NotYetSeen(v, g, f, file[0]);
      JoinedApart(f, f2, file[0]);
    } else {
      SameApart(f, f2);
    }
  }

  lemma SameApart(f: Found, f2: Found)
    requires WalksApart(f) && f2.walks == f.walks && f2.queue == f.queue
    ensures WalksApart(f2)
  {
  }

  lemma JoinedApart(f: Found, f2: Found, x: nat)
    requires WalksApart(f) && f2.walks == f.walks && |f.walks| <= |f.queue| && Joined(f, f2, x)
    requires forall q :: 0 <= q < |f.queue| ==> f2.queue[q] == f.queue[q] && f.queue[q].cluster != x
    requires forall w, k :: 0 <= w < |f.walks| && 0 <= k < |f.walks[w]| ==> f.walks[w][k] != x
    ensures WalksApart(f2)
  {
  }

  /** A cluster not marked yet is in no walk and not in the queue. */
  lemma NotYetSeen(v: Volume, g: Ground, f: Found, x: nat)
    requires Shape(v, g, f) && WalksFollow(v, g, f) && x < |f.seen| && !f.seen[x]
    ensures |f.walks| <= |f.queue| && forall q :: 0 <= q < |f.queue| ==> f.queue[q].cluster != x
    ensures forall w, k :: 0 <= w < |f.walks| && 0 <= k < |f.walks[w]| ==> f.walks[w][k] != x
  {
    hide Times, Volume.Geometry, WalkFrom;
    forall w, k | 0 <= w < |f.walks| && 0 <= k < |f.walks[w]|
      ensures f.walks[w][k] != x
    {
      assert AllSeen(f.seen, f.walks[w]);
    }
  }

  lemma StepTable(v: Volume, g: Ground, f: Found, f2: Found, file: seq<nat>)
    requires Shape(v, g, f) && WalksFollow(v, g, f) && TableKept(v, g, f) && Outcome(v, g, f, f2, file)
    ensures TableKept(v, g, f2)
  {
    StepQueue(v, g, f, f2, file);
    hide Outcome, Times, Volume.Geometry, WalksFollow, Cut, Joined, Link;
    StepMarks(v, f, f2, file);
    forall x: nat | x < |f2.table| && f2.table[x] != g.table[x]
      ensures Cut(v, f2, x)
    {
      if f2.table[x] == f.table[x] {
        CutStill(v, f, f2, file, x);
      } else {
        CutNow(v, g, f, f2, x);
      }
    }
  }

  lemma CutStill(v: Volume, f: Found, f2: Found, file: seq<nat>, x: nat)
    requires Cut(v, f, x) && f2.walks == f.walks && |f2.table| == |f.table| && |f2.seen| == |f.seen|
    requires f2.table[x] == f.table[x] && f2.seen[x] && x !in file && f.queue <= f2.queue
    requires f2.queue == f.queue || (|file| == 1 && Joined(f, f2, file[0]))
    ensures Cut(v, f2, x)
  {
    hide Link;
    forall q | 0 <= q < |f2.queue|
      ensures f2.queue[q].cluster != x
    {
      if q < |f.queue| {
        assert f2.queue[q] == f.queue[q];
      }
    }
  }

  lemma CutNow(v: Volume, g: Ground, f: Found, f2: Found, x: nat)
    requires Shape(v, g, f) && WalksFollow(v, g, f) && x < |f.seen| && !f.seen[x]
    requires x < |f2.table| && |f2.seen| == |f.seen| && f2.seen[x] && !InRange(Link(f2.table[x]), v.Total())
    requires f2.queue == f.queue && f2.walks == f.walks
    ensures Cut(v, f2, x)
  {
    hide Link, Shape, WalksFollow;
    NotYetSeen(v, g, f, x);
  }

  /** What was met before is met still, and only the slot in hand may be new. */
  lemma MetStill(v: Volume, g: Ground, f: Found, f2: Found, w: nat, k: nat, i: nat)
    requires Met(v, g, f, w, k, i) && f2.walks == f.walks && f.i <= f2.i
    ensures Met(v, g, f2, w, k, i) && RawMet(v, g, f2, w, k, i) == RawMet(v, g, f, w, k, i)
  {
    hide LeadsAt, RawAt;
  }

  lemma MetNext(v: Volume, g: Ground, f: Found, f2: Found, w: nat, k: nat, i: nat)
    requires Met(v, g, f2, w, k, i) && f2.walks == f.walks && f2.i <= f.i + 1
    ensures Met(v, g, f, w, k, i) ||
            (w + 1 == |f.walks| && k + 1 == |f.walks[w]| && i == f.i && LeadsAt(v, g.data, f.walks[w], k, i) &&
               RawMet(v, g, f2, w, k, i) == RawAt(v, g.data, f.walks[w], k, i))
  {
    hide LeadsAt, RawAt;
  }

  lemma StepEntries(v: Volume, g: Ground, f: Found, f2: Found, file: seq<nat>)
    requires EntriesFollowed(v, g, f) && Outcome(v, g, f, f2, file)
    ensures EntriesFollowed(v, g, f2)
  {
    hide Met, RawMet, RawAt, LeadsAt, Handled, Outcome, Joined, Link;
    StepQueue(v, g, f, f2, file);
    StepMarks(v, f, f2, file);
    forall w: nat, k: nat, i: nat | Met(v, g, f2, w, k, i)
      ensures Handled(f2, RawMet(v, g, f2, w, k, i))
    {
      MetNext(v, g, f, f2, w, k, i);
      if Met(v, g, f, w, k, i) {
        MetStill(v, g, f, f2, w, k, i);
        HandledStill(f, f2, RawMet(v, g, f, w, k, i));
      } else {
        StepHandled(v, g, f, f2, file);
      }
    }
  }

  lemma StepHandled(v: Volume, g: Ground, f: Found, f2: Found, file: seq<nat>)
    requires Outcome(v, g, f, f2, file) && LeadsAt(v, g.data, Hand(f), |Hand(f)| - 1, f.i)
    ensures Handled(f2, RawAt(v, g.data, Hand(f), |Hand(f)| - 1, f.i))
  {
    hide Handled, LeadsAt, RawAt, Advanced, Linked, FirstOf, Joined, IsDirectory;
  }

  lemma HandledStill(f: Found, f2: Found, raw: Raw)
    requires Handled(f, raw) && |f2.seen| == |f.seen| && f.queue <= f2.queue && (f2.complete ==> f.complete) &&
             (f.crossed ==> f2.crossed)
    requires forall x: nat :: x < |f.seen| && f.seen[x] ==> f2.seen[x]
    ensures Handled(f2, raw)
  {
    hide FirstOf, IsDirectory;
    if InQueue(f, FirstOf(raw)) {
      var q :| 0 <= q < |f.queue| && f.queue[q].cluster == FirstOf(raw);
      assert f2.queue[q] == f.queue[q];
    }
  }

  lemma StepLinks(v: Volume, g: Ground, f: Found, f2: Found, file: seq<nat>)
    requires Shape(v, g, f) && TableKept(v, g, f) && LinksFollowed(v, g, f) && Outcome(v, g, f, f2, file)
    ensures LinksFollowed(v, g, f2)
  {
    StepQueue(v, g, f, f2, file);
    assert Linked(v, f, f2, file);
    hide Outcome, Times, Link, Volume.Geometry, LinkMarked, Pending;
    StepMarks(v, f, f2, file);
    if f2.complete {
      forall x: nat | x < |f2.seen| && f2.seen[x] && !Pending(f2, x)
        ensures LinkMarked(v, g.table, f2.seen, x)
      {
        if f.seen[x] {
          PendingStill(f, f2, x);
          LinkStill(v, g, f, f2, x);
        } else if f2.queue == f.queue {
          FileLink(v, g, f, f2, file, x);
        } else {
          PendingNow(f, f2, x);
        }
      }
    }
  }

  /** The links of a file just walked were the ones the check found: their clusters were not marked yet. */
  lemma FileLink(v: Volume, g: Ground, f: Found, f2: Found, file: seq<nat>, x: nat)
    requires TableKept(v, g, f) && Linked(v, f, f2, file) && f2.complete && f2.queue == f.queue
    requires x in file && x < |f.seen| && !f.seen[x]
    ensures LinkMarked(v, g.table, f2.seen, x)
  {
    hide Link;
    var j :| 0 <= j < |file| && file[j] == x;
    assert LinkMarked(v, f.table, f2.seen, file[j]);
  }

  lemma LinkStill(v: Volume, g: Ground, f: Found, f2: Found, x: nat)
    requires LinkMarked(v, g.table, f.seen, x) && |f2.seen| == |f.seen|
    requires forall y: nat :: y < |f.seen| && f.seen[y] ==> f2.seen[y]
    ensures LinkMarked(v, g.table, f2.seen, x)
  {
    hide Link;
  }

  lemma PendingStill(f: Found, f2: Found, x: nat)
    requires f.queue <= f2.queue && f2.walks == f.walks && f2.active == f.active
    ensures Pending(f, x) ==> Pending(f2, x)
  {
    if q :| |f.walks| <= q < |f.queue| && f.queue[q].cluster == x {
      assert f2.queue[q] == f.queue[q];
    }
  }

  lemma PendingNow(f: Found, f2: Found, x: nat)
    requires |f.walks| <= |f.queue| && f2.walks == f.walks && Joined(f, f2, x)
    ensures Pending(f2, x)
  {
  }

  lemma StepMeant(v: Volume, g: Ground, f: Found, f2: Found, file: seq<nat>)
    requires Shape(v, g, f) && WalksFollow(v, g, f) && TableKept(v, g, f) && MarksMeant(v, g, f) &&
             Outcome(v, g, f, f2, file)
    ensures MarksMeant(v, g, f2)
  {
    hide Shape, WalksFollow, TableKept, Outcome, Meant, FromEntry;
    forall x: nat | x < |f2.seen| && f2.seen[x]
      ensures Meant(v, g, f2, x)
    {
      MeantAfter(v, g, f, f2, file, x);
    }
    forall q: nat | 1 <= q < |f2.queue|
      ensures FromEntry(v, g, f2, f2.queue[q].cluster, true, q)
    {
      QueuedAfter(v, g, f, f2, file, q);
    }
  }

  lemma MeantAfter(v: Volume, g: Ground, f: Found, f2: Found, file: seq<nat>, x: nat)
    requires Shape(v, g, f) && WalksFollow(v, g, f) && TableKept(v, g, f) && MarksMeant(v, g, f) &&
             Outcome(v, g, f, f2, file)
    requires x < |f2.seen| && f2.seen[x]
    ensures Meant(v, g, f2, x)
  {
    hide Shape, WalksFollow, TableKept, Outcome, Advanced, Meant, FromEntry, Joined;
    StepQueue(v, g, f, f2, file);
    StepMarks(v, f, f2, file);
    if f.seen[x] {
      MeantStill(v, g, f, f2, file, x);
    } else {
      var j :| 0 <= j < |file| && file[j] == x;
      MeantNow(v, g, f, f2, file, j);
    }
  }

  lemma StepPlaces(v: Volume, g: Ground, f: Found, f2: Found, file: seq<nat>)
    requires Shape(v, g, f) && Outcome(v, g, f, f2, file)
    ensures |f.walks| <= |f.queue| && f2.walks == f.walks && f.i <= f2.i
    ensures f2.queue == f.queue || (|file| == 1 && Joined(f, f2, file[0]))
    ensures forall q :: 0 <= q < |f.queue| ==> f2.queue[q] == f.queue[q]
  {
    StepQueue(v, g, f, f2, file);
    StepMarks(v, f, f2, file);
    hide Outcome, Times, Volume.Geometry, Link;
  }

  lemma QueuedAfter(v: Volume, g: Ground, f: Found, f2: Found, file: seq<nat>, q: nat)
    requires Shape(v, g, f) && MarksMeant(v, g, f) && Outcome(v, g, f, f2, file) && 1 <= q < |f2.queue|
    ensures FromEntry(v, g, f2, f2.queue[q].cluster, true, q)
  {
    hide Shape, Outcome, Advanced, Meant, FromEntry;
    StepPlaces(v, g, f, f2, file);
    if q < |f.queue| {
      EntryStill(v, g, f, f2, f.queue[q].cluster, true, q);
    } else {
      QueuedNow(v, g, f, f2, file);
    }
  }

  lemma EntryStill(v: Volume, g: Ground, f: Found, f2: Found, x: nat, directory: bool, limit: nat)
    requires f2.walks == f.walks && f.i <= f2.i && FromEntry(v, g, f, x, directory, limit)
    ensures FromEntry(v, g, f2, x, directory, limit)
  {
    hide Met, RawMet, FirstOf, IsDirectory;
    var w: nat, k: nat, i: nat :| Met(v, g, f, w, k, i) && FirstOf(RawMet(v, g, f, w, k, i)) == x &&
      (directory ==> IsDirectory(RawMet(v, g, f, w, k, i)) && w < limit);
    MetStill(v, g, f, f2, w, k, i);
  }

  lemma MeantStill(v: Volume, g: Ground, f: Found, f2: Found, file: seq<nat>, x: nat)
    requires Meant(v, g, f, x) && Outcome(v, g, f, f2, file)
    ensures Meant(v, g, f2, x)
  {
    hide Outcome, Link, FromEntry, FromLink;
    StepQueue(v, g, f, f2, file);
    StepMarks(v, f, f2, file);
    if FromEntry(v, g, f, x, false, 0) {
      EntryStill(v, g, f, f2, x, false, 0);
    } else if FromLink(g, f, x) {
      FromLinkStill(g, f, f2, file, x);
    }
  }

  lemma FromLinkStill(g: Ground, f: Found, f2: Found, file: seq<nat>, x: nat)
    requires FromLink(g, f, x) && |f2.seen| == |f.seen| && f2.walks == f.walks && f2.active == f.active &&
             f.queue <= f2.queue
    requires forall y: nat :: y < |f.seen| && f.seen[y] ==> f2.seen[y] && y !in file
    requires f2.queue == f.queue || (|file| == 1 && Joined(f, f2, file[0]))
    ensures FromLink(g, f2, x)
  {
    hide Link;
    var y: nat :| y < |f.seen| && y < |g.table| && f.seen[y] && !Pending(f, y) && Link(g.table[y]) == x;
    assert forall q :: 0 <= q < |f.queue| ==> f2.queue[q] == f.queue[q];
    assert !Pending(f2, y);
  }

  /** A cluster marked just now is what the slot leads to, or what the cluster before it links to. */
  lemma MeantNow(v: Volume, g: Ground, f: Found, f2: Found, file: seq<nat>, j: nat)
    requires Shape(v, g, f) && WalksFollow(v, g, f) && TableKept(v, g, f) && Outcome(v, g, f, f2, file) && j < |file|
    ensures Meant(v, g, f2, file[j])
  {
    hide Shape, WalksFollow, TableKept, Outcome, FromLink, FromEntry;
    if j == 0 {
      EntryHere(v, g, f, f2, file, false, 0);
    } else {
      LinkHere(v, g, f, f2, file, j);
    }
  }

  lemma QueuedNow(v: Volume, g: Ground, f: Found, f2: Found, file: seq<nat>)
    requires Shape(v, g, f) && Outcome(v, g, f, f2, file) && f2.queue != f.queue
    ensures Joined(f, f2, file[0]) && FromEntry(v, g, f2, file[0], true, |f.queue|)
  {
    hide Outcome, Joined, FromEntry, Times, Volume.Geometry;
    StepQueue(v, g, f, f2, file);
    EntryHere(v, g, f, f2, file, true, |f.queue|);
  }

  /** The slot in hand is now one gone over. */
  lemma EntryHere(v: Volume, g: Ground, f: Found, f2: Found, file: seq<nat>, directory: bool, limit: nat)
    requires Outcome(v, g, f, f2, file) && file != [] && (directory ==> f2.queue != f.queue && |f.walks| <= limit)
    ensures FromEntry(v, g, f2, file[0], directory, limit)
  {
    hide LeadsAt, RawAt, FirstOf, IsDirectory, Handled, Linked, Joined, Link;
    var w, k := |f.walks| - 1, |Hand(f)| - 1;
    assert Met(v, g, f2, w, k, f.i) && RawMet(v, g, f2, w, k, f.i) == RawAt(v, g.data, Hand(f), k, f.i);
  }

  /** The links of a file just walked are links followed. */
  lemma LinkHere(v: Volume, g: Ground, f: Found, f2: Found, file: seq<nat>, j: nat)
    requires Shape(v, g, f) && WalksFollow(v, g, f) && TableKept(v, g, f) && Outcome(v, g, f, f2, file) &&
             0 < j < |file|
    ensures FromLink(g, f2, file[j])
  {
    var y := file[j - 1];
    StepQueue(v, g, f, f2, file);
    assert Linked(v, f, f2, file);
    hide Outcome, Times, Volume.Geometry, Link, LinkMarked;
    StepMarks(v, f, f2, file);
    assert f.table[y] == g.table[y];
    WalkLast(v, g, f, |f.walks| - 1);
    assert !Pending(f2, y);
  }

  lemma StepConfined(v: Volume, g: Ground, f: Found, f2: Found, file: seq<nat>)
    requires Surveyed(v, g, f) && Outcome(v, g, f, f2, file)
    ensures Confined(v, g, f2)
  {
    hide Tidy, Surveyed, Outcome, Inside, Closed;
    forall clusters: set<nat>, directories: set<nat> | Closed(v, g.data, g.table, g.root, clusters, directories)
      ensures Inside(f2, clusters, directories)
    {
      StepInside(v, g, f, f2, file, clusters, directories);
    }
    forall clusters: set<nat>, directories: set<nat>, held: set<nat> | Tidy(v, g, clusters, directories, held)
      ensures !f2.crossed
    {
      ConfinedBy(v, g, f, clusters, directories, held);
      StepNotCrossed(v, g, f, f2, file, clusters, directories, held);
    }
  }

  lemma InsideBy(v: Volume, g: Ground, f: Found, clusters: set<nat>, directories: set<nat>)
    requires Surveyed(v, g, f) && Closed(v, g.data, g.table, g.root, clusters, directories)
    ensures Inside(f, clusters, directories)
    ensures LinksInside(v, g.table, clusters) && EntriesInside(v, g.data, g.table, clusters, directories)
    ensures Shape(v, g, f) && WalksFollow(v, g, f) && WalksApart(f) && TableKept(v, g, f) && MarksMeant(v, g, f)
  {
    hide Shape, WalksFollow, WalksApart, TableKept, EntriesFollowed, LinksFollowed, MarksMeant, WalksFresh, WalksWhole,
         Inside, LinksInside, EntriesInside, Tidy;
    assert Confined(v, g, f);
  }

  lemma ConfinedBy(v: Volume, g: Ground, f: Found, clusters: set<nat>, directories: set<nat>, held: set<nat>)
    requires Surveyed(v, g, f) && Tidy(v, g, clusters, directories, held)
    ensures Inside(f, clusters, directories) && !f.crossed
    ensures Closed(v, g.data, g.table, g.root, clusters, directories) && LinksInside(v, g.table, clusters) &&
            EntriesInside(v, g.data, g.table, clusters, directories)
    ensures Shape(v, g, f) && WalksFollow(v, g, f) && WalksApart(f) && TableKept(v, g, f) && MarksMeant(v, g, f)
  {
    TidyClosed(v, g, clusters, directories, held);
    hide Shape, WalksFollow, WalksApart, TableKept, EntriesFollowed, LinksFollowed, MarksMeant, WalksFresh, WalksWhole,
         Inside, LinksInside, EntriesInside, LinksApart, RootApart, LinksAndEntriesApart, EntriesApart, Tidy;
    InsideBy(v, g, f, clusters, directories);
    assert Confined(v, g, f);
  }

  lemma TidyClosed(v: Volume, g: Ground, clusters: set<nat>, directories: set<nat>, held: set<nat>)
    requires Tidy(v, g, clusters, directories, held)
    ensures Closed(v, g.data, g.table, g.root, clusters, directories)
  {
    hide LinksInside, EntriesInside, LinksApart, RootApart, LinksAndEntriesApart, EntriesApart;
  }

  lemma StepInside(v: Volume, g: Ground, f: Found, f2: Found, file: seq<nat>, clusters: set<nat>, directories: set<nat>)
    requires Surveyed(v, g, f) && Outcome(v, g, f, f2, file)
    requires Closed(v, g.data, g.table, g.root, clusters, directories)
    ensures Inside(f2, clusters, directories)
  {
    hide Surveyed, Outcome, Shape, WalksFollow, WalksApart, TableKept, MarksMeant, Closed, LinksInside, EntriesInside;
    InsideBy(v, g, f, clusters, directories);
    forall x: nat | x < |f2.seen| && f2.seen[x]
      ensures x in clusters
    {
      SeenInside(v, g, f, f2, file, clusters, directories, x);
    }
    forall q | 0 <= q < |f2.queue|
      ensures f2.queue[q].cluster in directories
    {
      QueueInside(v, g, f, f2, file, clusters, directories, q);
    }
  }

  lemma SeenInside(v: Volume, g: Ground, f: Found, f2: Found, file: seq<nat>, clusters: set<nat>, directories: set<nat>,
                   x: nat)
    requires Shape(v, g, f) && WalksFollow(v, g, f) && TableKept(v, g, f) && Outcome(v, g, f, f2, file)
    requires Inside(f, clusters, directories) && LinksInside(v, g.table, clusters)
    requires EntriesInside(v, g.data, g.table, clusters, directories) && x < |f2.seen| && f2.seen[x]
    ensures x in clusters
  {
    hide Shape, WalksFollow, TableKept, Outcome, Advanced, Joined, LinksInside, EntriesInside;
    StepQueue(v, g, f, f2, file);
    StepMarks(v, f, f2, file);
    if !f.seen[x] {
      var j :| 0 <= j < |file| && file[j] == x;
      FileInside(v, g, f, f2, file, clusters, directories, j);
    }
  }

  lemma QueueInside(v: Volume, g: Ground, f: Found, f2: Found, file: seq<nat>, clusters: set<nat>,
                    directories: set<nat>, q: nat)
    requires WalksFollow(v, g, f) && Outcome(v, g, f, f2, file) && q < |f2.queue|
    requires Inside(f, clusters, directories) && EntriesInside(v, g.data, g.table, clusters, directories)
    ensures f2.queue[q].cluster in directories
  {
    hide WalksFollow, Outcome, Advanced, EntriesInside;
    StepQueue(v, g, f, f2, file);
    StepMarks(v, f, f2, file);
    if q >= |f.queue| {
      JoinedInside(v, g, f, f2, file, clusters, directories);
    }
  }

  /** What the slot in hand leads to is inside. */
  lemma HandInside(v: Volume, g: Ground, f: Found, clusters: set<nat>, directories: set<nat>)
    requires WalksFollow(v, g, f) && Inside(f, clusters, directories) && |f.walks| > 0 && |Hand(f)| > 0
    requires EntriesInside(v, g.data, g.table, clusters, directories)
    requires LeadsAt(v, g.data, Hand(f), |Hand(f)| - 1, f.i)
    ensures EntryOf(v, g.data, g.table, directories, f.queue[|f.walks| - 1].cluster, Hand(f), |Hand(f)| - 1, f.i)
    ensures LeadsInside(v, g.data, Hand(f), |Hand(f)| - 1, f.i, clusters, directories)
  {
    hide LeadsAt, Run, LeadsInside;
    WalkAt(v, g, f, |f.walks| - 1);
  }

  lemma {:induction false} FileInside(v: Volume, g: Ground, f: Found, f2: Found, file: seq<nat>, clusters: set<nat>,
                                      directories: set<nat>, j: nat)
    requires Shape(v, g, f) && WalksFollow(v, g, f) && TableKept(v, g, f) && Outcome(v, g, f, f2, file)
    requires Inside(f, clusters, directories) && LinksInside(v, g.table, clusters) && j < |file|
    requires EntriesInside(v, g.data, g.table, clusters, directories)
    ensures file[j] in clusters
  {
    hide LeadsAt, RawAt, Handled, IsDirectory, FirstOf, Link, Times, Volume.Geometry, WalksFollow, EntriesInside,
         Joined, LinkMarked;
    if j > 0 {
      FileInside(v, g, f, f2, file, clusters, directories, j - 1);
      assert f.table[file[j - 1]] == g.table[file[j - 1]];
    } else {
      HandInside(v, g, f, clusters, directories);
    }
  }

  lemma JoinedInside(v: Volume, g: Ground, f: Found, f2: Found, file: seq<nat>, clusters: set<nat>,
                     directories: set<nat>)
    requires WalksFollow(v, g, f) && Outcome(v, g, f, f2, file) && f2.queue != f.queue
    requires Inside(f, clusters, directories) && EntriesInside(v, g.data, g.table, clusters, directories)
    ensures file != [] && file[0] in directories
  {
    hide LeadsAt, RawAt, Handled, IsDirectory, FirstOf, Link, WalksFollow, EntriesInside, Linked, Joined;
    HandInside(v, g, f, clusters, directories);
  }

  lemma StepNotCrossed(v: Volume, g: Ground, f: Found, f2: Found, file: seq<nat>, clusters: set<nat>,
                       directories: set<nat>, held: set<nat>)
    requires Surveyed(v, g, f) && Outcome(v, g, f, f2, file) && Tidy(v, g, clusters, directories, held) && !f.crossed
    ensures !f2.crossed
  {
    hide LeadsAt, RawAt, Handled, IsDirectory, FirstOf, Link, Linked, Joined, Surveyed, Tidy, Marked;
    if f2.crossed {
      NotCrossed(v, g, f, clusters, directories, held);
    }
  }

  /** Where directories share nothing, a directory the slot in hand leads to cannot have been marked already. */
  lemma NotCrossed(v: Volume, g: Ground, f: Found, clusters: set<nat>, directories: set<nat>, held: set<nat>)
    requires Surveyed(v, g, f) && Tidy(v, g, clusters, directories, held) && f.active && |f.walks| > 0 && |Hand(f)| > 0
    requires LeadsAt(v, g.data, Hand(f), |Hand(f)| - 1, f.i)
    requires IsDirectory(RawAt(v, g.data, Hand(f), |Hand(f)| - 1, f.i))
    ensures var x := FirstOf(RawAt(v, g.data, Hand(f), |Hand(f)| - 1, f.i)); x < |f.seen| ==> !f.seen[x]
  {
    ConfinedBy(v, g, f, clusters, directories, held);
    HandInside(v, g, f, clusters, directories);
    hide LeadsAt, RawAt, IsDirectory, FirstOf, Link, Surveyed, WalksFollow, WalksApart, TableKept, Shape, Closed,
         EntryOf, FromEntry, FromLink, LinksInside, EntriesInside, LinksApart, RootApart, LinksAndEntriesApart,
         EntriesApart;
    var x := Target(v, g.data, Hand(f), |Hand(f)| - 1, f.i);
    assert x in held;
    TwoEntries(v, g, f, clusters, directories, held);
    EntryAndLink(v, g, f, clusters, directories, held, f.queue[|f.walks| - 1].cluster, Hand(f), |Hand(f)| - 1, f.i);
    assert !Meant(v, g, f, x);
  }

  lemma EntryAndLink(v: Volume, g: Ground, f: Found, clusters: set<nat>, directories: set<nat>, held: set<nat>, s: nat,
                     ids: seq<nat>, k: nat, i: nat)
    requires RootApart(v, g, clusters, directories) && LinksAndEntriesApart(v, g, clusters, directories, held)
    requires EntryOf(v, g.data, g.table, directories, s, ids, k, i) && Target(v, g.data, ids, k, i) in held
    requires Shape(v, g, f) && Inside(f, clusters, directories)
    ensures var x := Target(v, g.data, ids, k, i); x != g.root && !FromLink(g, f, x)
  {
    hide LeadsAt, RawAt, Target, Link, Run, Pending, Volume.Geometry, Times;
  }

  lemma TwoEntries(v: Volume, g: Ground, f: Found, clusters: set<nat>, directories: set<nat>, held: set<nat>)
    requires WalksFollow(v, g, f) && WalksApart(f) && EntriesApart(v, g, directories, held) && f.active
    requires Inside(f, clusters, directories) && |f.walks| > 0 && |Hand(f)| > 0
    requires LeadsAt(v, g.data, Hand(f), |Hand(f)| - 1, f.i) && Target(v, g.data, Hand(f), |Hand(f)| - 1, f.i) in held
    ensures !FromEntry(v, g, f, Target(v, g.data, Hand(f), |Hand(f)| - 1, f.i), false, 0)
  {
    hide LeadsAt, RawAt, FirstOf, IsDirectory, Run, WalksFollow, EntriesApart, WalksApart;
    var w, k0 := |f.walks| - 1, |Hand(f)| - 1;
    WalkAt(v, g, f, w);
    forall w1: nat, k1: nat, i1: nat | Met(v, g, f, w1, k1, i1)
      ensures FirstOf(RawMet(v, g, f, w1, k1, i1)) != Target(v, g.data, Hand(f), k0, f.i)
    {
      WalkAt(v, g, f, w1);
      OtherPlace(f, w1, k1, i1);
      OneEntry(v, g, directories, held, f.queue[w].cluster, Hand(f), k0, f.i, f.queue[w1].cluster, f.walks[w1], k1, i1);
    }
  }

  /** A slot gone over is not the slot in hand. */
  lemma OtherPlace(f: Found, w: nat, k: nat, i: nat)
    requires WalksApart(f) && Before(f, w, k, i) && |f.walks| > 0 && |Hand(f)| > 0 && Distinct(Hand(f))
    ensures f.walks[w][k] != Hand(f)[|Hand(f)| - 1] || i != f.i
  {
  }

  lemma OneEntry(v: Volume, g: Ground, directories: set<nat>, held: set<nat>, s: nat, ids: seq<nat>, k: nat, i: nat,
                 s1: nat, ids1: seq<nat>, k1: nat, i1: nat)
    requires EntriesApart(v, g, directories, held) && s in directories && s1 in directories
    requires Run(v, g.data, g.table, s, ids) && LeadsAt(v, g.data, ids, k, i) && Target(v, g.data, ids, k, i) in held
    requires Run(v, g.data, g.table, s1, ids1) && LeadsAt(v, g.data, ids1, k1, i1)
    requires k < |ids| && k1 < |ids1| && (ids[k] != ids1[k1] || i != i1)
    ensures Target(v, g.data, ids, k, i) != Target(v, g.data, ids1, k1, i1)
  {
    hide LeadsAt, RawAt, Target, Run;
    assert EntryOf(v, g.data, g.table, directories, s, ids, k, i);
    assert EntryOf(v, g.data, g.table, directories, s1, ids1, k1, i1);
  }

  lemma StepRest(v: Volume, g: Ground, f: Found, f2: Found)
    requires f2.walks == f.walks && f2.active == f.active && (f.crossed ==> f2.crossed)
    ensures WalksFresh(v, g, f) ==> WalksFresh(v, g, f2)
    ensures WalksWhole(v, g, f) ==> WalksWhole(v, g, f2)
  {
    hide WalkFresh, WalkWhole;
  }

  /** One more slot keeps the survey. */
  lemma SurveyStep(v: Volume, g: Ground, f: Found, f2: Found, file: seq<nat>)
    requires Surveyed(v, g, f) && Outcome(v, g, f, f2, file)
    ensures Surveyed(v, g, f2)
  {
    hide WalksFollow, WalksFresh, WalksWhole, WalksApart, TableKept, EntriesFollowed, LinksFollowed, MarksMeant, Shape,
         Outcome, Confined;
    StepQueue(v, g, f, f2, file);
    StepConfined(v, g, f, f2, file);
    StepShape(v, g, f, f2, file);
    StepFollow(v, g, f, f2, file);
    StepApart(v, g, f, f2, file);
    StepTable(v, g, f, f2, file);
    StepEntries(v, g, f, f2, file);
    StepLinks(v, g, f, f2, file);
    StepMeant(v, g, f, f2, file);
    StepRest(v, g, f, f2);
  }

  /** A slot whose cluster is not on the volume leads nowhere; neither does one that is no file and no directory. */
  lemma LeadsNowhere(v: Volume, data: seq<Sector>, ids: seq<nat>, k: nat, i: nat)
    requires Fits(v, data, ids) && k < |ids| && i < PerCluster(v)
    requires var raw := Slots(v, data, ids[k])[i];
             !Real(raw) || Dotted(NameAt(v, data, ids, k, i)) || !InRange(FirstOf(raw), v.Total())
    ensures !LeadsAt(v, data, ids, k, i)
  {
  }

  // ---- From one cluster to the next ----------------------------------------------------------------

  /** What is read of a directory depends on no later cluster. */
  lemma {:induction false} PartialPrefix(v: Volume, data: seq<Sector>, ids: seq<nat>, longer: seq<nat>, k: nat, i: nat)
    requires Fits(v, data, ids) && Fits(v, data, longer) && ids <= longer && k < |ids| && i <= PerCluster(v)
    ensures PartialAt(v, data, longer, k, i) == PartialAt(v, data, ids, k, i)
    decreases k, i
  {
    hide Slots, Named;
    assert longer[k] == ids[k];
    if i > 0 {
      PartialPrefix(v, data, ids, longer, k, i - 1);
    } else if k > 0 {
      PartialPrefix(v, data, ids, longer, k - 1, PerCluster(v));
    }
  }

  lemma LeadsPrefix(v: Volume, data: seq<Sector>, ids: seq<nat>, longer: seq<nat>, k: nat, i: nat)
    requires Fits(v, data, ids) && Fits(v, data, longer) && ids <= longer && k < |ids|
    ensures longer[k] == ids[k] && LeadsAt(v, data, longer, k, i) == LeadsAt(v, data, ids, k, i)
    ensures LeadsAt(v, data, ids, k, i) ==> RawAt(v, data, longer, k, i) == RawAt(v, data, ids, k, i)
  {
    hide Slots, NameOf, Real, FirstOf, Dotted, PartialAt;
    assert longer[k] == ids[k];
    if i < PerCluster(v) {
      PartialPrefix(v, data, ids, longer, k, i);
    }
  }

  /** The next cluster of the directory in hand, just marked. */
  ghost function Onward(f: Found, next: nat): Found
    requires |f.walks| > 0 && next < |f.seen|
  {
    f.(seen := f.seen[next := true], walks := f.walks[|f.walks| - 1 := Hand(f) + [next]], i := 0)
  }

  ghost predicate MayGoOn(v: Volume, f: Found, next: nat) {
    f.active && |f.walks| > 0 && f.i == PerCluster(v) && InRange(next, |f.seen|) && !f.seen[next] &&
    |Hand(f)| > 0 && Hand(f)[|Hand(f)| - 1] < |f.table| && Link(f.table[Hand(f)[|Hand(f)| - 1]]) == next
  }

  /** The last cluster in hand, whose entry of the table is the one it had when the check began. */
  ghost predicate LastSame(v: Volume, g: Ground, f: Found, last: nat) {
    |f.walks| > 0 && |Hand(f)| > 0 && last == Hand(f)[|Hand(f)| - 1] && InRange(last, v.Total()) &&
    last < |g.table| && last < |f.table| && last < |f.seen| && g.table[last] == f.table[last] && f.seen[last]
  }

  lemma LastKept(v: Volume, g: Ground, f: Found)
    requires Shape(v, g, f) && WalksFollow(v, g, f) && TableKept(v, g, f) && |f.walks| > 0
    ensures |Hand(f)| > 0 && LastSame(v, g, f, Hand(f)[|Hand(f)| - 1])
  {
    hide WalksFollow, Link, Times, Volume.Geometry;
    WalkLast(v, g, f, |f.walks| - 1);
    assert InWalk(f.walks, Hand(f)[|Hand(f)| - 1]);
  }

  /** The walks afterwards: the earlier ones as they were, and the one in hand with one cluster more. */
  lemma OnwardWalks(v: Volume, g: Ground, f: Found, next: nat)
    requires WalksFollow(v, g, f) && MayGoOn(v, f, next)
    ensures var f2 := Onward(f, next);
            |f2.walks| == |f.walks| && |f.walks| <= |f.queue| && Hand(f2) == Hand(f) + [next] &&
            forall w :: 0 <= w < |f.walks| - 1 ==> f2.walks[w] == f.walks[w]
    ensures forall w, k :: 0 <= w < |f.walks| && 0 <= k < |f.walks[w]| ==>
              f.walks[w][k] < |f.seen| && f.seen[f.walks[w][k]] && f.walks[w][k] != next
  {
    hide WalkFrom, Link;
    forall w, k | 0 <= w < |f.walks| && 0 <= k < |f.walks[w]|
      ensures f.walks[w][k] < |f.seen| && f.seen[f.walks[w][k]]
    {
      assert AllSeen(f.seen, f.walks[w]);
    }
  }

  lemma OnwardShape(v: Volume, g: Ground, f: Found, next: nat)
    requires Shape(v, g, f) && MayGoOn(v, f, next)
    ensures Shape(v, g, Onward(f, next))
  {
    hide Times, Link, Volume.Geometry;
  }

  lemma OnwardFollow(v: Volume, g: Ground, f: Found, next: nat, last: nat)
    requires Shape(v, g, f) && WalksFollow(v, g, f) && MayGoOn(v, f, next) && LastSame(v, g, f, last)
    ensures WalksFollow(v, g, Onward(f, next))
  {
    var f2, h := Onward(f, next), |f.walks| - 1;
    OnwardWalks(v, g, f, next);
    hide WalkFrom, Link, Times, Volume.Geometry, Onward, AllSeen;
    assert WalkFrom(v, g, f.queue[h].cluster, Hand(f)) && AllSeen(f.seen, Hand(f));
    WalkLonger(v, g, f.queue[h].cluster, Hand(f), next);
    forall w | 0 <= w < |f.walks|
      ensures WalkFrom(v, g, f2.queue[w].cluster, f2.walks[w]) && AllSeen(f2.seen, f2.walks[w])
    {
      SeenLonger(f, next, w);
    }
  }

  lemma SeenLonger(f: Found, next: nat, w: nat)
    requires w < |f.walks| && next < |f.seen| && AllSeen(f.seen, f.walks[w])
    ensures AllSeen(Onward(f, next).seen, Onward(f, next).walks[w]) && Onward(f, next).queue == f.queue
  {
  }

  lemma WalkLonger(v: Volume, g: Ground, start: nat, ids: seq<nat>, next: nat)
    requires WalkFrom(v, g, start, ids) && InRange(next, v.Total()) && v.Geometry() &&
             Times(v.clusterCount, v.sectorsPerCluster) <= |g.data|
    requires next !in ids && Link(g.table[ids[|ids| - 1]]) == next
    ensures WalkFrom(v, g, start, ids + [next])
  {
    hide Fits, Link, Times;
    FitsMore(v, g.data, ids, next);
    var longer := ids + [next];
    forall k | 0 <= k < |longer| - 1
      ensures Link(g.table[longer[k]]) == longer[k + 1]
    {
      if k + 1 < |ids| {
        assert longer[k] == ids[k] && longer[k + 1] == ids[k + 1];
      }
    }
  }

  lemma FitsMore(v: Volume, data: seq<Sector>, ids: seq<nat>, next: nat)
    requires v.Geometry() && Fits(v, data, ids) && InRange(next, v.Total()) &&
             Times(v.clusterCount, v.sectorsPerCluster) <= |data|
    ensures Fits(v, data, ids + [next])
  {
    hide Times;
    v.ClusterInside(next);
  }

  lemma OnwardApart(v: Volume, g: Ground, f: Found, next: nat)
    requires Shape(v, g, f) && WalksFollow(v, g, f) && WalksApart(f) && MayGoOn(v, f, next)
    ensures WalksApart(Onward(f, next))
  {
    OnwardWalks(v, g, f, next);
    OnwardSame(v, f, next);
    NotYetSeen(v, g, f, next);
    hide Shape, WalksFollow, MayGoOn, Onward, WalksApart;
    LongerApart(f, Onward(f, next), next);
  }

  lemma LongerApart(f: Found, f2: Found, next: nat)
    requires WalksApart(f) && 0 < |f.walks| == |f2.walks| && f2.queue == f.queue && Hand(f2) == Hand(f) + [next]
    requires forall w :: 0 <= w < |f.walks| - 1 ==> f2.walks[w] == f.walks[w]
    requires forall q :: 0 <= q < |f.queue| ==> f.queue[q].cluster != next
    requires forall w, k :: 0 <= w < |f.walks| && 0 <= k < |f.walks[w]| ==> f.walks[w][k] != next
    ensures WalksApart(f2)
  {
    forall w, k | 0 <= w < |f2.walks| && 0 <= k < |f2.walks[w]|
      ensures (f2.walks[w][k] == next && w + 1 == |f2.walks|) ||
              (k < |f.walks[w]| && f2.walks[w][k] == f.walks[w][k])
    {
    }
  }

  lemma OnwardTable(v: Volume, g: Ground, f: Found, next: nat)
    requires Shape(v, g, f) && WalksFollow(v, g, f) && TableKept(v, g, f) && MayGoOn(v, f, next)
    ensures TableKept(v, g, Onward(f, next))
  {
    OnwardWalks(v, g, f, next);
    hide Times, Link, Volume.Geometry, WalksFollow, MayGoOn, Onward, Cut;
    var f2 := Onward(f, next);
    OnwardSame(v, f, next);
    forall x: nat | x < |f2.table| && f2.table[x] != g.table[x]
      ensures Cut(v, f2, x)
    {
      CutOnward(v, f, next, x);
    }
  }

  lemma OnwardSame(v: Volume, f: Found, next: nat)
    requires MayGoOn(v, f, next)
    ensures var f2 := Onward(f, next);
            f2.table == f.table && f2.queue == f.queue && |f2.seen| == |f.seen| && f2.active == f.active &&
            f2.complete == f.complete && f2.crossed == f.crossed && |f2.walks| == |f.walks|
    ensures forall x: nat :: x < |f.seen| ==> (Onward(f, next).seen[x] <==> f.seen[x] || x == next)
  {
    hide Link;
  }

  lemma CutOnward(v: Volume, f: Found, next: nat, x: nat)
    requires Cut(v, f, x) && |f.walks| > 0 && next < |f.seen| && !f.seen[next]
    ensures Cut(v, Onward(f, next), x)
  {
    hide Link;
    var f2 := Onward(f, next);
    forall w, k | 0 <= w < |f2.walks| && 0 <= k < |f2.walks[w]|
      ensures f2.walks[w][k] != x
    {
      if w + 1 < |f.walks| || k < |f.walks[w]| {
        assert f2.walks[w][k] == f.walks[w][k];
      }
    }
  }

  /** Every slot of the walks before has been gone over by then, and none of the walks after is new. */
  lemma OnwardMet(v: Volume, g: Ground, f: Found, next: nat, w: nat, k: nat, i: nat)
    requires MayGoOn(v, f, next) && WalksFollow(v, g, f) && WalksFollow(v, g, Onward(f, next))
    ensures Met(v, g, Onward(f, next), w, k, i) == Met(v, g, f, w, k, i)
    ensures Met(v, g, f, w, k, i) ==>
              w < |f.walks| && k < |f.walks[w]| && RawMet(v, g, Onward(f, next), w, k, i) == RawMet(v, g, f, w, k, i)
  {
    var f2 := Onward(f, next);
    if w < |f.walks| && k < |f.walks[w]| {
      WalkAt(v, g, f, w);
      WalkAt(v, g, f2, w);
      RunFirst(v, g.data, g.table, f.queue[w].cluster, f.walks[w]);
      RunFirst(v, g.data, g.table, f2.queue[w].cluster, f2.walks[w]);
      hide WalksFollow, Run, Fits, Link, LeadsAt, RawAt;
      LeadsPrefix(v, g.data, f.walks[w], f2.walks[w], k, i);
      if LeadsAt(v, g.data, f.walks[w], k, i) {
        LeadsInPlace(v, g.data, f.walks[w], k, i);
      }
    } else {
      hide WalksFollow, LeadsAt, Link;
    }
  }

  lemma LeadsInPlace(v: Volume, data: seq<Sector>, ids: seq<nat>, k: nat, i: nat)
    requires LeadsAt(v, data, ids, k, i)
    ensures Fits(v, data, ids) && k < |ids| && i < PerCluster(v)
  {
    hide Slots, Real, Dotted, FirstOf, Fits, NameAt;
  }

  lemma OnwardEntries(v: Volume, g: Ground, f: Found, next: nat)
    requires MayGoOn(v, f, next) && WalksFollow(v, g, f) && WalksFollow(v, g, Onward(f, next)) &&
             EntriesFollowed(v, g, f)
    ensures EntriesFollowed(v, g, Onward(f, next))
  {
    var f2 := Onward(f, next);
    OnwardSame(v, f, next);
    hide WalksFollow, Met, RawMet, Handled, MayGoOn, Onward;
    forall w: nat, k: nat, i: nat | Met(v, g, f2, w, k, i)
      ensures Handled(f2, RawMet(v, g, f2, w, k, i))
    {
      OnwardMet(v, g, f, next, w, k, i);
      HandledStill(f, f2, RawMet(v, g, f, w, k, i));
    }
  }

  /** The cluster gone on to was not marked, so no entry so far leads to it. */
  lemma OnwardFresh(v: Volume, g: Ground, f: Found, next: nat)
    requires MayGoOn(v, f, next) && WalksFollow(v, g, f) && WalksFollow(v, g, Onward(f, next)) &&
             EntriesFollowed(v, g, f) && WalksFresh(v, g, f)
    ensures WalksFresh(v, g, Onward(f, next))
  {
    var f2, h := Onward(f, next), |f.walks| - 1;
    OnwardWalks(v, g, f, next);
    WalkAt(v, g, f2, h);
    WalkAt(v, g, f, h);
    RunFirst(v, g.data, g.table, f.queue[h].cluster, Hand(f));
    RunFirst(v, g.data, g.table, f2.queue[h].cluster, Hand(f2));
    hide WalksFollow, EntriesFollowed, Onward, Link, Run, LeadsAt, RawAt, Fits, Target;
    assert WalkFresh(v, g, Hand(f));
    forall k: nat, i: nat, n: nat | k < n < |Hand(f2)| && LeadsAt(v, g.data, Hand(f2), k, i)
      ensures Target(v, g.data, Hand(f2), k, i) != Hand(f2)[n]
    {
      HandTarget(v, g, f, next, k, i);
    }
    hide WalkFresh;
  }

  lemma HandTarget(v: Volume, g: Ground, f: Found, next: nat, k: nat, i: nat)
    requires WalksFollow(v, g, f) && EntriesFollowed(v, g, f) && MayGoOn(v, f, next)
    requires Fits(v, g.data, Hand(f)) && Fits(v, g.data, Hand(f) + [next]) && k < |Hand(f)|
    requires LeadsAt(v, g.data, Hand(f) + [next], k, i)
    ensures LeadsAt(v, g.data, Hand(f), k, i) &&
            Target(v, g.data, Hand(f) + [next], k, i) == Target(v, g.data, Hand(f), k, i) != next
  {
    hide WalksFollow, Fits, LeadsAt, RawAt, FirstOf, IsDirectory, Link, InQueue;
    LeadsPrefix(v, g.data, Hand(f), Hand(f) + [next], k, i);
    LeadsInPlace(v, g.data, Hand(f), k, i);
    assert Met(v, g, f, |f.walks| - 1, k, i);
  }

  lemma OnwardLinks(v: Volume, g: Ground, f: Found, next: nat, last: nat)
    requires Shape(v, g, f) && LinksFollowed(v, g, f) && MayGoOn(v, f, next) && LastSame(v, g, f, last)
    ensures LinksFollowed(v, g, Onward(f, next))
  {
    var f2 := Onward(f, next);
    OnwardSame(v, f, next);
    if f2.complete {
      forall x: nat | x < |f2.seen| && f2.seen[x] && !Pending(f2, x)
        ensures LinkMarked(v, g.table, f2.seen, x)
      {
        OnwardPending(v, f, next, x);
        hide Pending, Link, Times, Volume.Geometry, Onward;
        if x != last {
          LinkStill(v, g, f, f2, x);
        }
      }
    }
  }

  /** The cluster gone on to is the one in hand now, and the one before it no longer is. */
  lemma OnwardPending(v: Volume, f: Found, next: nat, x: nat)
    requires MayGoOn(v, f, next) && !Pending(Onward(f, next), x)
    ensures x != next && (Pending(f, x) ==> x == Hand(f)[|Hand(f)| - 1])
  {
    hide Link;
    var f2 := Onward(f, next);
    assert f2.walks[|f2.walks| - 1] == Hand(f) + [next];
  }

  lemma OnwardMeant(v: Volume, g: Ground, f: Found, next: nat, last: nat)
    requires MayGoOn(v, f, next) && LastSame(v, g, f, last) && Shape(v, g, f)
    requires WalksFollow(v, g, f) && WalksFollow(v, g, Onward(f, next)) && WalksApart(f) && MarksMeant(v, g, f)
    ensures MarksMeant(v, g, Onward(f, next))
  {
    hide Shape, WalksFollow, WalksApart, Meant, FromLink, FromEntry, MayGoOn, Onward, LastSame;
    GoOnFacts(v, f, next);
    OnwardSame(v, f, next);
    OnwardLink(v, g, f, next, last);
    var f2 := Onward(f, next);
    forall x: nat | x < |f2.seen| && f2.seen[x]
      ensures Meant(v, g, f2, x)
    {
      if x == next {
        MeantByLink(v, g, f2, x);
      } else {
        OnwardStill(v, g, f, next, x);
      }
    }
    forall q: nat | 1 <= q < |f2.queue|
      ensures FromEntry(v, g, f2, f2.queue[q].cluster, true, q)
    {
      OnwardEntry(v, g, f, next, f.queue[q].cluster, true, q);
    }
  }

  lemma GoOnFacts(v: Volume, f: Found, next: nat)
    requires MayGoOn(v, f, next)
    ensures |f.walks| > 0 && next < |f.seen|
  {
    hide Link;
  }

  lemma MeantByLink(v: Volume, g: Ground, f: Found, x: nat)
    requires FromLink(g, f, x)
    ensures Meant(v, g, f, x)
  {
    hide FromLink, FromEntry;
  }

  lemma OnwardStill(v: Volume, g: Ground, f: Found, next: nat, x: nat)
    requires MayGoOn(v, f, next) && WalksFollow(v, g, f) && WalksFollow(v, g, Onward(f, next)) && Meant(v, g, f, x)
    ensures Meant(v, g, Onward(f, next), x)
  {
    hide WalksFollow, FromLink, FromEntry, MayGoOn, Onward;
    if FromLink(g, f, x) {
      OnwardOldLink(v, g, f, next, x);
    } else if FromEntry(v, g, f, x, false, 0) {
      OnwardEntry(v, g, f, next, x, false, 0);
    }
  }

  lemma OnwardLink(v: Volume, g: Ground, f: Found, next: nat, last: nat)
    requires Shape(v, g, f) && WalksFollow(v, g, f) && WalksApart(f) && MayGoOn(v, f, next) && LastSame(v, g, f, last)
    ensures FromLink(g, Onward(f, next), next)
  {
    hide Times, Link, Volume.Geometry, WalksFollow;
    var f2 := Onward(f, next);
    assert Hand(f2) == Hand(f) + [next];
    assert f2.seen[last] && !Pending(f2, last) by {
      assert f.walks[|f.walks| - 1][|Hand(f)| - 1] == last;
    }
  }

  lemma OnwardOldLink(v: Volume, g: Ground, f: Found, next: nat, x: nat)
    requires MayGoOn(v, f, next) && FromLink(g, f, x)
    ensures FromLink(g, Onward(f, next), x)
  {
    hide Link;
    var f2 := Onward(f, next);
    assert Hand(f2) == Hand(f) + [next];
    var y: nat :| y < |f.seen| && y < |g.table| && f.seen[y] && !Pending(f, y) && Link(g.table[y]) == x;
    assert f2.seen[y] && !Pending(f2, y);
  }

  lemma OnwardEntry(v: Volume, g: Ground, f: Found, next: nat, x: nat, directory: bool, limit: nat)
    requires MayGoOn(v, f, next) && WalksFollow(v, g, f) && WalksFollow(v, g, Onward(f, next)) &&
             FromEntry(v, g, f, x, directory, limit)
    ensures FromEntry(v, g, Onward(f, next), x, directory, limit)
  {
    hide WalksFollow, Met, RawMet, FirstOf, IsDirectory, MayGoOn, Onward;
    var w: nat, k: nat, i: nat :| Met(v, g, f, w, k, i) && FirstOf(RawMet(v, g, f, w, k, i)) == x &&
      (directory ==> IsDirectory(RawMet(v, g, f, w, k, i)) && w < limit);
    OnwardMet(v, g, f, next, w, k, i);
  }

  lemma OnwardWhole(v: Volume, g: Ground, f: Found, next: nat)
    requires WalksFollow(v, g, f) && WalksWhole(v, g, f) && MayGoOn(v, f, next)
    ensures WalksWhole(v, g, Onward(f, next))
  {
    hide WalksFollow, WalkWhole, Link;
    OnwardWalks(v, g, f, next);
  }

  lemma OnwardConfined(v: Volume, g: Ground, f: Found, next: nat, last: nat)
    requires Confined(v, g, f) && MayGoOn(v, f, next) && LastSame(v, g, f, last) && |f.seen| == v.Total()
    ensures Confined(v, g, Onward(f, next))
  {
    hide Tidy, Closed, Link;
    var f2 := Onward(f, next);
    forall clusters: set<nat>, directories: set<nat> | Closed(v, g.data, g.table, g.root, clusters, directories)
      ensures Inside(f2, clusters, directories)
    {
      ClosedLinks(v, g, clusters, directories);
      assert Inside(f, clusters, directories);
      assert last in clusters && next in clusters;
    }
  }

  lemma ClosedLinks(v: Volume, g: Ground, clusters: set<nat>, directories: set<nat>)
    requires Closed(v, g.data, g.table, g.root, clusters, directories)
    ensures LinksInside(v, g.table, clusters)
  {
    hide LinksInside, EntriesInside;
  }

  /** Going on to the directory's next cluster keeps the survey. */
  lemma SurveyOnward(v: Volume, g: Ground, f: Found, next: nat)
    requires Surveyed(v, g, f) && MayGoOn(v, f, next)
    ensures Surveyed(v, g, Onward(f, next))
  {
    assert |f.walks| > 0 && |f.seen| == v.Total();
    hide WalksFollow, WalksFresh, WalksWhole, WalksApart, TableKept, EntriesFollowed, LinksFollowed, MarksMeant, Shape,
         Confined, MayGoOn, Onward, LastSame;
    LastKept(v, g, f);
    var last := Hand(f)[|Hand(f)| - 1];
    OnwardShape(v, g, f, next);
    OnwardFollow(v, g, f, next, last);
    OnwardApart(v, g, f, next);
    OnwardTable(v, g, f, next);
    OnwardEntries(v, g, f, next);
    OnwardFresh(v, g, f, next);
    OnwardLinks(v, g, f, next, last);
    OnwardMeant(v, g, f, next, last);
    OnwardWhole(v, g, f, next);
    OnwardConfined(v, g, f, next, last);
  }

  // ---- The end of a directory ----------------------------------------------------------------------

  /** The directory in hand, gone over to its end: its chain leads nowhere any more, or to a cluster marked already. */
  ghost predicate MayStop(v: Volume, f: Found, f2: Found) {
    f.active && |f.walks| > 0 && f.i == PerCluster(v) && f2 == f.(active := false, crossed := f2.crossed) &&
    |Hand(f)| > 0 && Hand(f)[|Hand(f)| - 1] < |f.table| && |f.seen| == v.Total() &&
    var link := Link(f.table[Hand(f)[|Hand(f)| - 1]]);
    if InRange(link, v.Total()) then f.seen[link] && f2.crossed else f2.crossed == f.crossed
  }

  /** Nothing but that has changed. */
  predicate Stopped(f: Found, f2: Found) {
    f2 == f.(active := false, crossed := f2.crossed) && (f.crossed ==> f2.crossed)
  }

  lemma StopShape(v: Volume, g: Ground, f: Found, f2: Found)
    requires Shape(v, g, f) && WalksFollow(v, g, f) && WalksApart(f) && TableKept(v, g, f) && MayStop(v, f, f2)
    ensures Shape(v, g, f2) && WalksFollow(v, g, f2) && WalksApart(f2) && TableKept(v, g, f2)
    ensures Stopped(f, f2)
  {
    hide Times, Link, Volume.Geometry, WalkFrom;
  }

  lemma StopLinks(v: Volume, g: Ground, f: Found, f2: Found, last: nat)
    requires Shape(v, g, f) && LinksFollowed(v, g, f) && MayStop(v, f, f2) && LastSame(v, g, f, last)
    ensures LinksFollowed(v, g, f2)
  {
    if f2.complete {
      forall x: nat | x < |f2.seen| && f2.seen[x] && !Pending(f2, x)
        ensures LinkMarked(v, g.table, f2.seen, x)
      {
        assert x == last || !Pending(f, x);
        hide Pending, Link, Times, Volume.Geometry;
      }
    }
  }

  lemma StopEntries(v: Volume, g: Ground, f: Found, f2: Found)
    requires EntriesFollowed(v, g, f) && MarksMeant(v, g, f) && Stopped(f, f2)
    ensures EntriesFollowed(v, g, f2) && MarksMeant(v, g, f2)
  {
    hide Met, RawMet, Handled, FromLink, FromEntry;
    forall w: nat, k: nat, i: nat | Met(v, g, f2, w, k, i)
      ensures Handled(f2, RawMet(v, g, f2, w, k, i))
    {
      MetStill(v, g, f2, f, w, k, i);
      HandledStill(f, f2, RawMet(v, g, f, w, k, i));
    }
    forall x: nat | x < |f2.seen| && f2.seen[x]
      ensures Meant(v, g, f2, x)
    {
      if FromEntry(v, g, f, x, false, 0) {
        EntryStill(v, g, f, f2, x, false, 0);
      } else if FromLink(g, f, x) {
        StopLink(g, f, f2, x);
      }
    }
    forall q: nat | 1 <= q < |f2.queue|
      ensures FromEntry(v, g, f2, f2.queue[q].cluster, true, q)
    {
      EntryStill(v, g, f, f2, f.queue[q].cluster, true, q);
    }
  }

  lemma StopLink(g: Ground, f: Found, f2: Found, x: nat)
    requires FromLink(g, f, x) && Stopped(f, f2)
    ensures FromLink(g, f2, x)
  {
    hide Link;
    var y: nat :| y < |f.seen| && y < |g.table| && f.seen[y] && !Pending(f, y) && Link(g.table[y]) == x;
    assert !Pending(f2, y);
  }

  /** Where directories share nothing, the link behind a directory's last cluster leads to no marked cluster. */
  lemma StopConfined(v: Volume, g: Ground, f: Found, f2: Found, last: nat)
    requires Surveyed(v, g, f) && MayStop(v, f, f2) && LastSame(v, g, f, last)
    ensures Confined(v, g, f2)
  {
    hide Tidy, Surveyed, Link, Closed;
    forall clusters: set<nat>, directories: set<nat> | Closed(v, g.data, g.table, g.root, clusters, directories)
      ensures Inside(f2, clusters, directories)
    {
      InsideBy(v, g, f, clusters, directories);
    }
    forall clusters: set<nat>, directories: set<nat>, held: set<nat> | Tidy(v, g, clusters, directories, held)
      ensures !f2.crossed
    {
      ConfinedBy(v, g, f, clusters, directories, held);
      if InRange(Link(g.table[last]), v.Total()) {
        LinkNotMarked(v, g, f, clusters, directories, held, last);
      }
    }
  }

  lemma LinkNotMarked(v: Volume, g: Ground, f: Found, clusters: set<nat>, directories: set<nat>, held: set<nat>,
                      last: nat)
    requires Surveyed(v, g, f) && Tidy(v, g, clusters, directories, held) && LastSame(v, g, f, last) && f.active
    requires InRange(Link(g.table[last]), v.Total())
    ensures var x := Link(g.table[last]); x < |f.seen| ==> !f.seen[x]
  {
    hide Surveyed, Shape, WalksFollow, WalksApart, TableKept, Closed, LinksInside, EntriesInside, LinksApart, RootApart,
         LinksAndEntriesApart, EntriesApart, FromLink, FromEntry, Link, Run;
    ConfinedBy(v, g, f, clusters, directories, held);
    WalkAt(v, g, f, |f.walks| - 1);
    HeldRun(v, g, directories, held, f.queue[|f.walks| - 1].cluster, Hand(f), |Hand(f)| - 1);
    HeldLink(v, g.table, held, last);
    LinkAndEntries(v, g, f, clusters, directories, held, last);
    LinkAndLinks(v, g, f, clusters, directories, held, last);
    assert !Meant(v, g, f, Link(g.table[last]));
  }

  lemma {:induction false} HeldRun(v: Volume, g: Ground, directories: set<nat>, held: set<nat>, start: nat,
                                   ids: seq<nat>, k: nat)
    requires directories <= held && LinksInside(v, g.table, held) && start in directories
    requires Run(v, g.data, g.table, start, ids) && k < |ids|
    ensures ids[k] in held
  {
    hide Fits, Link;
    if k > 0 {
      HeldRun(v, g, directories, held, start, ids, k - 1);
      assert Link(g.table[ids[k - 1]]) == ids[k];
    }
  }

  lemma HeldLink(v: Volume, t: Table, held: set<nat>, x: nat)
    requires LinksInside(v, t, held) && x in held && x < v.Total() && InRange(Link(t[x]), v.Total())
    ensures Link(t[x]) in held
  {
    hide Link;
  }

  lemma LinkAndEntries(v: Volume, g: Ground, f: Found, clusters: set<nat>, directories: set<nat>, held: set<nat>,
                       last: nat)
    requires WalksFollow(v, g, f) && RootApart(v, g, clusters, directories) && Inside(f, clusters, directories)
    requires LinksAndEntriesApart(v, g, clusters, directories, held)
    requires LastSame(v, g, f, last) && Link(g.table[last]) in held
    ensures !FromEntry(v, g, f, Link(g.table[last]), false, 0) && Link(g.table[last]) != g.root
  {
    hide WalksFollow, LeadsAt, RawAt, FirstOf, IsDirectory, Link, Run;
    forall w: nat, k: nat, i: nat | Met(v, g, f, w, k, i)
      ensures FirstOf(RawMet(v, g, f, w, k, i)) != Link(g.table[last])
    {
      WalkAt(v, g, f, w);
      assert EntryOf(v, g.data, g.table, directories, f.queue[w].cluster, f.walks[w], k, i);
    }
  }

  lemma LinkAndLinks(v: Volume, g: Ground, f: Found, clusters: set<nat>, directories: set<nat>, held: set<nat>,
                     last: nat)
    requires LinksApart(v, g.table, clusters, held) && Shape(v, g, f) && Inside(f, clusters, directories)
    requires LastSame(v, g, f, last) && f.active && Link(g.table[last]) in held
    ensures !FromLink(g, f, Link(g.table[last]))
  {
    assert Pending(f, last);
    hide Link, Pending, Times, Volume.Geometry;
    forall y: nat | y < |f.seen| && y < |g.table| && f.seen[y] && !Pending(f, y)
      ensures Link(g.table[y]) != Link(g.table[last])
    {
      assert y != last && y in clusters;
    }
  }

  lemma StopWalks(v: Volume, g: Ground, f: Found, f2: Found, last: nat)
    requires WalksFresh(v, g, f) && WalksWhole(v, g, f) && MayStop(v, f, f2) && LastSame(v, g, f, last)
    ensures WalksFresh(v, g, f2) && WalksWhole(v, g, f2)
  {
    hide WalkFresh, Link;
  }

  /** The end of one directory keeps the survey. */
  lemma SurveyStop(v: Volume, g: Ground, f: Found, f2: Found)
    requires Surveyed(v, g, f) && MayStop(v, f, f2)
    requires f.crossed ==> f2.crossed
    ensures Surveyed(v, g, f2)
  {
    assert |f.walks| > 0;
    hide WalksFollow, WalksApart, TableKept, EntriesFollowed, LinksFollowed, MarksMeant, Shape, Confined, WalksFresh,
         WalksWhole, MayStop, LastSame, Stopped;
    LastKept(v, g, f);
    var last := Hand(f)[|Hand(f)| - 1];
    StopShape(v, g, f, f2);
    StopLinks(v, g, f, f2, last);
    StopEntries(v, g, f, f2);
    StopConfined(v, g, f, f2, last);
    StopWalks(v, g, f, f2, last);
  }

  // ---- The next directory --------------------------------------------------------------------------

  /** The next directory from the queue. */
  ghost function Begun(f: Found): Found
    requires |f.walks| < |f.queue|
  {
    f.(walks := f.walks + [[f.queue[|f.walks|].cluster]], i := 0, active := true)
  }

  /** One walk more, of one cluster; the others as they were. */
  lemma BegunWalks(f: Found)
    requires |f.walks| < |f.queue|
    ensures var f2 := Begun(f);
            |f2.walks| == |f.walks| + 1 && f2.walks[|f.walks|] == [f.queue[|f.walks|].cluster] &&
            forall w :: 0 <= w < |f.walks| ==> f2.walks[w] == f.walks[w]
  {
  }

  lemma BeginShape(v: Volume, g: Ground, f: Found)
    requires Shape(v, g, f) && !f.active && |f.walks| < |f.queue|
    ensures Shape(v, g, Begun(f))
  {
    hide Times, Volume.Geometry;
  }

  lemma BeginFollow(v: Volume, g: Ground, f: Found)
    requires Shape(v, g, f) && WalksFollow(v, g, f) && |f.walks| < |f.queue|
    ensures WalksFollow(v, g, Begun(f))
  {
    hide Times, Volume.Geometry, WalkFrom;
    BegunWalks(f);
    WalkOfOne(v, g, f.queue[|f.walks|].cluster);
  }

  lemma WalkOfOne(v: Volume, g: Ground, start: nat)
    requires v.Geometry() && v.Total() <= |g.table| && Times(v.clusterCount, v.sectorsPerCluster) <= |g.data|
    requires InRange(start, v.Total())
    ensures WalkFrom(v, g, start, [start])
  {
    hide Times, Link;
    v.ClusterInside(start);
  }

  lemma BeginApart(v: Volume, g: Ground, f: Found)
    requires WalksApart(f) && |f.walks| < |f.queue|
    ensures WalksApart(Begun(f))
  {
    BegunWalks(f);
  }

  lemma BeginTable(v: Volume, g: Ground, f: Found)
    requires TableKept(v, g, f) && |f.walks| < |f.queue|
    ensures TableKept(v, g, Begun(f))
  {
    hide Link, Begun;
    BegunWalks(f);
    var f2 := Begun(f);
    BegunSame(f);
    forall x: nat | x < |f2.table| && f2.table[x] != g.table[x]
      ensures Cut(v, f2, x)
    {
      assert Cut(v, f, x) && f.queue[|f.walks|].cluster != x;
    }
  }

  lemma BegunSame(f: Found)
    requires |f.walks| < |f.queue|
    ensures Begun(f) == f.(walks := Begun(f).walks, i := 0, active := true)
  {
  }

  /** Exactly the entries met before are met. */
  lemma BeginMet(v: Volume, g: Ground, f: Found, w: nat, k: nat, i: nat)
    requires Shape(v, g, f) && !f.active && |f.walks| < |f.queue|
    ensures Met(v, g, Begun(f), w, k, i) == Met(v, g, f, w, k, i)
    ensures Met(v, g, f, w, k, i) ==> RawMet(v, g, Begun(f), w, k, i) == RawMet(v, g, f, w, k, i)
  {
    hide LeadsAt, RawAt, Times, Volume.Geometry;
    BegunWalks(f);
    if w < |f.walks| && LeadsAt(v, g.data, f.walks[w], k, i) {
      LeadsInPlace(v, g.data, f.walks[w], k, i);
    }
  }

  lemma BeginEntries(v: Volume, g: Ground, f: Found)
    requires Shape(v, g, f) && !f.active && |f.walks| < |f.queue| && EntriesFollowed(v, g, f)
    ensures EntriesFollowed(v, g, Begun(f))
  {
    hide Shape, Met, RawMet, Handled, Begun;
    var f2 := Begun(f);
    BegunSame(f);
    forall w: nat, k: nat, i: nat | Met(v, g, f2, w, k, i)
      ensures Handled(f2, RawMet(v, g, f2, w, k, i))
    {
      BeginMet(v, g, f, w, k, i);
      HandledStill(f, f2, RawMet(v, g, f, w, k, i));
    }
  }

  lemma BeginLinks(v: Volume, g: Ground, f: Found)
    requires !f.active && |f.walks| < |f.queue| && LinksFollowed(v, g, f)
    ensures LinksFollowed(v, g, Begun(f))
  {
    hide Pending, LinkMarked, Begun;
    var f2 := Begun(f);
    BegunSame(f);
    if f2.complete {
      forall x: nat | x < |f2.seen| && f2.seen[x] && !Pending(f2, x)
        ensures LinkMarked(v, g.table, f2.seen, x)
      {
        BeginPending(f, x);
      }
    }
  }

  lemma BeginPending(f: Found, x: nat)
    requires !f.active && |f.walks| < |f.queue|
    ensures Pending(Begun(f), x) <==> Pending(f, x)
  {
    var f2 := Begun(f);
    assert f2.walks[|f.walks|] == [f.queue[|f.walks|].cluster];
  }

  lemma BeginWalks(v: Volume, g: Ground, f: Found)
    requires !f.active && |f.walks| < |f.queue| && WalksFresh(v, g, f) && WalksWhole(v, g, f)
    ensures WalksFresh(v, g, Begun(f)) && WalksWhole(v, g, Begun(f))
  {
    BegunWalks(f);
    BegunSame(f);
    assert WalkFresh(v, g, [f.queue[|f.walks|].cluster]);
    hide WalkFresh, WalkWhole, Begun;
  }

  lemma BeginMeant(v: Volume, g: Ground, f: Found)
    requires Shape(v, g, f) && !f.active && |f.walks| < |f.queue| && MarksMeant(v, g, f)
    ensures MarksMeant(v, g, Begun(f))
  {
    hide Shape, FromLink, FromEntry, Begun;
    var f2 := Begun(f);
    BegunSame(f);
    forall x: nat | x < |f2.seen| && f2.seen[x]
      ensures Meant(v, g, f2, x)
    {
      if FromEntry(v, g, f, x, false, 0) {
        BeginEntry(v, g, f, x, false, 0);
      } else if FromLink(g, f, x) {
        BeginLink(g, f, x);
      }
    }
    forall q: nat | 1 <= q < |f2.queue|
      ensures FromEntry(v, g, f2, f2.queue[q].cluster, true, q)
    {
      BeginEntry(v, g, f, f.queue[q].cluster, true, q);
    }
  }

  lemma BeginLink(g: Ground, f: Found, x: nat)
    requires !f.active && |f.walks| < |f.queue| && FromLink(g, f, x)
    ensures FromLink(g, Begun(f), x)
  {
    hide Link, Pending;
    var y: nat :| y < |f.seen| && y < |g.table| && f.seen[y] && !Pending(f, y) && Link(g.table[y]) == x;
    BeginPending(f, y);
  }

  lemma BeginEntry(v: Volume, g: Ground, f: Found, x: nat, directory: bool, limit: nat)
    requires Shape(v, g, f) && !f.active && |f.walks| < |f.queue| && FromEntry(v, g, f, x, directory, limit)
    ensures FromEntry(v, g, Begun(f), x, directory, limit)
  {
    hide Shape, Met, RawMet, FirstOf, IsDirectory, Begun;
    var w: nat, k: nat, i: nat :| Met(v, g, f, w, k, i) && FirstOf(RawMet(v, g, f, w, k, i)) == x &&
      (directory ==> IsDirectory(RawMet(v, g, f, w, k, i)) && w < limit);
    BeginMet(v, g, f, w, k, i);
  }

  /** Taking the next directory from the queue keeps the survey. */
  lemma SurveyBegin(v: Volume, g: Ground, f: Found)
    requires Surveyed(v, g, f) && !f.active && |f.walks| < |f.queue|
    ensures Surveyed(v, g, Begun(f))
  {
    hide WalksFollow, WalksApart, TableKept, EntriesFollowed, LinksFollowed, MarksMeant, Shape, WalksFresh, WalksWhole,
         Tidy;
    BeginShape(v, g, f);
    BeginFollow(v, g, f);
    BeginApart(v, g, f);
    BeginTable(v, g, f);
    BeginEntries(v, g, f);
    BeginLinks(v, g, f);
    BeginWalks(v, g, f);
    BeginMeant(v, g, f);
  }

  /** The start of a check: the root is marked and queued. */
  lemma SurveyInit(v: Volume, g: Ground, f: Found)
    requires v.Geometry() && v.Total() <= BAD && InRange(g.root, v.Total()) &&
             Times(v.clusterCount, v.sectorsPerCluster) <= |g.data|
    requires |f.seen| == v.Total() <= |g.table| && f.table == g.table && f.queue == [Directory(g.root, g.root)] &&
             f.walks == [] && f.i == 0
    requires !f.active && f.complete && !f.crossed && forall x: nat :: x < |f.seen| ==> (f.seen[x] <==> x == g.root)
    ensures Surveyed(v, g, f)
  {
    hide Times, Link, LeadsAt, Run, LinksInside, EntriesInside, LinksApart, RootApart, LinksAndEntriesApart,
         EntriesApart;
  }
}
