/** The administrator's views: the paged list, one note, and its history. */
module Admin {
  import opened Text
  import opened Ordering
  import opened Protocol
  import opened Tables
  import opened SyncSpec
  import opened Recovery
  import opened Store
  import Runs

  const I64_MAX: nat := 0x7FFF_FFFF_FFFF_FFFF
  const U64_MAX: nat := 0xFFFF_FFFF_FFFF_FFFF

  type u64 = x: nat | x <= U64_MAX

  datatype StateFilter = All | Active | Deleted

  datatype NoteListQuery = NoteListQuery(
    page: u64, pageSize: u64, search: Option<string>, category: Option<string>, state: StateFilter)

  datatype NoteListItem = NoteListItem(
    id: string, title: string, category: string, updatedAt: Time, deletedAt: Option<Time>, deviceId: string,
    revision: nat)

  datatype NoteListPage = NoteListPage(page: u64, pageSize: u64, total: nat, notes: seq<NoteListItem>)

  datatype Detail = Detail(note: SyncChange, revision: nat)

  function DetailOf(notes: Table, id: string): Option<Detail> {
    if id in notes then Some(Detail(Shown(notes[id].note), notes[id].revision)) else None
  }

  datatype NoteSnapshot = NoteSnapshot(snapshotId: nat, note: SyncChange, revision: nat, capturedAt: Time)

  /** SQLite's LIKE, by pattern and text. */
  type Like = (string, string) -> bool

  function NormalizeOptional(value: Option<string>): Option<string> {
    match value
    case None => None
    case Some(text) => if IsBlank(text) then None else Some(Trim(text))
  }

  function SaturatingSub(a: u64, b: u64): u64 { if a < b then 0 else a - b }

  function SaturatingMul(a: u64, b: u64): u64 { if a * b > U64_MAX then U64_MAX else a * b }

  function AtLeastOne(page: u64): u64 { if page < 1 then 1 else page }

  function PageSize(pageSize: u64): u64 { if pageSize < 1 then 1 else if pageSize > 200 then 200 else pageSize }

  function Offset(page: u64, pageSize: u64): nat {
    var offset := SaturatingMul(SaturatingSub(page, 1), pageSize);
    if offset < I64_MAX then offset else I64_MAX
  }

  // ----- note_list

  predicate Matches(query: NoteListQuery, like: Like, note: SyncChange) {
    var search, category := NormalizeOptional(query.search), NormalizeOptional(query.category);
    && (search.Some? ==> like("%" + search.value + "%", note.title) || like("%" + search.value + "%", note.content))
    && (category.Some? ==> SqlTrim(note.category) == category.value)
    && (query.state.Active? ==> note.deletedAt.None?)
    && (query.state.Deleted? ==> note.deletedAt.Some?)
  }

  /** ORDER BY revision DESC, updated_at DESC, id ASC. */
  predicate ListedBefore(a: RevisionedChange, b: RevisionedChange) {
    || a.revision > b.revision
    || (a.revision == b.revision && a.note.updatedAt > b.note.updatedAt)
    || (a.revision == b.revision && a.note.updatedAt == b.note.updatedAt && StrLess(a.note.id, b.note.id))
  }

  function Matching(notes: Table, query: NoteListQuery, like: Like): set<RevisionedChange> {
    set id | id in notes && Matches(query, like, notes[id].note) :: RevisionedChange(notes[id].revision, notes[id].note)
  }

  lemma ListedBeforeTotal(notes: Table, query: NoteListQuery, like: Like)
    requires Keyed(notes)
    ensures TotalOn(Matching(notes, query, like), ListedBefore)
  {
    var s := Matching(notes, query, like);
    StrLessTotalOn(notes.Keys);
    forall x | x in s ensures IsRow(notes, x) {}
    forall x, y | x in s && y in s && x != y ensures x.note.id != y.note.id {}
  }

  /** All rows a query selects, in its order. */
  function Listing(notes: Table, query: NoteListQuery, like: Like): seq<RevisionedChange>
    requires Keyed(notes)
  {
    ListedBeforeTotal(notes, query, like);
    SortBy(Matching(notes, query, like), ListedBefore)
  }

  /** LIMIT pageSize OFFSET offset. */
  function Window<T>(rows: seq<T>, offset: nat, limit: nat): seq<T> {
    var lo := if offset < |rows| then offset else |rows|;
    var hi := if offset + limit < |rows| then offset + limit else |rows|;
    rows[lo..hi]
  }

  function PageRows<T>(rows: seq<T>, page: u64, pageSize: u64): seq<T> {
    Window(rows, Offset(AtLeastOne(page), PageSize(pageSize)), PageSize(pageSize))
  }

  function Item(row: RevisionedChange): NoteListItem {
    NoteListItem(row.note.id, row.note.title, SqlTrim(row.note.category), row.note.updatedAt, row.note.deletedAt,
                 row.note.deviceId, row.revision)
  }

  function Items(rows: seq<RevisionedChange>): seq<NoteListItem> {
    seq(|rows|, i requires 0 <= i < |rows| => Item(rows[i]))
  }

  /** An item shows these fields of its row, the category without the spaces around it. */
  predicate IsItem(item: NoteListItem, row: RevisionedChange) {
    && item.id == row.note.id && item.title == row.note.title && item.category == SqlTrim(row.note.category)
    && item.updatedAt == row.note.updatedAt && item.deletedAt == row.note.deletedAt
    && item.deviceId == row.note.deviceId && item.revision == row.revision
  }

  lemma MatchingMembers(notes: Table, query: NoteListQuery, like: Like)
    requires Keyed(notes)
    ensures forall x: RevisionedChange ::
      x in Matching(notes, query, like) <==> IsRow(notes, x) && Matches(query, like, x.note)
  {}

  function MatchingIds(notes: Table, query: NoteListQuery, like: Like): set<string> {
    set id | id in notes && Matches(query, like, notes[id].note)
  }

  lemma MatchingCount(notes: Table, query: NoteListQuery, like: Like)
    requires Keyed(notes)
    ensures |Matching(notes, query, like)| == |MatchingIds(notes, query, like)|
  {
    hide Matches;
    var ids := MatchingIds(notes, query, like);
    SameCount(notes, ids);
    assert Matching(notes, query, like) == set id | id in ids :: RevisionedChange(notes[id].revision, notes[id].note);
  }

  /** A listing holds exactly the matching rows, each once, strictly in order, one for each matching id. */
  lemma ListingIsComplete(notes: Table, query: NoteListQuery, like: Like)
    requires Keyed(notes)
    ensures var rows := Listing(notes, query, like);
      && (forall x: RevisionedChange :: x in rows <==> IsRow(notes, x) && Matches(query, like, x.note))
      && NoRepeats(rows) && Ascending(rows, ListedBefore)
      && |rows| == |MatchingIds(notes, query, like)|
  {
    hide Matching, Matches, NoRepeats, MatchingIds, SortBy, ListedBefore;
    var s := Matching(notes, query, like);
    ListedBeforeTotal(notes, query, like);
    MatchingMembers(notes, query, like);
    MatchingCount(notes, query, like);
    SortByAscends(s, ListedBefore);
    AscendingNoRepeats(Listing(notes, query, like), s, ListedBefore);
  }

  lemma {:induction false} SameCount(notes: Table, ids: set<string>)
    requires Keyed(notes) && forall id | id in ids :: id in notes
    ensures |set id | id in ids :: RevisionedChange(notes[id].revision, notes[id].note)| == |ids|
    decreases |ids|
  {
    var rows := set id | id in ids :: RevisionedChange(notes[id].revision, notes[id].note);
    if ids == {} {
      assert rows == {};
    } else {
      var x :| x in ids;
      var rest := ids - {x};
      var others := set id | id in rest :: RevisionedChange(notes[id].revision, notes[id].note);
      var row := RevisionedChange(notes[x].revision, notes[x].note);
      SameCount(notes, rest);
      assert rows == others + {row};
      assert row !in others;
    }
  }

  /**
   * Which notes a query lists, in terms of the fields. The filters are conjoined; a search
   * or category that is missing or all white space filters nothing, and one that is not is
   * trimmed. The search looks in title and content; the category is compared without the
   * spaces around it.
   */
  lemma ListsIff(notes: Table, query: NoteListQuery, like: Like, id: string)
    requires Keyed(notes) && id in notes
    ensures var note := notes[id].note;
      RevisionedChange(notes[id].revision, note) in Listing(notes, query, like) <==>
        && (query.state.Active? ==> note.deletedAt.None?)
        && (query.state.Deleted? ==> note.deletedAt.Some?)
        && (query.category.Some? && !AllWhitespace(query.category.value) ==>
              SqlTrim(note.category) == Trim(query.category.value))
        && (query.search.Some? && !AllWhitespace(query.search.value) ==>
              var pattern := "%" + Trim(query.search.value) + "%";
              like(pattern, note.title) || like(pattern, note.content))
  {
    hide SortBy, Trim, SqlTrim, IsBlank, AllWhitespace;
    ListingIsComplete(notes, query, like);
    assert IsRow(notes, RevisionedChange(notes[id].revision, notes[id].note));
    if query.category.Some? { BlankIsAllWhitespace(query.category.value); }
    if query.search.Some? { BlankIsAllWhitespace(query.search.value); }
  }

  /** Without search and category the three states list all notes, those not deleted, and the deleted ones. */
  lemma ListsByState(notes: Table, query: NoteListQuery, like: Like, x: RevisionedChange)
    requires Keyed(notes) && query.search.None? && query.category.None?
    ensures x in Listing(notes, query, like) <==>
      && x.note.id in notes && notes[x.note.id] == Row(x.note, x.revision)
      && match query.state
         case All => true
         case Active => x.note.deletedAt.None?
         case Deleted => x.note.deletedAt.Some?
  {
    hide SortBy;
    ListingIsComplete(notes, query, like);
  }

  /**
   * The category as the list shows it, used as the filter, finds the note again exactly
   * when it has no white space but spaces around it, or is all white space.
   */
  lemma ShownCategoryFindsIff(notes: Table, like: Like, page: u64, pageSize: u64, id: string)
    requires Keyed(notes) && id in notes
    ensures var shown := SqlTrim(notes[id].note.category);
      RevisionedChange(notes[id].revision, notes[id].note)
        in Listing(notes, NoteListQuery(page, pageSize, None, Some(shown), All), like)
      <==> AllWhitespace(shown) || IsTrimmed(shown)
  {
    hide SortBy, Trim, SqlTrim, IsTrimmed, AllWhitespace, Listing;
    var shown := SqlTrim(notes[id].note.category);
    ListsIff(notes, NoteListQuery(page, pageSize, None, Some(shown), All), like, id);
    TrimIsProjection(shown);
  }

  /** Rows are listed by falling revision, then by falling update time, then by rising id. */
  lemma ListingFalls(notes: Table, query: NoteListQuery, like: Like, i: nat, j: nat)
    requires Keyed(notes) && i < j < |Listing(notes, query, like)|
    ensures var a, b := Listing(notes, query, like)[i], Listing(notes, query, like)[j];
      && a.revision >= b.revision
      && (a.revision == b.revision ==> a.note.updatedAt >= b.note.updatedAt)
      && (a.revision == b.revision && a.note.updatedAt == b.note.updatedAt ==> StrLess(a.note.id, b.note.id))
      && (RevisionsAllocated(notes) ==> a.revision > b.revision)
  {
    hide SortBy, StrLess;
    var rows := Listing(notes, query, like);
    ListingIsComplete(notes, query, like);
    assert rows[i] in rows && rows[j] in rows && ListedBefore(rows[i], rows[j]);
    StrLessIrreflexive(rows[i].note.id);
    assert IsRow(notes, rows[i]) && IsRow(notes, rows[j]);
    assert rows[i].note.id != rows[j].note.id;
    assert RevisionsAllocated(notes) ==> !Clash(notes, rows[i].note.id, rows[j].note.id);
  }

  lemma WindowOf<T>(rows: seq<T>, offset: nat, limit: nat)
    ensures |Window(rows, offset, limit)| <= limit && |Window(rows, offset, limit)| <= |rows|
  {}

  lemma ItemsAre(rows: seq<RevisionedChange>)
    ensures |Items(rows)| == |rows| && forall i | 0 <= i < |rows| :: IsItem(Items(rows)[i], rows[i])
  {
    hide SqlTrim;
  }

  lemma PageFalls(notes: Table, query: NoteListQuery, like: Like, offset: nat, limit: nat)
    requires Keyed(notes) && RevisionsAllocated(notes)
    ensures var page := Items(Window(Listing(notes, query, like), offset, limit));
      forall i, j | 0 <= i < j < |page| :: page[i].revision > page[j].revision
  {
    hide Listing, SqlTrim, RevisionsAllocated;
    var rows := Listing(notes, query, like);
    var skipped, page := if offset < |rows| then offset else |rows|, Window(rows, offset, limit);
    forall i, j | 0 <= i < j < |page| ensures page[i].revision > page[j].revision {
      assert page[i] == rows[skipped + i] && page[j] == rows[skipped + j];
      ListingFalls(notes, query, like, skipped + i, skipped + j);
    }
  }

  /** Pages 1 to `pages`, one after the other. */
  function Pages<T>(rows: seq<T>, pageSize: u64, pages: u64): seq<T> {
    if pages == 0 then [] else Pages(rows, pageSize, pages - 1) + PageRows(rows, pages, pageSize)
  }

  function Least(a: nat, b: nat): nat { if a < b then a else b }

  /** How many rows come before a page. */
  function RowsBefore(page: u64, size: u64): nat
    requires page >= 1
  {
    (page - 1) * size
  }

  /** The offset of a page, up to saturation, which only happens beyond the end. */
  lemma OffsetIs(page: u64, size: u64, total: nat)
    requires 1 <= page && 1 <= size <= 200 && total <= I64_MAX
    ensures Least(Offset(page, size), total) == Least(RowsBefore(page, size), total)
  {}

  lemma OneMore(a: nat, c: nat)
    ensures (a + 1) * c == a * c + c
  {}

  /** One page, without saturation. */
  lemma PageRowsAre<T>(rows: seq<T>, page: u64, pageSize: u64)
    requires |rows| <= I64_MAX && page >= 1
    ensures PageRows(rows, page, pageSize) == Window(rows, RowsBefore(page, PageSize(pageSize)), PageSize(pageSize))
  {
    hide Offset, RowsBefore;
    OffsetIs(page, PageSize(pageSize), |rows|);
  }

  /** The first pages are the first rows. */
  lemma {:induction false} PagesPrefix<T>(rows: seq<T>, pageSize: u64, pages: u64)
    requires |rows| <= I64_MAX
    ensures Pages(rows, pageSize, pages) == rows[..Least(pages * PageSize(pageSize), |rows|)]
  {
    hide PageRows, PageSize;
    if pages > 0 {
      PagesPrefix(rows, pageSize, pages - 1);
      PageRowsAre(rows, pages, pageSize);
      OneMore(pages - 1, PageSize(pageSize));
    }
  }

  /**
   * Paging partitions the result: whatever the page size asked for, pages 1 up to
   * total / size rounded up are, one after the other, the whole listing, and any later
   * page is empty, however far the page number saturates.
   */
  lemma PagesPartition<T>(rows: seq<T>, pageSize: u64, pages: u64, later: u64)
    requires |rows| <= I64_MAX && |rows| <= pages * PageSize(pageSize) && later > pages
    ensures Pages(rows, pageSize, pages) == rows
    ensures PageRows(rows, later, pageSize) == []
  {
    hide PageRows, PageSize;
    var size := PageSize(pageSize);
    PagesPrefix(rows, pageSize, pages);
    PageRowsAre(rows, later, pageSize);
    Monotone(pages, later - 1, size);
  }

  /** The newest come first: what the first pages leave out has a lower revision than all they list. */
  lemma FirstPagesAreNewest(
    notes: Table, query: NoteListQuery, like: Like, pages: u64, x: RevisionedChange, y: RevisionedChange)
    requires Keyed(notes) && RevisionsAllocated(notes) && |Listing(notes, query, like)| <= I64_MAX
    requires var first := Pages(Listing(notes, query, like), query.pageSize, pages);
      x in first && y in Listing(notes, query, like) && y !in first
    ensures x.revision > y.revision
  {
    hide Listing, Pages, PageSize, Matching;
    var rows := Listing(notes, query, like);
    PagesPrefix(rows, query.pageSize, pages);
    var m := Least(pages * PageSize(query.pageSize), |rows|);
    var i :| 0 <= i < m && rows[..m][i] == x;
    var j :| 0 <= j < |rows| && rows[j] == y;
    assert forall k | 0 <= k < m :: rows[k] == rows[..m][k] && rows[..m][k] in rows[..m];
    ListingFalls(notes, query, like, i, j);
  }

  lemma Monotone(a: nat, b: nat, c: nat)
    requires a <= b
    ensures a * c <= b * c
  {}

  // ----- note_history

  datatype HistoryRow = HistoryRow(snapshotId: nat, snapshot: Snapshot)

  /** ORDER BY revision DESC, snapshot_id DESC. */
  predicate Newer(a: HistoryRow, b: HistoryRow) {
    || a.snapshot.revision > b.snapshot.revision
    || (a.snapshot.revision == b.snapshot.revision && a.snapshotId > b.snapshotId)
  }

  function SnapshotsOf(snapshots: seq<Snapshot>, id: string): set<HistoryRow> {
    set i | 0 <= i < |snapshots| && snapshots[i].note.id == id :: HistoryRow(i + 1, snapshots[i])
  }

  function History(snapshots: seq<Snapshot>, id: string): seq<HistoryRow> {
    assert TotalOn(SnapshotsOf(snapshots, id), Newer);
    SortBy(SnapshotsOf(snapshots, id), Newer)
  }

  function Shown(note: SyncChange): SyncChange {
    note.(category := SqlTrim(note.category))
  }

  function ShownRows(rows: seq<HistoryRow>): seq<NoteSnapshot> {
    seq(|rows|, i requires 0 <= i < |rows| =>
      NoteSnapshot(rows[i].snapshotId, Shown(rows[i].snapshot.note), rows[i].snapshot.revision,
                   rows[i].snapshot.capturedAt))
  }

  /**
   * In every valid database the history of a live note begins with that note at its
   * live revision, and goes on through all its snapshots at strictly falling revisions.
   */
  lemma HistoryStartsLive(db: Db, id: string)
    requires Valid(db) && id in db.notes
    ensures var rows := History(db.snapshots, id);
      && rows != [] && rows[0].snapshot.note == db.notes[id].note && rows[0].snapshot.revision == db.notes[id].revision
      && (forall i, j | 0 <= i < j < |rows| :: rows[i].snapshot.revision > rows[j].snapshot.revision)
      && (forall x :: x in rows <==> x in SnapshotsOf(db.snapshots, id))
  {
    hide SortBy;
    var rows, s, live := History(db.snapshots, id), SnapshotsOf(db.snapshots, id), db.notes[id];
    assert TotalOn(s, Newer);
    SortByAscends(s, Newer);
    assert CoversRow(db.snapshots, live);
    var k :| 0 <= k < |db.snapshots| && db.snapshots[k].note == live.note && db.snapshots[k].revision == live.revision;
    assert HistoryRow(k + 1, db.snapshots[k]) in s;
    forall i, j | 0 <= i < j < |rows| ensures rows[i].snapshot.revision > rows[j].snapshot.revision {
      assert rows[i] in rows && rows[j] in rows && Newer(rows[i], rows[j]);
    }
    assert HistoryRow(k + 1, db.snapshots[k]) in rows && rows[0] in rows;
  }

  predicate ShowsSnapshot(row: NoteSnapshot, k: nat, s: Snapshot) {
    && row.snapshotId == k + 1 && row.revision == s.revision && row.capturedAt == s.capturedAt
    && row.note == s.note.(category := SqlTrim(s.note.category))
  }

  /** What the view shows: each snapshot of the note under its number, whole but for the spaces around its category. */
  lemma HistoryShows(snapshots: seq<Snapshot>, id: string)
    ensures var rows := ShownRows(History(snapshots, id));
      && (forall i | 0 <= i < |rows| :: IsShown(snapshots, id, rows[i]))
      && (forall k | 0 <= k < |snapshots| && snapshots[k].note.id == id ::
           exists i :: 0 <= i < |rows| && ShowsSnapshot(rows[i], k, snapshots[k]))
      && (forall i, j | 0 <= i < j < |rows| :: ShownBefore(rows[i], rows[j]))
  {
    hide SortBy, ShowsSnapshot, IsShown, ShownBefore, ShownRows, History, SnapshotsOf;
    var q, s, rows := History(snapshots, id), SnapshotsOf(snapshots, id), ShownRows(History(snapshots, id));
    HistoryLists(snapshots, id);
    forall i | 0 <= i < |rows| ensures IsShown(snapshots, id, rows[i]) {
      RowIsShown(snapshots, id, q, i);
    }
    forall k | 0 <= k < |snapshots| && snapshots[k].note.id == id
      ensures exists i :: 0 <= i < |rows| && ShowsSnapshot(rows[i], k, snapshots[k])
    {
      var i := SnapshotIsShown(snapshots, id, q, k);
    }
    forall i, j | 0 <= i < j < |rows| ensures ShownBefore(rows[i], rows[j]) {
      NewerIsShownFirst(q, i, j);
    }
  }

  /** The row is some snapshot of the note. */
  ghost predicate IsShown(snapshots: seq<Snapshot>, id: string, row: NoteSnapshot) {
    var k := row.snapshotId - 1;
    0 <= k < |snapshots| && snapshots[k].note.id == id && ShowsSnapshot(row, k, snapshots[k])
  }

  /** Rows come at falling revisions, and at one revision by falling number. */
  ghost predicate ShownBefore(a: NoteSnapshot, b: NoteSnapshot) {
    a.revision > b.revision || (a.revision == b.revision && a.snapshotId > b.snapshotId)
  }

  lemma HistoryLists(snapshots: seq<Snapshot>, id: string)
    ensures var q := History(snapshots, id);
      && |ShownRows(q)| == |q| && Lists(q, SnapshotsOf(snapshots, id))
      && forall i, j | 0 <= i < j < |q| :: Newer(q[i], q[j])
  {
    hide SortBy;
    assert TotalOn(SnapshotsOf(snapshots, id), Newer);
    SortByAscends(SnapshotsOf(snapshots, id), Newer);
  }

  lemma RowIsShown(snapshots: seq<Snapshot>, id: string, q: seq<HistoryRow>, i: nat)
    requires Lists(q, SnapshotsOf(snapshots, id)) && i < |q|
    ensures IsShown(snapshots, id, ShownRows(q)[i])
  {
    hide SqlTrim;
    assert q[i] in q && q[i] in SnapshotsOf(snapshots, id);
  }

  lemma SnapshotIsShown(snapshots: seq<Snapshot>, id: string, q: seq<HistoryRow>, k: nat) returns (i: nat)
    requires Lists(q, SnapshotsOf(snapshots, id)) && k < |snapshots| && snapshots[k].note.id == id
    ensures i < |q| && ShowsSnapshot(ShownRows(q)[i], k, snapshots[k])
  {
    hide SqlTrim;
    assert HistoryRow(k + 1, snapshots[k]) in SnapshotsOf(snapshots, id);
    i :| i < |q| && q[i] == HistoryRow(k + 1, snapshots[k]);
  }

  lemma NewerIsShownFirst(q: seq<HistoryRow>, i: nat, j: nat)
    requires i < j < |q| && Newer(q[i], q[j])
    ensures ShownBefore(ShownRows(q)[i], ShownRows(q)[j])
  {}

  /** So it is in every state of every run. */
  lemma HistoryInEveryRun(start: Runs.System, events: seq<Runs.Event>, s: Runs.System, id: string)
    requires Runs.Opened(start) && Runs.Run(start, events) == Some(s) && id in s.db.notes
    ensures var rows := History(s.db.snapshots, id);
      rows != [] && rows[0].snapshot.note == s.db.notes[id].note && rows[0].snapshot.revision == s.db.notes[id].revision
  {
    hide History, CurrentRevision;
    Runs.OpenedInv(start);
    Runs.RunInv(start, events, s);
    HistoryStartsLive(s.db, id);
  }

  class AdminStore {
    /** The store whose connection is shared. */
    const conn: SyncStore

    constructor OpenShared(conn: SyncStore)
      ensures this.conn == conn
    {
      this.conn := conn;
    }

    method NoteList(query: NoteListQuery, like: Like) returns (page: NoteListPage)
      requires Keyed(conn.notes)
      ensures page.page == if query.page == 0 then 1 else query.page
      ensures page.pageSize == if query.pageSize == 0 then 1 else if query.pageSize > 200 then 200 else query.pageSize
      ensures page.total == |MatchingIds(conn.notes, query, like)| == |Listing(conn.notes, query, like)|
      ensures |page.notes| <= page.pageSize && |page.notes| <= page.total
      ensures var rows := PageRows(Listing(conn.notes, query, like), query.page, query.pageSize);
        |page.notes| == |rows| && forall i | 0 <= i < |rows| :: IsItem(page.notes[i], rows[i])
      ensures RevisionsAllocated(conn.notes) ==>
        forall i, j | 0 <= i < j < |page.notes| :: page.notes[i].revision > page.notes[j].revision
    {
      ListingIsComplete(conn.notes, query, like);
      hide SortBy, Listing, Matching, Offset, Window, Items, IsItem;
      var number, size := AtLeastOne(query.page), PageSize(query.pageSize);
      var offset := Offset(number, size);
      var rows := Listing(conn.notes, query, like);
      page := NoteListPage(number, size, |rows|, Items(Window(rows, offset, size)));
      WindowOf(rows, offset, size);
      ItemsAre(Window(rows, offset, size));
      if RevisionsAllocated(conn.notes) { PageFalls(conn.notes, query, like, offset, size); }
    }

    method NoteDetail(id: string) returns (detail: Option<Detail>)
      ensures detail == DetailOf(conn.notes, id)
      ensures detail.Some? <==> id in conn.notes
      ensures id in conn.notes ==>
        var note := conn.notes[id].note;
        detail == Some(Detail(note.(category := SqlTrim(note.category)), conn.notes[id].revision))
    {
      if id in conn.notes {
        detail := Some(Detail(Shown(conn.notes[id].note), conn.notes[id].revision));
      } else {
        detail := None;
      }
    }

    /** The newest entry of a note's history is what its detail view shows. */
    method NoteHistory(id: string) returns (rows: seq<NoteSnapshot>)
      ensures rows == ShownRows(History(conn.snapshots, id))
      ensures Valid(conn.Contents()) && id in conn.notes ==>
        rows != [] && DetailOf(conn.notes, id) == Some(Detail(rows[0].note, rows[0].revision))
    {
      hide SortBy;
      rows := ShownRows(History(conn.snapshots, id));
      if Valid(conn.Contents()) && id in conn.notes {
        HistoryStartsLive(conn.Contents(), id);
      }
    }
  }
}
