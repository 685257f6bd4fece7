/** What each operation of the store makes of the tables. */
module SyncSpec {
  import opened Text
  import opened Ordering
  import opened Protocol
  import opened Tables

  /** The reading of the server's clock when the row with a given revision is written. */
  type Clock = nat -> Time

  // ----- push

  /** A change without a device id takes the request's. */
  function Incoming(change: SyncChange, deviceId: string): SyncChange {
    if IsBlank(change.deviceId) then change.(deviceId := deviceId) else change
  }

  /** The batch as the loop sees it. */
  function Filled(request: PushRequest): (r: seq<SyncChange>)
    ensures |r| == |request.changes|
  {
    seq(|request.changes|, i requires 0 <= i < |request.changes| => Incoming(request.changes[i], request.deviceId))
  }

  /** Last writer wins: an older change is ignored, and so is an exact repeat. */
  predicate Accepts(notes: Table, change: SyncChange) {
    change.id in notes ==>
      var existing := notes[change.id].note;
      || ChangeTime(existing) < ChangeTime(change)
      || (ChangeTime(existing) == ChangeTime(change) && existing != change)
  }

  /** Upsert of the live row and append of its snapshot. */
  function Stored(db: Db, change: SyncChange, revision: nat, capturedAt: Time): Db {
    Db(db.notes[change.id := Row(change, revision)], db.snapshots + [Snapshot(change, revision, capturedAt)])
  }

  function PushOne(db: Db, change: SyncChange, clock: Clock): Db {
    if Accepts(db.notes, change) then
      var revision := CurrentRevision(db.notes) + 1;
      Stored(db, change, revision, clock(revision))
    else db
  }

  function PushAll(db: Db, changes: seq<SyncChange>, clock: Clock): Db {
    if changes == [] then db
    else PushOne(PushAll(db, changes[..|changes| - 1], clock), changes[|changes| - 1], clock)
  }

  lemma PushSnoc(db: Db, changes: seq<SyncChange>, change: SyncChange, clock: Clock)
    ensures PushAll(db, changes + [change], clock) == PushOne(PushAll(db, changes, clock), change, clock)
  {
    assert (changes + [change])[..|changes|] == changes;
  }

  lemma NothingPushed(db: Db, clock: Clock)
    ensures PushAll(db, [], clock) == db
  {}

  /** One more change is either skipped or stored. */
  lemma PushSkips(db: Db, changes: seq<SyncChange>, change: SyncChange, clock: Clock)
    requires !Accepts(PushAll(db, changes, clock).notes, change)
    ensures PushAll(db, changes + [change], clock) == PushAll(db, changes, clock)
  {
    hide CurrentRevision;
    PushSnoc(db, changes, change, clock);
  }

  lemma PushStores(db: Db, changes: seq<SyncChange>, change: SyncChange, clock: Clock)
    requires Accepts(PushAll(db, changes, clock).notes, change)
    ensures var before := PushAll(db, changes, clock); var revision := CurrentRevision(before.notes) + 1;
      PushAll(db, changes + [change], clock) == Stored(before, change, revision, clock(revision))
  {
    hide CurrentRevision;
    PushSnoc(db, changes, change, clock);
  }

  // ----- changes_since

  predicate RevisionLess(a: RevisionedChange, b: RevisionedChange) {
    a.revision < b.revision || (a.revision == b.revision && StrLess(a.note.id, b.note.id))
  }

  function RowsAfter(notes: Table, since: nat): set<RevisionedChange> {
    set id | id in notes && notes[id].revision > since :: RevisionedChange(notes[id].revision, notes[id].note)
  }

  lemma RevisionLessTotal(notes: Table, since: nat)
    requires Keyed(notes)
    ensures TotalOn(RowsAfter(notes, since), RevisionLess)
  {
    var s := RowsAfter(notes, since);
    StrLessTotalOn(notes.Keys);
    forall x | x in s ensures x.note.id in notes && notes[x.note.id] == Row(x.note, x.revision) {}
  }

  /**
   * The incremental feed: rows above `since` in revision order. SQL leaves equal revisions
   * unordered; here the id decides.
   */
  function Feed(notes: Table, since: nat): seq<RevisionedChange>
    requires Keyed(notes)
  {
    RevisionLessTotal(notes, since);
    SortBy(RowsAfter(notes, since), RevisionLess)
  }

  // ----- restore_from

  function ShiftedRows(notes: Table, offset: nat): Table {
    if notes == map[] then map[] else
      map id | id in notes :: Row(notes[id].note, notes[id].revision + offset)
  }

  function ShiftedSnapshots(snapshots: seq<Snapshot>, offset: nat): seq<Snapshot> {
    seq(|snapshots|, i requires 0 <= i < |snapshots| => snapshots[i].(revision := snapshots[i].revision + offset))
  }

  /** Both tables with every revision raised by `offset`. */
  function Shifted(db: Db, offset: nat): Db {
    Db(ShiftedRows(db.notes, offset), ShiftedSnapshots(db.snapshots, offset))
  }

  /** The backup as loaded: rebased past the live revision unless it is already beyond it. */
  function Loaded(backup: Db, revision: nat): Db {
    if CurrentRevision(backup.notes) <= revision then Shifted(backup, revision) else backup
  }

  /** A deletion at the later of the note's own time and the restore, keeping the note's text. */
  function Tombstone(note: SyncChange, restoreTime: Time): SyncChange {
    var deletedAt := MaxTime(ChangeTime(note), restoreTime);
    note.(updatedAt := MaxTime(note.updatedAt, deletedAt), deletedAt := Some(deletedAt))
  }

  /** Tombstones for `ids` in order, at consecutive revisions above `start`. */
  function Tombstoned(db: Db, previous: Table, ids: seq<string>, start: nat, restoreTime: Time, clock: Clock): Db
    requires forall id | id in ids :: id in previous
  {
    if ids == [] then db else
      var n := |ids| - 1;
      Stored(Tombstoned(db, previous, ids[..n], start, restoreTime, clock),
             Tombstone(previous[ids[n]].note, restoreTime), start + n + 1, clock(start + n + 1))
  }

  lemma TombstonedSnoc(db: Db, previous: Table, ids: seq<string>, id: string, start: nat, restoreTime: Time,
    clock: Clock)
    requires id in previous && forall x | x in ids :: x in previous
    ensures var r := start + |ids| + 1;
      Tombstoned(db, previous, ids + [id], start, restoreTime, clock)
      == Stored(Tombstoned(db, previous, ids, start, restoreTime, clock), Tombstone(previous[id].note, restoreTime),
        r, clock(r))
  {
    assert (ids + [id])[..|ids|] == ids;
  }

  lemma NoTombstones(db: Db, previous: Table, start: nat, restoreTime: Time, clock: Clock)
    ensures Tombstoned(db, previous, [], start, restoreTime, clock) == db
  {}

  lemma IsTombstone(note: SyncChange, deletedAt: Time, restoreTime: Time)
    requires deletedAt == MaxTime(ChangeTime(note), restoreTime)
    ensures note.(updatedAt := MaxTime(note.updatedAt, deletedAt), deletedAt := Some(deletedAt))
        == Tombstone(note, restoreTime)
  {}

  /** The live ids the restored table lacks, sorted. */
  function MissingIds(live: Table, loaded: Table): (r: seq<string>)
    ensures forall id :: id in r <==> id in live && id !in loaded
  {
    SortedIds(live.Keys - loaded.Keys)
  }

  function Restored(live: Db, backup: Db, restoreTime: Time, clock: Clock): Db {
    var loaded := Loaded(backup, CurrentRevision(live.notes));
    Tombstoned(loaded, live.notes, MissingIds(live.notes, loaded.notes), CurrentRevision(loaded.notes), restoreTime,
      clock)
  }

  // ----- open

  predicate HasSnapshot(snapshots: seq<Snapshot>, row: Row) {
    exists s :: s in snapshots && s.note.id == row.note.id && s.revision == row.revision
  }

  function Uncovered(db: Db): seq<string> {
    SortedIds(set id | id in db.notes && !HasSnapshot(db.snapshots, db.notes[id]))
  }

  /** The row backfill writes for a live row: captured when the note last changed. */
  function LiveSnapshot(row: Row): Snapshot {
    Snapshot(row.note, row.revision, ChangeTime(row.note))
  }

  function LiveSnapshots(notes: Table, ids: seq<string>): seq<Snapshot>
    requires forall id | id in ids :: id in notes
  {
    seq(|ids|, i requires 0 <= i < |ids| => assert ids[i] in ids; LiveSnapshot(notes[ids[i]]))
  }

  /** One snapshot per live row that has none at its revision. The scan order of SQLite is taken to be the id order. */
  function Backfilled(db: Db): Db {
    db.(snapshots := db.snapshots + LiveSnapshots(db.notes, Uncovered(db)))
  }
}
