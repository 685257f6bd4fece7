/** The laws of `restore_from` and of the backfill `open` runs. */
module Recovery {
  import opened Text
  import opened Ordering
  import opened Protocol
  import opened Tables
  import opened SyncSpec
  import opened Merge

  // ----- the rebase

  lemma ShiftedRevision(db: Db, offset: nat)
    ensures CurrentRevision(Shifted(db, offset).notes) ==
            if db.notes == map[] then 0 else CurrentRevision(db.notes) + offset
  {
    var after, top := Shifted(db, offset).notes, CurrentRevision(db.notes);
    AtMostCurrent(db.notes);
    CurrentIsTaken(db.notes);
    hide CurrentRevision;
    if id :| id in db.notes {
      assert db.notes[id].revision <= top;
      var peak :| peak in db.notes && (top == 0 || db.notes[peak].revision == top);
      assert after[peak].revision == top + offset;
      CurrentRevisionIs(after, top + offset);
    } else {
      CurrentRevisionIs(after, 0);
    }
  }

  lemma ShiftedBounded(db: Db, offset: nat)
    requires SnapshotsBounded(db)
    ensures SnapshotsBounded(Shifted(db, offset))
  {
    var after := Shifted(db, offset);
    forall s | s in after.snapshots
      ensures s.note.id in after.notes && 0 < s.revision <= after.notes[s.note.id].revision
    {
      var i :| 0 <= i < |after.snapshots| && after.snapshots[i] == s;
      assert db.snapshots[i] in db.snapshots;
    }
  }

  lemma ShiftedCovers(db: Db, offset: nat, id: string)
    requires HistoryCovers(db) && id in db.notes
    ensures var after := Shifted(db, offset); CoversRow(after.snapshots, after.notes[id])
  {
    var after, row := Shifted(db, offset), db.notes[id];
    assert CoversRow(db.snapshots, row);
    var i :| 0 <= i < |db.snapshots| && db.snapshots[i].note == row.note && db.snapshots[i].revision == row.revision;
    assert after.snapshots[i].revision == after.notes[id].revision;
  }

  lemma ShiftedValid(db: Db, offset: nat)
    requires Valid(db)
    ensures Valid(Shifted(db, offset))
  {
    var after := Shifted(db, offset);
    ShiftedBounded(db, offset);
    hide SnapshotsBounded;
    forall a, b ensures !Clash(after.notes, a, b) { assert !Clash(db.notes, a, b); }
    forall id | id in after.notes ensures CoversRow(after.snapshots, after.notes[id]) {
      ShiftedCovers(db, offset, id);
    }
  }

  /** A loaded backup is valid when the backup is; a non-empty one loads entirely above zero and past `revision`. */
  lemma LoadedFacts(backup: Db, revision: nat)
    requires Valid(backup)
    ensures var loaded := Loaded(backup, revision);
      && Valid(loaded) && loaded.notes.Keys == backup.notes.Keys
      && (forall id | id in backup.notes :: loaded.notes[id].note == backup.notes[id].note)
      && CurrentRevision(loaded.notes) ==
           (if backup.notes == map[] then 0
            else if CurrentRevision(backup.notes) <= revision then CurrentRevision(backup.notes) + revision
            else CurrentRevision(backup.notes))
      && (backup.notes != map[] ==> CurrentRevision(loaded.notes) > revision)
  {
    ShiftedValid(backup, revision);
    ShiftedRevision(backup, revision);
    AtMostCurrent(backup.notes);
    CurrentIsTaken(backup.notes);
    hide CurrentRevision;
    if id :| id in backup.notes {
      assert backup.notes[id].revision > 0;
    } else {
      assert backup.notes == map[];
    }
  }

  // ----- the tombstones

  /** `after` is `db` with a tombstone for each of `ids`, at consecutive revisions. */
  ghost predicate TombstonesAdded(db: Db, previous: Table, ids: seq<string>, restoreTime: Time, after: Db)
    requires forall id | id in ids :: id in previous
  {
    && (forall id :: id in after.notes <==> id in db.notes || id in ids)
    && (forall id | id in db.notes :: after.notes[id] == db.notes[id])
    && (forall j | 0 <= j < |ids| ::
         after.notes[ids[j]] == Row(Tombstone(previous[ids[j]].note, restoreTime), CurrentRevision(db.notes) + j + 1))
    && CurrentRevision(after.notes) == CurrentRevision(db.notes) + |ids|
  }

  lemma TombstonesStep(db: Db, previous: Table, ids: seq<string>, id: string, restoreTime: Time, before: Db,
    capturedAt: Time)
    requires forall x | x in ids :: x in previous
    requires Keyed(previous) && id in previous && id !in db.notes && id !in ids
    requires TombstonesAdded(db, previous, ids, restoreTime, before)
    ensures var revision := CurrentRevision(db.notes) + |ids| + 1;
      TombstonesAdded(db, previous, ids + [id], restoreTime,
                      Stored(before, Tombstone(previous[id].note, restoreTime), revision, capturedAt))
  {
    hide CurrentRevision;
    var revision, t := CurrentRevision(db.notes) + |ids| + 1, Tombstone(previous[id].note, restoreTime);
    var after := Stored(before, t, revision, capturedAt);
    assert CurrentRevision(after.notes) == revision by { StoredExtends(before, t, revision, capturedAt); }
    var more := ids + [id];
    forall j | 0 <= j < |more|
      ensures after.notes[more[j]]
          == Row(Tombstone(previous[more[j]].note, restoreTime), CurrentRevision(db.notes) + j + 1)
    {
      if j < |ids| { assert more[j] == ids[j] && ids[j] in ids; }
    }
  }

  lemma NothingAdded(db: Db, previous: Table, restoreTime: Time)
    ensures TombstonesAdded(db, previous, [], restoreTime, db)
  {
    hide CurrentRevision, Tombstone;
  }

  lemma {:induction false} TombstonedAdds(db: Db, previous: Table, ids: seq<string>, restoreTime: Time, clock: Clock)
    requires forall id | id in ids :: id in previous && id !in db.notes
    requires Keyed(previous) && NoRepeats(ids)
    ensures TombstonesAdded(db, previous, ids, restoreTime,
                            Tombstoned(db, previous, ids, CurrentRevision(db.notes), restoreTime, clock))
  {
    hide CurrentRevision, Tombstone, Keyed, Stored, TombstonesAdded, Tombstoned;
    if ids == [] {
      NoTombstones(db, previous, CurrentRevision(db.notes), restoreTime, clock);
      NothingAdded(db, previous, restoreTime);
    } else {
      var n := |ids| - 1;
      assert ids == ids[..n] + [ids[n]];
      TombstonedAdds(db, previous, ids[..n], restoreTime, clock);
      TombstonedSnoc(db, previous, ids[..n], ids[n], CurrentRevision(db.notes), restoreTime, clock);
      var before := Tombstoned(db, previous, ids[..n], CurrentRevision(db.notes), restoreTime, clock);
      TombstonesStep(db, previous, ids[..n], ids[n], restoreTime, before, clock(CurrentRevision(db.notes) + n + 1));
    }
  }

  /** Appending tombstones keeps every invariant, and only appends to the history, above the start. */
  lemma {:induction false} TombstonedValid(db: Db, previous: Table, ids: seq<string>, restoreTime: Time, clock: Clock)
    requires forall id | id in ids :: id in previous
    requires Valid(db)
    ensures var after := Tombstoned(db, previous, ids, CurrentRevision(db.notes), restoreTime, clock);
      && Valid(after) && CurrentRevision(after.notes) == CurrentRevision(db.notes) + |ids|
      && (forall x | x in after.snapshots :: x in db.snapshots || x.revision > CurrentRevision(db.notes))
      && (forall x | x in db.snapshots :: x in after.snapshots)
  {
    hide CurrentRevision, Valid, Tombstone, Tombstoned;
    var start := CurrentRevision(db.notes);
    if ids == [] {
      NoTombstones(db, previous, start, restoreTime, clock);
    } else {
      var n := |ids| - 1;
      assert ids == ids[..n] + [ids[n]];
      TombstonedValid(db, previous, ids[..n], restoreTime, clock);
      TombstonedSnoc(db, previous, ids[..n], ids[n], start, restoreTime, clock);
      var before := Tombstoned(db, previous, ids[..n], start, restoreTime, clock);
      var t, r := Tombstone(previous[ids[n]].note, restoreTime), start + n + 1;
      StoredExtends(before, t, r, clock(r));
      StoredValid(before, t, r, clock(r));
    }
  }

  /**
   * A tombstone is the same note, deleted at the later of the restore and the note's own
   * date, which is its deletion if it is one and else its update; and updated no earlier.
   */
  lemma TombstoneIs(note: SyncChange, restoreTime: Time)
    ensures var t := Tombstone(note, restoreTime);
      var dated := if note.deletedAt.Some? then note.deletedAt.value else note.updatedAt;
      && t.deletedAt.Some? && t.deletedAt.value >= dated && t.deletedAt.value >= restoreTime
      && (t.deletedAt.value == dated || t.deletedAt.value == restoreTime)
      && t.updatedAt >= note.updatedAt && t.updatedAt >= t.deletedAt.value
      && (t.updatedAt == note.updatedAt || t.updatedAt == t.deletedAt.value)
      && t.(updatedAt := note.updatedAt, deletedAt := note.deletedAt) == note
  {}

  // ----- restore_from as a whole

  /** The ids a restore buries, and where. */
  lemma RestoredFacts(live: Db, backup: Db, restoreTime: Time, clock: Clock)
    requires Keyed(live.notes) && Valid(backup)
    ensures var loaded, missing := Loaded(backup, CurrentRevision(live.notes)), MissingIds(live.notes, backup.notes);
      && loaded.notes.Keys == backup.notes.Keys
      && NoRepeats(missing)
      && TombstonesAdded(loaded, live.notes, missing, restoreTime, Restored(live, backup, restoreTime, clock))
      && Valid(Restored(live, backup, restoreTime, clock))
  {
    LoadedFacts(backup, CurrentRevision(live.notes));
    var loaded, missing := Loaded(backup, CurrentRevision(live.notes)), MissingIds(live.notes, backup.notes);
    SortedIdsNoRepeats(live.notes.Keys - backup.notes.Keys);
    TombstonedAdds(loaded, live.notes, missing, restoreTime, clock);
    TombstonedValid(loaded, live.notes, missing, restoreTime, clock);
  }

  /** Restoring a valid backup gives a valid database. */
  lemma RestoredIsValid(live: Db, backup: Db, restoreTime: Time, clock: Clock)
    requires Keyed(live.notes) && Valid(backup)
    ensures Valid(Restored(live, backup, restoreTime, clock)) && Keyed(Restored(live, backup, restoreTime, clock).notes)
  {
    RestoredFacts(live, backup, restoreTime, clock);
  }

  /** The value of an id after a restore: the backup's, or else the live note's tombstone. */
  function RestoredNote(live: Table, backup: Table, restoreTime: Time, id: string): SyncChange
    requires id in live || id in backup
  {
    if id in backup then backup[id].note else Tombstone(live[id].note, restoreTime)
  }

  lemma RestoredValue(live: Db, backup: Db, restoreTime: Time, clock: Clock, id: string)
    requires Keyed(live.notes) && Valid(backup)
    ensures var after := Restored(live, backup, restoreTime, clock).notes;
      && (id in after <==> id in live.notes || id in backup.notes)
      && (id in after ==> after[id].note == RestoredNote(live.notes, backup.notes, restoreTime, id))
  {
    var loaded, missing := Loaded(backup, CurrentRevision(live.notes)), MissingIds(live.notes, backup.notes);
    RestoredFacts(live, backup, restoreTime, clock);
    LoadedFacts(backup, CurrentRevision(live.notes));
    hide CurrentRevision, Restored, Loaded, Valid;
    if id in missing {
      var j :| 0 <= j < |missing| && missing[j] == id;
    }
  }

  /**
   * A restore replaces the notes by the backup's, and by tombstones of the live notes the
   * backup lacks. No id is lost.
   */
  lemma RestoredValues(live: Db, backup: Db, restoreTime: Time, clock: Clock)
    requires Keyed(live.notes) && Valid(backup)
    ensures var after := Restored(live, backup, restoreTime, clock).notes;
      && after.Keys == live.notes.Keys + backup.notes.Keys
      && forall id | id in after :: after[id].note == RestoredNote(live.notes, backup.notes, restoreTime, id)
  {
    hide CurrentRevision, Restored, Valid;
    var after := Restored(live, backup, restoreTime, clock).notes;
    forall id
      ensures id in after <==> id in live.notes || id in backup.notes
      ensures id in after ==> after[id].note == RestoredNote(live.notes, backup.notes, restoreTime, id)
    {
      RestoredValue(live, backup, restoreTime, clock, id);
    }
  }

  /** The revision after a restore: what was loaded, plus one for each note the backup lacks. */
  lemma RestoredRevision(live: Db, backup: Db, restoreTime: Time, clock: Clock)
    requires Keyed(live.notes) && Valid(backup)
    ensures CurrentRevision(Restored(live, backup, restoreTime, clock).notes) ==
            CurrentRevision(Loaded(backup, CurrentRevision(live.notes)).notes) + |live.notes.Keys - backup.notes.Keys|
  {
    RestoredFacts(live, backup, restoreTime, clock);
  }

  /** A restore raises the revision exactly when the backup has a note, whatever database the backup came from. */
  lemma RestoreRaisesRevisionIff(live: Db, backup: Db, restoreTime: Time, clock: Clock)
    requires Valid(live) && Valid(backup)
    ensures CurrentRevision(Restored(live, backup, restoreTime, clock).notes) > CurrentRevision(live.notes)
            <==> backup.notes != map[]
  {
    RestoredRevision(live, backup, restoreTime, clock);
    LoadedFacts(backup, CurrentRevision(live.notes));
    if backup.notes == map[] {
      assert live.notes.Keys - backup.notes.Keys == live.notes.Keys;
      IdsAtMostRevision(live.notes);
    }
  }

  /**
   * What a caller can check before a restore: the backup has notes, and is rebased or lies
   * wholly beyond the live revision.
   */
  ghost predicate LiftsEveryRow(live: Table, backup: Table) {
    if backup == map[] then live == map[]
    else CurrentRevision(backup) > CurrentRevision(live) ==> AllAbove(backup, CurrentRevision(live))
  }

  /**
   * A restore gives every note a revision no client has passed exactly when the backup
   * is rebased (or is wholly beyond the live revision), and is not an empty one over live notes.
   */
  lemma RestoreLiftsEveryRowIff(live: Db, backup: Db, restoreTime: Time, clock: Clock)
    requires Valid(live) && Valid(backup)
    ensures AllAbove(Restored(live, backup, restoreTime, clock).notes, CurrentRevision(live.notes))
            <==> LiftsEveryRow(live.notes, backup.notes)
  {
    hide CurrentRevision, Restored, MissingIds, SnapshotsBounded, SnapshotsDistinct, HistoryCovers;
    var R := CurrentRevision(live.notes);
    var loaded, missing := Loaded(backup, R), MissingIds(live.notes, backup.notes);
    var after := Restored(live, backup, restoreTime, clock).notes;
    RestoredFacts(live, backup, restoreTime, clock);
    LoadedFacts(backup, R);
    if backup.notes == map[] {
      EmptyLiftsNothing(live, loaded, missing, restoreTime, Restored(live, backup, restoreTime, clock));
    } else if CurrentRevision(backup.notes) <= R {
      forall id | id in after ensures after[id].revision > R {
        if id !in backup.notes {
          assert id in missing;
        }
      }
    } else {
      assert loaded == backup;
      forall id | id in backup.notes ensures after[id] == backup.notes[id] {}
      if AllAbove(backup.notes, R) {
        forall id | id in after ensures after[id].revision > R {
          if id !in backup.notes { assert id in missing; }
        }
      }
    }
  }

  lemma EmptyLiftsNothing(live: Db, loaded: Db, missing: seq<string>, restoreTime: Time, after: Db)
    requires Valid(live) && loaded.notes == map[] && Lists(missing, live.notes.Keys)
    requires TombstonesAdded(loaded, live.notes, missing, restoreTime, after)
    ensures AllAbove(after.notes, CurrentRevision(live.notes)) <==> live.notes == map[]
  {
    AtMostCurrent(live.notes);
    CurrentRevisionIs(loaded.notes, 0);
    hide CurrentRevision;
    if id :| id in live.notes {
      assert missing[0] in missing by { assert id in missing; }
      assert missing[0] in after.notes && after.notes[missing[0]].revision == 1;
      assert live.notes[id].revision >= 1;
    } else {
      assert forall id :: id !in missing;
      assert after.notes.Keys == {};
    }
  }

  /** A restore that lifts every row extends the live database, so no client cursor, and no revision, goes stale. */
  lemma RestoreExtends(live: Db, backup: Db, restoreTime: Time, clock: Clock)
    requires Valid(live) && Valid(backup) && LiftsEveryRow(live.notes, backup.notes)
    ensures Extends(live, Restored(live, backup, restoreTime, clock))
  {
    hide CurrentRevision, Restored, Valid, LiftsEveryRow;
    ValidIsKeyed(live);
    RestoreLiftsEveryRowIff(live, backup, restoreTime, clock);
    RestoredValues(live, backup, restoreTime, clock);
    var after := Restored(live, backup, restoreTime, clock);
    if id :| id in live.notes {
      assert id in after.notes && after.notes[id].revision > CurrentRevision(live.notes);
      AtMostCurrent(after.notes);
    } else {
      assert live.notes == map[];
      CurrentRevisionIs(live.notes, 0);
    }
  }

  /** A backup that lifts every row has no more ids than it lifts revisions. */
  lemma LiftedIds(live: Table, backup: Db)
    requires Valid(backup) && backup.notes != map[] && LiftsEveryRow(live, backup.notes)
    ensures |backup.notes.Keys| <= CurrentRevision(Loaded(backup, CurrentRevision(live)).notes) - CurrentRevision(live)
  {
    hide CurrentRevision, Loaded, SnapshotsBounded, SnapshotsDistinct, HistoryCovers;
    LoadedFacts(backup, CurrentRevision(live));
    if CurrentRevision(backup.notes) <= CurrentRevision(live) {
      IdsAtMostRevision(backup.notes);
    } else {
      AtMostCurrent(backup.notes);
      IdsBetween(backup.notes, CurrentRevision(live), CurrentRevision(backup.notes));
    }
  }

  lemma UnionAtMost<T>(a: set<T>, b: set<T>)
    ensures |a + b| <= |a| + |b|
  {
    assert |a + b| + |a * b| == |a| + |b|;
  }

  /** Such a restore also grows the table by no more ids than revisions. */
  lemma RestoreGrowth(live: Db, backup: Db, restoreTime: Time, clock: Clock)
    requires Keyed(live.notes) && Valid(backup) && backup.notes != map[] && LiftsEveryRow(live.notes, backup.notes)
    ensures var after := Restored(live, backup, restoreTime, clock).notes;
      |after.Keys| - |live.notes.Keys| <= CurrentRevision(after) - CurrentRevision(live.notes)
  {
    hide CurrentRevision, Restored, Loaded, Valid, LiftsEveryRow;
    LiftedIds(live.notes, backup);
    RestoredValues(live, backup, restoreTime, clock);
    RestoredRevision(live, backup, restoreTime, clock);
    UnionAtMost(live.notes.Keys, backup.notes.Keys);
  }

  /** The snapshots that come with the tombstones. */
  function TombstoneHistory(live: Table, ids: seq<string>, start: nat, restoreTime: Time, clock: Clock): seq<Snapshot>
    requires forall id | id in ids :: id in live
  {
    seq(|ids|, i requires 0 <= i < |ids| =>
      assert ids[i] in ids;
      Snapshot(Tombstone(live[ids[i]].note, restoreTime), start + i + 1, clock(start + i + 1)))
  }

  lemma {:induction false} TombstonedHistory(
    db: Db, previous: Table, ids: seq<string>, start: nat, restoreTime: Time, clock: Clock)
    requires forall id | id in ids :: id in previous
    ensures Tombstoned(db, previous, ids, start, restoreTime, clock).snapshots
            == db.snapshots + TombstoneHistory(previous, ids, start, restoreTime, clock)
  {
    hide Tombstone;
    if ids != [] {
      var n := |ids| - 1;
      TombstonedHistory(db, previous, ids[..n], start, restoreTime, clock);
      var earlier := TombstoneHistory(previous, ids[..n], start, restoreTime, clock);
      var all := TombstoneHistory(previous, ids, start, restoreTime, clock);
      assert all == earlier + [all[n]];
    }
  }

  /** `after` has every row of the backup, raised: its notes, and its whole history in place. */
  ghost predicate HasBackup(backup: Db, raised: nat, after: Db) {
    && (forall id | id in backup.notes ::
         id in after.notes && after.notes[id] == Row(backup.notes[id].note, backup.notes[id].revision + raised))
    && |after.snapshots| >= |backup.snapshots|
    && (forall i {:trigger after.snapshots[i]} | 0 <= i < |backup.snapshots| ::
         after.snapshots[i] == Snapshot(backup.snapshots[i].note, backup.snapshots[i].revision + raised,
                                        backup.snapshots[i].capturedAt))
  }

  /** `after` has a tombstone for each of `ids`, in order, from revision `top` + 1 on. */
  ghost predicate HasTombstones(
    live: Table, ids: seq<string>, restoreTime: Time, clock: Clock, top: nat, n: nat, after: Db)
  {
    && |after.snapshots| == n + |ids|
    && (forall j {:trigger ids[j]} | 0 <= j < |ids| ::
         && ids[j] in live && ids[j] in after.notes
         && after.notes[ids[j]] == Row(Tombstone(live[ids[j]].note, restoreTime), top + j + 1)
         && after.snapshots[n + j]
            == Snapshot(Tombstone(live[ids[j]].note, restoreTime), top + j + 1, clock(top + j + 1)))
  }

  lemma LoadedHasBackup(backup: Db, R: nat)
    ensures HasBackup(backup, if CurrentRevision(backup.notes) <= R then R else 0, Loaded(backup, R))
    ensures |Loaded(backup, R).snapshots| == |backup.snapshots|
  {
    hide CurrentRevision;
  }

  lemma MoreHasBackup(backup: Db, raised: nat, loaded: Db, after: Db, tail: seq<Snapshot>)
    requires HasBackup(backup, raised, loaded) && |loaded.snapshots| == |backup.snapshots|
    requires forall id | id in backup.notes ::
      id in loaded.notes && id in after.notes && after.notes[id] == loaded.notes[id]
    requires after.snapshots == loaded.snapshots + tail
    ensures HasBackup(backup, raised, after)
  {}

  lemma TombstoneHistoryAt(live: Table, ids: seq<string>, top: nat, restoreTime: Time, clock: Clock)
    requires forall id | id in ids :: id in live
    ensures var tail := TombstoneHistory(live, ids, top, restoreTime, clock);
      |tail| == |ids| && forall j {:trigger tail[j]} | 0 <= j < |ids| ::
        ids[j] in live
        && tail[j] == Snapshot(Tombstone(live[ids[j]].note, restoreTime), top + j + 1, clock(top + j + 1))
  {
    hide Tombstone;
    forall j | 0 <= j < |ids| ensures ids[j] in live { assert ids[j] in ids; }
  }

  lemma AddedAreTombstones(
    loaded: Db, live: Table, ids: seq<string>, restoreTime: Time, clock: Clock, top: nat, after: Db)
    requires forall id | id in ids :: id in live
    requires TombstonesAdded(loaded, live, ids, restoreTime, after) && top == CurrentRevision(loaded.notes)
    requires after.snapshots == loaded.snapshots + TombstoneHistory(live, ids, top, restoreTime, clock)
    ensures HasTombstones(live, ids, restoreTime, clock, top, |loaded.snapshots|, after)
  {
    hide CurrentRevision, Tombstone, TombstoneHistory;
    TombstoneHistoryAt(live, ids, top, restoreTime, clock);
    forall j | 0 <= j < |ids|
      ensures ids[j] in live && ids[j] in after.notes
      ensures after.snapshots[|loaded.snapshots| + j]
              == Snapshot(Tombstone(live[ids[j]].note, restoreTime), top + j + 1, clock(top + j + 1))
    {
      assert ids[j] in ids;
    }
  }

  lemma LoadedRowsStay(loaded: Db, live: Table, missing: seq<string>, restoreTime: Time, after: Db)
    requires forall id | id in missing :: id in live
    requires TombstonesAdded(loaded, live, missing, restoreTime, after)
    ensures forall id | id in loaded.notes :: id in after.notes && after.notes[id] == loaded.notes[id]
  {
    hide CurrentRevision;
  }

  lemma RestoredHistory(live: Db, backup: Db, restoreTime: Time, clock: Clock, missing: seq<string>)
    requires Valid(backup) && missing == MissingIds(live.notes, backup.notes)
    ensures var loaded := Loaded(backup, CurrentRevision(live.notes));
      Restored(live, backup, restoreTime, clock).snapshots
      == loaded.snapshots + TombstoneHistory(live.notes, missing, CurrentRevision(loaded.notes), restoreTime, clock)
  {
    hide CurrentRevision, Tombstoned, Loaded, Valid, TombstoneHistory;
    var loaded := Loaded(backup, CurrentRevision(live.notes));
    LoadedFacts(backup, CurrentRevision(live.notes));
    SameMissing(live.notes, backup.notes, loaded.notes);
    TombstonedHistory(loaded, live.notes, missing, CurrentRevision(loaded.notes), restoreTime, clock);
  }

  lemma SameMissing(live: Table, a: Table, b: Table)
    requires a.Keys == b.Keys
    ensures MissingIds(live, a) == MissingIds(live, b)
  {}

  lemma RestoredHasRows(live: Db, backup: Db, restoreTime: Time, clock: Clock, missing: seq<string>)
    requires Keyed(live.notes) && Valid(backup) && missing == MissingIds(live.notes, backup.notes)
    ensures var R, B := CurrentRevision(live.notes), CurrentRevision(backup.notes);
      var raised := if B <= R then R else 0;
      var top := if backup.notes == map[] then 0 else B + raised;
      var after := Restored(live, backup, restoreTime, clock);
      && HasBackup(backup, raised, after)
      && HasTombstones(live.notes, missing, restoreTime, clock, top, |backup.snapshots|, after)
  {
    hide CurrentRevision, Restored, Loaded, Valid, NoRepeats, TombstonesAdded, MissingIds;
    hide HasBackup, HasTombstones, TombstoneHistory;
    var R := CurrentRevision(live.notes);
    var loaded, after := Loaded(backup, R), Restored(live, backup, restoreTime, clock);
    var raised := if CurrentRevision(backup.notes) <= R then R else 0;
    LoadedFacts(backup, R);
    LoadedHasBackup(backup, R);
    RestoredFacts(live, backup, restoreTime, clock);
    var top := CurrentRevision(loaded.notes);
    RestoredHistory(live, backup, restoreTime, clock, missing);
    LoadedRowsStay(loaded, live.notes, missing, restoreTime, after);
    AddedAreTombstones(loaded, live.notes, missing, restoreTime, clock, top, after);
    var tail := TombstoneHistory(live.notes, missing, top, restoreTime, clock);
    MoreHasBackup(backup, raised, loaded, after, tail);
  }

  /**
   * Everything a restore leaves, row by row. The backup's notes and its whole history are
   * there, in place, raised by the live revision exactly when the backup was not ahead of
   * it. Then come, in the order of their ids, the live notes the backup lacks, each as a
   * tombstone at the next revision, in the table and in the history; and nothing else.
   */
  lemma RestoredRows(live: Db, backup: Db, restoreTime: Time, clock: Clock) returns (missing: seq<string>)
    requires Keyed(live.notes) && Valid(backup)
    ensures Ascending(missing, StrLess) && forall id :: id in missing <==> id in live.notes && id !in backup.notes
    ensures var R, B := CurrentRevision(live.notes), CurrentRevision(backup.notes);
      var raised := if B <= R then R else 0;
      var top := if backup.notes == map[] then 0 else B + raised;
      var after := Restored(live, backup, restoreTime, clock);
      && after.notes.Keys == backup.notes.Keys + live.notes.Keys
      && HasBackup(backup, raised, after)
      && HasTombstones(live.notes, missing, restoreTime, clock, top, |backup.snapshots|, after)
  {
    hide CurrentRevision, Restored, Valid, StrLess, Ascending, HasBackup, HasTombstones, RestoredNote;
    missing := MissingIds(live.notes, backup.notes);
    RestoredHasRows(live, backup, restoreTime, clock, missing);
    MissingIdsAscend(live.notes, backup.notes);
    RestoredValues(live, backup, restoreTime, clock);
  }

  /** The snapshots a restore leaves at or below the live revision. */
  function HistoryBelow(live: Db, backup: Db, restoreTime: Time, clock: Clock): seq<Snapshot> {
    if backup.notes == map[] then
      TombstoneHistory(live.notes, MissingIds(live.notes, backup.notes), 0, restoreTime, clock)
    else if CurrentRevision(backup.notes) <= CurrentRevision(live.notes) then []
    else backup.snapshots
  }

  /**
   * A restore leaves the history at and below the old revision alone exactly when what it
   * puts down there is in the live history: nothing if the backup is rebased, its own
   * snapshots if it was ahead, and those of the tombstones if it is empty.
   */
  lemma RestoreHistoryIff(live: Db, backup: Db, restoreTime: Time, clock: Clock)
    requires Valid(live) && Valid(backup)
    ensures HistoryExtends(live, Restored(live, backup, restoreTime, clock))
            <==> forall x | x in HistoryBelow(live, backup, restoreTime, clock)
                         && x.revision <= CurrentRevision(live.notes) :: x in live.snapshots
  {
    hide CurrentRevision, MissingIds, RevisionsAllocated, SnapshotsDistinct, HistoryCovers, Tombstoned, Shifted;
    var R := CurrentRevision(live.notes);
    var loaded := Loaded(backup, R);
    LoadedFacts(backup, R);
    var missing, start := MissingIds(live.notes, loaded.notes), CurrentRevision(loaded.notes);
    TombstonedHistory(loaded, live.notes, missing, start, restoreTime, clock);
    if backup.notes == map[] {
      NoNotesNoHistory(loaded);
    } else {
      HistoryAbove(live.notes, missing, start, restoreTime, clock);
      if CurrentRevision(backup.notes) <= R { ShiftedAbove(backup, R); }
    }
  }

  lemma NoNotesNoHistory(db: Db)
    requires SnapshotsBounded(db)
    ensures db.snapshots != [] ==> db.notes != map[]
  {
    if db.snapshots != [] { assert db.snapshots[0] in db.snapshots; }
  }

  lemma HistoryAbove(live: Table, ids: seq<string>, start: nat, restoreTime: Time, clock: Clock)
    requires forall id | id in ids :: id in live
    ensures forall x | x in TombstoneHistory(live, ids, start, restoreTime, clock) :: x.revision > start
  {}

  lemma ShiftedAbove(db: Db, offset: nat)
    requires SnapshotsBounded(db)
    ensures forall x | x in Shifted(db, offset).snapshots :: x.revision > offset
  {
    forall x | x in Shifted(db, offset).snapshots ensures x.revision > offset {
      var i :| 0 <= i < |db.snapshots| && Shifted(db, offset).snapshots[i] == x;
      assert db.snapshots[i] in db.snapshots;
    }
  }

  /**
   * One rebased restore of a backup that is not behind on ids by more than on revisions at
   * most doubles the revision.
   */
  lemma RestoreAtMostDoubles(live: Db, backup: Db, restoreTime: Time, clock: Clock)
    requires Keyed(live.notes) && Valid(backup) && backup.notes.Keys <= live.notes.Keys
    requires backup.notes != map[] && CurrentRevision(backup.notes) <= CurrentRevision(live.notes)
    requires |live.notes.Keys| - |backup.notes.Keys| <= CurrentRevision(live.notes) - CurrentRevision(backup.notes)
    ensures CurrentRevision(Restored(live, backup, restoreTime, clock).notes) <= 2 * CurrentRevision(live.notes)
  {
    hide CurrentRevision, Restored, Loaded, Valid;
    RestoredRevision(live, backup, restoreTime, clock);
    LoadedFacts(backup, CurrentRevision(live.notes));
    assert live.notes.Keys == (live.notes.Keys - backup.notes.Keys) + backup.notes.Keys;
  }

  // ----- the feed after a restore

  function ShiftedFeed(feed: seq<RevisionedChange>, offset: nat): seq<RevisionedChange> {
    seq(|feed|, i requires 0 <= i < |feed| => feed[i].(revision := feed[i].revision + offset))
  }

  function TombstoneFeed(live: Table, ids: seq<string>, start: nat, restoreTime: Time): seq<RevisionedChange>
    requires forall id | id in ids :: id in live
  {
    seq(|ids|, i requires 0 <= i < |ids| =>
      assert ids[i] in ids;
      RevisionedChange(start + i + 1, Tombstone(live[ids[i]].note, restoreTime)))
  }

  ghost predicate AscendingRevisions(q: seq<RevisionedChange>) {
    forall i, j | 0 <= i < j < |q| :: q[i].revision < q[j].revision
  }

  predicate IsRow(notes: Table, x: RevisionedChange) {
    x.note.id in notes && notes[x.note.id] == Row(x.note, x.revision)
  }

  /** `q` holds the rows above `since`, and nothing else. */
  ghost predicate HoldsRows(q: seq<RevisionedChange>, notes: Table, since: nat) {
    forall x: RevisionedChange :: x in q <==> IsRow(notes, x) && x.revision > since
  }

  lemma RowsAfterMembers(notes: Table, since: nat)
    requires Keyed(notes)
    ensures forall x: RevisionedChange :: x in RowsAfter(notes, since) <==> IsRow(notes, x) && x.revision > since
  {}

  /** The feed is the one listing of the rows above `since` in strictly ascending revision order. */
  lemma FeedIs(notes: Table, since: nat, q: seq<RevisionedChange>)
    requires Keyed(notes)
    requires HoldsRows(q, notes, since) && AscendingRevisions(q)
    ensures q == Feed(notes, since)
  {
    RowsAfterMembers(notes, since);
    RevisionLessTotal(notes, since);
    SortByIsTheListing(RowsAfter(notes, since), RevisionLess, q);
  }

  lemma FeedAscends(notes: Table, since: nat)
    requires Keyed(notes) && RevisionsAllocated(notes)
    ensures HoldsRows(Feed(notes, since), notes, since) && AscendingRevisions(Feed(notes, since))
  {
    var q := Feed(notes, since);
    RowsAfterMembers(notes, since);
    RevisionLessTotal(notes, since);
    SortByAscends(RowsAfter(notes, since), RevisionLess);
    forall i, j | 0 <= i < j < |q| ensures q[i].revision < q[j].revision {
      assert q[i] in q && q[j] in q;
      assert RevisionLess(q[i], q[j]);
      assert !Clash(notes, q[i].note.id, q[j].note.id);
      StrLessIrreflexive(q[i].note.id);
    }
  }

  /**
   * The exact feed after a rebased restore at revision R: the backup's whole feed in its
   * order, every revision raised by R, and then one tombstone for each id the backup
   * lacks, in id order, at consecutive revisions. Nothing is left at or below R.
   */
  ghost predicate IsRestoreFeed(live: Table, backup: Table, restoreTime: Time, after: Table) {
    && Keyed(backup) && Keyed(after)
    && Ascending(MissingIds(live, backup), StrLess)
    && var R := CurrentRevision(live);
       var q := ShiftedFeed(Feed(backup, 0), R)
         + TombstoneFeed(live, MissingIds(live, backup), CurrentRevision(backup) + R, restoreTime);
       Feed(after, R) == q && Feed(after, 0) == q
  }

  lemma RestoreFeed(live: Db, backup: Db, restoreTime: Time, clock: Clock)
    requires Valid(live) && Valid(backup)
    requires backup.notes != map[] && CurrentRevision(backup.notes) <= CurrentRevision(live.notes)
    ensures IsRestoreFeed(live.notes, backup.notes, restoreTime, Restored(live, backup, restoreTime, clock).notes)
  {
    var R := CurrentRevision(live.notes);
    ValidIsKeyed(live);
    ValidIsKeyed(backup);
    hide CurrentRevision, Restored, Shifted, TombstonesAdded, Feed, Valid, Keyed, MissingIds;
    RestoredFacts(live, backup, restoreTime, clock);
    ValidIsKeyed(Restored(live, backup, restoreTime, clock));
    LoadedFacts(backup, R);
    RebasedFeed(live, backup, Loaded(backup, R), restoreTime, Restored(live, backup, restoreTime, clock));
  }

  lemma RebasedFeed(live: Db, backup: Db, loaded: Db, restoreTime: Time, whole: Db)
    requires Valid(backup) && Keyed(backup.notes) && loaded == Shifted(backup, CurrentRevision(live.notes))
    requires CurrentRevision(loaded.notes) == CurrentRevision(backup.notes) + CurrentRevision(live.notes)
    requires TombstonesAdded(loaded, live.notes, MissingIds(live.notes, backup.notes), restoreTime, whole)
    requires Keyed(whole.notes)
    ensures IsRestoreFeed(live.notes, backup.notes, restoreTime, whole.notes)
  {
    hide CurrentRevision, Shifted, TombstonesAdded, Feed, Valid, MissingIds;
    var R, missing := CurrentRevision(live.notes), MissingIds(live.notes, backup.notes);
    var kept := ShiftedFeed(Feed(backup.notes, 0), R);
    var buried := TombstoneFeed(live.notes, missing, CurrentRevision(backup.notes) + R, restoreTime);
    RestoreFeedHolds(live, backup, R, loaded, missing, restoreTime, whole, kept, buried);
    RestoreFeedAscends(backup, live.notes, R, missing, restoreTime);
    MissingIdsAscend(live.notes, backup.notes);
    hide HoldsRows, AscendingRevisions, Keyed, ShiftedFeed, TombstoneFeed, Ascending;
    FeedIs(whole.notes, R, kept + buried);
    FeedIs(whole.notes, 0, kept + buried);
    assert IsRestoreFeed(live.notes, backup.notes, restoreTime, whole.notes);
  }

  lemma MissingIdsAscend(live: Table, loaded: Table)
    ensures Ascending(MissingIds(live, loaded), StrLess)
  {
    SortedIdsAscend(live.Keys - loaded.Keys);
  }

  lemma FeedAtMostCurrent(db: Db)
    requires Valid(db) && Keyed(db.notes)
    ensures AscendingRevisions(Feed(db.notes, 0))
    ensures forall i | 0 <= i < |Feed(db.notes, 0)| :: Feed(db.notes, 0)[i].revision <= CurrentRevision(db.notes)
  {
    hide CurrentRevision, Feed, SnapshotsBounded, SnapshotsDistinct, HistoryCovers, AscendingRevisions;
    var feed := Feed(db.notes, 0);
    FeedAscends(db.notes, 0);
    AtMostCurrent(db.notes);
    forall i | 0 <= i < |feed| ensures feed[i].revision <= CurrentRevision(db.notes) {
      assert feed[i] in feed;
    }
  }

  lemma RestoreFeedAscends(backup: Db, live: Table, R: nat, missing: seq<string>, restoreTime: Time)
    requires Valid(backup) && Keyed(backup.notes) && forall id | id in missing :: id in live
    ensures AscendingRevisions(ShiftedFeed(Feed(backup.notes, 0), R)
      + TombstoneFeed(live, missing, CurrentRevision(backup.notes) + R, restoreTime))
  {
    hide CurrentRevision, Valid, Feed, Keyed, Tombstone;
    FeedAtMostCurrent(backup);
  }

  lemma RestoreFeedHolds(live: Db, backup: Db, R: nat, loaded: Db, missing: seq<string>, restoreTime: Time, whole: Db,
                         kept: seq<RevisionedChange>, buried: seq<RevisionedChange>)
    requires Valid(backup) && loaded == Shifted(backup, R) && CurrentRevision(loaded.notes) >= R
    requires forall id :: id in missing <==> id in live.notes && id !in backup.notes
    requires TombstonesAdded(loaded, live.notes, missing, restoreTime, whole) && Keyed(whole.notes)
    requires kept == ShiftedFeed(Feed(backup.notes, 0), R)
    requires buried == TombstoneFeed(live.notes, missing, CurrentRevision(loaded.notes), restoreTime)
    ensures HoldsRows(kept + buried, whole.notes, R) && HoldsRows(kept + buried, whole.notes, 0)
  {
    KeptRows(backup, whole.notes, R, kept);
    BuriedRows(loaded, live.notes, missing, restoreTime, whole, buried);
    hide CurrentRevision, Valid, Feed;
    var q, after := kept + buried, whole.notes;
    forall x: RevisionedChange
      ensures x in q ==> IsRow(after, x) && x.revision > R
      ensures IsRow(after, x) ==> x in q
    {}
  }

  lemma KeptRows(backup: Db, after: Table, R: nat, kept: seq<RevisionedChange>)
    requires Valid(backup)
    requires forall id | id in backup.notes ::
      id in after && after[id] == Row(backup.notes[id].note, backup.notes[id].revision + R)
    requires kept == ShiftedFeed(Feed(backup.notes, 0), R)
    ensures forall x: RevisionedChange | x in kept :: IsRow(after, x) && x.revision > R
    ensures forall x: RevisionedChange | x.note.id in backup.notes && IsRow(after, x) :: x in kept
  {
    hide Feed, AscendingRevisions, SnapshotsBounded, SnapshotsDistinct, HistoryCovers;
    var feed := Feed(backup.notes, 0);
    FeedAscends(backup.notes, 0);
    assert forall id | id in backup.notes :: backup.notes[id].revision > 0;
    forall x: RevisionedChange | x in kept
      ensures IsRow(after, x) && x.revision > R
    {
      var i :| 0 <= i < |kept| && kept[i] == x;
      assert feed[i] in feed;
    }
    forall x: RevisionedChange | x.note.id in backup.notes && IsRow(after, x) ensures x in kept {
      var y := RevisionedChange(backup.notes[x.note.id].revision, x.note);
      assert y in feed;
      var i :| 0 <= i < |feed| && feed[i] == y;
      assert kept[i] == x;
    }
  }

  lemma BuriedRows(loaded: Db, live: Table, missing: seq<string>, restoreTime: Time, whole: Db,
    buried: seq<RevisionedChange>)
    requires forall id | id in missing :: id in live
    requires TombstonesAdded(loaded, live, missing, restoreTime, whole) && Keyed(whole.notes)
    requires buried == TombstoneFeed(live, missing, CurrentRevision(loaded.notes), restoreTime)
    ensures var after := whole.notes;
      && (forall x: RevisionedChange | x in buried ::
           IsRow(after, x) && x.revision > CurrentRevision(loaded.notes))
      && (forall x: RevisionedChange | x.note.id in missing && IsRow(after, x) :: x in buried)
  {
    hide CurrentRevision;
    var after := whole.notes;
    forall x: RevisionedChange | x in buried
      ensures IsRow(after, x) && x.revision > CurrentRevision(loaded.notes)
    {
      var j :| 0 <= j < |buried| && buried[j] == x;
      assert missing[j] in missing;
    }
    forall x: RevisionedChange | x.note.id in missing && IsRow(after, x) ensures x in buried {
      var j :| 0 <= j < |missing| && missing[j] == x.note.id;
      assert buried[j] == x;
    }
  }

  // ----- open

  /** The table names exactly one row for each id `ids` lists. */
  lemma UncoveredFacts(db: Db)
    ensures forall id :: id in Uncovered(db) <==> id in db.notes && !HasSnapshot(db.snapshots, db.notes[id])
    ensures NoRepeats(Uncovered(db))
  {
    SortedIdsNoRepeats(set id | id in db.notes && !HasSnapshot(db.snapshots, db.notes[id]));
  }

  /** The row appended is the note at its revision, captured when it was deleted or else last updated. */
  lemma LiveSnapshotIs(row: Row)
    ensures var s := LiveSnapshot(row);
      && s.note == row.note && s.revision == row.revision
      && (row.note.deletedAt.Some? ==> s.capturedAt == row.note.deletedAt.value)
      && (row.note.deletedAt.None? ==> s.capturedAt == row.note.updatedAt)
  {}

  /**
   * Backfill of any tables: earlier snapshot rows stay, exactly one row is appended for
   * each note without a snapshot at its revision, every note then has one, and doing it
   * again appends nothing.
   */
  lemma BackfillCovers(db: Db)
    ensures var after, ids := Backfilled(db), Uncovered(db);
      && after.notes == db.notes
      && |after.snapshots| == |db.snapshots| + |ids| && after.snapshots[..|db.snapshots|] == db.snapshots
      && (forall id | id in db.notes :: HasSnapshot(after.snapshots, db.notes[id]))
      && (forall id :: id in ids <==> id in db.notes && !HasSnapshot(db.snapshots, db.notes[id]))
      && (forall i | 0 <= i < |ids| ::
           ids[i] in ids && after.snapshots[|db.snapshots| + i] == LiveSnapshot(db.notes[ids[i]]))
      && NoRepeats(ids)
      && Backfilled(after) == after
  {
    var after, ids := Backfilled(db), Uncovered(db);
    UncoveredFacts(db);
    hide Uncovered;
    forall id | id in db.notes ensures HasSnapshot(after.snapshots, db.notes[id]) {
      var row := db.notes[id];
      if HasSnapshot(db.snapshots, row) {
        var s :| s in db.snapshots && s.note.id == row.note.id && s.revision == row.revision;
        assert s in after.snapshots;
      } else {
        var i :| 0 <= i < |ids| && ids[i] == id;
        assert after.snapshots[|db.snapshots| + i] in after.snapshots;
      }
    }
    NothingUncovered(after);
  }

  lemma NothingUncovered(db: Db)
    requires forall id | id in db.notes :: HasSnapshot(db.snapshots, db.notes[id])
    ensures Backfilled(db) == db
  {
    assert (set id | id in db.notes && !HasSnapshot(db.snapshots, db.notes[id])) == {};
    assert Uncovered(db) == [];
  }

  /** Opening a valid database changes nothing. */
  lemma BackfillOfValid(db: Db)
    requires Valid(db)
    ensures Backfilled(db) == db
  {
    forall id | id in db.notes ensures HasSnapshot(db.snapshots, db.notes[id]) {
      var row := db.notes[id];
      assert CoversRow(db.snapshots, row);
      var i :| 0 <= i < |db.snapshots| && db.snapshots[i].note == row.note && db.snapshots[i].revision == row.revision;
      assert db.snapshots[i] in db.snapshots;
    }
    NothingUncovered(db);
  }

  /** Each snapshot at a revision some note has is a snapshot of that very note. */
  ghost predicate HistoryFits(db: Db) {
    forall i, id | 0 <= i < |db.snapshots| && id in db.notes && db.snapshots[i].revision == db.notes[id].revision ::
      db.snapshots[i].note == db.notes[id].note
  }

  /** The databases that can be opened: valid ones, except that notes may lack their snapshots. */
  ghost predicate Openable(db: Db) {
    && Keyed(db.notes)
    && RevisionsAllocated(db.notes)
    && SnapshotsBounded(db)
    && SnapshotsDistinct(db.snapshots)
    && HistoryFits(db)
  }

  /** Opening leaves a valid database exactly when it was one, up to snapshots that were missing. */
  lemma OpensValidIff(db: Db)
    ensures Valid(Backfilled(db)) <==> Openable(db)
  {
    hide Backfilled, Uncovered, Valid, Openable;
    if Openable(db) { OpenableOpens(db); }
    if Valid(Backfilled(db)) { OpenedWasOpenable(db); }
  }

  lemma OpenableOpens(db: Db)
    requires Openable(db)
    ensures Valid(Backfilled(db))
  {
    hide Uncovered, Backfilled, SnapshotsBounded, SnapshotsDistinct, NoRepeats;
    var after, ids := Backfilled(db), Uncovered(db);
    BackfillCovers(db);
    BackfilledBounded(db, ids, after);
    BackfilledDistinct(db, ids, after);
    forall id | id in db.notes ensures CoversRow(after.snapshots, db.notes[id]) {
      BackfilledCovers(db, ids, after, id);
    }
  }

  /** `after` has one snapshot more for each of `ids`. */
  ghost predicate Appended(db: Db, ids: seq<string>, after: Db) {
    && after.notes == db.notes && |after.snapshots| == |db.snapshots| + |ids|
    && after.snapshots[..|db.snapshots|] == db.snapshots
    && (forall i | 0 <= i < |ids| ::
         ids[i] in db.notes && after.snapshots[|db.snapshots| + i] == LiveSnapshot(db.notes[ids[i]]))
  }

  lemma BackfilledBounded(db: Db, ids: seq<string>, after: Db)
    requires Keyed(db.notes) && RevisionsAllocated(db.notes) && SnapshotsBounded(db) && Appended(db, ids, after)
    ensures SnapshotsBounded(after)
  {
    forall s | s in after.snapshots
      ensures s.note.id in after.notes && 0 < s.revision <= after.notes[s.note.id].revision
    {
      var i :| 0 <= i < |after.snapshots| && after.snapshots[i] == s;
      if i < |db.snapshots| {
        assert s == db.snapshots[i] && s in db.snapshots;
      } else {
        assert s == LiveSnapshot(db.notes[ids[i - |db.snapshots|]]);
      }
    }
  }

  lemma BackfilledDistinct(db: Db, ids: seq<string>, after: Db)
    requires Keyed(db.notes) && RevisionsAllocated(db.notes) && SnapshotsDistinct(db.snapshots) && HistoryFits(db)
    requires Appended(db, ids, after) && NoRepeats(ids)
    requires forall id | id in ids :: id in db.notes && !HasSnapshot(db.snapshots, db.notes[id])
    ensures SnapshotsDistinct(after.snapshots)
  {
    hide NoRepeats;
    var n := |db.snapshots|;
    forall i, j | 0 <= i < j < |after.snapshots| ensures after.snapshots[i].revision != after.snapshots[j].revision {
      if j < n {
        assert after.snapshots[i] == db.snapshots[i] && after.snapshots[j] == db.snapshots[j];
      } else {
        assert ids[j - n] in ids && after.snapshots[j] == LiveSnapshot(db.notes[ids[j - n]]);
        if i < n {
          assert after.snapshots[i] == db.snapshots[i] && db.snapshots[i] in db.snapshots;
        } else {
          assert after.snapshots[i] == LiveSnapshot(db.notes[ids[i - n]]);
          NoRepeatsInjective(ids, i - n, j - n);
          assert !Clash(db.notes, ids[i - n], ids[j - n]);
        }
      }
    }
  }

  lemma BackfilledCovers(db: Db, ids: seq<string>, after: Db, id: string)
    requires HistoryFits(db) && Appended(db, ids, after) && id in db.notes
    requires id in ids || HasSnapshot(db.snapshots, db.notes[id])
    ensures CoversRow(after.snapshots, db.notes[id])
  {
    var row := db.notes[id];
    if HasSnapshot(db.snapshots, row) {
      var s :| s in db.snapshots && s.note.id == row.note.id && s.revision == row.revision;
      var i :| 0 <= i < |db.snapshots| && db.snapshots[i] == s;
      assert after.snapshots[i] == s;
    } else {
      var i :| 0 <= i < |ids| && ids[i] == id;
      assert after.snapshots[|db.snapshots| + i].note == row.note;
    }
  }

  lemma OpenedWasOpenable(db: Db)
    requires Valid(Backfilled(db))
    ensures Openable(db)
  {
    hide Uncovered, Backfilled, NoRepeats;
    var after, n := Backfilled(db), |db.snapshots|;
    BackfillCovers(db);
    assert forall i | 0 <= i < n :: after.snapshots[i] == db.snapshots[i];
    forall s | s in db.snapshots ensures s in after.snapshots {
      var i :| 0 <= i < n && db.snapshots[i] == s;
      assert after.snapshots[i] == s;
    }
    forall i, id | 0 <= i < n && id in db.notes && db.snapshots[i].revision == db.notes[id].revision
      ensures db.snapshots[i].note == db.notes[id].note
    {
      assert CoversRow(after.snapshots, after.notes[id]);
      var j :| 0 <= j < |after.snapshots| && after.snapshots[j].note == db.notes[id].note
        && after.snapshots[j].revision == db.notes[id].revision;
      assert after.snapshots[i] == db.snapshots[i];
      assert i == j;
    }
  }

  /** A legacy database, with properly numbered notes and no history, opens into a valid one. */
  lemma LegacyOpensValid(notes: Table)
    requires Keyed(notes) && RevisionsAllocated(notes)
    ensures Openable(Db(notes, [])) && Valid(Backfilled(Db(notes, [])))
  {
    hide Backfilled, Valid;
    OpensValidIff(Db(notes, []));
  }
}
