/** The store itself: mutable tables, and the watch channel that announces revisions. */
module Store {
  import opened Text
  import opened Ordering
  import opened Protocol
  import opened Tables
  import opened SyncSpec
  import opened Merge
  import opened Recovery

  class SyncStore {
    var notes: Table
    var snapshots: seq<Snapshot>
    /** The value of the watch channel, and how often it has been replaced. */
    var published: nat
    var version: nat

    ghost function Contents(): Db
      reads this
    {
      Db(notes, snapshots)
    }

    /** Well-formed tables, and everything stored has been announced. */
    ghost predicate Consistent()
      reads this
    {
      Valid(Contents()) && published == CurrentRevision(notes)
    }

    /** Opening backfills the history and starts the channel at the stored revision. */
    constructor Open(notes: Table, snapshots: seq<Snapshot>)
      ensures Contents() == Backfilled(Db(notes, snapshots))
      ensures published == CurrentRevision(notes) && version == 0
      ensures Consistent() <==> Openable(Db(notes, snapshots))
      ensures Valid(Db(notes, snapshots)) ==> Consistent() && Contents() == Db(notes, snapshots)
      ensures Keyed(notes) && RevisionsAllocated(notes) && snapshots == [] ==> Consistent()
    {
      hide CurrentRevision, Backfilled, Openable, Valid;
      this.notes, this.snapshots, version, published := notes, snapshots, 0, 0;
      new;
      BackfillMissingSnapshots();
      published := CurrentRevision(this.notes);
      OpensValidIff(Db(notes, snapshots));
      if Valid(Db(notes, snapshots)) { BackfillOfValid(Db(notes, snapshots)); }
      if Keyed(notes) && RevisionsAllocated(notes) && snapshots == [] { LegacyOpensValid(notes); }
    }

    method BackfillMissingSnapshots()
      modifies this`snapshots
      ensures Contents() == old(Backfilled(Contents()))
    {
      var ids := SortedIds(set id | id in notes && !HasSnapshot(snapshots, notes[id]));
      snapshots := snapshots + LiveSnapshots(notes, ids);
    }

    method SendReplace(revision: nat)
      modifies this`published, this`version
      ensures published == revision && version == old(version) + 1
    {
      published, version := revision, version + 1;
    }

    method StoreChange(change: SyncChange, revision: nat, capturedAt: Time)
      modifies this`notes, this`snapshots
      ensures Contents() == Stored(old(Contents()), change, revision, capturedAt)
    {
      notes := notes[change.id := Row(change, revision)];
      snapshots := snapshots + [Snapshot(change, revision, capturedAt)];
    }

    /**
     * Last-writer-wins merge of a batch. The channel is written only when a change was
     * accepted; a consistent store stays consistent.
     */
    method Push(request: PushRequest, clock: Clock) returns (response: PushResponse)
      modifies this
      ensures Contents() == PushAll(old(Contents()), Filled(request), clock)
      ensures response.revision == CurrentRevision(notes)
      ensures response.revision == CurrentRevision(old(notes)) + |Accepted(old(Contents()), Filled(request), clock)|
      ensures LastWriterWon(old(notes), Filled(request), notes)
      ensures if response.revision > CurrentRevision(old(notes))
              then published == response.revision && version == old(version) + 1
              else published == old(published) && version == old(version)
      ensures old(Consistent()) ==> Consistent() && Extends(old(Contents()), Contents())
    {
      hide CurrentRevision, Accepted, LastWriterWon, Extends, Valid, PushAll, Stored;
      NothingPushed(Contents(), clock);
      var startingRevision := CurrentRevision(notes);
      ghost var before, batch := Contents(), Filled(request);
      var i := 0;
      while i < |request.changes|
        invariant 0 <= i <= |batch| == |request.changes|
        invariant Contents() == PushAll(before, batch[..i], clock)
        invariant published == old(published) && version == old(version)
      {
        var change := request.changes[i];
        if IsBlank(change.deviceId) {
          change := change.(deviceId := request.deviceId);
        }
        ghost var pushed := batch[..i];
        assert batch[..i + 1] == pushed + [change];
        i := i + 1;
        if change.id in notes {
          var existing := notes[change.id].note;
          var serverTime, incomingTime := ChangeTime(existing), ChangeTime(change);
          if serverTime > incomingTime || (serverTime == incomingTime && existing == change) {
            PushSkips(before, pushed, change, clock);
            continue;
          }
        }
        var revision := CurrentRevision(notes) + 1;
        PushStores(before, pushed, change, clock);
        StoreChange(change, revision, clock(revision));
      }
      assert batch[..|batch|] == batch;
      PushFacts(before, batch, clock);
      var revision := CurrentRevision(notes);
      if revision > startingRevision {
        SendReplace(revision);
      }
      response := PushResponse(revision);
    }

    /** The incremental feed: every row above `since`, once, in ascending revision order, with the current revision. */
    method ChangesSince(since: nat) returns (response: ChangesResponse)
      requires Keyed(notes)
      ensures response.revision == CurrentRevision(notes)
      ensures response.changes == Feed(notes, since)
      ensures HoldsRows(response.changes, notes, since)
      ensures RevisionsAllocated(notes) ==> AscendingRevisions(response.changes)
    {
      response := ChangesResponse(CurrentRevision(notes), Feed(notes, since));
      RowsAfterMembers(notes, since);
      RevisionLessTotal(notes, since);
      if RevisionsAllocated(notes) { FeedAscends(notes, since); }
    }

    /** A backup is a copy of both tables. */
    method BackupTo() returns (backup: Db)
      ensures backup == Contents()
    {
      backup := Db(notes, snapshots);
    }

    /** UPDATE of both tables; nothing to do for an offset of zero. */
    method RebaseAllRevisions(offset: nat)
      modifies this`notes, this`snapshots
      ensures Contents() == Shifted(old(Contents()), offset)
    {
      if offset == 0 {
        assert ShiftedRows(notes, 0) == notes && ShiftedSnapshots(snapshots, 0) == snapshots;
        return;
      }
      notes := ShiftedRows(notes, offset);
      snapshots := ShiftedSnapshots(snapshots, offset);
    }

    method EmitRestoreTombstones(previous: Table, restoreTime: Time, clock: Clock) returns (revision: nat)
      requires Keyed(previous)
      modifies this`notes, this`snapshots
      ensures var missing := MissingIds(previous, old(notes));
        Contents() == Tombstoned(old(Contents()), previous, missing, CurrentRevision(old(notes)), restoreTime, clock)
      ensures revision == CurrentRevision(notes)
    {
      hide CurrentRevision, MissingIds, Keyed, Tombstoned, Tombstone, Stored;
      var missing := MissingIds(previous, notes);
      ghost var before := Contents();
      var start := CurrentRevision(notes);
      NoTombstones(before, previous, start, restoreTime, clock);
      if missing == [] {
        return start;
      }
      var nextRevision := start;
      var i := 0;
      while i < |missing|
        invariant 0 <= i <= |missing| && nextRevision == start + i
        invariant Contents() == Tombstoned(before, previous, missing[..i], start, restoreTime, clock)
      {
        var previousNote := previous[missing[i]].note;
        var deletedAt := MaxTime(ChangeTime(previousNote), restoreTime);
        var tombstone := previousNote.(
          updatedAt := MaxTime(previousNote.updatedAt, deletedAt), deletedAt := Some(deletedAt));
        TombstonedSnoc(before, previous, missing[..i], missing[i], start, restoreTime, clock);
        assert missing[..i + 1] == missing[..i] + [missing[i]];
        IsTombstone(previousNote, deletedAt, restoreTime);
        nextRevision := nextRevision + 1;
        StoreChange(tombstone, nextRevision, clock(nextRevision));
        i := i + 1;
      }
      assert missing[..|missing|] == missing;
      revision := CurrentRevision(notes);
    }

    /**
     * Replace the tables by the backup, rebase, bury what the backup lacks, and announce
     * the revision. Restoring a valid backup leaves the store consistent; the revision
     * rises exactly when the backup has a note.
     */
    method RestoreFrom(backup: Db, restoreTime: Time, clock: Clock)
      requires Keyed(notes)
      modifies this
      ensures Contents() == Restored(old(Contents()), backup, restoreTime, clock)
      ensures published == CurrentRevision(notes) && version == old(version) + 1
      ensures Valid(backup) ==> Consistent()
      ensures Valid(backup) && old(Consistent()) ==> (published > old(published) <==> backup.notes != map[])
    {
      var previousRevision := CurrentRevision(notes);
      var previousNotes := notes;
      ghost var live := Contents();
      notes, snapshots := backup.notes, backup.snapshots;
      if CurrentRevision(notes) <= previousRevision {
        RebaseAllRevisions(previousRevision);
      }
      assert Contents() == Loaded(backup, previousRevision);
      var revision := EmitRestoreTombstones(previousNotes, restoreTime, clock);
      SendReplace(revision);
      if Valid(backup) {
        RestoredFacts(live, backup, restoreTime, clock);
        if Valid(live) { RestoreRaisesRevisionIff(live, backup, restoreTime, clock); }
      }
    }
  }
}
