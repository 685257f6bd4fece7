/** The store does what the state machine says: each method is one event, or an event and the send that follows it. */
module Refinement {
  import opened Protocol
  import opened Tables
  import opened SyncSpec
  import opened Merge
  import opened Recovery
  import opened Store
  import opened Runs

  /** A state with nothing pending whose tables and channel are those of the store. */
  ghost predicate Describes(s: System, store: SyncStore)
    reads store
  {
    s.db == store.Contents() && s.published == store.published && s.version == store.version && s.pending.None?
  }

  /** Opening a database is the start of a run, or a restart within one. */
  method Open(notes: Table, snapshots: seq<Snapshot>) returns (store: SyncStore)
    requires Openable(Db(notes, snapshots))
    ensures fresh(store) && store.Consistent()
    ensures Opened(OpenedOn(Db(notes, snapshots))) && Describes(OpenedOn(Db(notes, snapshots)), store)
  {
    hide CurrentRevision, Openable, Backfilled, Valid;
    store := new SyncStore.Open(notes, snapshots);
  }

  method Reopen(before: SyncStore, ghost s: System) returns (store: SyncStore)
    requires s.db == before.Contents()
    ensures fresh(store) && Describes(Step(s, Event.Reopen), store)
  {
    hide CurrentRevision, Uncovered, LiveSnapshots, Valid, Openable;
    store := new SyncStore.Open(before.notes, before.snapshots);
  }

  /** A push that accepts something is followed by its send; the client is told a revision handed out. */
  method Push(store: SyncStore, ghost s: System, request: PushRequest, clock: Clock)
    returns (response: PushResponse, ghost t: System)
    requires Describes(s, store) && store.Consistent()
    modifies store
    ensures Describes(t, store) && store.Consistent() && response.revision in t.handedOut
    ensures var pushed := Step(s, Event.Push(request, clock));
      t == if CurrentRevision(pushed.db.notes) > CurrentRevision(s.db.notes) then Step(pushed, Publish) else pushed
  {
    hide CurrentRevision, PushAll, Accepted, LastWriterWon, Extends, Valid;
    response := store.Push(request, clock);
    ghost var pushed := Step(s, Event.Push(request, clock));
    t := if CurrentRevision(pushed.db.notes) > CurrentRevision(s.db.notes) then Step(pushed, Publish) else pushed;
  }

  method Restore(store: SyncStore, ghost s: System, backup: Db, restoreTime: Time, clock: Clock)
    requires Describes(s, store) && store.Consistent() && Valid(backup)
    modifies store
    ensures store.Consistent()
    ensures Describes(Step(Step(s, Event.Restore(backup, restoreTime, clock)), Publish), store)
  {
    hide CurrentRevision, Restored, Valid, Lifts;
    ValidIsKeyed(store.Contents());
    store.RestoreFrom(backup, restoreTime, clock);
  }

  method Backup(store: SyncStore, ghost s: System) returns (backup: Db)
    requires Describes(s, store)
    ensures Describes(Step(s, Event.Backup), store) && backup in Step(s, Event.Backup).backups
  {
    backup := store.BackupTo();
  }

  /** A client's pull is a request for the changes since its cursor, applied in order. */
  method Pull(store: SyncStore, ghost s: System, ghost i: nat, cursor: nat) returns (response: ChangesResponse)
    requires Describes(s, store) && Keyed(store.notes) && i < |s.clients| && s.clients[i].cursor == cursor
    ensures Describes(Step(s, Event.Pull(i)), store)
    ensures Step(s, Event.Pull(i)).clients[i]
            == Client(Applied(s.clients[i].mirror, response.changes), response.revision)
    ensures response.revision in Step(s, Event.Pull(i)).handedOut
  {
    hide CurrentRevision, Feed, HoldsRows, AscendingRevisions;
    response := store.ChangesSince(cursor);
  }
}
