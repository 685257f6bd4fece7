/**
 * The running server and its surroundings: any number of clients pulling, requests
 * waiting, backups being taken and restored, and the process restarting.
 */
module Runs {
  import opened Protocol
  import opened Tables
  import opened SyncSpec
  import opened Merge
  import opened Recovery

  /** A client that only pulls: its copy of the notes, and the revision it last saw. */
  datatype Client = Client(mirror: map<string, SyncChange>, cursor: nat)

  /**
   * A long poll for anything after `since`; `known` tells whether this server had handed
   * that number out when the request arrived.
   */
  datatype Waiter = Waiter(since: nat, known: bool, stage: Stage)

  /**
   * Where it is: arrived; blocked on the channel, having seen a version and the revision
   * it held; released one way or the other; answered. `late` tells whether something was
   * sent after the wait had expired and before the answer was written.
   */
  datatype Stage =
    | Arrived
    | Waiting(seen: nat, held: nat)
    | Woken(held: nat)
    | Expired(seen: nat, held: nat)
    | Answered(held: nat, response: WaitResponse, late: bool)

  /**
   * `pending` is a revision committed under the database lock but not yet sent: until it
   * is, no other operation has the lock, while waiters may read the channel. `handedOut`
   * are the revisions any client has been told. The counters tell the revision at the
   * start, the accepted changes, the restores, and of these how many were of a backup
   * without notes, how many did not lift every row, how many were of a backup this server
   * had not taken, and how many loaded a backup as it was.
   */
  datatype System = System(
    db: Db, published: nat, version: nat, pending: Option<nat>,
    backups: set<Db>, clients: seq<Client>, waiters: seq<Waiter>, handedOut: set<nat>,
    base: nat, accepted: nat, restores: nat, emptied: nat, unlifted: nat, foreign: nat, unbased: nat)

  datatype Event =
    | Push(request: PushRequest, clock: Clock)
    | Restore(backup: Db, restoreTime: Time, clock: Clock)
    | Publish
    | Backup
    | Health
    | Reopen
    | Join
    | Pull(client: nat)
    | Arrive(since: nat)
    | Look(waiter: nat)
    | Wake(waiter: nat)
    | Expire(waiter: nat)
    | Answer(waiter: nat)

  function Applied(mirror: map<string, SyncChange>, changes: seq<RevisionedChange>): map<string, SyncChange> {
    if changes == [] then mirror else
      var n := |changes| - 1;
      Applied(mirror, changes[..n])[changes[n].note.id := changes[n].note]
  }

  /** One pull: apply the feed above the cursor, and adopt the revision it came with. */
  function Pulled(client: Client, notes: Table): Client
    requires Keyed(notes)
  {
    Client(Applied(client.mirror, Feed(notes, client.cursor)), CurrentRevision(notes))
  }

  /** The server after opening a database that opens into a valid one. */
  ghost predicate Opened(s: System) {
    exists db :: Openable(db) && s == OpenedOn(db)
  }

  ghost function OpenedOn(db: Db): System {
    var revision := CurrentRevision(db.notes);
    System(Backfilled(db), revision, 0, None, {}, [], [], {0}, revision, 0, 0, 0, 0, 0, 0)
  }

  /** A restore that leaves no client behind: of a backup with notes, all of which end above the live revision. */
  ghost predicate Lifts(live: Db, backup: Db) {
    backup.notes != map[] && LiftsEveryRow(live.notes, backup.notes)
  }

  /** Which events can happen. Any valid database can be restored, whoever took it. */
  ghost predicate Enabled(s: System, e: Event) {
    match e
    case Push(_, _) => s.pending.None?
    case Restore(backup, _, _) => s.pending.None? && Valid(backup)
    case Publish => s.pending.Some?
    case Backup => s.pending.None?
    case Health => s.pending.None?
    case Reopen => true
    case Join => true
    case Pull(i) => s.pending.None? && i < |s.clients| && Keyed(s.db.notes)
    case Arrive(_) => true
    case Look(i) => i < |s.waiters| && s.waiters[i].stage.Arrived?
    case Wake(i) => i < |s.waiters| && s.waiters[i].stage.Waiting? && s.waiters[i].stage.seen != s.version
    case Expire(i) => i < |s.waiters| && s.waiters[i].stage.Waiting? && s.waiters[i].stage.seen == s.version
    case Answer(i) => i < |s.waiters| && (s.waiters[i].stage.Woken? || s.waiters[i].stage.Expired?)
  }

  /** A commit that raised the revision leaves it pending; one that did not answers at once. */
  ghost function Committed(s: System, db: Db): System {
    var revision := CurrentRevision(db.notes);
    if revision > CurrentRevision(s.db.notes) then s.(db := db, pending := Some(revision))
    else s.(db := db, handedOut := s.handedOut + {revision})
  }

  ghost function Step(s: System, e: Event): System
    requires Enabled(s, e)
  {
    match e
    case Push(request, clock) =>
      Committed(s, PushAll(s.db, Filled(request), clock))
        .(accepted := s.accepted + |Accepted(s.db, Filled(request), clock)|)
    case Restore(backup, restoreTime, clock) =>
      var db := Restored(s.db, backup, restoreTime, clock);
      s.(db := db, pending := Some(CurrentRevision(db.notes)), restores := s.restores + 1,
         emptied := s.emptied + if backup.notes == map[] then 1 else 0,
         unlifted := s.unlifted + if Lifts(s.db, backup) then 0 else 1,
         foreign := s.foreign + if backup in s.backups then 0 else 1,
         unbased := s.unbased + if CurrentRevision(backup.notes) <= CurrentRevision(s.db.notes) then 0 else 1)
    case Publish =>
      var revision := s.pending.value;
      s.(published := revision, version := s.version + 1, pending := None, handedOut := s.handedOut + {revision})
    case Backup => s.(backups := s.backups + {s.db})
    case Health => s.(handedOut := s.handedOut + {CurrentRevision(s.db.notes)})
    case Reopen =>
      var db := Backfilled(s.db);
      s.(db := db, published := CurrentRevision(db.notes), version := 0, pending := None, waiters := [])
    case Join => s.(clients := s.clients + [Client(map[], 0)])
    case Pull(i) =>
      var client := Pulled(s.clients[i], s.db.notes);
      s.(clients := s.clients[i := client], handedOut := s.handedOut + {client.cursor})
    case Arrive(since) => s.(waiters := s.waiters + [Waiter(since, since in s.handedOut, Arrived)])
    case Look(i) =>
      if s.published > s.waiters[i].since then Answering(s, i, s.published, true, false)
      else Staged(s, i, Waiting(s.version, s.published))
    case Wake(i) => Staged(s, i, Woken(s.waiters[i].stage.held))
    case Expire(i) => Staged(s, i, Expired(s.waiters[i].stage.seen, s.waiters[i].stage.held))
    case Answer(i) =>
      var stage := s.waiters[i].stage;
      Answering(s, i, stage.held, stage.Woken?, stage.Expired? && stage.seen != s.version)
  }

  ghost function Staged(s: System, i: nat, stage: Stage): System
    requires i < |s.waiters|
  {
    s.(waiters := s.waiters[i := s.waiters[i].(stage := stage)])
  }

  /** An answer carries whatever the channel holds when it is written. */
  ghost function Answering(s: System, i: nat, held: nat, changed: bool, late: bool): System
    requires i < |s.waiters|
  {
    Staged(s, i, Answered(held, WaitResponse(s.published, changed), late)).(handedOut := s.handedOut + {s.published})
  }

  /** The state after a sequence of events, if each was possible. */
  ghost function Run(s: System, events: seq<Event>): Option<System> {
    if events == [] then Some(s) else
      var n := |events| - 1;
      match Run(s, events[..n])
      case None => None
      case Some(t) => if Enabled(t, events[n]) then Some(Step(t, events[n])) else None
  }

  // ----- the invariant

  function Pow2(k: nat): nat {
    if k == 0 then 1 else 2 * Pow2(k - 1)
  }

  /**
   * The channel holds the stored revision, except between a commit and its send, when it
   * holds less if no backup without notes was restored.
   */
  ghost predicate ChannelOk(s: System) {
    var revision := CurrentRevision(s.db.notes);
    match s.pending
    case None => s.published == revision
    case Some(r) => r == revision && (s.emptied == 0 ==> s.published < revision)
  }

  /** A backup is valid, and the server has since moved on by at least as many revisions as ids. */
  ghost predicate BackupOk(db: Db, backup: Db) {
    && Valid(backup)
    && backup.notes.Keys <= db.notes.Keys
    && CurrentRevision(backup.notes) <= CurrentRevision(db.notes)
    && |db.notes.Keys| - |backup.notes.Keys| <= CurrentRevision(db.notes) - CurrentRevision(backup.notes)
  }

  /** A client knows no other ids than the server, and has every row up to its cursor. */
  ghost predicate ClientOk(db: Db, client: Client) {
    && client.mirror.Keys <= db.notes.Keys
    && client.cursor <= CurrentRevision(db.notes)
    && forall id | id in db.notes && db.notes[id].revision <= client.cursor ::
         id in client.mirror && client.mirror[id] == db.notes[id].note
  }

  /**
   * In whatever run, a waiter has looked at a time when the channel held no more than it
   * asked about, and until a send holds the same.
   */
  ghost predicate BlockedOk(published: nat, version: nat, w: Waiter) {
    match w.stage
    case Arrived => true
    case Waiting(seen, held) => held <= w.since && seen <= version && (seen == version ==> published == held)
    case Woken(held) => held <= w.since
    case Expired(seen, held) => held <= w.since && seen <= version && (seen == version ==> published == held)
    case Answered(held, response, late) =>
      && (late ==> !response.changed)
      && (!response.changed && !late ==> response.revision == held)
      && (if held > w.since then response == WaitResponse(held, true) else true)
  }

  /**
   * As long as sends raise the channel, a waiter is released only when it holds more than
   * before. A number handed out is never ahead of the channel.
   */
  ghost predicate WaiterOk(published: nat, version: nat, w: Waiter) {
    && (w.known ==> w.since <= published)
    && match w.stage
       case Arrived => true
       case Waiting(seen, held) =>
         held <= w.since && (seen != version ==> held < published) && held <= published && (w.known ==> w.since <= held)
       case Woken(held) => held <= w.since && held < published && (w.known ==> w.since <= held)
       case Expired(seen, held) =>
         held <= w.since && (seen != version ==> held < published) && held <= published && (w.known ==> w.since <= held)
       case Answered(held, response, late) =>
         && held <= response.revision <= published
         && (response.changed ==> held > w.since || response.revision > held)
         && (late ==> held < response.revision)
         && (w.known ==> w.since <= held)
  }

  /** What holds of every run. */
  ghost predicate BlockedAllOk(s: System) {
    forall w | w in s.waiters :: BlockedOk(s.published, s.version, w)
  }

  /** What holds as long as no backup without notes is restored. */
  ghost predicate AnnouncedOk(s: System) {
    && (forall w | w in s.waiters :: WaiterOk(s.published, s.version, w))
    && (forall r | r in s.handedOut :: r <= s.published)
  }

  /** What holds as long as every restore lifts every row. */
  ghost predicate SyncedOk(s: System) {
    && (forall b | b in s.backups :: BackupOk(s.db, b))
    && (forall c | c in s.clients :: ClientOk(s.db, c))
    && GrowthOk(s)
  }

  ghost predicate Inv(s: System) {
    && Valid(s.db) && ChannelOk(s) && BlockedAllOk(s) && s.emptied <= s.unlifted
    && (s.emptied == 0 ==> AnnouncedOk(s))
    && (s.unlifted == 0 ==> SyncedOk(s))
  }

  /** Accepted changes add to the revision, and a restore of an own backup at most doubles it. */
  ghost predicate GrowthOk(s: System) {
    s.foreign == 0 ==> Within(CurrentRevision(s.db.notes), s.base + s.accepted, s.restores)
  }

  ghost predicate Within(revision: nat, total: nat, k: nat) {
    revision <= total * Pow2(k)
  }

  // ----- every event keeps it

  lemma OpenedInv(s: System)
    requires Opened(s)
    ensures Inv(s)
  {
    var db :| Openable(db) && s == OpenedOn(db);
    OpensValidIff(db);
    BackfillCovers(db);
    assert Pow2(0) == 1;
  }

  /** What an event does to the database: it stays valid, is extended, and grows in ids by no more than in revisions. */
  ghost predicate DbStep(before: Db, after: Db) {
    && Valid(after) && Extends(before, after)
    && |after.notes.Keys| - |before.notes.Keys| <= CurrentRevision(after.notes) - CurrentRevision(before.notes)
  }

  lemma SameDbStep(db: Db)
    requires Valid(db)
    ensures DbStep(db, db)
  {}

  lemma PushDbStep(db: Db, changes: seq<SyncChange>, clock: Clock)
    requires Valid(db)
    ensures DbStep(db, PushAll(db, changes, clock))
  {
    PushKeeps(db, changes, clock);
    PushGrowth(db, changes, clock);
  }

  lemma RestoreDbStep(db: Db, backup: Db, restoreTime: Time, clock: Clock)
    requires Valid(db) && Valid(backup) && Lifts(db, backup)
    ensures DbStep(db, Restored(db, backup, restoreTime, clock))
  {
    hide CurrentRevision, Valid, Restored, TombstonesAdded, LiftsEveryRow;
    ValidIsKeyed(db);
    RestoredIsValid(db, backup, restoreTime, clock);
    RestoreExtends(db, backup, restoreTime, clock);
    RestoreGrowth(db, backup, restoreTime, clock);
  }

  /** A backup the server took always lifts every row, if it has any: the restore rebases it. */
  lemma OwnBackupLifts(db: Db, backup: Db)
    requires BackupOk(db, backup) && backup.notes != map[]
    ensures Lifts(db, backup) && CurrentRevision(backup.notes) <= CurrentRevision(db.notes)
  {}

  lemma StepValid(s: System, e: Event)
    requires Inv(s) && Enabled(s, e)
    ensures Valid(Step(s, e).db)
  {
    hide CurrentRevision, Valid, PushAll, Restored, Uncovered, LiveSnapshots, Feed, LiftsEveryRow;
    match e
    case Push(request, clock) => PushKeeps(s.db, Filled(request), clock);
    case Restore(backup, restoreTime, clock) =>
      ValidIsKeyed(s.db);
      RestoredIsValid(s.db, backup, restoreTime, clock);
    case Reopen => BackfillOfValid(s.db);
    case _ =>
  }

  /** Unless it is a restore that does not lift every row, an event extends the database. */
  lemma StepDb(s: System, e: Event)
    requires Inv(s) && Enabled(s, e) && Step(s, e).unlifted == s.unlifted
    ensures DbStep(s.db, Step(s, e).db)
  {
    hide CurrentRevision, Valid, PushAll, Restored, Uncovered, LiveSnapshots, Feed, LiftsEveryRow, DbStep;
    match e
    case Push(request, clock) => PushDbStep(s.db, Filled(request), clock);
    case Restore(backup, restoreTime, clock) => RestoreDbStep(s.db, backup, restoreTime, clock);
    case Reopen => BackfillOfValid(s.db); SameDbStep(s.db);
    case _ => SameDbStep(s.db);
  }

  /** If, besides, it is no restore that loads a backup as it was, it leaves the earlier history alone. */
  lemma StepHistory(s: System, e: Event)
    requires Inv(s) && Enabled(s, e) && Step(s, e).unlifted == s.unlifted && Step(s, e).unbased == s.unbased
    ensures HistoryExtends(s.db, Step(s, e).db)
  {
    hide CurrentRevision, Valid, PushAll, Restored, Uncovered, LiveSnapshots, Feed, LiftsEveryRow;
    match e
    case Push(request, clock) => PushHistory(s.db, Filled(request), clock);
    case Restore(backup, restoreTime, clock) =>
      ValidIsKeyed(s.db);
      RestoreHistoryIff(s.db, backup, restoreTime, clock);
    case Reopen => BackfillOfValid(s.db);
    case _ =>
  }

  lemma StepChannel(s: System, e: Event)
    requires Inv(s) && Enabled(s, e)
    ensures ChannelOk(Step(s, e))
  {
    hide CurrentRevision, Valid, PushAll, Restored, Uncovered, LiveSnapshots, Feed, LiftsEveryRow, SyncedOk;
    match e
    case Push(request, clock) =>
      PushKeeps(s.db, Filled(request), clock);
    case Restore(backup, restoreTime, clock) =>
      RestoreRaisesRevisionIff(s.db, backup, restoreTime, clock);
    case Reopen =>
    case _ =>
  }

  lemma BackupSurvives(before: Db, after: Db, backup: Db)
    requires BackupOk(before, backup) && DbStep(before, after)
    ensures BackupOk(after, backup)
  {}

  /** Whatever extends the server's database leaves every client's knowledge good. */
  lemma ClientSurvives(before: Db, after: Db, client: Client)
    requires ClientOk(before, client) && Extends(before, after)
    ensures ClientOk(after, client)
  {}

  /** The events of a run all of whose restores lift every row. */
  ghost predicate Lifting(s: System, e: Event) {
    Inv(s) && Enabled(s, e) && Step(s, e).unlifted == 0
  }

  lemma LiftingSoFar(s: System, e: Event)
    requires Lifting(s, e)
    ensures s.unlifted == 0 && SyncedOk(s) && Step(s, e).unlifted == s.unlifted
  {
    hide CurrentRevision, Valid, PushAll, Restored, Backfilled, Feed, Lifts, SyncedOk, ChannelOk, AnnouncedOk;
  }

  lemma StepBackups(s: System, e: Event)
    requires Lifting(s, e)
    ensures forall b | b in Step(s, e).backups :: BackupOk(Step(s, e).db, b)
  {
    hide CurrentRevision, Valid, PushAll, Restored, Backfilled, Feed, Lifts, ClientOk, GrowthOk, AnnouncedOk;
    LiftingSoFar(s, e);
    StepDb(s, e);
    forall b | b in Step(s, e).backups ensures BackupOk(Step(s, e).db, b) {
      if b in s.backups { BackupSurvives(s.db, Step(s, e).db, b); }
    }
  }

  lemma {:induction false} AppliedFeed(mirror: map<string, SyncChange>, q: seq<RevisionedChange>, notes: Table)
    requires forall x | x in q :: IsRow(notes, x)
    ensures var after := Applied(mirror, q);
      && (forall x | x in q :: x.note.id in after)
      && (forall id | id in after :: id in mirror || id in notes)
      && (forall id | id in after ::
           (id in notes && after[id] == notes[id].note) || (id in mirror && after[id] == mirror[id]))
      && (forall id | id in mirror :: id in after)
      && (forall x | x in q :: after[x.note.id] == x.note)
  {
    if q != [] {
      var n := |q| - 1;
      assert q == q[..n] + [q[n]] && q[n] in q;
      AppliedFeed(mirror, q[..n], notes);
    }
  }

  /** A pull leaves a client with exactly the server's notes, and at its revision. */
  lemma PullCatchesUp(db: Db, client: Client)
    requires Valid(db) && ClientOk(db, client)
    ensures Pulled(client, db.notes) == Client(Values(db.notes), CurrentRevision(db.notes))
    ensures ClientOk(db, Pulled(client, db.notes))
  {
    hide Feed, CurrentRevision, AscendingRevisions, SnapshotsBounded, SnapshotsDistinct, HistoryCovers;
    var q := Feed(db.notes, client.cursor);
    FeedAscends(db.notes, client.cursor);
    AtMostCurrent(db.notes);
    var after := Applied(client.mirror, q);
    AppliedFeed(client.mirror, q, db.notes);
    forall id | id in db.notes ensures id in after && after[id] == db.notes[id].note {
      var x := RevisionedChange(db.notes[id].revision, db.notes[id].note);
      if db.notes[id].revision > client.cursor {
        assert IsRow(db.notes, x) && x in q;
      }
    }
    assert after.Keys == db.notes.Keys;
    assert after == Values(db.notes);
  }

  /** No row at or below the cursor is unknown to the client, and it knows no other ids. */
  ghost predicate Knows(notes: Table, client: Client) {
    && client.mirror.Keys <= notes.Keys
    && forall id | id in notes && notes[id].revision <= client.cursor ::
         id in client.mirror && client.mirror[id] == notes[id].note
  }

  lemma {:induction false} AppliedElsewhere(mirror: map<string, SyncChange>, q: seq<RevisionedChange>, id: string)
    requires forall x | x in q :: x.note.id != id
    ensures var after := Applied(mirror, q);
      (id in after <==> id in mirror) && (id in after ==> after[id] == mirror[id])
  {
    if q != [] {
      var n := |q| - 1;
      assert q == q[..n] + [q[n]] && q[n] in q;
      AppliedElsewhere(mirror, q[..n], id);
    }
  }

  /** A pull copies the server exactly for the clients that know every row up to their cursor. */
  lemma PullCopiesIff(db: Db, client: Client)
    requires Valid(db)
    ensures Pulled(client, db.notes).mirror == Values(db.notes) <==> Knows(db.notes, client)
  {
    hide Feed, CurrentRevision, AscendingRevisions, RevisionsAllocated, SnapshotsBounded, SnapshotsDistinct,
        HistoryCovers;
    var q := Feed(db.notes, client.cursor);
    FeedAscends(db.notes, client.cursor);
    var after := Applied(client.mirror, q);
    AppliedFeed(client.mirror, q, db.notes);
    forall id | id in db.notes && db.notes[id].revision <= client.cursor
      ensures (id in after <==> id in client.mirror) && (id in after ==> after[id] == client.mirror[id])
    {
      AppliedElsewhere(client.mirror, q, id);
    }
    forall id | id in db.notes && db.notes[id].revision > client.cursor
      ensures id in after && after[id] == db.notes[id].note
    {
      var x := RevisionedChange(db.notes[id].revision, db.notes[id].note);
      assert IsRow(db.notes, x) && x in q;
    }
    if Knows(db.notes, client) {
      assert after.Keys == db.notes.Keys;
      assert after == Values(db.notes);
    }
  }

  lemma FreshClientOk(db: Db)
    requires Valid(db)
    ensures ClientOk(db, Client(map[], 0))
  {}

  lemma StepClients(s: System, e: Event)
    requires Lifting(s, e)
    ensures forall c | c in Step(s, e).clients :: ClientOk(Step(s, e).db, c)
  {
    hide CurrentRevision, Valid, PushAll, Restored, Backfilled, Feed, Lifts, BackupOk, GrowthOk, AnnouncedOk;
    hide BlockedAllOk;
    LiftingSoFar(s, e);
    StepDb(s, e);
    var t := Step(s, e);
    forall c | c in t.clients ensures ClientOk(t.db, c) {
      if c in s.clients {
        ClientSurvives(s.db, t.db, c);
      } else if e.Pull? {
        assert s.clients[e.client] in s.clients;
        PullCatchesUp(s.db, s.clients[e.client]);
      } else {
        assert c == Client(map[], 0);
        FreshClientOk(t.db);
      }
    }
  }

  /** The events of a run that restores no backup without notes. */
  ghost predicate Announcing(s: System, e: Event) {
    Inv(s) && Enabled(s, e) && Step(s, e).emptied == 0
  }

  lemma AnnouncingSoFar(s: System, e: Event)
    requires Announcing(s, e)
    ensures s.emptied == 0 && AnnouncedOk(s) && (e.Restore? ==> e.backup.notes != map[])
  {
    hide CurrentRevision, Valid, PushAll, Restored, Backfilled, Feed, Lifts, SyncedOk, ChannelOk, AnnouncedOk;
  }

  /** The channel never goes back, and a send always raises it. */
  lemma StepPublishes(s: System, e: Event)
    requires Announcing(s, e)
    ensures var t := Step(s, e);
      && s.published <= t.published
      && (if e.Publish? then s.published < t.published && t.version == s.version + 1
          else e.Reopen? || (t.published == s.published && t.version == s.version))
  {
    hide CurrentRevision, Valid, PushAll, Restored, Uncovered, LiveSnapshots, Feed, Lifts, SyncedOk, AnnouncedOk;
    hide BlockedAllOk;
    AnnouncingSoFar(s, e);
    if e.Reopen? { BackfillOfValid(s.db); }
  }

  /** In every run: a look sees what is published, and only a send, with a new version, changes that. */
  lemma StepBlocked(s: System, e: Event)
    requires Inv(s) && Enabled(s, e)
    ensures BlockedAllOk(Step(s, e))
  {
    hide Valid, CurrentRevision, ChannelOk, SyncedOk, AnnouncedOk, PushAll, Restored, Backfilled, Lifts, Feed;
    var t := Step(s, e);
    forall w | w in t.waiters ensures BlockedOk(t.published, t.version, w) {
      if w !in s.waiters && !e.Arrive? {
        assert s.waiters[e.waiter] in s.waiters;
        assert w == t.waiters[e.waiter];
      }
    }
  }

  lemma WaiterSurvives(published: nat, version: nat, w: Waiter, later: nat, laterVersion: nat)
    requires WaiterOk(published, version, w)
    requires (later == published && laterVersion == version) || (later > published && laterVersion == version + 1)
    ensures WaiterOk(later, laterVersion, w)
  {}

  lemma StepWaiters(s: System, e: Event)
    requires Announcing(s, e)
    ensures var t := Step(s, e); forall w | w in t.waiters :: WaiterOk(t.published, t.version, w)
  {
    hide Valid, CurrentRevision, ChannelOk, SyncedOk, PushAll, Restored, Backfilled, Lifts;
    var t := Step(s, e);
    AnnouncingSoFar(s, e);
    StepPublishes(s, e);
    forall w | w in t.waiters ensures WaiterOk(t.published, t.version, w) {
      if w in s.waiters {
        WaiterSurvives(s.published, s.version, w, t.published, t.version);
      } else if e.Arrive? {
        assert w == Waiter(e.since, e.since in s.handedOut, Arrived);
      } else {
        assert s.waiters[e.waiter] in s.waiters;
        assert w == t.waiters[e.waiter];
      }
    }
  }

  lemma StepHandedOut(s: System, e: Event)
    requires Announcing(s, e)
    ensures forall r | r in Step(s, e).handedOut :: r <= Step(s, e).published
  {
    hide Valid, CurrentRevision, SyncedOk, BlockedAllOk, WaiterOk, PushAll, Restored, Backfilled, Lifts, Feed;
    AnnouncingSoFar(s, e);
    StepPublishes(s, e);
    if e.Push? { PushKeeps(s.db, Filled(e.request), e.clock); }
  }

  /** A restore that lifts every row is of a backup with notes. */
  lemma StepCounts(s: System, e: Event)
    requires Inv(s) && Enabled(s, e)
    ensures Step(s, e).emptied <= Step(s, e).unlifted
  {
    hide CurrentRevision, Valid, PushAll, Restored, Backfilled, Feed, LiftsEveryRow, SyncedOk, AnnouncedOk, ChannelOk;
  }

  lemma GrowthPush(total: nat, more: nat, k: nat)
    ensures total * Pow2(k) + more <= (total + more) * Pow2(k)
  {
    PowPositive(k);
    assert (total + more) * Pow2(k) == total * Pow2(k) + more * Pow2(k);
    assert more <= more * Pow2(k);
  }

  lemma GrowthRestore(revision: nat, after: nat, total: nat, k: nat)
    requires Within(revision, total, k) && after <= 2 * revision
    ensures Within(after, total, k + 1)
  {
    assert total * (2 * Pow2(k)) == 2 * (total * Pow2(k));
  }

  lemma {:induction false} PowPositive(k: nat)
    ensures Pow2(k) >= 1
  {
    if k > 0 { PowPositive(k - 1); }
  }

  lemma PushGrows(db: Db, changes: seq<SyncChange>, clock: Clock, total: nat, k: nat)
    requires Within(CurrentRevision(db.notes), total, k)
    ensures Within(CurrentRevision(PushAll(db, changes, clock).notes), total + |Accepted(db, changes, clock)|, k)
  {
    PushAllocates(db, changes, clock);
    hide CurrentRevision, PushAll, Accepted, Upserted, Captured;
    GrowthPush(total, |Accepted(db, changes, clock)|, k);
  }

  lemma RestoreGrows(db: Db, backup: Db, restoreTime: Time, clock: Clock, total: nat, k: nat)
    requires Within(CurrentRevision(db.notes), total, k)
    requires Valid(db) && BackupOk(db, backup) && backup.notes != map[]
    ensures Within(CurrentRevision(Restored(db, backup, restoreTime, clock).notes), total, k + 1)
  {
    ValidIsKeyed(db);
    RestoreAtMostDoubles(db, backup, restoreTime, clock);
    GrowthRestore(CurrentRevision(db.notes), CurrentRevision(Restored(db, backup, restoreTime, clock).notes), total, k);
  }

  lemma SameGrowth(s: System, t: System)
    requires GrowthOk(s)
    requires t.db.notes == s.db.notes && t.base == s.base && t.accepted == s.accepted && t.restores == s.restores
        && t.foreign == s.foreign
    ensures GrowthOk(t)
  {}

  lemma StepGrowth(s: System, e: Event)
    requires Lifting(s, e)
    ensures GrowthOk(Step(s, e))
  {
    hide CurrentRevision, Within, Uncovered, LiveSnapshots, Valid, PushAll, Accepted, Restored, Feed;
    hide ClientOk, BackupOk, AnnouncedOk, BlockedAllOk, Lifts;
    LiftingSoFar(s, e);
    match e
    case Push(request, clock) =>
      if s.foreign == 0 { PushGrows(s.db, Filled(request), clock, s.base + s.accepted, s.restores); }
    case Restore(backup, restoreTime, clock) =>
      if s.foreign == 0 && backup in s.backups {
        LiftsHasNotes(s.db, backup);
        RestoreGrows(s.db, backup, restoreTime, clock, s.base + s.accepted, s.restores);
      }
    case _ =>
      SameGrowth(s, Step(s, e));
  }

  lemma LiftsHasNotes(live: Db, backup: Db)
    requires Lifts(live, backup)
    ensures backup.notes != map[]
  {}

  lemma StepInv(s: System, e: Event)
    requires Inv(s) && Enabled(s, e)
    ensures Inv(Step(s, e))
  {
    hide Valid, CurrentRevision, ChannelOk, ClientOk, BackupOk, GrowthOk, WaiterOk, BlockedAllOk, Step, Enabled;
    StepValid(s, e);
    StepChannel(s, e);
    StepBlocked(s, e);
    StepCounts(s, e);
    if Step(s, e).emptied == 0 {
      StepWaiters(s, e);
      StepHandedOut(s, e);
    }
    if Step(s, e).unlifted == 0 {
      StepBackups(s, e);
      StepClients(s, e);
      StepGrowth(s, e);
    }
  }

  lemma CountersRise(s: System, e: Event)
    requires Enabled(s, e)
    ensures var t := Step(s, e);
      && s.emptied <= t.emptied && s.unlifted <= t.unlifted && s.foreign <= t.foreign && s.unbased <= t.unbased
  {
    hide Valid, CurrentRevision, PushAll, Restored, Backfilled, Lifts, Feed;
  }

  /**
   * The invariant holds all along every run. Between two states without a restore in
   * between that fails to lift every row, the later database extends the earlier one;
   * and its history does, if no backup in between was loaded as it was.
   */
  lemma {:induction false} RunInv(s: System, events: seq<Event>, t: System)
    requires Inv(s) && Run(s, events) == Some(t)
    ensures Inv(t) && s.emptied <= t.emptied && s.unlifted <= t.unlifted && s.unbased <= t.unbased
    ensures t.unlifted == s.unlifted ==> Extends(s.db, t.db)
    ensures t.unlifted == s.unlifted && t.unbased == s.unbased ==> HistoryExtends(s.db, t.db)
  {
    if events == [] {
      SameExtends(s.db);
    } else {
      hide Inv, Step, Enabled, Extends, HistoryExtends, CurrentRevision;
      var n := |events| - 1;
      var m := Run(s, events[..n]).value;
      RunInv(s, events[..n], m);
      StepInv(m, events[n]);
      CountersRise(m, events[n]);
      if t.unlifted == s.unlifted {
        StepDb(m, events[n]);
        ExtendsTransitive(s.db, m.db, t.db);
        if t.unbased == s.unbased {
          StepHistory(m, events[n]);
          ExtendsRises(s.db, m.db);
          HistoryExtendsTransitive(s.db, m.db, t.db);
        }
      }
    }
  }

  lemma SameExtends(db: Db)
    ensures Extends(db, db) && HistoryExtends(db, db)
  {}

  lemma ExtendsRises(a: Db, b: Db)
    requires Extends(a, b)
    ensures CurrentRevision(a.notes) <= CurrentRevision(b.notes)
  {}
}
