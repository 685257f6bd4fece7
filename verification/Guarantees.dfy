/** What every run of the server gives its clients, and the cases it does not cover. */
module Guarantees {
  import opened Protocol
  import opened Tables
  import opened SyncSpec
  import opened Merge
  import opened Recovery
  import opened Runs

  // ----- own backups

  lemma OwnRestoreLifts(s: System, e: Event)
    requires Inv(s) && s.unlifted == 0 && Enabled(s, e)
    requires e.Restore? ==> e.backup in s.backups && e.backup.notes != map[]
    ensures Step(s, e).unlifted == 0 && Step(s, e).unbased == s.unbased
  {
    hide CurrentRevision, Valid, PushAll, Restored, Backfilled, Feed, Lifts, ClientOk, BackupOk, WaiterOk, BlockedOk,
        GrowthOk;
    if e.Restore? {
      OwnBackupLifts(s.db, e.backup);
    }
  }

  /**
   * A run that restores only backups the server took, and none without notes, lifts every
   * row and rebases at every restore.
   */
  lemma {:induction false} OwnRestoresLift(start: System, events: seq<Event>, s: System)
    requires Opened(start) && Run(start, events) == Some(s) && s.foreign == 0
    requires forall e: Event | e in events && e.Restore? :: e.backup.notes != map[]
    ensures s.unlifted == 0 && s.unbased == 0
  {
    hide Inv, Enabled, Opened;
    OpenedInv(start);
    if events == [] {
      OpenedCounts(start);
    } else {
      var n := |events| - 1;
      var m := Run(start, events[..n]).value;
      RunInv(start, events[..n], m);
      CountersRise(m, events[n]);
      OwnRestoresLift(start, events[..n], m);
      assert events[n] in events;
      NotForeign(m, events[n]);
      OwnRestoreLifts(m, events[n]);
    }
  }

  /** A run starts at the stored revision, with everything counted from nothing. */
  lemma OpenedCounts(s: System)
    requires Opened(s)
    ensures s.base == CurrentRevision(s.db.notes) == s.published && s.pending.None?
    ensures s.accepted == 0 && s.restores == 0
    ensures s.emptied == 0 && s.unlifted == 0 && s.foreign == 0 && s.unbased == 0
    ensures s.backups == {} && s.clients == [] && s.waiters == [] && s.handedOut == {0}
  {
    hide CurrentRevision, Openable, Uncovered, LiveSnapshots;
  }

  /**
   * What the counters count. Pushes count by how much they raise the revision. A restore
   * lifts every row when its backup has notes and every row it leaves lies above the
   * earlier revision.
   */
  lemma StepCountsRight(s: System, e: Event)
    requires Valid(s.db) && Enabled(s, e)
    ensures var t := Step(s, e); var R := CurrentRevision(s.db.notes);
      && t.base == s.base
      && t.accepted - s.accepted == (if e.Push? then CurrentRevision(t.db.notes) - R else 0)
      && (!e.Restore? ==> t.restores == s.restores && t.emptied == s.emptied && t.unlifted == s.unlifted
                          && t.foreign == s.foreign && t.unbased == s.unbased)
      && (e.Restore? ==>
            && t.restores == s.restores + 1
            && t.emptied == s.emptied + (if e.backup.notes == map[] then 1 else 0)
            && t.unlifted == s.unlifted + (if e.backup.notes != map[] && AllAbove(t.db.notes, R) then 0 else 1)
            && t.foreign == s.foreign + (if e.backup in s.backups then 0 else 1)
            && t.unbased == s.unbased + (if CurrentRevision(e.backup.notes) <= R then 0 else 1))
  {
    hide CurrentRevision, Valid, PushAll, Accepted, Restored, Backfilled, Feed, LiftsEveryRow, AllAbove;
    if e.Push? {
      PushAllocates(s.db, Filled(e.request), e.clock);
    }
    if e.Restore? {
      RestoreLiftsEveryRowIff(s.db, e.backup, e.restoreTime, e.clock);
    }
  }

  lemma NotForeign(s: System, e: Event)
    requires Enabled(s, e) && Step(s, e).foreign == s.foreign
    ensures e.Restore? ==> e.backup in s.backups
  {
    hide CurrentRevision, Valid, Restored;
  }

  // ----- incremental pulls

  /**
   * Incremental pull refines full copy: after any run of pushes, backups, restarts,
   * other clients' pulls, and restores that lift every row, a client that pulls holds
   * exactly the server's notes, which is also what one starting from nothing would get.
   */
  lemma PullIsFullCopy(start: System, events: seq<Event>, i: nat, s: System)
    requires Opened(start) && Run(start, events + [Pull(i)]) == Some(s) && s.unlifted == 0
    ensures i < |s.clients| && s.clients[i] == Client(Values(s.db.notes), CurrentRevision(s.db.notes))
    ensures Keyed(s.db.notes) && s.clients[i] == Pulled(Client(map[], 0), s.db.notes)
  {
    hide CurrentRevision, Feed, SnapshotsBounded, SnapshotsDistinct, HistoryCovers, Backfilled;
    assert (events + [Pull(i)])[..|events|] == events;
    var t := Run(start, events).value;
    OpenedInv(start);
    RunInv(start, events, t);
    assert t.clients[i] in t.clients;
    PullCatchesUp(t.db, t.clients[i]);
    FreshClientOk(t.db);
    PullCatchesUp(t.db, Client(map[], 0));
  }

  /**
   * Between any two states of a run with only restores in between that lift every row,
   * no id is lost, the revision does not fall, and every row at or below the earlier
   * revision is an unchanged row of the earlier state: a revision once current is never
   * given to anything else. The same holds of the snapshots, if besides no restore in
   * between loaded its backup as it was.
   */
  lemma RevisionsNeverReused(start: System, events: seq<Event>, s: System, more: seq<Event>, t: System)
    requires Opened(start) && Run(start, events) == Some(s) && Run(s, more) == Some(t)
    ensures Valid(s.db) && Valid(t.db)
    ensures t.unlifted == s.unlifted ==> Extends(s.db, t.db)
    ensures t.unlifted == s.unlifted && t.unbased == s.unbased ==> HistoryExtends(s.db, t.db)
  {
    hide Extends, HistoryExtends, Valid, Opened, Run;
    OpenedInv(start);
    RunInv(start, events, s);
    RunInv(s, more, t);
  }

  /**
   * Table and history agree in every state of every run: live revisions are positive and
   * pairwise distinct, so are those of the snapshots, none is above the current
   * revision, and every live row has its snapshot.
   */
  lemma HistoryAgrees(start: System, events: seq<Event>, s: System)
    requires Opened(start) && Run(start, events) == Some(s)
    ensures RevisionsAllocated(s.db.notes) && SnapshotsDistinct(s.db.snapshots) && HistoryCovers(s.db)
    ensures forall x | x in s.db.snapshots :: 0 < x.revision <= CurrentRevision(s.db.notes)
  {
    hide CurrentRevision, ClientOk, BackupOk, WaiterOk, BlockedOk, GrowthOk, ChannelOk, Run, Opened;
    OpenedInv(start);
    RunInv(start, events, s);
    AtMostCurrent(s.db.notes);
    forall x | x in s.db.snapshots ensures 0 < x.revision <= CurrentRevision(s.db.notes) {
      assert x.note.id in s.db.notes && x.revision <= s.db.notes[x.note.id].revision;
    }
  }

  // ----- the wait endpoint

  /**
   * No lost wakeup: in every interleaving, a request that cannot proceed has missed
   * nothing. The channel holds what it held when the request looked, which is no more than
   * it asked about; nor, with nothing half committed, does the table hold more. As long as
   * no backup without notes was restored, it can proceed exactly when more was published,
   * and if it asked about a revision it was given, the channel still holds that very one.
   */
  lemma NoLostWakeup(start: System, events: seq<Event>, s: System, i: nat)
    requires Opened(start) && Run(start, events) == Some(s)
    requires i < |s.waiters| && s.waiters[i].stage.Waiting?
    ensures var w := s.waiters[i];
      && (!Enabled(s, Wake(i)) ==> s.published == w.stage.held <= w.since)
      && (!Enabled(s, Wake(i)) && s.pending.None? ==> CurrentRevision(s.db.notes) <= w.since)
      && (s.published > w.since ==> Enabled(s, Wake(i)))
      && (s.emptied == 0 ==> (Enabled(s, Wake(i)) <==> s.published > w.stage.held))
      && (s.emptied == 0 && !Enabled(s, Wake(i)) && w.known ==> s.published == w.since)
  {
    hide CurrentRevision, Valid, SyncedOk, Backfilled;
    OpenedInv(start);
    RunInv(start, events, s);
    assert s.waiters[i] in s.waiters;
    assert BlockedOk(s.published, s.version, s.waiters[i]);
    assert s.emptied == 0 ==> WaiterOk(s.published, s.version, s.waiters[i]);
  }

  /**
   * As long as no backup without notes is restored, no answer is behind what the request
   * saw or ahead of the channel. One that says "changed" carries a revision beyond what was
   * asked about, if that was not ahead of the channel when the request looked, as no
   * revision handed out ever is.
   */
  lemma ChangedMeansNewer(start: System, events: seq<Event>, s: System, i: nat)
    requires Opened(start) && Run(start, events) == Some(s) && s.emptied == 0
    requires i < |s.waiters| && s.waiters[i].stage.Answered?
    ensures var w := s.waiters[i]; var answer := w.stage.response;
      && w.stage.held <= answer.revision <= s.published
      && (answer.changed && w.since <= w.stage.held ==> w.since < answer.revision)
      && (w.known ==> w.since <= w.stage.held)
  {
    hide CurrentRevision, Valid, SyncedOk, Backfilled;
    OpenedInv(start);
    RunInv(start, events, s);
    assert s.waiters[i] in s.waiters;
    assert WaiterOk(s.published, s.version, s.waiters[i]);
  }

  /**
   * A request is answered at once exactly when more is published than it asks about, and
   * otherwise waits for a send.
   */
  lemma LookAnswersIff(s: System, i: nat)
    requires i < |s.waiters| && s.waiters[i].stage.Arrived?
    ensures Enabled(s, Look(i))
    ensures var t := Step(s, Look(i)); var since := s.waiters[i].since;
      && i < |t.waiters| && t.waiters[i].since == since
      && t.db == s.db && t.published == s.published && t.version == s.version
      && (t.waiters[i].stage.Answered? <==> s.published > since)
      && (t.waiters[i].stage.Answered? ==> t.waiters[i].stage.response == WaitResponse(s.published, true))
      && (!t.waiters[i].stage.Answered? ==> t.waiters[i].stage == Waiting(s.version, s.published))
  {}

  /** New clients and new requests can come at any time; a client starts from nothing. */
  lemma Joining(s: System, since: nat)
    ensures Enabled(s, Join) && Enabled(s, Arrive(since))
    ensures Step(s, Join).clients == s.clients + [Client(map[], 0)]
    ensures var t := Step(s, Arrive(since)); var n := |s.waiters|;
      && |t.waiters| == n + 1 && t.waiters[..n] == s.waiters
      && t.waiters[n].since == since && (t.waiters[n].known <==> since in s.handedOut) && Enabled(t, Look(n))
  {}

  /**
   * No request is ever stuck: whatever is pending, it can look, then wake or else expire,
   * but not both, and then be answered.
   */
  lemma NeverStuck(s: System, i: nat)
    requires i < |s.waiters|
    ensures match s.waiters[i].stage
      case Arrived => Enabled(s, Look(i))
      case Waiting(seen, _) =>
        (Enabled(s, Wake(i)) <==> seen != s.version) && (Enabled(s, Expire(i)) <==> !Enabled(s, Wake(i)))
      case Woken(_) => Enabled(s, Answer(i))
      case Expired(_, _) => Enabled(s, Answer(i))
      case Answered(_, _, _) =>
        !Enabled(s, Look(i)) && !Enabled(s, Wake(i)) && !Enabled(s, Expire(i)) && !Enabled(s, Answer(i))
  {}

  /**
   * When an answer says "changed". In every run, one that says "unchanged" carries the
   * revision the request saw, which is not beyond what it asked about, unless something was
   * sent after the wait expired. As long as no backup without notes was restored, an answer
   * says "changed" exactly when it carries more than the request saw or the request saw
   * more than it asked about, and for a revision that had been handed out this means:
   * exactly when it carries more than was asked about.
   */
  lemma ChangedIff(start: System, events: seq<Event>, s: System, i: nat)
    requires Opened(start) && Run(start, events) == Some(s)
    requires i < |s.waiters| && s.waiters[i].stage.Answered?
    ensures var w := s.waiters[i]; var held, answer, late := w.stage.held, w.stage.response, w.stage.late;
      && (!answer.changed && !late ==> answer.revision == held <= w.since)
      && (held > w.since ==> answer == WaitResponse(held, true))
      && (s.emptied == 0 && !late ==> (answer.changed <==> answer.revision > held || held > w.since))
      && (s.emptied == 0 && late ==> !answer.changed && answer.revision > held)
      && (s.emptied == 0 && !late && w.known ==> (answer.changed <==> answer.revision > w.since))
  {
    hide CurrentRevision, Valid, SyncedOk, Backfilled;
    OpenedInv(start);
    RunInv(start, events, s);
    assert s.waiters[i] in s.waiters;
    assert BlockedOk(s.published, s.version, s.waiters[i]);
    assert s.emptied == 0 ==> WaiterOk(s.published, s.version, s.waiters[i]);
  }

  /**
   * The exception is real: from every blocked request whose wait expires, a send before
   * the answer makes it "unchanged" with a newer revision.
   */
  lemma UnchangedMayBeNewer(s: System, i: nat) returns (events: seq<Event>, t: System)
    requires Inv(s) && s.pending.None? && i < |s.waiters|
    requires s.waiters[i].stage.Waiting? && s.waiters[i].stage.seen == s.version
    ensures Run(s, events) == Some(t) && Expire(i) in events && i < |t.waiters| && t.waiters[i].stage.Answered?
    ensures t.waiters[i].stage.response == WaitResponse(s.published + 1, false) && t.waiters[i].stage.late
  {
    hide CurrentRevision, Valid, SyncedOk, AnnouncedOk, PushAll, NewChange, Run;
    var c := NewChange(s.db.notes);
    var push := Push(PushRequest("d", [c]), NoClock());
    var expired := Step(s, Expire(i));
    assert expired.db == s.db;
    PushSingle(s.db, c);
    t := Step(Step(Step(expired, push), Publish), Answer(i));
    events := [Expire(i), push, Publish, Answer(i)];
    RunFour(s, Expire(i), push, Publish, Answer(i));
  }

  /** Whatever number an event tells a client is in the set of those handed out, and stays there. */
  lemma HandsOut(s: System, e: Event)
    requires Enabled(s, e)
    ensures var t := Step(s, e); var revision := CurrentRevision(t.db.notes);
      && s.handedOut <= t.handedOut
      && (e.Pull? ==> t.clients[e.client].cursor == revision && revision in t.handedOut)
      && (e.Health? ==> revision in t.handedOut)
      && (e.Push? && t.pending.None? ==> revision in t.handedOut)
      && (e.Publish? ==> t.published == s.pending.value && t.published in t.handedOut)
      && (e.Look? && t.waiters[e.waiter].stage.Answered? ==>
            t.waiters[e.waiter].stage.response.revision in t.handedOut)
      && (e.Answer? ==> t.waiters[e.waiter].stage.response.revision in t.handedOut)
  {
    hide CurrentRevision, Valid, PushAll, Restored, Backfilled, Feed, Lifts;
  }

  /** What a blocked request would be answered if it were released as soon as possible. */
  ghost function Soonest(s: System, i: nat): nat
    requires i < |s.waiters| && s.waiters[i].stage.Waiting?
  {
    if s.waiters[i].stage.seen != s.version then s.published
    else if s.pending.Some? then s.pending.value
    else s.published + 1
  }

  /**
   * Some continuation, without restarts and restores of backups without notes, answers the
   * request "changed" with `revision`.
   */
  ghost predicate MayAnswer(s: System, i: nat, revision: nat) {
    exists events, t :: Answers(s, events, t, i, revision)
  }

  ghost predicate Answers(s: System, events: seq<Event>, t: System, i: nat, revision: nat) {
    && Run(s, events) == Some(t) && t.emptied == s.emptied && Reopen !in events && i < |t.waiters|
    && t.waiters[i].stage.Answered? && t.waiters[i].stage.response == WaitResponse(revision, true)
  }

  /** A change that any table accepts. */
  function NewChange(notes: Table): (c: SyncChange)
    ensures Accepts(notes, c) && Filled(PushRequest("d", [c])) == [c]
  {
    var time := if "n" in notes then ChangeTime(notes["n"].note) + 1 else 0;
    var c := SyncChange("n", "", "", "", 0, time, None, "", "d");
    assert Filled(PushRequest("d", [c])) == [c];
    c
  }

  /**
   * A blocked request may be answered "changed" with a revision not beyond what it asked
   * about exactly when that asks for more than the channel holds or is about to hold.
   */
  lemma ChangedMayBeOlderIff(s: System, i: nat)
    requires Inv(s) && s.emptied == 0 && i < |s.waiters| && s.waiters[i].stage.Waiting?
    ensures (exists r: nat :: MayAnswer(s, i, r) && r <= s.waiters[i].since) <==> Soonest(s, i) <= s.waiters[i].since
  {
    hide Inv, Answers, Soonest;
    var events, t := AnsweredSoonest(s, i);
    assert MayAnswer(s, i, Soonest(s, i));
    forall r: nat | MayAnswer(s, i, r) ensures Soonest(s, i) <= r {
      var more, u :| Answers(s, more, u, i, r);
      AnsweredNoSooner(s, more, u, i, r);
    }
  }

  /** The answer comes by way of a push, if nothing is on its way, and the send. */
  lemma AnsweredSoonest(s: System, i: nat) returns (events: seq<Event>, t: System)
    requires Inv(s) && i < |s.waiters| && s.waiters[i].stage.Waiting?
    ensures Answers(s, events, t, i, Soonest(s, i))
  {
    hide CurrentRevision, Valid, SyncedOk, AnnouncedOk, PushAll, NewChange, Run;
    assert s.waiters[i] in s.waiters;
    var c := NewChange(s.db.notes);
    var push := Push(PushRequest("d", [c]), NoClock());
    var before := if s.waiters[i].stage.seen != s.version then []
                  else if s.pending.Some? then [Publish]
                  else [push, Publish];
    PushSingle(s.db, c);
    RunNone(s);
    if before == [Publish] { RunOne(s, Publish); }
    if before == [push, Publish] { RunTwo(s, push, Publish); }
    var b := Run(s, before).value;
    t := Step(Step(b, Wake(i)), Answer(i));
    events := before + [Wake(i)] + [Answer(i)];
    RunMore(s, before, Wake(i));
    RunMore(s, before + [Wake(i)], Answer(i));
  }

  lemma RunNone(s: System)
    ensures Run(s, []) == Some(s)
  {}

  lemma RunOne(s: System, e: Event)
    requires Enabled(s, e)
    ensures Run(s, [e]) == Some(Step(s, e))
  {
    hide Enabled, Step, Run;
    RunNone(s);
    RunMore(s, [], e);
    assert [] + [e] == [e];
  }

  lemma RunTwo(s: System, e: Event, f: Event)
    requires Enabled(s, e) && Enabled(Step(s, e), f)
    ensures Run(s, [e, f]) == Some(Step(Step(s, e), f))
  {
    hide Enabled, Step;
    RunOne(s, e);
    RunMore(s, [e], f);
    assert [e] + [f] == [e, f];
  }

  /** From a request at `soonest`, wherever it has got to since, nothing before that can come. */
  ghost predicate NotBefore(s: System, i: nat, soonest: nat) {
    i < |s.waiters| &&
    match s.waiters[i].stage
    case Arrived => false
    case Waiting(_, _) => soonest <= Soonest(s, i)
    case Woken(_) => soonest <= s.published
    case Expired(_, _) => true
    case Answered(_, response, _) => response.changed ==> soonest <= response.revision
  }

  lemma StepNotBefore(s: System, e: Event, i: nat, soonest: nat)
    requires Announcing(s, e) && e != Reopen && NotBefore(s, i, soonest)
    ensures NotBefore(Step(s, e), i, soonest)
  {
    hide CurrentRevision, Valid, SyncedOk, PushAll, Restored, Backfilled, Feed, Lifts, WaiterOk;
    AnnouncingSoFar(s, e);
    StepPublishes(s, e);
    assert s.waiters[i] in s.waiters && BlockedOk(s.published, s.version, s.waiters[i]);
    if e.Restore? { RestoreRaisesRevisionIff(s.db, e.backup, e.restoreTime, e.clock); }
  }

  lemma {:induction false} RunNotBefore(s: System, events: seq<Event>, t: System, i: nat, soonest: nat)
    requires Inv(s) && Run(s, events) == Some(t) && t.emptied == 0 && Reopen !in events && NotBefore(s, i, soonest)
    ensures NotBefore(t, i, soonest)
  {
    hide Inv, Enabled, Step, NotBefore;
    if events != [] {
      var n := |events| - 1;
      var m := Run(s, events[..n]).value;
      RunInv(s, events[..n], m);
      CountersRise(m, events[n]);
      RunNotBefore(s, events[..n], m, i, soonest);
      assert events[n] in events;
      StepNotBefore(m, events[n], i, soonest);
    }
  }

  lemma AnsweredNoSooner(s: System, events: seq<Event>, t: System, i: nat, revision: nat)
    requires Inv(s) && s.emptied == 0 && i < |s.waiters| && s.waiters[i].stage.Waiting?
    requires Answers(s, events, t, i, revision)
    ensures Soonest(s, i) <= revision
  {
    hide Inv, Run, Soonest;
    RunNotBefore(s, events, t, i, Soonest(s, i));
  }

  lemma PushSingle(db: Db, c: SyncChange)
    requires Accepts(db.notes, c)
    ensures CurrentRevision(PushAll(db, [c], NoClock()).notes) == CurrentRevision(db.notes) + 1
    ensures PushAll(db, [c], NoClock()).notes[c.id] == Row(c, CurrentRevision(db.notes) + 1)
  {
    PushOneStep(db, c, NoClock());
    PushSnoc(db, [], c, NoClock());
    assert [] + [c] == [c];
  }

  lemma RunFour(s: System, e: Event, f: Event, g: Event, h: Event)
    requires Enabled(s, e) && Enabled(Step(s, e), f) && Enabled(Step(Step(s, e), f), g)
    requires Enabled(Step(Step(Step(s, e), f), g), h)
    ensures Run(s, [e, f, g, h]) == Some(Step(Step(Step(Step(s, e), f), g), h))
  {
    hide Enabled, Step;
    assert [e, f] + [g] == [e, f, g] && [e, f, g] + [h] == [e, f, g, h];
    RunTwo(s, e, f);
    RunMore(s, [e, f], g);
    RunMore(s, [e, f, g], h);
  }

  /**
   * As long as no backup without notes is restored, every revision a client has been given
   * has already been published.
   */
  lemma HandedOutIsPublished(start: System, events: seq<Event>, s: System, revision: nat)
    requires Opened(start) && Run(start, events) == Some(s) && s.emptied == 0 && revision in s.handedOut
    ensures revision <= s.published <= CurrentRevision(s.db.notes)
  {
    OpenedInv(start);
    RunInv(start, events, s);
  }

  /**
   * After a restore of a backup without notes these fail: the revision falls to the number
   * of notes, and a blocked request is told "changed" with a revision no greater than its
   * own. If some note was changed twice, the channel is then behind what it handed out.
   */
  lemma EmptyRestoreMisleads(s: System, i: nat, backup: Db, restoreTime: Time, clock: Clock) returns (t: System)
    requires Inv(s) && s.pending.None? && i < |s.waiters| && Valid(backup) && backup.notes == map[]
    requires s.waiters[i].stage.Waiting? && s.waiters[i].stage.seen == s.version
    ensures Run(s, [Restore(backup, restoreTime, clock), Publish, Wake(i), Answer(i)]) == Some(t)
    ensures i < |t.waiters| && t.waiters[i].since == s.waiters[i].since && t.waiters[i].stage.Answered?
    ensures t.waiters[i].stage.response == WaitResponse(|s.db.notes.Keys|, true)
    ensures t.published == |s.db.notes.Keys| <= s.published <= s.waiters[i].since
    ensures |s.db.notes.Keys| < s.published && s.published in s.handedOut ==>
              exists r :: r in t.handedOut && r > t.published
  {
    hide CurrentRevision, Valid, SyncedOk, AnnouncedOk, Restored, Run;
    assert s.waiters[i] in s.waiters && BlockedOk(s.published, s.version, s.waiters[i]);
    var restore := Restore(backup, restoreTime, clock);
    EmptyRestoreRows(s.db, backup, restoreTime, clock);
    t := Step(Step(Step(Step(s, restore), Publish), Wake(i)), Answer(i));
    RunFour(s, restore, Publish, Wake(i), Answer(i));
    assert s.handedOut <= t.handedOut;
  }

  // ----- deletions

  /** `id` is deleted, at time `t` or later. */
  ghost predicate Buried(db: Db, id: string, t: Time) {
    id in db.notes && db.notes[id].note.deletedAt.Some? && ChangeTime(db.notes[id].note) >= t
  }

  /** The event brings no live change for `id` from time `t` on: neither pushed nor from a backup. */
  ghost predicate Undisturbed(e: Event, id: string, t: Time) {
    match e
    case Push(request, _) =>
      forall c | c in Filled(request) && c.id == id && ChangeTime(c) >= t :: c.deletedAt.Some?
    case Restore(backup, _, _) => id !in backup.notes
    case _ => true
  }

  lemma StepKeepsBuried(s: System, e: Event, id: string, t: Time)
    requires Inv(s) && Enabled(s, e) && Buried(s.db, id, t) && Undisturbed(e, id, t)
    ensures Buried(Step(s, e).db, id, t)
  {
    hide CurrentRevision, PushAll, Restored, Uncovered, LiveSnapshots, Valid, Feed;
    match e
    case Push(request, clock) =>
      PushRaisesTimes(s.db, Filled(request), clock, id);
    case Restore(backup, restoreTime, clock) =>
      ValidIsKeyed(s.db);
      RestoredValue(s.db, backup, restoreTime, clock, id);
    case _ =>
      assert Step(s, e).db.notes == s.db.notes;
  }

  /**
   * A tombstone at time T stays a tombstone, at T or later, through any run that brings
   * no live change for its id at T or later and restores no backup containing it.
   */
  lemma {:induction false} TombstonesStay(s: System, events: seq<Event>, t: System, id: string, time: Time)
    requires Inv(s) && Run(s, events) == Some(t) && Buried(s.db, id, time)
    requires forall e | e in events :: Undisturbed(e, id, time)
    ensures Buried(t.db, id, time)
  {
    hide Inv, Enabled, Step, Undisturbed, Buried;
    if events != [] {
      var n := |events| - 1;
      var m := Run(s, events[..n]).value;
      RunInv(s, events[..n], m);
      TombstonesStay(s, events[..n], m, id, time);
      assert events[n] in events;
      StepKeepsBuried(m, events[n], id, time);
    }
  }

  /** A restore buries every live note its backup lacks, no earlier than the restore or the note's own time. */
  lemma RestoreBuries(live: Db, backup: Db, restoreTime: Time, clock: Clock, id: string)
    requires Keyed(live.notes) && Valid(backup) && id in live.notes && id !in backup.notes
    ensures var after := Restored(live, backup, restoreTime, clock);
      Buried(after, id, restoreTime) && Buried(after, id, ChangeTime(live.notes[id].note))
  {
    hide Restored, Valid;
    RestoredValue(live, backup, restoreTime, clock, id);
  }

  /**
   * After a restore that buried a note, pushing its old version again brings it back
   * exactly when that version is not older than the restore (and is not already that
   * tombstone): the two then tie, and a different change wins a tie.
   */
  lemma OldVersionRevivesIff(live: Db, backup: Db, restoreTime: Time, clock: Clock, id: string)
    requires Keyed(live.notes) && Valid(backup) && id in live.notes && id !in backup.notes
    ensures var note := live.notes[id].note;
      Accepts(Restored(live, backup, restoreTime, clock).notes, note)
      <==> ChangeTime(note) >= restoreTime && note != Tombstone(note, restoreTime)
  {
    hide Restored, Valid;
    RestoredValue(live, backup, restoreTime, clock, id);
    assert live.notes[id].note.id == id;
  }

  /**
   * Any live change of a note a restore buried is accepted, and then is the note's value,
   * exactly when it is not older than the tombstone, which is dated the later of the
   * restore and the note's last change.
   */
  lemma LiveChangeRevivesIff(live: Db, backup: Db, restoreTime: Time, clock: Clock, c: SyncChange, later: Clock)
    requires Keyed(live.notes) && Valid(backup) && c.id in live.notes && c.id !in backup.notes && c.deletedAt.None?
    ensures var after := Restored(live, backup, restoreTime, clock);
      var deletedAt := MaxTime(ChangeTime(live.notes[c.id].note), restoreTime);
      && (Accepts(after.notes, c) <==> ChangeTime(c) >= deletedAt)
      && (c.id in PushAll(after, [c], later).notes)
      && (PushAll(after, [c], later).notes[c.id].note == c <==> ChangeTime(c) >= deletedAt)
  {
    hide Restored, Valid, CurrentRevision;
    RestoredValue(live, backup, restoreTime, clock, c.id);
    PushSnoc(Restored(live, backup, restoreTime, clock), [], c, later);
    assert [] + [c] == [c];
  }

  /** A note's change time falls only by a restore whose backup contains it. */
  lemma ChangeTimeFallsOnlyByRestore(s: System, e: Event, id: string)
    requires Inv(s) && Enabled(s, e) && id in s.db.notes
    ensures var after := Step(s, e).db.notes;
      && id in after
      && (ChangeTime(after[id].note) < ChangeTime(s.db.notes[id].note) ==> e.Restore? && id in e.backup.notes)
  {
    hide CurrentRevision, PushAll, Restored, Uncovered, LiveSnapshots, Valid, Feed;
    match e
    case Push(request, clock) =>
      PushRaisesTimes(s.db, Filled(request), clock, id);
    case Restore(backup, restoreTime, clock) =>
      ValidIsKeyed(s.db);
      RestoredValue(s.db, backup, restoreTime, clock, id);
    case _ =>
  }

  // ----- how fast revisions grow

  /**
   * From a start at revision `base`, p accepted changes and k restores of own backups with
   * notes reach at most (base + p) * 2^k.
   */
  lemma RevisionGrowth(start: System, events: seq<Event>, s: System)
    requires Opened(start) && Run(start, events) == Some(s) && s.unlifted == 0 && s.foreign == 0
    ensures CurrentRevision(s.db.notes) <= (s.base + s.accepted) * Pow2(s.restores)
  {
    hide CurrentRevision, Valid, ClientOk, BackupOk, WaiterOk, ChannelOk, Run, Opened;
    OpenedInv(start);
    RunInv(start, events, s);
  }

  lemma RestoringTheLatestDoubles(db: Db, restoreTime: Time, clock: Clock)
    requires Valid(db) && db.notes != map[]
    ensures CurrentRevision(Restored(db, db, restoreTime, clock).notes) == 2 * CurrentRevision(db.notes)
    ensures Restored(db, db, restoreTime, clock).notes.Keys == db.notes.Keys
  {
    hide CurrentRevision, Restored, Loaded;
    ValidIsKeyed(db);
    RestoredRevision(db, db, restoreTime, clock);
    LoadedFacts(db, CurrentRevision(db.notes));
    RestoredValues(db, db, restoreTime, clock);
    assert db.notes.Keys - db.notes.Keys == {};
  }

  function NoClock(): Clock { _ => 0 }

  /** Back up, restore that very backup, and let the send through; `k` times. */
  ghost function Doublings(s: System, k: nat): (events: seq<Event>)
    requires Inv(s) && s.pending.None? && s.db.notes != map[]
    ensures Doubled(s, events, k)
  {
    hide Inv, Step, Enabled, Doubled;
    if k == 0 then DoubledNone(s); [] else
      var events := Doublings(s, k - 1);
      DoubledMore(s, events, k - 1);
      events + Doubling(Run(s, events))
  }

  ghost function Doubling(s: Option<System>): seq<Event> {
    if s.None? then [] else [Backup, Restore(s.value.db, 0, NoClock()), Publish]
  }

  ghost predicate Doubled(s: System, events: seq<Event>, k: nat) {
    match Run(s, events)
    case None => false
    case Some(t) =>
      && Inv(t) && t.pending.None? && t.db.notes != map[]
      && t.base == s.base && t.accepted == s.accepted && t.restores == s.restores + k
      && t.unlifted == s.unlifted && t.foreign == s.foreign
      && CurrentRevision(t.db.notes) == CurrentRevision(s.db.notes) * Pow2(k)
  }

  lemma DoubledNone(s: System)
    requires Inv(s) && s.pending.None? && s.db.notes != map[]
    ensures Doubled(s, [], 0)
  {}

  lemma RunMore(s: System, events: seq<Event>, e: Event)
    requires Run(s, events).Some?
    ensures var t := Run(s, events).value;
      Run(s, events + [e]) == if Enabled(t, e) then Some(Step(t, e)) else None
  {
    assert (events + [e])[..|events|] == events;
  }

  lemma DoubleOnce(s: System)
    requires Inv(s) && s.pending.None? && s.db.notes != map[]
    ensures Enabled(s, Backup)
    ensures var a := Step(s, Backup);
      && Enabled(a, Restore(s.db, 0, NoClock()))
      && var b := Step(a, Restore(s.db, 0, NoClock()));
         && Enabled(b, Publish)
         && var t := Step(b, Publish);
            && Inv(t) && t.pending.None? && t.db.notes != map[]
            && t.base == s.base && t.accepted == s.accepted && t.restores == s.restores + 1
            && t.unlifted == s.unlifted && t.foreign == s.foreign
            && CurrentRevision(t.db.notes) == 2 * CurrentRevision(s.db.notes)
  {
    hide CurrentRevision, Restored, Valid, ClientOk, BackupOk, WaiterOk, BlockedOk, GrowthOk, ChannelOk;
    var a := Step(s, Backup);
    StepInv(s, Backup);
    var b := Step(a, Restore(s.db, 0, NoClock()));
    StepInv(a, Restore(s.db, 0, NoClock()));
    StepInv(b, Publish);
    RestoringTheLatestDoubles(s.db, 0, NoClock());
  }

  lemma DoubledMore(s: System, events: seq<Event>, k: nat)
    requires Doubled(s, events, k)
    ensures Doubled(s, events + Doubling(Run(s, events)), k + 1)
  {
    hide Inv, Step, Enabled, CurrentRevision;
    var t := Run(s, events).value;
    var q := Doubling(Run(s, events));
    DoubleOnce(t);
    RunMore(s, events, q[0]);
    RunMore(s, events + [q[0]], q[1]);
    RunMore(s, events + [q[0]] + [q[1]], q[2]);
    assert events + q == events + [q[0]] + [q[1]] + [q[2]];
    assert CurrentRevision(s.db.notes) * Pow2(k + 1) == 2 * (CurrentRevision(s.db.notes) * Pow2(k)) by {
      Regroup(CurrentRevision(s.db.notes), Pow2(k));
    }
  }

  lemma Regroup(a: nat, b: nat)
    ensures a * (2 * b) == 2 * (a * b)
  {}

  /** From any state with notes and nothing pending, some run of k restores multiplies the revision by exactly 2^k. */
  lemma RestoresDouble(s: System, k: nat) returns (events: seq<Event>, t: System)
    requires Inv(s) && s.pending.None? && s.db.notes != map[]
    ensures Run(s, events) == Some(t) && t.restores == s.restores + k && t.accepted == s.accepted && t.base == s.base
    ensures t.unlifted == s.unlifted && t.foreign == s.foreign
    ensures CurrentRevision(t.db.notes) == CurrentRevision(s.db.notes) * Pow2(k)
  {
    events := Doublings(s, k);
    t := Run(s, events).value;
  }

  /** `p` versions of one note, each newer than the one before. */
  function Versions(p: nat): seq<SyncChange> {
    seq(p, i requires 0 <= i < p => SyncChange("n", "", "", "", 0, i, None, "", "d"))
  }

  lemma {:induction false} VersionsAllAccepted(p: nat)
    ensures var db := PushAll(Db(map[], []), Versions(p), NoClock());
      && Accepted(Db(map[], []), Versions(p), NoClock()) == Versions(p)
      && if p == 0 then db.notes == map[] else "n" in db.notes && db.notes["n"].note == Versions(p)[p - 1]
  {
    hide CurrentRevision;
    if p > 0 {
      VersionsAllAccepted(p - 1);
      assert Versions(p)[..p - 1] == Versions(p - 1);
    }
  }

  /** The server on a new, empty database. */
  ghost function Fresh(): (s: System)
    ensures Opened(s) && Inv(s) && s.db == Db(map[], []) && s.pending.None? && s.base == 0
    ensures s.unlifted == 0 && s.foreign == 0
  {
    var s := OpenedOn(Db(map[], []));
    LegacyOpensValid(map[]);
    assert Opened(s);
    OpenedInv(s);
    CurrentRevisionIs(map[], 0);
    EmptyIsValid();
    BackfillOfValid(Db(map[], []));
    s
  }

  lemma EmptyIsValid()
    ensures Valid(Db(map[], []))
  {}

  lemma FirstPush(p: nat) returns (events: seq<Event>, s: System)
    requires p > 0
    ensures Run(Fresh(), events) == Some(s)
    ensures Inv(s) && s.pending.None? && s.db.notes != map[] && s.accepted == p && s.restores == 0 && s.base == 0
    ensures s.unlifted == 0 && s.foreign == 0
    ensures CurrentRevision(s.db.notes) == p
  {
    hide CurrentRevision, Inv, Fresh, PushAll, Accepted;
    var request := PushRequest("d", Versions(p));
    assert Filled(request) == Versions(p);
    var push := Push(request, NoClock());
    CurrentRevisionIs(map[], 0);
    VersionsAllAccepted(p);
    PushAllocates(Db(map[], []), Versions(p), NoClock());
    assert Enabled(Fresh(), push);
    var mid := Step(Fresh(), push);
    StepInv(Fresh(), push);
    s := Step(mid, Publish);
    StepInv(mid, Publish);
    events := [push, Publish];
    assert Run(Fresh(), []) == Some(Fresh());
    RunMore(Fresh(), [], push);
    RunMore(Fresh(), [push], Publish);
    assert [] + [push] == [push] && [push] + [Publish] == events;
  }

  lemma {:induction false} RunConcat(s: System, first: seq<Event>, second: seq<Event>)
    requires Run(s, first).Some?
    ensures Run(s, first + second) == Run(Run(s, first).value, second)
  {
    hide Enabled, Step;
    if second == [] {
      assert first + second == first;
    } else {
      var n := |second| - 1;
      RunConcat(s, first, second[..n]);
      assert (first + second)[..|first| + n] == first + second[..n];
    }
  }

  /** The bound is reached from an empty store, for every p and k: no smaller bound holds. */
  lemma GrowthIsReached(p: nat, k: nat) returns (events: seq<Event>, s: System)
    requires p > 0
    ensures Opened(Fresh()) && Run(Fresh(), events) == Some(s)
    ensures s.base == 0 && s.accepted == p && s.restores == k && s.unlifted == 0 && s.foreign == 0
    ensures CurrentRevision(s.db.notes) == p * Pow2(k)
  {
    hide CurrentRevision, Inv, Opened, Run;
    var first, mid := FirstPush(p);
    var second;
    second, s := RestoresDouble(mid, k);
    RunConcat(Fresh(), first, second);
    events := first + second;
  }

  /**
   * So the `revision as i64` casts are exact only while (base + p) * 2^k < 2^63: one
   * accepted change and 63 restores leave the range.
   */
  lemma CastOverflows() returns (events: seq<Event>, s: System)
    ensures Run(Fresh(), events) == Some(s) && s.accepted == 1 && s.restores == 63
    ensures CurrentRevision(s.db.notes) > 0x7FFF_FFFF_FFFF_FFFF
  {
    hide CurrentRevision, Inv, Opened, Run, Fresh;
    events, s := GrowthIsReached(1, 63);
    Pow2Of63();
  }

  lemma {:induction false} Pow2Adds(a: nat, b: nat)
    ensures Pow2(a + b) == Pow2(a) * Pow2(b)
  {
    if a > 0 {
      Pow2Adds(a - 1, b);
      assert Pow2(a + b) == 2 * Pow2(a - 1 + b);
    }
  }

  lemma Pow2Of63()
    ensures Pow2(63) == 0x8000_0000_0000_0000
  {
    assert Pow2(4) == 16 && Pow2(3) == 8;
    Pow2Adds(4, 4);
    Pow2Adds(4, 3);
    Pow2Adds(8, 8);
    Pow2Adds(8, 7);
    Pow2Adds(16, 16);
    Pow2Adds(16, 15);
    Pow2Adds(32, 31);
  }

  // ----- restores that do not lift every row

  /**
   * What a caller can compare before a restore: rows the restore leaves at or below the
   * live revision must be as they are live.
   */
  ghost predicate AgreesBelow(live: Table, backup: Table, restoreTime: Time) {
    if backup == map[] then forall id | id in live :: live[id].note == Tombstone(live[id].note, restoreTime)
    else CurrentRevision(backup) > CurrentRevision(live) ==>
      forall id | id in backup && backup[id].revision <= CurrentRevision(live) ::
        id in live && live[id].note == backup[id].note
  }

  /**
   * The first pull after a restore, of a client that was up to date before, copies the
   * server exactly under that condition.
   */
  lemma PullAfterRestoreIff(live: Db, backup: Db, restoreTime: Time, clock: Clock, client: Client)
    requires Valid(live) && Valid(backup) && client == Client(Values(live.notes), CurrentRevision(live.notes))
    ensures var after := Restored(live, backup, restoreTime, clock).notes;
      && Keyed(after)
      && (Pulled(client, after).mirror == Values(after) <==> AgreesBelow(live.notes, backup.notes, restoreTime))
  {
    hide CurrentRevision, Restored, Valid, Tombstone, Pulled, Knows, AgreesBelow;
    ValidIsKeyed(live);
    RestoredIsValid(live, backup, restoreTime, clock);
    var after := Restored(live, backup, restoreTime, clock);
    PullCopiesIff(after, client);
    RestoredValues(live, backup, restoreTime, clock);
    if backup.notes == map[] {
      EmptyRestoreRows(live, backup, restoreTime, clock);
      AtMostCurrent(after.notes);
      KnowsAfterEmpty(live.notes, backup.notes, after.notes, restoreTime, client);
    } else {
      RestoredPlaces(live, backup, restoreTime, clock);
      KnowsAfter(live.notes, backup.notes, after.notes, restoreTime, client);
    }
  }

  lemma KnowsAfterEmpty(live: Table, backup: Table, after: Table, restoreTime: Time, client: Client)
    requires backup == map[] && client == Client(Values(live), CurrentRevision(live))
    requires after.Keys == live.Keys && forall id | id in live ::
        after[id].note == Tombstone(live[id].note, restoreTime)
    requires forall id | id in after :: after[id].revision <= CurrentRevision(live)
    ensures Knows(after, client) <==> AgreesBelow(live, backup, restoreTime)
  {
    hide CurrentRevision, Tombstone;
  }

  lemma KnowsAfter(live: Table, backup: Table, after: Table, restoreTime: Time, client: Client)
    requires backup != map[] && client == Client(Values(live), CurrentRevision(live))
    requires after.Keys == live.Keys + backup.Keys && forall id | id in backup :: after[id].note == backup[id].note
    requires forall id | id in after :: after[id].revision <= CurrentRevision(live) <==>
      CurrentRevision(backup) > CurrentRevision(live) && id in backup && backup[id].revision <= CurrentRevision(live)
    ensures Knows(after, client) <==> AgreesBelow(live, backup, restoreTime)
  {
    hide CurrentRevision, Tombstone;
  }

  /**
   * After a restore with notes, what lies at or below the live revision are the backup's
   * own rows there, if it was not rebased.
   */
  lemma RestoredPlaces(live: Db, backup: Db, restoreTime: Time, clock: Clock)
    requires Keyed(live.notes) && Valid(backup) && backup.notes != map[]
    ensures var after := Restored(live, backup, restoreTime, clock).notes; var R := CurrentRevision(live.notes);
      forall id | id in after :: after[id].revision <= R <==>
        CurrentRevision(backup.notes) > R && id in backup.notes && backup.notes[id].revision <= R
  {
    hide CurrentRevision, Restored, MissingIds, SnapshotsBounded, SnapshotsDistinct, HistoryCovers;
    var R := CurrentRevision(live.notes);
    var loaded, missing := Loaded(backup, R), MissingIds(live.notes, backup.notes);
    RestoredFacts(live, backup, restoreTime, clock);
    LoadedFacts(backup, R);
    var after := Restored(live, backup, restoreTime, clock).notes;
    forall id | id in after
      ensures after[id].revision <= R
          <==> CurrentRevision(backup.notes) > R && id in backup.notes && backup.notes[id].revision <= R
    {
      if id !in backup.notes {
        assert id in missing;
      }
    }
  }

  /**
   * A foreign backup ahead of the server, with another value at a revision the server has
   * used, is never seen in full.
   */
  lemma ForeignRestoreExample() returns (live: Db, backup: Db)
    ensures Valid(live) && Valid(backup) && backup.notes != map[]
    ensures !LiftsEveryRow(live.notes, backup.notes)
    ensures forall restoreTime :: !AgreesBelow(live.notes, backup.notes, restoreTime)
  {
    hide CurrentRevision, Valid;
    var empty, first, newer := Db(map[], []), Versions(1)[0], Versions(2)[1];
    EmptyIsValid();
    CurrentRevisionIs(map[], 0);
    live := Stored(empty, first, 1, 0);
    StoredValid(empty, first, 1, 0);
    StoredExtends(empty, first, 1, 0);
    var half, more := Stored(empty, newer, 1, 0), first.(id := "m");
    StoredValid(empty, newer, 1, 0);
    StoredExtends(empty, newer, 1, 0);
    backup := Stored(half, more, 2, 0);
    StoredValid(half, more, 2, 0);
    StoredExtends(half, more, 2, 0);
    assert backup.notes["n"] == Row(newer, 1) && live.notes["n"] == Row(first, 1);
  }

  lemma EmptyRestoreRows(live: Db, backup: Db, restoreTime: Time, clock: Clock)
    requires Valid(live) && Valid(backup) && backup.notes == map[]
    ensures var after := Restored(live, backup, restoreTime, clock).notes;
      && Keyed(after) && after.Keys == live.notes.Keys
      && CurrentRevision(after) == |live.notes.Keys| <= CurrentRevision(live.notes)
      && (forall id | id in live.notes :: after[id].note == Tombstone(live.notes[id].note, restoreTime))
  {
    hide CurrentRevision, Restored, Loaded, Valid;
    ValidIsKeyed(live);
    RestoredIsValid(live, backup, restoreTime, clock);
    RestoredValues(live, backup, restoreTime, clock);
    RestoredRevision(live, backup, restoreTime, clock);
    LoadedFacts(backup, CurrentRevision(live.notes));
    IdsBelowRevision(live);
    assert live.notes.Keys - backup.notes.Keys == live.notes.Keys;
  }

  lemma IdsBelowRevision(db: Db)
    requires Valid(db)
    ensures |db.notes.Keys| <= CurrentRevision(db.notes)
  {
    IdsAtMostRevision(db.notes);
  }

  lemma NothingAbove(notes: Table, since: nat)
    requires Keyed(notes) && CurrentRevision(notes) <= since
    ensures Feed(notes, since) == []
  {
    hide CurrentRevision, Feed;
    AtMostCurrent(notes);
    FeedIs(notes, since, []);
  }

  /**
   * Restoring an empty backup over live notes is invisible to a client that is up to
   * date: the tombstones reuse revisions 1, 2, ..., none above the old revision, so its
   * next pull brings nothing, though every note is now a tombstone.
   */
  lemma EmptyRestoreIsInvisible(live: Db, backup: Db, restoreTime: Time, clock: Clock, client: Client)
    requires Valid(live) && Valid(backup) && backup.notes == map[] && live.notes != map[]
    requires client == Client(Values(live.notes), CurrentRevision(live.notes))
    ensures var after := Restored(live, backup, restoreTime, clock).notes;
      && Keyed(after) && CurrentRevision(after) == |live.notes.Keys| <= CurrentRevision(live.notes)
      && (forall id | id in live.notes :: id in after && after[id].note == Tombstone(live.notes[id].note, restoreTime))
      && Pulled(client, after).mirror == client.mirror
      && (client.mirror == Values(after)
        <==> forall id | id in live.notes :: live.notes[id].note == Tombstone(live.notes[id].note, restoreTime))
  {
    hide CurrentRevision, Restored, Valid, Feed, Tombstone;
    var after := Restored(live, backup, restoreTime, clock).notes;
    EmptyRestoreRows(live, backup, restoreTime, clock);
    NothingAbove(after, client.cursor);
    if forall id | id in live.notes :: live.notes[id].note == Tombstone(live.notes[id].note, restoreTime) {
      assert client.mirror == Values(after);
    } else {
      var id :| id in live.notes && live.notes[id].note != Tombstone(live.notes[id].note, restoreTime);
      assert client.mirror[id] != Values(after)[id];
    }
  }
}
