/** The laws of `push`: last writer wins, whatever the order, the grouping or the repetition. */
module Merge {
  import opened Text
  import opened Protocol
  import opened Tables
  import opened SyncSpec

  // ----- validity and revision allocation

  /** Storing at a fresh revision makes it the current one and extends the database. */
  lemma StoredExtends(db: Db, change: SyncChange, revision: nat, capturedAt: Time)
    requires revision > CurrentRevision(db.notes)
    ensures var after := Stored(db, change, revision, capturedAt);
      CurrentRevision(after.notes) == revision && Extends(db, after)
  {
    var after := Stored(db, change, revision, capturedAt);
    AtMostCurrent(db.notes);
    assert after.notes[change.id].revision == revision;
    CurrentRevisionIs(after.notes, revision);
  }

  /** Storing at a fresh revision keeps every invariant. */
  lemma StoredValid(db: Db, change: SyncChange, revision: nat, capturedAt: Time)
    requires Valid(db) && revision > CurrentRevision(db.notes)
    ensures Valid(Stored(db, change, revision, capturedAt))
  {
    AtMostCurrent(db.notes);
    hide CurrentRevision;
    StoredBounded(db, change, revision, capturedAt);
    StoredDistinct(db, change, revision, capturedAt);
    StoredAllocated(db, change, revision, capturedAt);
    var after := Stored(db, change, revision, capturedAt);
    forall id | id in after.notes ensures CoversRow(after.snapshots, after.notes[id]) {
      hide *;
      StoredCovers(db, change, revision, capturedAt, id);
    }
  }

  lemma StoredAllocated(db: Db, change: SyncChange, revision: nat, capturedAt: Time)
    requires RevisionsAllocated(db.notes) && revision > CurrentRevision(db.notes)
    ensures RevisionsAllocated(Stored(db, change, revision, capturedAt).notes)
  {
    AtMostCurrent(db.notes);
    var after := Stored(db, change, revision, capturedAt).notes;
    forall a, b ensures !Clash(after, a, b) {
      assert !Clash(db.notes, a, b);
    }
  }

  lemma StoredDistinct(db: Db, change: SyncChange, revision: nat, capturedAt: Time)
    requires SnapshotsBounded(db) && SnapshotsDistinct(db.snapshots) && revision > CurrentRevision(db.notes)
    ensures SnapshotsDistinct(Stored(db, change, revision, capturedAt).snapshots)
  {
    AtMostCurrent(db.notes);
    forall i | 0 <= i < |db.snapshots| ensures db.snapshots[i].revision < revision {
      assert db.snapshots[i] in db.snapshots;
    }
  }

  lemma StoredBounded(db: Db, change: SyncChange, revision: nat, capturedAt: Time)
    requires SnapshotsBounded(db) && revision > CurrentRevision(db.notes)
    ensures SnapshotsBounded(Stored(db, change, revision, capturedAt))
  {
    var after := Stored(db, change, revision, capturedAt);
    AtMostCurrent(db.notes);
    forall s | s in after.snapshots
      ensures s.note.id in after.notes && 0 < s.revision <= after.notes[s.note.id].revision
    {
      if s in db.snapshots { assert db.notes[s.note.id].revision < revision; }
    }
  }

  lemma StoredCovers(db: Db, change: SyncChange, revision: nat, capturedAt: Time, id: string)
    requires HistoryCovers(db)
    requires id == change.id || id in db.notes
    ensures var after := Stored(db, change, revision, capturedAt); CoversRow(after.snapshots, after.notes[id])
  {
    var after := Stored(db, change, revision, capturedAt);
    if id == change.id {
      assert after.snapshots[|db.snapshots|].revision == revision;
    } else {
      var row := db.notes[id];
      assert CoversRow(db.snapshots, row);
      var i :| 0 <= i < |db.snapshots| && db.snapshots[i].note == row.note && db.snapshots[i].revision == row.revision;
      assert after.snapshots[i] == db.snapshots[i];
    }
  }

  /** The changes of the batch that are stored, in order. */
  function Accepted(db: Db, changes: seq<SyncChange>, clock: Clock): seq<SyncChange> {
    if changes == [] then [] else
      var n := |changes| - 1;
      var before := Accepted(db, changes[..n], clock);
      if Accepts(PushAll(db, changes[..n], clock).notes, changes[n]) then before + [changes[n]] else before
  }

  lemma PushOneStep(db: Db, change: SyncChange, clock: Clock)
    ensures var after := PushOne(db, change, clock);
      && Extends(db, after)
      && (Valid(db) ==> Valid(after))
      && CurrentRevision(after.notes) == CurrentRevision(db.notes) + if Accepts(db.notes, change) then 1 else 0
  {
    if Accepts(db.notes, change) {
      var r := CurrentRevision(db.notes) + 1;
      StoredExtends(db, change, r, clock(r));
      if Valid(db) { StoredValid(db, change, r, clock(r)); }
    }
  }

  /** A push keeps every invariant and extends the database. */
  lemma {:induction false} PushKeeps(db: Db, changes: seq<SyncChange>, clock: Clock)
    ensures Extends(db, PushAll(db, changes, clock))
    ensures Valid(db) ==> Valid(PushAll(db, changes, clock))
  {
    if changes != [] {
      var n := |changes| - 1;
      var before := PushAll(db, changes[..n], clock);
      PushKeeps(db, changes[..n], clock);
      PushOneStep(before, changes[n], clock);
      ExtendsTransitive(db, before, PushOne(before, changes[n], clock));
    }
  }

  /** The snapshots of changes stored at consecutive revisions above `start`. */
  function Captured(changes: seq<SyncChange>, start: nat, clock: Clock): seq<Snapshot> {
    if changes == [] then [] else
      var n := |changes| - 1;
      Captured(changes[..n], start, clock) + [Snapshot(changes[n], start + n + 1, clock(start + n + 1))]
  }

  /** The table after storing changes at consecutive revisions above `start`. */
  function Upserted(notes: Table, changes: seq<SyncChange>, start: nat): Table {
    if changes == [] then notes else
      var n := |changes| - 1;
      Upserted(notes, changes[..n], start)[changes[n].id := Row(changes[n], start + n + 1)]
  }

  lemma StoredSnoc(notes: Table, changes: seq<SyncChange>, c: SyncChange, start: nat, clock: Clock)
    ensures var r := start + |changes| + 1;
      && Upserted(notes, changes + [c], start) == Upserted(notes, changes, start)[c.id := Row(c, r)]
      && Captured(changes + [c], start, clock) == Captured(changes, start, clock) + [Snapshot(c, r, clock(r))]
  {
    assert (changes + [c])[..|changes|] == changes;
  }

  /** `after` is `db` with `taken` stored at consecutive revisions. */
  ghost predicate Allocated(db: Db, taken: seq<SyncChange>, clock: Clock, after: Db) {
    var start := CurrentRevision(db.notes);
    && CurrentRevision(after.notes) == start + |taken|
    && after.notes == Upserted(db.notes, taken, start)
    && after.snapshots == db.snapshots + Captured(taken, start, clock)
  }

  lemma AllocatedStep(db: Db, taken: seq<SyncChange>, clock: Clock, before: Db, c: SyncChange)
    requires Allocated(db, taken, clock, before) && Accepts(before.notes, c)
    ensures Allocated(db, taken + [c], clock, PushOne(before, c, clock))
  {
    hide CurrentRevision;
    var start := CurrentRevision(db.notes);
    var r := start + |taken| + 1;
    var after := Stored(before, c, r, clock(r));
    assert after == PushOne(before, c, clock);
    assert CurrentRevision(after.notes) == r by { StoredExtends(before, c, r, clock(r)); }
    StoredSnoc(db.notes, taken, c, start, clock);
    AppendAssoc(db.snapshots, Captured(taken, start, clock), [Snapshot(c, r, clock(r))]);
  }

  lemma AppendAssoc<T>(a: seq<T>, b: seq<T>, c: seq<T>)
    ensures a + b + c == a + (b + c)
  {}

  /**
   * Revision allocation: a push ends at the starting revision plus the number of accepted
   * changes, whose rows and snapshots carry, in order, exactly the revisions in between.
   */
  lemma {:induction false} PushAllocates(db: Db, changes: seq<SyncChange>, clock: Clock)
    ensures Allocated(db, Accepted(db, changes, clock), clock, PushAll(db, changes, clock))
  {
    if changes != [] {
      var n := |changes| - 1;
      PushAllocates(db, changes[..n], clock);
      var before := PushAll(db, changes[..n], clock);
      if Accepts(before.notes, changes[n]) {
        AllocatedStep(db, Accepted(db, changes[..n], clock), clock, before, changes[n]);
      }
    }
  }

  lemma {:induction false} CapturedAbove(changes: seq<SyncChange>, start: nat, clock: Clock)
    ensures forall x | x in Captured(changes, start, clock) :: x.revision > start
  {
    if changes != [] {
      CapturedAbove(changes[..|changes| - 1], start, clock);
    }
  }

  /** A push changes nothing in the history up to the starting revision. */
  lemma PushHistory(db: Db, changes: seq<SyncChange>, clock: Clock)
    ensures HistoryExtends(db, PushAll(db, changes, clock))
  {
    hide CurrentRevision, PushAll, Accepted, Captured, Upserted;
    PushAllocates(db, changes, clock);
    CapturedAbove(Accepted(db, changes, clock), CurrentRevision(db.notes), clock);
  }

  lemma {:induction false} UpsertedKeys(notes: Table, changes: seq<SyncChange>, start: nat)
    ensures |Upserted(notes, changes, start).Keys| <= |notes.Keys| + |changes|
  {
    if changes != [] {
      var n := |changes| - 1;
      UpsertedKeys(notes, changes[..n], start);
      var before := Upserted(notes, changes[..n], start);
      assert Upserted(notes, changes, start).Keys == before.Keys + {changes[n].id};
    }
  }

  /** A push never grows the table by more than it grows the revision. */
  lemma PushGrowth(db: Db, changes: seq<SyncChange>, clock: Clock)
    ensures var after := PushAll(db, changes, clock).notes;
      |after.Keys| - |db.notes.Keys| <= CurrentRevision(after) - CurrentRevision(db.notes)
  {
    PushAllocates(db, changes, clock);
    UpsertedKeys(db.notes, Accepted(db, changes, clock), CurrentRevision(db.notes));
  }

  // ----- last writer wins

  /** The changes of `changes` for `id`, in order. */
  function For(changes: seq<SyncChange>, id: string): seq<SyncChange> {
    if changes == [] then [] else
      var n := |changes| - 1;
      For(changes[..n], id) + if changes[n].id == id then [changes[n]] else []
  }

  function Existing(notes: Table, id: string): seq<SyncChange> {
    if id in notes then [notes[id].note] else []
  }

  /** Everything competing for `id`: the stored value, if any, and then the batch in order. */
  function Candidates(notes: Table, changes: seq<SyncChange>, id: string): seq<SyncChange> {
    Existing(notes, id) + For(changes, id)
  }

  /** `w` is the last of the elements with the greatest change time. */
  ghost predicate IsLastNewest(w: SyncChange, candidates: seq<SyncChange>) {
    exists k :: 0 <= k < |candidates| && candidates[k] == w
      && (forall j | 0 <= j <= k :: ChangeTime(candidates[j]) <= ChangeTime(w))
      && (forall j | k < j < |candidates| :: ChangeTime(candidates[j]) < ChangeTime(w))
  }

  lemma LastNewestUnique(v: SyncChange, w: SyncChange, candidates: seq<SyncChange>)
    requires IsLastNewest(v, candidates) && IsLastNewest(w, candidates)
    ensures v == w
  {}

  lemma LastNewestStep(w: SyncChange, candidates: seq<SyncChange>, c: SyncChange)
    requires IsLastNewest(w, candidates)
    ensures IsLastNewest(if ChangeTime(c) < ChangeTime(w) then w else c, candidates + [c])
  {
    var more := candidates + [c];
    var k :| 0 <= k < |candidates| && candidates[k] == w
      && (forall j | 0 <= j <= k :: ChangeTime(candidates[j]) <= ChangeTime(w))
      && (forall j | k < j < |candidates| :: ChangeTime(candidates[j]) < ChangeTime(w));
    if ChangeTime(c) < ChangeTime(w) {
      assert more[k] == w;
    } else {
      assert more[|candidates|] == c;
    }
  }

  /** `after` holds, for every id, the last newest candidate, and holds exactly the ids that have one. */
  ghost predicate LastWriterWon(notes: Table, changes: seq<SyncChange>, after: Table) {
    forall id :: Settled(notes, changes, after, id)
  }

  ghost predicate Settled(notes: Table, changes: seq<SyncChange>, after: Table, id: string) {
    && (id in after <==> Candidates(notes, changes, id) != [])
    && (id in after ==> IsLastNewest(after[id].note, Candidates(notes, changes, id)))
  }

  /** Last writer wins: the sequential loop computes the declarative outcome, for every batch and starting table. */
  lemma {:induction false} LastWriterWins(db: Db, changes: seq<SyncChange>, clock: Clock)
    ensures LastWriterWon(db.notes, changes, PushAll(db, changes, clock).notes)
  {
    if changes == [] {
      forall id ensures Settled(db.notes, changes, db.notes, id) {
        if id in db.notes { assert Candidates(db.notes, changes, id)[0] == db.notes[id].note; }
      }
    } else {
      var n := |changes| - 1;
      LastWriterWins(db, changes[..n], clock);
      var before, after := PushAll(db, changes[..n], clock).notes, PushAll(db, changes, clock).notes;
      forall id ensures Settled(db.notes, changes, after, id) {
        assert Settled(db.notes, changes[..n], before, id);
        SettledStep(db.notes, changes, before, after, id);
      }
    }
  }

  lemma SettledStep(notes: Table, changes: seq<SyncChange>, before: Table, after: Table, id: string)
    requires changes != [] && Settled(notes, changes[..|changes| - 1], before, id)
    requires var c := changes[|changes| - 1];
      if c.id == id && Accepts(before, c) then id in after && after[id].note == c
      else (id in after <==> id in before) && (id in after ==> after[id] == before[id])
    ensures Settled(notes, changes, after, id)
  {
    var n := |changes| - 1;
    var c, earlier, candidates := changes[n], Candidates(notes, changes[..n], id), Candidates(notes, changes, id);
    if c.id != id {
      assert candidates == earlier;
    } else {
      assert candidates == earlier + [c];
      if id in before {
        LastNewestStep(before[id].note, earlier, c);
      } else {
        assert candidates[0] == c;
      }
    }
  }

  /** All that a push promises about the tables. */
  lemma PushFacts(db: Db, changes: seq<SyncChange>, clock: Clock)
    ensures var after := PushAll(db, changes, clock);
      && CurrentRevision(after.notes) == CurrentRevision(db.notes) + |Accepted(db, changes, clock)|
      && LastWriterWon(db.notes, changes, after.notes)
      && Extends(db, after) && (Valid(db) ==> Valid(after))
  {
    hide CurrentRevision, Accepted, PushAll, Upserted, Captured;
    PushAllocates(db, changes, clock);
    PushKeeps(db, changes, clock);
    LastWriterWins(db, changes, clock);
  }

  // ----- grouping

  /** Batch homomorphism: one push of two batches is a push of each, down to revisions, snapshots and capture times. */
  lemma {:induction false} PushConcat(db: Db, first: seq<SyncChange>, second: seq<SyncChange>, clock: Clock)
    ensures PushAll(db, first + second, clock) == PushAll(PushAll(db, first, clock), second, clock)
  {
    hide PushOne;
    if second == [] {
      assert first + second == first;
    } else {
      var n := |second| - 1;
      PushConcat(db, first, second[..n], clock);
      PushSnoc(db, first + second[..n], second[n], clock);
      assert first + second == first + second[..n] + [second[n]];
    }
  }

  /** The same for requests: a device's changes can be pushed together or in two parts. */
  lemma PushInTwo(db: Db, deviceId: string, first: seq<SyncChange>, second: seq<SyncChange>, clock: Clock)
    ensures PushAll(db, Filled(PushRequest(deviceId, first + second)), clock)
         == PushAll(PushAll(db, Filled(PushRequest(deviceId, first)), clock), Filled(PushRequest(deviceId, second)),
           clock)
  {
    hide PushAll;
    var a, b := Filled(PushRequest(deviceId, first)), Filled(PushRequest(deviceId, second));
    assert Filled(PushRequest(deviceId, first + second)) == a + b;
    PushConcat(db, a, b, clock);
  }

  // ----- order and repetition

  /**
   * For some id, two different changes of the batch tie for the newest, and nothing
   * stored is newer: the outcome depends on which of them comes last.
   */
  ghost predicate TopConflict(notes: Table, changes: seq<SyncChange>, c: SyncChange, d: SyncChange) {
    && c in changes && d in changes && c != d && c.id == d.id && ChangeTime(c) == ChangeTime(d)
    && (forall e | e in changes && e.id == c.id :: ChangeTime(e) <= ChangeTime(c))
    && (c.id in notes ==> ChangeTime(notes[c.id].note) <= ChangeTime(c))
  }

  ghost predicate NoTopConflict(notes: Table, changes: seq<SyncChange>) {
    forall c, d :: !TopConflict(notes, changes, c, d)
  }

  /** The batch never gives one id two different values at one time. */
  ghost predicate Unambiguous(changes: seq<SyncChange>) {
    forall c, d | c in changes && d in changes && c.id == d.id && ChangeTime(c) == ChangeTime(d) :: c == d
  }

  lemma UnambiguousHasNoTopConflict(notes: Table, changes: seq<SyncChange>)
    requires Unambiguous(changes)
    ensures NoTopConflict(notes, changes)
  {}

  lemma {:induction false} ForMembers(changes: seq<SyncChange>, id: string)
    ensures forall c :: c in For(changes, id) <==> c in changes && c.id == id
  {
    if changes != [] {
      var n := |changes| - 1;
      ForMembers(changes[..n], id);
      assert changes == changes[..n] + [changes[n]];
    }
  }

  /**
   * Of two runs of candidates, the last newest beats all, and comes from the first only if
   * it beats the second strictly.
   */
  lemma LastNewestOfTwo(w: SyncChange, first: seq<SyncChange>, second: seq<SyncChange>)
    requires IsLastNewest(w, first + second)
    ensures forall c | c in first + second :: ChangeTime(c) <= ChangeTime(w)
    ensures w in second || (w in first && forall c | c in second :: ChangeTime(c) < ChangeTime(w))
  {
    var all := first + second;
    var k :| 0 <= k < |all| && all[k] == w
      && (forall j | 0 <= j <= k :: ChangeTime(all[j]) <= ChangeTime(w))
      && (forall j | k < j < |all| :: ChangeTime(all[j]) < ChangeTime(w));
    if k < |first| {
      forall c | c in second ensures ChangeTime(c) < ChangeTime(w) {
        var i :| 0 <= i < |second| && second[i] == c;
        assert all[|first| + i] == c;
      }
    } else {
      assert w == second[k - |first|];
    }
  }

  /**
   * What winning means: no candidate is newer, and a stored value keeps its place only if
   * every change for it is older.
   */
  lemma WinnerFacts(notes: Table, changes: seq<SyncChange>, after: Table, id: string)
    requires LastWriterWon(notes, changes, after) && id in after
    ensures var w := after[id].note;
      && (forall c | c in changes && c.id == id :: ChangeTime(c) <= ChangeTime(w))
      && (id in notes ==> ChangeTime(notes[id].note) <= ChangeTime(w))
      && ((w in changes && w.id == id) || (id in notes && w == notes[id].note &&
           forall c | c in changes && c.id == id :: ChangeTime(c) < ChangeTime(w)))
  {
    hide IsLastNewest, For;
    assert Settled(notes, changes, after, id);
    ForMembers(changes, id);
    LastNewestOfTwo(after[id].note, Existing(notes, id), For(changes, id));
    if id in notes { assert notes[id].note in Existing(notes, id); }
  }

  /** The ids after a push: those stored and those of the batch. */
  lemma WonIds(notes: Table, changes: seq<SyncChange>, after: Table, id: string)
    requires LastWriterWon(notes, changes, after)
    ensures id in after <==> id in notes || exists c :: c in changes && c.id == id
  {
    assert Settled(notes, changes, after, id);
    ForMembers(changes, id);
    if For(changes, id) != [] { assert For(changes, id)[0] in For(changes, id); }
  }

  lemma SameMembers(a: seq<SyncChange>, b: seq<SyncChange>)
    requires multiset(a) == multiset(b)
    ensures forall c :: c in a <==> c in b
  {
    forall c ensures c in a <==> c in b {
      assert c in a <==> c in multiset(a);
      assert c in b <==> c in multiset(b);
    }
  }

  lemma WonTimesAgree(notes: Table, a: seq<SyncChange>, b: seq<SyncChange>, x: Table, y: Table)
    requires multiset(a) == multiset(b)
    requires LastWriterWon(notes, a, x) && LastWriterWon(notes, b, y)
    ensures x.Keys == y.Keys && forall id | id in x :: ChangeTime(x[id].note) == ChangeTime(y[id].note)
  {
    SameMembers(a, b);
    forall id ensures id in x <==> id in y {
      WonIds(notes, a, x, id);
      WonIds(notes, b, y, id);
    }
    forall id | id in x ensures ChangeTime(x[id].note) == ChangeTime(y[id].note) {
      WinnerFacts(notes, a, x, id);
      WinnerFacts(notes, b, y, id);
    }
  }

  /** Any order of a batch ends with the same ids at the same change times. */
  lemma OrderKeepsTimes(db: Db, a: seq<SyncChange>, b: seq<SyncChange>, clock: Clock)
    requires multiset(a) == multiset(b)
    ensures var x, y := PushAll(db, a, clock).notes, PushAll(db, b, clock).notes;
      x.Keys == y.Keys && forall id | id in x :: ChangeTime(x[id].note) == ChangeTime(y[id].note)
  {
    LastWriterWins(db, a, clock);
    LastWriterWins(db, b, clock);
    WonTimesAgree(db.notes, a, b, PushAll(db, a, clock).notes, PushAll(db, b, clock).notes);
  }

  ghost predicate SameOutcome(db: Db, a: seq<SyncChange>, b: seq<SyncChange>, clock: Clock) {
    Values(PushAll(db, a, clock).notes) == Values(PushAll(db, b, clock).notes)
  }

  ghost predicate OrderIrrelevant(db: Db, changes: seq<SyncChange>, clock: Clock) {
    forall other | multiset(other) == multiset(changes) :: SameOutcome(db, other, changes, clock)
  }

  /** Every order of a batch gives the same note values exactly when no two of its newest changes for an id conflict. */
  lemma OrderIrrelevantIff(db: Db, changes: seq<SyncChange>, clock: Clock)
    ensures OrderIrrelevant(db, changes, clock) <==> NoTopConflict(db.notes, changes)
  {
    if NoTopConflict(db.notes, changes) {
      forall other | multiset(other) == multiset(changes) ensures SameOutcome(db, other, changes, clock) {
        LastWriterWins(db, other, clock);
        LastWriterWins(db, changes, clock);
        WonValuesAgree(db.notes, other, changes, PushAll(db, other, clock).notes, PushAll(db, changes, clock).notes);
      }
    } else {
      var c, d :| TopConflict(db.notes, changes, c, d);
      var x := ConflictLast(db, changes, c, d, clock);
      var y := ConflictLast(db, changes, d, c, clock);
      assert Values(PushAll(db, x, clock).notes)[c.id] == d;
      assert Values(PushAll(db, y, clock).notes)[c.id] == c;
      assert !(SameOutcome(db, x, changes, clock) && SameOutcome(db, y, changes, clock));
    }
  }

  lemma WonValuesAgree(notes: Table, a: seq<SyncChange>, b: seq<SyncChange>, x: Table, y: Table)
    requires multiset(a) == multiset(b) && NoTopConflict(notes, b)
    requires LastWriterWon(notes, a, x) && LastWriterWon(notes, b, y)
    ensures Values(x) == Values(y)
  {
    SameMembers(a, b);
    WonTimesAgree(notes, a, b, x, y);
    forall id | id in x ensures x[id].note == y[id].note {
      WinnerFacts(notes, a, x, id);
      WinnerFacts(notes, b, y, id);
      assert !TopConflict(notes, b, x[id].note, y[id].note);
    }
  }

  /** Some order of the batch ends with `d` stored. */
  lemma ConflictLast(db: Db, changes: seq<SyncChange>, c: SyncChange, d: SyncChange, clock: Clock)
    returns (other: seq<SyncChange>)
    requires TopConflict(db.notes, changes, c, d)
    ensures multiset(other) == multiset(changes)
    ensures var after := PushAll(db, other, clock).notes; d.id in after && after[d.id].note == d
  {
    var i :| 0 <= i < |changes| && changes[i] == d;
    other := changes[..i] + changes[i + 1..] + [d];
    assert changes == changes[..i] + [d] + changes[i + 1..];
    LastWriterWins(db, other, clock);
    SameMembers(other, changes);
    WonLast(db.notes, other, PushAll(db, other, clock).notes, d);
  }

  /** A last change that nothing beats wins. */
  lemma WonLast(notes: Table, changes: seq<SyncChange>, after: Table, d: SyncChange)
    requires LastWriterWon(notes, changes, after)
    requires changes != [] && changes[|changes| - 1] == d
    requires forall e | e in changes && e.id == d.id :: ChangeTime(e) <= ChangeTime(d)
    requires d.id in notes ==> ChangeTime(notes[d.id].note) <= ChangeTime(d)
    ensures d.id in after && after[d.id].note == d
  {
    assert Settled(notes, changes, after, d.id);
    var all, kept := Candidates(notes, changes, d.id), Existing(notes, d.id);
    ForMembers(changes, d.id);
    forall j | 0 <= j < |all| ensures ChangeTime(all[j]) <= ChangeTime(d) {
      if j >= |kept| { assert all[j] == For(changes, d.id)[j - |kept|]; }
    }
    assert all[|all| - 1] == d;
    LastNewestUnique(d, after[d.id].note, all);
  }

  /** A batch none of whose changes would be accepted does nothing. */
  lemma {:induction false} NothingAccepted(db: Db, changes: seq<SyncChange>, clock: Clock)
    requires forall c | c in changes :: !Accepts(db.notes, c)
    ensures PushAll(db, changes, clock) == db
  {
    if changes != [] {
      NothingAccepted(db, changes[..|changes| - 1], clock);
    }
  }

  /** A batch with a change that would be accepted right away moves the revision on. */
  lemma {:induction false} SomethingAccepted(db: Db, changes: seq<SyncChange>, clock: Clock, c: SyncChange)
    requires c in changes && Accepts(db.notes, c)
    ensures CurrentRevision(PushAll(db, changes, clock).notes) > CurrentRevision(db.notes)
  {
    PushAllocates(db, changes, clock);
    if Accepted(db, changes, clock) == [] {
      NoneTaken(db, changes, clock, c);
    }
  }

  lemma {:induction false} NoneTaken(db: Db, changes: seq<SyncChange>, clock: Clock, c: SyncChange)
    requires c in changes && Accepted(db, changes, clock) == []
    ensures PushAll(db, changes, clock) == db && !Accepts(db.notes, c)
  {
    var n := |changes| - 1;
    if n > 0 { NoneTaken(db, changes[..n], clock, changes[0]); }
    if c != changes[n] {
      assert c in changes[..n];
      NoneTaken(db, changes[..n], clock, c);
    }
  }

  /**
   * Replay: pushing a batch a second time changes nothing at all exactly when no two of
   * its newest changes for an id conflict; otherwise it takes new revisions.
   */
  lemma ReplayIsNoOpIff(db: Db, changes: seq<SyncChange>, clock: Clock, later: Clock)
    ensures var once := PushAll(db, changes, clock);
      && (PushAll(once, changes, later) == once <==> NoTopConflict(db.notes, changes))
      && (!NoTopConflict(db.notes, changes) ==>
           CurrentRevision(PushAll(once, changes, later).notes) > CurrentRevision(once.notes))
  {
    var once := PushAll(db, changes, clock);
    LastWriterWins(db, changes, clock);
    if NoTopConflict(db.notes, changes) {
      forall c | c in changes ensures !Accepts(once.notes, c) {
        WonIds(db.notes, changes, once.notes, c.id);
        WinnerFacts(db.notes, changes, once.notes, c.id);
        assert !TopConflict(db.notes, changes, c, once.notes[c.id].note);
      }
      NothingAccepted(once, changes, later);
    } else {
      var c, d :| TopConflict(db.notes, changes, c, d);
      WonIds(db.notes, changes, once.notes, c.id);
      WinnerFacts(db.notes, changes, once.notes, c.id);
      var loser := if once.notes[c.id].note == c then d else c;
      SomethingAccepted(once, changes, later, loser);
    }
  }

  /** A batch changes nothing at all exactly when no change in it would be accepted as things stand. */
  lemma PushIsNoOpIff(db: Db, changes: seq<SyncChange>, clock: Clock)
    ensures PushAll(db, changes, clock) == db <==> forall c | c in changes :: !Accepts(db.notes, c)
  {
    hide CurrentRevision, PushAll, Accepts;
    if forall c | c in changes :: !Accepts(db.notes, c) {
      NothingAccepted(db, changes, clock);
    } else {
      var c :| c in changes && Accepts(db.notes, c);
      SomethingAccepted(db, changes, clock, c);
    }
  }

  /** The change ties with a stored note that is not the same. */
  ghost predicate TiesWithAnother(notes: Table, c: SyncChange) {
    c.id in notes && ChangeTime(notes[c.id].note) == ChangeTime(c) && notes[c.id].note != c
  }

  /**
   * A late retry: a batch pushed again, after whatever others pushed in between, changes
   * nothing exactly when none of it ties with a different note that is stored by then.
   */
  lemma RetryIsNoOpIff(
    db: Db, changes: seq<SyncChange>, between: seq<SyncChange>, clock: Clock, meanwhile: Clock, later: Clock)
    ensures var state := PushAll(PushAll(db, changes, clock), between, meanwhile);
      PushAll(state, changes, later) == state <==> forall c | c in changes :: !TiesWithAnother(state.notes, c)
  {
    hide PushAll, CurrentRevision, ChangeTime;
    var once := PushAll(db, changes, clock);
    var state := PushAll(once, between, meanwhile);
    LastWriterWins(db, changes, clock);
    forall c | c in changes ensures Accepts(state.notes, c) <==> TiesWithAnother(state.notes, c) {
      WonIds(db.notes, changes, once.notes, c.id);
      WinnerFacts(db.notes, changes, once.notes, c.id);
      PushRaisesTimes(once, between, meanwhile, c.id);
    }
    PushIsNoOpIff(state, changes, later);
  }

  // ----- pushes in terms of the fields

  /**
   * A stored note withstands every change for it that is dated before it. A deletion is
   * dated by its deletion time, and a live note by its last update, whatever other times
   * they carry.
   */
  lemma NoteWithstands(db: Db, request: PushRequest, clock: Clock, id: string)
    requires id in db.notes
    requires forall c | c in request.changes && c.id == id ::
      match (db.notes[id].note.deletedAt, c.deletedAt)
      case (None, None) => c.updatedAt < db.notes[id].note.updatedAt
      case (None, Some(t)) => t < db.notes[id].note.updatedAt
      case (Some(deleted), None) => c.updatedAt < deleted
      case (Some(deleted), Some(t)) => t < deleted
    ensures var after := PushAll(db, Filled(request), clock);
      && id in after.notes && after.notes[id] == db.notes[id]
      && forall x | x in after.snapshots && x.note.id == id :: x in db.snapshots
  {
    var changes := Filled(request);
    forall c | c in changes && c.id == id ensures ChangeTime(c) < ChangeTime(db.notes[id].note) {
      var i :| 0 <= i < |changes| && changes[i] == c;
      assert request.changes[i] in request.changes && c == Incoming(request.changes[i], request.deviceId);
    }
    OlderIsIgnored(db, changes, clock, id);
  }

  lemma {:induction false} OlderIsIgnored(db: Db, changes: seq<SyncChange>, clock: Clock, id: string)
    requires id in db.notes
    requires forall c | c in changes && c.id == id :: ChangeTime(c) < ChangeTime(db.notes[id].note)
    ensures var after := PushAll(db, changes, clock);
      && id in after.notes && after.notes[id] == db.notes[id]
      && forall x | x in after.snapshots && x.note.id == id :: x in db.snapshots
  {
    hide CurrentRevision, ChangeTime;
    if changes != [] {
      var n := |changes| - 1;
      assert changes[n] in changes && forall c | c in changes[..n] :: c in changes;
      OlderIsIgnored(db, changes[..n], clock, id);
    }
  }

  /**
   * A change dated after the stored note, or of a new note, replaces it: with the device
   * id of the request if it has none, at the next revision, and into the history.
   */
  lemma NewerReplaces(db: Db, request: PushRequest, clock: Clock, c: SyncChange)
    requires request.changes == [c]
    requires c.id in db.notes ==>
      match (db.notes[c.id].note.deletedAt, c.deletedAt)
      case (None, None) => c.updatedAt > db.notes[c.id].note.updatedAt
      case (None, Some(t)) => t > db.notes[c.id].note.updatedAt
      case (Some(deleted), None) => c.updatedAt > deleted
      case (Some(deleted), Some(t)) => t > deleted
    ensures var stored := if AllWhitespace(c.deviceId) then c.(deviceId := request.deviceId) else c;
      var revision := CurrentRevision(db.notes) + 1;
      PushAll(db, Filled(request), clock) ==
        Db(db.notes[c.id := Row(stored, revision)], db.snapshots + [Snapshot(stored, revision, clock(revision))])
  {
    hide CurrentRevision, PushAll, Filled, AllWhitespace, IsBlank;
    FilledOne(request, c);
    var stored := Incoming(c, request.deviceId);
    NothingPushed(db, clock);
    assert [stored] == [] + [stored];
    PushStores(db, [], stored, clock);
  }

  lemma FilledOne(request: PushRequest, c: SyncChange)
    requires request.changes == [c]
    ensures Filled(request) == [Incoming(c, request.deviceId)]
    ensures Incoming(c, request.deviceId) ==
            if AllWhitespace(c.deviceId) then c.(deviceId := request.deviceId) else c
  {
    BlankIsAllWhitespace(c.deviceId);
  }

  /** Of two changes at the same time the later push wins, unless it is the very note that is stored. */
  lemma TieReplacesIff(db: Db, request: PushRequest, clock: Clock, c: SyncChange)
    requires request.changes == [c] && c.id in db.notes
    requires
      match (db.notes[c.id].note.deletedAt, c.deletedAt)
      case (None, None) => c.updatedAt == db.notes[c.id].note.updatedAt
      case (None, Some(t)) => t == db.notes[c.id].note.updatedAt
      case (Some(deleted), None) => c.updatedAt == deleted
      case (Some(deleted), Some(t)) => t == deleted
    ensures var stored := if AllWhitespace(c.deviceId) then c.(deviceId := request.deviceId) else c;
      var revision := CurrentRevision(db.notes) + 1;
      PushAll(db, Filled(request), clock) ==
        if stored == db.notes[c.id].note then db
        else Db(db.notes[c.id := Row(stored, revision)], db.snapshots + [Snapshot(stored, revision, clock(revision))])
  {
    hide CurrentRevision, PushAll, Filled, AllWhitespace, IsBlank;
    FilledOne(request, c);
    var stored := Incoming(c, request.deviceId);
    NothingPushed(db, clock);
    assert [stored] == [] + [stored];
    if stored == db.notes[c.id].note {
      PushSkips(db, [], stored, clock);
    } else {
      PushStores(db, [], stored, clock);
    }
  }

  /** A push never lowers a note's change time, and replaces a note only by a change of the batch at least as new. */
  lemma {:induction false} PushRaisesTimes(db: Db, changes: seq<SyncChange>, clock: Clock, id: string)
    requires id in db.notes
    ensures var after := PushAll(db, changes, clock).notes;
      && id in after && ChangeTime(db.notes[id].note) <= ChangeTime(after[id].note)
      && (after[id].note == db.notes[id].note || (after[id].note in changes && after[id].note.id == id))
  {
    var after := PushAll(db, changes, clock).notes;
    LastWriterWins(db, changes, clock);
    WonIds(db.notes, changes, after, id);
    WinnerFacts(db.notes, changes, after, id);
  }
}
