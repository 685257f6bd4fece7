/** The two SQLite tables of the store, as values. */
module Tables {
  import opened Protocol

  datatype Row = Row(note: SyncChange, revision: nat)

  /** The `notes` table by its primary key. */
  type Table = map<string, Row>

  /** The key of a row is its `id` column. */
  ghost predicate Keyed(notes: Table) {
    forall id {:trigger notes[id]} | id in notes :: notes[id].note.id == id
  }

  /** A `note_snapshots` row. Its AUTOINCREMENT id is its position: rows are only ever appended. */
  datatype Snapshot = Snapshot(note: SyncChange, revision: nat, capturedAt: Time)

  datatype Db = Db(notes: Table, snapshots: seq<Snapshot>)

  function Values(notes: Table): map<string, SyncChange> {
    if notes == map[] then map[] else map id | id in notes :: notes[id].note
  }

  function Revisions(notes: Table): set<nat> {
    set id | id in notes :: notes[id].revision
  }

  predicate IsMax(m: nat, s: set<nat>) {
    forall r | r in s :: r <= m
  }

  lemma {:induction false} MaxExists(s: set<nat>)
    requires s != {}
    ensures exists m :: m in s && IsMax(m, s)
  {
    var x :| x in s;
    if s == {x} {
      assert x in s && IsMax(x, s);
    } else {
      MaxExists(s - {x});
      var m :| m in s - {x} && IsMax(m, s - {x});
      var top := if m < x then x else m;
      assert top in s && IsMax(top, s) by {
        assert s == s - {x} + {x};
      }
    }
  }

  function Greatest(s: set<nat>): nat
    requires s != {}
  {
    MaxExists(s);
    var m :| m in s && IsMax(m, s); m
  }

  /** SELECT COALESCE(MAX(revision), 0) FROM notes. */
  function CurrentRevision(notes: Table): nat {
    Greatest(Revisions(notes) + {0})
  }

  lemma AtMostCurrent(notes: Table)
    ensures forall id | id in notes :: notes[id].revision <= CurrentRevision(notes)
  {
    var s := Revisions(notes) + {0};
    assert IsMax(CurrentRevision(notes), s);
    forall id | id in notes ensures notes[id].revision <= CurrentRevision(notes) {
      assert notes[id].revision in s;
    }
  }

  lemma CurrentIsTaken(notes: Table)
    ensures CurrentRevision(notes) == 0 || exists id :: id in notes && notes[id].revision == CurrentRevision(notes)
  {
    assert CurrentRevision(notes) in Revisions(notes) + {0};
  }

  lemma CurrentRevisionIs(notes: Table, m: nat)
    requires forall id | id in notes :: notes[id].revision <= m
    requires m == 0 || exists id :: id in notes && notes[id].revision == m
    ensures CurrentRevision(notes) == m
  {
    AtMostCurrent(notes);
    CurrentIsTaken(notes);
  }

  // ----- what every reachable database satisfies

  /** Two ids share a revision. */
  ghost predicate Clash(notes: Table, a: string, b: string) {
    a in notes && b in notes && a != b && notes[a].revision == notes[b].revision
  }

  /** Live revisions are positive and pairwise distinct. */
  ghost predicate RevisionsAllocated(notes: Table) {
    && (forall id {:trigger notes[id]} | id in notes :: notes[id].revision > 0)
    && (forall a, b :: !Clash(notes, a, b))
  }

  /** Every snapshot is of a live id, at a revision not above the live one. */
  ghost predicate SnapshotsBounded(db: Db) {
    forall s | s in db.snapshots ::
      s.note.id in db.notes && 0 < s.revision <= db.notes[s.note.id].revision
  }

  ghost predicate SnapshotsDistinct(snapshots: seq<Snapshot>) {
    forall i, j | 0 <= i < j < |snapshots| :: snapshots[i].revision != snapshots[j].revision
  }

  ghost predicate CoversRow(snapshots: seq<Snapshot>, row: Row) {
    exists i :: 0 <= i < |snapshots| && snapshots[i].note == row.note && snapshots[i].revision == row.revision
  }

  /** Every live row has its snapshot. */
  ghost predicate HistoryCovers(db: Db) {
    forall id {:trigger CoversRow(db.snapshots, db.notes[id])} | id in db.notes :: CoversRow(db.snapshots, db.notes[id])
  }

  ghost predicate Valid(db: Db) {
    && Keyed(db.notes)
    && RevisionsAllocated(db.notes)
    && SnapshotsBounded(db)
    && SnapshotsDistinct(db.snapshots)
    && HistoryCovers(db)
  }

  lemma ValidIsKeyed(db: Db)
    requires Valid(db)
    ensures Keyed(db.notes)
  {}

  // ----- the relation every step keeps

  /**
   * `later` continues `earlier`: no id has left the table, the revision has not gone
   * down, and every row at or below the earlier revision is an unchanged earlier row.
   * So no revision that was ever current is given to anything new.
   */
  ghost predicate Extends(earlier: Db, later: Db) {
    && earlier.notes.Keys <= later.notes.Keys
    && CurrentRevision(earlier.notes) <= CurrentRevision(later.notes)
    && forall id | id in later.notes && later.notes[id].revision <= CurrentRevision(earlier.notes) ::
         id in earlier.notes && earlier.notes[id] == later.notes[id]
  }

  /** The same for the history: every later snapshot at or below the earlier revision is an earlier snapshot. */
  ghost predicate HistoryExtends(earlier: Db, later: Db) {
    forall x | x in later.snapshots && x.revision <= CurrentRevision(earlier.notes) :: x in earlier.snapshots
  }

  lemma HistoryExtendsTransitive(a: Db, b: Db, c: Db)
    requires CurrentRevision(a.notes) <= CurrentRevision(b.notes)
    requires HistoryExtends(a, b) && HistoryExtends(b, c)
    ensures HistoryExtends(a, c)
  {
    hide CurrentRevision;
  }

  lemma ExtendsTransitive(a: Db, b: Db, c: Db)
    requires Extends(a, b) && Extends(b, c)
    ensures Extends(a, c)
  {}

  /** Every row carries a revision above `revision`. */
  ghost predicate AllAbove(notes: Table, revision: nat) {
    forall id {:trigger notes[id]} | id in notes :: notes[id].revision > revision
  }

  /** Distinct revisions above `low` leave no more ids than there are revisions in between. */
  lemma {:induction false} IdsBetween(notes: Table, low: nat, high: nat)
    requires RevisionsAllocated(notes) && AllAbove(notes, low) && low <= high
    requires forall id | id in notes :: notes[id].revision <= high
    ensures |notes.Keys| <= high - low
    decreases high
  {
    if low == high {
      if id :| id in notes { assert false; }
      assert notes.Keys == {};
    } else if id :| id in notes && notes[id].revision == high {
      var rest := notes - {id};
      forall a, b ensures !Clash(rest, a, b) { assert !Clash(notes, a, b); }
      forall other | other in rest ensures rest[other].revision <= high - 1 { assert !Clash(notes, id, other); }
      assert notes.Keys == rest.Keys + {id};
      IdsBetween(rest, low, high - 1);
    } else {
      IdsBetween(notes, low, high - 1);
    }
  }

  /** Distinct positive revisions leave no more ids than the revision counts. */
  lemma IdsAtMostRevision(notes: Table)
    requires RevisionsAllocated(notes)
    ensures |notes.Keys| <= CurrentRevision(notes)
  {
    AtMostCurrent(notes);
    IdsBetween(notes, 0, CurrentRevision(notes));
  }
}
