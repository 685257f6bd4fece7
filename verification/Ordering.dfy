/** ORDER BY and `sort`: the one ascending listing of a finite set. */
module Ordering {
  import opened Text

  ghost predicate TotalOn<T(!new)>(s: set<T>, less: (T, T) -> bool) {
    && (forall x | x in s :: !less(x, x))
    && (forall x, y | x in s && y in s && x != y :: less(x, y) || less(y, x))
    && (forall x, y, z | x in s && y in s && z in s && less(x, y) && less(y, z) :: less(x, z))
  }

  ghost predicate Ascending<T(!new)>(q: seq<T>, less: (T, T) -> bool) {
    forall i, j | 0 <= i < j < |q| :: less(q[i], q[j])
  }

  ghost predicate Lists<T(!new)>(q: seq<T>, s: set<T>) {
    forall x :: x in q <==> x in s
  }

  predicate IsLeast<T(==, !new)>(m: T, s: set<T>, less: (T, T) -> bool) {
    m in s && forall x | x in s :: x != m ==> less(m, x)
  }

  lemma {:induction false} LeastExists<T(!new)>(s: set<T>, less: (T, T) -> bool)
    requires s != {} && TotalOn(s, less)
    ensures exists m :: IsLeast(m, s, less)
    decreases |s|
  {
    var x :| x in s;
    if s == {x} {
      assert IsLeast(x, s, less);
    } else {
      var rest := s - {x};
      assert s == rest + {x};
      LeastExists(rest, less);
      var m :| IsLeast(m, rest, less);
      assert IsLeast(if less(x, m) then x else m, s, less);
    }
  }

  lemma LeastFirst<T(!new)>(m: T, rest: seq<T>, s: set<T>, less: (T, T) -> bool)
    requires IsLeast(m, s, less) && Lists(rest, s - {m}) && Ascending(rest, less)
    ensures Ascending([m] + rest, less)
  {
    var q := [m] + rest;
    forall i, j | 0 <= i < j < |q| ensures less(q[i], q[j]) {
      assert q[j] == rest[j - 1] && rest[j - 1] in rest;
    }
  }

  /** The elements of `s`, each once, in ascending order. */
  function SortBy<T(==, !new)>(s: set<T>, less: (T, T) -> bool): (r: seq<T>)
    requires TotalOn(s, less)
    ensures Lists(r, s) && |r| == |s|
    decreases |s|
  {
    if s == {} then [] else
      LeastExists(s, less);
      var m :| m in s && IsLeast(m, s, less);
      [m] + SortBy(s - {m}, less)
  }

  lemma {:induction false} SortByAscends<T(!new)>(s: set<T>, less: (T, T) -> bool)
    requires TotalOn(s, less)
    ensures Ascending(SortBy(s, less), less)
    decreases |s|
  {
    if s != {} {
      LeastExists(s, less);
      var m :| m in s && IsLeast(m, s, less) && SortBy(s, less) == [m] + SortBy(s - {m}, less);
      SortByAscends(s - {m}, less);
      LeastFirst(m, SortBy(s - {m}, less), s, less);
    }
  }

  /** Two ascending listings of the same set are the same sequence. */
  lemma {:induction false} AscendingUnique<T(!new)>(p: seq<T>, q: seq<T>, s: set<T>, less: (T, T) -> bool)
    requires TotalOn(s, less) && Lists(p, s) && Lists(q, s)
    requires Ascending(p, less) && Ascending(q, less)
    ensures p == q
    decreases |p|
  {
    assert q != [] ==> q[0] in q && q[0] in p;
    if p != [] {
      assert p[0] in p && p[0] in q;
      assert p[0] == q[0];
      var x := p[0];
      TailLists(p, s, less);
      TailLists(q, s, less);
      AscendingUnique(p[1..], q[1..], s - {x}, less);
      assert p == [x] + p[1..] && q == [x] + q[1..];
    }
  }

  lemma TailLists<T(!new)>(q: seq<T>, s: set<T>, less: (T, T) -> bool)
    requires q != [] && Lists(q, s) && Ascending(q, less) && TotalOn(s, less)
    ensures Lists(q[1..], s - {q[0]})
  {
    forall x | x in q[1..] ensures x in s - {q[0]} {
      var i :| 0 <= i < |q[1..]| && q[1..][i] == x;
      assert q[i + 1] == x && less(q[0], x);
      assert q[0] in q && x in q;
    }
    forall x | x in s - {q[0]} ensures x in q[1..] {
      var i :| 0 <= i < |q| && q[i] == x;
      assert q[1..][i - 1] == x;
    }
  }

  lemma SortByIsTheListing<T(!new)>(s: set<T>, less: (T, T) -> bool, q: seq<T>)
    requires TotalOn(s, less) && Lists(q, s) && Ascending(q, less)
    ensures q == SortBy(s, less)
  {
    SortByAscends(s, less);
    AscendingUnique(q, SortBy(s, less), s, less);
  }

  lemma StrLessTotalOn(s: set<string>)
    ensures TotalOn(s, StrLess)
  {
    forall x ensures !StrLess(x, x) { StrLessIrreflexive(x); }
    forall x: string, y: string | x != y ensures StrLess(x, y) || StrLess(y, x) { StrLessConnected(x, y); }
    forall x, y, z | StrLess(x, y) && StrLess(y, z) ensures StrLess(x, z) { StrLessTransitive(x, y, z); }
  }

  /** Sorted ids: a set of strings in `Ord` order. */
  function SortedIds(ids: set<string>): (r: seq<string>)
    ensures Lists(r, ids) && |r| == |ids|
  {
    StrLessTotalOn(ids);
    SortBy(ids, StrLess)
  }

  /** No element occurs twice. */
  predicate NoRepeats<T(==)>(q: seq<T>) {
    q != [] ==> var n := |q| - 1; NoRepeats(q[..n]) && q[n] !in q[..n]
  }

  lemma {:induction false} AscendingNoRepeats<T(!new)>(q: seq<T>, s: set<T>, less: (T, T) -> bool)
    requires Ascending(q, less) && TotalOn(s, less) && forall x | x in q :: x in s
    ensures NoRepeats(q)
  {
    if q != [] {
      var n := |q| - 1;
      assert forall x | x in q[..n] :: x in q;
      AscendingNoRepeats(q[..n], s, less);
      assert q[n] in q;
      forall i | 0 <= i < n ensures q[i] != q[n] {
        assert less(q[i], q[n]);
      }
    }
  }

  lemma SortedIdsAscend(ids: set<string>)
    ensures Ascending(SortedIds(ids), StrLess)
  {
    StrLessTotalOn(ids);
    SortByAscends(ids, StrLess);
  }

  lemma SortedIdsNoRepeats(ids: set<string>)
    ensures NoRepeats(SortedIds(ids))
  {
    StrLessTotalOn(ids);
    SortByAscends(ids, StrLess);
    AscendingNoRepeats(SortedIds(ids), ids, StrLess);
  }

  /** Without repeats, different places hold different elements. */
  lemma {:induction false} NoRepeatsInjective<T>(q: seq<T>, i: nat, j: nat)
    requires NoRepeats(q) && i < j < |q|
    ensures q[i] != q[j]
  {
    var n := |q| - 1;
    if j < n {
      NoRepeatsInjective(q[..n], i, j);
    } else {
      assert q[i] == q[..n][i];
    }
  }
}
