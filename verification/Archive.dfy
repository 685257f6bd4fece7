/** Entry names of a downloaded archive: every note gets one of its own. */
module Archive {
  import opened Ordering
  import opened Protocol

  // ----- decimal numbers

  function Digit(d: nat): char
    requires d < 10
  {
    ('0' as int + d) as char
  }

  /** A suffix as `format!` writes it. */
  function Decimal(n: nat): string {
    if n < 10 then [Digit(n)] else Decimal(n / 10) + [Digit(n % 10)]
  }

  lemma DecimalLength(n: nat)
    ensures |Decimal(n)| >= if n < 10 then 1 else 2
  {}

  /** The number a string of digits stands for. */
  function Number(s: string): int {
    if s == [] then 0 else 10 * Number(s[..|s| - 1]) + (s[|s| - 1] as int - '0' as int)
  }

  /** `Decimal` writes that number, in decimal digits, without leading zeros. */
  lemma {:induction false} DecimalIs(n: nat)
    ensures Number(Decimal(n)) == n && (forall c | c in Decimal(n) :: '0' <= c <= '9')
    ensures n > 0 ==> Decimal(n)[0] != '0'
  {
    if n < 10 {
      assert Decimal(n)[..0] == [] && Number([]) == 0;
    } else {
      DecimalIs(n / 10);
      var s := Decimal(n);
      assert s[..|s| - 1] == Decimal(n / 10);
      DecimalLength(n / 10);
    }
  }

  lemma {:induction false} DecimalInjective(a: nat, b: nat)
    requires Decimal(a) == Decimal(b)
    ensures a == b
  {
    var s := Decimal(a);
    assert s[|s| - 1] == Digit(a % 10) == Digit(b % 10);
    DecimalLength(a);
    DecimalLength(b);
    if a >= 10 {
      assert s[..|s| - 1] == Decimal(a / 10) == Decimal(b / 10);
      DecimalInjective(a / 10, b / 10);
    }
  }

  // ----- candidate names

  function LastDot(s: string): (i: int)
    ensures -1 <= i < |s|
    ensures i >= 0 ==> s[i] == '.'
    ensures forall j | i < j < |s| :: s[j] != '.'
  {
    if s == [] then -1
    else if s[|s| - 1] == '.' then |s| - 1
    else LastDot(s[..|s| - 1])
  }

  /** Stem and extension around the last dot; a name with no dot, or only a leading one, is all stem. */
  function SplitName(name: string): (string, Option<string>) {
    var dot := LastDot(name);
    if dot > 0 then (name[..dot], Some(name[dot + 1..])) else (name, None)
  }

  /** What follows the suffix. */
  function Tail(extension: Option<string>): string {
    match extension
    case Some(e) => "." + e
    case None => ""
  }

  function Numbered(stem: string, extension: Option<string>, suffix: nat): string {
    stem + "-" + Decimal(suffix) + Tail(extension)
  }

  function Candidate(name: string, suffix: nat): string {
    var (stem, extension) := SplitName(name);
    Numbered(stem, extension, suffix)
  }

  /** The suffix goes before the extension, which is what follows the last dot of a name that does not begin with it. */
  lemma CandidateWithExtension(stem: string, extension: string, suffix: nat)
    requires stem != "" && '.' !in extension
    ensures Candidate(stem + "." + extension, suffix) == stem + "-" + Decimal(suffix) + "." + extension
  {
    hide Decimal;
    var name := stem + "." + extension;
    assert name[|stem|] == '.';
    assert forall j | |stem| < j < |name| :: name[j] == extension[j - |stem| - 1];
    assert name[..|stem|] == stem && name[|stem| + 1..] == extension;
    assert LastDot(name) == |stem|;
    assert stem + "-" + Decimal(suffix) + ("." + extension) == stem + "-" + Decimal(suffix) + "." + extension;
  }

  /** Without one it goes to the end. */
  lemma CandidateWithout(name: string, suffix: nat)
    requires forall j | 1 <= j < |name| :: name[j] != '.'
    ensures Candidate(name, suffix) == name + "-" + Decimal(suffix)
  {
    hide Decimal;
    assert LastDot(name) <= 0;
    assert name + "-" + Decimal(suffix) + "" == name + "-" + Decimal(suffix);
  }

  lemma MiddleEqual(head: string, a: string, b: string, tail: string)
    requires head + a + tail == head + b + tail
    ensures a == b
  {
    var s := head + a + tail;
    assert |a| == |b|;
    forall i | 0 <= i < |a| ensures a[i] == b[i] {
      assert s[|head| + i] == a[i];
    }
  }

  /** Different suffixes give different names, and none gives the name itself. */
  lemma CandidatesDiffer(name: string, a: nat, b: nat)
    ensures Candidate(name, a) == Candidate(name, b) ==> a == b
    ensures Candidate(name, a) != name
  {
    var (stem, extension) := SplitName(name);
    SplitLength(name);
    hide SplitName, Tail, Decimal;
    DecimalLength(a);
    if Candidate(name, a) == Candidate(name, b) {
      MiddleEqual(stem + "-", Decimal(a), Decimal(b), Tail(extension));
      DecimalInjective(a, b);
    }
  }

  lemma SplitLength(name: string)
    ensures var (stem, extension) := SplitName(name); |name| == |stem| + |Tail(extension)|
  {}

  // ----- the choice

  /** Every suffix from 2 up to, not including, `suffix` is taken. */
  ghost predicate TakenBelow(used: set<string>, name: string, suffix: nat) {
    forall j | 2 <= j < suffix :: Candidate(name, j) in used
  }

  /** What a name gets: itself if free, or else its first free suffix. */
  ghost predicate Chosen(used: set<string>, name: string, entry: string) {
    && entry !in used
    && if name !in used then entry == name
       else exists k :: 2 <= k <= |used| + 1 && entry == Candidate(name, k) && TakenBelow(used, name, k)
  }

  lemma Taken(used: set<string>, name: string, i: nat, j: nat)
    requires TakenBelow(used, name, j) && 2 <= i
    ensures i < j ==> Candidate(name, i) in used
  {}

  lemma ChosenUnique(used: set<string>, name: string, a: string, b: string)
    requires Chosen(used, name, a) && Chosen(used, name, b)
    ensures a == b
  {
    hide Candidate;
    if name in used {
      var i: nat :| 2 <= i <= |used| + 1 && a == Candidate(name, i) && TakenBelow(used, name, i);
      var j: nat :| 2 <= j <= |used| + 1 && b == Candidate(name, j) && TakenBelow(used, name, j);
      Taken(used, name, i, j);
      Taken(used, name, j, i);
    }
  }

  /** Pigeonhole: the taken suffixes, and the name itself, are that many different used names. */
  lemma {:induction false} TakenFit(used: set<string>, name: string, suffix: nat)
    requires name in used && suffix >= 2 && TakenBelow(used, name, suffix)
    ensures suffix <= |used| + 1
    decreases suffix
  {
    if suffix > 2 {
      var last := Candidate(name, suffix - 1);
      CandidatesDiffer(name, suffix - 1, 0);
      forall j | 2 <= j < suffix - 1 ensures Candidate(name, j) in used - {last} {
        CandidatesDiffer(name, j, suffix - 1);
      }
      TakenFit(used - {last}, name, suffix - 1);
    }
  }

  class UsedNames {
    var names: set<string>

    constructor ()
      ensures names == {}
    {
      names := {};
    }

    /** `HashSet::insert`: adds the name, and tells whether it was new. */
    method Insert(name: string) returns (added: bool)
      modifies this
      ensures names == old(names) + {name} && (added <==> name !in old(names))
    {
      added := name !in names;
      names := names + {name};
    }

    /** The search ends, after at most as many tries as there are used names, on the first free name. */
    method Unique(fileName: string) returns (entry: string)
      modifies this
      ensures Chosen(old(names), fileName, entry) && names == old(names) + {entry}
    {
      var added := Insert(fileName);
      if added {
        return fileName;
      }
      hide Numbered, SplitName;
      ghost var used := old(names);
      assert names == used;
      var (stem, extension) := SplitName(fileName);
      var suffix := 2;
      TakenFit(used, fileName, suffix);
      while true
        invariant names == used && 2 <= suffix <= |used| + 1 && TakenBelow(used, fileName, suffix)
        decreases |used| + 1 - suffix
      {
        var candidate := Numbered(stem, extension, suffix);
        assert candidate == Candidate(fileName, suffix);
        added := Insert(candidate);
        if added {
          return candidate;
        }
        assert names == used;
        suffix := suffix + 1;
        TakenFit(used, fileName, suffix);
      }
    }
  }

  ghost function Elements(q: seq<string>): set<string> {
    set x | x in q
  }

  ghost predicate AllChosen(fileNames: seq<string>, entries: seq<string>) {
    |entries| == |fileNames| && forall i | 0 <= i < |entries| ::
      Chosen(Elements(entries[..i]), fileNames[i], entries[i])
  }

  lemma NoneChosen()
    ensures AllChosen([], []) && NoRepeats<string>([]) && Elements([]) == {}
  {}

  lemma AllChosenSnoc(fileNames: seq<string>, entries: seq<string>, fileName: string, entry: string)
    requires AllChosen(fileNames, entries) && NoRepeats(entries) && Chosen(Elements(entries), fileName, entry)
    ensures AllChosen(fileNames + [fileName], entries + [entry]) && NoRepeats(entries + [entry])
    ensures Elements(entries + [entry]) == Elements(entries) + {entry}
  {
    hide Chosen;
    NotAmong(entries, fileName, entry);
    var more := entries + [entry];
    assert more[..|entries|] == entries;
    forall i | 0 <= i < |more| ensures Chosen(Elements(more[..i]), (fileNames + [fileName])[i], more[i]) {
      if i < |entries| { assert more[..i] == entries[..i]; }
    }
  }

  lemma NotAmong(entries: seq<string>, fileName: string, entry: string)
    requires Chosen(Elements(entries), fileName, entry)
    ensures entry !in entries
  {}

  /** Entry names are pairwise distinct, and each is the choice for its download given the ones before. */
  method ArchiveNames(fileNames: seq<string>) returns (entries: seq<string>)
    ensures NoRepeats(entries) && AllChosen(fileNames, entries)
  {
    hide AllChosen, NoRepeats, Chosen, Elements;
    var used := new UsedNames();
    entries := [];
    NoneChosen();
    var i := 0;
    while i < |fileNames|
      invariant 0 <= i <= |fileNames| && |entries| == i && NoRepeats(entries)
      invariant used.names == Elements(entries) && fresh(used)
      invariant AllChosen(fileNames[..i], entries)
    {
      var entry := used.Unique(fileNames[i]);
      AllChosenSnoc(fileNames[..i], entries, fileNames[i], entry);
      assert fileNames[..i + 1] == fileNames[..i] + [fileNames[i]];
      entries := entries + [entry];
      i := i + 1;
    }
    assert fileNames[..|fileNames|] == fileNames;
  }

  lemma AllChosenPrefix(fileNames: seq<string>, entries: seq<string>)
    requires AllChosen(fileNames, entries) && entries != []
    ensures AllChosen(fileNames[..|entries| - 1], entries[..|entries| - 1])
  {
    hide Chosen, Elements;
    var n := |entries| - 1;
    forall i | 0 <= i < n ensures Chosen(Elements(entries[..n][..i]), fileNames[..n][i], entries[..n][i]) {
      assert entries[..n][..i] == entries[..i];
    }
  }

  /** The names handed out are determined by the downloads alone. */
  lemma {:induction false} ArchiveNamesUnique(fileNames: seq<string>, a: seq<string>, b: seq<string>)
    requires AllChosen(fileNames, a) && AllChosen(fileNames, b)
    ensures a == b
  {
    hide Chosen, Elements;
    if a != [] {
      var n := |a| - 1;
      AllChosenPrefix(fileNames, a);
      AllChosenPrefix(fileNames, b);
      ArchiveNamesUnique(fileNames[..n], a[..n], b[..n]);
      ChosenUnique(Elements(a[..n]), fileNames[n], a[n], b[n]);
    }
  }
}
