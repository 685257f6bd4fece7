/** Strings as the server compares and trims them. */
module Text {

  /** The Unicode White_Space characters, which `str::trim` removes. */
  predicate IsWhitespace(c: char) {
    var n := c as int;
    || 0x9 <= n <= 0xD || n == 0x20 || n == 0x85 || n == 0xA0 || n == 0x1680
    || 0x2000 <= n <= 0x200A || n == 0x2028 || n == 0x2029 || n == 0x202F || n == 0x205F || n == 0x3000
  }

  /** There are 25 of them. */
  lemma WhitespaceIs(c: char)
    ensures IsWhitespace(c) <==>
      c as int in {9, 10, 11, 12, 13, 32, 133, 160, 5760, 8192, 8193, 8194, 8195, 8196, 8197, 8198, 8199, 8200, 8201,
                   8202, 8232, 8233, 8239, 8287, 12288}
  {}

  function TrimStart(s: string): string {
    if s != [] && IsWhitespace(s[0]) then TrimStart(s[1..]) else s
  }

  function TrimEnd(s: string): string {
    if s != [] && IsWhitespace(s[|s| - 1]) then TrimEnd(s[..|s| - 1]) else s
  }

  function Trim(s: string): string {
    TrimEnd(TrimStart(s))
  }

  predicate IsBlank(s: string) {
    Trim(s) == ""
  }

  predicate IsTrimmed(s: string) {
    s == [] || (!IsWhitespace(s[0]) && !IsWhitespace(s[|s| - 1]))
  }

  lemma TrimStartHead(s: string)
    ensures var t := TrimStart(s); t == [] || !IsWhitespace(t[0])
  {}

  lemma TrimEndEnds(s: string)
    ensures var t := TrimEnd(s); (t == [] || !IsWhitespace(t[|t| - 1])) && t <= s
  {}

  /** Trimming gives a trimmed string, and leaves a trimmed string alone. */
  lemma TrimIsProjection(s: string)
    ensures IsTrimmed(Trim(s))
    ensures IsTrimmed(s) ==> Trim(s) == s
    ensures Trim(Trim(s)) == Trim(s)
  {
    TrimStartHead(s);
    TrimEndEnds(TrimStart(s));
  }

  predicate AllWhitespace(s: string) {
    forall i :: 0 <= i < |s| ==> IsWhitespace(s[i])
  }

  /** A string is blank exactly when all of it is white space. */
  lemma {:induction false} BlankIsAllWhitespace(s: string)
    ensures IsBlank(s) <==> AllWhitespace(s)
  {
    if s != [] {
      if IsWhitespace(s[0]) {
        BlankIsAllWhitespace(s[1..]);
        assert s == [s[0]] + s[1..];
      } else {
        assert TrimStart(s) == s;
        TrimEndKeepsHead(s);
      }
    }
  }

  /** Trimming takes white space off both ends, and nothing else. */
  lemma TrimIs(s: string) returns (before: string, after: string)
    ensures s == before + Trim(s) + after && AllWhitespace(before) && AllWhitespace(after) && IsTrimmed(Trim(s))
  {
    before := StartOf(s);
    after := EndOf(TrimStart(s));
    TrimIsProjection(s);
  }

  lemma {:induction false} StartOf(s: string) returns (start: string)
    ensures s == start + TrimStart(s) && AllWhitespace(start)
  {
    start := [];
    if s != [] && IsWhitespace(s[0]) {
      var rest := StartOf(s[1..]);
      start := [s[0]] + rest;
      assert s == [s[0]] + s[1..];
    }
  }

  lemma {:induction false} EndOf(s: string) returns (end: string)
    ensures s == TrimEnd(s) + end && AllWhitespace(end)
  {
    end := [];
    var n := |s| - 1;
    if s != [] && IsWhitespace(s[n]) {
      var rest := EndOf(s[..n]);
      end := rest + [s[n]];
      assert s == s[..n] + [s[n]];
    }
  }

  lemma TrimEndKeepsHead(s: string)
    requires s != [] && !IsWhitespace(s[0])
    ensures TrimEnd(s) != []
  {}

  /** SQLite's one-argument TRIM removes spaces only. */
  function SqlTrim(s: string): string {
    if s != [] && s[0] == ' ' then SqlTrim(s[1..])
    else if s != [] && s[|s| - 1] == ' ' then SqlTrim(s[..|s| - 1])
    else s
  }

  predicate AllSpaces(s: string) {
    forall i :: 0 <= i < |s| ==> s[i] == ' '
  }

  /** It takes spaces off both ends, all of them, and nothing else. */
  lemma {:induction false} SqlTrimIs(s: string) returns (before: string, after: string)
    ensures s == before + SqlTrim(s) + after && AllSpaces(before) && AllSpaces(after)
    ensures var t := SqlTrim(s); t == [] || (t[0] != ' ' && t[|t| - 1] != ' ')
  {
    before, after := [], [];
    var n := |s| - 1;
    if s != [] && s[0] == ' ' {
      before, after := SqlTrimIs(s[1..]);
      before := [' '] + before;
      assert s == [' '] + s[1..];
    } else if s != [] && s[n] == ' ' {
      before, after := SqlTrimIs(s[..n]);
      after := after + [' '];
      assert s == s[..n] + [' '];
    }
  }

  /** `Ord` on `String`: UTF-8 byte order, which is code-point order. */
  predicate StrLess(a: string, b: string) {
    b != [] && (a == [] || a[0] < b[0] || (a[0] == b[0] && StrLess(a[1..], b[1..])))
  }

  /** The first place where two strings differ decides, and a proper prefix comes first. */
  lemma {:induction false} StrLessIff(a: string, b: string)
    ensures StrLess(a, b) <==> exists k: nat :: FirstDifference(a, b, k) && k < |b| && (k < |a| ==> a[k] < b[k])
  {
    if a == [] || b == [] {
      assert FirstDifference(a, b, 0);
      assert forall k: nat :: FirstDifference(a, b, k) ==> k == 0;
    } else if a[0] != b[0] {
      assert FirstDifference(a, b, 0);
      forall k: nat | FirstDifference(a, b, k) ensures k == 0 { SameBefore(a, b, k); }
    } else {
      StrLessIff(a[1..], b[1..]);
      assert !FirstDifference(a, b, 0);
      if k: nat :| FirstDifference(a, b, k) && k < |b| && (k < |a| ==> a[k] < b[k]) {
        DifferenceShifts(a, b, k - 1);
      }
      if k: nat :| FirstDifference(a[1..], b[1..], k) && k < |b[1..]| && (k < |a[1..]| ==> a[1..][k] < b[1..][k]) {
        DifferenceShifts(a, b, k);
      }
    }
  }

  lemma SameBefore(a: string, b: string, k: nat)
    requires FirstDifference(a, b, k)
    ensures k > 0 ==> a[0] == b[0]
  {}

  lemma DifferenceShifts(a: string, b: string, k: nat)
    requires a != [] && b != [] && a[0] == b[0]
    ensures FirstDifference(a, b, k + 1) <==> FirstDifference(a[1..], b[1..], k)
  {
    var c, d := a[1..], b[1..];
    if FirstDifference(a, b, k + 1) {
      forall i | 0 <= i < k ensures c[i] == d[i] { assert c[i] == a[i + 1] && d[i] == b[i + 1]; }
    }
    if FirstDifference(c, d, k) {
      forall i | 0 <= i < k + 1 ensures a[i] == b[i] {
        if i > 0 { assert c[i - 1] == a[i] && d[i - 1] == b[i]; }
      }
    }
  }

  /** The strings agree up to `k`, and one ends there or they differ there. */
  predicate FirstDifference(a: string, b: string, k: nat) {
    k <= |a| && k <= |b| && (forall i | 0 <= i < k :: a[i] == b[i]) && (k < |a| && k < |b| ==> a[k] != b[k])
  }

  lemma StrLessIrreflexive(a: string)
    ensures !StrLess(a, a)
  {}

  lemma StrLessTransitive(a: string, b: string, c: string)
    requires StrLess(a, b) && StrLess(b, c)
    ensures StrLess(a, c)
  {}

  lemma StrLessConnected(a: string, b: string)
    requires a != b
    ensures StrLess(a, b) || StrLess(b, a)
  {
    if a != [] && b != [] && a[0] == b[0] {
      assert a == [a[0]] + a[1..] && b == [b[0]] + b[1..];
      StrLessConnected(a[1..], b[1..]);
    }
  }
}
