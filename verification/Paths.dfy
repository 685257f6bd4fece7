/** Unix paths as `std::path` compares them: by components. */
module Paths {
  import opened Protocol

  datatype Path = Path(absolute: bool, parts: seq<string>)

  /** A component holds no separator and is not empty; "." survives only at the head of a relative path. */
  ghost predicate WellFormed(p: Path) {
    forall i | 0 <= i < |p.parts| ::
      p.parts[i] != "" && '/' !in p.parts[i] && (p.parts[i] == "." ==> i == 0 && !p.absolute)
  }

  // ----- text

  function Joined(parts: seq<string>): string {
    if parts == [] then ""
    else if |parts| == 1 then parts[0]
    else parts[0] + "/" + Joined(parts[1..])
  }

  function Render(p: Path): string {
    if p.absolute then "/" + Joined(p.parts) else Joined(p.parts)
  }

  function Split(s: string): (pieces: seq<string>)
    ensures pieces != []
  {
    if s == "" then [""]
    else
      var rest := Split(s[1..]);
      if s[0] == '/' then [""] + rest else [[s[0]] + rest[0]] + rest[1..]
  }

  function Kept(pieces: seq<string>): seq<string> {
    if pieces == [] then []
    else (if pieces[0] == "" || pieces[0] == "." then [] else [pieces[0]]) + Kept(pieces[1..])
  }

  function ParsePath(s: string): Path {
    var pieces := Split(s);
    if s != "" && s[0] == '/' then Path(true, Kept(pieces))
    else if pieces[0] == "." then Path(false, ["."] + Kept(pieces[1..]))
    else Path(false, Kept(pieces))
  }

  lemma {:induction false} SplitPlain(a: string)
    requires '/' !in a
    ensures Split(a) == [a]
  {
    if a != "" {
      assert a[0] in a;
      assert forall c | c in a[1..] :: c in a;
      SplitPlain(a[1..]);
      assert [a[0]] + a[1..] == a;
    }
  }

  lemma {:induction false} SplitAtSlash(a: string, s: string)
    requires '/' !in a
    ensures Split(a + "/" + s) == [a] + Split(s)
  {
    var whole := a + "/" + s;
    if a == "" {
      assert whole[1..] == s;
    } else {
      assert a[0] in a && forall c | c in a[1..] :: c in a;
      assert whole[1..] == a[1..] + "/" + s;
      SplitAtSlash(a[1..], s);
      assert [a[0]] + a[1..] == a;
      assert ([a[1..]] + Split(s))[1..] == Split(s);
    }
  }

  lemma {:induction false} SplitJoined(parts: seq<string>)
    requires parts != [] && forall i | 0 <= i < |parts| :: '/' !in parts[i]
    ensures Split(Joined(parts)) == parts
  {
    if |parts| == 1 {
      SplitPlain(parts[0]);
    } else {
      SplitJoined(parts[1..]);
      SplitAtSlash(parts[0], Joined(parts[1..]));
    }
  }

  lemma {:induction false} KeptAll(parts: seq<string>)
    requires forall i | 0 <= i < |parts| :: parts[i] != "" && parts[i] != "."
    ensures Kept(parts) == parts
  {
    if parts != [] {
      KeptAll(parts[1..]);
      assert parts == [parts[0]] + parts[1..];
    }
  }

  lemma JoinedHead(parts: seq<string>)
    requires parts != [] && parts[0] != ""
    ensures Joined(parts) != "" && Joined(parts)[0] == parts[0][0]
  {}

  /** Reading back the text of a path gives the path. */
  lemma ParseRender(p: Path)
    requires WellFormed(p)
    ensures ParsePath(Render(p)) == p
  {
    if p.parts == [] {
      if p.absolute {
        assert Render(p) == "/" && "/"[1..] == "";
        assert Split("/") == ["", ""];
        assert Kept(["", ""]) == Kept([""]) == Kept([]);
      }
    } else {
      SplitJoined(p.parts);
      JoinedHead(p.parts);
      assert p.parts[0][0] in p.parts[0];
      if p.absolute {
        assert Render(p)[1..] == Joined(p.parts);
        assert ([""] + p.parts)[1..] == p.parts;
        KeptAll(p.parts);
      } else if p.parts[0] == "." {
        KeptAll(p.parts[1..]);
        assert p.parts == ["."] + p.parts[1..];
      } else {
        KeptAll(p.parts);
      }
    }
  }

  lemma {:induction false} SplitHasNoSlash(s: string)
    ensures forall i | 0 <= i < |Split(s)| :: '/' !in Split(s)[i]
  {
    if s != "" {
      SplitHasNoSlash(s[1..]);
    }
  }

  lemma {:induction false} KeptGood(pieces: seq<string>)
    requires forall i | 0 <= i < |pieces| :: '/' !in pieces[i]
    ensures forall i | 0 <= i < |Kept(pieces)| ::
      Kept(pieces)[i] != "" && Kept(pieces)[i] != "." && '/' !in Kept(pieces)[i]
  {
    if pieces != [] {
      KeptGood(pieces[1..]);
    }
  }

  lemma ParseWellFormed(s: string)
    ensures WellFormed(ParsePath(s))
  {
    SplitHasNoSlash(s);
    KeptGood(Split(s));
    KeptGood(Split(s)[1..]);
  }

  // ----- std::path operations

  function Parent(p: Path): Option<Path> {
    if p.parts == [] then None else Some(Path(p.absolute, p.parts[..|p.parts| - 1]))
  }

  function Join(base: Path, p: Path): Path {
    if p.absolute || (!base.absolute && base.parts == []) then p
    else Path(base.absolute, base.parts + if p.parts != [] && p.parts[0] == "." then p.parts[1..] else p.parts)
  }

  function StripPrefix(p: Path, base: Path): Option<Path> {
    if base == Path(false, []) then Some(p)
    else if p.absolute == base.absolute && base.parts <= p.parts then Some(Path(false, p.parts[|base.parts|..]))
    else None
  }

  // ----- the configuration's use of them

  /** Relative paths are taken from the directory of the configuration file. */
  function ResolvePath(configPath: Path, p: Path): Path {
    if p.absolute then p else
      match Parent(configPath)
      case Some(base) => Join(base, p)
      case None => Join(Path(false, ["."]), p)
  }

  /** A path below that directory is stored relative to it. */
  function PathForStorage(configPath: Path, p: Path): string {
    match Parent(configPath)
    case None => Render(p)
    case Some(base) =>
      match StripPrefix(p, base)
      case Some(rest) => if rest.parts != [] then Render(rest) else Render(p)
      case None => Render(p)
  }

  /** A configuration file has a name, and so a directory. */
  ghost predicate IsConfigPath(configPath: Path) {
    WellFormed(configPath) && configPath.parts != []
  }

  function ConfigDir(configPath: Path): Path
    requires configPath.parts != []
  {
    Path(configPath.absolute, configPath.parts[..|configPath.parts| - 1])
  }

  /** The paths resolving can give: absolute ones, and, from a relative directory, those at or below it. */
  ghost predicate IsResolved(configPath: Path, p: Path)
    requires configPath.parts != []
  {
    WellFormed(p) && (p.absolute || (!configPath.absolute && ConfigDir(configPath).parts <= p.parts))
  }

  /** `p` without a leading ".". */
  function Undotted(p: Path): Path {
    if p.parts != [] && p.parts[0] == "." then Path(p.absolute, p.parts[1..]) else p
  }

  /** `IsResolved` is exactly the range of resolving. */
  lemma ResolvedIff(configPath: Path, p: Path)
    requires IsConfigPath(configPath)
    ensures IsResolved(configPath, p) <==> exists q :: WellFormed(q) && ResolvePath(configPath, q) == p
  {
    if IsResolved(configPath, p) {
      var dir := ConfigDir(configPath);
      var q := if p.absolute || dir.parts == [] then p else Path(false, p.parts[|dir.parts|..]);
      TailWellFormed(p, |dir.parts|);
      assert !p.absolute ==> dir.parts + p.parts[|dir.parts|..] == p.parts;
      assert ResolvePath(configPath, q) == p;
    }
    if q :| WellFormed(q) && ResolvePath(configPath, q) == p {
      ResolvedIs(configPath, q);
    }
  }

  lemma TailWellFormed(p: Path, n: nat)
    requires WellFormed(p)
    ensures 0 < n <= |p.parts| ==>
      WellFormed(Path(false, p.parts[n..])) && Undotted(Path(false, p.parts[n..])) == Path(false, p.parts[n..])
  {
    if 0 < n < |p.parts| {
      assert p.parts[n..][0] == p.parts[n];
    }
  }

  /** What is read from a stored path is a resolved one. */
  lemma ResolvedIs(configPath: Path, q: Path)
    requires IsConfigPath(configPath) && WellFormed(q)
    ensures IsResolved(configPath, ResolvePath(configPath, q))
  {
    if !q.absolute {
      var dir, tail := ConfigDir(configPath), Undotted(q).parts;
      assert forall i | 0 <= i < |dir.parts| :: dir.parts[i] == configPath.parts[i];
      assert forall i | 0 <= i < |tail| :: tail[i] != "" && '/' !in tail[i] && tail[i] != ".";
    }
  }

  /**
   * `r` is `p` if that is absolute, and else `p`, without a leading ".", below the
   * directory of the configuration file.
   */
  ghost predicate TakenFrom(configPath: Path, p: Path, r: Path)
    requires configPath.parts != []
  {
    if p.absolute then r == p
    else
      && r.absolute == configPath.absolute
      && var n := |configPath.parts| - 1;
         n <= |r.parts| && r.parts[..n] == configPath.parts[..n]
         && if n > 0 || configPath.absolute then r.parts[n..] == Undotted(p).parts else r.parts == p.parts
  }

  lemma ResolveTakes(configPath: Path, p: Path)
    requires IsConfigPath(configPath)
    ensures forall r :: TakenFrom(configPath, p, r) <==> r == ResolvePath(configPath, p)
  {
    var n, s := |configPath.parts| - 1, ResolvePath(configPath, p);
    assert TakenFrom(configPath, p, s);
    forall r | TakenFrom(configPath, p, r) ensures r == s {
      if !p.absolute {
        assert r.parts == r.parts[..n] + r.parts[n..];
        assert s.parts == s.parts[..n] + s.parts[n..];
      }
    }
  }

  /** What is stored: the part below the directory of the configuration file, or else the whole path. */
  lemma StorageIs(configPath: Path, p: Path)
    requires IsConfigPath(configPath) && WellFormed(p)
    ensures var n := |configPath.parts| - 1;
      PathForStorage(configPath, p) ==
        if n < |p.parts| && p.parts[..n] == configPath.parts[..n] && p.absolute == configPath.absolute
        then Render(Path(false, p.parts[n..])) else Render(p)
  {
    hide Render;
    var n := |configPath.parts| - 1;
    if n == 0 && !configPath.absolute {
      assert p.parts[0..] == p.parts;
    }
  }

  /** The path is the configuration file's own directory, named relative to where the server was started. */
  predicate IsRelativeDir(configPath: Path, p: Path)
    requires configPath.parts != []
  {
    !p.absolute && p == ConfigDir(configPath) && p.parts != [] && p.parts != ["."]
  }

  /**
   * Resolving undoes storing for every resolved path but one: the configuration file's
   * own directory, when that is relative and more than ".".
   */
  lemma ResolveUndoesStorageIff(configPath: Path, p: Path)
    requires IsConfigPath(configPath) && IsResolved(configPath, p)
    ensures ResolvePath(configPath, ParsePath(PathForStorage(configPath, p))) == p <==> !IsRelativeDir(configPath, p)
  {
    hide Render, ParsePath;
    var dir := ConfigDir(configPath);
    if StoredWhole(configPath, p) {
      ParseRender(p);
      if IsRelativeDir(configPath, p) { RelativeDirDoubles(configPath, p); }
    } else {
      var n := |dir.parts|;
      var rest := Path(false, p.parts[n..]);
      RestWellFormed(configPath, p);
      ParseRender(rest);
      assert dir.parts + rest.parts == p.parts;
    }
  }

  /** Absolute paths are always recovered. */
  lemma ResolveUndoesStorage(configPath: Path, p: Path)
    requires IsConfigPath(configPath) && WellFormed(p) && p.absolute
    ensures ResolvePath(configPath, ParsePath(PathForStorage(configPath, p))) == p
  {
    hide ParsePath, PathForStorage;
    ResolveUndoesStorageIff(configPath, p);
  }

  /** Stored as it is: outside the directory, or the directory itself, or below no directory at all. */
  predicate StoredWhole(configPath: Path, p: Path)
    requires configPath.parts != []
  {
    var dir := ConfigDir(configPath);
    || dir == Path(false, [])
    || dir.absolute != p.absolute || !(dir.parts <= p.parts) || p.parts == dir.parts
  }

  lemma RestWellFormed(configPath: Path, p: Path)
    requires IsConfigPath(configPath) && WellFormed(p) && !StoredWhole(configPath, p)
    ensures var rest := Path(false, p.parts[|ConfigDir(configPath).parts|..]);
      WellFormed(rest) && rest.parts != [] && Undotted(rest) == rest
  {
    var n := |ConfigDir(configPath).parts|;
    assert p.parts[n..][0] == p.parts[n];
  }

  /** The case left out: the directory is stored as it is, and then taken from itself, so its name doubles. */
  lemma RelativeDirDoubles(configPath: Path, p: Path)
    requires IsConfigPath(configPath) && IsRelativeDir(configPath, p)
    ensures ResolvePath(configPath, ParsePath(PathForStorage(configPath, p)))
        == Path(false, p.parts + Undotted(p).parts) != p
  {
    assert WellFormed(p) by {
      assert forall i | 0 <= i < |p.parts| :: p.parts[i] == configPath.parts[i];
    }
    ParseRender(p);
    hide Render, ParsePath;
    assert p.parts[|p.parts|..] == [];
  }
}
