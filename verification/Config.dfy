/** The configuration file: its migration to the current form, patches, and what survives a write and a load. */
module Config {
  import opened Text
  import opened Ordering
  import opened Protocol
  import opened Paths

  datatype Result<+T, +E> = Ok(value: T) | Err(error: E)

  datatype ConfigError =
    | InvalidAddress(field: string, address: string)
    | NoAddress(field: string)
    | EmptyField(field: string)
    | EmptyPatch(field: string)

  /** The file as serde reads it; `listen`, `bind` and `token` are legacy names that are never written. */
  datatype StoredConfig = StoredConfig(
    syncListen: seq<string>,
    listen: seq<string>,
    bind: Option<string>,
    dbPath: string,
    exportDir: string,
    logPath: string,
    logLevel: string,
    syncToken: string,
    token: string,
    adminListen: seq<string>,
    adminPasswordHash: Option<string>,
    adminSessionSecret: string)

  datatype ServerConfig = ServerConfig(
    configPath: Path,
    syncListen: seq<string>,
    adminListen: seq<string>,
    dbPath: Path,
    exportDir: Path,
    logPath: Path,
    logLevel: string,
    syncToken: string,
    adminPasswordHash: Option<string>,
    adminSessionSecret: string)

  datatype ConfigPatch = ConfigPatch(
    listen: Option<seq<string>>,
    adminListen: Option<seq<string>>,
    dbPath: Option<Path>,
    exportDir: Option<Path>,
    logPath: Option<Path>,
    logLevel: Option<string>,
    token: Option<string>,
    adminPasswordHash: Option<string>)

  datatype Overrides = Overrides(listen: Option<seq<string>>, dbPath: Option<Path>, token: Option<string>)

  /** The `admin` feature, the socket-address parser, and the two tokens a run would generate. */
  datatype Env = Env(admin: bool, isAddress: string -> bool, newToken: string, newSecret: string)

  const DEFAULT_SYNC_LISTEN := ["0.0.0.0:8787", "[::]:8787"]
  const DEFAULT_ADMIN_LISTEN := ["127.0.0.1:8788", "[::1]:8788"]
  const DEFAULT_DB_PATH := "data/floral-sync.sqlite3"
  const DEFAULT_EXPORT_DIR := "exports"
  const DEFAULT_LOG_PATH := "logs/floral-sync-server.log"
  const DEFAULT_LOG_LEVEL := "info"

  ghost predicate IsToken(s: string) {
    IsTrimmed(s) && s != ""
  }

  /** The parser accepts the built-in addresses, and generated tokens are tokens. */
  ghost predicate EnvOk(env: Env) {
    && (forall a | a in DEFAULT_SYNC_LISTEN :: env.isAddress(a))
    && (forall a | a in DEFAULT_ADMIN_LISTEN :: env.isAddress(a))
    && IsToken(env.newToken) && IsToken(env.newSecret)
  }

  // ----- listen lists

  /** The entries in order, trimmed, without blanks and repeats; or the first that is no address. */
  function Cleaned(env: Env, field: string, listen: seq<string>): Result<seq<string>, ConfigError> {
    if listen == [] then Ok([]) else
      var n := |listen| - 1;
      match Cleaned(env, field, listen[..n])
      case Err(e) => Err(e)
      case Ok(before) =>
        var address := Trim(listen[n]);
        if address == "" then Ok(before)
        else if !env.isAddress(address) then Err(InvalidAddress(field, address))
        else if address in before then Ok(before)
        else Ok(before + [address])
  }

  method NormalizeOptionalListenAddresses(env: Env, field: string, listen: seq<string>)
    returns (r: Result<seq<string>, ConfigError>)
    ensures r == Cleaned(env, field, listen)
  {
    var normalized: seq<string> := [];
    var i := 0;
    while i < |listen|
      invariant 0 <= i <= |listen|
      invariant Cleaned(env, field, listen[..i]) == Ok(normalized)
    {
      var trimmed := Trim(listen[i]);
      CleanedStep(env, field, listen, i);
      i := i + 1;
      if trimmed == "" {
        continue;
      }
      if !env.isAddress(trimmed) {
        CleanedStops(env, field, listen, i);
        return Err(InvalidAddress(field, trimmed));
      }
      if trimmed !in normalized {
        normalized := normalized + [trimmed];
      }
    }
    assert listen[..|listen|] == listen;
    r := Ok(normalized);
  }

  lemma CleanedStep(env: Env, field: string, listen: seq<string>, i: nat)
    requires i < |listen|
    ensures listen[..i + 1][..i] == listen[..i] && listen[..i + 1][i] == listen[i]
  {}

  lemma {:induction false} CleanedStops(env: Env, field: string, listen: seq<string>, i: nat)
    requires i <= |listen| && Cleaned(env, field, listen[..i]).Err?
    ensures Cleaned(env, field, listen) == Cleaned(env, field, listen[..i])
    decreases |listen|
  {
    if i == |listen| {
      assert listen[..i] == listen;
    } else {
      var n := |listen| - 1;
      assert listen[..n][..i] == listen[..i];
      CleanedStops(env, field, listen[..n], i);
    }
  }

  /** A list in normal form: addresses, trimmed, without repeats. */
  ghost predicate IsClean(env: Env, list: seq<string>) {
    NoRepeats(list) && forall a | a in list :: IsToken(a) && env.isAddress(a)
  }

  /** `a` occurs in the list, up to white space, before any occurrence of `b`. */
  ghost predicate OccursBefore(listen: seq<string>, a: string, b: string) {
    exists k :: 0 <= k < |listen| && Trim(listen[k]) == a && forall m | 0 <= m <= k :: Trim(listen[m]) != b
  }

  /** `a` is the trimmed form of an entry. */
  ghost predicate Occurs(listen: seq<string>, a: string) {
    exists i :: 0 <= i < |listen| && Trim(listen[i]) == a
  }

  lemma OccursSnoc(listen: seq<string>, a: string)
    requires listen != []
    ensures Occurs(listen, a) <==> Occurs(listen[..|listen| - 1], a) || a == Trim(listen[|listen| - 1])
  {
    hide Trim;
    var n := |listen| - 1;
    if i :| 0 <= i < |listen| && Trim(listen[i]) == a {
      if i < n { assert Trim(listen[..n][i]) == a; }
    }
    if i :| 0 <= i < n && Trim(listen[..n][i]) == a {
      assert Trim(listen[i]) == a;
    }
    assert a == Trim(listen[n]) ==> Occurs(listen, a);
  }

  /** What `Cleaned` gives: a list in normal form, of the same addresses. */
  lemma {:induction false} CleanedFacts(env: Env, field: string, listen: seq<string>)
    requires Cleaned(env, field, listen).Ok?
    ensures var r := Cleaned(env, field, listen).value;
      IsClean(env, r) && forall a :: a in r <==> a != "" && Occurs(listen, a)
  {
    hide Trim, Occurs;
    var r := Cleaned(env, field, listen).value;
    if listen == [] {
      forall a ensures !Occurs(listen, a) { NothingOccurs(a); }
    } else {
      var n := |listen| - 1;
      CleanedFacts(env, field, listen[..n]);
      var before, address := Cleaned(env, field, listen[..n]).value, Trim(listen[n]);
      TrimIsProjection(listen[n]);
      forall a ensures a in r <==> a != "" && Occurs(listen, a) { OccursSnoc(listen, a); }
      if r != before {
        assert r[..|r| - 1] == before;
      }
    }
  }

  lemma NothingOccurs(a: string)
    ensures !Occurs([], a)
  {}

  /** The addresses come in the order of their first occurrence. */
  lemma {:induction false} CleanedOrder(env: Env, field: string, listen: seq<string>, i: nat, j: nat)
    requires Cleaned(env, field, listen).Ok? && i < j < |Cleaned(env, field, listen).value|
    ensures var r := Cleaned(env, field, listen).value; OccursBefore(listen, r[i], r[j])
  {
    hide Trim;
    var r, n := Cleaned(env, field, listen).value, |listen| - 1;
    var before := Cleaned(env, field, listen[..n]).value;
    if j < |before| {
      CleanedOrder(env, field, listen[..n], i, j);
      var k :| 0 <= k < n && Trim(listen[..n][k]) == r[i] && forall m | 0 <= m <= k :: Trim(listen[..n][m]) != r[j];
      assert forall m | 0 <= m <= k :: listen[m] == listen[..n][m];
      assert Trim(listen[k]) == r[i];
    } else {
      CleanedFacts(env, field, listen[..n]);
      assert r[i] in before && r[j] !in before && r[j] != "";
      var k :| 0 <= k < n && Trim(listen[..n][k]) == r[i];
      assert Trim(listen[k]) == r[i];
      forall m | 0 <= m <= k ensures Trim(listen[m]) != r[j] {
        assert !Occurs(listen[..n], r[j]);
        assert listen[..n][m] == listen[m];
      }
    }
  }

  /** Cleaning fails exactly when some non-blank entry is no address. */
  lemma {:induction false} CleanedFailsIff(env: Env, field: string, listen: seq<string>)
    ensures Cleaned(env, field, listen).Ok? <==>
            forall i | 0 <= i < |listen| :: Trim(listen[i]) != "" ==> env.isAddress(Trim(listen[i]))
  {
    if listen != [] {
      var n := |listen| - 1;
      CleanedFailsIff(env, field, listen[..n]);
      assert forall i | 0 <= i < n :: listen[..n][i] == listen[i];
      assert listen[n] == listen[|listen| - 1];
    }
  }

  /** A clean list is left alone. */
  lemma {:induction false} CleanedFixes(env: Env, field: string, list: seq<string>)
    requires IsClean(env, list)
    ensures Cleaned(env, field, list) == Ok(list)
  {
    if list != [] {
      var n := |list| - 1;
      assert forall a | a in list[..n] :: a in list;
      CleanedFixes(env, field, list[..n]);
      assert list[n] in list;
      TrimIsProjection(list[n]);
      assert list == list[..n] + [list[n]];
    }
  }

  function ListenAddresses(env: Env, field: string, listen: seq<string>): Result<seq<string>, ConfigError> {
    var r := Cleaned(env, field, listen);
    if r == Ok([]) then Err(NoAddress(field)) else r
  }

  function AdminAddresses(env: Env, listen: seq<string>): Result<seq<string>, ConfigError> {
    if env.admin then ListenAddresses(env, "admin_listen", listen) else Cleaned(env, "admin_listen", listen)
  }

  predicate IsLegacyListen(listen: seq<string>) {
    |listen| == 1 && (listen[0] == "0.0.0.0:8787" || listen[0] == "[::]:8787")
  }

  // ----- lists in terms of their entries

  /** Every entry that is not blank is an address. */
  ghost predicate AllAddresses(env: Env, listen: seq<string>) {
    forall i | 0 <= i < |listen| :: !AllWhitespace(listen[i]) ==> env.isAddress(Trim(listen[i]))
  }

  ghost predicate SomeEntry(listen: seq<string>) {
    exists i :: 0 <= i < |listen| && !AllWhitespace(listen[i])
  }

  /** `r` has the entries of `listen`, trimmed, without blanks, each once, by first occurrence. */
  ghost predicate HasEntries(listen: seq<string>, r: seq<string>) {
    && NoRepeats(r)
    && (forall a :: a in r <==> a != "" && Occurs(listen, a))
    && (forall i, j | 0 <= i < j < |r| :: OccursBefore(listen, r[i], r[j]))
  }

  lemma CleanedIs(env: Env, field: string, listen: seq<string>)
    ensures Cleaned(env, field, listen).Ok? <==> AllAddresses(env, listen)
    ensures Cleaned(env, field, listen).Ok? ==>
      && HasEntries(listen, Cleaned(env, field, listen).value)
      && (Cleaned(env, field, listen).value != [] <==> SomeEntry(listen))
  {
    hide Trim, Cleaned, Occurs, OccursBefore, AllWhitespace, NoRepeats;
    CleanedFailsIff(env, field, listen);
    forall i | 0 <= i < |listen| ensures AllWhitespace(listen[i]) <==> Trim(listen[i]) == "" {
      BlankIsAllWhitespace(listen[i]);
    }
    if Cleaned(env, field, listen).Ok? {
      var r := Cleaned(env, field, listen).value;
      CleanedFacts(env, field, listen);
      EmptyUnlessEntry(listen, r);
      forall i, j | 0 <= i < j < |r| ensures OccursBefore(listen, r[i], r[j]) {
        CleanedOrder(env, field, listen, i, j);
      }
    }
  }

  lemma EmptyUnlessEntry(listen: seq<string>, r: seq<string>)
    requires forall a :: a in r <==> a != "" && Occurs(listen, a)
    ensures r != [] <==> exists i :: 0 <= i < |listen| && Trim(listen[i]) != ""
  {
    hide Trim;
    if r != [] {
      assert r[0] in r;
    }
    if i :| 0 <= i < |listen| && Trim(listen[i]) != "" {
      assert Trim(listen[i]) in r;
    }
  }

  /** The error names the first entry that is no address. */
  lemma {:induction false} CleanedError(env: Env, field: string, listen: seq<string>) returns (k: nat)
    requires Cleaned(env, field, listen).Err?
    ensures k < |listen| && Cleaned(env, field, listen).error == InvalidAddress(field, Trim(listen[k]))
    ensures Trim(listen[k]) != "" && !env.isAddress(Trim(listen[k]))
    ensures forall i | 0 <= i < k :: Trim(listen[i]) != "" ==> env.isAddress(Trim(listen[i]))
  {
    hide Trim;
    var n := |listen| - 1;
    if Cleaned(env, field, listen[..n]).Err? {
      k := CleanedError(env, field, listen[..n]);
      assert forall i | 0 <= i < n :: listen[..n][i] == listen[i];
    } else {
      k := n;
      CleanedFailsIff(env, field, listen[..n]);
      assert forall i | 0 <= i < n :: listen[..n][i] == listen[i];
    }
  }

  /** A mandatory list needs at least one entry, and nothing but addresses; what it gives has these entries. */
  lemma ListenAddressesIs(env: Env, field: string, listen: seq<string>)
    ensures ListenAddresses(env, field, listen).Ok? <==> AllAddresses(env, listen) && SomeEntry(listen)
    ensures ListenAddresses(env, field, listen).Ok? ==> HasEntries(listen, ListenAddresses(env, field, listen).value)
    ensures AllAddresses(env, listen) && !SomeEntry(listen) ==>
              ListenAddresses(env, field, listen) == Err(NoAddress(field))
    ensures !AllAddresses(env, listen) ==> ListenAddresses(env, field, listen) == Cleaned(env, field, listen)
  {
    hide Cleaned, AllAddresses, SomeEntry, HasEntries;
    CleanedIs(env, field, listen);
  }

  /** The administrator's list may be empty without the feature. */
  lemma AdminAddressesIs(env: Env, listen: seq<string>)
    ensures AdminAddresses(env, listen).Ok? <==> AllAddresses(env, listen) && (env.admin ==> SomeEntry(listen))
    ensures AdminAddresses(env, listen).Ok? ==> HasEntries(listen, AdminAddresses(env, listen).value)
    ensures AdminAddresses(env, listen).Err? && AllAddresses(env, listen) ==>
              AdminAddresses(env, listen) == Err(NoAddress("admin_listen"))
    ensures !AllAddresses(env, listen) ==> AdminAddresses(env, listen) == Cleaned(env, "admin_listen", listen)
  {
    hide Cleaned, AllAddresses, SomeEntry, HasEntries, ListenAddresses;
    ListenAddressesIs(env, "admin_listen", listen);
    CleanedIs(env, "admin_listen", listen);
  }

  // ----- the normal form of a stored configuration

  function ListenBase(c: StoredConfig): seq<string> {
    if c.syncListen != [] then c.syncListen
    else if c.listen != [] then c.listen
    else if c.bind.Some? then [c.bind.value]
    else DEFAULT_SYNC_LISTEN
  }

  function Widened(listen: seq<string>): seq<string> {
    if IsLegacyListen(listen) then DEFAULT_SYNC_LISTEN else listen
  }

  function AdminBase(env: Env, c: StoredConfig): seq<string> {
    if c.adminListen == [] && env.admin then DEFAULT_ADMIN_LISTEN else c.adminListen
  }

  function OrDefault(s: string, default: string): string {
    if IsBlank(s) then default else s
  }

  function TrimOrDefault(s: string, default: string): string {
    if IsBlank(s) then default else Trim(s)
  }

  function TrimmedHash(hash: Option<string>): Option<string> {
    if hash.None? || IsBlank(hash.value) then None else Some(Trim(hash.value))
  }

  /** Field by field, what loading makes of a file; it can only fail on an address. */
  function Normalized(env: Env, c: StoredConfig): Result<StoredConfig, ConfigError> {
    match (ListenAddresses(env, "sync_listen", ListenBase(c)), AdminAddresses(env, AdminBase(env, c)))
    case (Err(e), _) => Err(e)
    case (_, Err(e)) => Err(e)
    case (Ok(listen), Ok(adminListen)) =>
      Ok(StoredConfig(
           Widened(listen), [], None,
           OrDefault(c.dbPath, DEFAULT_DB_PATH), OrDefault(c.exportDir, DEFAULT_EXPORT_DIR),
           OrDefault(c.logPath, DEFAULT_LOG_PATH), TrimOrDefault(c.logLevel, DEFAULT_LOG_LEVEL),
           TrimOrDefault(c.syncToken, TrimOrDefault(c.token, env.newToken)), "",
           adminListen, TrimmedHash(c.adminPasswordHash),
           if env.admin then TrimOrDefault(c.adminSessionSecret, env.newSecret) else Trim(c.adminSessionSecret)))
  }

  /** A stored configuration that loading leaves alone. */
  ghost predicate IsNormal(env: Env, c: StoredConfig) {
    && IsClean(env, c.syncListen) && c.syncListen != [] && !IsLegacyListen(c.syncListen)
    && c.listen == [] && c.bind.None? && c.token == ""
    && !IsBlank(c.dbPath) && !IsBlank(c.exportDir) && !IsBlank(c.logPath)
    && IsToken(c.logLevel) && IsToken(c.syncToken)
    && IsClean(env, c.adminListen) && (env.admin ==> c.adminListen != [])
    && (c.adminPasswordHash.Some? ==> IsToken(c.adminPasswordHash.value))
    && IsTrimmed(c.adminSessionSecret) && (env.admin ==> c.adminSessionSecret != "")
  }

  lemma NotBlank(s: string)
    requires IsToken(s)
    ensures !IsBlank(s) && Trim(s) == s
  {
    TrimIsProjection(s);
  }

  lemma DefaultsAreTokens()
    ensures IsToken(DEFAULT_DB_PATH) && IsToken(DEFAULT_EXPORT_DIR) && IsToken(DEFAULT_LOG_PATH)
        && IsToken(DEFAULT_LOG_LEVEL)
  {}

  lemma DefaultListsClean(env: Env)
    requires EnvOk(env)
    ensures IsClean(env, DEFAULT_SYNC_LISTEN) && IsClean(env, DEFAULT_ADMIN_LISTEN)
    ensures !IsLegacyListen(DEFAULT_SYNC_LISTEN)
  {
    assert DEFAULT_SYNC_LISTEN[..1] == ["0.0.0.0:8787"] && "0.0.0.0:8787"[0] != "[::]:8787"[0];
    assert DEFAULT_ADMIN_LISTEN[..1] == ["127.0.0.1:8788"] && "127.0.0.1:8788"[0] != "[::1]:8788"[0];
    assert NoRepeats(["0.0.0.0:8787"]) by { assert ["0.0.0.0:8787"][..0] == []; }
    assert NoRepeats(["127.0.0.1:8788"]) by { assert ["127.0.0.1:8788"][..0] == []; }
  }

  lemma TrimmedIsToken(s: string, default: string)
    requires IsToken(default)
    ensures IsToken(TrimOrDefault(s, default)) && (IsToken(s) ==> TrimOrDefault(s, default) == s)
  {
    TrimIsProjection(s);
  }

  /** Loading gives a normal form. */
  lemma NormalizedIsNormal(env: Env, c: StoredConfig)
    requires EnvOk(env) && Normalized(env, c).Ok?
    ensures IsNormal(env, Normalized(env, c).value)
  {
    hide Cleaned, IsClean, Trim, IsTrimmed;
    var r := Normalized(env, c).value;
    DefaultListsClean(env);
    DefaultsAreTokens();
    CleanedFacts(env, "sync_listen", ListenBase(c));
    CleanedFacts(env, "admin_listen", AdminBase(env, c));
    NotBlank(DEFAULT_DB_PATH);
    NotBlank(DEFAULT_EXPORT_DIR);
    NotBlank(DEFAULT_LOG_PATH);
    TrimmedIsToken(c.logLevel, DEFAULT_LOG_LEVEL);
    TrimmedIsToken(c.token, env.newToken);
    TrimmedIsToken(c.syncToken, TrimOrDefault(c.token, env.newToken));
    TrimmedIsToken(c.adminSessionSecret, env.newSecret);
    TrimIsProjection(c.adminSessionSecret);
    if c.adminPasswordHash.Some? { TrimIsProjection(c.adminPasswordHash.value); }
  }

  /** A normal form is exactly what loading leaves alone, whatever tokens it would have generated. */
  lemma NormalIsFixed(env: Env, c: StoredConfig)
    requires EnvOk(env)
    ensures IsNormal(env, c) <==> Normalized(env, c) == Ok(c)
  {
    if Normalized(env, c) == Ok(c) {
      NormalizedIsNormal(env, c);
    }
    if IsNormal(env, c) {
      CleanedFixes(env, "sync_listen", c.syncListen);
      CleanedFixes(env, "admin_listen", c.adminListen);
      TrimmedIsToken(c.logLevel, DEFAULT_LOG_LEVEL) by { DefaultsAreTokens(); }
      NotBlank(c.syncToken);
      TrimIsProjection(c.adminSessionSecret);
      if c.adminPasswordHash.Some? { NotBlank(c.adminPasswordHash.value); }
    }
  }

  /** Idempotence: loading what was loaded changes nothing, even with other generated tokens. */
  lemma NormalizedIdempotent(env: Env, again: Env, c: StoredConfig)
    requires EnvOk(env) && EnvOk(again) && again.admin == env.admin && again.isAddress == env.isAddress
    requires Normalized(env, c).Ok?
    ensures Normalized(again, Normalized(env, c).value) == Normalized(env, c)
  {
    var r := Normalized(env, c).value;
    NormalizedIsNormal(env, c);
    assert IsNormal(again, r);
    NormalIsFixed(again, r);
  }

  // ----- what the migration does to each field

  /**
   * Where the listen list comes from: the field itself, or else the old `listen`, or else
   * the old `bind`, or else the default. What is not used is dropped.
   */
  lemma MigratesListen(env: Env, c: StoredConfig)
    ensures var m := Normalized(env, c);
      && (c.syncListen != [] ==> m == Normalized(env, c.(listen := [], bind := None)))
      && (c.syncListen == [] && c.listen != [] ==> m == Normalized(env, c.(syncListen := c.listen)))
      && (c.syncListen == [] && c.listen == [] && c.bind.Some? ==>
            m == Normalized(env, c.(syncListen := [c.bind.value])))
      && (c.syncListen == [] && c.listen == [] && c.bind.None? ==>
            m == Normalized(env, c.(syncListen := ["0.0.0.0:8787", "[::]:8787"])))
      && (c.adminListen == [] && env.admin ==>
            m == Normalized(env, c.(adminListen := ["127.0.0.1:8788", "[::1]:8788"])))
  {
    hide Cleaned, TrimOrDefault, OrDefault, TrimmedHash;
  }

  /** What becomes of it: it is cleaned, and a list of one of the two defaults is widened to both. */
  lemma MigratesEntries(env: Env, c: StoredConfig)
    requires EnvOk(env) && c.syncListen != [] && (env.admin ==> c.adminListen != []) && Normalized(env, c).Ok?
    ensures var m := Normalized(env, c).value; var listen := ListenAddresses(env, "sync_listen", c.syncListen);
      && listen.Ok? && HasEntries(c.syncListen, listen.value) && listen.value != []
      && m.syncListen == (if listen.value == ["0.0.0.0:8787"] || listen.value == ["[::]:8787"]
                          then ["0.0.0.0:8787", "[::]:8787"] else listen.value)
      && m.listen == [] && m.bind == None
      && HasEntries(c.adminListen, m.adminListen) && (env.admin ==> m.adminListen != [])
  {
    hide Cleaned, HasEntries, TrimOrDefault, OrDefault, TrimmedHash, AllAddresses, SomeEntry;
    ListenAddressesIs(env, "sync_listen", c.syncListen);
    AdminAddressesIs(env, c.adminListen);
  }

  /** When it fails: exactly on a list with an entry that is no address, or a mandatory one without entries. */
  lemma MigrationFailsIff(env: Env, c: StoredConfig)
    requires c.syncListen != [] && (env.admin ==> c.adminListen != [])
    ensures var sync := AllAddresses(env, c.syncListen) && SomeEntry(c.syncListen);
      var admin := AllAddresses(env, c.adminListen) && (env.admin ==> SomeEntry(c.adminListen));
      && (Normalized(env, c).Ok? <==> sync && admin)
      && (!sync ==> Normalized(env, c).Err? && Normalized(env, c).error.field == "sync_listen")
      && (sync && !admin ==> Normalized(env, c).error.field == "admin_listen")
  {
    hide Cleaned, TrimOrDefault, OrDefault, TrimmedHash, AllAddresses, SomeEntry;
    ListenAddressesIs(env, "sync_listen", c.syncListen);
    AdminAddressesIs(env, c.adminListen);
    if Cleaned(env, "sync_listen", c.syncListen).Err? { var k := CleanedError(env, "sync_listen", c.syncListen); }
    if Cleaned(env, "admin_listen", c.adminListen).Err? { var k := CleanedError(env, "admin_listen", c.adminListen); }
    CleanedIs(env, "sync_listen", c.syncListen);
    CleanedIs(env, "admin_listen", c.adminListen);
  }

  /** Blank texts get their defaults, others are trimmed; blank paths get theirs, others stay as they are. */
  lemma MigratesTexts(env: Env, c: StoredConfig)
    requires Normalized(env, c).Ok?
    ensures var m := Normalized(env, c).value;
      && m.dbPath == (if AllWhitespace(c.dbPath) then "data/floral-sync.sqlite3" else c.dbPath)
      && m.exportDir == (if AllWhitespace(c.exportDir) then "exports" else c.exportDir)
      && m.logPath == (if AllWhitespace(c.logPath) then "logs/floral-sync-server.log" else c.logPath)
      && m.logLevel == (if AllWhitespace(c.logLevel) then "info" else Trim(c.logLevel))
  {
    hide Cleaned, Trim, AllWhitespace;
    BlankIsAllWhitespace(c.dbPath);
    BlankIsAllWhitespace(c.exportDir);
    BlankIsAllWhitespace(c.logPath);
    BlankIsAllWhitespace(c.logLevel);
  }

  /**
   * The token is the new field's, or else the old one's, or else a new one; a blank
   * password hash is dropped; the session secret is made up only where it is needed.
   */
  lemma MigratesSecrets(env: Env, c: StoredConfig)
    requires Normalized(env, c).Ok?
    ensures var m := Normalized(env, c).value;
      && (!AllWhitespace(c.syncToken) ==> m.syncToken == Trim(c.syncToken))
      && (AllWhitespace(c.syncToken) && !AllWhitespace(c.token) ==> m.syncToken == Trim(c.token))
      && (AllWhitespace(c.syncToken) && AllWhitespace(c.token) ==> m.syncToken == env.newToken)
      && m.token == ""
      && (m.adminPasswordHash.Some? <==> c.adminPasswordHash.Some? && !AllWhitespace(c.adminPasswordHash.value))
      && (m.adminPasswordHash.Some? ==> m.adminPasswordHash.value == Trim(c.adminPasswordHash.value))
      && (!AllWhitespace(c.adminSessionSecret) ==> m.adminSessionSecret == Trim(c.adminSessionSecret))
      && (AllWhitespace(c.adminSessionSecret) ==> m.adminSessionSecret == if env.admin then env.newSecret else "")
  {
    hide Cleaned, Trim, AllWhitespace;
    BlankIsAllWhitespace(c.syncToken);
    BlankIsAllWhitespace(c.token);
    BlankIsAllWhitespace(c.adminSessionSecret);
    if c.adminPasswordHash.Some? { BlankIsAllWhitespace(c.adminPasswordHash.value); }
  }

  // ----- the migration in place

  function ListenMoved(c: StoredConfig, syncListen: seq<string>): StoredConfig {
    c.(syncListen := syncListen, listen := [], bind := None)
  }

  /** What a failed migration leaves behind; the loader drops it. */
  function Abandoned(env: Env, c: StoredConfig): StoredConfig {
    match ListenAddresses(env, "sync_listen", ListenBase(c))
    case Err(_) => ListenMoved(c, ListenBase(c))
    case Ok(listen) => ListenMoved(c, Widened(listen)).(adminListen := AdminBase(env, c))
  }

  /** A list that is widened was not the default before. */
  lemma WideningChanges(env: Env, listen: seq<string>)
    requires EnvOk(env)
    ensures !IsLegacyListen(DEFAULT_SYNC_LISTEN)
    ensures var cleaned := Cleaned(env, "sync_listen", listen);
      cleaned.Ok? && IsLegacyListen(cleaned.value) ==> listen != DEFAULT_SYNC_LISTEN
  {
    DefaultListsClean(env);
    CleanedFixes(env, "sync_listen", DEFAULT_SYNC_LISTEN);
  }

  class StoredConfigFile {
    var value: StoredConfig

    constructor (value: StoredConfig)
      ensures this.value == value
    {
      this.value := value;
    }

    /**
     * Migrates the configuration in place, and reports whether anything changed: the
     * flag is exact. It fails only on a listen address; the blank checks that close the
     * migration can never fail.
     */
    method Normalize(env: Env) returns (r: Result<bool, ConfigError>)
      requires EnvOk(env)
      modifies this
      ensures match Normalized(env, old(value))
              case Ok(normal) => value == normal && r == Ok(normal != old(value))
              case Err(e) => r == Err(e) && value == Abandoned(env, old(value))
    {
      ghost var before := value;
      DefaultListsClean(env);
      DefaultsAreTokens();
      var listenChanged := MigrateListen(env);
      if listenChanged.Err? {
        return listenChanged;
      }
      var adminChanged := MigrateAdminListen(env);
      if adminChanged.Err? {
        return adminChanged;
      }
      var pathsChanged := MigratePaths();
      var tokensChanged := MigrateTokens(env);
      var secretsChanged := MigrateSecrets(env);
      NormalizedIsNormal(env, before);
      assert !IsBlank(value.dbPath) && !IsBlank(value.exportDir) && !IsBlank(value.logPath);
      assert !IsBlank(value.logLevel) && !IsBlank(value.syncToken) by {
        NotBlank(value.logLevel);
        NotBlank(value.syncToken);
      }
      assert env.admin ==> !IsBlank(value.adminSessionSecret) by {
        if env.admin { NotBlank(value.adminSessionSecret); }
      }
      r := Ok(listenChanged.value || adminChanged.value || pathsChanged || tokensChanged || secretsChanged);
    }

    method MigrateListen(env: Env) returns (r: Result<bool, ConfigError>)
      requires EnvOk(env)
      modifies this
      ensures var listen := ListenAddresses(env, "sync_listen", ListenBase(old(value)));
        if listen.Err? then r == Err(listen.error) && value == ListenMoved(old(value), ListenBase(old(value)))
        else
          && value == ListenMoved(old(value), Widened(listen.value))
          && r == Ok(value != old(value))
    {
      hide Cleaned, IsLegacyListen;
      ghost var before := value;
      var changed := false;
      if value.syncListen == [] {
        if value.listen != [] {
          value := value.(syncListen := value.listen);
        } else if value.bind.Some? {
          value := value.(syncListen := [value.bind.value]);
        } else {
          value := value.(syncListen := DEFAULT_SYNC_LISTEN);
        }
        changed := true;
      }
      if value.listen != [] {
        value := value.(listen := []);
        changed := true;
      }
      if value.bind.Some? {
        value := value.(bind := None);
        changed := true;
      }
      var base := value.syncListen;
      assert base == ListenBase(before);
      var cleaned := NormalizeOptionalListenAddresses(env, "sync_listen", base);
      if cleaned.Err? {
        return Err(cleaned.error);
      }
      if cleaned.value == [] {
        return Err(NoAddress("sync_listen"));
      }
      WideningChanges(env, base);
      if cleaned.value != value.syncListen {
        value := value.(syncListen := cleaned.value);
        changed := true;
      }
      if IsLegacyListen(value.syncListen) {
        value := value.(syncListen := DEFAULT_SYNC_LISTEN);
        changed := true;
      }
      r := Ok(changed);
    }

    method MigrateAdminListen(env: Env) returns (r: Result<bool, ConfigError>)
      requires EnvOk(env)
      modifies this
      ensures var listen := AdminAddresses(env, AdminBase(env, old(value)));
        if listen.Err? then r == Err(listen.error) && value == old(value).(adminListen := AdminBase(env, old(value)))
        else value == old(value).(adminListen := listen.value) && r == Ok(value != old(value))
    {
      var changed := false;
      if value.adminListen == [] && env.admin {
        value := value.(adminListen := DEFAULT_ADMIN_LISTEN);
        changed := true;
      }
      var cleaned := NormalizeOptionalListenAddresses(env, "admin_listen", value.adminListen);
      if cleaned.Err? {
        return Err(cleaned.error);
      }
      if env.admin && cleaned.value == [] {
        return Err(NoAddress("admin_listen"));
      }
      if cleaned.value != value.adminListen {
        value := value.(adminListen := cleaned.value);
        changed := true;
      }
      r := Ok(changed);
    }

    method MigratePaths() returns (changed: bool)
      modifies this
      ensures value == old(value).(
                dbPath := OrDefault(old(value).dbPath, DEFAULT_DB_PATH),
                exportDir := OrDefault(old(value).exportDir, DEFAULT_EXPORT_DIR),
                logPath := OrDefault(old(value).logPath, DEFAULT_LOG_PATH),
                logLevel := TrimOrDefault(old(value).logLevel, DEFAULT_LOG_LEVEL))
      ensures changed <==> value != old(value)
    {
      DefaultsAreTokens();
      NotBlank(DEFAULT_DB_PATH);
      NotBlank(DEFAULT_EXPORT_DIR);
      NotBlank(DEFAULT_LOG_PATH);
      NotBlank(DEFAULT_LOG_LEVEL);
      hide Trim, IsTrimmed;
      changed := false;
      if IsBlank(value.dbPath) {
        value := value.(dbPath := DEFAULT_DB_PATH);
        changed := true;
      }
      if IsBlank(value.exportDir) {
        value := value.(exportDir := DEFAULT_EXPORT_DIR);
        changed := true;
      }
      if IsBlank(value.logPath) {
        value := value.(logPath := DEFAULT_LOG_PATH);
        changed := true;
      }
      var level := Trim(value.logLevel);
      if level == "" {
        value := value.(logLevel := DEFAULT_LOG_LEVEL);
        changed := true;
      } else if level != value.logLevel {
        value := value.(logLevel := level);
        changed := true;
      }
    }

    method MigrateTokens(env: Env) returns (changed: bool)
      requires IsToken(env.newToken)
      modifies this
      ensures value == old(value).(
                syncToken := TrimOrDefault(old(value).syncToken, TrimOrDefault(old(value).token, env.newToken)),
                token := "")
      ensures changed <==> value != old(value)
    {
      NotBlank(env.newToken);
      TrimIsProjection(value.token);
      hide Trim, IsTrimmed;
      changed := false;
      if IsBlank(value.syncToken) {
        if !IsBlank(value.token) {
          value := value.(syncToken := Trim(value.token));
        } else {
          value := value.(syncToken := env.newToken);
        }
        changed := true;
      } else {
        var trimmed := Trim(value.syncToken);
        if trimmed != value.syncToken {
          value := value.(syncToken := trimmed);
          changed := true;
        }
      }
      if value.token != "" {
        value := value.(token := "");
        changed := true;
      }
    }

    method MigrateSecrets(env: Env) returns (changed: bool)
      requires IsToken(env.newSecret)
      modifies this
      ensures value == old(value).(
                adminPasswordHash := TrimmedHash(old(value).adminPasswordHash),
                adminSessionSecret :=
                  if env.admin then TrimOrDefault(old(value).adminSessionSecret, env.newSecret)
                  else Trim(old(value).adminSessionSecret))
      ensures changed <==> value != old(value)
    {
      NotBlank(env.newSecret);
      hide Trim, IsTrimmed;
      changed := false;
      if value.adminPasswordHash.Some? {
        var trimmed := Trim(value.adminPasswordHash.value);
        if trimmed == "" {
          value := value.(adminPasswordHash := None);
          changed := true;
        } else if value.adminPasswordHash != Some(trimmed) {
          value := value.(adminPasswordHash := Some(trimmed));
          changed := true;
        }
      }
      var secret := Trim(value.adminSessionSecret);
      if env.admin && secret == "" {
        value := value.(adminSessionSecret := env.newSecret);
        changed := true;
      } else if secret != value.adminSessionSecret {
        value := value.(adminSessionSecret := secret);
        changed := true;
      }
    }
  }
}
