/** Loading, patching and writing the configuration, and when a write survives the next load. */
module ConfigFile {
  import opened Text
  import opened Ordering
  import opened Protocol
  import opened Paths
  import opened Config

  // ----- load

  function DefaultStored(env: Env): StoredConfig {
    StoredConfig(DEFAULT_SYNC_LISTEN, [], None, DEFAULT_DB_PATH, DEFAULT_EXPORT_DIR, DEFAULT_LOG_PATH,
                 DEFAULT_LOG_LEVEL, env.newToken, "", if env.admin then DEFAULT_ADMIN_LISTEN else [], None,
                 if env.admin then env.newSecret else "")
  }

  /** A load: the configuration, what the file then holds, and whether it was written. */
  datatype Loaded = Loaded(config: ServerConfig, file: StoredConfig, wrote: bool)

  const NO_OVERRIDES := Overrides(None, None, None)

  /** Load, or create, the file, migrate it, write it back if that changed anything, and apply the overrides. */
  function Load(env: Env, configPath: Path, file: Option<StoredConfig>, overrides: Overrides)
    : Result<Loaded, ConfigError>
  {
    var before := match file case Some(c) => c case None => DefaultStored(env);
    match Normalized(env, before)
    case Err(e) => Err(e)
    case Ok(stored) =>
      var wrote := file.None? || stored != before;
      var syncListen := match overrides.listen case Some(l) => l case None => stored.syncListen;
      var token := Trim(match overrides.token case Some(t) => t case None => stored.syncToken);
      var dbPath := match overrides.dbPath case Some(p) => p case None => ParsePath(stored.dbPath);
      match ListenAddresses(env, "sync_listen", syncListen)
      case Err(e) => Err(e)
      case Ok(listen) =>
        if token == "" then Err(EmptyField("sync_token")) else
        match AdminAddresses(env, stored.adminListen)
        case Err(e) => Err(e)
        case Ok(adminListen) =>
          Ok(Loaded(
               ServerConfig(configPath, listen, adminListen,
                            ResolvePath(configPath, dbPath), ResolvePath(configPath, ParsePath(stored.exportDir)),
                            ResolvePath(configPath, ParsePath(stored.logPath)),
                            Trim(stored.logLevel), token, stored.adminPasswordHash, Trim(stored.adminSessionSecret)),
               stored, wrote))
  }

  // ----- write

  function FromServer(c: ServerConfig): StoredConfig {
    StoredConfig(c.syncListen, [], None,
                 PathForStorage(c.configPath, c.dbPath), PathForStorage(c.configPath, c.exportDir),
                 PathForStorage(c.configPath, c.logPath), c.logLevel, c.syncToken, "", c.adminListen,
                 c.adminPasswordHash, c.adminSessionSecret)
  }

  // ----- patch

  function PatchedText(field: string, current: string, patch: Option<string>): Result<string, ConfigError> {
    match patch
    case None => Ok(current)
    case Some(s) => if IsBlank(s) then Err(EmptyPatch(field)) else Ok(Trim(s))
  }

  function NormalizePatchPath(configPath: Path, field: string, p: Path): Result<Path, ConfigError> {
    if p == Path(false, []) then Err(EmptyPatch(field)) else Ok(ResolvePath(configPath, p))
  }

  function PatchedPath(configPath: Path, field: string, current: Path, patch: Option<Path>): Result<Path, ConfigError> {
    match patch
    case None => Ok(current)
    case Some(p) => NormalizePatchPath(configPath, field, p)
  }

  ghost predicate ListsPatched(env: Env, before: ServerConfig, patch: ConfigPatch, after: ServerConfig) {
    && (match patch.listen
        case None => after.syncListen == before.syncListen
        case Some(l) => ListenAddresses(env, "sync_listen", l) == Ok(after.syncListen))
    && (match patch.adminListen
        case None => after.adminListen == before.adminListen
        case Some(l) => AdminAddresses(env, l) == Ok(after.adminListen))
  }

  ghost predicate PathsPatched(before: ServerConfig, patch: ConfigPatch, after: ServerConfig) {
    && PatchedPath(before.configPath, "db_path", before.dbPath, patch.dbPath) == Ok(after.dbPath)
    && PatchedPath(before.configPath, "export_dir", before.exportDir, patch.exportDir) == Ok(after.exportDir)
    && PatchedPath(before.configPath, "log_path", before.logPath, patch.logPath) == Ok(after.logPath)
  }

  ghost predicate TextsPatched(before: ServerConfig, patch: ConfigPatch, after: ServerConfig) {
    && PatchedText("log_level", before.logLevel, patch.logLevel) == Ok(after.logLevel)
    && PatchedText("sync_token", before.syncToken, patch.token) == Ok(after.syncToken)
    && (match patch.adminPasswordHash
        case None => after.adminPasswordHash == before.adminPasswordHash
        case Some(h) => !IsBlank(h) && after.adminPasswordHash == Some(Trim(h)))
  }

  /** `after` is `before` with each patched field replaced by its normal form, and nothing else changed. */
  ghost predicate IsPatched(env: Env, before: ServerConfig, patch: ConfigPatch, after: ServerConfig) {
    && after.configPath == before.configPath && after.adminSessionSecret == before.adminSessionSecret
    && ListsPatched(env, before, patch, after) && PathsPatched(before, patch, after)
    && TextsPatched(before, patch, after)
  }

  function ListError(r: Result<seq<string>, ConfigError>): Option<ConfigError> {
    if r.Err? then Some(r.error) else None
  }

  function PathError(configPath: Path, field: string, patch: Option<Path>): Option<ConfigError> {
    if patch.None? then None else
      match NormalizePatchPath(configPath, field, patch.value)
      case Err(e) => Some(e)
      case Ok(_) => None
  }

  function TextError(field: string, patch: Option<string>): Option<ConfigError> {
    if patch.Some? && IsBlank(patch.value) then Some(EmptyPatch(field)) else None
  }

  function OrElse(first: Option<ConfigError>, second: Option<ConfigError>): Option<ConfigError> {
    if first.Some? then first else second
  }

  function ListsError(env: Env, patch: ConfigPatch): Option<ConfigError> {
    OrElse(if patch.listen.None? then None else ListError(ListenAddresses(env, "sync_listen", patch.listen.value)),
           if patch.adminListen.None? then None else ListError(AdminAddresses(env, patch.adminListen.value)))
  }

  function PathsError(configPath: Path, patch: ConfigPatch): Option<ConfigError> {
    OrElse(PathError(configPath, "db_path", patch.dbPath),
           OrElse(PathError(configPath, "export_dir", patch.exportDir),
                  PathError(configPath, "log_path", patch.logPath)))
  }

  function TextsError(patch: ConfigPatch): Option<ConfigError> {
    OrElse(TextError("log_level", patch.logLevel),
           OrElse(TextError("sync_token", patch.token), TextError("admin_password_hash", patch.adminPasswordHash)))
  }

  /** The first thing wrong with a patch, in the order of its fields. */
  function PatchError(env: Env, configPath: Path, patch: ConfigPatch): Option<ConfigError> {
    OrElse(ListsError(env, patch), OrElse(PathsError(configPath, patch), TextsError(patch)))
  }

  method PatchLists(env: Env, current: ServerConfig, patch: ConfigPatch) returns (r: Result<ServerConfig, ConfigError>)
    ensures match r
            case Ok(after) =>
              && ListsError(env, patch) == None && ListsPatched(env, current, patch, after)
              && after == current.(syncListen := after.syncListen, adminListen := after.adminListen)
            case Err(e) => ListsError(env, patch) == Some(e)
  {
    hide ListenAddresses, AdminAddresses;
    var updated := current;
    if patch.listen.Some? {
      match ListenAddresses(env, "sync_listen", patch.listen.value)
      case Err(e) => return Err(e);
      case Ok(l) => updated := updated.(syncListen := l);
    }
    if patch.adminListen.Some? {
      match AdminAddresses(env, patch.adminListen.value)
      case Err(e) => return Err(e);
      case Ok(l) => updated := updated.(adminListen := l);
    }
    r := Ok(updated);
  }

  method PatchPaths(current: ServerConfig, patch: ConfigPatch) returns (r: Result<ServerConfig, ConfigError>)
    ensures match r
            case Ok(after) =>
              && PathsError(current.configPath, patch) == None && PathsPatched(current, patch, after)
              && after == current.(dbPath := after.dbPath, exportDir := after.exportDir, logPath := after.logPath)
            case Err(e) => PathsError(current.configPath, patch) == Some(e)
  {
    hide NormalizePatchPath;
    var updated := current;
    if patch.dbPath.Some? {
      match NormalizePatchPath(current.configPath, "db_path", patch.dbPath.value)
      case Err(e) => return Err(e);
      case Ok(p) => updated := updated.(dbPath := p);
    }
    if patch.exportDir.Some? {
      match NormalizePatchPath(current.configPath, "export_dir", patch.exportDir.value)
      case Err(e) => return Err(e);
      case Ok(p) => updated := updated.(exportDir := p);
    }
    if patch.logPath.Some? {
      match NormalizePatchPath(current.configPath, "log_path", patch.logPath.value)
      case Err(e) => return Err(e);
      case Ok(p) => updated := updated.(logPath := p);
    }
    r := Ok(updated);
  }

  method PatchTexts(current: ServerConfig, patch: ConfigPatch) returns (r: Result<ServerConfig, ConfigError>)
    ensures match r
            case Ok(after) =>
              && TextsError(patch) == None && TextsPatched(current, patch, after)
              && after == current.(logLevel := after.logLevel, syncToken := after.syncToken,
                                   adminPasswordHash := after.adminPasswordHash)
            case Err(e) => TextsError(patch) == Some(e)
  {
    hide Trim, IsBlank;
    var updated := current;
    if patch.logLevel.Some? {
      if IsBlank(patch.logLevel.value) {
        return Err(EmptyPatch("log_level"));
      }
      updated := updated.(logLevel := Trim(patch.logLevel.value));
    }
    if patch.token.Some? {
      if IsBlank(patch.token.value) {
        return Err(EmptyPatch("sync_token"));
      }
      updated := updated.(syncToken := Trim(patch.token.value));
    }
    if patch.adminPasswordHash.Some? {
      if IsBlank(patch.adminPasswordHash.value) {
        return Err(EmptyPatch("admin_password_hash"));
      }
      updated := updated.(adminPasswordHash := Some(Trim(patch.adminPasswordHash.value)));
    }
    r := Ok(updated);
  }

  /** A patch is applied to a copy, whole, or rejected for the first thing wrong with it. */
  method ApplyConfigPatch(env: Env, current: ServerConfig, patch: ConfigPatch)
    returns (r: Result<ServerConfig, ConfigError>)
    ensures match r
            case Ok(after) => PatchError(env, current.configPath, patch) == None
              && IsPatched(env, current, patch, after)
            case Err(e) => PatchError(env, current.configPath, patch) == Some(e)
  {
    hide ListsError, PathsError, TextsError;
    r := PatchLists(env, current, patch);
    if r.Ok? {
      r := PatchPaths(r.value, patch);
    }
    if r.Ok? {
      r := PatchTexts(r.value, patch);
    }
  }

  // ----- what loads and patches guarantee

  /** A configuration as loads and patches leave it, wherever its file is. */
  ghost predicate IsSettled(env: Env, c: ServerConfig) {
    && IsConfigPath(c.configPath)
    && IsClean(env, c.syncListen) && c.syncListen != []
    && IsClean(env, c.adminListen) && (env.admin ==> c.adminListen != [])
    && IsResolved(c.configPath, c.dbPath) && IsResolved(c.configPath, c.exportDir)
    && IsResolved(c.configPath, c.logPath)
    && IsToken(c.logLevel) && IsToken(c.syncToken)
    && (c.adminPasswordHash.Some? ==> IsToken(c.adminPasswordHash.value))
    && IsTrimmed(c.adminSessionSecret) && (env.admin ==> c.adminSessionSecret != "")
  }

  lemma TrimmedTokens(s: string)
    ensures !IsBlank(s) ==> IsToken(Trim(s))
  {
    TrimIsProjection(s);
  }

  /** Every load gives a settled configuration and leaves a file in normal form. */
  lemma LoadSettles(env: Env, configPath: Path, file: Option<StoredConfig>, overrides: Overrides)
    requires EnvOk(env) && IsConfigPath(configPath) && (overrides.dbPath.Some? ==> WellFormed(overrides.dbPath.value))
    requires Load(env, configPath, file, overrides).Ok?
    ensures var l := Load(env, configPath, file, overrides).value; IsSettled(env, l.config) && IsNormal(env, l.file)
  {
    hide Trim, IsClean, Cleaned, ParsePath, ResolvePath, Normalized, IsTrimmed;
    var before := match file case Some(c) => c case None => DefaultStored(env);
    NormalizedIsNormal(env, before);
    var l := Load(env, configPath, file, overrides).value;
    var stored := l.file;
    var syncListen := match overrides.listen case Some(x) => x case None => stored.syncListen;
    CleanedFacts(env, "sync_listen", syncListen);
    CleanedFacts(env, "admin_listen", stored.adminListen);
    var dbPath := match overrides.dbPath case Some(p) => p case None => ParsePath(stored.dbPath);
    if overrides.dbPath.None? { ParseWellFormed(stored.dbPath); }
    ParseWellFormed(stored.exportDir);
    ParseWellFormed(stored.logPath);
    ResolvedIs(configPath, dbPath);
    ResolvedIs(configPath, ParsePath(stored.exportDir));
    ResolvedIs(configPath, ParsePath(stored.logPath));
    TrimIsProjection(stored.logLevel);
    TrimIsProjection(stored.adminSessionSecret);
    TrimIsProjection(match overrides.token case Some(t) => t case None => stored.syncToken);
  }

  /** Every accepted patch of a settled configuration gives a settled one. */
  lemma PatchSettles(env: Env, before: ServerConfig, patch: ConfigPatch, after: ServerConfig)
    requires IsSettled(env, before) && IsPatched(env, before, patch, after)
    requires forall p | Some(p) in {patch.dbPath, patch.exportDir, patch.logPath} :: WellFormed(p)
    ensures IsSettled(env, after)
  {
    hide Trim, IsClean, Cleaned, ResolvePath, IsTrimmed;
    if patch.listen.Some? { CleanedFacts(env, "sync_listen", patch.listen.value); }
    if patch.adminListen.Some? { CleanedFacts(env, "admin_listen", patch.adminListen.value); }
    if patch.dbPath.Some? { ResolvedIs(before.configPath, patch.dbPath.value); }
    if patch.exportDir.Some? { ResolvedIs(before.configPath, patch.exportDir.value); }
    if patch.logPath.Some? { ResolvedIs(before.configPath, patch.logPath.value); }
    if patch.logLevel.Some? { TrimmedTokens(patch.logLevel.value); }
    if patch.token.Some? { TrimmedTokens(patch.token.value); }
    if patch.adminPasswordHash.Some? { TrimmedTokens(patch.adminPasswordHash.value); }
  }

  // ----- what loads and patches do to each field

  /** A file in normal form is loaded as it stands, its paths taken from its directory, and not written. */
  lemma LoadsNormal(env: Env, configPath: Path, c: StoredConfig)
    requires EnvOk(env) && IsConfigPath(configPath) && IsNormal(env, c)
    ensures var l := Load(env, configPath, Some(c), NO_OVERRIDES);
      && l.Ok? && l.value.file == c && !l.value.wrote
      && var s := l.value.config;
         && s.configPath == configPath && s.syncListen == c.syncListen && s.adminListen == c.adminListen
         && TakenFrom(configPath, ParsePath(c.dbPath), s.dbPath)
         && TakenFrom(configPath, ParsePath(c.exportDir), s.exportDir)
         && TakenFrom(configPath, ParsePath(c.logPath), s.logPath)
         && s.logLevel == c.logLevel && s.syncToken == c.syncToken
         && s.adminPasswordHash == c.adminPasswordHash && s.adminSessionSecret == c.adminSessionSecret
  {
    hide Normalized, IsNormal, ParsePath, ResolvePath, TakenFrom;
    NormalIsFixed(env, c);
    LoadIsConfigOf(env, configPath, Some(c));
    ResolveTakes(configPath, ParsePath(c.dbPath));
    ResolveTakes(configPath, ParsePath(c.exportDir));
    ResolveTakes(configPath, ParsePath(c.logPath));
  }

  /** Any other file is loaded as its migration, which is written back; a failed migration fails the load. */
  lemma LoadsMigrated(env: Env, configPath: Path, c: StoredConfig)
    requires EnvOk(env)
    ensures var l := Load(env, configPath, Some(c), NO_OVERRIDES);
      match Normalized(env, c)
      case Err(e) => l == Err(e)
      case Ok(m) =>
        && Load(env, configPath, Some(m), NO_OVERRIDES).Ok?
        && l == Ok(Load(env, configPath, Some(m), NO_OVERRIDES).value.(wrote := m != c))
  {
    hide Normalized, IsNormal, ConfigOf, Load;
    LoadIsConfigOf(env, configPath, Some(c));
    if Normalized(env, c).Ok? {
      NormalIsFixed(env, Normalized(env, c).value);
      LoadIsConfigOf(env, configPath, Some(Normalized(env, c).value));
    }
  }

  /** A missing file is created as one in which everything is blank would be migrated. */
  lemma LoadsMissing(env: Env, configPath: Path)
    requires EnvOk(env)
    ensures var blank := StoredConfig([], [], None, "", "", "", "", "", "", [], None, "");
      && Load(env, configPath, Some(blank), NO_OVERRIDES).Ok?
      && Load(env, configPath, None, NO_OVERRIDES)
         == Ok(Load(env, configPath, Some(blank), NO_OVERRIDES).value.(wrote := true))
  {
    hide Load, Normalized, ConfigOf, IsNormal;
    var blank := StoredConfig([], [], None, "", "", "", "", "", "", [], None, "");
    LoadIsConfigOf(env, configPath, None);
    LoadIsConfigOf(env, configPath, Some(blank));
    BlankBecomesDefault(env);
  }

  lemma BlankBecomesDefault(env: Env)
    requires EnvOk(env)
    ensures var blank := StoredConfig([], [], None, "", "", "", "", "", "", [], None, "");
      && Normalized(env, blank) == Ok(DefaultStored(env)) == Normalized(env, DefaultStored(env))
      && blank != DefaultStored(env)
  {
    hide Cleaned, IsClean, NoRepeats;
    DefaultListsClean(env);
    DefaultsAreTokens();
    CleanedFixes(env, "sync_listen", DEFAULT_SYNC_LISTEN);
    CleanedFixes(env, "admin_listen", DEFAULT_ADMIN_LISTEN);
    CleanedFixes(env, "admin_listen", []);
    NotBlank(DEFAULT_DB_PATH);
    NotBlank(DEFAULT_EXPORT_DIR);
    NotBlank(DEFAULT_LOG_PATH);
    NotBlank(DEFAULT_LOG_LEVEL);
    NotBlank(env.newToken);
    NotBlank(env.newSecret);
  }

  /**
   * What overrides do to a load. They never touch the file. One of the listen list, the
   * token or the database path replaces what the file says, in its normal form, and every
   * other field is as without overrides. They make a load fail exactly when the list has
   * no entry or one that is no address, or the token is blank; a load that fails without
   * overrides fails the same with them.
   */
  lemma OverridesReplace(env: Env, configPath: Path, file: Option<StoredConfig>, o: Overrides)
    requires EnvOk(env) && IsConfigPath(configPath)
    ensures var plain, l := Load(env, configPath, file, NO_OVERRIDES), Load(env, configPath, file, o);
      && (plain.Err? ==> l == plain)
      && (plain.Ok? ==> (l.Ok? <==>
            && (o.listen.Some? ==> AllAddresses(env, o.listen.value) && SomeEntry(o.listen.value))
            && (o.token.Some? ==> !AllWhitespace(o.token.value))))
      && (plain.Ok? && l.Ok? ==>
            var c, d := plain.value.config, l.value.config;
            && l.value.file == plain.value.file && l.value.wrote == plain.value.wrote
            && d == c.(syncListen := d.syncListen, syncToken := d.syncToken, dbPath := d.dbPath)
            && (if o.listen.Some? then HasEntries(o.listen.value, d.syncListen) else d.syncListen == c.syncListen)
            && (if o.token.Some? then d.syncToken == Trim(o.token.value) else d.syncToken == c.syncToken)
            && (if o.dbPath.Some? then TakenFrom(configPath, o.dbPath.value, d.dbPath) else d.dbPath == c.dbPath))
  {
    hide Normalized, IsNormal, ParsePath, ResolvePath, TakenFrom, Trim, AllWhitespace, AllAddresses, SomeEntry;
    hide HasEntries, ListenAddresses, AdminAddresses, IsTrimmed, IsClean;
    var before := match file case Some(c) => c case None => DefaultStored(env);
    if Normalized(env, before).Ok? {
      var stored := Normalized(env, before).value;
      StoredIsUsable(env, before);
      if o.listen.Some? { ListenAddressesIs(env, "sync_listen", o.listen.value); }
      if o.token.Some? { BlankIsAllWhitespace(o.token.value); }
      if o.dbPath.Some? { ResolveTakes(configPath, o.dbPath.value); }
    }
  }

  /** What a migrated file says needs no further cleaning. */
  lemma StoredIsUsable(env: Env, before: StoredConfig)
    requires EnvOk(env) && Normalized(env, before).Ok?
    ensures var stored := Normalized(env, before).value;
      && ListenAddresses(env, "sync_listen", stored.syncListen) == Ok(stored.syncListen)
      && AdminAddresses(env, stored.adminListen) == Ok(stored.adminListen)
      && Trim(stored.syncToken) != ""
  {
    hide Normalized, Cleaned, Trim, IsTrimmed, NoRepeats;
    var stored := Normalized(env, before).value;
    NormalizedIsNormal(env, before);
    CleanedFixes(env, "sync_listen", stored.syncListen);
    CleanedFixes(env, "admin_listen", stored.adminListen);
    NotBlank(stored.syncToken);
  }

  /** The first thing wrong with overrides is reported: an entry of the list, a list without entries, or the token. */
  lemma OverridesError(env: Env, configPath: Path, file: Option<StoredConfig>, o: Overrides)
    requires EnvOk(env) && IsConfigPath(configPath) && Load(env, configPath, file, NO_OVERRIDES).Ok?
    ensures var l := Load(env, configPath, file, o);
      && (o.listen.Some? && !AllAddresses(env, o.listen.value) ==>
            l.Err? && l.error.InvalidAddress? && l.error.field == "sync_listen")
      && (o.listen.Some? && AllAddresses(env, o.listen.value) && !SomeEntry(o.listen.value) ==>
            l == Err(NoAddress("sync_listen")))
      && (o.token.Some? && AllWhitespace(o.token.value)
          && (o.listen.Some? ==> AllAddresses(env, o.listen.value) && SomeEntry(o.listen.value)) ==>
            l == Err(EmptyField("sync_token")))
  {
    hide Normalized, IsNormal, ParsePath, ResolvePath, Trim, AllWhitespace, AllAddresses, SomeEntry;
    hide HasEntries, ListenAddresses, AdminAddresses, IsTrimmed, IsClean, Cleaned;
    var before := match file case Some(c) => c case None => DefaultStored(env);
    if Normalized(env, before).Ok? {
      StoredIsUsable(env, before);
      if o.listen.Some? {
        ListenAddressesIs(env, "sync_listen", o.listen.value);
        CleanedIs(env, "sync_listen", o.listen.value);
        if Cleaned(env, "sync_listen", o.listen.value).Err? {
          var k := CleanedError(env, "sync_listen", o.listen.value);
        }
      }
      if o.token.Some? { BlankIsAllWhitespace(o.token.value); }
    }
  }

  /** What an accepted patch did: each field it names has the given value in normal form, and no other has changed. */
  lemma PatchGives(env: Env, before: ServerConfig, patch: ConfigPatch, after: ServerConfig)
    requires before.configPath.parts != [] && IsConfigPath(before.configPath) && IsPatched(env, before, patch, after)
    ensures after.configPath == before.configPath && after.adminSessionSecret == before.adminSessionSecret
    ensures if patch.listen.Some? then HasEntries(patch.listen.value, after.syncListen)
            else after.syncListen == before.syncListen
    ensures if patch.adminListen.Some? then HasEntries(patch.adminListen.value, after.adminListen)
            else after.adminListen == before.adminListen
    ensures if patch.dbPath.Some? then TakenFrom(before.configPath, patch.dbPath.value, after.dbPath)
            else after.dbPath == before.dbPath
    ensures if patch.exportDir.Some? then TakenFrom(before.configPath, patch.exportDir.value, after.exportDir)
            else after.exportDir == before.exportDir
    ensures if patch.logPath.Some? then TakenFrom(before.configPath, patch.logPath.value, after.logPath)
            else after.logPath == before.logPath
    ensures after.logLevel == if patch.logLevel.Some? then Trim(patch.logLevel.value) else before.logLevel
    ensures after.syncToken == if patch.token.Some? then Trim(patch.token.value) else before.syncToken
    ensures after.adminPasswordHash ==
            if patch.adminPasswordHash.Some? then Some(Trim(patch.adminPasswordHash.value))
            else before.adminPasswordHash
  {
    hide Trim, IsBlank, ResolvePath, TakenFrom, HasEntries, ListenAddresses, AdminAddresses, AllAddresses, SomeEntry;
    if patch.listen.Some? { ListenAddressesIs(env, "sync_listen", patch.listen.value); }
    if patch.adminListen.Some? { AdminAddressesIs(env, patch.adminListen.value); }
    if patch.dbPath.Some? { ResolveTakes(before.configPath, patch.dbPath.value); }
    if patch.exportDir.Some? { ResolveTakes(before.configPath, patch.exportDir.value); }
    if patch.logPath.Some? { ResolveTakes(before.configPath, patch.logPath.value); }
  }

  /** What can be wrong with a patch, field by field in the order they are looked at. */
  ghost function Faults(env: Env, patch: ConfigPatch): (faults: seq<(string, bool)>)
    ensures |faults| == 8
  {
    [("sync_listen", patch.listen.Some? && !(AllAddresses(env, patch.listen.value) && SomeEntry(patch.listen.value))),
     ("admin_listen", patch.adminListen.Some? && !(AllAddresses(env, patch.adminListen.value)
                      && (env.admin ==> SomeEntry(patch.adminListen.value)))),
     ("db_path", patch.dbPath == Some(Path(false, []))),
     ("export_dir", patch.exportDir == Some(Path(false, []))),
     ("log_path", patch.logPath == Some(Path(false, []))),
     ("log_level", patch.logLevel.Some? && AllWhitespace(patch.logLevel.value)),
     ("sync_token", patch.token.Some? && AllWhitespace(patch.token.value)),
     ("admin_password_hash", patch.adminPasswordHash.Some? && AllWhitespace(patch.adminPasswordHash.value))]
  }

  /** A patch is rejected exactly when it has a fault, for the first one. */
  lemma PatchErrorIff(env: Env, configPath: Path, patch: ConfigPatch)
    ensures var e, faults := PatchError(env, configPath, patch), Faults(env, patch);
      && (e == None <==> forall k | 0 <= k < 8 :: !faults[k].1)
      && (e.Some? ==> exists k: nat :: IsFirstFault(faults, k) && faults[k].0 == e.value.field
                                  && (k >= 2 ==> e.value.EmptyPatch?))
  {
    hide ListsError, PathsError, TextsError, AllWhitespace, AllAddresses, SomeEntry;
    FirstOfLists(env, patch);
    FirstOfPaths(configPath, patch);
    FirstOfTexts(patch);
    var e, faults := PatchError(env, configPath, patch), Faults(env, patch);
    if faults[0].1 {
      assert IsFirstFault(faults, 0);
    } else if faults[1].1 {
      assert IsFirstFault(faults, 1);
    } else if faults[2].1 {
      assert IsFirstFault(faults, 2);
    } else if faults[3].1 {
      assert IsFirstFault(faults, 3);
    } else if faults[4].1 {
      assert IsFirstFault(faults, 4);
    } else if faults[5].1 {
      assert IsFirstFault(faults, 5);
    } else if faults[6].1 {
      assert IsFirstFault(faults, 6);
    } else if faults[7].1 {
      assert IsFirstFault(faults, 7);
    }
  }

  lemma FirstOfLists(env: Env, patch: ConfigPatch)
    ensures var e := ListsError(env, patch);
      if patch.listen.Some? && !(AllAddresses(env, patch.listen.value) && SomeEntry(patch.listen.value)) then
        e.Some? && e.value.field == "sync_listen"
      else if patch.adminListen.Some? && !(AllAddresses(env, patch.adminListen.value)
                                           && (env.admin ==> SomeEntry(patch.adminListen.value))) then
        e.Some? && e.value.field == "admin_listen"
      else e.None?
  {
    hide ListenAddresses, AdminAddresses, AllAddresses, SomeEntry;
    if patch.listen.Some? { SyncListError(env, patch.listen.value); }
    if patch.adminListen.Some? { AdminListError(env, patch.adminListen.value); }
  }

  lemma FirstOfPaths(configPath: Path, patch: ConfigPatch)
    ensures PathsError(configPath, patch) ==
      if patch.dbPath == Some(Path(false, [])) then Some(EmptyPatch("db_path"))
      else if patch.exportDir == Some(Path(false, [])) then Some(EmptyPatch("export_dir"))
      else if patch.logPath == Some(Path(false, [])) then Some(EmptyPatch("log_path"))
      else None
  {
    hide ResolvePath;
  }

  lemma FirstOfTexts(patch: ConfigPatch)
    ensures TextsError(patch) ==
      if patch.logLevel.Some? && AllWhitespace(patch.logLevel.value) then Some(EmptyPatch("log_level"))
      else if patch.token.Some? && AllWhitespace(patch.token.value) then Some(EmptyPatch("sync_token"))
      else if patch.adminPasswordHash.Some? && AllWhitespace(patch.adminPasswordHash.value) then
        Some(EmptyPatch("admin_password_hash"))
      else None
  {
    hide IsBlank, AllWhitespace;
    if patch.logLevel.Some? { BlankIsAllWhitespace(patch.logLevel.value); }
    if patch.token.Some? { BlankIsAllWhitespace(patch.token.value); }
    if patch.adminPasswordHash.Some? { BlankIsAllWhitespace(patch.adminPasswordHash.value); }
  }

  ghost predicate IsFirstFault(faults: seq<(string, bool)>, k: nat) {
    k < |faults| && faults[k].1 && forall j | 0 <= j < k :: !faults[j].1
  }

  lemma SyncListError(env: Env, listen: seq<string>)
    ensures var r := ListenAddresses(env, "sync_listen", listen);
      (r.Err? <==> !(AllAddresses(env, listen) && SomeEntry(listen))) && (r.Err? ==> r.error.field == "sync_listen")
  {
    hide Cleaned, AllAddresses, SomeEntry, HasEntries;
    ListenAddressesIs(env, "sync_listen", listen);
    CleanedIs(env, "sync_listen", listen);
    if Cleaned(env, "sync_listen", listen).Err? { var k := CleanedError(env, "sync_listen", listen); }
  }

  lemma AdminListError(env: Env, listen: seq<string>)
    ensures var r := AdminAddresses(env, listen);
      && (r.Err? <==> !(AllAddresses(env, listen) && (env.admin ==> SomeEntry(listen))))
      && (r.Err? ==> r.error.field == "admin_listen")
  {
    hide Cleaned, AllAddresses, SomeEntry, HasEntries;
    AdminAddressesIs(env, listen);
    CleanedIs(env, "admin_listen", listen);
    if Cleaned(env, "admin_listen", listen).Err? { var k := CleanedError(env, "admin_listen", listen); }
  }

  // ----- the round trip

  /**
   * What the next load takes back: no legacy single-stack list, no path stored as white
   * space, and none that is the file's own directory, named relatively.
   */
  predicate SurvivesReload(c: ServerConfig)
    requires c.configPath.parts != []
  {
    && !IsLegacyListen(c.syncListen)
    && SurvivesStorage(c.configPath, c.dbPath)
    && SurvivesStorage(c.configPath, c.exportDir)
    && SurvivesStorage(c.configPath, c.logPath)
  }

  predicate SurvivesStorage(configPath: Path, p: Path)
    requires configPath.parts != []
  {
    !AllWhitespace(PathForStorage(configPath, p)) && !IsRelativeDir(configPath, p)
  }

  /** The configuration a file in normal form stands for. */
  function ConfigOf(configPath: Path, c: StoredConfig): ServerConfig {
    ServerConfig(configPath, c.syncListen, c.adminListen,
                 ResolvePath(configPath, ParsePath(c.dbPath)), ResolvePath(configPath, ParsePath(c.exportDir)),
                 ResolvePath(configPath, ParsePath(c.logPath)),
                 c.logLevel, c.syncToken, c.adminPasswordHash, c.adminSessionSecret)
  }

  /** A load without overrides gives what the file it leaves stands for. */
  lemma LoadIsConfigOf(env: Env, configPath: Path, file: Option<StoredConfig>)
    requires EnvOk(env)
    ensures var before := match file case Some(c) => c case None => DefaultStored(env);
      var l := Load(env, configPath, file, NO_OVERRIDES);
      match Normalized(env, before)
      case Err(e) => l == Err(e)
      case Ok(stored) =>
        IsNormal(env, stored) && l == Ok(Loaded(ConfigOf(configPath, stored), stored, file.None? || stored != before))
  {
    hide Normalized, Cleaned, Trim, ParsePath, ResolvePath, IsTrimmed, NoRepeats;
    var before := match file case Some(c) => c case None => DefaultStored(env);
    if Normalized(env, before).Ok? {
      var stored := Normalized(env, before).value;
      NormalizedIsNormal(env, before);
      CleanedFixes(env, "sync_listen", stored.syncListen);
      CleanedFixes(env, "admin_listen", stored.adminListen);
      NotBlank(stored.logLevel);
      NotBlank(stored.syncToken);
      TrimIsProjection(stored.adminSessionSecret);
    }
  }

  lemma FromServerNormal(env: Env, c: ServerConfig)
    requires IsSettled(env, c)
    ensures IsNormal(env, FromServer(c)) && ConfigOf(c.configPath, FromServer(c)) == c <==> SurvivesReload(c)
  {
    hide IsClean, IsBlank, AllWhitespace, IsTrimmed, ResolvePath, ParsePath, PathForStorage, IsResolved, IsRelativeDir;
    StorageSurvivesIff(c.configPath, c.dbPath);
    StorageSurvivesIff(c.configPath, c.exportDir);
    StorageSurvivesIff(c.configPath, c.logPath);
  }

  /** One path comes back exactly when its stored form is not blank and resolves to it. */
  lemma StorageSurvivesIff(configPath: Path, p: Path)
    requires IsConfigPath(configPath) && IsResolved(configPath, p)
    ensures var stored := PathForStorage(configPath, p);
      !IsBlank(stored) && ResolvePath(configPath, ParsePath(stored)) == p <==> SurvivesStorage(configPath, p)
  {
    hide IsBlank, AllWhitespace, ResolvePath, ParsePath, PathForStorage, IsResolved, IsRelativeDir;
    ResolveUndoesStorageIff(configPath, p);
    BlankIsAllWhitespace(PathForStorage(configPath, p));
  }

  /**
   * Round trip: a settled configuration, written and loaded again without overrides, is
   * the same configuration, with no rewrite of the file, exactly when its listen list is
   * not one of the two legacy lists, no path is stored as white space, and none is the
   * relative directory of the file itself.
   */
  lemma WriteThenLoad(env: Env, c: ServerConfig)
    requires EnvOk(env) && IsSettled(env, c)
    ensures Load(env, c.configPath, Some(FromServer(c)), NO_OVERRIDES) == Ok(Loaded(c, FromServer(c), false))
            <==> SurvivesReload(c)
  {
    hide Normalized, IsNormal, ConfigOf, SurvivesReload, Load, FromServer;
    FromServerNormal(env, c);
    NormalIsFixed(env, FromServer(c));
    LoadIsConfigOf(env, c.configPath, Some(FromServer(c)));
  }

  /**
   * The same for an update of the file: what was loaded, patched and written is what the
   * next load gives, under that condition; and only a patch of the list can break its
   * first part.
   */
  lemma UpdateThenLoad(env: Env, configPath: Path, file: Option<StoredConfig>, patch: ConfigPatch, after: ServerConfig)
    requires EnvOk(env) && IsConfigPath(configPath) && Load(env, configPath, file, NO_OVERRIDES).Ok?
    requires IsPatched(env, Load(env, configPath, file, NO_OVERRIDES).value.config, patch, after)
    requires forall p | Some(p) in {patch.dbPath, patch.exportDir, patch.logPath} :: WellFormed(p)
    ensures Load(env, configPath, Some(FromServer(after)), NO_OVERRIDES) == Ok(Loaded(after, FromServer(after), false))
            <==> SurvivesReload(after)
    ensures patch.listen.None? ==> !IsLegacyListen(after.syncListen)
  {
    hide Load, FromServer, SurvivesReload, IsSettled, Normalized, PathsPatched, TextsPatched, IsConfigPath;
    var before := Load(env, configPath, file, NO_OVERRIDES).value.config;
    LoadSettles(env, configPath, file, NO_OVERRIDES);
    PatchSettles(env, before, patch, after);
    LoadIsConfigOf(env, configPath, file);
    WriteThenLoad(env, after);
  }

  /** Loading again what a load left in the file gives the same configuration, and writes nothing. */
  lemma LoadTwice(env: Env, again: Env, configPath: Path, file: Option<StoredConfig>)
    requires EnvOk(env) && EnvOk(again) && again.admin == env.admin && again.isAddress == env.isAddress
    requires Load(env, configPath, file, NO_OVERRIDES).Ok?
    ensures var l := Load(env, configPath, file, NO_OVERRIDES).value;
      Load(again, configPath, Some(l.file), NO_OVERRIDES) == Ok(l.(wrote := false))
  {
    hide Normalized, Load, ConfigOf, IsNormal;
    var before := match file case Some(c) => c case None => DefaultStored(env);
    LoadIsConfigOf(env, configPath, file);
    var stored := Normalized(env, before).value;
    NormalizedIdempotent(env, again, before);
    LoadIsConfigOf(again, configPath, Some(stored));
  }

  /**
   * The case the round trip leaves out: a patch to a legacy single-stack list is undone by
   * the next load, which rewrites the file.
   */
  lemma LegacyListReverts(env: Env, c: ServerConfig)
    requires EnvOk(env) && IsSettled(env, c) && IsLegacyListen(c.syncListen)
    ensures var r := Load(env, c.configPath, Some(FromServer(c)), NO_OVERRIDES);
      r.Ok? && r.value.config.syncListen == DEFAULT_SYNC_LISTEN && r.value.wrote
  {
    hide IsTrimmed, IsClean, Cleaned, ResolvePath, ParsePath, PathForStorage, Trim, Load;
    var stored := FromServer(c);
    CleanedFixes(env, "sync_listen", c.syncListen);
    CleanedFixes(env, "admin_listen", c.adminListen);
    DefaultListsClean(env);
    LoadIsConfigOf(env, c.configPath, Some(stored));
  }

  /**
   * And a directory of the configuration file given relatively: with nothing else in the
   * way, the next load reads an export directory inside itself, and does not notice.
   */
  lemma RelativeDirReverts(env: Env, c: ServerConfig)
    requires EnvOk(env) && IsSettled(env, c) && IsRelativeDir(c.configPath, c.exportDir)
    requires !IsLegacyListen(c.syncListen)
    requires SurvivesStorage(c.configPath, c.dbPath) && SurvivesStorage(c.configPath, c.logPath)
    requires !AllWhitespace(PathForStorage(c.configPath, c.exportDir))
    ensures var r := Load(env, c.configPath, Some(FromServer(c)), NO_OVERRIDES);
      && r.Ok? && !r.value.wrote
      && r.value.config == c.(exportDir := Path(false, c.exportDir.parts + Undotted(c.exportDir).parts)) != c
  {
    hide IsClean, IsBlank, AllWhitespace, IsTrimmed, ResolvePath, ParsePath, PathForStorage, IsResolved;
    hide IsRelativeDir, Load, Normalized, Undotted;
    var stored := FromServer(c);
    StorageSurvivesIff(c.configPath, c.dbPath);
    StorageSurvivesIff(c.configPath, c.logPath);
    BlankIsAllWhitespace(stored.exportDir);
    RelativeDirDoubles(c.configPath, c.exportDir);
    NormalIsFixed(env, stored);
    LoadIsConfigOf(env, c.configPath, Some(stored));
  }

  /**
   * For instance `--config conf/sync-server.toml` with the export directory ".": loaded as
   * "conf", and then as "conf/conf".
   */
  lemma RelativeDirExample()
    ensures var configPath := ParsePath("conf/sync-server.toml");
      var p := ResolvePath(configPath, ParsePath("."));
      && configPath == Path(false, ["conf", "sync-server.toml"]) && p == Path(false, ["conf"])
      && IsRelativeDir(configPath, p)
      && ResolvePath(configPath, ParsePath(PathForStorage(configPath, p))) == Path(false, ["conf", "conf"])
  {
    hide ParsePath, PathForStorage;
    ExampleParses();
    assert ["conf", "sync-server.toml"][..1] == ["conf"] && ["conf"] + [] == ["conf"];
    assert ["."][1..] == [];
    RelativeDirDoubles(Path(false, ["conf", "sync-server.toml"]), Path(false, ["conf"]));
    assert ["conf"] + ["conf"] == ["conf", "conf"];
  }

  lemma ExampleParses()
    ensures WellFormed(Path(false, ["conf", "sync-server.toml"]))
    ensures ParsePath("conf/sync-server.toml") == Path(false, ["conf", "sync-server.toml"])
    ensures ParsePath(".") == Path(false, ["."])
  {
    hide ParsePath, Render, WellFormed;
    ExampleIsWellFormed();
    ExampleIsRendered();
    ParseRender(Path(false, ["conf", "sync-server.toml"]));
    ParseRender(Path(false, ["."]));
  }

  lemma ExampleIsWellFormed()
    ensures WellFormed(Path(false, ["conf", "sync-server.toml"])) && WellFormed(Path(false, ["."]))
  {}

  lemma ExampleIsRendered()
    ensures Render(Path(false, ["conf", "sync-server.toml"])) == "conf/sync-server.toml"
    ensures Render(Path(false, ["."])) == "."
  {
    assert ["conf", "sync-server.toml"][1..] == ["sync-server.toml"];
    assert "conf" + "/" + "sync-server.toml" == "conf/sync-server.toml";
  }
}
