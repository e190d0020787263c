/** The application configuration read from `config.toml`: every missing
    section or key takes the dataclass default, and `validate` lists what is
    wrong with the log level, log format and auto-save interval. */
module AppConfig {
  import opened Wrappers
  import opened Json

  datatype GoogleConfig = GoogleConfig(credentialsPath: string, tokenPath: string, projectsFolderId: string)
  datatype ServicesConfig = ServicesConfig(memoryServerUrl: string, ragServerUrl: string, ragCollection: string)
  datatype LogConfig = LogConfig(level: string, file: string, format: string)
  datatype SessionConfig = SessionConfig(autoSaveInterval: int, userName: string)
  datatype Config = Config(google: GoogleConfig, services: ServicesConfig, log: LogConfig, session: SessionConfig)

  /** `Config()`: the dataclass defaults. */
  const Default: Config := Config(
    GoogleConfig("credentials.json", "token.json", ""),
    ServicesConfig("http://localhost:8080", "http://localhost:8000", "prismind"),
    LogConfig("INFO", "", "text"),
    SessionConfig(20, ""))

  const LogLevels: seq<string> := ["DEBUG", "INFO", "WARNING", "ERROR"]
  const LogFormats: seq<string> := ["text", "json"]

  /** `data.get(name, {})`; `None` when the section is there but is not a
      table, where the following `.get` raises. */
  function Section(data: Obj, name: string): Option<Obj> {
    if name !in data then Some(map[])
    else if data[name].JObj? then Some(data[name].fields)
    else None
  }

  /** `section.get(key, default)` for a string field. */
  function Str(sec: Obj, key: string, default: string): Option<string> {
    if key !in sec then Some(default)
    else if sec[key].JStr? then Some(sec[key].s)
    else None
  }

  /** `section.get(key, default)` for an integer field. */
  function Int(sec: Obj, key: string, default: int): Option<int> {
    if key !in sec then Some(default)
    else if sec[key].JInt? then Some(sec[key].i)
    else None
  }

  /** A key of a section holds a string, or is absent. */
  predicate StrOk(sec: Obj, key: string) {
    key !in sec || sec[key].JStr?
  }

  /** A key of a section as read: the stored string, or the default. */
  predicate Reads(sec: Obj, key: string, default: string, value: string) {
    value == if key in sec && sec[key].JStr? then sec[key].s else default
  }

  function GoogleFrom(sec: Obj): (r: Option<GoogleConfig>)
    ensures r.Some? <==> StrOk(sec, "credentials_path") && StrOk(sec, "token_path") && StrOk(sec, "projects_folder_id")
    ensures r.Some? ==>
      && Reads(sec, "credentials_path", "credentials.json", r.value.credentialsPath)
      && Reads(sec, "token_path", "token.json", r.value.tokenPath)
      && Reads(sec, "projects_folder_id", "", r.value.projectsFolderId)
  {
    var d := Default.google;
    match (Str(sec, "credentials_path", d.credentialsPath), Str(sec, "token_path", d.tokenPath),
           Str(sec, "projects_folder_id", d.projectsFolderId))
    case (Some(c), Some(t), Some(f)) => Some(GoogleConfig(c, t, f))
    case _ => None
  }

  function ServicesFrom(sec: Obj): (r: Option<ServicesConfig>)
    ensures r.Some? <==>
      StrOk(sec, "memory_server_url") && StrOk(sec, "rag_server_url") && StrOk(sec, "rag_collection")
    ensures r.Some? ==>
      && Reads(sec, "memory_server_url", "http://localhost:8080", r.value.memoryServerUrl)
      && Reads(sec, "rag_server_url", "http://localhost:8000", r.value.ragServerUrl)
      && Reads(sec, "rag_collection", "prismind", r.value.ragCollection)
  {
    var d := Default.services;
    match (Str(sec, "memory_server_url", d.memoryServerUrl), Str(sec, "rag_server_url", d.ragServerUrl),
           Str(sec, "rag_collection", d.ragCollection))
    case (Some(m), Some(r), Some(c)) => Some(ServicesConfig(m, r, c))
    case _ => None
  }

  function LogFrom(sec: Obj): (r: Option<LogConfig>)
    ensures r.Some? <==> StrOk(sec, "level") && StrOk(sec, "file") && StrOk(sec, "format")
    ensures r.Some? ==>
      && Reads(sec, "level", "INFO", r.value.level)
      && Reads(sec, "file", "", r.value.file)
      && Reads(sec, "format", "text", r.value.format)
  {
    var d := Default.log;
    match (Str(sec, "level", d.level), Str(sec, "file", d.file), Str(sec, "format", d.format))
    case (Some(l), Some(f), Some(fmt)) => Some(LogConfig(l, f, fmt))
    case _ => None
  }

  /** The `auto_save_interval` key holds an integer, or is absent. */
  predicate IntervalOk(sec: Obj) {
    "auto_save_interval" !in sec || sec["auto_save_interval"].JInt?
  }

  function SessionFrom(sec: Obj): (r: Option<SessionConfig>)
    ensures r.Some? <==> IntervalOk(sec) && StrOk(sec, "user_name")
    ensures r.Some? ==>
      && r.value.autoSaveInterval == (if "auto_save_interval" in sec then sec["auto_save_interval"].i else 20)
      && Reads(sec, "user_name", "", r.value.userName)
  {
    var d := Default.session;
    match (Int(sec, "auto_save_interval", d.autoSaveInterval), Str(sec, "user_name", d.userName))
    case (Some(n), Some(u)) => Some(SessionConfig(n, u))
    case _ => None
  }

  /** `Config._from_dict(data)`: read exactly when every section is a
      table or absent and every known key holds a value of its field's
      type; sections and keys the configuration does not know are
      ignored. */
  function FromDict(data: Obj): (r: Option<Config>)
    ensures r.Some? <==> WellTyped(data)
  {
    SectionTable(data, "google");
    SectionTable(data, "services");
    SectionTable(data, "log");
    SectionTable(data, "session");
    var g, s, l, ss := Section(data, "google"), Section(data, "services"), Section(data, "log"),
                       Section(data, "session");
    if g.None? || s.None? || l.None? || ss.None? then None
    else
      var gc, sc, lc, ssc := GoogleFrom(g.value), ServicesFrom(s.value), LogFrom(l.value), SessionFrom(ss.value);
      if gc.None? || sc.None? || lc.None? || ssc.None? then None
      else Some(Config(gc.value, sc.value, lc.value, ssc.value))
  }

  const Sections: set<string> := {"google", "services", "log", "session"}

  /** A section as a table; an absent one reads as empty. */
  function Table(data: Obj, name: string): Obj {
    if name in data && data[name].JObj? then data[name].fields else map[]
  }

  /** A known section is a table, or is absent. */
  predicate TableOk(data: Obj, name: string) {
    name in data ==> data[name].JObj?
  }

  /** Every section the configuration knows is a table or absent, and each
      of its keys holds a value of its field's type or is absent. */
  predicate WellTyped(data: Obj) {
    && TableOk(data, "google") && TableOk(data, "services") && TableOk(data, "log") && TableOk(data, "session")
    && StrOk(Table(data, "google"), "credentials_path") && StrOk(Table(data, "google"), "token_path")
    && StrOk(Table(data, "google"), "projects_folder_id")
    && StrOk(Table(data, "services"), "memory_server_url") && StrOk(Table(data, "services"), "rag_server_url")
    && StrOk(Table(data, "services"), "rag_collection")
    && StrOk(Table(data, "log"), "level") && StrOk(Table(data, "log"), "file") && StrOk(Table(data, "log"), "format")
    && IntervalOk(Table(data, "session")) && StrOk(Table(data, "session"), "user_name")
  }

  lemma SectionTable(data: Obj, name: string)
    ensures Section(data, name).Some? <==> TableOk(data, name)
    ensures Section(data, name).Some? ==> Section(data, name).value == Table(data, name)
  {
  }

  /** An empty document, or one whose sections are all empty tables, is the
      default configuration. */
  lemma EmptyIsDefault()
    ensures FromDict(map[]) == Some(Default)
    ensures FromDict(map["google" := JObj(map[]), "services" := JObj(map[]), "log" := JObj(map[]),
                         "session" := JObj(map[])]) == Some(Default)
  {
  }

  /** Every field is the document's value when given and the dataclass
      default when its key or its whole section is missing. */
  lemma FieldsOrDefaults(data: Obj)
    requires FromDict(data).Some?
    ensures var c := FromDict(data).value;
      && Reads(Table(data, "google"), "credentials_path", "credentials.json", c.google.credentialsPath)
      && Reads(Table(data, "google"), "token_path", "token.json", c.google.tokenPath)
      && Reads(Table(data, "google"), "projects_folder_id", "", c.google.projectsFolderId)
      && Reads(Table(data, "services"), "memory_server_url", "http://localhost:8080", c.services.memoryServerUrl)
      && Reads(Table(data, "services"), "rag_server_url", "http://localhost:8000", c.services.ragServerUrl)
      && Reads(Table(data, "services"), "rag_collection", "prismind", c.services.ragCollection)
      && Reads(Table(data, "log"), "level", "INFO", c.log.level)
      && Reads(Table(data, "log"), "file", "", c.log.file)
      && Reads(Table(data, "log"), "format", "text", c.log.format)
      && Reads(Table(data, "session"), "user_name", "", c.session.userName)
      && c.session.autoSaveInterval
         == if "auto_save_interval" in Table(data, "session")
            then Table(data, "session")["auto_save_interval"].i else 20
  {
    SectionTable(data, "google");
    SectionTable(data, "services");
    SectionTable(data, "log");
    SectionTable(data, "session");
  }

  /** `Config.validate()`: the errors, in the order the checks run. */
  function Validate(c: Config): (errors: seq<string>)
    ensures |errors| <= 3
  {
    (if c.log.level !in LogLevels then ["Invalid log level: " + c.log.level] else [])
    + (if c.log.format !in LogFormats then ["Invalid log format: " + c.log.format] else [])
    + (if c.session.autoSaveInterval < 1 then ["auto_save_interval must be at least 1"] else [])
  }

  /** Which checks failed, read back from the error list. */
  lemma ValidateReports(c: Config)
    ensures Validate(c) == [] <==>
      c.log.level in LogLevels && c.log.format in LogFormats && c.session.autoSaveInterval >= 1
    ensures ("Invalid log level: " + c.log.level in Validate(c)) <==> c.log.level !in LogLevels
    ensures ("Invalid log format: " + c.log.format in Validate(c)) <==> c.log.format !in LogFormats
    ensures ("auto_save_interval must be at least 1" in Validate(c)) <==> c.session.autoSaveInterval < 1
  {
    var a := "Invalid log level: " + c.log.level;
    var b := "Invalid log format: " + c.log.format;
    var n := "auto_save_interval must be at least 1";
    assert a[..19] == "Invalid log level: ";
    assert b[..19] == "Invalid log format:";
    assert n[..19] == "auto_save_interval ";
    assert a != b by { assert a[..19] != b[..19]; }
    assert a != n by { assert a[..19] != n[..19]; }
    assert b != n by { assert b[..19] != n[..19]; }
  }

  /** The default configuration is valid. */
  lemma DefaultValid()
    ensures Validate(Default) == []
  {
  }
}
