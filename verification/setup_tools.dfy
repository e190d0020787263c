/** The setup wizard behind the `get_setup_status`, `configure` and
    `import_server_config` tools: a fixed registry of known settings, dotted
    keys read and written in the nested tables of `config.toml`, the
    per-setting validators, readiness of the required settings, and the
    whitelisted import of a shared server configuration. The TOML file is a
    value (`Obj`): loading it is a parameter, saving it is a flag saying
    whether the write succeeded. */
module SetupTools {
  import opened Wrappers
  import opened Json
  import opened Strings

  // ---------------------------------------------------------------- registry

  /** The validator a registry entry names. */
  datatype Check = NonEmpty | PathExists | Url | LogLevel | Choice | PositiveInt | Unchecked

  /** One entry of the settings registry; its dotted name is `section.name`. */
  datatype Setting = Setting(
    section: string, name: string, required: bool, sensitive: bool,
    default: Json, check: Check, allowed: seq<string>)

  function Key(s: Setting): string {
    s.section + "." + s.name
  }

  /** The registry, in its declaration order: three required settings, then
      seven optional ones. No setting is marked sensitive. */
  const Registry: seq<Setting> := [
    Setting("google", "credentials_path", true, false, JStr("credentials.json"), PathExists, []),
    Setting("google", "projects_folder_id", true, false, JStr(""), NonEmpty, []),
    Setting("session", "user_name", true, false, JStr(""), NonEmpty, []),
    Setting("google", "token_path", false, false, JStr("token.json"), Unchecked, []),
    Setting("services", "memory_server_url", false, false, JStr("http://localhost:8080"), Url, []),
    Setting("services", "memory_server_type", false, false, JStr("rest"), Choice, ["rest", "mcp"]),
    Setting("services", "rag_server_url", false, false, JStr("http://localhost:8000"), Url, []),
    Setting("services", "rag_collection", false, false, JStr("prismind"), Unchecked, []),
    Setting("log", "level", false, false, JStr("INFO"), LogLevel, ["DEBUG", "INFO", "WARNING", "ERROR"]),
    Setting("session", "auto_save_interval", false, false, JInt(20), PositiveInt, [])
  ]

  /** The first entry of `reg` with the dotted name `key`. */
  function LookupIn(reg: seq<Setting>, key: string): (r: Option<Setting>)
    ensures r.Some? ==> r.value in reg && Key(r.value) == key
    ensures r.None? <==> forall s :: s in reg ==> Key(s) != key
    decreases |reg|
  {
    if |reg| == 0 then None
    else if Key(reg[0]) == key then Some(reg[0])
    else LookupIn(reg[1..], key)
  }

  /** `SETTINGS_REGISTRY.get(key)`. */
  function Lookup(key: string): Option<Setting> {
    LookupIn(Registry, key)
  }

  /** The dotted names of `reg`, in order. */
  function SettingNames(reg: seq<Setting>): (r: seq<string>)
    ensures |r| == |reg|
  {
    seq(|reg|, i requires 0 <= i < |reg| => Key(reg[i]))
  }

  /** `get_available_settings`. */
  function AvailableSettings(): seq<string> {
    SettingNames(Registry)
  }

  /** A name is known to `configure` exactly when `get_available_settings`
      lists it. */
  lemma AvailableAreKnown(reg: seq<Setting>, key: string)
    ensures LookupIn(reg, key).Some? <==> key in SettingNames(reg)
  {
    var names := SettingNames(reg);
    if LookupIn(reg, key).Some? {
      var s := LookupIn(reg, key).value;
      var i :| 0 <= i < |reg| && reg[i] == s;
      assert names[i] == key;
    }
    if key in names {
      var i :| 0 <= i < |names| && names[i] == key;
      assert Key(reg[i]) == key;
    }
  }

  /** `key.split(".")` of a dotted name whose two halves hold no dot. */
  lemma SplitKey(section: string, name: string)
    requires '.' !in section && '.' !in name
    ensures Split(section + "." + name, '.') == [section, name]
  {
    assert section + "." + name == section + ['.'] + name;
    SplitFirst(section, '.', name);
    SplitNoSep(name, '.');
  }

  // ------------------------------------------------------------ dotted keys

  /** `_get_nested_value` along a path of parts: `None` as soon as a part is
      missing or the value reached is not a table. */
  function GetPath(v: Json, parts: seq<string>): Option<Json>
    decreases |parts|
  {
    if |parts| == 0 then Some(v)
    else if v.JObj? && parts[0] in v.fields then GetPath(v.fields[parts[0]], parts[1..])
    else None
  }

  /** `_get_nested_value(data, key)`. */
  function GetNested(data: Obj, key: string): Option<Json> {
    GetPath(JObj(data), Split(key, '.'))
  }

  /** Walking `a + b` is walking `a`, then `b` from where `a` ends. */
  lemma {:induction false} GetPathAppend(v: Json, a: seq<string>, b: seq<string>)
    ensures GetPath(v, a + b)
         == (if GetPath(v, a).None? then None else GetPath(GetPath(v, a).value, b))
    decreases |a|
  {
    if |a| > 0 {
      assert (a + b)[0] == a[0];
      assert (a + b)[1..] == a[1..] + b;
      if v.JObj? && a[0] in v.fields {
        GetPathAppend(v.fields[a[0]], a[1..], b);
      }
    } else {
      assert a + b == b;
    }
  }

  /** The walk that stops at part `i`: the prefix before it reaches a value
      that is not a table, or a table without that part. */
  predicate BlockedAt(v: Json, parts: seq<string>, i: nat)
    requires i < |parts|
  {
    var u := GetPath(v, parts[..i]);
    u.Some? && !(u.value.JObj? && parts[i] in u.value.fields)
  }

  /** `_get_nested_value` returns `None` exactly when some dotted segment is
      missing or is reached through a value that is not a table. */
  lemma {:induction false} GetPathNone(v: Json, parts: seq<string>)
    ensures GetPath(v, parts).None? <==> exists i :: 0 <= i < |parts| && BlockedAt(v, parts, i)
    decreases |parts|
  {
    if |parts| > 0 {
      assert parts[..0] == [];
      if v.JObj? && parts[0] in v.fields {
        var c := v.fields[parts[0]];
        var t := parts[1..];
        GetPathNone(c, t);
        forall i | 0 < i < |parts|
          ensures BlockedAt(v, parts, i) <==> BlockedAt(c, t, i - 1)
        {
          assert parts[..i] == [parts[0]] + t[..i - 1];
          GetPathAppend(v, [parts[0]], t[..i - 1]);
          assert GetPath(v, [parts[0]]) == Some(c) by {
            assert [parts[0]][1..] == [];
          }
        }
        if GetPath(v, parts).None? {
          var j :| 0 <= j < |t| && BlockedAt(c, t, j);
          assert BlockedAt(v, parts, j + 1);
        }
        if exists i :: 0 <= i < |parts| && BlockedAt(v, parts, i) {
          var i :| 0 <= i < |parts| && BlockedAt(v, parts, i);
          assert i != 0;
          assert BlockedAt(c, t, i - 1);
        }
      } else {
        assert BlockedAt(v, parts, 0);
      }
    }
  }

  /** `_set_nested_value` along a path of at least one part: a missing
      intermediate table is created; an intermediate value that is not a
      table makes Python raise (item assignment on, or membership in, a
      non-dict), which is `None` here. */
  function SetPath(m: Obj, parts: seq<string>, value: Json): Option<Obj>
    requires |parts| >= 1
    decreases |parts|
  {
    if |parts| == 1 then Some(m[parts[0] := value])
    else
      var child := if parts[0] in m then m[parts[0]] else JObj(map[]);
      if !child.JObj? then None
      else match SetPath(child.fields, parts[1..], value)
        case None => None
        case Some(t) => Some(m[parts[0] := JObj(t)])
  }

  /** `_set_nested_value(data, key, value)`. */
  function SetNested(data: Obj, key: string, value: Json): Option<Obj> {
    SetPath(data, Split(key, '.'), value)
  }

  /** After a successful set, getting the same path returns the value. */
  lemma {:induction false} SetThenGet(m: Obj, parts: seq<string>, value: Json)
    requires |parts| >= 1
    requires SetPath(m, parts, value).Some?
    ensures GetPath(JObj(SetPath(m, parts, value).value), parts) == Some(value)
    decreases |parts|
  {
    var r := SetPath(m, parts, value).value;
    if |parts| == 1 {
      assert parts[1..] == [];
    } else {
      var child := if parts[0] in m then m[parts[0]] else JObj(map[]);
      SetThenGet(child.fields, parts[1..], value);
    }
  }

  /** A set leaves every path that parts ways with it at some segment `i`
      (same parts before `i`, a different part at `i`) reading as before. */
  lemma {:induction false} SetKeepsOthers(m: Obj, parts: seq<string>, value: Json, q: seq<string>, i: nat)
    requires |parts| >= 1
    requires SetPath(m, parts, value).Some?
    requires i < |parts| && i < |q| && parts[..i] == q[..i] && parts[i] != q[i]
    ensures GetPath(JObj(SetPath(m, parts, value).value), q) == GetPath(JObj(m), q)
    decreases i
  {
    var r := SetPath(m, parts, value).value;
    if i == 0 {
      assert q[0] != parts[0];
      assert q[0] in r <==> q[0] in m;
      assert q[0] in m ==> r[q[0]] == m[q[0]];
    } else {
      assert parts[0] == q[0] by {
        assert parts[..i][0] == q[..i][0];
      }
      var child := if parts[0] in m then m[parts[0]] else JObj(map[]);
      var t := SetPath(child.fields, parts[1..], value).value;
      assert parts[1..][..i - 1] == q[1..][..i - 1] by {
        assert parts[1..][..i - 1] == parts[..i][1..];
        assert q[1..][..i - 1] == q[..i][1..];
      }
      SetKeepsOthers(child.fields, parts[1..], value, q[1..], i - 1);
    }
  }

  /** A set fails exactly when some proper prefix of the path already holds
      a value that is not a table; otherwise every missing table is created. */
  lemma {:induction false} SetFails(m: Obj, parts: seq<string>, value: Json)
    requires |parts| >= 1
    ensures SetPath(m, parts, value).None?
        <==> exists i :: 1 <= i < |parts| && Scalar(GetPath(JObj(m), parts[..i]))
    decreases |parts|
  {
    if |parts| > 1 {
      var t := parts[1..];
      assert parts[..1] == [parts[0]];
      assert GetPath(JObj(m), [parts[0]]) == (if parts[0] in m then Some(m[parts[0]]) else None) by {
        assert [parts[0]][1..] == [];
      }
      if parts[0] in m && m[parts[0]].JObj? {
        var c := m[parts[0]];
        SetFails(c.fields, t, value);
        forall i | 1 < i < |parts|
          ensures GetPath(JObj(m), parts[..i]) == GetPath(c, t[..i - 1])
        {
          assert parts[..i] == [parts[0]] + t[..i - 1];
          GetPathAppend(JObj(m), [parts[0]], t[..i - 1]);
        }
        if SetPath(m, parts, value).None? {
          var j :| 1 <= j < |t| && Scalar(GetPath(JObj(c.fields), t[..j]));
          assert Scalar(GetPath(JObj(m), parts[..j + 1]));
        }
        if exists i :: 1 <= i < |parts| && Scalar(GetPath(JObj(m), parts[..i])) {
          var i :| 1 <= i < |parts| && Scalar(GetPath(JObj(m), parts[..i]));
          assert i != 1;
          assert Scalar(GetPath(JObj(c.fields), t[..i - 1]));
        }
      } else if parts[0] in m {
        assert Scalar(GetPath(JObj(m), parts[..1]));
      } else {
        SetFreshSucceeds(t, value);
        forall i | 1 <= i < |parts|
          ensures GetPath(JObj(m), parts[..i]) == None
        {
          assert parts[..i] == [parts[0]] + parts[1..i];
          GetPathAppend(JObj(m), [parts[0]], parts[1..i]);
        }
      }
    }
  }

  /** A value reached that is not a table. */
  predicate Scalar(u: Option<Json>) {
    u.Some? && !u.value.JObj?
  }

  /** Setting a path inside a fresh table always succeeds. */
  lemma {:induction false} SetFreshSucceeds(parts: seq<string>, value: Json)
    requires |parts| >= 1
    ensures SetPath(map[], parts, value).Some?
    decreases |parts|
  {
    if |parts| > 1 {
      SetFreshSucceeds(parts[1..], value);
    }
  }

  // ---------------------------------------------------------------- masking

  function Stars(n: nat): (r: string)
    ensures |r| == n && forall i :: 0 <= i < n ==> r[i] == '*'
  {
    seq(n, _ => '*')
  }

  /** `_mask_sensitive`: a sensitive, non-empty value keeps its first and last
      two characters when longer than four and is all stars otherwise. */
  function Mask(value: string, sensitive: bool): (r: string)
    ensures |r| == |value|
    ensures !sensitive ==> r == value
    ensures sensitive && |value| > 4
        ==> r[..2] == value[..2] && r[|r| - 2..] == value[|value| - 2..]
    ensures sensitive ==> forall i :: 0 <= i < |r| && (|r| <= 4 || 2 <= i < |r| - 2) ==> r[i] == '*'
  {
    if sensitive && |value| > 0 then
      if |value| > 4 then value[..2] + Stars(|value| - 4) + value[|value| - 2..]
      else Stars(|value|)
    else value
  }

  /** Masking twice shows what masking once shows. */
  lemma MaskIdempotent(value: string, sensitive: bool)
    ensures Mask(Mask(value, sensitive), sensitive) == Mask(value, sensitive)
  {
    var once := Mask(value, sensitive);
    var twice := Mask(once, sensitive);
    assert |twice| == |once|;
    if sensitive && |value| > 4 {
      forall i | 0 <= i < |once|
        ensures twice[i] == once[i]
      {
        if i < 2 {
          assert twice[..2][i] == once[..2][i];
        } else if i >= |once| - 2 {
          assert twice[|twice| - 2..][i - (|once| - 2)] == once[|once| - 2..][i - (|once| - 2)];
        }
      }
    }
  }

  /** `get_setup_status` never masks anything: no registered setting is sensitive. */
  lemma NothingMasked(value: string)
    ensures forall i :: 0 <= i < |Registry| ==> Mask(value, Registry[i].sensitive) == value
  {
    forall i | 0 <= i < |Registry|
      ensures !Registry[i].sensitive
    {
    }
  }

  // ------------------------------------------------------------- validation

  /** Why `_validate_value` rejects a value (its one error message). */
  datatype Problem = Empty | NotUrl | NotAllowed | NotPositive | NotInteger

  /** The outcome of `_validate_value`: no error, one error, or an exception
      (a string method called on a value of another type) that escapes. */
  datatype Verdict = Valid | Invalid(problem: Problem) | Raises

  /** `int(value)`; `None` where Python raises ValueError or TypeError. */
  function ToInt(v: Json): Option<int> {
    match v
    case JInt(i) => Some(i)
    case JBool(b) => Some(if b then 1 else 0)
    case JStr(s) => ParseInt(s)
    case _ => None
  }

  /** One validator applied to a value; `allowed` is the entry's allowed values. */
  function CheckValue(check: Check, allowed: seq<string>, v: Json): (r: Verdict)
    ensures v.JStr? ==> r != Raises
    ensures r == Raises ==> Truthy(v) && !v.JStr?
    ensures check == NonEmpty && r == Valid ==> Truthy(v) && (v.JStr? ==> |Strip(v.s)| > 0)
    ensures check == Url && r == Valid && v.JStr? && v.s != ""
        ==> StartsWith(v.s, "http://") || StartsWith(v.s, "https://")
    ensures check == LogLevel && r == Valid && v.JStr? && v.s != "" ==> Upper(v.s) in allowed
    ensures check == Choice && r == Valid ==> !Truthy(v) || (v.JStr? && v.s in allowed)
    ensures check == PositiveInt ==> (r == Valid <==> ToInt(v).Some? && ToInt(v).value >= 1)
    ensures check in {PathExists, Unchecked} && v.JStr? ==> r == Valid
  {
    match check
    case NonEmpty =>
      if !Truthy(v) || (v.JStr? && |Strip(v.s)| == 0) then Invalid(Empty) else Valid
    case PathExists =>
      // a missing file only logs a warning; `Path(value)` raises on a non-string
      if Truthy(v) && !v.JStr? then Raises else Valid
    case Url =>
      if !Truthy(v) then Valid
      else if !v.JStr? then Raises
      else if StartsWith(v.s, "http://") || StartsWith(v.s, "https://") then Valid
      else Invalid(NotUrl)
    case LogLevel =>
      if !Truthy(v) then Valid
      else if !v.JStr? then Raises
      else if Upper(v.s) in allowed then Valid
      else Invalid(NotAllowed)
    case Choice =>
      if Truthy(v) && !(v.JStr? && v.s in allowed) then Invalid(NotAllowed) else Valid
    case PositiveInt =>
      (match ToInt(v)
       case None => Invalid(NotInteger)
       case Some(n) => if n < 1 then Invalid(NotPositive) else Valid)
    case Unchecked => Valid
  }

  /** `_validate_value(key, value)` against the registry `reg`: a key outside
      the registry is never checked. */
  function ValidateIn(reg: seq<Setting>, key: string, v: Json): (r: Verdict)
    ensures LookupIn(reg, key).None? ==> r == Valid
    ensures LookupIn(reg, key).Some? ==> r == CheckValue(LookupIn(reg, key).value.check, LookupIn(reg, key).value.allowed, v)
  {
    match LookupIn(reg, key)
    case None => Valid
    case Some(s) => CheckValue(s.check, s.allowed, v)
  }

  // ------------------------------------------------------------------ status

  /** `current_value is not None and current_value != ""`. */
  predicate IsConfigured(v: Option<Json>) {
    v.Some? && v.value != JStr("")
  }

  /** One `SettingStatus`: the raw current value stands for its displayed text. */
  datatype Status = Status(name: string, required: bool, configured: bool, current: Option<Json>, default: Json)

  datatype SetupStatus = SetupStatus(ready: bool, required: seq<Status>, optional: seq<Status>, missing: seq<string>)

  function StatusOf(data: Obj, s: Setting): (r: Status)
    ensures r.name == Key(s) && r.required == s.required
    ensures r.configured <==> IsConfigured(GetNested(data, Key(s)))
  {
    var current := GetNested(data, Key(s));
    Status(Key(s), s.required, IsConfigured(current), current, s.default)
  }

  /** A required entry of `reg` that `data` leaves unconfigured. */
  predicate Unmet(data: Obj, s: Setting) {
    s.required && !IsConfigured(GetNested(data, Key(s)))
  }

  /** `get_setup_status` over the entries of `reg` (`Registry` in the server),
      in order: each status lands in the required or the optional list. */
  function GetSetupStatus(data: Obj, reg: seq<Setting>): (r: SetupStatus)
    ensures |r.required| + |r.optional| == |reg|
    ensures forall i :: 0 <= i < |r.required| ==> r.required[i].required
    ensures forall i :: 0 <= i < |r.optional| ==> !r.optional[i].required
    decreases |reg|
  {
    if |reg| == 0 then SetupStatus(true, [], [], [])
    else
      var rest := GetSetupStatus(data, reg[..|reg| - 1]);
      var st := StatusOf(data, reg[|reg| - 1]);
      if st.required then
        SetupStatus(rest.ready && st.configured, rest.required + [st], rest.optional,
                    rest.missing + (if st.configured then [] else [st.name]))
      else
        SetupStatus(rest.ready, rest.required, rest.optional + [st], rest.missing)
  }

  /** Ready exactly when every required setting has a value that is neither
      absent nor the empty string, which is when nothing is reported missing. */
  lemma {:induction false} StatusReady(data: Obj, reg: seq<Setting>)
    ensures GetSetupStatus(data, reg).ready
        <==> forall s :: s in reg && s.required ==> IsConfigured(GetNested(data, Key(s)))
    ensures GetSetupStatus(data, reg).ready <==> |GetSetupStatus(data, reg).missing| == 0
    decreases |reg|
  {
    if |reg| > 0 {
      var front := reg[..|reg| - 1];
      assert reg == front + [reg[|reg| - 1]];
      StatusReady(data, front);
    }
  }

  /** The names reported missing are exactly the required settings left
      unconfigured. */
  lemma {:induction false} StatusMissing(data: Obj, reg: seq<Setting>)
    ensures forall k :: (k in GetSetupStatus(data, reg).missing
                         <==> exists s :: s in reg && Unmet(data, s) && Key(s) == k)
    decreases |reg|
  {
    if |reg| > 0 {
      var front := reg[..|reg| - 1];
      assert reg == front + [reg[|reg| - 1]];
      StatusMissing(data, front);
    }
  }

  /** A fresh install (no config file, so an empty table) is not ready, and
      the credentials path is among the missing settings. */
  lemma EmptyNotReady()
    ensures !GetSetupStatus(map[], Registry).ready
    ensures Key(Registry[0]) in GetSetupStatus(map[], Registry).missing
  {
    var s := Registry[0];
    assert GetPath(JObj(map[]), Split(Key(s), '.')) == None;
    assert Unmet(map[], s);
    StatusReady(map[], Registry);
    StatusMissing(map[], Registry);
  }

  // ---------------------------------------------------------------- configure

  datatype Configured = Unknown | Rejected(problem: Problem) | SaveFailed | Changed(previous: Option<Json>, stored: Json)

  /** What `configure` stores once the validator has accepted the text: an
      integer for `positive_int`, the upper-cased text for `log_level`, the
      text itself otherwise. */
  function Converted(s: Setting, value: string): (r: Json)
    requires !CheckValue(s.check, s.allowed, JStr(value)).Invalid?
    ensures s.check == PositiveInt ==> r.JInt? && r.i >= 1 && ParseInt(value) == Some(r.i)
    ensures s.check == LogLevel ==> r == JStr(Upper(value)) && (value == "" || Upper(value) in s.allowed)
    ensures s.check == NonEmpty ==> r == JStr(value) && |Strip(value)| > 0
  {
    ValidText(s, value);
    if s.check == PositiveInt then JInt(ParseInt(value).value)
    else if s.check == LogLevel then JStr(Upper(value))
    else JStr(value)
  }

  /** What an accepted text means for the validators that convert it. */
  lemma ValidText(s: Setting, value: string)
    requires !CheckValue(s.check, s.allowed, JStr(value)).Invalid?
    ensures s.check == PositiveInt ==> ParseInt(value).Some? && ParseInt(value).value >= 1
    ensures s.check == LogLevel ==> value == "" || Upper(value) in s.allowed
    ensures s.check == NonEmpty ==> |Strip(value)| > 0
  {
    var v := JStr(value);
    assert CheckValue(s.check, s.allowed, v) == Valid;
    if s.check == PositiveInt {
      assert ToInt(v) == ParseInt(value);
    } else if s.check == LogLevel {
      assert value != "" ==> Truthy(v);
    }
  }

  /** The remaining validators store the text unchanged, and only a URL
      with an `http://` or `https://` scheme or one of the allowed choices
      gets through (the empty string always does). */
  lemma ConvertedText(s: Setting, value: string)
    requires !CheckValue(s.check, s.allowed, JStr(value)).Invalid?
    ensures s.check == Url ==>
      Converted(s, value) == JStr(value) &&
      (value == "" || StartsWith(value, "http://") || StartsWith(value, "https://"))
    ensures s.check == Choice ==> Converted(s, value) == JStr(value) && (value == "" || value in s.allowed)
    ensures s.check in {PathExists, Unchecked} ==> Converted(s, value) == JStr(value)
  {
  }

  /** `configure(setting, value)` against the loaded config `data`; `reg` is
      the settings registry (`Registry` in the server) and `saveOk` says
      whether writing the file succeeds. The result pairs the outcome with
      the file's contents afterwards; `None` is the exception a non-table
      intermediate value makes `_set_nested_value` raise. */
  function Configure(reg: seq<Setting>, data: Obj, setting: string, value: string, saveOk: bool): (r: Option<(Configured, Obj)>)
    ensures LookupIn(reg, setting).None? ==> r == Some((Unknown, data))
    ensures r.Some? && !r.value.0.Changed? ==> r.value.1 == data
    ensures r.Some? && r.value.0.Rejected?
        <==> LookupIn(reg, setting).Some? && CheckValue(LookupIn(reg, setting).value.check, LookupIn(reg, setting).value.allowed, JStr(value)).Invalid?
    ensures r.Some? && r.value.0.Rejected?
        ==> r.value.0.problem == CheckValue(LookupIn(reg, setting).value.check, LookupIn(reg, setting).value.allowed, JStr(value)).problem
    ensures r.Some? && r.value.0.Changed? ==>
      saveOk && LookupIn(reg, setting).Some? &&
      !CheckValue(LookupIn(reg, setting).value.check, LookupIn(reg, setting).value.allowed, JStr(value)).Invalid? &&
      r.value.0.stored == Converted(LookupIn(reg, setting).value, value) &&
      r.value.0.previous == GetNested(data, setting) &&
      GetNested(r.value.1, setting) == Some(r.value.0.stored)
    ensures r.Some? && r.value.0 == SaveFailed ==> !saveOk
    ensures r.None? ==>
      LookupIn(reg, setting).Some? &&
      !CheckValue(LookupIn(reg, setting).value.check, LookupIn(reg, setting).value.allowed, JStr(value)).Invalid? &&
      SetNested(data, setting, Converted(LookupIn(reg, setting).value, value)).None?
  {
    match LookupIn(reg, setting)
    case None => Some((Unknown, data))
    case Some(s) =>
      var verdict := CheckValue(s.check, s.allowed, JStr(value));
      if verdict.Invalid? then Some((Rejected(verdict.problem), data))
      else
        var v := Converted(s, value);
        var before := GetNested(data, setting);
        match SetNested(data, setting, v)
        case None => None
        case Some(d) =>
          HitStoredAt(data, setting, v);
          if !saveOk then Some((SaveFailed, data))
          else Some((Changed(before, v), d))
  }

  /** A successful set of a dotted key reads back through the same key. */
  lemma HitStoredAt(data: Obj, key: string, v: Json)
    ensures SetNested(data, key, v).Some? ==> GetNested(SetNested(data, key, v).value, key) == Some(v)
  {
    if SetNested(data, key, v).Some? {
      SetThenGet(data, Split(key, '.'), v);
    }
  }

  /** `configure` leaves every key that parts ways with the configured one as it was. */
  lemma ConfigureKeepsOthers(reg: seq<Setting>, data: Obj, setting: string, value: string, saveOk: bool, other: string, i: nat)
    requires Configure(reg, data, setting, value, saveOk).Some?
    requires i < |Split(setting, '.')| && i < |Split(other, '.')|
    requires Split(setting, '.')[..i] == Split(other, '.')[..i]
    requires Split(setting, '.')[i] != Split(other, '.')[i]
    ensures GetNested(Configure(reg, data, setting, value, saveOk).value.1, other) == GetNested(data, other)
  {
    var r := Configure(reg, data, setting, value, saveOk).value;
    if r.0.Changed? {
      var v := Converted(LookupIn(reg, setting).value, value);
      SetKeepsOthers(data, Split(setting, '.'), v, Split(other, '.'), i);
    }
  }

  /** The credentials path is checked only for existence, with a warning:
      configuring it to the empty string succeeds yet leaves the wizard not ready. */
  lemma EmptyCredentialsStayUnset(data: Obj)
    requires Configure(Registry, data, Key(Registry[0]), "", true).Some?
    ensures Configure(Registry, data, Key(Registry[0]), "", true).value.0.Changed?
    ensures !GetSetupStatus(Configure(Registry, data, Key(Registry[0]), "", true).value.1, Registry).ready
  {
    var s := Registry[0];
    assert LookupIn(Registry, Key(s)) == Some(s);
    assert Converted(s, "") == JStr("");
    var r := Configure(Registry, data, Key(s), "", true).value;
    assert GetNested(r.1, Key(s)) == Some(JStr(""));
    assert Unmet(r.1, s);
    StatusReady(r.1, Registry);
  }

  // ----------------------------------------------------------------- import

  /** The keys `import_server_config` reads, in order, as (table, key). */
  const ImportKeys: seq<(string, string)> := [
    ("services", "memory_server_url"), ("services", "memory_server_type"),
    ("services", "rag_server_url"), ("services", "rag_collection"),
    ("log", "level"), ("log", "format"),
    ("session", "auto_save_interval")
  ]

  function Dotted(p: (string, string)): string {
    p.0 + "." + p.1
  }

  /** `key in table` followed by `table[key]` on the imported document. */
  datatype Member = Absent | Present(value: Json) | Raised

  function MemberOf(doc: Obj, p: (string, string)): Member
  {
    if p.0 !in doc then Absent
    else match doc[p.0]
      case JObj(f) => if p.1 in f then Present(f[p.1]) else Absent
      // substring test on a string, then indexing it by a string raises
      case JStr(s) => if Contains(s, p.1) then Raised else Absent
      // equality test on a list, then indexing it by a string raises
      case JList(items) => if JStr(p.1) in items then Raised else Absent
      // `in` on a number, a boolean or None raises
      case _ => Raised
  }

  /** The running state of the import loop. */
  datatype Progress = Progress(config: Obj, imported: seq<string>, skipped: seq<string>, problems: seq<Problem>)

  /** One key of the import loop; `None` is an exception that escapes. */
  function ImportStep(reg: seq<Setting>, doc: Obj, st: Progress, p: (string, string)): Option<Progress> {
    match MemberOf(doc, p)
    case Absent => Some(st)
    case Raised => None
    case Present(v) =>
      var k := Dotted(p);
      match ValidateIn(reg, k, v)
      case Raises => None
      case Invalid(problem) => Some(st.(skipped := st.skipped + [k], problems := st.problems + [problem]))
      case Valid =>
        match SetNested(st.config, k, v)
        case None => None
        case Some(c) => Some(st.(config := c, imported := st.imported + [k]))
  }

  /** The import loop over `keys`, starting from the current config. */
  function ImportAll(reg: seq<Setting>, doc: Obj, current: Obj, keys: seq<(string, string)>): (r: Option<Progress>)
    ensures r.Some? ==> forall k :: k in r.value.imported ==> k in Names(keys)
    ensures r.Some? ==> forall k :: k in r.value.skipped ==> k in Names(keys)
    decreases |keys|
  {
    if |keys| == 0 then Some(Progress(current, [], [], []))
    else
      var front := keys[..|keys| - 1];
      match ImportAll(reg, doc, current, front)
      case None => None
      case Some(st) => ImportStep(reg, doc, st, keys[|keys| - 1])
  }

  function Names(keys: seq<(string, string)>): (r: seq<string>)
    ensures |r| == |keys| && forall i :: 0 <= i < |keys| ==> r[i] == Dotted(keys[i])
  {
    seq(|keys|, i requires 0 <= i < |keys| => Dotted(keys[i]))
  }

  datatype Imported =
    | ParseError
    | ImportSaveFailed
    | Done(success: bool, imported: seq<string>, skipped: seq<string>, problems: seq<Problem>)

  /** `import_server_config`: `reg` is the registry the validators come from
      (`Registry` in the server), `doc` the parsed TOML (`None` when it does
      not parse), `current` the loaded config, `saveOk` whether writing the
      file succeeds. The result pairs the outcome with the file's contents
      afterwards; `None` is an exception that escapes. */
  function ImportServerConfig(reg: seq<Setting>, doc: Option<Obj>, current: Obj, saveOk: bool): (r: Option<(Imported, Obj)>)
    ensures doc.None? ==> r == Some((ParseError, current))
    ensures r.Some? && r.value.0.Done? ==> (r.value.0.success <==> |r.value.0.imported| > 0)
    ensures r.Some? && !(r.value.0.Done? && r.value.0.success) ==> r.value.1 == current
    ensures r.Some? && r.value.0.Done? ==>
      forall k :: k in r.value.0.imported + r.value.0.skipped ==> k in Names(ImportKeys)
    ensures r.Some? && r.value.0 == ImportSaveFailed ==> !saveOk
    ensures r.Some? && r.value.0.Done? && r.value.0.success ==> saveOk
  {
    match doc
    case None => Some((ParseError, current))
    case Some(d) =>
      match ImportAll(reg, d, current, ImportKeys)
      case None => None
      case Some(st) =>
        if |st.imported| > 0 && !saveOk then Some((ImportSaveFailed, current))
        else
          var written := if |st.imported| > 0 then st.config else current;
          Some((Done(|st.imported| > 0, st.imported, st.skipped, st.problems), written))
  }

  // ------------------------------------------------------- import properties

  /** The (table, key) pairs hold no dot, so each dotted name splits back into its pair. */
  predicate WellKeyed(keys: seq<(string, string)>) {
    forall j :: 0 <= j < |keys| ==> '.' !in keys[j].0 && '.' !in keys[j].1
  }

  predicate Distinct(keys: seq<(string, string)>) {
    forall i, j :: 0 <= i < j < |keys| ==> keys[i] != keys[j]
  }

  /** Two dot-free pairs with the same dotted name are the same pair. */
  lemma DottedInjective(p: (string, string), q: (string, string))
    requires '.' !in p.0 && '.' !in p.1 && '.' !in q.0 && '.' !in q.1
    ensures Dotted(p) == Dotted(q) ==> p == q
  {
    SplitKey(p.0, p.1);
    SplitKey(q.0, q.1);
  }

  /** The whitelist is dot-free and lists each key once. */
  lemma ImportKeysWellKeyed()
    ensures WellKeyed(ImportKeys) && Distinct(ImportKeys)
  {
    ImportKeysDotFree();
  }

  lemma ImportKeysDotFree()
    ensures WellKeyed(ImportKeys)
  {
  }

  /** How the import classified one whitelisted key: a key present in the
      document is either imported (it validated) or skipped (it did not),
      never both; an absent key is neither. */
  predicate Classified(reg: seq<Setting>, doc: Obj, imported: seq<string>, skipped: seq<string>, p: (string, string)) {
    var k := Dotted(p);
    match MemberOf(doc, p)
    case Present(v) =>
      (k in imported && k !in skipped && ValidateIn(reg, k, v) == Valid)
      || (k in skipped && k !in imported && ValidateIn(reg, k, v).Invalid?)
    case _ => k !in imported && k !in skipped
  }

  /** One step classifies its own key and keeps the classification of the
      keys before it. */
  lemma StepClassifies(reg: seq<Setting>, doc: Obj, st: Progress, p: (string, string), front: seq<(string, string)>)
    requires WellKeyed(front + [p]) && Distinct(front + [p])
    requires forall k :: k in st.imported + st.skipped ==> k in Names(front)
    requires forall j :: 0 <= j < |front| ==> Classified(reg, doc, st.imported, st.skipped, front[j])
    requires ImportStep(reg, doc, st, p).Some?
    ensures forall j :: 0 <= j < |front| ==>
      Classified(reg, doc, ImportStep(reg, doc, st, p).value.imported, ImportStep(reg, doc, st, p).value.skipped, front[j])
    ensures Classified(reg, doc, ImportStep(reg, doc, st, p).value.imported, ImportStep(reg, doc, st, p).value.skipped, p)
  {
    var keys := front + [p];
    assert keys[|front|] == p;
    forall j | 0 <= j < |front|
      ensures Dotted(front[j]) != Dotted(p)
    {
      assert keys[j] == front[j];
      DottedInjective(front[j], p);
    }
    assert Dotted(p) !in Names(front);
    var k := Dotted(p);
    assert k !in st.imported && k !in st.skipped;
  }

  /** Every whitelisted key the loop visits ends up classified. */
  lemma {:induction false} ImportAllClassifies(reg: seq<Setting>, doc: Obj, current: Obj, keys: seq<(string, string)>)
    requires WellKeyed(keys) && Distinct(keys)
    requires ImportAll(reg, doc, current, keys).Some?
    ensures forall j :: 0 <= j < |keys| ==>
      Classified(reg, doc, ImportAll(reg, doc, current, keys).value.imported, ImportAll(reg, doc, current, keys).value.skipped, keys[j])
    decreases |keys|
  {
    if |keys| > 0 {
      var front := keys[..|keys| - 1];
      var p := keys[|keys| - 1];
      assert keys == front + [p];
      var st := ImportAll(reg, doc, current, front).value;
      ImportAllClassifies(reg, doc, current, front);
      StepClassifies(reg, doc, st, p, front);
    }
  }

  /** `import_server_config` sorts every whitelisted key the document holds
      into exactly one of imported or skipped, and mentions no other key. */
  lemma ImportPartition(reg: seq<Setting>, doc: Obj, current: Obj, saveOk: bool)
    requires ImportServerConfig(reg, Some(doc), current, saveOk).Some?
    requires ImportServerConfig(reg, Some(doc), current, saveOk).value.0.Done?
    ensures forall j :: 0 <= j < |ImportKeys| ==>
      Classified(reg, doc, ImportServerConfig(reg, Some(doc), current, saveOk).value.0.imported,
                 ImportServerConfig(reg, Some(doc), current, saveOk).value.0.skipped, ImportKeys[j])
  {
    ImportKeysWellKeyed();
    ImportAllClassifies(reg, doc, current, ImportKeys);
  }

  /** A path lies outside the pair `p` when it differs from `[p.0, p.1]` in
      its first or second segment. */
  predicate Apart(q: seq<string>, p: (string, string)) {
    |q| >= 1 && (q[0] != p.0 || (|q| >= 2 && q[1] != p.1))
  }

  /** One step leaves every path apart from its key as it was. */
  lemma StepKeepsOthers(reg: seq<Setting>, doc: Obj, st: Progress, p: (string, string), q: seq<string>)
    requires '.' !in p.0 && '.' !in p.1
    requires ImportStep(reg, doc, st, p).Some? && Apart(q, p)
    ensures GetPath(JObj(ImportStep(reg, doc, st, p).value.config), q) == GetPath(JObj(st.config), q)
  {
    var st2 := ImportStep(reg, doc, st, p).value;
    if st2.config != st.config {
      var v := MemberOf(doc, p).value;
      SplitKey(p.0, p.1);
      var parts := [p.0, p.1];
      assert SetPath(st.config, parts, v) == Some(st2.config);
      if q[0] != p.0 {
        SetKeepsOthers(st.config, parts, v, q, 0);
      } else {
        assert parts[..1] == q[..1];
        SetKeepsOthers(st.config, parts, v, q, 1);
      }
    }
  }

  /** The loop changes nothing outside the pairs it is given. */
  lemma {:induction false} ImportAllKeepsOthers(reg: seq<Setting>, doc: Obj, current: Obj, keys: seq<(string, string)>, q: seq<string>)
    requires WellKeyed(keys)
    requires ImportAll(reg, doc, current, keys).Some?
    requires forall j :: 0 <= j < |keys| ==> Apart(q, keys[j])
    ensures GetPath(JObj(ImportAll(reg, doc, current, keys).value.config), q) == GetPath(JObj(current), q)
    decreases |keys|
  {
    if |keys| > 0 {
      var front := keys[..|keys| - 1];
      var p := keys[|keys| - 1];
      ImportAllKeepsOthers(reg, doc, current, front, q);
      StepKeepsOthers(reg, doc, ImportAll(reg, doc, current, front).value, p, q);
    }
  }

  /** `import_server_config` writes only the whitelisted keys: every other
      path of the config file reads as before. */
  lemma ImportOnlyWhitelisted(reg: seq<Setting>, doc: Obj, current: Obj, saveOk: bool, q: seq<string>)
    requires ImportServerConfig(reg, Some(doc), current, saveOk).Some?
    requires forall j :: 0 <= j < |ImportKeys| ==> Apart(q, ImportKeys[j])
    ensures GetPath(JObj(ImportServerConfig(reg, Some(doc), current, saveOk).value.1), q) == GetPath(JObj(current), q)
  {
    ImportKeysWellKeyed();
    ImportAllKeepsOthers(reg, doc, current, ImportKeys, q);
  }

  /** In particular the import never touches the `google` table, where the
      credentials path, token path and projects folder live. */
  lemma ImportKeepsGoogle(reg: seq<Setting>, doc: Obj, current: Obj, saveOk: bool, q: seq<string>)
    requires ImportServerConfig(reg, Some(doc), current, saveOk).Some?
    requires |q| >= 1 && q[0] == "google"
    ensures GetPath(JObj(ImportServerConfig(reg, Some(doc), current, saveOk).value.1), q) == GetPath(JObj(current), q)
  {
    forall j | 0 <= j < |ImportKeys|
      ensures Apart(q, ImportKeys[j])
    {
      assert |ImportKeys[j].0| != |q[0]|;
    }
    ImportOnlyWhitelisted(reg, doc, current, saveOk, q);
  }

  /** Nor the user name, which shares the `session` table with the imported
      auto-save interval. */
  lemma ImportKeepsUserName(reg: seq<Setting>, doc: Obj, current: Obj, saveOk: bool)
    requires ImportServerConfig(reg, Some(doc), current, saveOk).Some?
    ensures GetPath(JObj(ImportServerConfig(reg, Some(doc), current, saveOk).value.1), ["session", "user_name"])
         == GetPath(JObj(current), ["session", "user_name"])
  {
    ImportOnlyWhitelisted(reg, doc, current, saveOk, ["session", "user_name"]);
  }

  /** After a successful import, each imported key holds the document's value. */
  lemma {:induction false} ImportAllStores(reg: seq<Setting>, doc: Obj, current: Obj, keys: seq<(string, string)>)
    requires WellKeyed(keys) && Distinct(keys)
    requires ImportAll(reg, doc, current, keys).Some?
    ensures forall j :: 0 <= j < |keys| && Dotted(keys[j]) in ImportAll(reg, doc, current, keys).value.imported ==>
      MemberOf(doc, keys[j]).Present? &&
      GetPath(JObj(ImportAll(reg, doc, current, keys).value.config), [keys[j].0, keys[j].1])
      == Some(MemberOf(doc, keys[j]).value)
    decreases |keys|
  {
    if |keys| > 0 {
      var front := keys[..|keys| - 1];
      var p := keys[|keys| - 1];
      assert keys == front + [p];
      var st := ImportAll(reg, doc, current, front).value;
      var st2 := ImportAll(reg, doc, current, keys).value;
      ImportAllStores(reg, doc, current, front);
      ImportAllClassifies(reg, doc, current, front);
      StepClassifies(reg, doc, st, p, front);
      SplitKey(p.0, p.1);
      if Dotted(p) in st2.imported {
        SetThenGet(st.config, [p.0, p.1], MemberOf(doc, p).value);
      }
      forall j | 0 <= j < |front| && Dotted(front[j]) in st2.imported
        ensures MemberOf(doc, front[j]).Present?
        ensures GetPath(JObj(st2.config), [front[j].0, front[j].1]) == Some(MemberOf(doc, front[j]).value)
      {
        assert keys[j] == front[j];
        DottedInjective(front[j], p);
        assert Dotted(front[j]) in st.imported;
        StepKeepsOthers(reg, doc, st, p, [front[j].0, front[j].1]);
      }
    }
  }

  /** After a successful import the config file holds, under each imported
      key, the value the shared document gave it. */
  lemma ImportStores(reg: seq<Setting>, doc: Obj, current: Obj, saveOk: bool)
    requires ImportServerConfig(reg, Some(doc), current, saveOk).Some?
    requires ImportServerConfig(reg, Some(doc), current, saveOk).value.0.Done?
    ensures forall j ::
      (0 <= j < |ImportKeys| && Dotted(ImportKeys[j]) in ImportServerConfig(reg, Some(doc), current, saveOk).value.0.imported)
      ==> (MemberOf(doc, ImportKeys[j]).Present? &&
           GetPath(JObj(ImportServerConfig(reg, Some(doc), current, saveOk).value.1), [ImportKeys[j].0, ImportKeys[j].1])
           == Some(MemberOf(doc, ImportKeys[j]).value))
  {
    ImportKeysWellKeyed();
    ImportAllStores(reg, doc, current, ImportKeys);
  }
}
