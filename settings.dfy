/** Configuration read once from the environment. The environment is a parameter (a map
    from variable name to value); the settings record is an immutable value. */
module Settings {

  import opened Wrappers
  import opened Text
  import opened Numerals

  type Env = map<string, string>

  /** The frozen settings record; a datatype value cannot change after construction. */
  datatype Settings = Settings(
    port: int,
    corsOrigins: string,
    logLevel: string,
    delayMs: int,
    maxMessageBytes: int)

  /** `_env_int`: the variable parsed as an integer, or `default` when it is unset or does
      not parse. */
  function EnvInt(env: Env, name: string, default: int): (r: int)
    ensures name !in env ==> r == default
    ensures name in env && ParseInt(env[name]).None? ==> r == default
    ensures name in env && ParseInt(env[name]).Some? ==> r == ParseInt(env[name]).value
  {
    match Get(env, name)
    case None => default
    case Some(value) => ParseInt(value).GetOr(default)
  }

  /** `_env_str`, that is `os.getenv(name, default)`: the value of a set variable, even an
      empty one, and the default only for an unset one. */
  function EnvStr(env: Env, name: string, default: string): (r: string)
    ensures name in env ==> r == env[name]
    ensures name !in env ==> r == default
  {
    Get(env, name).GetOr(default)
  }

  /** `get_settings`, with the defaults of the source. */
  function GetSettings(env: Env): (s: Settings)
    ensures env == map[] ==> s == Settings(8000, "http://localhost:5173", "info", 80, 10240)
  {
    Settings(
      EnvInt(env, "PORT", 8000),
      EnvStr(env, "CORS_ORIGINS", "http://localhost:5173"),
      EnvStr(env, "LOG_LEVEL", "info"),
      EnvInt(env, "DELAY_MS", 80),
      EnvInt(env, "MAX_MESSAGE_BYTES", 10_240))
  }

  /** An integer written out in decimal is read back as that integer, unless it has more
      digits than `int()` converts, in which case the default is used. */
  lemma EnvIntReadsBack(env: Env, name: string, n: int, default: int)
    requires name in env && env[name] == ShowInt(n)
    ensures var m: nat := if n < 0 then -n else n;
            EnvInt(env, name, default) == if |ShowNat(m)| <= MAX_STR_DIGITS then n else default
  {
    ParseShow(n);
  }

  /** The non-blank parts, stripped, in their original order. */
  function StrippedNonBlank(parts: seq<string>): (r: seq<string>)
    ensures forall i :: 0 <= i < |r| ==> r[i] != "" && !IsSpace(r[i][0]) && !IsSpace(r[i][|r[i]| - 1])
    ensures |r| <= |parts|
  {
    if parts == [] then []
    else
      var t := Strip(parts[0]);
      var rest := StrippedNonBlank(parts[1..]);
      if t == "" then rest else [t] + rest
  }

  lemma {:induction false} StrippedNonBlankFreeOf(parts: seq<string>, sep: char)
    requires forall i :: 0 <= i < |parts| ==> FreeOf(parts[i], sep)
    ensures forall i :: 0 <= i < |StrippedNonBlank(parts)| ==> FreeOf(StrippedNonBlank(parts)[i], sep)
  {
    if parts != [] {
      StripFreeOf(parts[0], sep);
      StrippedNonBlankFreeOf(parts[1..], sep);
    }
  }

  /** The `cors_origin_list` property: the comma-separated entries of `corsOrigins`,
      stripped, blank ones dropped. */
  function CorsOriginList(s: Settings): (r: seq<string>)
    ensures forall i :: 0 <= i < |r| ==> r[i] != ""
    ensures forall i :: 0 <= i < |r| ==> !IsSpace(r[i][0]) && !IsSpace(r[i][|r[i]| - 1])
    ensures forall i :: 0 <= i < |r| ==> FreeOf(r[i], ',')
  {
    StrippedNonBlankFreeOf(Split(s.corsOrigins, ','), ',');
    StrippedNonBlank(Split(s.corsOrigins, ','))
  }

  lemma {:induction false} StrippedNonBlankAppend(p: seq<string>, q: seq<string>)
    ensures StrippedNonBlank(p + q) == StrippedNonBlank(p) + StrippedNonBlank(q)
  {
    if p == [] {
      assert p + q == q;
    } else {
      assert (p + q)[0] == p[0] && (p + q)[1..] == p[1..] + q;
      StrippedNonBlankAppend(p[1..], q);
      if Strip(p[0]) != "" {
        var t, x, y := [Strip(p[0])], StrippedNonBlank(p[1..]), StrippedNonBlank(q);
        assert t + (x + y) == (t + x) + y;
      }
    }
  }

  /** A comma splits the origin list in two: the entries before it, then those after. */
  lemma CorsOriginsAtComma(s: Settings, a: string, b: string)
    requires s.corsOrigins == a + "," + b
    ensures CorsOriginList(s) == CorsOriginList(s.(corsOrigins := a)) + CorsOriginList(s.(corsOrigins := b))
  {
    SplitAtSeparator(a, b, ',');
    StrippedNonBlankAppend(Split(a, ','), Split(b, ','));
  }

  /** An entry without a comma yields its stripped self, or nothing if it is blank. */
  lemma CorsOriginsSingle(s: Settings)
    requires FreeOf(s.corsOrigins, ',')
    ensures CorsOriginList(s) == if IsBlank(s.corsOrigins) then [] else [Strip(s.corsOrigins)]
  {
    var parts := Split(s.corsOrigins, ',');
    SplitOfJoin([s.corsOrigins], ',');
    assert parts == [s.corsOrigins];
    assert parts[1..] == [];
  }

  lemma DefaultOriginIsClean()
    ensures var o := "http://localhost:5173";
            FreeOf(o, ',') && !IsSpace(o[0]) && !IsSpace(o[|o| - 1]) && !IsBlank(o)
  {
    var o := "http://localhost:5173";
    forall i | 0 <= i < |o| ensures o[i] != ',' {
      assert o[i] in "http://localhost:5173";
    }
  }

  /** By default the only allowed origin is the local development front end. */
  lemma DefaultCorsOrigins()
    ensures CorsOriginList(GetSettings(map[])) == ["http://localhost:5173"]
  {
    var s := GetSettings(map[]);
    DefaultOriginIsClean();
    CorsOriginsSingle(s);
    StripUnpadded(s.corsOrigins);
  }
}
