/**
 * config.go: a dependency's configuration section and its accessors.
 *
 * The coercions of the typed accessors come from a foreign library; each
 * accessor takes the coercion as a parameter and this model keeps only how
 * the accessors fail. The process environment is a map parameter.
 */
module Configs {
  import opened Wrappers
  import opened Errors

  /** A value decoded from the configuration document; `Nil` is Go's nil. */
  datatype Value = Nil | Text(s: string) | Integer(n: int) | Flag(b: bool) | Decimal(x: real)

  /** Section name to that section's key-value map. */
  type Sections = map<string, map<string, Value>>

  /** `Config{name, m}`: the section `m` of the dependency called `name`. */
  datatype Config = Config(name: string, m: map<string, Value>) {

    /** Any: the stored value, or nil and an error naming the section and the key. */
    function Any(key: string): (r: (Value, Option<Error>))
      ensures r.1.None? <==> key in m
      ensures key in m ==> r.0 == m[key]
      ensures key !in m ==> r.0 == Nil && r.1 == Some(Required(name, key))
    {
      if key in m then (m[key], None) else (Nil, Some(Required(name, key)))
    }

    /** String: `toString` of whatever Any returned, with Any's error passed through. */
    function String(key: string, toString: Value -> string): (r: (string, Option<Error>))
      ensures r.1 == Any(key).1
      ensures r.1.None? <==> key in m
      ensures r.0 == toString(if key in m then m[key] else Nil)
    {
      var (v, err) := Any(key);
      (toString(v), err)
    }

    /** Bool: as String, with a coercion to bool. */
    function Bool(key: string, toBool: Value -> bool): (r: (bool, Option<Error>))
      ensures r.1 == Any(key).1
      ensures r.1.None? <==> key in m
      ensures r.0 == toBool(if key in m then m[key] else Nil)
    {
      var (v, err) := Any(key);
      (toBool(v), err)
    }

    /** Int: as String, with a coercion to int. */
    function Int(key: string, toInt: Value -> int): (r: (int, Option<Error>))
      ensures r.1 == Any(key).1
      ensures r.1.None? <==> key in m
      ensures r.0 == toInt(if key in m then m[key] else Nil)
    {
      var (v, err) := Any(key);
      (toInt(v), err)
    }

    /** Float: as String, with a coercion to a real number. */
    function Float(key: string, toFloat: Value -> real): (r: (real, Option<Error>))
      ensures r.1 == Any(key).1
      ensures r.1.None? <==> key in m
      ensures r.0 == toFloat(if key in m then m[key] else Nil)
    {
      var (v, err) := Any(key);
      (toFloat(v), err)
    }

    /** Duration: as String, with a coercion to a number of nanoseconds. */
    function Duration(key: string, toDuration: Value -> int): (r: (int, Option<Error>))
      ensures r.1 == Any(key).1
      ensures r.1.None? <==> key in m
      ensures r.0 == toDuration(if key in m then m[key] else Nil)
    {
      var (v, err) := Any(key);
      (toDuration(v), err)
    }

    /**
     * EnvString: the string value, except that a value "$X" stands for the
     * environment variable X, which must be set and not empty.
     */
    function EnvString(key: string, toString: Value -> string, env: map<string, string>): (r: (string, Option<Error>))
      ensures key !in m ==> r == ("", Some(Required(name, key)))
      ensures key in m && !IsIndirect(toString(m[key])) ==> r == (toString(m[key]), None)
      ensures key in m && IsIndirect(toString(m[key])) ==>
        var x := toString(m[key])[1..];
        if x != "" && x in env && env[x] != "" then r == (env[x], None) else r == ("", Some(EnvEmpty(name, key)))
    {
      var (s, err) := String(key, toString);
      if err.Some? then ("", err)
      else if !IsIndirect(s) then (s, None)
      else
        var e := Getenv(env, s[1..]);
        if e == "" then ("", Some(EnvEmpty(name, key))) else (e, None)
    }
  }

  /** `strings.HasPrefix(s, "$")`. */
  predicate IsIndirect(s: string) {
    |s| > 0 && s[0] == '$'
  }

  /**
   * `os.Getenv` over the environment `env`: an unset variable reads as "",
   * and so does the empty name, whatever `env` binds to it.
   */
  function Getenv(env: map<string, string>, x: string): string {
    if x != "" && x in env then env[x] else ""
  }

  /** `emptyConfig`: no name and no keys. */
  const EmptyConfig: Config := Config("", map[])

  /**
   * pickConfig: the section of `name` from the document behind `diGlobal`,
   * or `EmptyConfig` when nothing was parsed or the section is absent.
   */
  function PickConfig(parsed: bool, sections: Sections, name: string): (c: Config)
    ensures parsed && name in sections ==> c == Config(name, sections[name])
    ensures !parsed || name !in sections ==> c == EmptyConfig
  {
    if !parsed then EmptyConfig
    else if name !in sections then EmptyConfig
    else Config(name, sections[name])
  }

  /** Every lookup on the empty config fails, and its error carries no section name. */
  lemma EmptyConfigLacksEveryKey(key: string)
    ensures EmptyConfig.Any(key) == (Nil, Some(Required("", key)))
  {
  }

  /**
   * A key resolves through pickConfig exactly when the document was parsed,
   * has the section, and the section has the key; then it yields the stored value.
   */
  lemma PickConfigResolves(parsed: bool, sections: Sections, name: string, key: string)
    ensures PickConfig(parsed, sections, name).Any(key).1.None? <==>
              parsed && name in sections && key in sections[name]
    ensures parsed && name in sections && key in sections[name] ==>
              PickConfig(parsed, sections, name).Any(key).0 == sections[name][key]
  {
  }

  /** The behaviour of EnvString on "$FOO" and on a plain value. */
  lemma EnvStringExamples()
    ensures var c := Config("x/db", map["path" := Text("$FOO"), "mode" := Text("plain")]);
      var toString := (v: Value) => if v.Text? then v.s else "";
      && c.EnvString("path", toString, map[]) == ("", Some(EnvEmpty("x/db", "path")))
      && c.EnvString("path", toString, map["FOO" := ""]) == ("", Some(EnvEmpty("x/db", "path")))
      && c.EnvString("path", toString, map["FOO" := "bar"]) == ("bar", None)
      && c.EnvString("mode", toString, map["FOO" := "bar"]) == ("plain", None)
      && c.EnvString("size", toString, map[]) == ("", Some(Required("x/db", "size")))
      && Config("s", map["k" := Text("$")]).EnvString("k", toString, map["" := "x"]) == ("", Some(EnvEmpty("s", "k")))
  {
  }
}
