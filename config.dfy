/** AppConfig: the run's settings, read from a java.util.Properties table. Each
    numeric setting falls back to its default when it is missing, unparsable or
    outside its allowed range. */
module Config {
  import opened Wrappers
  import opened JavaText

  /** A Properties table: keys and values are strings. */
  type Properties = map<string, string>

  /** Properties.getProperty(key, def). */
  function GetProperty(p: Properties, key: string, def: string): string
  {
    if key in p then p[key] else def
  }

  /** AppConfig.parseInt: the trimmed property text as an int, or `def` when it
      does not parse or lies outside [min, max]. */
  function ParseIntProperty(p: Properties, key: string, def: Int32, min: Int32, max: Int32): (v: Int32)
    ensures v == def || min <= v <= max
  {
    match ParseInt(Trim(GetProperty(p, key, IntToString(def))))
    case None => def
    case Some(v) => if v < min || v > max then def else v
  }

  /** The text String.valueOf writes has no blank at either end. */
  lemma IntToStringEnds(v: Int32)
    ensures var s := IntToString(v); |s| > 0 && !IsBlank(s[0]) && !IsBlank(s[|s| - 1])
  {
    ParseIntOfIntToString(v);
  }

  /** A property holding an int, with any blank padding around it, yields that
      int when it is in range and the default otherwise. */
  lemma ParseIntPropertyPadded(p: Properties, key: string, def: Int32, min: Int32, max: Int32,
                               before: string, v: Int32, after: string)
    requires key in p && p[key] == before + IntToString(v) + after
    requires AllBlank(before) && AllBlank(after)
    ensures ParseIntProperty(p, key, def, min, max) == if min <= v <= max then v else def
  {
    IntToStringEnds(v);
    TrimStripsPadding(before, IntToString(v), after);
    ParseIntOfIntToString(v);
  }

  /** A missing property yields the default, whatever the range. */
  lemma ParseIntPropertyAbsent(p: Properties, key: string, def: Int32, min: Int32, max: Int32)
    requires key !in p
    ensures ParseIntProperty(p, key, def, min, max) == def
  {
    IntToStringEnds(def);
    assert [] + IntToString(def) + [] == IntToString(def);
    TrimStripsPadding([], IntToString(def), []);
    ParseIntOfIntToString(def);
  }

  /** A value other than the default comes only from a property that is present
      and whose trimmed text Integer.parseInt reads as that in-range int; so a
      blank or malformed property also yields the default. */
  lemma ParseIntPropertyOrigin(p: Properties, key: string, def: Int32, min: Int32, max: Int32)
    ensures var v := ParseIntProperty(p, key, def, min, max);
      v != def ==> key in p && ParseInt(Trim(p[key])) == Some(v) && min <= v <= max
  {
    if key !in p {
      ParseIntPropertyAbsent(p, key, def, min, max);
    }
  }

  /** The settings of one run (the three Path fields as their text). */
  datatype AppConfig = AppConfig(inputPath: string, outputPath: string, errorsPath: string,
                                 progressIntervalMs: Int32, ratePerSecond: Int32,
                                 factorialSmallMax: Int32)

  /** The private constructor AppConfig(Properties). */
  function FromProperties(p: Properties): (c: AppConfig)
    ensures 1 <= c.ratePerSecond <= 100_000
    ensures 0 <= c.factorialSmallMax <= 100_000
    ensures 50 <= c.progressIntervalMs <= 60_000
    ensures c.inputPath == GetProperty(p, "input.path", "input.txt")
    ensures c.outputPath == GetProperty(p, "output.path", "output.txt")
    ensures c.errorsPath == GetProperty(p, "errors.path", "errors.txt")
  {
    AppConfig(
      GetProperty(p, "input.path", "input.txt"),
      GetProperty(p, "output.path", "output.txt"),
      GetProperty(p, "errors.path", "errors.txt"),
      ParseIntProperty(p, "progress.interval.ms", 1000, 50, 60_000),
      ParseIntProperty(p, "rate.per.second", 100, 1, 100_000),
      ParseIntProperty(p, "factorial.small.max", 20, 0, 100_000))
  }

  /** AppConfig.loadOrDefault: `loaded` is what Properties.load read from the file,
      or None when the file does not exist; either way the result is a complete,
      in-range configuration. */
  function LoadOrDefault(loaded: Option<Properties>): (c: AppConfig)
    ensures 1 <= c.ratePerSecond <= 100_000
    ensures 0 <= c.factorialSmallMax <= 100_000
    ensures 50 <= c.progressIntervalMs <= 60_000
  {
    FromProperties(if loaded.Some? then loaded.value else map[])
  }

  /** A table without the three numeric keys gives every numeric default. */
  lemma NumericDefaults(p: Properties)
    requires "progress.interval.ms" !in p && "rate.per.second" !in p && "factorial.small.max" !in p
    ensures var c := FromProperties(p);
      c.progressIntervalMs == 1000 && c.ratePerSecond == 100 && c.factorialSmallMax == 20
  {
    ParseIntPropertyAbsent(p, "progress.interval.ms", 1000, 50, 60_000);
    ParseIntPropertyAbsent(p, "rate.per.second", 100, 1, 100_000);
    ParseIntPropertyAbsent(p, "factorial.small.max", 20, 0, 100_000);
  }

  /** With no file every setting takes its documented default. */
  lemma DefaultsWhenNoFile()
    ensures LoadOrDefault(None) == AppConfig("input.txt", "output.txt", "errors.txt", 1000, 100, 20)
  {
    NumericDefaults(map[]);
  }

  /** AppConfig.withPaths: the three given paths and every numeric default. */
  function WithPaths(input: string, output: string, errors: string): AppConfig
  {
    FromProperties(PathTable(input, output, errors))
  }

  function PathTable(input: string, output: string, errors: string): Properties
  {
    map["input.path" := input, "output.path" := output, "errors.path" := errors]
  }

  /** The table withPaths builds holds the three paths and no numeric key. */
  lemma PathTableKeys(input: string, output: string, errors: string)
    ensures var p := PathTable(input, output, errors);
      && p.Keys == {"input.path", "output.path", "errors.path"}
      && p["input.path"] == input && p["output.path"] == output && p["errors.path"] == errors
  {
  }

  /** withPaths keeps the paths it is given and takes 1000 ms, 100 per second and
      20 for the numeric settings. */
  lemma WithPathsSettings(input: string, output: string, errors: string)
    ensures WithPaths(input, output, errors) == AppConfig(input, output, errors, 1000, 100, 20)
  {
    var p := PathTable(input, output, errors);
    PathTableKeys(input, output, errors);
    assert |"progress.interval.ms"| == 20 && |"rate.per.second"| == 15 && |"factorial.small.max"| == 19;
    assert |"input.path"| == 10 && |"output.path"| == 11 && |"errors.path"| == 11;
    NumericDefaults(p);
  }
}
