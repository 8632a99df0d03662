/** The date-interval plugin: the device directory rolls over every
    `interval_days` days, counted from `start_date`, and is named by
    formatting the first day of the current period. Dates are day numbers
    (days since 1970-01-01); date parsing and `strftime` are parameters. */
module DateInterval {
  import opened Wrappers
  import opened Pipelines
  import Paths
  import Plugins

  const DefaultBasePath: string := ""
  const DefaultIntervalDays: int := 10
  const DefaultDateFormat: string := "%m-%d"
  const DefaultStartText: string := "2026-01-01"
  /** 2026-01-01 as a day number. */
  const DefaultStartDay: int := 20454

  /** The fields the constructor stores. The first three keep whatever JSON
      value the configuration holds, since Python does not check their types
      until they are used. */
  datatype Settings = Settings(basePath: ConfigValue, intervalDays: ConfigValue, dateFormat: ConfigValue, startDay: int)

  function Lookup(config: PluginConfig, key: string, default: ConfigValue): ConfigValue {
    if key in config then config[key] else default
  }

  /** The constructor: missing fields take their defaults, and a start date
      that is missing, not a string, or not a `YYYY-MM-DD` date falls back to
      2026-01-01. */
  function Init(config: PluginConfig, parseDate: string -> Option<int>): (s: Settings)
    ensures "base_path" !in config ==> s.basePath == CStr(DefaultBasePath)
    ensures "interval_days" !in config ==> s.intervalDays == CInt(DefaultIntervalDays)
    ensures "date_format" !in config ==> s.dateFormat == CStr(DefaultDateFormat)
    ensures "base_path" in config ==> s.basePath == config["base_path"]
    ensures "interval_days" in config ==> s.intervalDays == config["interval_days"]
    ensures "date_format" in config ==> s.dateFormat == config["date_format"]
    ensures "start_date" in config && !config["start_date"].CStr? ==> s.startDay == DefaultStartDay
    ensures "start_date" in config && config["start_date"].CStr? ==>
      s.startDay == parseDate(config["start_date"].str).GetOr(DefaultStartDay)
    ensures "start_date" !in config ==> s.startDay == parseDate(DefaultStartText).GetOr(DefaultStartDay)
  {
    var startText := Lookup(config, "start_date", CStr(DefaultStartText));
    var start := if startText.CStr? then parseDate(startText.str).GetOr(DefaultStartDay) else DefaultStartDay;
    Settings(
      Lookup(config, "base_path", CStr(DefaultBasePath)),
      Lookup(config, "interval_days", CInt(DefaultIntervalDays)),
      Lookup(config, "date_format", CStr(DefaultDateFormat)),
      start)
  }

  /** Python's `a // b`: division rounding toward negative infinity. */
  function FloorDiv(a: int, b: int): int
    requires b != 0
  {
    if b > 0 then a / b else (-a) / (-b)
  }

  /** `a - b * (a // b)` lies between 0 and `b`, on the side of `b`. */
  lemma FloorDivBounds(a: int, b: int)
    requires b != 0
    ensures b > 0 ==> 0 <= a - b * FloorDiv(a, b) < b
    ensures b < 0 ==> b < a - b * FloorDiv(a, b) <= 0
  {
    if b > 0 {
      assert a == b * (a / b) + a % b;
    } else {
      var q := (-a) / (-b);
      assert -a == (-b) * q + (-a) % (-b);
      assert a - b * q == -((-a) % (-b));
    }
  }

  lemma MultipleMod(q: int, b: int)
    requires b != 0
    ensures (q * b) % b == 0
  {
    var a := q * b;
    var r := a % b;
    var d := q - a / b;
    assert a == b * (a / b) + r;
    assert b * d == r;
    if d != 0 {
      AbsProduct(b, d);
    }
  }

  /** A non-zero multiple of `b` is at least `|b|` away from zero. */
  lemma AbsProduct(b: int, d: int)
    requires b != 0 && d != 0
    ensures b * d >= (if b > 0 then b else -b) || b * d <= -(if b > 0 then b else -b)
  {
  }

  /** First day of the period containing `today`:
      `start + ((today - start) // interval) * interval`. For a positive
      interval it lies at most `interval - 1` days before `today`, also when
      `today` precedes `start`, and sits a whole number of intervals away
      from `start`; a negative interval mirrors this above `today`. */
  function PeriodStart(start: int, today: int, interval: int): (r: int)
    requires interval != 0
    ensures interval > 0 ==> r <= today < r + interval
    ensures interval < 0 ==> r + interval < today <= r
    ensures (r - start) % interval == 0
  {
    var q := FloorDiv(today - start, interval);
    FloorDivBounds(today - start, interval);
    MultipleMod(q, interval);
    start + q * interval
  }

  /** The interval as Python's `//` and `timedelta` use it: an integer as
      itself and a boolean as 1 or 0 (`bool` is a subclass of `int`); any
      other modelled value makes `//` raise. */
  function IntervalOf(v: ConfigValue): (n: Option<int>)
    ensures v.CInt? ==> n == Some(v.num)
    ensures v.CBool? ==> n == Some(if v.flag then 1 else 0)
    ensures n.Some? <==> v.CInt? || v.CBool?
  {
    match v
    case CInt(k) => Some(k)
    case CBool(b) => Some(if b then 1 else 0)
    case _ => None
  }

  /** `on_path_resolve`: the local path is the pipeline's own; the device
      path is the base path joined with the formatted period start, with
      every backslash turned into `/`. A wrongly typed setting or a zero
      interval raises. */
  function ResolvePaths(s: Settings, pl: Pipeline, today: int, strftime: (int, string) -> string): (r: Result<(string, string)>)
    ensures r.Ok? <==> IntervalOf(s.intervalDays).Some? && IntervalOf(s.intervalDays).value != 0
                       && s.dateFormat.CStr? && s.basePath.CStr?
    ensures r.Ok? ==> r.value.0 == pl.local
    ensures r.Ok? ==> '\\' !in r.value.1
    ensures r.Ok? ==> var period := PeriodStart(s.startDay, today, IntervalOf(s.intervalDays).value);
      Paths.ToSlashes(Paths.Join(s.basePath.str, strftime(period, s.dateFormat.str))) == r.value.1
  {
    var interval := IntervalOf(s.intervalDays);
    if interval.None? then Err("unsupported operand type(s) for //")
    else if interval.value == 0 then Err("integer division or modulo by zero")
    else if !s.dateFormat.CStr? then Err("strftime() argument 1 must be str")
    else if !s.basePath.CStr? then Err("expected str, bytes or os.PathLike object")
    else
      var period := PeriodStart(s.startDay, today, interval.value);
      var dateText := strftime(period, s.dateFormat.str);
      Ok((pl.local, Paths.ToSlashes(Paths.Join(s.basePath.str, dateText))))
  }

  /** `on_sync_start`: creates the resolved device directory, and only when
      it does not exist yet; raises when path resolution raises. */
  function OnSyncStart(s: Settings, pl: Pipeline, today: int, strftime: (int, string) -> string, pathExists: string -> bool): (r: Result<seq<string>>)
    ensures r.Ok? <==> ResolvePaths(s, pl, today, strftime).Ok?
    ensures r.Ok? ==> var dir := ResolvePaths(s, pl, today, strftime).value.1;
      (pathExists(dir) ==> r.value == []) && (!pathExists(dir) ==> r.value == [dir])
  {
    match ResolvePaths(s, pl, today, strftime)
    case Err(e) => Err(e)
    case Ok(paths) => if pathExists(paths.1) then Ok([]) else Ok([paths.1])
  }

  /** The plugin instance: the base plugin with `on_path_resolve` and
      `on_sync_start` overridden, evaluated on day `today`. */
  function Make(config: PluginConfig, parseDate: string -> Option<int>, today: int, strftime: (int, string) -> string): (p: Plugins.Plugin)
    ensures p.config == config
    ensures forall c :: p.onFileFilter(c)
    ensures forall l, d :: p.onConflict(l, d) == Plugins.SkipDecision
    ensures forall pl :: p.onPathResolve(pl) == ResolvePaths(Init(config, parseDate), pl, today, strftime)
  {
    var s := Init(config, parseDate);
    Plugins.BasePlugin(config).(
      onPathResolve := (pl: Pipeline) => ResolvePaths(s, pl, today, strftime),
      onSyncStart := (pl: Pipeline, pathExists: string -> bool) => OnSyncStart(s, pl, today, strftime, pathExists))
  }

  /** With a positive interval, a base path that does not end in a
      separator and a formatted date that does not start with one, the
      device path is `base/<formatted period start>`, and the period start
      is never after today and less than one interval before it. */
  lemma DevicePathShape(s: Settings, pl: Pipeline, today: int, strftime: (int, string) -> string)
    requires IntervalOf(s.intervalDays).Some? && IntervalOf(s.intervalDays).value > 0 && s.dateFormat.CStr? && s.basePath.CStr?
    requires |s.basePath.str| > 0 && !Paths.IsSep(s.basePath.str[|s.basePath.str| - 1])
    requires '\\' !in s.basePath.str
    requires var text := strftime(PeriodStart(s.startDay, today, IntervalOf(s.intervalDays).value), s.dateFormat.str);
      |text| == 0 || !Paths.IsSep(text[0])
    ensures var period := PeriodStart(s.startDay, today, IntervalOf(s.intervalDays).value);
      ResolvePaths(s, pl, today, strftime)
        == Ok((pl.local, s.basePath.str + "/" + Paths.ToSlashes(strftime(period, s.dateFormat.str))))
  {
    var period := PeriodStart(s.startDay, today, IntervalOf(s.intervalDays).value);
    var text := strftime(period, s.dateFormat.str);
    var base := s.basePath.str;
    assert Paths.Join(base, text) == base + "\\" + text;
    Paths.ToSlashesJoin(base, text);
  }
}
