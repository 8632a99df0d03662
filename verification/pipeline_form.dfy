/** The pipeline edit dialog, without its widgets: how the stored pipeline
    fills the form, and how the form's text turns back into a pipeline on
    accept. JSON encoding and decoding of the plugin configuration are
    parameters. */
module PipelineForm {
  import opened Wrappers
  import opened Text
  import opened Pipelines

  /** The value range of the sync-days spin box. */
  const MinSyncDays: int := 0
  const MaxSyncDays: int := 999

  /** The days a new pipeline starts with. */
  const DefaultSyncDays: int := 1

  /** The entries of the direction box, in order. */
  const Directions: seq<string> := [LocalToDeviceName, DeviceToLocalName, BidirectionalName]

  /** The form's contents: the text of every line edit, the direction box,
      the spin box, the selected plugin (`None` for "(no plugin)") and the
      configuration text. */
  datatype Form = Form(
    name: string,
    local: string,
    device: string,
    serial: string,
    direction: string,
    includeText: string,
    excludeText: string,
    syncDays: int,
    plugin: Option<string>,
    configText: string)

  /** What the widgets themselves guarantee: the direction box holds one of
      its entries and the spin box stays within its range. */
  predicate WidgetsHold(f: Form) {
    f.direction in Directions && MinSyncDays <= f.syncDays <= MaxSyncDays
  }

  // ------------------------------------------------------------ extensions

  /** An extension as the parsed list holds it: non-empty, without
      surrounding whitespace, and without a comma. */
  predicate CleanExtension(e: string) {
    |e| > 0 && IsStripped(e) && ',' !in e
  }

  /** The stripped pieces, empty ones dropped. */
  function KeepStripped(pieces: seq<string>): (exts: seq<string>)
    requires forall i :: 0 <= i < |pieces| ==> ',' !in pieces[i]
    ensures |exts| <= |pieces|
    ensures forall i :: 0 <= i < |exts| ==> CleanExtension(exts[i])
    decreases |pieces|
  {
    if |pieces| == 0 then []
    else
      var e := Strip(pieces[0]);
      StripShape(pieces[0]);
      var rest := KeepStripped(pieces[1..]);
      if e == "" then rest else [e] + rest
  }

  /** The include/exclude line edit read back: split on commas, every piece
      stripped, empty pieces dropped. */
  function ParseExtensions(text: string): (exts: seq<string>)
    ensures forall i :: 0 <= i < |exts| ==> CleanExtension(exts[i])
  {
    KeepStripped(Split(text, ','))
  }

  /** The line edit filled from a list: the extensions joined with commas. */
  function ShowExtensions(exts: seq<string>): string {
    Join(exts, ',')
  }

  /** Clean extensions come back as they were. */
  lemma {:induction false} KeepClean(exts: seq<string>)
    requires forall i :: 0 <= i < |exts| ==> CleanExtension(exts[i])
    ensures (forall i :: 0 <= i < |exts| ==> ',' !in exts[i]) && KeepStripped(exts) == exts
    decreases |exts|
  {
    if |exts| > 0 {
      StripStripped(exts[0]);
      KeepClean(exts[1..]);
    }
  }

  /** Filling the line edit from a list of clean extensions and reading it
      back gives the same list. */
  lemma ParseShow(exts: seq<string>)
    requires forall i :: 0 <= i < |exts| ==> CleanExtension(exts[i])
    ensures ParseExtensions(ShowExtensions(exts)) == exts
  {
    if |exts| == 0 {
      assert Split("", ',') == [""];
      StripEmpty("");
    } else {
      SplitJoin(exts, ',');
      KeepClean(exts);
    }
  }

  /** Reading is a normal form: showing what was read and reading it again
      changes nothing. */
  lemma ParseIdempotent(text: string)
    ensures ParseExtensions(ShowExtensions(ParseExtensions(text))) == ParseExtensions(text)
  {
    ParseShow(ParseExtensions(text));
  }

  /** Whitespace around a piece and blank pieces make no difference: text
      such as `" .jpg , ,.png"` reads as `[".jpg", ".png"]`. */
  lemma ParseSkipsBlank(pre: string, x: string, post: string, blank: string, y: string)
    requires AllSpace(pre) && AllSpace(post) && AllSpace(blank)
    requires CleanExtension(x) && CleanExtension(y)
    ensures ParseExtensions(Join([pre + x + post, blank, y], ',')) == [x, y]
  {
    var pieces := [pre + x + post, blank, y];
    PaddedCommaFree(pre, x, post, blank, y);
    SplitJoin(pieces, ',');
    StripPadded(pre, x, post);
    KeepSkipsBlank(pre + x + post, x, blank, y);
  }

  lemma PaddedCommaFree(pre: string, x: string, post: string, blank: string, y: string)
    requires AllSpace(pre) && AllSpace(post) && AllSpace(blank)
    requires CleanExtension(x) && CleanExtension(y)
    ensures forall i :: 0 <= i < 3 ==> ',' !in [pre + x + post, blank, y][i]
  {
    assert ',' !in pre && ',' !in post && ',' !in blank;
    assert ',' !in pre + x + post;
  }

  lemma KeepSkipsBlank(a: string, x: string, blank: string, y: string)
    requires Strip(a) == x && CleanExtension(x) && CleanExtension(y) && AllSpace(blank)
    requires ',' !in a && ',' !in blank
    ensures KeepStripped([a, blank, y]) == [x, y]
  {
    StripEmpty(blank);
    StripStripped(y);
    assert KeepStripped([y]) == [y] by {
      assert [y][1..] == [];
    }
    assert KeepStripped([blank, y]) == [y] by {
      assert [blank, y][1..] == [y];
    }
    assert [a, blank, y][1..] == [blank, y];
  }

  // ------------------------------------------------------------- opening

  /** The direction box after `setCurrentText`: text that is not one of its
      entries leaves the first entry selected. */
  function SelectDirection(d: string): (r: string)
    ensures r in Directions
    ensures d in Directions ==> r == d
    ensures d !in Directions ==> r == LocalToDeviceName
  {
    if d in Directions then d else LocalToDeviceName
  }

  /** The spin box after `setValue`: the value clamped into its range. */
  function ClampDays(n: int): (r: int)
    ensures MinSyncDays <= r <= MaxSyncDays
    ensures MinSyncDays <= n <= MaxSyncDays ==> r == n
    ensures n < MinSyncDays ==> r == MinSyncDays
    ensures n > MaxSyncDays ==> r == MaxSyncDays
  {
    if n < MinSyncDays then MinSyncDays else if n > MaxSyncDays then MaxSyncDays else n
  }

  /** The plugin box: the stored plugin when it is among the offered names,
      "(no plugin)" otherwise. */
  function SelectPlugin(plugin: Option<string>, names: seq<string>): (r: Option<string>)
    ensures r.Some? ==> r.value in names && r == plugin
    ensures plugin.Some? && plugin.value in names ==> r == plugin
  {
    if plugin.Some? && plugin.value in names then plugin else None
  }

  /** `setup_ui`: the form for an existing pipeline, or for a new one
      (`None`) with empty text, the first direction, one day and no plugin.
      The configuration text is the JSON dump of a non-empty configuration
      and stays empty otherwise. */
  function InitialForm(original: Option<Pipeline>, names: seq<string>, dumps: PluginConfig -> string): (f: Form)
    ensures WidgetsHold(f)
    ensures original.None? ==>
      f == Form("", "", "", "", LocalToDeviceName, "", "", DefaultSyncDays, None, "")
    ensures original.Some? ==>
      var p := original.value;
      && f.name == p.name && f.local == p.local && f.device == p.device && f.serial == p.deviceSerial
      && f.includeText == ShowExtensions(p.includeExtensions) && f.excludeText == ShowExtensions(p.excludeExtensions)
      && f.direction == SelectDirection(p.direction) && f.syncDays == ClampDays(p.syncDays)
      && f.plugin == SelectPlugin(p.plugin, names)
      && f.configText == (if p.pluginConfig == map[] then "" else dumps(p.pluginConfig))
  {
    match original
    case None => Form("", "", "", "", LocalToDeviceName, "", "", ClampDays(DefaultSyncDays), None, "")
    case Some(p) =>
      Form(p.name, p.local, p.device, p.deviceSerial, SelectDirection(p.direction),
           ShowExtensions(p.includeExtensions), ShowExtensions(p.excludeExtensions),
           ClampDays(p.syncDays), SelectPlugin(p.plugin, names),
           if p.pluginConfig == map[] then "" else dumps(p.pluginConfig))
  }

  // ------------------------------------------------------------- accepting

  /** `get_pipeline`: the line edits verbatim except the serial, which is
      stripped; the extension lists parsed; the plugin configuration read
      only when a plugin is selected, and empty when none is or the text is
      not valid JSON (`loads` gives `None`); `auto_sync` carried over from
      the pipeline being edited, false for a new one. */
  function GetPipeline(f: Form, original: Option<Pipeline>, loads: string -> Option<PluginConfig>): (p: Pipeline)
    ensures p.name == f.name && p.local == f.local && p.device == f.device
    ensures p.deviceSerial == Strip(f.serial)
    ensures p.direction == f.direction && p.syncDays == f.syncDays && p.plugin == f.plugin
    ensures p.includeExtensions == ParseExtensions(f.includeText)
    ensures p.excludeExtensions == ParseExtensions(f.excludeText)
    ensures f.plugin.None? || f.plugin.value == "" ==> p.pluginConfig == map[]
    ensures f.plugin.Some? && f.plugin.value != "" && loads(f.configText).None? ==> p.pluginConfig == map[]
    ensures f.plugin.Some? && f.plugin.value != "" && loads(f.configText).Some? ==> p.pluginConfig == loads(f.configText).value
    ensures p.autoSync == (original.Some? && original.value.autoSync)
  {
    var config := if f.plugin.Some? && f.plugin.value != "" then loads(f.configText).GetOr(map[]) else map[];
    Pipeline(f.name, f.local, f.device, Strip(f.serial), f.direction,
             ParseExtensions(f.includeText), ParseExtensions(f.excludeText), f.syncDays,
             f.plugin, config, original.Some? && original.value.autoSync)
  }

  /** A pipeline the dialog can hold unchanged: clean extension lists, an
      offered direction and plugin, days in range, a stripped serial, and a
      configuration only alongside a plugin. */
  predicate Representable(p: Pipeline, names: seq<string>) {
    && (forall i :: 0 <= i < |p.includeExtensions| ==> CleanExtension(p.includeExtensions[i]))
    && (forall i :: 0 <= i < |p.excludeExtensions| ==> CleanExtension(p.excludeExtensions[i]))
    && p.direction in Directions
    && MinSyncDays <= p.syncDays <= MaxSyncDays
    && IsStripped(p.deviceSerial)
    && (p.plugin.Some? ==> p.plugin.value in names && p.plugin.value != "")
    && (p.plugin.None? ==> p.pluginConfig == map[])
  }

  /** Opening the dialog on a representable pipeline and accepting it
      untouched gives the same pipeline back, provided the configuration's
      JSON text reads back as itself and empty text reads as `{}`. */
  lemma EditUnchanged(p: Pipeline, names: seq<string>, dumps: PluginConfig -> string, loads: string -> Option<PluginConfig>)
    requires Representable(p, names)
    requires p.pluginConfig != map[] ==> loads(dumps(p.pluginConfig)) == Some(p.pluginConfig)
    requires p.plugin.Some? && p.pluginConfig == map[] ==> loads("").None? || loads("") == Some(map[])
    ensures GetPipeline(InitialForm(Some(p), names, dumps), Some(p), loads) == p
  {
    ParseShow(p.includeExtensions);
    ParseShow(p.excludeExtensions);
    StripStripped(p.deviceSerial);
  }

  /** Every accepted pipeline has an offered direction, days in range and
      clean extension lists, whatever was typed into the form. */
  lemma AcceptedWellFormed(f: Form, original: Option<Pipeline>, loads: string -> Option<PluginConfig>)
    requires WidgetsHold(f)
    ensures var p := GetPipeline(f, original, loads);
      && p.direction in Directions
      && MinSyncDays <= p.syncDays <= MaxSyncDays
      && IsStripped(p.deviceSerial)
  {
    StripShape(f.serial);
  }
}
