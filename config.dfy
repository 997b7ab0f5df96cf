/** The processing and theme records, their dictionary forms, and the
    configuration manager that saves and loads them in a configuration directory. */
module Config {
  import opened Py

  /** A JSON scalar as `json.load` gives it back. */
  datatype Value = IntV(i: int) | RealV(r: real) | BoolV(b: bool) | StrV(s: string)

  /** A JSON object: the dictionary form of a record. */
  type Dict = map<string, Value>

  /** The processing settings, field for field in declaration order. */
  datatype ProcessingConfig = ProcessingConfig(
    targetWidth: int,
    targetHeight: int,
    removeBackground: bool,
    autoCrop: bool,
    cropPadding: int,
    fillRatio: real,
    minDimension: int,
    outputFormat: string,
    compressLevel: int,
    optimize: bool)

  /** `ProcessingConfig()`: every field at its declared default. */
  function DefaultConfig(): ProcessingConfig {
    ProcessingConfig(1000, 1000, true, true, 20, 0.80, 500, "PNG", 6, true)
  }

  lemma DefaultValues()
    ensures var c := DefaultConfig();
      && c.targetWidth == 1000 && c.targetHeight == 1000
      && c.removeBackground && c.autoCrop && c.cropPadding == 20
      && c.fillRatio == 0.80 && c.minDimension == 500
      && c.outputFormat == "PNG" && c.compressLevel == 6 && c.optimize
  {
  }

  /** The dataclass field names. */
  const ConfigFieldSet: set<string> := {
    "target_width", "target_height", "remove_background", "auto_crop", "crop_padding",
    "fill_ratio", "min_dimension", "output_format", "compress_level", "optimize"}

  /** The `target_aspect` property. */
  function TargetAspect(c: ProcessingConfig): (r: Result<real, PyException>)
    ensures r.Err? <==> c.targetHeight == 0
    ensures r.Err? ==> r.error.cls == ValueError
    ensures r.Ok? ==> r.value * c.targetHeight as real == c.targetWidth as real
  {
    if c.targetHeight == 0 then Err(PyException(ValueError, "target_height cannot be zero"))
    else Ok(c.targetWidth as real / c.targetHeight as real)
  }

  lemma TargetAspectExample()
    ensures TargetAspect(DefaultConfig().(targetWidth := 1000, targetHeight := 2000)) == Ok(0.5)
  {
  }

  /** The value a field holds, as `asdict` writes it. */
  function ConfigField(c: ProcessingConfig, key: string): Value
    requires key in ConfigFieldSet
  {
    match key
    case "target_width" => IntV(c.targetWidth)
    case "target_height" => IntV(c.targetHeight)
    case "remove_background" => BoolV(c.removeBackground)
    case "auto_crop" => BoolV(c.autoCrop)
    case "crop_padding" => IntV(c.cropPadding)
    case "fill_ratio" => RealV(c.fillRatio)
    case "min_dimension" => IntV(c.minDimension)
    case "output_format" => StrV(c.outputFormat)
    case "compress_level" => IntV(c.compressLevel)
    case _ => BoolV(c.optimize)
  }

  /** `to_dict`: one entry per dataclass field. */
  function ToDict(c: ProcessingConfig): (d: Dict)
    ensures d.Keys == ConfigFieldSet
  {
    map k | k in ConfigFieldSet :: ConfigField(c, k)
  }

  /** The value a field takes from `d`: its entry, or the default when the key is absent.
      (An entry of the wrong JSON type is ruled out by `FromDict` before these are read.) */
  function IntOr(d: Dict, key: string, default: int): int {
    if key in d && d[key].IntV? then d[key].i else default
  }

  function BoolOr(d: Dict, key: string, default: bool): bool {
    if key in d && d[key].BoolV? then d[key].b else default
  }

  /** A float field also takes a JSON integer, as Python arithmetic does. */
  function RealOr(d: Dict, key: string, default: real): real {
    if key in d && d[key].RealV? then d[key].r
    else if key in d && d[key].IntV? then d[key].i as real
    else default
  }

  function StrOr(d: Dict, key: string, default: string): string {
    if key in d && d[key].StrV? then d[key].s else default
  }

  /** Whether `v` is a value of the type field `key` declares. */
  predicate WellTyped(key: string, v: Value) {
    if key in {"remove_background", "auto_crop", "optimize"} then v.BoolV?
    else if key == "fill_ratio" then v.RealV? || v.IntV?
    else if key == "output_format" then v.StrV?
    else v.IntV?
  }

  /** `from_dict`: keeps the entries whose keys are fields; the other fields take their defaults.
      The model is typed: an entry of the wrong JSON type is reported, where Python would
      store it unchecked. */
  function FromDict(d: Dict): (r: Result<ProcessingConfig, PyException>)
    ensures r.Err? <==> exists k :: k in ConfigFieldSet && k in d && !WellTyped(k, d[k])
    ensures r.Ok? ==> forall k :: k in ConfigFieldSet && k !in d ==> ConfigField(r.value, k) == ConfigField(DefaultConfig(), k)
    ensures r.Ok? ==> forall k :: k in ConfigFieldSet && k in d && k != "fill_ratio" ==> ConfigField(r.value, k) == d[k]
    ensures r.Ok? && "fill_ratio" in d ==> r.value.fillRatio == (if d["fill_ratio"].IntV? then d["fill_ratio"].i as real else d["fill_ratio"].r)
  {
    if exists k | k in d && k in ConfigFieldSet :: !WellTyped(k, d[k]) then
      Err(PyException(TypeError, "ill-typed configuration value"))
    else
      var dflt := DefaultConfig();
      Ok(ProcessingConfig(
        IntOr(d, "target_width", dflt.targetWidth),
        IntOr(d, "target_height", dflt.targetHeight),
        BoolOr(d, "remove_background", dflt.removeBackground),
        BoolOr(d, "auto_crop", dflt.autoCrop),
        IntOr(d, "crop_padding", dflt.cropPadding),
        RealOr(d, "fill_ratio", dflt.fillRatio),
        IntOr(d, "min_dimension", dflt.minDimension),
        StrOr(d, "output_format", dflt.outputFormat),
        IntOr(d, "compress_level", dflt.compressLevel),
        BoolOr(d, "optimize", dflt.optimize)))
  }

  /** The entries of `d` whose keys are fields. */
  function FieldEntries(d: Dict): (e: Dict)
    ensures e.Keys == d.Keys * ConfigFieldSet
    ensures forall k :: k in e ==> e[k] == d[k]
  {
    map k | k in d && k in ConfigFieldSet :: d[k]
  }

  lemma FromDictIgnoresUnknownKeys(d: Dict)
    ensures FromDict(d) == FromDict(FieldEntries(d))
  {
  }

  lemma FromEmptyDictIsDefault()
    ensures FromDict(map[]) == Ok(DefaultConfig())
  {
  }

  lemma ConfigRoundTrip(c: ProcessingConfig)
    ensures FromDict(ToDict(c)) == Ok(c)
  {
    var d := ToDict(c);
    assert d["target_width"] == IntV(c.targetWidth);
    assert d["target_height"] == IntV(c.targetHeight);
    assert d["remove_background"] == BoolV(c.removeBackground);
    assert d["auto_crop"] == BoolV(c.autoCrop);
    assert d["crop_padding"] == IntV(c.cropPadding);
    assert d["fill_ratio"] == RealV(c.fillRatio);
    assert d["min_dimension"] == IntV(c.minDimension);
    assert d["output_format"] == StrV(c.outputFormat);
    assert d["compress_level"] == IntV(c.compressLevel);
    assert d["optimize"] == BoolV(c.optimize);
  }

  /** The GUI colour theme, field for field in declaration order. */
  datatype GUITheme = GUITheme(
    name: string,
    primary: string,
    dark: string,
    surface: string,
    text: string,
    success: string,
    warning: string,
    accent: string)

  /** `GUITheme()`. */
  function DefaultTheme(): GUITheme {
    GUITheme("default", "#2196F3", "#1A1A1A", "#2B2B2B", "#FFFFFF", "#4CAF50", "#FF9800", "#64B5F6")
  }

  const ThemeFieldSet: set<string> := {"name", "primary", "dark", "surface", "text", "success", "warning", "accent"}

  function ThemeField(t: GUITheme, key: string): string
    requires key in ThemeFieldSet
  {
    match key
    case "name" => t.name
    case "primary" => t.primary
    case "dark" => t.dark
    case "surface" => t.surface
    case "text" => t.text
    case "success" => t.success
    case "warning" => t.warning
    case _ => t.accent
  }

  /** `GUITheme.to_dict`. */
  function ThemeToDict(t: GUITheme): (d: Dict)
    ensures d.Keys == ThemeFieldSet
    ensures forall k :: k in d ==> d[k].StrV?
  {
    map k | k in ThemeFieldSet :: StrV(ThemeField(t, k))
  }

  /** `GUITheme.from_dict`, that is `cls(**data)`: a key that is not a field raises TypeError;
      a missing field takes its default. The model is typed: a theme field holds a string, so
      an entry that is not a JSON string is reported, where Python would store it unchecked. */
  function ThemeFromDict(d: Dict): (r: Result<GUITheme, PyException>)
    ensures r.Err? <==> exists k :: k in d && (k !in ThemeFieldSet || !d[k].StrV?)
    ensures r.Err? ==> r.error.cls == TypeError
    ensures r.Ok? ==> forall k :: k in ThemeFieldSet ==>
      ThemeField(r.value, k) == if k in d then d[k].s else ThemeField(DefaultTheme(), k)
  {
    if exists k | k in d :: k !in ThemeFieldSet then
      Err(PyException(TypeError, "GUITheme got an unexpected keyword argument"))
    else if exists k | k in d :: !d[k].StrV? then
      Err(PyException(TypeError, "ill-typed theme value"))
    else
      var dflt := DefaultTheme();
      Ok(GUITheme(
        StrOr(d, "name", dflt.name),
        StrOr(d, "primary", dflt.primary),
        StrOr(d, "dark", dflt.dark),
        StrOr(d, "surface", dflt.surface),
        StrOr(d, "text", dflt.text),
        StrOr(d, "success", dflt.success),
        StrOr(d, "warning", dflt.warning),
        StrOr(d, "accent", dflt.accent)))
  }

  lemma ThemeRoundTrip(t: GUITheme)
    ensures ThemeFromDict(ThemeToDict(t)) == Ok(t)
  {
    var d := ThemeToDict(t);
    assert d["name"] == StrV(t.name);
    assert d["primary"] == StrV(t.primary);
    assert d["dark"] == StrV(t.dark);
    assert d["surface"] == StrV(t.surface);
    assert d["text"] == StrV(t.text);
    assert d["success"] == StrV(t.success);
    assert d["warning"] == StrV(t.warning);
    assert d["accent"] == StrV(t.accent);
  }

  /** The file that holds a saved theme. */
  function ThemeFile(name: string): string {
    "theme_" + name + ".json"
  }

  /** The configuration manager. Its directory is a map from file name to the JSON
      object the file holds; a name absent from the map is a file that does not exist. */
  class ConfigManager {
    var processingConfig: ProcessingConfig
    var guiTheme: GUITheme
    var files: map<string, Dict>

    constructor (files: map<string, Dict>)
      ensures this.files == files
      ensures processingConfig == DefaultConfig() && guiTheme == DefaultTheme()
    {
      this.files := files;
      processingConfig := DefaultConfig();
      guiTheme := DefaultTheme();
    }

    /** `load_config`: replaces the processing settings only when the named file exists. */
    method LoadConfig(name: string) returns (raised: Option<PyException>)
      modifies this
      ensures files == old(files) && guiTheme == old(guiTheme)
      ensures name !in files ==> raised.None? && processingConfig == old(processingConfig)
      ensures name in files && FromDict(files[name]).Ok? ==>
        raised.None? && processingConfig == FromDict(files[name]).value
      ensures name in files && FromDict(files[name]).Err? ==>
        raised == Some(FromDict(files[name]).error) && processingConfig == old(processingConfig)
    {
      raised := None;
      if name in files {
        var loaded := FromDict(files[name]);
        if loaded.Ok? {
          processingConfig := loaded.value;
        } else {
          raised := Some(loaded.error);
        }
      }
    }

    /** `save_config`: writes the current processing settings under `name`. */
    method SaveConfig(name: string)
      modifies this
      ensures files == old(files)[name := ToDict(processingConfig)]
      ensures processingConfig == old(processingConfig) && guiTheme == old(guiTheme)
    {
      files := files[name := ToDict(processingConfig)];
    }

    /** `load_theme`: replaces the theme only when `theme_<name>.json` exists. */
    method LoadTheme(name: string) returns (raised: Option<PyException>)
      modifies this
      ensures files == old(files) && processingConfig == old(processingConfig)
      ensures ThemeFile(name) !in files ==> raised.None? && guiTheme == old(guiTheme)
      ensures ThemeFile(name) in files && ThemeFromDict(files[ThemeFile(name)]).Ok? ==>
        raised.None? && guiTheme == ThemeFromDict(files[ThemeFile(name)]).value
      ensures ThemeFile(name) in files && ThemeFromDict(files[ThemeFile(name)]).Err? ==>
        raised == Some(ThemeFromDict(files[ThemeFile(name)]).error) && guiTheme == old(guiTheme)
    {
      raised := None;
      var path := ThemeFile(name);
      if path in files {
        var loaded := ThemeFromDict(files[path]);
        if loaded.Ok? {
          guiTheme := loaded.value;
        } else {
          raised := Some(loaded.error);
        }
      }
    }

    /** `save_theme`: writes the current theme to `theme_<name>.json`. */
    method SaveTheme(name: string)
      modifies this
      ensures files == old(files)[ThemeFile(name) := ThemeToDict(guiTheme)]
      ensures processingConfig == old(processingConfig) && guiTheme == old(guiTheme)
    {
      files := files[ThemeFile(name) := ThemeToDict(guiTheme)];
    }
  }

  /** Saving, editing in memory and loading the same name restores the saved settings. */
  method SaveEditLoad(m: ConfigManager, name: string, edited: ProcessingConfig) returns (raised: Option<PyException>)
    modifies m
    ensures raised.None?
    ensures m.processingConfig == old(m.processingConfig)
    ensures m.files == old(m.files)[name := ToDict(old(m.processingConfig))]
  {
    m.SaveConfig(name);
    m.processingConfig := edited;
    ConfigRoundTrip(old(m.processingConfig));
    raised := m.LoadConfig(name);
  }

  /** Saving, editing in memory and loading a theme under the same name restores it, and the
      theme file holds it. */
  method SaveEditLoadTheme(m: ConfigManager, name: string, edited: GUITheme) returns (raised: Option<PyException>)
    modifies m
    ensures raised.None?
    ensures m.guiTheme == old(m.guiTheme)
    ensures m.files == old(m.files)[ThemeFile(name) := ThemeToDict(old(m.guiTheme))]
  {
    m.SaveTheme(name);
    m.guiTheme := edited;
    ThemeRoundTrip(old(m.guiTheme));
    raised := m.LoadTheme(name);
  }
}
