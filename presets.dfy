/** The constant tables of processing presets and GUI themes, and their lookups.
    A Python dict keeps insertion order, so each table is a sequence of (key, value)
    pairs in declaration order. */
module Presets {
  import opened Py
  import opened Config

  /** A preset as the table builds it: the four arguments it passes, `auto_crop=True`,
      and the declared default for every other field. */
  function Preset(width: int, height: int, fill: real, removeBackground: bool): ProcessingConfig {
    DefaultConfig().(targetWidth := width, targetHeight := height, fillRatio := fill,
                     removeBackground := removeBackground, autoCrop := true)
  }

  /** `PROCESSING_PRESETS`. */
  const ProcessingPresets: seq<(string, ProcessingConfig)> := [
    ("ecommerce_square", Preset(2000, 2000, 0.85, true)),
    ("ecommerce_portrait", Preset(1000, 1500, 0.80, true)),
    ("instagram_square", Preset(1080, 1080, 0.90, true)),
    ("instagram_portrait", Preset(1080, 1350, 0.85, true)),
    ("facebook_feed", Preset(1200, 630, 0.75, true)),
    ("pinterest", Preset(1000, 1500, 0.80, true)),
    ("amazon_main", Preset(2000, 2000, 0.85, false)),
    ("shopify_product", Preset(2048, 2048, 0.80, true)),
    ("twitter_card", Preset(1200, 675, 0.70, true)),
    ("thumbnail", Preset(400, 400, 0.90, true).(compressLevel := 8))
  ]

  /** `GUI_THEMES`. */
  const GuiThemes: seq<(string, GUITheme)> := [
    ("default", GUITheme("default", "#2196F3", "#1A1A1A", "#2B2B2B", "#FFFFFF", "#4CAF50", "#FF9800", "#64B5F6")),
    ("dark_blue", GUITheme("dark_blue", "#1976D2", "#0D1117", "#161B22", "#C9D1D9", "#238636", "#D29922", "#58A6FF")),
    ("purple", GUITheme("purple", "#9C27B0", "#1A1A1A", "#2B2B2B", "#FFFFFF", "#4CAF50", "#FF9800", "#BA68C8")),
    ("green", GUITheme("green", "#4CAF50", "#1A1A1A", "#2B2B2B", "#FFFFFF", "#66BB6A", "#FF9800", "#81C784")),
    ("orange", GUITheme("orange", "#FF5722", "#1A1A1A", "#2B2B2B", "#FFFFFF", "#4CAF50", "#FFA726", "#FF7043")),
    ("red", GUITheme("red", "#E31E24", "#1A1A1A", "#2B2B2B", "#FFFFFF", "#4CAF50", "#FF9800", "#FF6B6B")),
    ("minimal_light", GUITheme("minimal_light", "#000000", "#FFFFFF", "#F5F5F5", "#000000", "#2E7D32", "#F57C00", "#424242"))
  ]

  /** `list(table.keys())`. */
  function Keys<T>(table: seq<(string, T)>): (ks: seq<string>)
    ensures |ks| == |table|
    ensures forall i :: 0 <= i < |table| ==> ks[i] == table[i].0
  {
    seq(|table|, i requires 0 <= i < |table| => table[i].0)
  }

  /** `table.get(key)`: the value of the first entry with that key. */
  function Find<T(==)>(table: seq<(string, T)>, key: string): (r: Option<T>)
    ensures r.None? <==> forall i :: 0 <= i < |table| ==> table[i].0 != key
    ensures r.Some? ==> exists i :: 0 <= i < |table| && table[i] == (key, r.value)
                                  && forall j :: 0 <= j < i ==> table[j].0 != key
  {
    if |table| == 0 then None
    else if table[0].0 == key then Some(table[0].1)
    else
      var r := Find(table[1..], key);
      assert forall i :: 0 < i < |table| ==> table[i] == table[1..][i - 1];
      r
  }

  predicate DistinctKeys<T>(table: seq<(string, T)>) {
    forall i, j :: 0 <= i < j < |table| ==> table[i].0 != table[j].0
  }

  /** The KeyError text of a failed lookup. */
  function UnknownMessage(kind: string, name: string, available: seq<string>): string {
    "Unknown " + kind + " '" + name + "'. Available: " + JoinWith(", ", available)
  }

  /** `list_presets`. */
  function ListPresets(): (names: seq<string>)
    ensures names == Keys(ProcessingPresets)
  {
    Keys(ProcessingPresets)
  }

  /** `list_themes`. */
  function ListThemes(): (names: seq<string>)
    ensures names == Keys(GuiThemes)
  {
    Keys(GuiThemes)
  }

  /** `get_preset`: the table's own entry, or KeyError naming the available presets. */
  function GetPreset(name: string): (r: Result<ProcessingConfig, PyException>)
    ensures r.Ok? <==> name in ListPresets()
    ensures r.Ok? ==> exists i :: 0 <= i < |ProcessingPresets| && ProcessingPresets[i] == (name, r.value)
    ensures r.Err? ==> r.error == PyException(KeyError, UnknownMessage("preset", name, ListPresets()))
  {
    match Find(ProcessingPresets, name)
    case Some(c) => Ok(c)
    case None => Err(PyException(KeyError, UnknownMessage("preset", name, ListPresets())))
  }

  /** `get_theme`: the table's own entry, or KeyError naming the available themes. */
  function GetTheme(name: string): (r: Result<GUITheme, PyException>)
    ensures r.Ok? <==> name in ListThemes()
    ensures r.Ok? ==> exists i :: 0 <= i < |GuiThemes| && GuiThemes[i] == (name, r.value)
    ensures r.Err? ==> r.error == PyException(KeyError, UnknownMessage("theme", name, ListThemes()))
  {
    match Find(GuiThemes, name)
    case Some(t) => Ok(t)
    case None => Err(PyException(KeyError, UnknownMessage("theme", name, ListThemes())))
  }

  lemma ListedNames()
    ensures ListPresets() == [
      "ecommerce_square", "ecommerce_portrait", "instagram_square", "instagram_portrait",
      "facebook_feed", "pinterest", "amazon_main", "shopify_product", "twitter_card", "thumbnail"]
    ensures ListThemes() == ["default", "dark_blue", "purple", "green", "orange", "red", "minimal_light"]
    ensures DistinctKeys(ProcessingPresets) && DistinctKeys(GuiThemes)
  {
    PresetNames();
    ThemeNames();
    PresetKeysDistinct();
    ThemeKeysDistinct();
  }

  lemma PresetNames()
    ensures ListPresets() == [
      "ecommerce_square", "ecommerce_portrait", "instagram_square", "instagram_portrait",
      "facebook_feed", "pinterest", "amazon_main", "shopify_product", "twitter_card", "thumbnail"]
  {
  }

  lemma PresetKeysDistinct()
    ensures DistinctKeys(ProcessingPresets)
  {
  }

  lemma ThemeNames()
    ensures ListThemes() == ["default", "dark_blue", "purple", "green", "orange", "red", "minimal_light"]
  {
  }

  lemma ThemeKeysDistinct()
    ensures DistinctKeys(GuiThemes)
  {
  }

  lemma PresetExample()
    ensures GetPreset("ecommerce_square").Ok?
    ensures var c := GetPreset("ecommerce_square").value;
      c.targetWidth == 2000 && c.targetHeight == 2000 && c.removeBackground
  {
    assert ProcessingPresets[0].0 == "ecommerce_square";
  }

  lemma UnknownNamesRejected()
    ensures GetPreset("nonexistent_preset").Err?
    ensures GetTheme("nonexistent_theme").Err?
  {
    ListedNames();
    assert "nonexistent_preset" !in ListPresets();
    assert "nonexistent_theme" !in ListThemes();
  }

  predicate UsableCanvas(c: ProcessingConfig) {
    c.targetWidth > 0 && c.targetHeight > 0 && 0.0 < c.fillRatio <= 1.0
  }

  predicate HexDigit(ch: char) {
    '0' <= ch <= '9' || 'A' <= ch <= 'F' || 'a' <= ch <= 'f'
  }

  /** A `#RRGGBB` colour code. */
  predicate HexColour(s: string) {
    && |s| == 7 && s[0] == '#'
    && HexDigit(s[1]) && HexDigit(s[2]) && HexDigit(s[3]) && HexDigit(s[4]) && HexDigit(s[5]) && HexDigit(s[6])
  }

  /** All seven colour fields are `#RRGGBB` codes. */
  predicate ThemeColours(t: GUITheme) {
    && HexColour(t.primary) && HexColour(t.dark) && HexColour(t.surface) && HexColour(t.text)
    && HexColour(t.success) && HexColour(t.warning) && HexColour(t.accent)
  }

  predicate ThemeEntryValid(entry: (string, GUITheme)) {
    entry.1.name == entry.0 && ThemeColours(entry.1)
  }

  lemma PresetEntriesUsable()
    ensures forall i :: 0 <= i < |ProcessingPresets| ==> UsableCanvas(ProcessingPresets[i].1)
  {
  }

  lemma DefaultThemeValid()
    ensures ThemeEntryValid(GuiThemes[0])
  {
  }

  lemma DarkBlueThemeValid()
    ensures ThemeEntryValid(GuiThemes[1])
  {
  }

  lemma PurpleThemeValid()
    ensures ThemeEntryValid(GuiThemes[2])
  {
  }

  lemma GreenThemeValid()
    ensures ThemeEntryValid(GuiThemes[3])
  {
  }

  lemma OrangeThemeValid()
    ensures ThemeEntryValid(GuiThemes[4])
  {
  }

  lemma RedThemeValid()
    ensures ThemeEntryValid(GuiThemes[5])
  {
  }

  lemma MinimalLightThemeValid()
    ensures ThemeEntryValid(GuiThemes[6])
  {
  }

  lemma ThemeEntriesValid()
    ensures forall i :: 0 <= i < |GuiThemes| ==> ThemeEntryValid(GuiThemes[i])
  {
    DefaultThemeValid(); DarkBlueThemeValid(); PurpleThemeValid(); GreenThemeValid();
    OrangeThemeValid(); RedThemeValid(); MinimalLightThemeValid();
    forall i | 0 <= i < |GuiThemes| ensures ThemeEntryValid(GuiThemes[i]) {
      assert i == 0 || i == 1 || i == 2 || i == 3 || i == 4 || i == 5 || i == 6;
    }
  }

  /** Every preset describes a usable canvas: positive dimensions and a fill ratio in (0, 1]. */
  lemma AllPresetsValid(name: string)
    requires name in ListPresets()
    ensures GetPreset(name).Ok?
    ensures var c := GetPreset(name).value;
      c.targetWidth > 0 && c.targetHeight > 0 && 0.0 < c.fillRatio <= 1.0
  {
    PresetEntriesUsable();
    var c := GetPreset(name).value;
    var i :| 0 <= i < |ProcessingPresets| && ProcessingPresets[i] == (name, c);
    assert UsableCanvas(ProcessingPresets[i].1);
  }

  /** Every theme is named after its key and all seven of its colours are `#RRGGBB` codes. */
  lemma AllThemesValid(name: string)
    requires name in ListThemes()
    ensures GetTheme(name).Ok?
    ensures var t := GetTheme(name).value;
      t.name == name && ThemeColours(t)
  {
    ThemeEntriesValid();
    var t := GetTheme(name).value;
    var i :| 0 <= i < |GuiThemes| && GuiThemes[i] == (name, t);
    assert ThemeEntryValid(GuiThemes[i]);
  }

  lemma OccursInSuffix(a: string, b: string, x: string, j: int)
    requires OccursAt(b, x, j)
    ensures OccursAt(a + b, x, |a| + j)
  {
    assert (a + b)[|a| + j..|a| + j + |x|] == b[j..j + |x|];
  }

  lemma OccursInPrefix(a: string, b: string, x: string, j: int)
    requires OccursAt(a, x, j)
    ensures OccursAt(a + b, x, j)
  {
    assert (a + b)[j..j + |x|] == a[j..j + |x|];
  }

  /** Every listed element appears in the joined text. */
  lemma {:induction false} JoinedNamesAppear(sep: string, xs: seq<string>, k: int)
    requires 0 <= k < |xs|
    ensures Contains(JoinWith(sep, xs), xs[k])
  {
    if |xs| == 1 {
      assert OccursAt(JoinWith(sep, xs), xs[k], 0);
    } else if k == 0 {
      assert OccursAt(xs[0], xs[0], 0);
      OccursInPrefix(xs[0], sep + JoinWith(sep, xs[1..]), xs[0], 0);
      assert xs[0] + sep + JoinWith(sep, xs[1..]) == xs[0] + (sep + JoinWith(sep, xs[1..]));
    } else {
      JoinedNamesAppear(sep, xs[1..], k - 1);
      var j :| 0 <= j <= |JoinWith(sep, xs[1..])| - |xs[k]| && OccursAt(JoinWith(sep, xs[1..]), xs[k], j);
      OccursInSuffix(xs[0] + sep, JoinWith(sep, xs[1..]), xs[k], j);
    }
  }

  /** The KeyError of an unknown preset or theme names every available key. */
  lemma UnknownMessageListsNames(kind: string, name: string, available: seq<string>, k: int)
    requires 0 <= k < |available|
    ensures Contains(UnknownMessage(kind, name, available), available[k])
  {
    var joined := JoinWith(", ", available);
    JoinedNamesAppear(", ", available, k);
    var j :| 0 <= j <= |joined| - |available[k]| && OccursAt(joined, available[k], j);
    var head := "Unknown " + kind + " '" + name + "'. Available: ";
    OccursInSuffix(head, joined, available[k], j);
  }
}
