# Product Image Optimizer — a Dafny model of its processing core

This project models the part of Product Image Optimizer that turns product photos into
uniform catalogue images. It covers:

- the processing settings and GUI themes, their dictionary (JSON) forms, and the
  configuration manager that saves them to and loads them from a configuration directory
  (`config.py`);
- the tables of processing presets and GUI themes and their lookups (`presets.py`);
- the image processor (`processor.py`): the crop to the visible bounds, the
  fit-to-canvas sizing with its minimum-size step and the 95% clamp, centring on a
  transparent canvas, the single-image pipeline with its progress notices, metadata
  and error messages, and the batch loop;
- the command-line front end (`cli.py`): ZIP extraction with its path-traversal guard,
  collection of image files from files, directories and archives, the flag overrides,
  and the control flow of `main` up to its exit status.

Modules follow the source files:

- `Py` (`py.dfy`) holds the Python facts the others rely on: exception classes, `int()`
  truncation, string predicates, and pathlib's `name`, `stem`, `suffix` and `parent`.
- `Config` (`config.dfy`).
- `Presets` (`presets.dfy`).
- `Geometry` (`geometry.dfy`) holds the integer geometry of `auto_crop_transparent` and
  `resize_to_target`.
- `Pipeline` (`pipeline.dfy`) holds `process_image` and `batch_process`.
- `Cli` (`cli.dfy`).

The configuration manager is a class whose methods update its fields. The configuration
directory is a map from file name to JSON object. The batch loop and
`collect_image_files` are loop methods, each proved against a recursive specification
function. `main` is the method `Cli.Run`. Everything else is functions and lemmas.

The outside world is a parameter of the model:

- `Pipeline.Env` stands for image decoding, pixel loading, the background-removal model,
  directory creation, and saving together with the file-size query.
- `Cli.Entry` says what a command-line path is on disk: missing, a file (with the member
  list it has when read as a ZIP), a directory (with the files and directories below
  it), or something else.

An image is its size, its mode name and its alpha band. The alpha band is the only pixel
data that the crop reads.

Behaviour of the code worth knowing, which the model follows:

- An aspect-ratio tie takes the height-constrained branch (`Geometry.FitOnTie`).
- Every `int()` truncates toward zero; nothing rounds.
- With auto-crop on, a fully transparent image goes on through the pipeline.
  `getbbox()` returns None, and the image passes through uncropped
  (`Geometry.FullyTransparentIsKept`).
- The resized content is its own paste mask (`processor.py:148`), so a background
  remover that returns an image whose mode cannot serve as a mask (anything but 1, L,
  LA, RGBA or RGBa; RGB, for one) makes the paste fail
  (`Pipeline.OpaqueSegmentationFails`).
- A directory is searched with lower- and upper-case patterns only, so `a.Jpg` inside a
  directory is skipped, while the same file named on the command line is accepted
  (`Cli.MixedCaseInDirectorySkipped`, `Cli.MixedCaseFileAccepted`).
- A ZIP is searched with lower-case patterns only (`Cli.ZipIsCaseSensitive`).
- In an extracted ZIP, `rglob` finds each path once even when the archive lists a member
  twice (`Cli.DuplicateMemberFoundOnce`), and it also finds directories whose name ends
  in an image extension (`Cli.DirectoryNamedLikeImageFound`).
- The `except FileNotFoundError` around `load_config` (`cli.py:232`) can never fire,
  because `load_config` only reads a file that exists. A missing settings file leaves
  the defaults in place (`Cli.Loaded`).
- The failure mark of `cli.py:329` is stored in the source as the three characters
  U+00E2 U+0153 U+2014, a UTF-8 "✗" misread as Windows-1252. Those three characters are
  what is printed, so `Cli.FailureMark` uses them.

## Model

| member | source | states |
|---|---|---|
| Py.TruncDiv | src/product_image_optimizer/processor.py:126-134 | `int(a / b)` on the exact quotient: its magnitude is the floor of the magnitudes' quotient and its sign is the sign of the quotient (truncation toward zero) |
| Py.Trunc | src/product_image_optimizer/processor.py:98-99 | `int(x)` is the integer next to x toward zero: within 1 below a non-negative x, within 1 above a negative one |
| Py.Lower | src/product_image_optimizer/cli.py:63 | ASCII lowering: the length is kept and each ASCII capital becomes its small letter, every other character is kept |
| Py.Name | src/product_image_optimizer/processor.py:214 | `Path.name` contains no separator and is a suffix of the path |
| Py.NameIsLastComponent | src/product_image_optimizer/processor.py:214 | `Path.name` is the whole of the path after its last separator: it is the path, or a '/' precedes it |
| Py.StemAndSuffixSplitTheName | src/product_image_optimizer/processor.py:295 | stem followed by suffix is the name; a suffix is empty or a dot and at least one more character with no further dot; a non-empty name has a non-empty stem |
| Py.JoinName | src/product_image_optimizer/processor.py:295 | the name of `dir / name` is `name` when `name` has no separator |
| Py.ParentOfJoin | src/product_image_optimizer/processor.py:247 | the parent of `dir / name` is `dir` |
| Py.IntToString | src/product_image_optimizer/processor.py:91-93 | `str(n)` is never empty |
| Config.DefaultValues | src/product_image_optimizer/config.py:13-33 | the declared default of every processing field |
| Config.TargetAspect | src/product_image_optimizer/config.py:35-40 | ValueError exactly when the target height is 0; otherwise aspect × height = width |
| Config.TargetAspectExample | src/product_image_optimizer/config.py:35-40 | a 1000 × 2000 target has aspect 0.5 |
| Config.ToDict | src/product_image_optimizer/config.py:42-44 | `asdict` has exactly one key per dataclass field |
| Config.FromDict | src/product_image_optimizer/config.py:46-49 | an error exactly when a field's entry has the wrong JSON type; otherwise a present field takes its entry, an absent one its default, and an integer fill ratio is read as a float |
| Config.FieldEntries | src/product_image_optimizer/config.py:49 | the filter keeps exactly the keys that are fields, each with its value from the input |
| Config.FromDictIgnoresUnknownKeys | src/product_image_optimizer/config.py:46-49 | keys that are not fields make no difference to `from_dict` |
| Config.FromEmptyDictIsDefault | src/product_image_optimizer/config.py:46-49 | `from_dict({})` is `ProcessingConfig()` |
| Config.ConfigRoundTrip | src/product_image_optimizer/config.py:42-61 | `from_dict(to_dict(c))` gives back `c`: what is saved loads back unchanged |
| Config.ThemeToDict | src/product_image_optimizer/config.py:77-79 | one string entry per theme field |
| Config.ThemeFromDict | src/product_image_optimizer/config.py:81-84 | `cls(**data)` raises TypeError for a key that is not a field; the typed model also reports an entry that is not a string (see Left out); otherwise each field is its entry or its default |
| Config.ThemeRoundTrip | src/product_image_optimizer/config.py:77-84 | `GUITheme.from_dict(t.to_dict())` gives back `t` |
| Config.ConfigManager.constructor | src/product_image_optimizer/config.py:92-106 | a new manager holds the default settings and the default theme over the given directory |
| Config.ConfigManager.LoadConfig | src/product_image_optimizer/config.py:108-112 | a missing file changes nothing; a file that parses replaces the settings; a file that does not parse raises and leaves them; the directory and theme are untouched |
| Config.ConfigManager.SaveConfig | src/product_image_optimizer/config.py:114-117 | the named file now holds `to_dict` of the settings, and nothing else changes |
| Config.ConfigManager.LoadTheme | src/product_image_optimizer/config.py:119-125 | as LoadConfig, for `theme_<name>.json` and the theme |
| Config.ConfigManager.SaveTheme | src/product_image_optimizer/config.py:127-131 | `theme_<name>.json` now holds the theme's dict, and nothing else changes |
| Config.SaveEditLoad | src/product_image_optimizer/config.py:108-117 | save, edit in memory, then load the same name: the load raises nothing, the saved settings are restored and the file holds them |
| Config.SaveEditLoadTheme | src/product_image_optimizer/config.py:119-131 | save a theme, edit it in memory, then load the same name: the load raises nothing, the saved theme is restored and the theme file holds its dict |
| Presets.Keys | src/product_image_optimizer/presets.py:208-215 | `list(table.keys())` has one entry per table entry, in order |
| Presets.Find | src/product_image_optimizer/presets.py:181-185 | None exactly when no entry has the key; otherwise the value of the first entry with that key |
| Presets.ListPresets | src/product_image_optimizer/presets.py:208-210 | the preset names in table order |
| Presets.ListThemes | src/product_image_optimizer/presets.py:213-215 | the theme names in table order |
| Presets.GetPreset | src/product_image_optimizer/presets.py:168-185 | found exactly when the name is listed, and then it is the table's own entry; otherwise KeyError "Unknown preset '<name>'. Available: <names>" |
| Presets.GetTheme | src/product_image_optimizer/presets.py:188-205 | the same for themes |
| Presets.ListedNames | src/product_image_optimizer/presets.py:15-165 | the ten preset names and seven theme names in declaration order, with no key repeated |
| Presets.PresetNames | src/product_image_optimizer/presets.py:15-87 | the ten preset names in declaration order |
| Presets.ThemeNames | src/product_image_optimizer/presets.py:94-165 | the seven theme names in declaration order |
| Presets.PresetKeysDistinct | src/product_image_optimizer/presets.py:15-87 | no preset name is repeated |
| Presets.ThemeKeysDistinct | src/product_image_optimizer/presets.py:94-165 | no theme name is repeated |
| Presets.PresetExample | src/product_image_optimizer/presets.py:16-22 | `ecommerce_square` is 2000 × 2000 with background removal |
| Presets.UnknownNamesRejected | src/product_image_optimizer/presets.py:181-183 | an unknown preset and an unknown theme are both rejected |
| Presets.PresetEntriesUsable | src/product_image_optimizer/presets.py:15-87 | every table entry has positive dimensions and a fill ratio in (0, 1] |
| Presets.ThemeEntriesValid | src/product_image_optimizer/presets.py:94-165 | every theme entry is named after its key, and all seven of its colours are `#RRGGBB` codes |
| Presets.AllPresetsValid | src/product_image_optimizer/presets.py:15-87 | every preset that `get_preset` returns has positive dimensions and a fill ratio in (0, 1] |
| Presets.AllThemesValid | src/product_image_optimizer/presets.py:94-165 | every theme that `get_theme` returns is named after its key, and its seven colours (primary, dark, surface, text, success, warning, accent) are `#RRGGBB` codes |
| Presets.JoinedNamesAppear | src/product_image_optimizer/presets.py:182 | every element of a list occurs in its `", ".join` |
| Presets.UnknownMessageListsNames | src/product_image_optimizer/presets.py:181-183 | the KeyError text names every available key |
| Geometry.GetBBox | src/product_image_optimizer/processor.py:54 | `getbbox()` is None exactly when no pixel is visible; otherwise it is the tight box: inside the image, holding every visible pixel, each edge touching one |
| Geometry.PaddedBox | src/product_image_optimizer/processor.py:56-59 | the box grown by the padding and clamped to the image, edge by edge; with padding ≥ 0 it holds the original box |
| Geometry.Crop | src/product_image_optimizer/processor.py:60 | the crop has the box's size and mode, and pixel (x, y) is pixel (left + x, top + y) of the image |
| Geometry.AutoCrop | src/product_image_optimizer/processor.py:36-62 | a non-RGBA image or one with nothing visible is returned as it is; a failure happens only with a negative padding that inverts the box; otherwise the result is the crop to the padded box |
| Geometry.CropKeepsVisible | src/product_image_optimizer/processor.py:60 | a crop whose box holds every visible pixel keeps each of them, shifted by the box's corner |
| Geometry.AutoCropIsPaddedCrop | src/product_image_optimizer/processor.py:52-60 | with padding ≥ 0 the padded box holds the bounding box and the crop succeeds |
| Geometry.AutoCropKeepsContent | src/product_image_optimizer/processor.py:36-62 | with padding ≥ 0 the crop succeeds, has positive area, is no larger than the image, and keeps every visible pixel |
| Geometry.AutoCropWidthUnchangedIff | src/product_image_optimizer/processor.py:56-60 | the crop keeps the full width exactly when the padded box reaches both side edges |
| Geometry.AutoCropDropsTransparentColumn | src/product_image_optimizer/processor.py:54-60 | with padding 0, a transparent first column is cut away |
| Geometry.FullyTransparentIsKept | src/product_image_optimizer/processor.py:54-62 | a fully transparent RGBA image is returned uncropped |
| Geometry.TruncScaled | src/product_image_optimizer/processor.py:98-99 | a side scaled by a ratio in [0, 1] and truncated lies in [0, side] and is the scaled value rounded down |
| Geometry.AvailableWithinTarget | src/product_image_optimizer/processor.py:98-99 | with a fill ratio in [0, 1] the available region is the target scaled and rounded down, never larger than the target |
| Geometry.ScaledDown | src/product_image_optimizer/processor.py:126-134 | scaling a side by bound/other with 0 ≤ bound < other never grows it |
| Geometry.Fit | src/product_image_optimizer/processor.py:107-114 | a wider-than-available content takes the full available width and the height its aspect gives, rounded down; otherwise the full height and the matching width; both sides stay within the region |
| Geometry.FitOnTie | src/product_image_optimizer/processor.py:107-114 | on an aspect tie the height-constrained branch is taken and the content fills the region exactly |
| Geometry.MaxExtent | src/product_image_optimizer/processor.py:123-124 | `int(target * 0.95)` lies within the target and is 95% of it rounded down |
| Geometry.UpscaleReachesMinimum | src/product_image_optimizer/processor.py:117-120 | scaling by min_dimension / min(side) makes the smaller side exactly min_dimension and shrinks neither side |
| Geometry.UpscaleSide | src/product_image_optimizer/processor.py:118-120 | one side scaled by min_dimension / m is at least the side and at least min_dimension, and equals min_dimension when the side was the smaller one |
| Geometry.ClampWidthBounds | src/product_image_optimizer/processor.py:126-129 | a width within the bound is left alone; a width beyond it becomes the bound, and the height does not grow |
| Geometry.ClampHeightBounds | src/product_image_optimizer/processor.py:131-134 | a height within the bound is left alone; an over-bound height of 0 divides by zero; otherwise the height becomes the bound and the width does not grow |
| Geometry.EnforceMinimum | src/product_image_optimizer/processor.py:116-134 | content already at the minimum is unchanged; a side of 0 below the minimum divides by zero |
| Geometry.EnforceMinimumSucceeds | src/product_image_optimizer/processor.py:116-134 | with non-negative targets and a positive smaller side below the minimum, the step succeeds and ends within 95% of the target on both axes |
| Geometry.ContentSize | src/product_image_optimizer/processor.py:81-134 | the crop failure, the invalid-crop error (lines 90-93), the invalid-available error (lines 102-105), and otherwise the minimum step applied to the fitted size |
| Geometry.Centre | src/product_image_optimizer/processor.py:146-147 | the paste offset leaves the content inside the canvas, with the two margins differing by at most one |
| Geometry.ResizeToTarget | src/product_image_optimizer/processor.py:64-150 | the canvas is RGBA of the target size, with the content (at least 1 × 1) pasted at the centre offsets; sizing errors propagate; a content side below 1 is rejected by resize, a negative target by `Image.new`, and content whose mode cannot serve as its own paste mask (not 1, L, LA, RGBA or RGBa) by `paste` with ValueError "bad transparency mask" |
| Geometry.NonMaskContentIsRefused | src/product_image_optimizer/processor.py:148 | content whose mode cannot serve as a mask (not 1, L, LA, RGBA or RGBa; RGB, for one) is refused by the paste even when it sizes well, with ValueError "bad transparency mask" |
| Geometry.ContentInsideCanvas | src/product_image_optimizer/processor.py:141-148 | with positive targets and a fill ratio in (0, 1], the pasted content lies inside the canvas |
| Geometry.WorkedExample | src/product_image_optimizer/processor.py:64-150 | a 2000 × 1000 image on the default canvas is fitted to 800 × 400, raised to 1000 × 500, clamped to 950 × 475 and pasted at (25, 262) |
| Geometry.ThinContentDividesByZero | src/product_image_optimizer/processor.py:107-118 | a 1 × 2000 image fits to width 0 and the minimum step divides by zero |
| Pipeline.OpaqueGrid | src/product_image_optimizer/processor.py:165 | a grid of the given size with every pixel opaque |
| Pipeline.ToRGB | src/product_image_optimizer/processor.py:164-165 | RGB conversion keeps the size and makes every pixel visible |
| Pipeline.ToRGBA | src/product_image_optimizer/processor.py:175-176 | RGBA conversion keeps the size, keeps an existing alpha band, and otherwise makes every pixel opaque |
| Pipeline.RemoveBackground | src/product_image_optimizer/processor.py:152-177 | the segmenter's output on the RGB image; an expected failure falls back to the RGB image in RGBA, fully opaque and of the same size; any other failure propagates |
| Pipeline.Prepare | src/product_image_optimizer/processor.py:223-233 | with removal off, an RGBA image of the same size (the image itself when already RGBA); with removal on, the background removal |
| Pipeline.FailureMessageClassifies | src/product_image_optimizer/processor.py:261-267 | the message starts "Processing failed for" exactly for the expected classes and "Unexpected error processing" exactly for the others, and ends with the exception's text |
| Pipeline.RunStages | src/product_image_optimizer/processor.py:205-259 | the metadata always records input, output and config; a run that raises nothing has a file size and reached the save stage |
| Pipeline.ProcessImage | src/product_image_optimizer/processor.py:179-267 | success exactly when there is no error message; the metadata records input, output and config; a success has a file size |
| Pipeline.OpaqueSegmentationFails | src/product_image_optimizer/processor.py:221-263 | with background removal on, a segmenter that returns an image whose mode cannot serve as a mask (an RGB image, for one) makes `process_image` fail with "Processing failed for <name>: bad transparency mask" |
| Pipeline.ProcessImageSucceedsIff | src/product_image_optimizer/processor.py:211-259 | success exactly when open, load, conversion, resize, directory creation and save each succeed |
| Pipeline.ProcessImageMetadata | src/product_image_optimizer/processor.py:205-259 | the original size once the header is read, the output size (always the target) once resized, a non-negative file size on success; an open failure reports its exception |
| Pipeline.ProcessImageReportsTheException | src/product_image_optimizer/processor.py:261-267 | a failure reports exactly the exception that ended the stages, through the clause its class selects |
| Pipeline.ProcessImageProgress | src/product_image_optimizer/processor.py:213-244 | no notices without a callback; otherwise Loading comes first, RemovingBackground only with removal on, and a success sends exactly one notice per stage, the last naming the output file |
| Pipeline.ThinImageIsUnexpectedError | src/product_image_optimizer/processor.py:264-267 | a 1 × 2000 image fails with "Unexpected error processing <name>: division by zero" |
| Pipeline.ThinRunRaises | src/product_image_optimizer/processor.py:211-239 | the stages of that image end with ZeroDivisionError |
| Pipeline.DivisionByZeroMessage | src/product_image_optimizer/processor.py:266 | ZeroDivisionError takes the generic clause's wording |
| Pipeline.CropOfWholeImage | src/product_image_optimizer/processor.py:60 | cropping to the whole image gives the image back |
| Pipeline.OpaqueImageIsNotCropped | src/product_image_optimizer/processor.py:36-62 | a fully opaque image, such as the fallback of a failed removal, is not cropped with padding ≥ 0 |
| Pipeline.OutputPathProperties | src/product_image_optimizer/processor.py:295 | the output is `<stem>.png` inside the output directory |
| Pipeline.SameStemSameOutput | src/product_image_optimizer/processor.py:295 | two inputs with the same stem write the same output file |
| Pipeline.Entries | src/product_image_optimizer/processor.py:293-317 | one entry per input |
| Pipeline.EntriesAt | src/product_image_optimizer/processor.py:293-317 | entry k is the entry of input k |
| Pipeline.ItemsAt | src/product_image_optimizer/processor.py:302-317 | entry k of a batch is input k processed to `<stem>.png` without a per-image callback |
| Pipeline.Announcements | src/product_image_optimizer/processor.py:297-299 | one callback call per input |
| Pipeline.AnnouncementAt | src/product_image_optimizer/processor.py:293-299 | call k is (k + 1, total, name of input k) |
| Pipeline.CountSuccess | src/product_image_optimizer/processor.py:304-307 | the count of successes never exceeds the number of entries |
| Pipeline.AllSucceededIff | src/product_image_optimizer/processor.py:304-307 | the success count equals the number of entries exactly when every entry succeeded |
| Pipeline.ProcessAll | src/product_image_optimizer/processor.py:293-317 | the loop produces the entries in order, success + failed = number of inputs, success counts the successful entries, and the callback sees each input's announcement |
| Pipeline.BatchProcess | src/product_image_optimizer/processor.py:270-319 | fails only when the output directory cannot be made; otherwise total = number of inputs, every input has its entry in order with the effective configuration, and the counts add up; the callback is called only when given |
| Cli.TraversalIsUnsafe | src/product_image_optimizer/cli.py:28-31 | a member name with a `../` segment anywhere is refused |
| Cli.NoDoubleDot | src/product_image_optimizer/cli.py:30 | a name without two adjacent dots passes the `..` test |
| Cli.GuardExamples | src/product_image_optimizer/cli.py:28-31 | the guard refuses `/etc/passwd` and the harmless `a..b.png`, and accepts `C:/x.png` and `images/a.png` |
| Cli.FirstUnsafe | src/product_image_optimizer/cli.py:28-31 | None exactly when every member is safe; otherwise the first refused member |
| Cli.DirPrefixes | src/product_image_optimizer/cli.py:34 | exactly the prefixes of a member that end just before one of its separators |
| Cli.MemberPaths | src/product_image_optimizer/cli.py:34 | exactly the paths one member makes: the directories above it, and the member unless it is a directory entry |
| Cli.SingleFileMember | src/product_image_optimizer/cli.py:34 | a member without a separator makes only itself |
| Cli.NestedFileMember | src/product_image_optimizer/cli.py:34 | a member `d/f` makes the directory `d` and the file `d/f` |
| Cli.AddNew | src/product_image_optimizer/cli.py:34 | adding paths to a duplicate-free list keeps it duplicate-free and holds exactly the paths of both |
| Cli.ExtractedTree | src/product_image_optimizer/cli.py:34 | the tree `extractall` leaves: each path once, and exactly the paths some member makes, under the extraction directory |
| Cli.Glob | src/product_image_optimizer/cli.py:38-39 | exactly the paths (files or directories) whose name ends with the pattern's extension, case-sensitively, each once when the tree holds it once |
| Cli.ArchiveImages | src/product_image_optimizer/cli.py:36-39 | the three patterns together find exactly the tree's paths ending in .jpg, .jpeg or .png, none twice |
| Cli.ExtractZip | src/product_image_optimizer/cli.py:18-47 | an unreadable archive raises its exception; the extraction succeeds exactly when every member is safe and `extractall` raises nothing; an unsafe member raises ValueError "Unsafe path in ZIP: <member>" naming the first refused one, whatever `extractall` would have raised; with every name safe, the exception `extractall` raises propagates; on success the result holds no path twice and is exactly the extracted files and directories ending in .jpg, .jpeg or .png |
| Cli.ExtractedStayInside | src/product_image_optimizer/cli.py:25-41 | every extracted image lies under the extraction directory, at a path that a member the guard accepted names or lies below |
| Cli.DuplicateMemberFoundOnce | src/product_image_optimizer/cli.py:34-39 | an image member listed twice in the archive is found once |
| Cli.DirectoryNamedLikeImageFound | src/product_image_optimizer/cli.py:34-39 | a member `d/f` with `d` ending in .png makes the directory `d`, which `rglob` finds |
| Cli.ZipIsCaseSensitive | src/product_image_optimizer/cli.py:37-39 | `A.JPG` inside an archive is not found |
| Cli.UpperCaseIsNotMatched | src/product_image_optimizer/cli.py:38-39 | no lower-case pattern matches `A.JPG` |
| Cli.CollectImageFiles | src/product_image_optimizer/cli.py:50-81 | the loop collects exactly what the paths contribute, in order, and stops at the first exception |
| Cli.CollectedStopsAtError | src/product_image_optimizer/cli.py:55-67 | once a prefix of the paths raises, the whole collection raises the same exception |
| Cli.MissingPathsSkipped | src/product_image_optimizer/cli.py:58-60 | paths that do not exist contribute nothing and raise nothing |
| Cli.DirectoryLooksLikeImages | src/product_image_optimizer/cli.py:74-79 | every file found in a directory has an image extension, ignoring case |
| Cli.ZipLooksLikeImages | src/product_image_optimizer/cli.py:36-41 | every file found in an archive has an image extension |
| Cli.FileLooksLikeImage | src/product_image_optimizer/cli.py:68-70 | a file accepted by its lowered suffix has an image extension, ignoring case |
| Cli.DirContributionLooksLikeImages | src/product_image_optimizer/cli.py:74-79 | what a directory contributes has image names |
| Cli.ZipContributionLooksLikeImages | src/product_image_optimizer/cli.py:63-67 | what an archive contributes has image names |
| Cli.FileContributionLooksLikeImage | src/product_image_optimizer/cli.py:68-72 | what a single file contributes has an image name |
| Cli.ContributionLooksLikeImages | src/product_image_optimizer/cli.py:55-79 | whatever one path contributes has an image name |
| Cli.CollectedLookLikeImages | src/product_image_optimizer/cli.py:50-81 | every collected file has an image name, ignoring case |
| Cli.MixedCaseFileAccepted | src/product_image_optimizer/cli.py:62-70 | `d/a.Jpg` named on the command line is accepted |
| Cli.MixedCaseInDirectorySkipped | src/product_image_optimizer/cli.py:74-79 | `a.Jpg` inside a directory is skipped |
| Cli.ApplyOverrides | src/product_image_optimizer/cli.py:248-269 | the run stops exactly when a non-zero fill ratio lies outside (0, 1]; otherwise each flag read by truthiness replaces its field only when non-zero or non-empty, the boolean switches only turn features off, `--compress` applies even at 0, and min_dimension is kept |
| Cli.OverridesIdempotent | src/product_image_optimizer/cli.py:248-269 | applying the same flags a second time changes nothing |
| Cli.ZeroFlags | src/product_image_optimizer/cli.py:249-267 | `--padding 0` and `-w 0` are ignored, while `--compress 0` is applied |
| Cli.OverridesKeepFillRatioValid | src/product_image_optimizer/cli.py:257-261 | a base fill ratio in (0, 1] stays in (0, 1] after the overrides |
| Cli.ErrorLines | src/product_image_optimizer/cli.py:324-329 | one line per failed entry |
| Cli.FailuresAreListed | src/product_image_optimizer/cli.py:324-329 | every failed entry's "<mark> <input>: <error>" line is among the error lines |
| Cli.ErrorLinesOnlyForFailures | src/product_image_optimizer/cli.py:324-329 | there are no error lines exactly when every entry succeeded |
| Cli.Configure | src/product_image_optimizer/cli.py:223-275 | the settings are the stored or default settings, or the preset, with the flags applied; an unknown preset or a bad fill ratio stops the run; the settings are saved under `--save-config` only when the run goes on |
| Cli.Run | src/product_image_optimizer/cli.py:200-331 | the argparse rejection, the listings, the usage stop, the settings and their saving; once the settings are made, an exception while collecting crashes the run, no images ends it with NoImages, a failing output directory crashes it, and otherwise the batch finishes; a finished run has every entry as the batch's entry in order with the chosen settings, counts that add up, and the error lines of the failures |
| Cli.ExitStatus | src/product_image_optimizer/cli.py:331 | among the modelled outcomes (argparse's `--help` and `--version` are not among them), the exit status is 0 exactly for a listing or a batch in which every entry succeeded |

## Left out

- Pixel work: only the alpha band is modelled. Colour channels, LANCZOS
  resampling, the pasted pixels, PNG/JPEG encoding, the `optimize` and `compress_level`
  effects, and the exact wording of Pillow's exception messages are not modelled.
  Pillow's refusals that the model relies on are an inverted crop box, a resize below
  1 × 1, a negative canvas size, and a paste mask whose mode is not 1, L, LA, RGBA or
  RGBa. `Env.save` returns the file size.
- The background-removal model (rembg) is the parameter `Env.segment`. Only its output
  and the exception it raises are modelled; the warning it prints is left out.
- Floating point: `fill_ratio` and the aspect ratios are exact rationals, and 0.95 is
  95/100. Where binary floating point rounds the product or the quotient across an
  integer boundary, the real program's `int()` can differ by one from the model. A NaN
  or infinite `--fill-ratio` is not modelled.
- `rglob` order is not modelled. Files are taken in the order the `Dir` entry lists
  them, and ZIP members in archive order.
- `supported_exts` in `collect_image_files` is a Python set, whose iteration order
  varies from run to run. The model searches `.jpg`, `.jpeg`, `.png` in that order.
- Paths are their POSIX strings. `Path()` normalisation (`./`, repeated or trailing
  separators), symbolic links, Windows separators, and `Path.absolute()` in the summary
  are not modelled. `Path("./output")` is `output`.
- Aliasing of presets: `get_preset` returns the table's own object, and `main` then
  mutates it in place. Inside one run this changes nothing the model can see, so the
  model treats settings as values.
- Temporary directories: `mkdtemp` is the fresh directory recorded in `Entry.File`. The
  cleanup after a failure, and the leak of the directory after success, are not modelled.
- Typed JSON: `Config.FromDict` reports an entry of the wrong JSON type as an error.
  Python would store the value unchecked and fail later, or not at all. Malformed JSON
  and unreadable files are not modelled.
- Config.ThemeFromDict: the model is typed, so a theme entry that is not a JSON string
  raises TypeError. `cls(**data)` stores any value, so `{"name": 5}` loads in Python,
  while in the model `LoadTheme` raises and keeps the old theme.
- Py.Lower: only ASCII letters are lowered. Python's `str.lower()` also lowers other
  scripts and can change the length (`"İ".lower()` has two characters). No suffix
  compared at `cli.py:63` and `cli.py:68` is affected, because no non-ASCII character
  lowers to a single letter of `.zip`, `.jpg`, `.jpeg` or `.png`.
- Cli.ExtractZip: whether `extractall` raises once the names have passed the guard is a
  parameter of the entry, not derived from the archive's contents. A member that needs a
  password (RuntimeError), a corrupt entry, or a member whose file path is another
  member's directory (`x.png` and `x.png/a`, an OSError) is expressed only through that
  parameter; with it absent, such an archive is modelled as extracting every member.
  Member names are joined as written, without the removal of `.` and empty segments
  that `zipfile` applies.
- `Config.ConfigManager.constructor`: the default directory `~/.product-image-optimizer`
  and its `mkdir` are left out; the directory is the map passed in.
- Printing: messages, warnings, argparse's help and version output, and the verbose
  summary are not modelled. `--help` and `--version` end the program with status 0
  inside argparse, so they are not among the outcomes `Cli.ExitStatus` covers. The batch progress is returned as the list of
  (current, total, filename) calls instead.
- Exceptions raised by a progress callback are not modelled. So are `BaseException`
  subclasses such as KeyboardInterrupt, which escape both except clauses.
- Palette and other modes: conversion to RGBA keeps an alpha band for RGBA, LA, PA,
  RGBa and La, and makes every other mode opaque. A palette image's transparency key is
  not modelled.
- `gui.py`, `__main__.py` and the benchmark and example scripts are not part of this model.
