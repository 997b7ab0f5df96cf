/** The processing pipeline of `ImageProcessor` and `batch_process`: load, remove the
    background, resize and centre, save. Image decoding, the segmentation model and the
    file system are parameters (an `Env`); the geometry between them is `Geometry`. */
module Pipeline {
  import opened Py
  import opened Config
  import opened Geometry

  /** The outside world as the pipeline sees it. */
  datatype Env = Env(
    open: Path -> Result<Raster, PyException>,                      // Image.open: header and size
    load: Path -> Option<PyException>,                              // img.load(): pixel data
    segment: Raster -> Result<Raster, PyException>,                 // rembg's remove()
    makeDirs: Path -> Option<PyException>,                          // mkdir(parents=True, exist_ok=True)
    save: (Path, Canvas, string, bool, int) -> Result<nat, PyException>) // save(), then stat().st_size

  /** Modes whose conversion to RGBA keeps an alpha band. */
  predicate HasAlpha(mode: string) {
    mode == "RGBA" || mode == "LA" || mode == "PA" || mode == "RGBa" || mode == "La"
  }

  /** An alpha grid of the given size with every pixel fully opaque. */
  function OpaqueGrid(width: nat, height: nat): (g: seq<seq<int>>)
    ensures |g| == height && forall y :: 0 <= y < height ==> |g[y]| == width
    ensures forall y, x :: 0 <= y < height && 0 <= x < width ==> g[y][x] == 255
  {
    seq(height, _ => seq(width, _ => 255))
  }

  /** `img.convert("RGB")`: the alpha band is dropped, so every pixel reads as opaque. */
  function ToRGB(img: Raster): (r: Raster)
    ensures r.mode == "RGB" && r.width == img.width && r.height == img.height
    ensures forall x, y :: 0 <= x < r.width && 0 <= y < r.height ==> Visible(r, x, y)
  {
    Image(img.width, img.height, "RGB", OpaqueGrid(img.width, img.height))
  }

  /** `img.convert("RGBA")`: an existing alpha band is kept, otherwise every pixel is opaque. */
  function ToRGBA(img: Raster): (r: Raster)
    ensures r.mode == "RGBA" && r.width == img.width && r.height == img.height
    ensures HasAlpha(img.mode) ==> r.alpha == img.alpha
    ensures !HasAlpha(img.mode) ==> forall x, y :: 0 <= x < r.width && 0 <= y < r.height ==> Visible(r, x, y)
  {
    if HasAlpha(img.mode) then img.(mode := "RGBA")
    else Image(img.width, img.height, "RGBA", OpaqueGrid(img.width, img.height))
  }

  /** The exception classes of the except clause at line 171 and at line 261. */
  predicate Expected(c: ExcClass) {
    IsOSError(c) || c == RuntimeError || c == ValueError
  }

  /** `remove_background`: the segmenter's output, or on an expected failure the RGB
      image converted to RGBA; any other exception propagates. */
  function RemoveBackground(img: Raster, segment: Raster -> Result<Raster, PyException>): (r: Result<Raster, PyException>)
    ensures var rgb := if img.mode != "RGB" then ToRGB(img) else img;
      && (segment(rgb).Ok? ==> r == segment(rgb))
      && (segment(rgb).Err? && Expected(segment(rgb).error.cls) ==> r == Ok(ToRGBA(rgb)))
      && (segment(rgb).Err? && !Expected(segment(rgb).error.cls) ==> r == Err(segment(rgb).error))
    ensures r.Ok? && segment(if img.mode != "RGB" then ToRGB(img) else img).Err? ==>
      && r.value.mode == "RGBA" && r.value.width == img.width && r.value.height == img.height
      && forall x, y :: 0 <= x < img.width && 0 <= y < img.height ==> Visible(r.value, x, y)
  {
    var rgb := if img.mode != "RGB" then ToRGB(img) else img;
    match segment(rgb)
    case Ok(out) => Ok(out)
    case Err(e) => if Expected(e.cls) then Ok(ToRGBA(rgb)) else Err(e)
  }

  /** Lines 223-233: the image handed to `resize_to_target`. */
  function Prepare(c: ProcessingConfig, img: Raster, env: Env): (r: Result<Raster, PyException>)
    ensures !c.removeBackground ==> r.Ok? && r.value.mode == "RGBA" && r.value.width == img.width && r.value.height == img.height
    ensures !c.removeBackground && img.mode == "RGBA" ==> r == Ok(img)
    ensures c.removeBackground ==> r == RemoveBackground(img, env.segment)
  {
    if c.removeBackground then RemoveBackground(img, env.segment)
    else if img.mode != "RGBA" then Ok(ToRGBA(img))
    else Ok(img)
  }

  /** The metadata dict; a key absent from the dict is None here. */
  datatype Metadata = Metadata(
    input: Path, output: Path, config: Dict,
    originalSize: Option<(int, int)>, originalMode: Option<string>,
    outputSize: Option<(int, int)>, fileSizeKb: Option<real>)

  /** The (success, error_message, metadata) triple of `process_image`. */
  datatype Outcome = Outcome(success: bool, error: Option<string>, metadata: Metadata)

  /** The error message of lines 262 and 266. */
  function FailureMessage(name: string, e: PyException): string {
    if Expected(e.cls) then "Processing failed for " + name + ": " + e.text
    else "Unexpected error processing " + name + ": " + e.text
  }

  /** The message says which except clause caught the exception. */
  lemma FailureMessageClassifies(name: string, e: PyException)
    ensures StartsWith(FailureMessage(name, e), "Processing failed for " + name + ": ") <==> Expected(e.cls)
    ensures StartsWith(FailureMessage(name, e), "Unexpected error processing " + name + ": ") <==> !Expected(e.cls)
    ensures EndsWith(FailureMessage(name, e), e.text)
  {
    var m := FailureMessage(name, e);
    if Expected(e.cls) {
      assert m[0] == 'P';
      assert !StartsWith(m, "Unexpected error processing " + name + ": ");
      assert m == ("Processing failed for " + name + ": ") + e.text;
    } else {
      assert m[0] == 'U';
      assert !StartsWith(m, "Processing failed for " + name + ": ");
      assert m == ("Unexpected error processing " + name + ": ") + e.text;
    }
  }

  /** A progress message; `Text` is the string the callback receives. */
  datatype Notice = Loading(file: string) | RemovingBackground(file: string) | Resizing(file: string) | Saving(file: string)
  {
    function Text(): string {
      match this
      case Loading(f) => "Loading: " + f
      case RemovingBackground(f) => "Removing background: " + f
      case Resizing(f) => "Resizing: " + f
      case Saving(f) => "Saving: " + f
    }
  }

  /** The last stage the try block began: reading the file, converting it (removing the
      background or converting to RGBA), resizing, saving. */
  datatype Stage = Load | Convert | Resize | Save

  /** The progress messages sent once `reached` has begun (lines 213, 225, 236, 243). */
  function Notices(c: ProcessingConfig, input: Path, output: Path, reached: Stage): seq<Notice> {
    var name := Name(input);
    [Loading(name)]
    + (if reached != Load && c.removeBackground then [RemovingBackground(name)] else [])
    + (if reached == Resize || reached == Save then [Resizing(name)] else [])
    + (if reached == Save then [Saving(Name(output))] else [])
  }

  /** How one image went: the exception that ended the try block, if any, the metadata
      gathered until then, and the stage it had reached. */
  datatype Run = Run(raised: Option<PyException>, metadata: Metadata, reached: Stage)

  /** Lines 205-259: the body of the try block, stage by stage. */
  function RunStages(c: ProcessingConfig, input: Path, output: Path, env: Env): (r: Run)
    ensures r.metadata.input == input && r.metadata.output == output && r.metadata.config == ToDict(c)
    ensures r.raised.None? ==> r.metadata.fileSizeKb.Some? && r.reached == Save
  {
    var base := Metadata(input, output, ToDict(c), None, None, None, None);
    match env.open(input)
    case Err(e) => Run(Some(e), base, Load)
    case Ok(img) =>
      var loaded := base.(originalSize := Some((img.width, img.height)), originalMode := Some(img.mode));
      if env.load(input).Some? then Run(env.load(input), loaded, Load)
      else
        match Prepare(c, img, env)
        case Err(e) => Run(Some(e), loaded, Convert)
        case Ok(prepared) =>
          match ResizeToTarget(prepared, c)
          case Err(g) => Run(Some(AsException(g)), loaded, Resize)
          case Ok(canvas) =>
            var resized := loaded.(outputSize := Some((canvas.width, canvas.height)));
            match env.makeDirs(Parent(output))
            case Some(e) => Run(Some(e), resized, Save)
            case None =>
              match env.save(output, canvas, c.outputFormat, c.optimize, c.compressLevel)
              case Err(e) => Run(Some(e), resized, Save)
              case Ok(size) => Run(None, resized.(fileSizeKb := Some(size as real / 1024.0)), Save)
  }

  /** `process_image`: the outcome and the progress messages, when a callback is given.
      Both except clauses turn the exception into a failed outcome. */
  function ProcessImage(c: ProcessingConfig, input: Path, output: Path, env: Env, notify: bool): (r: (Outcome, seq<Notice>))
    ensures r.0.success <==> r.0.error.None?
    ensures r.0.metadata.input == input && r.0.metadata.output == output && r.0.metadata.config == ToDict(c)
    ensures r.0.success ==> r.0.metadata.fileSizeKb.Some?
  {
    var run := RunStages(c, input, output, env);
    var progress := if notify then Notices(c, input, output, run.reached) else [];
    match run.raised
    case None => (Outcome(true, None, run.metadata), progress)
    case Some(e) => (Outcome(false, Some(FailureMessage(Name(input), e)), run.metadata), progress)
  }

  /** The stages in order: success exactly when each of them succeeds. */
  lemma ProcessImageSucceedsIff(c: ProcessingConfig, input: Path, output: Path, env: Env, notify: bool)
    ensures var o := ProcessImage(c, input, output, env, notify).0;
      o.success <==>
        && env.open(input).Ok? && env.load(input).None?
        && Prepare(c, env.open(input).value, env).Ok?
        && ResizeToTarget(Prepare(c, env.open(input).value, env).value, c).Ok?
        && env.makeDirs(Parent(output)).None?
        && env.save(output, ResizeToTarget(Prepare(c, env.open(input).value, env).value, c).value,
                    c.outputFormat, c.optimize, c.compressLevel).Ok?
  {
  }

  /** The metadata grows stage by stage: the original size once the header is read, the
      output size (always the target) once resized, the file size once saved. */
  lemma ProcessImageMetadata(c: ProcessingConfig, input: Path, output: Path, env: Env, notify: bool)
    ensures var o := ProcessImage(c, input, output, env, notify).0;
      && (env.open(input).Err? ==>
            o.error == Some(FailureMessage(Name(input), env.open(input).error)) && o.metadata.originalSize.None?)
      && (env.open(input).Ok? ==>
            o.metadata.originalSize == Some((env.open(input).value.width, env.open(input).value.height)))
      && (o.metadata.outputSize.Some? ==> o.metadata.outputSize == Some((c.targetWidth, c.targetHeight)))
      && (o.success ==> o.metadata.outputSize.Some? && o.metadata.fileSizeKb.Some? && o.metadata.fileSizeKb.value >= 0.0)
  {
  }

  /** A failure reports the exception that ended the stages, through the except clause its class selects. */
  lemma ProcessImageReportsTheException(c: ProcessingConfig, input: Path, output: Path, env: Env, notify: bool)
    ensures var run := RunStages(c, input, output, env);
      var o := ProcessImage(c, input, output, env, notify).0;
      && (o.success <==> run.raised.None?)
      && (run.raised.Some? ==> o.error == Some(FailureMessage(Name(input), run.raised.value)))
      && o.metadata == run.metadata
  {
  }

  /** The messages sent to the progress callback: none without one; otherwise the
      loading notice first, the background notice only when removal is on, and on
      success one notice per stage, the last naming the output file. */
  lemma ProcessImageProgress(c: ProcessingConfig, input: Path, output: Path, env: Env, notify: bool)
    ensures var (o, progress) := ProcessImage(c, input, output, env, notify);
      && (!notify ==> progress == [])
      && (notify ==> |progress| >= 1 && progress[0] == Loading(Name(input)))
      && (notify && !c.removeBackground ==> RemovingBackground(Name(input)) !in progress)
      && (notify && o.success ==>
            progress == [Loading(Name(input))]
                      + (if c.removeBackground then [RemovingBackground(Name(input))] else [])
                      + [Resizing(Name(input)), Saving(Name(output))])
  {
    var run := RunStages(c, input, output, env);
    var name := Name(input);
    if notify && !c.removeBackground {
      var p := Notices(c, input, output, run.reached);
      assert forall n :: n in p ==> !n.RemovingBackground?;
    }
  }

  /** Content whose fitted width truncates to zero fails at line 118 with ZeroDivisionError,
      which only the generic clause at line 264 catches. */
  lemma ThinImageIsUnexpectedError(input: Path, output: Path, env: Env)
    requires env.open(input).Ok? && env.load(input).None?
    requires env.open(input).value.width == 1 && env.open(input).value.height == 2000
    ensures var c := DefaultConfig().(autoCrop := false, removeBackground := false);
      ProcessImage(c, input, output, env, false).0.error ==
        Some("Unexpected error processing " + Name(input) + ": division by zero")
  {
    var c := DefaultConfig().(autoCrop := false, removeBackground := false);
    ThinRunRaises(c, input, output, env);
    ProcessImageReportsTheException(c, input, output, env, false);
    DivisionByZeroMessage(Name(input));
  }

  /** A segmenter that hands back an image whose mode cannot serve as a mask (RGB, for one)
      makes the paste at line 148 refuse it; the ValueError is reported through the first except clause. */
  lemma OpaqueSegmentationFails(c: ProcessingConfig, input: Path, output: Path, env: Env, out: Raster)
    requires env.open(input).Ok? && env.load(input).None? && c.removeBackground
    requires var img := env.open(input).value;
      env.segment(if img.mode != "RGB" then ToRGB(img) else img) == Ok(out)
    requires !MaskMode(out.mode) && c.targetWidth >= 0 && c.targetHeight >= 0
    requires ContentSize(out, c).Ok? && ContentSize(out, c).value.width >= 1 && ContentSize(out, c).value.height >= 1
    ensures ProcessImage(c, input, output, env, false).0.error ==
      Some("Processing failed for " + Name(input) + ": bad transparency mask")
  {
    OpaqueSegmentationRaises(c, input, output, env, out);
    ProcessImageReportsTheException(c, input, output, env, false);
    BadMaskMessage(Name(input));
  }

  lemma OpaqueSegmentationRaises(c: ProcessingConfig, input: Path, output: Path, env: Env, out: Raster)
    requires env.open(input).Ok? && env.load(input).None? && c.removeBackground
    requires var img := env.open(input).value;
      env.segment(if img.mode != "RGB" then ToRGB(img) else img) == Ok(out)
    requires !MaskMode(out.mode) && c.targetWidth >= 0 && c.targetHeight >= 0
    requires ContentSize(out, c).Ok? && ContentSize(out, c).value.width >= 1 && ContentSize(out, c).value.height >= 1
    ensures RunStages(c, input, output, env).raised == Some(AsException(BadTransparencyMask))
  {
    assert Prepare(c, env.open(input).value, env) == Ok(out);
    NonMaskContentIsRefused(out, c);
  }

  lemma BadMaskMessage(name: string)
    ensures FailureMessage(name, AsException(BadTransparencyMask)) ==
      "Processing failed for " + name + ": bad transparency mask"
  {
    assert Expected(ValueError);
    var head := "Processing failed for " + name;
    assert head + ": " + "bad transparency mask" == head + (": " + "bad transparency mask");
    assert ": " + "bad transparency mask" == ": bad transparency mask";
  }

  lemma ThinRunRaises(c: ProcessingConfig, input: Path, output: Path, env: Env)
    requires c == DefaultConfig().(autoCrop := false, removeBackground := false)
    requires env.open(input).Ok? && env.load(input).None?
    requires env.open(input).value.width == 1 && env.open(input).value.height == 2000
    ensures RunStages(c, input, output, env).raised == Some(AsException(DivisionByZero))
  {
    var img := env.open(input).value;
    var prepared := Prepare(c, img, env).value;
    ThinContentDividesByZero(prepared, c);
  }

  lemma DivisionByZeroMessage(name: string)
    ensures FailureMessage(name, AsException(DivisionByZero)) ==
      "Unexpected error processing " + name + ": division by zero"
  {
    assert !Expected(ZeroDivisionError);
    var head := "Unexpected error processing " + name;
    assert head + ": " + "division by zero" == head + (": " + "division by zero");
    assert ": " + "division by zero" == ": division by zero";
  }

  lemma CropOfWholeImage(img: Raster)
    ensures Crop(img, Box(0, 0, img.width, img.height)) == img
  {
    var cropped := Crop(img, Box(0, 0, img.width, img.height));
    forall y | 0 <= y < img.height ensures cropped.alpha[y] == img.alpha[y] {
      assert img.alpha[y][0..img.width] == img.alpha[y];
    }
  }

  /** A fully opaque image, such as the fallback of a failed background removal, is not
      cropped when the padding is non-negative. */
  lemma OpaqueImageIsNotCropped(img: Raster, padding: int)
    requires forall x, y :: 0 <= x < img.width && 0 <= y < img.height ==> Visible(img, x, y)
    requires padding >= 0
    ensures AutoCrop(img, None, padding) == Ok(img)
  {
    if img.mode == "RGBA" && img.width > 0 && img.height > 0 {
      assert Visible(img, 0, 0);
      assert Visible(img, img.width - 1, img.height - 1);
      var b := GetBBox(img).value;
      assert PaddedBox(img, b, padding) == Box(0, 0, img.width, img.height);
      CropOfWholeImage(img);
    } else if img.mode == "RGBA" {
      assert forall x, y :: !Visible(img, x, y);
    }
  }

  /** `ImageProcessor(config)`: `config or ProcessingConfig()`; a dataclass instance is always truthy. */
  function EffectiveConfig(config: Option<ProcessingConfig>): ProcessingConfig {
    if config.Some? then config.value else DefaultConfig()
  }

  /** Line 295: `output_dir / f"{input_path.stem}.png"`. */
  function OutputPath(outDir: Path, input: Path): Path {
    Join(outDir, Stem(Name(input)) + ".png")
  }

  /** The output file is named after the input's stem with a .png suffix, in `outDir`. */
  lemma OutputPathProperties(outDir: Path, input: Path)
    ensures Name(OutputPath(outDir, input)) == Stem(Name(input)) + ".png"
    ensures |outDir| > 0 ==> Parent(OutputPath(outDir, input)) == outDir
  {
    StemHasNoSlash(Name(input));
    JoinName(outDir, Stem(Name(input)) + ".png");
    ParentOfJoinWhen(outDir, Stem(Name(input)) + ".png");
  }

  lemma StemHasNoSlash(name: string)
    requires '/' !in name
    ensures '/' !in Stem(name) + ".png"
  {
    forall i | 0 <= i < |Stem(name)| ensures Stem(name)[i] != '/' {
      assert Stem(name)[i] == name[i];
    }
    assert (Stem(name) + ".png")[..|Stem(name)|] == Stem(name);
  }

  lemma ParentOfJoinWhen(dir: Path, name: string)
    requires '/' !in name
    ensures |dir| > 0 ==> Parent(Join(dir, name)) == dir
  {
    if |dir| > 0 {
      ParentOfJoin(dir, name);
    }
  }

  /** Two inputs with the same stem are written to the same output file. */
  lemma SameStemSameOutput(outDir: Path, a: Path, b: Path)
    requires Stem(Name(a)) == Stem(Name(b))
    ensures OutputPath(outDir, a) == OutputPath(outDir, b)
  {
  }

  /** One entry of the results list. */
  datatype ItemResult = ItemResult(input: Path, output: Path, success: bool, error: Option<string>, metadata: Metadata)

  /** The dict `batch_process` returns. */
  datatype BatchSummary = BatchSummary(total: nat, success: nat, failed: nat, results: seq<ItemResult>)

  /** The entry for one input: processed without a per-image callback. */
  function Item(c: ProcessingConfig, input: Path, outDir: Path, env: Env): ItemResult {
    var output := OutputPath(outDir, input);
    var o := ProcessImage(c, input, output, env, false).0;
    ItemResult(input, output, o.success, o.error, o.metadata)
  }

  /** The processor's entry function for a configuration, an output directory and the environment. */
  function ItemOf(c: ProcessingConfig, outDir: Path, env: Env): Path -> ItemResult {
    input => Item(c, input, outDir, env)
  }

  /** The entries that `entry` records for a list of inputs, in order. */
  function Entries(entry: Path -> ItemResult, inputs: seq<Path>): (rs: seq<ItemResult>)
    ensures |rs| == |inputs|
  {
    if |inputs| == 0 then []
    else Entries(entry, inputs[..|inputs| - 1]) + [entry(inputs[|inputs| - 1])]
  }

  /** The entries of a batch run with configuration `c`. */
  function Items(c: ProcessingConfig, inputs: seq<Path>, outDir: Path, env: Env): seq<ItemResult> {
    Entries(ItemOf(c, outDir, env), inputs)
  }

  lemma {:induction false} EntriesAt(entry: Path -> ItemResult, inputs: seq<Path>, k: int)
    requires 0 <= k < |inputs|
    ensures Entries(entry, inputs)[k] == entry(inputs[k])
    decreases |inputs|
  {
    if k < |inputs| - 1 {
      var init := inputs[..|inputs| - 1];
      EntriesAt(entry, init, k);
      assert init[k] == inputs[k];
    }
  }

  /** Entry k is the entry of input k. */
  lemma ItemsAt(c: ProcessingConfig, inputs: seq<Path>, outDir: Path, env: Env, k: int)
    requires 0 <= k < |inputs|
    ensures Items(c, inputs, outDir, env)[k] == Item(c, inputs[k], outDir, env)
  {
    EntriesAt(ItemOf(c, outDir, env), inputs, k);
  }

  /** The (current, total, filename) triples the batch callback receives for `inputs`. */
  function Announcements(inputs: seq<Path>, total: int): (calls: seq<(int, int, string)>)
    ensures |calls| == |inputs|
  {
    if |inputs| == 0 then []
    else Announcements(inputs[..|inputs| - 1], total) + [(|inputs|, total, Name(inputs[|inputs| - 1]))]
  }

  /** Call k announces input k as number k + 1 (`enumerate(input_paths, 1)`). */
  lemma {:induction false} AnnouncementAt(inputs: seq<Path>, total: int, k: int)
    requires 0 <= k < |inputs|
    ensures Announcements(inputs, total)[k] == (k + 1, total, Name(inputs[k]))
    decreases |inputs|
  {
    if k < |inputs| - 1 {
      var init := inputs[..|inputs| - 1];
      AnnouncementAt(init, total, k);
      assert init[k] == inputs[k];
    }
  }

  /** The number of successful entries. */
  function CountSuccess(rs: seq<ItemResult>): (n: nat)
    ensures n <= |rs|
  {
    if |rs| == 0 then 0
    else CountSuccess(rs[..|rs| - 1]) + (if rs[|rs| - 1].success then 1 else 0)
  }

  /** Every entry succeeded exactly when the count reaches the length. */
  lemma {:induction false} AllSucceededIff(rs: seq<ItemResult>)
    ensures CountSuccess(rs) == |rs| <==> forall k :: 0 <= k < |rs| ==> rs[k].success
  {
    if |rs| > 0 {
      var init := rs[..|rs| - 1];
      AllSucceededIff(init);
      assert forall k :: 0 <= k < |init| ==> init[k] == rs[k];
    }
  }

  lemma EntriesStep(entry: Path -> ItemResult, inputs: seq<Path>, i: int)
    requires 0 <= i < |inputs|
    ensures Entries(entry, inputs[..i + 1]) == Entries(entry, inputs[..i]) + [entry(inputs[i])]
  {
    assert inputs[..i + 1][..i] == inputs[..i];
  }

  lemma AnnouncementsStep(inputs: seq<Path>, total: int, i: int)
    requires 0 <= i < |inputs|
    ensures Announcements(inputs[..i + 1], total) == Announcements(inputs[..i], total) + [(i + 1, total, Name(inputs[i]))]
  {
    assert inputs[..i + 1][..i] == inputs[..i];
  }

  lemma CountSuccessSnoc(rs: seq<ItemResult>, x: ItemResult)
    ensures CountSuccess(rs + [x]) == CountSuccess(rs) + (if x.success then 1 else 0)
  {
    assert (rs + [x])[..|rs|] == rs;
  }

  /** The loop of `batch_process` (lines 293-317), for the processor's entry function:
      the callback sees (i, total, name) before each input, and the counts follow the entries. */
  method ProcessAll(inputs: seq<Path>, entry: Path -> ItemResult, notify: bool)
    returns (results: seq<ItemResult>, success: nat, failed: nat, progress: seq<(int, int, string)>)
    ensures results == Entries(entry, inputs)
    ensures success == CountSuccess(results) && success + failed == |inputs|
    ensures progress == if notify then Announcements(inputs, |inputs|) else []
  {
    results, success, failed, progress := [], 0, 0, [];
    var i := 0;
    while i < |inputs|
      invariant 0 <= i <= |inputs|
      invariant results == Entries(entry, inputs[..i])
      invariant success == CountSuccess(results) && success + failed == i
      invariant progress == if notify then Announcements(inputs[..i], |inputs|) else []
    {
      var input := inputs[i];
      if notify {
        AnnouncementsStep(inputs, |inputs|, i);
        progress := progress + [(i + 1, |inputs|, Name(input))];
      }
      var e := entry(input);
      CountSuccessSnoc(results, e);
      if e.success {
        success := success + 1;
      } else {
        failed := failed + 1;
      }
      EntriesStep(entry, inputs, i);
      results := results + [e];
      i := i + 1;
    }
    assert inputs[..i] == inputs;
  }

  /** `batch_process`. It fails only when the output directory cannot be made; otherwise
      every input has its entry, in order, and the callback sees (i, total, name) before each. */
  method BatchProcess(inputs: seq<Path>, outDir: Path, config: Option<ProcessingConfig>, env: Env, notify: bool)
    returns (r: Result<BatchSummary, PyException>, progress: seq<(int, int, string)>)
    ensures env.makeDirs(outDir).Some? ==> r == Err(env.makeDirs(outDir).value) && progress == []
    ensures env.makeDirs(outDir).None? ==> r.Ok?
    ensures r.Ok? ==>
      && r.value.total == |inputs| && |r.value.results| == |inputs|
      && r.value.results == Items(EffectiveConfig(config), inputs, outDir, env)
      && r.value.success == CountSuccess(r.value.results)
      && r.value.success + r.value.failed == r.value.total
    ensures r.Ok? && notify ==> progress == Announcements(inputs, |inputs|)
    ensures !notify ==> progress == []
  {
    if env.makeDirs(outDir).Some? {
      return Err(env.makeDirs(outDir).value), [];
    }
    var c := EffectiveConfig(config);
    var results, success, failed;
    results, success, failed, progress := ProcessAll(inputs, ItemOf(c, outDir, env), notify);
    r := Ok(BatchSummary(|inputs|, success, failed, results));
  }
}
