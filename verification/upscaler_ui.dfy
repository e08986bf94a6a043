/** The swin_unet upscaler panel: the choice of category and noise level
    names the model file, keys are turned into button labels, a loaded
    picture is shown as a preview no larger than 640 pixels, and the
    upscale action runs the chosen model on the preview canvas. */
module UpscalerUI {
  import opened Common
  import opened Grids
  import opened Images
  import OrtRunner

  /** The six model families, each trained for one kind of picture. */
  datatype Category = Art | ArtScan | Photo | PhotoScan | ArtHd | PhotoHd

  /** The four denoising levels. */
  type Noise = n: nat | n < 4

  const CATEGORIES: seq<Category> := [Art, ArtScan, Photo, PhotoScan, ArtHd, PhotoHd]
  const NOISES: seq<Noise> := [0, 1, 2, 3]

  /** The panel's defaults and initial selection. */
  const DEFAULT_MODEL_BASE: string := "/onnx_models"
  const DEFAULT_PAD_MULTIPLE: int := 8
  const DEFAULT_BGR: bool := false
  const INITIAL_CATEGORY: Category := ArtScan
  const INITIAL_NOISE: Noise := 0

  /** The key a category is written as, in model paths and in the UI. */
  function Key(c: Category): string {
    match c
    case Art => "art"
    case ArtScan => "art_scan"
    case Photo => "photo"
    case PhotoScan => "photo_scan"
    case ArtHd => "art_hd"
    case PhotoHd => "photo_hd"
  }

  /** The category buttons list every category once, and the noise
      buttons every level once. */
  lemma ChoicesComplete()
    ensures forall c: Category :: c in CATEGORIES
    ensures forall n: Noise :: n in NOISES
    ensures forall i, j :: 0 <= i < j < |CATEGORIES| ==> CATEGORIES[i] != CATEGORIES[j]
    ensures forall i, j :: 0 <= i < j < |NOISES| ==> NOISES[i] != NOISES[j]
  {
    forall c: Category
      ensures c in CATEGORIES
    {
      match c
      case Art => assert CATEGORIES[0] == c;
      case ArtScan => assert CATEGORIES[1] == c;
      case Photo => assert CATEGORIES[2] == c;
      case PhotoScan => assert CATEGORIES[3] == c;
      case ArtHd => assert CATEGORIES[4] == c;
      case PhotoHd => assert CATEGORIES[5] == c;
    }
  }

  /** Distinct categories have distinct keys. */
  lemma KeyInjective(a: Category, b: Category)
    requires Key(a) == Key(b)
    ensures a == b
  {
  }

  function NoiseDigit(n: Noise): char {
    ('0' as int + n) as char
  }

  const SWIN_UNET: string := "/swin_unet/"
  const NOISE_PREFIX: string := "/noise"
  const MODEL_SUFFIX: string := "_scale2x.onnx"

  /** `${modelBase}/swin_unet/${category}/noise${noise}_scale2x.onnx`. */
  function ModelURL(base: string, c: Category, n: Noise): (u: string)
    ensures |u| == |base| + |SWIN_UNET| + |Key(c)| + |NOISE_PREFIX| + 1 + |MODEL_SUFFIX|
    ensures u[..|base|] == base
    ensures u[|u| - |MODEL_SUFFIX|..] == MODEL_SUFFIX
  {
    base + SWIN_UNET + Key(c) + NOISE_PREFIX + [NoiseDigit(n)] + MODEL_SUFFIX
  }

  /** Where the key and the noise digit sit in a string built like a
      model URL. */
  lemma URLFields(base: string, key: string, d: char)
    ensures var u, at := base + SWIN_UNET + key + NOISE_PREFIX + [d] + MODEL_SUFFIX, |base| + |SWIN_UNET|;
      && u[at..at + |key|] == key
      && u[at + |key| + |NOISE_PREFIX|] == d
  {
    var u, at := base + SWIN_UNET + key + NOISE_PREFIX + [d] + MODEL_SUFFIX, |base| + |SWIN_UNET|;
    forall m | 0 <= m < |key|
      ensures u[at + m] == key[m]
    {
    }
    assert u[at..at + |key|] == key;
  }

  /** Where the category key and the noise digit sit in a model URL. */
  lemma ModelURLFields(base: string, c: Category, n: Noise)
    ensures var u, at := ModelURL(base, c, n), |base| + |SWIN_UNET|;
      && u[at..at + |Key(c)|] == Key(c)
      && u[at + |Key(c)| + |NOISE_PREFIX|] == NoiseDigit(n)
  {
    URLFields(base, Key(c), NoiseDigit(n));
  }

  /** Every (category, noise) selection names its own model file: two
      selections give the same URL exactly when they are the same. */
  lemma ModelURLInjective(base: string, c1: Category, n1: Noise, c2: Category, n2: Noise)
    ensures ModelURL(base, c1, n1) == ModelURL(base, c2, n2) <==> c1 == c2 && n1 == n2
  {
    if ModelURL(base, c1, n1) == ModelURL(base, c2, n2) {
      ModelURLFields(base, c1, n1);
      ModelURLFields(base, c2, n2);
      assert |Key(c1)| == |Key(c2)|;
      KeyInjective(c1, c2);
    }
  }

  // ---------------------------------------------------------------------
  // labelize

  /** The position of the first `c` in `s` at or after `k`, or `|s|`
      when there is none. */
  function IndexFrom(s: string, c: char, k: nat): (i: nat)
    requires k <= |s|
    ensures k <= i <= |s|
    ensures i < |s| ==> s[i] == c
    ensures forall m :: k <= m < i ==> s[m] != c
    decreases |s| - k
  {
    if k == |s| then k else if s[k] == c then k else IndexFrom(s, c, k + 1)
  }

  /** The position of the first `c` in `s`, or `|s|` when there is none. */
  function IndexOf(s: string, c: char): (i: nat)
    ensures i <= |s|
    ensures i < |s| ==> s[i] == c
    ensures forall k :: 0 <= k < i ==> s[k] != c
  {
    IndexFrom(s, c, 0)
  }

  /** `toUpperCase` on one character, for the ASCII letters. */
  function Upper(c: char): char {
    if 'a' <= c <= 'z' then (c as int - 32) as char else c
  }

  /** The error `s[0].toUpperCase()` raises when the segment `s` is empty. */
  const UNDEFINED_TO_UPPER: string := "Cannot read properties of undefined (reading 'toUpperCase')"

  /** The label of the segments of `key` from position `s` on, `s` being
      the start of a segment: the segment runs up to the next `_`; its
      first character is upper-cased, and an empty segment throws. */
  function LabelizeFrom(key: string, s: nat): Result<string, string>
    requires s <= |key|
    decreases |key| - s
  {
    var i := IndexFrom(key, '_', s);
    if i == s then Failure(UNDEFINED_TO_UPPER)
    else
      var word := [Upper(key[s])] + key[s + 1..i];
      if i == |key| then Success(word)
      else
        match LabelizeFrom(key, i + 1)
        case Failure(e) => Failure(e)
        case Success(rest) => Success(word + " " + rest)
  }

  /** `key.split('_').map(s => s[0].toUpperCase() + s.slice(1)).join(' ')`,
      one segment at a time. */
  function Labelize(key: string): Result<string, string> {
    LabelizeFrom(key, 0)
  }

  /** A key whose `_`-separated segments are all non-empty: it is not
      empty, neither starts nor ends with `_`, and has no `__`. */
  predicate NoEmptySegment(key: string) {
    && |key| >= 1
    && key[0] != '_'
    && key[|key| - 1] != '_'
    && forall k :: 0 <= k < |key| - 1 && key[k] == '_' ==> key[k + 1] != '_'
  }

  /** The same, for the part of `key` from position `s` on. */
  predicate NoEmptySegmentFrom(key: string, s: nat) {
    && s < |key|
    && key[s] != '_'
    && key[|key| - 1] != '_'
    && forall k :: s <= k < |key| - 1 && key[k] == '_' ==> key[k + 1] != '_'
  }

  /** What labelize writes at position `k` of the key: a space for each
      `_`, the upper-case letter at the start of a segment, and every
      other character unchanged. */
  function LabelChar(key: string, k: nat): char
    requires k < |key|
  {
    if key[k] == '_' then ' '
    else if k == 0 || key[k - 1] == '_' then Upper(key[k])
    else key[k]
  }

  lemma {:induction false} LabelizeFromSucceeds(key: string, s: nat)
    requires s <= |key|
    ensures LabelizeFrom(key, s).Success? <==> NoEmptySegmentFrom(key, s)
    decreases |key| - s
  {
    var i := IndexFrom(key, '_', s);
    if i != s && i < |key| {
      LabelizeFromSucceeds(key, i + 1);
      if NoEmptySegmentFrom(key, i + 1) {
        assert key[i - 1] != '_';
      }
    }
  }

  /** labelize succeeds exactly on keys without an empty segment. */
  lemma LabelizeSucceeds(key: string)
    ensures Labelize(key).Success? <==> NoEmptySegment(key)
  {
    LabelizeFromSucceeds(key, 0);
  }

  /** The segment from `s` to `i` (no `_` inside) is written as
      `LabelChar` says. */
  lemma WordChars(key: string, s: nat, i: nat)
    requires s < i <= |key| && (s == 0 || key[s - 1] == '_')
    requires forall m :: s <= m < i ==> key[m] != '_'
    ensures var word := [Upper(key[s])] + key[s + 1..i];
      forall k :: s <= k < i ==> word[k - s] == LabelChar(key, k)
  {
    var word := [Upper(key[s])] + key[s + 1..i];
    forall k | s < k < i
      ensures word[k - s] == LabelChar(key, k)
    {
      assert key[k - 1] != '_';
      assert word[k - s] == key[k];
    }
  }

  lemma {:induction false} LabelizeFromChars(key: string, s: nat)
    requires s <= |key| && (s == 0 || key[s - 1] == '_')
    requires LabelizeFrom(key, s).Success?
    ensures var l := LabelizeFrom(key, s).value;
      && |l| == |key| - s
      && forall k :: s <= k < |key| ==> l[k - s] == LabelChar(key, k)
    decreases |key| - s
  {
    var i := IndexFrom(key, '_', s);
    var word := [Upper(key[s])] + key[s + 1..i];
    var l := LabelizeFrom(key, s).value;
    WordChars(key, s, i);
    if i < |key| {
      LabelizeFromChars(key, i + 1);
      var r := LabelizeFrom(key, i + 1).value;
      assert l == word + " " + r;
      forall k | s <= k < |key|
        ensures l[k - s] == LabelChar(key, k)
      {
        if k > i {
          assert l[k - s] == r[k - (i + 1)];
        }
      }
    }
  }

  /** A label is as long as its key and agrees with it character by
      character: `_` becomes a space, the first letter of each segment is
      upper-cased, everything else is kept. */
  lemma LabelizeChars(key: string)
    requires Labelize(key).Success?
    ensures var l := Labelize(key).value;
      && |l| == |key|
      && forall k :: 0 <= k < |key| ==> l[k] == LabelChar(key, k)
  {
    LabelizeFromChars(key, 0);
  }

  /** The label of a key without empty segments is the string that
      agrees with `LabelChar` everywhere. */
  lemma LabelOf(key: string, text: string)
    requires NoEmptySegment(key)
    requires |text| == |key| && forall k :: 0 <= k < |key| ==> text[k] == LabelChar(key, k)
    ensures Labelize(key) == Success(text)
  {
    LabelizeSucceeds(key);
    LabelizeChars(key);
    assert Labelize(key).value == text;
  }

  /** How often `c` occurs in `s`. */
  function Count(s: string, c: char): nat {
    if |s| == 0 then 0 else (if s[0] == c then 1 else 0) + Count(s[1..], c)
  }

  /** Two equally long strings with `a` where the other has `b` have as
      many of one as the other has of the other. */
  lemma {:induction false} CountMatched(s: string, t: string, a: char, b: char)
    requires |s| == |t|
    requires forall k :: 0 <= k < |s| ==> (s[k] == a <==> t[k] == b)
    ensures Count(s, a) == Count(t, b)
  {
    if |s| > 0 {
      assert s[0] == a <==> t[0] == b;
      CountMatched(s[1..], t[1..], a, b);
    }
  }

  /** For a key without spaces, the label has one space per `_` and so
      `1 + Count(key, '_')` words. */
  lemma LabelizeWordCount(key: string)
    requires Labelize(key).Success?
    requires ' ' !in key
    ensures Count(Labelize(key).value, ' ') == Count(key, '_')
  {
    LabelizeChars(key);
    var l := Labelize(key).value;
    forall k | 0 <= k < |l|
      ensures l[k] == ' ' <==> key[k] == '_'
    {
      assert key[k] in key;
    }
    CountMatched(l, key, ' ', '_');
  }

  /** The button labels of the six categories. */
  lemma CategoryLabels()
    ensures Labelize(Key(Art)) == Success("Art")
    ensures Labelize(Key(ArtScan)) == Success("Art Scan")
    ensures Labelize(Key(Photo)) == Success("Photo")
    ensures Labelize(Key(PhotoScan)) == Success("Photo Scan")
    ensures Labelize(Key(ArtHd)) == Success("Art Hd")
    ensures Labelize(Key(PhotoHd)) == Success("Photo Hd")
  {
    LabelOf("art", "Art");
    LabelOf("photo", "Photo");
    ArtScanLabel();
    PhotoScanLabel();
    ArtHdLabel();
    PhotoHdLabel();
  }

  lemma ArtScanLabel()
    ensures Labelize("art_scan") == Success("Art Scan")
  {
    LabelOf("art_scan", "Art Scan");
  }

  lemma PhotoScanLabel()
    ensures Labelize("photo_scan") == Success("Photo Scan")
  {
    LabelOf("photo_scan", "Photo Scan");
  }

  lemma ArtHdLabel()
    ensures Labelize("art_hd") == Success("Art Hd")
  {
    LabelOf("art_hd", "Art Hd");
  }

  lemma PhotoHdLabel()
    ensures Labelize("photo_hd") == Success("Photo Hd")
  {
    LabelOf("photo_hd", "Photo Hd");
  }

  /** Keys with an empty segment throw. */
  lemma LabelizeRejects()
    ensures Labelize("") == Failure(UNDEFINED_TO_UPPER)
    ensures Labelize("_art") == Failure(UNDEFINED_TO_UPPER)
    ensures Labelize("art_") == Failure(UNDEFINED_TO_UPPER)
    ensures Labelize("art__scan") == Failure(UNDEFINED_TO_UPPER)
  {
  }

  // ---------------------------------------------------------------------
  // preview and upscale

  const MAX_PREVIEW: nat := 640

  /** The preview canvas size for a `w x h` picture: scaled by
      `min(1, 640 / max(w, h))`, each side rounded. A picture with no
      pixels divides by zero, which in JavaScript gives `Infinity`, so its
      scale is 1 too. */
  function PreviewSize(w: nat, h: nat): (size: (nat, nat))
    ensures size.0 <= MAX_PREVIEW && size.1 <= MAX_PREVIEW
    ensures Max(w, h) <= MAX_PREVIEW ==> size == (w, h)
    ensures Max(w, h) > MAX_PREVIEW ==> Max(size.0, size.1) == MAX_PREVIEW
  {
    var m := Max(w, h);
    if m <= MAX_PREVIEW then (w, h)
    else
      var s := MAX_PREVIEW as real / m as real;
      ScaledSide(w, m);
      ScaledSide(h, m);
      (Round(w as real * s), Round(h as real * s))
  }

  /** One side `x` of a picture whose longer side is `m > 640`, scaled by
      `640 / m`: at most 640, and exactly 640 on the longer side. */
  lemma ScaledSide(x: nat, m: nat)
    requires x <= m && m > MAX_PREVIEW
    ensures 0 <= Round(x as real * (MAX_PREVIEW as real / m as real)) <= MAX_PREVIEW
    ensures x == m ==> Round(x as real * (MAX_PREVIEW as real / m as real)) == MAX_PREVIEW
  {
    var s := MAX_PREVIEW as real / m as real;
    assert 0.0 < s < 1.0;
    assert x as real * s <= m as real * s == MAX_PREVIEW as real;
  }

  /** Opens a session on a model URL: the session and the dims of its
      first input, or the reason it could not be created. */
  type CreateSession = string -> Result<(OrtRunner.Session, seq<int>), string>

  /** `runImageModelFromUrl`: create a session, then run the image through it. */
  function RunImageModelFromUrl(create: CreateSession, url: string, img: ImageData, options: OrtRunner.RunOptions): (r: Result<OrtRunner.RunResult, string>)
    requires img.Valid()
    ensures r.Success? ==> create(url).Success?
  {
    var ready :- create(url);
    OrtRunner.RunImageModel(ready.0, ready.1, img, options)
  }

  /** The panel's settings, as its properties give them. */
  datatype Settings = Settings(modelBase: string, padMultiple: int, bgr: bool)

  const DEFAULT_SETTINGS: Settings := Settings(DEFAULT_MODEL_BASE, DEFAULT_PAD_MULTIPLE, DEFAULT_BGR)

  const NO_IMAGE: string := "Please load an image first."

  function RunOptionsOf(settings: Settings): OrtRunner.RunOptions {
    OrtRunner.RunOptions(Some(settings.padMultiple), Some(true), Some(settings.bgr))
  }

  /** `doUpscale` as written: the only test for a loaded picture is a
      non-zero canvas size. `canvas` is the input canvas element, if it is
      mounted. */
  function DoUpscaleAsWritten(settings: Settings, c: Category, n: Noise, canvas: Option<Canvas>, create: CreateSession): (r: Result<ImageData, string>)
    requires canvas.Some? ==> canvas.value.Valid()
    ensures canvas.None? || canvas.value.width == 0 || canvas.value.height == 0 ==> r == Failure(NO_IMAGE)
    ensures r.Success? ==>
      && canvas.Some? && create(ModelURL(settings.modelBase, c, n)).Success?
      && r.value.Valid()
      && var s := r.value.width / canvas.value.width;
      && r.value.width == canvas.value.width * s
      && r.value.height == canvas.value.height * s
  {
    if canvas.None? || canvas.value.width == 0 || canvas.value.height == 0 then Failure(NO_IMAGE)
    else
      var cv := canvas.value;
      var img := GetImageData(cv, 0, 0, cv.width, cv.height);
      var result :- RunImageModelFromUrl(create, ModelURL(settings.modelBase, c, n), img, RunOptionsOf(settings));
      UpscaledBy(result, img, create, ModelURL(settings.modelBase, c, n), RunOptionsOf(settings));
      Success(result.image)
  }

  /** A successful run scales both sides of the image by the same whole
      factor. */
  lemma UpscaledBy(result: OrtRunner.RunResult, img: ImageData, create: CreateSession, url: string, options: OrtRunner.RunOptions)
    requires img.Valid()
    requires RunImageModelFromUrl(create, url, img, options) == Success(result)
    ensures result.image.Valid()
    ensures var s := result.image.width / img.width;
      result.image.width == img.width * s && result.image.height == img.height * s
  {
    var ready := create(url).value;
    var r := OrtRunner.RunImageModel(ready.0, ready.1, img, options);
    assert r == Success(result);
    var out, p := OrtRunner.OutputImage(result.tensor).value, OrtRunner.PaddedInput(img, options);
    var s := OrtRunner.ApproxScale(out.width, out.height, p.width, p.height);
    assert result.image.width == img.width * s && result.image.height == img.height * s;
    DivModUnique(result.image.width, img.width, s, 0);
  }

  /** An HTML canvas without width and height attributes is 300 x 150
      pixels of transparent black (section 4.12.5 of the HTML Living
      Standard): the input canvas before any picture is loaded. */
  const UNLOADED_CANVAS: Canvas := Blank(DEFAULT_CANVAS_WIDTH, DEFAULT_CANVAS_HEIGHT)

  /** Before any picture is loaded the guard lets the request through and
      the model runs on the blank 300 x 150 canvas. */
  lemma DoUpscaleAsWrittenRunsOnBlank(settings: Settings, c: Category, n: Noise, create: CreateSession)
    ensures var img := GetImageData(UNLOADED_CANVAS, 0, 0, 300, 150);
      && (forall i, j :: 0 <= i < 150 && 0 <= j < 300 ==> img.At(i, j) == Transparent)
      && DoUpscaleAsWritten(settings, c, n, Some(UNLOADED_CANVAS), create)
         == match RunImageModelFromUrl(create, ModelURL(settings.modelBase, c, n), img, RunOptionsOf(settings))
            case Success(result) => Success(result.image)
            case Failure(e) => Failure(e)
  {
    var img := GetImageData(UNLOADED_CANVAS, 0, 0, 300, 150);
    forall i, j | 0 <= i < 150 && 0 <= j < 300
      ensures img.At(i, j) == Transparent
    {
      assert img.At(i, j) == ReadPixel(UNLOADED_CANVAS, i, j);
    }
  }

  /** The input canvas as the panel holds it: its pixels, and whether
      `drawImageToCanvas` has drawn a picture on it. */
  datatype InputCanvas = InputCanvas(canvas: Canvas, drawn: bool)

  /** The input canvas when the panel mounts: the default canvas, with
      nothing drawn. */
  const INITIAL_INPUT: InputCanvas := InputCanvas(UNLOADED_CANVAS, false)

  /** The pixel `(i, j)` of a picture drawn into a `w x h` rectangle
      (`drawImage` with a destination size); the filter is the browser's. */
  type Resample = (Canvas, nat, nat, nat, nat) -> Pixel

  /** The outcome of one file event: no file chosen (`None`), a file
      `img.decode()` rejected with a message, or the decoded picture. */
  type FileEvent = Option<Result<Canvas, string>>

  predicate Picked(file: FileEvent) {
    file.Some? && file.value.Success?
  }

  /** `drawImageToCanvas` once the picture is decoded: the canvas takes
      the preview size, is cleared, and the resampled picture covers it. */
  function DrawImageToCanvas(picture: Canvas, resample: Resample): (c: Canvas)
    ensures c.Valid() && (c.width, c.height) == PreviewSize(picture.width, picture.height)
    ensures forall i, j :: 0 <= i < c.height && 0 <= j < c.width ==> c.At(i, j) == resample(picture, c.width, c.height, i, j)
  {
    var size := PreviewSize(picture.width, picture.height);
    Build(size.1, size.0, (i: nat, j: nat) => resample(picture, size.0, size.1, i, j))
  }

  /** `handleFile` and `onDrop`: without a file nothing happens; a picture
      that does not decode leaves the canvas as it was and becomes the
      panel's error; a decoded one is drawn. */
  function LoadFile(input: InputCanvas, file: FileEvent, resample: Resample): (r: (InputCanvas, Option<string>))
    ensures r.1.Some? <==> file.Some? && file.value.Failure?
    ensures !Picked(file) ==> r.0 == input
    ensures Picked(file) ==> r.0.drawn && r.0.canvas == DrawImageToCanvas(file.value.value, resample)
  {
    match file
    case None => (input, None)
    case Some(Failure(e)) => (input, Some(e))
    case Some(Success(picture)) => (InputCanvas(DrawImageToCanvas(picture, resample), true), None)
  }

  /** The input canvas after a series of file events, in order. */
  function Loads(input: InputCanvas, files: seq<FileEvent>, resample: Resample): (r: InputCanvas)
    requires input.canvas.Valid()
    ensures r.canvas.Valid()
    decreases |files|
  {
    if |files| == 0 then input
    else Loads(LoadFile(input, files[0], resample).0, files[1..], resample)
  }

  /** A picture has been drawn after a series of file events exactly when
      one had been drawn before or one of the events decoded a picture. */
  lemma {:induction false} LoadsDrawn(input: InputCanvas, files: seq<FileEvent>, resample: Resample)
    requires input.canvas.Valid()
    ensures Loads(input, files, resample).drawn <==> input.drawn || exists k :: 0 <= k < |files| && Picked(files[k])
    decreases |files|
  {
    if |files| > 0 {
      var next := LoadFile(input, files[0], resample).0;
      LoadsDrawn(next, files[1..], resample);
      if exists k :: 0 <= k < |files| && Picked(files[k]) {
        var k :| 0 <= k < |files| && Picked(files[k]);
        if k > 0 {
          assert Picked(files[1..][k - 1]);
        }
      }
      forall k | 0 <= k < |files| - 1 && Picked(files[1..][k])
        ensures Picked(files[k + 1])
      {
      }
    }
  }

  /** `doUpscale` with the guard it evidently means: refuse until a
      picture has been drawn on the input canvas, and then go on as
      written. `input` is the input canvas, if it is mounted. */
  function DoUpscale(settings: Settings, c: Category, n: Noise, input: Option<InputCanvas>, create: CreateSession): (r: Result<ImageData, string>)
    requires input.Some? ==> input.value.canvas.Valid()
    ensures r.Success? ==> input.Some? && input.value.drawn
    ensures input.None? || !input.value.drawn ==> r == Failure(NO_IMAGE)
    ensures input.Some? && input.value.drawn ==> r == DoUpscaleAsWritten(settings, c, n, Some(input.value.canvas), create)
  {
    if input.None? || !input.value.drawn then Failure(NO_IMAGE)
    else DoUpscaleAsWritten(settings, c, n, Some(input.value.canvas), create)
  }

  /** On the panel as mounted the corrected flow refuses, where the code
      as written runs the model on the blank default canvas. */
  lemma DoUpscaleRefusesUnloaded(settings: Settings, c: Category, n: Noise, create: CreateSession)
    ensures DoUpscale(settings, c, n, Some(INITIAL_INPUT), create) == Failure(NO_IMAGE)
    ensures DoUpscaleAsWritten(settings, c, n, Some(INITIAL_INPUT.canvas), create)
            == match RunImageModelFromUrl(create, ModelURL(settings.modelBase, c, n), GetImageData(UNLOADED_CANVAS, 0, 0, 300, 150), RunOptionsOf(settings))
               case Success(result) => Success(result.image)
               case Failure(e) => Failure(e)
  {
    DoUpscaleAsWrittenRunsOnBlank(settings, c, n, create);
  }

  /** Whatever files were chosen since the panel mounted, the corrected
      flow succeeds only if one of them decoded and was drawn. */
  lemma DoUpscaleNeedsPicture(settings: Settings, c: Category, n: Noise, files: seq<FileEvent>, resample: Resample, create: CreateSession)
    ensures DoUpscale(settings, c, n, Some(Loads(INITIAL_INPUT, files, resample)), create).Success? ==>
      exists k :: 0 <= k < |files| && Picked(files[k])
  {
    LoadsDrawn(INITIAL_INPUT, files, resample);
  }
}
