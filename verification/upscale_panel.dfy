/** The decisions of src/components/UpscalePanel.tsx: the preflight check on
    a model URL, model-URL resolution against a manifest base, the
    `scale1x.onnx` to `scale2x.onnx` rewrite, the manifest filter, the scale
    handed to the tiled run, and the fallback flow of `onUpscale`. */
module UpscalePanel {
  import opened Common
  import opened Tensors
  import Tiler

  // ----- strings -----

  /** ASCII lower case, the folding the `i` flag of these patterns does. */
  function LowerChar(c: char): char {
    if 'A' <= c <= 'Z' then (c as int + 32) as char else c
  }

  function Lower(s: string): (r: string)
    ensures |r| == |s| && forall k :: 0 <= k < |s| ==> r[k] == LowerChar(s[k])
  {
    seq(|s|, k requires 0 <= k < |s| => LowerChar(s[k]))
  }

  /** `s` begins with `p`, ignoring ASCII case (`p` is lower case). */
  predicate StartsWithCI(s: string, p: string) {
    |p| <= |s| && Lower(s[..|p|]) == p
  }

  /** `s` ends with `p`, ignoring ASCII case (`p` is lower case). */
  predicate EndsWithCI(s: string, p: string) {
    |p| <= |s| && Lower(s[|s| - |p|..]) == p
  }

  /** `s.includes(t)`: `t` occurs somewhere in `s`. */
  predicate Contains(s: string, t: string)
    decreases |s|
  {
    |t| <= |s| && (s[..|t|] == t || Contains(s[1..], t))
  }

  /** `s.replace(/\/$/, "")`: one trailing slash removed. */
  function StripSlash(s: string): (r: string)
    ensures |s| > 0 && s[|s| - 1] == '/' ==> s == r + "/"
    ensures !(|s| > 0 && s[|s| - 1] == '/') ==> r == s
  {
    if |s| > 0 && s[|s| - 1] == '/' then s[..|s| - 1] else s
  }

  function DigitChar(d: nat): char
    requires d < 10
  {
    "0123456789"[d]
  }

  /** A number as JavaScript prints a non-negative integer. */
  function Decimal(n: nat): (s: string)
    ensures |s| >= 1 && forall k :: 0 <= k < |s| ==> '0' <= s[k] <= '9'
  {
    if n < 10 then [DigitChar(n)] else Decimal(n / 10) + [DigitChar(n % 10)]
  }

  /** The value of a string of decimal digits. */
  function DecimalValue(s: string): nat
    requires forall k :: 0 <= k < |s| ==> '0' <= s[k] <= '9'
  {
    if s == [] then 0 else DecimalValue(s[..|s| - 1]) * 10 + (s[|s| - 1] as int - '0' as int)
  }

  /** The printed digits read back as the number. */
  lemma {:induction false} DecimalRoundTrip(n: nat)
    ensures DecimalValue(Decimal(n)) == n
  {
    if n >= 10 {
      DecimalRoundTrip(n / 10);
      var s := Decimal(n);
      assert s[..|s| - 1] == Decimal(n / 10);
    }
  }

  // ----- preflightModel -----

  /** The `content-length` header: absent (read as `'0'`), not a number
      (`NaN`), or a byte count. */
  datatype LengthHeader = Absent | NotANumber | Length(n: nat)

  /** What `fetch` did: threw, or answered. */
  datatype Fetched =
    | Threw(message: string)
    | Response(ok: bool, status: nat, length: LengthHeader)

  datatype Preflight = Preflight(ok: bool, url: string, reason: Option<string>)

  const MIN_MODEL_BYTES := 5000000

  /** `len && len < 5000000`: a present, non-zero count below 5 MB. */
  predicate TooSmall(h: LengthHeader) {
    h.Length? && h.n != 0 && h.n < MIN_MODEL_BYTES
  }

  /** `preflightModel`. */
  function PreflightModel(url: string, fetched: Fetched): (r: Preflight)
    ensures r.url == url
    ensures r.ok <==> fetched.Response? && fetched.ok && !TooSmall(fetched.length)
    ensures r.ok <==> r.reason.None?
    ensures fetched.Response? && !fetched.ok ==> r.reason == Some("HTTP " + Decimal(fetched.status))
  {
    match fetched
      case Threw(m) => Preflight(false, url, Some(m))
      case Response(ok, status, length) =>
        if !ok then Preflight(false, url, Some("HTTP " + Decimal(status)))
        else if TooSmall(length) then Preflight(false, url, Some("Too small (" + Decimal(length.n) + " bytes)"))
        else Preflight(true, url, None)
  }

  /** The status code can be read back from an HTTP failure's reason. */
  lemma PreflightStatusReadable(url: string, status: nat, length: LengthHeader)
    ensures var r := PreflightModel(url, Response(false, status, length));
      r.reason.Some? && |r.reason.value| > 5 && r.reason.value[..5] == "HTTP "
      && DecimalValue(r.reason.value[5..]) == status
  {
    var r := PreflightModel(url, Response(false, status, length));
    assert r.reason.value[5..] == Decimal(status);
    DecimalRoundTrip(status);
  }

  // ----- resolveModelURL -----

  const HUB_BASE := "https://huggingface.co/spaces/akessleretsy/onnxmodels/resolve/main"

  /** `/^https?:\/\//i`. */
  predicate IsAbsolute(path: string) {
    StartsWithCI(path, "http://") || StartsWithCI(path, "https://")
  }

  /** `resolveModelURL`: an absolute path wins; a Space `/file` base is
      replaced by the Hub base; one trailing slash goes before the path is
      appended. */
  function ResolveModelURL(manifestBase: string, modelPath: string): (r: string)
    ensures IsAbsolute(modelPath) ==> r == modelPath
    ensures !IsAbsolute(modelPath) ==>
      r == StripSlash(if Contains(manifestBase, ".hf.space/file") then HUB_BASE else manifestBase) + modelPath
  {
    if IsAbsolute(modelPath) then modelPath
    else
      var base := if Contains(manifestBase, ".hf.space/file") then HUB_BASE else manifestBase;
      StripSlash(base) + modelPath
  }

  /** A relative path resolved against a base without `.hf.space/file`
      ends in the path and starts with the base, less at most one slash. */
  lemma ResolveKeepsBase(manifestBase: string, modelPath: string)
    requires !IsAbsolute(modelPath) && !Contains(manifestBase, ".hf.space/file")
    ensures var r := ResolveModelURL(manifestBase, modelPath);
      && |r| >= |modelPath| && r[|r| - |modelPath|..] == modelPath
      && (r[..|r| - |modelPath|] == manifestBase || r[..|r| - |modelPath|] + "/" == manifestBase)
  {
    var r := ResolveModelURL(manifestBase, modelPath);
    assert r == StripSlash(manifestBase) + modelPath;
    assert r[..|r| - |modelPath|] == StripSlash(manifestBase);
  }

  /** A Space base is never used: the Hub base stands in for it. */
  lemma ResolveSpaceBase(manifestBase: string, modelPath: string)
    requires !IsAbsolute(modelPath) && Contains(manifestBase, ".hf.space/file")
    ensures ResolveModelURL(manifestBase, modelPath) == HUB_BASE + modelPath
  {
    assert HUB_BASE[|HUB_BASE| - 1] == 'n';
  }

  // ----- the scale1x -> scale2x rewrite -----

  const SCALE1X := "scale1x.onnx"
  const SCALE2X := "scale2x.onnx"

  /** `url.replace(/scale1x\.onnx$/i, 'scale2x.onnx')`. */
  function Rewrite(url: string): (r: string)
    ensures EndsWithCI(url, SCALE1X) ==> |r| == |url| && r[..|url| - |SCALE1X|] == url[..|url| - |SCALE1X|]
    ensures EndsWithCI(url, SCALE1X) ==> r[|url| - |SCALE1X|..] == SCALE2X
    ensures !EndsWithCI(url, SCALE1X) ==> r == url
  {
    if EndsWithCI(url, SCALE1X) then url[..|url| - |SCALE1X|] + SCALE2X else url
  }

  /** A rewritten URL ends in `scale2x.onnx`, no longer matches the
      pattern, and a second rewrite changes nothing. */
  lemma RewriteIdempotent(url: string)
    ensures !EndsWithCI(Rewrite(url), SCALE1X)
    ensures Rewrite(Rewrite(url)) == Rewrite(url)
  {
    var r := Rewrite(url);
    if EndsWithCI(url, SCALE1X) {
      assert r[|r| - |SCALE1X|..] == SCALE2X;
      assert Lower(SCALE2X)[5] == '2' != SCALE1X[5];
    }
  }

  // ----- the manifest -----

  /** A manifest entry (`title` is the entry's `label`): `scale` may be
      missing (`None`) or zero, and both read as falsy. */
  datatype ModelEntry = ModelEntry(id: string, title: string, path: string, scale: Option<real>, expects: Option<Layout>)

  datatype Manifest = Manifest(version: string, base: string, models: seq<ModelEntry>)

  /** `x.scale || d`. */
  function ScaleOr(scale: Option<real>, d: real): (r: real)
    ensures scale.Some? && scale.value != 0.0 ==> r == scale.value
    ensures scale.None? || scale.value == 0.0 ==> r == d
  {
    match scale
      case None => d
      case Some(v) => if v == 0.0 then d else v
  }

  predicate Upscales(m: ModelEntry) {
    ScaleOr(m.scale, 1.0) != 1.0
  }

  /** `m.models.filter(x => (x.scale || 1) !== 1)`. */
  function FilterModels(models: seq<ModelEntry>): (r: seq<ModelEntry>)
    ensures |r| <= |models|
    ensures forall k :: 0 <= k < |r| ==> Upscales(r[k])
    decreases |models|
  {
    if models == [] then []
    else (if Upscales(models[0]) then [models[0]] else []) + FilterModels(models[1..])
  }

  /** The filter keeps exactly the entries whose scale is not 1. */
  lemma {:induction false} FilterModelsMembers(models: seq<ModelEntry>, m: ModelEntry)
    ensures m in FilterModels(models) <==> m in models && Upscales(m)
    decreases |models|
  {
    if models != [] {
      FilterModelsMembers(models[1..], m);
      assert models == [models[0]] + models[1..];
    }
  }

  /** The kept entries are in manifest order: the filter of a
      concatenation is the concatenation of the filters. */
  lemma {:induction false} FilterModelsOrder(a: seq<ModelEntry>, b: seq<ModelEntry>)
    ensures FilterModels(a + b) == FilterModels(a) + FilterModels(b)
    decreases |a|
  {
    if a != [] {
      FilterModelsOrder(a[1..], b);
      assert (a + b)[1..] == a[1..] + b;
    } else {
      assert a + b == b;
    }
  }

  /** Filtering twice is filtering once. */
  lemma {:induction false} FilterModelsIdempotent(models: seq<ModelEntry>)
    ensures FilterModels(FilterModels(models)) == FilterModels(models)
    decreases |models|
  {
    if models != [] {
      FilterModelsIdempotent(models[1..]);
      var head := if Upscales(models[0]) then [models[0]] else [];
      assert FilterModels(head) == head by {
        if head != [] {
          assert head[1..] == [];
        }
      }
      FilterModelsOrder(head, FilterModels(models[1..]));
    }
  }

  /** `manifest.models.find(x => x.id === modelId)`: the first entry with
      that id. */
  function Find(models: seq<ModelEntry>, id: string): (r: Option<nat>)
    ensures r.Some? ==>
      r.value < |models| && models[r.value].id == id && forall k :: 0 <= k < r.value ==> models[k].id != id
    ensures r.None? ==> forall k :: 0 <= k < |models| ==> models[k].id != id
    decreases |models|
  {
    if models == [] then None
    else if models[0].id == id then Some(0)
    else match Find(models[1..], id)
      case None => None
      case Some(k) => Some(k + 1)
  }

  // ----- onUpscale -----

  /** How `onUpscale` ends: nothing (no manifest yet), an unknown model, a
      tiled run that finished (`fallback` for the scale2x retry in the
      catch block) with the URL and options it ran on, or an error. */
  datatype Outcome =
    | Idle
    | NotFound
    | Done(url: string, opts: Tiler.Options, fallback: bool)
    | Failed(message: string)

  /** `createSession(url)` followed by `runTiled` with the options. */
  type Attempt = (string, Tiler.Options) -> Result<(), string>

  /** `m.expects || 'NHWC'`. */
  function ExpectsOr(m: ModelEntry): Layout {
    if m.expects.Some? then m.expects.value else NHWC
  }

  /** The options of the first run: `expects` defaults to NHWC, `scale` to 2. */
  function FirstOptions(m: ModelEntry, tileSize: int, overlap: int): (o: Tiler.Options)
    ensures o.scale == ScaleOr(m.scale, 2.0) && o.expects == Some(ExpectsOr(m))
  {
    Tiler.Options(tileSize, overlap, Some(ExpectsOr(m)), ScaleOr(m.scale, 2.0))
  }

  /** The options of the catch-block retry: the scale is always 2. */
  function FallbackOptions(m: ModelEntry, tileSize: int, overlap: int): (o: Tiler.Options)
    ensures o.scale == 2.0 && o.expects == FirstOptions(m, tileSize, overlap).expects
  {
    Tiler.Options(tileSize, overlap, Some(ExpectsOr(m)), 2.0)
  }

  /** The message of the `TypeError` an assignment to a `const` raises. */
  const CONST_ASSIGNMENT := "Assignment to constant variable."

  /** The catch block: a URL still ending in `scale1x.onnx` is retried as
      scale2x with scale 2; if that fails too, the first error is shown. */
  function CatchBlock(url: string, error: string, m: ModelEntry, tileSize: int, overlap: int, attempt: Attempt): Outcome {
    if EndsWithCI(url, SCALE1X) then
      var alt := Rewrite(url);
      var opts := FallbackOptions(m, tileSize, overlap);
      if attempt(alt, opts).Success? then Done(alt, opts, true) else Failed(error)
    else Failed(error)
  }

  /** `onUpscale` as written: `url` is a `const`, so the reassignment after
      a failed preflight of a scale1x URL throws a `TypeError` before any
      session is created, and control reaches the catch block with the
      original URL. */
  function OnUpscaleAsWritten(manifest: Option<Manifest>, modelId: string, tileSize: int, overlap: int,
                              preflight: string -> Preflight, attempt: Attempt): (r: Outcome)
    ensures r.Done? && !r.fallback ==> !EndsWithCI(r.url, SCALE1X) || preflight(r.url).ok
  {
    if manifest.None? then Idle
    else match Find(manifest.value.models, modelId)
      case None => NotFound
      case Some(k) =>
        var m := manifest.value.models[k];
        var url := StripSlash(manifest.value.base) + m.path;
        if !preflight(url).ok && EndsWithCI(url, SCALE1X) then
          CatchBlock(url, CONST_ASSIGNMENT, m, tileSize, overlap, attempt)
        else
          var opts := FirstOptions(m, tileSize, overlap);
          match attempt(url, opts)
            case Success(_) => Done(url, opts, false)
            case Failure(e) => CatchBlock(url, e, m, tileSize, overlap, attempt)
  }

  /** `onUpscale` with `url` declared `let`: after a failed preflight of a
      scale1x URL the scale2x sibling is run with the entry's own scale. */
  function OnUpscale(manifest: Option<Manifest>, modelId: string, tileSize: int, overlap: int,
                     preflight: string -> Preflight, attempt: Attempt): (r: Outcome)
    ensures r.Done? ==> manifest.Some? && Find(manifest.value.models, modelId).Some?
    ensures r.Done? && !r.fallback && manifest.Some? && Find(manifest.value.models, modelId).Some? ==>
      r.opts.scale == ScaleOr(manifest.value.models[Find(manifest.value.models, modelId).value].scale, 2.0)
    ensures r.Done? && r.fallback ==> r.opts.scale == 2.0 && !EndsWithCI(r.url, SCALE1X)
  {
    if manifest.None? then Idle
    else match Find(manifest.value.models, modelId)
      case None => NotFound
      case Some(k) =>
        var m := manifest.value.models[k];
        var first := StripSlash(manifest.value.base) + m.path;
        var url := if !preflight(first).ok && EndsWithCI(first, SCALE1X) then Rewrite(first) else first;
        var opts := FirstOptions(m, tileSize, overlap);
        RewriteIdempotent(first);
        match attempt(url, opts)
          case Success(_) => Done(url, opts, false)
          case Failure(e) => RewriteIdempotent(url); CatchBlock(url, e, m, tileSize, overlap, attempt)
  }

  /** The manifest of the counterexample: one entry, scale 4, at a
      scale1x path. */
  const ExampleEntry := ModelEntry("m", "m", "/m_scale1x.onnx", Some(4.0), None)
  const ExampleManifest := Manifest("1", "https://host/models/", [ExampleEntry])

  const ExampleUrl := "https://host/models/m_scale1x.onnx"

  lemma ExampleFacts()
    ensures StripSlash(ExampleManifest.base) + ExampleEntry.path == ExampleUrl
    ensures EndsWithCI(ExampleUrl, SCALE1X)
    ensures Find(ExampleManifest.models, "m") == Some(0)
  {
    var url := ExampleUrl;
    assert url[|url| - |SCALE1X|..] == SCALE1X;
    assert Lower(SCALE1X) == SCALE1X;
  }

  /** The discrepancy: when the preflight of the scale1x URL fails and every
      run succeeds, the code as written never runs the model at the entry's
      scale 4; it runs the scale2x sibling at scale 2 from the catch block,
      where the intended flow runs it at scale 4. */
  lemma OnUpscaleAsWrittenLosesScale(preflight: string -> Preflight, attempt: Attempt)
    requires forall u :: !preflight(u).ok
    requires forall u, o :: attempt(u, o).Success?
    ensures OnUpscaleAsWritten(Some(ExampleManifest), "m", 256, 32, preflight, attempt).opts.scale == 2.0
    ensures OnUpscale(Some(ExampleManifest), "m", 256, 32, preflight, attempt).opts.scale == 4.0
  {
    ExampleFacts();
  }

  /** When the scale2x retry fails as well, the code as written reports the
      `TypeError` of the assignment instead of the model's error. */
  lemma OnUpscaleAsWrittenReportsTypeError(preflight: string -> Preflight, attempt: Attempt)
    requires forall u :: !preflight(u).ok
    requires forall u, o :: attempt(u, o) == Failure("no model")
    ensures OnUpscaleAsWritten(Some(ExampleManifest), "m", 256, 32, preflight, attempt) == Failed(CONST_ASSIGNMENT)
    ensures OnUpscale(Some(ExampleManifest), "m", 256, 32, preflight, attempt) == Failed("no model")
  {
    ExampleFacts();
    RewriteIdempotent(ExampleUrl);
  }

  /** Away from the failed-preflight scale1x case the two flows agree. */
  lemma OnUpscaleAgreesElsewhere(manifest: Manifest, modelId: string, tileSize: int, overlap: int,
                                 preflight: string -> Preflight, attempt: Attempt, k: nat)
    requires Find(manifest.models, modelId) == Some(k)
    requires var url := StripSlash(manifest.base) + manifest.models[k].path;
      preflight(url).ok || !EndsWithCI(url, SCALE1X)
    ensures OnUpscaleAsWritten(Some(manifest), modelId, tileSize, overlap, preflight, attempt)
      == OnUpscale(Some(manifest), modelId, tileSize, overlap, preflight, attempt)
  {
  }
}
