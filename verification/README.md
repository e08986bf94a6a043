# lddupscalermodels in Dafny

A model of the image-upscaling core of the lddupscalermodels web app. The app
enlarges pictures by running a learned model over them, whole or tile by
tile, and stitches the outputs into one bigger image. The model covers:

- **Tiling and the tiled runner**: the tile planner `makeTiles` and `runTiled`.
  `runTiled` cuts a canvas into overlapping tiles, packs each tile as an NHWC
  or NCHW tensor, calls the model session, and draws each output at the
  scaled position.
- **Tensor conversions**: image data to NHWC and NCHW tensors, the layout
  permutation, and tensor back to image data. This covers both the `onnx`
  library and the `ortRunner` variant, which adds BGR order, optional
  normalisation, padding to a multiple and a final crop.
- **The ONNX one-shot upscaler**: its session cache keyed by model URL and
  its progress reports 1, 10, 90, 100.
- **The TensorFlow.js patch upscaler**:
  - probes the scale on one 64×64 patch;
  - runs every 64×64 patch, zero-padded;
  - fixes zero alpha;
  - reports progress after each patch.
- **The TensorFlow.js worker**: its message protocol and its tensor-to-image
  step.
- **The padding, blending and test-time-augmentation helpers**: zero,
  reflection and replication padding, alpha border padding, the seam
  blending mask, the blend itself, and the 8-way TTA split and merge.
- **The decisions of the two upscaling panels**:
  - preflight, URL resolution, the scale1x-to-scale2x fallback and the
    manifest filter;
  - model URL construction, labels, preview size and the guard on a loaded
    image.
- **The splash screen's progress bar.**

Modelling choices:

- Images are `ImageData` records: a width, a height and a flat RGBA byte
  sequence. A canvas is a grid of pixels that `getImageData` reads and
  `putImageData` writes, with clipping.
- Float32 values are exact `real`s. `Math.round(x)` is `floor(x + 0.5)`.
  A store into a `Uint8ClampedArray` clamps and rounds half to even.
- Canvas round trips are lossless: a pixel put with `putImageData` reads
  back unchanged. A browser may store premultiplied alpha, so a pixel that
  is not fully opaque can come back changed (one with alpha 0 as 0, 0, 0, 0).
- The model, session and graph-model calls are function parameters (each
  maps a tensor to a `Result`), so the pipeline is proved for every
  backend.

Modules follow the source files:

| module | file | source |
|---|---|---|
| `Common` | `common.dfy` | shared helpers |
| `Tensors` | `tensors.dfy` | shared data |
| `Images` | `images.dfy` | shared data |
| `Grids` | `grids.dfy` | shared data |
| `Tiling` | `tiling.dfy` | `src/utils/tiling.ts` |
| `Tiler` | `tiler.dfy` | `src/lib/tiler.ts` |
| `Onnx` | `onnx.dfy` | `src/lib/onnx.ts` |
| `OrtRunner` | `ort_runner.dfy` | `src/lib/ortRunner.ts` |
| `Caches` | `caches.dfy` | the two model caches |
| `UpscalerOnnx` | `upscaler_onnx.dfy` | `src/utils/upscaler-onnx.ts` |
| `Upscaler` | `upscaler.dfy` | `src/utils/upscaler.ts` |
| `Worker` | `worker.dfy` | `src/workers/tfupscale.worker.ts` |
| `TfjsUtils`, `TfjsUtilsFacts` | `tfjs_utils.dfy`, `tfjs_utils_facts.dfy` | `src/utils/tfjs-utils.ts` |
| `UpscalePanel` | `upscale_panel.dfy` | `src/components/UpscalePanel.tsx` |
| `UpscalerUI` | `upscaler_ui.dfy` | `src/components/UpscalerUI.tsx` |
| `Splash` | `splash.dfy` | `src/components/Splash.tsx` |

Two behaviours of the code shape the model:

- **Reassembly.** Overlapping tile outputs are not blended. Both tiled
  paths draw each output with `putImageData`/`drawImage`, so the last tile
  written wins on every pixel. `Tiler.RunTiledLastWins` and
  `Upscaler.UpscaleLastWins` state this.
- **Tile count.** The loop in `makeTiles` keeps stepping while `x < width`,
  so a 100×100 image with tile size 64 and overlap 16 gets sliver tiles at
  x = 96 and y = 96 besides the four full ones: 9 tiles
  (`Tiling.Example100By64Overlap16`). Each sliver lies inside its
  predecessor (`Tiling.SliverInsidePredecessor`).

## Model

| member | source | states |
|---|---|---|
| Tiling.TilesInBounds | src/utils/tiling.ts:16-20 | every planned tile lies inside the image and is at most `tileSize` wide and high |
| Tiling.TilesCoverExactly | src/utils/tiling.ts:16-22 | a pixel is covered by some tile if and only if it lies inside the image: no gaps and nothing outside |
| Tiling.TilesRowMajor | src/utils/tiling.ts:16-22 | tiles come row by row, left to right; every row starts at x = 0 and its last tile ends at the right edge; the last tile ends at the bottom edge |
| Tiling.TileCount | src/utils/tiling.ts:16-17 | the plan has ceil(width/step) · ceil(height/step) tiles, with step = tileSize − overlap |
| Tiling.NoTilesIffEmpty | src/utils/tiling.ts:16-17 | the plan is empty exactly when the image has a zero side |
| Tiling.Example100By64Overlap16 | src/utils/tiling.ts:16-22 | a 100×100 image with tile size 64 and overlap 16 gives nine tiles, including slivers 4 pixels wide and high at 96 |
| Tiling.SliverInsidePredecessor | src/utils/tiling.ts:16-22 | a 50×50 image with tile size 64 and overlap 16 gives four tiles; the three after the first lie inside the first |
| Tiling.NegativeOverlapLeavesGaps | src/utils/tiling.ts:16-22 | with a negative overlap the step exceeds the tile size: a 10×10 image with tile size 4 and overlap −2 gets four tiles and pixel (4, 4) lies in none |
| Tiler.PlanJob | src/lib/tiler.ts:19-33 | the tiles visited are exactly `makeTiles` of the source size; each is non-empty; each is sent to the session as its packed window |
| Tiler.RunTiled | src/lib/tiler.ts:14-16 | a successful run yields a canvas of floor(width·scale) × floor(height·scale) whenever those sides lie in 0..2^31−1, and otherwise the side the canvas attribute makes of them |
| Tiler.NegativeScale | src/lib/tiler.ts:14-35 | with a negative scale the output canvas keeps its default 300 × 150 whatever the source size, and every tile past the first column or row is pasted at a negative offset |
| Tiler.NegativeScaleCanvas | src/lib/tiler.ts:14-16 | with a negative scale the sides floor(side·scale) are negative, and the output canvas falls back to 300 × 150 |
| Tiler.NegativeScalePlacements | src/lib/tiler.ts:35 | with a negative scale a tile at a positive source offset is pasted at a negative offset, and none at a positive one |
| Tiler.RunTiledCalls | src/lib/tiler.ts:19-31 | the session is called on the tile inputs in plan order, and on nothing else |
| Tiler.WalkCalls | src/lib/tiler.ts:19-31 | the calls made from tile k on are a prefix of the planned inputs |
| Tiler.WalkSucceeds | src/lib/tiler.ts:31-35 | the run succeeds if and only if every remaining tile's output decodes; a success has called every tile |
| Tiler.WalkStops | src/lib/tiler.ts:31-33 | a failed run stops at a tile whose output failed, and carries that tile's error |
| Tiler.WalkStopsFirst | src/lib/tiler.ts:19-33 | a failed run stops at the first failing tile: every tile before the last call succeeded |
| Tiler.WalkPaints | src/lib/tiler.ts:35 | a successful run paints the outputs, in order, at their scaled positions |
| Tiler.InputShape | src/lib/tiler.ts:25-26 | a tile input has dims [1, h, w, 3], or [1, 3, h, w] when NCHW is expected |
| Tiler.InputPixels | src/lib/tiler.ts:23-26 | each tile-input element is the normalised channel of the source pixel under the tile, in either layout |
| Tiler.RunTiledLastWins | src/lib/tiler.ts:35 | each output pixel shows the last tile output drawn over it, or stays transparent |
| Onnx.ImageDataToNHWC | src/lib/onnx.ts:31-41 | the tensor has dims [1, h, w, 3]; element 3p+c is channel c of pixel p divided by 255; alpha is dropped |
| Onnx.NHWCtoNCHWAt | src/lib/onnx.ts:43-55 | element (k, p) of the planar result is element (p, k) of the interleaved input |
| Onnx.NHWCtoNCHWTail | src/lib/onnx.ts:46-50 | with a batch above 1, the elements past the first image stay 0 (the loop only fills batch 0) |
| Onnx.NHWCtoNCHWRoundTrip | src/lib/onnx.ts:43-55 | converting to NCHW and back gives the tensor back |
| Onnx.NCHWtoNHWCRoundTrip | src/lib/onnx.ts:43-55 | the inverse permutation followed by `NHWCtoNCHW` gives the tensor back |
| Onnx.TensorToImageData | src/lib/onnx.ts:57-92 | decoding succeeds exactly for 4-D tensors with 3 channels last, or first, and non-zero sides; NHWC takes precedence; the image has the tensor's height and width |
| Onnx.TensorToImageDataNHWC | src/lib/onnx.ts:62-73 | an interleaved pixel is the three rounded, clamped values scaled by 255, with alpha 255 |
| Onnx.TensorToImageDataNCHW | src/lib/onnx.ts:74-89 | a planar pixel takes one value from each plane, rounded and clamped, with alpha 255 |
| Onnx.PackUnpackRoundTrip | src/lib/onnx.ts:31-73 | packing image data and decoding it gives back every colour byte, with alpha forced to 255 |
| Onnx.LayoutRoundTrip | src/lib/onnx.ts:43-92 | decoding the NCHW form of a tensor gives the same image as decoding the tensor, unless the width is 3 |
| Onnx.LayoutAmbiguityAtWidth3 | src/lib/onnx.ts:59-62 | a 1×3 image packed as NCHW has dims [1, 3, 1, 3] and is decoded as interleaved, 1 pixel wide instead of 3 |
| OrtRunner.GetModelLayout | src/lib/ortRunner.ts:24-33 | NHWC exactly when there are at least 4 dims, dim 1 is not 3 and the last dim is 3; NCHW otherwise, including with no metadata |
| OrtRunner.LayoutPrecedenceDiffers | src/lib/ortRunner.ts:28-30 | for dims [1, 3, h, 3] the runner picks NCHW while the `onnx` decoder reads the same dims as NHWC |
| OrtRunner.RgbaToNCHWAt | src/lib/ortRunner.ts:35-53 | plane c, pixel p holds the pixel's channel (R/B swapped when `bgr`), divided by 255 when normalising |
| OrtRunner.RgbaToNCHWDefault | src/lib/ortRunner.ts:35-53 | with the defaults, the runner's planar packing equals the one-shot upscaler's `imageDataToNCHW` |
| OrtRunner.RgbaToNHWCAt | src/lib/ortRunner.ts:55-66 | interleaved element 3p+c holds the pixel's channel (R/B swapped when `bgr`), divided by 255 when normalising |
| OrtRunner.RgbaToNHWCDefault | src/lib/ortRunner.ts:55-66 | with the defaults, the runner's interleaved packing equals `imageDataToNHWC` of the `onnx` library |
| OrtRunner.NchwToImageData | src/lib/ortRunner.ts:68-82 | decoding fails unless the dims are [1, 3, H, W] with non-zero sides; the image is W × H |
| OrtRunner.NhwcToImageData | src/lib/ortRunner.ts:84-96 | decoding fails unless the dims are [1, H, W, 3] with non-zero sides; the image is W × H |
| OrtRunner.NhwcToImageDataAt | src/lib/ortRunner.ts:89-94 | pixel p is built from elements 3p, 3p+1 and 3p+2, clamped to [0, 1], scaled and rounded, with alpha 255 |
| OrtRunner.NchwAgreesWithOnnx | src/lib/ortRunner.ts:68-82 | on a planar tensor with batch 1, the runner's decoder and the `onnx` decoder give the same image (clamping before or after scaling agrees) |
| OrtRunner.NhwcAgreesWithOnnx | src/lib/ortRunner.ts:84-96 | on an interleaved tensor with batch 1, the runner's decoder and the `onnx` decoder give the same image |
| OrtRunner.OutputLayoutMatchesInput | src/lib/ortRunner.ts:152-155 | for outputs of at most 4 dims, the output layout test picks the same layout as the input-metadata test |
| OrtRunner.RoundUp | src/lib/ortRunner.ts:100-101 | the rounded size is the least multiple of k that is at least n |
| OrtRunner.PadToMultiple | src/lib/ortRunner.ts:98-112 | k ≤ 1 leaves the image as is; otherwise both sides are rounded up to multiples of k; an image already aligned is returned unchanged; padW and padH are the added amounts |
| OrtRunner.PadToMultipleAt | src/lib/ortRunner.ts:103-110 | the padded image shows the original at the top left and transparent pixels elsewhere |
| OrtRunner.CropImageData | src/lib/ortRunner.ts:114-124 | cropping succeeds exactly for non-zero sizes, gives the requested size, and is the identity at the image's own size |
| OrtRunner.CropImageDataAt | src/lib/ortRunner.ts:116-123 | a cropped pixel is the source pixel where the source reaches, transparent beyond |
| OrtRunner.CropShortcutAgrees | src/lib/ortRunner.ts:115-123 | the early return at equal size gives the same image as the canvas round trip it skips |
| OrtRunner.ScaledSize | src/lib/ortRunner.ts:160-161 | with a whole-number scale, `Math.round(orig · scale)` is exactly orig · scale |
| OrtRunner.ModelInput | src/lib/ortRunner.ts:131-146 | the input tensor is built from the padded image in the layout the session declares: [1, 3, H, W] or [1, H, W, 3] |
| OrtRunner.RunImageModel | src/lib/ortRunner.ts:126-165 | a successful run fed the session the model input; its image is the original size times the rounded mean scale |
| OrtRunner.RunImageModelAt | src/lib/ortRunner.ts:157-164 | each result pixel is the decoded output pixel where the output reaches, transparent beyond |
| Caches.Load | src/utils/upscaler-onnx.ts:26-35 | a cached key is returned without loading; otherwise the loader's result is returned and stored, and the other entries are kept |
| Caches.LoadTwice | src/utils/upscaler-onnx.ts:26-28 | a second load of the same key never calls the loader and returns the first result |
| UpscalerOnnx.LoadSession | src/utils/upscaler-onnx.ts:20-36 | an unknown key fails; a cached URL is reused; otherwise success matches session creation, and the session is cached under its URL |
| UpscalerOnnx.UrlsDistinct | src/utils/upscaler-onnx.ts:11-16 | different model keys map to different URLs, so the URL cache never mixes models |
| UpscalerOnnx.ImageDataToNCHWAt | src/utils/upscaler-onnx.ts:61-79 | plane c, pixel p holds channel c of pixel p divided by 255 |
| UpscalerOnnx.NCHWIsPermutedNHWC | src/utils/upscaler-onnx.ts:61-79 | the planar packing is the NCHW permutation of the interleaved packing |
| UpscalerOnnx.StoreUnit | src/utils/upscaler-onnx.ts:88-95 | the explicit clamp is redundant: the stored byte equals the clamped array's own store of v·255 |
| UpscalerOnnx.NCHWToImageData | src/utils/upscaler-onnx.ts:81-99 | the image has the given size (a zero side is refused) and pixel p reads plane values p, P+p and 2P+p, with alpha 255 |
| UpscalerOnnx.StoreUnitRoundTrip | src/utils/upscaler-onnx.ts:88-95 | storing a normalised byte gives the byte back |
| UpscalerOnnx.StoreRoundsHalfToEven | src/utils/upscaler-onnx.ts:88-95 | at 0.5/255 this store gives 0 while `Math.round` gives 1: the two decoders differ on ties |
| UpscalerOnnx.PlanesRoundTrip | src/utils/upscaler-onnx.ts:61-99 | packing into planes and unpacking gives back every colour byte, with alpha 255 |
| UpscalerOnnx.InputOf | src/utils/upscaler-onnx.ts:114-119 | the session input is [1, 3, H, W] and holds the NCHW permutation of the interleaved packing |
| UpscalerOnnx.DrawOutput | src/utils/upscaler-onnx.ts:125-147 | the output draws exactly when it has 3 channels and non-zero sides; then progress ends at 90, 100; otherwise it stops after 10 |
| UpscalerOnnx.UpscaleImageOnnx | src/utils/upscaler-onnx.ts:101-150 | progress is [1], [1, 10] or [1, 10, 90, 100]; the run succeeds exactly when all four were reported; [1] alone means the image or the session failed; the image is the decoded output |
| UpscalerOnnx.IdentitySessionRoundTrip | src/utils/upscaler-onnx.ts:101-150 | with a session that returns its input, the upscaler returns the source image, made opaque |
| Worker.BitmapToNHWC | src/workers/tfupscale.worker.ts:16-32 | the loop builds exactly the NHWC packing of the bitmap's pixels |
| Worker.SqueezeProduct | src/workers/tfupscale.worker.ts:67 | dropping unit axes keeps the element count |
| Worker.SqueezeImage | src/workers/tfupscale.worker.ts:67 | for height and width other than 1, squeezing [1, H, W, 3] gives [H, W, 3] |
| Worker.OutputImage | src/workers/tfupscale.worker.ts:34-47 | the image size is read from the last three axes; it succeeds exactly when there are two such axes with non-zero sides |
| Worker.OutputImageMatchesOnnx | src/workers/tfupscale.worker.ts:34-47 | on a squeezed [1, H, W, 3] output with both sides at least 2, the worker's image equals the `onnx` decoder's |
| Worker.OutputImageUnitHeight | src/workers/tfupscale.worker.ts:67-68 | an output of height 1 squeezes to [W, 3]; the worker then draws a 3-wide, W-high black image |
| Worker.TensorToBlobAsWritten | src/workers/tfupscale.worker.ts:34-49 | as written `tensorToBlob` always rejects: when the pixels are drawn, with "canvas.toBlob is not a function" |
| Worker.TensorToBlob | src/workers/tfupscale.worker.ts:34-49 | encoding with `convertToBlob`, the step fails only where drawing the pixels does, and encodes the drawn image |
| Worker.HandleJobAsWritten | src/workers/tfupscale.worker.ts:51-76 | as written a job still posts progress reports then one terminal message for its id |
| Worker.HandleJobAsWrittenNeverDone | src/workers/tfupscale.worker.ts:48-74 | as written every job ends with an error message, never `done` |
| Worker.HandleJobAsWrittenFailsAfterDrawing | src/workers/tfupscale.worker.ts:48-74 | a job whose load, inference and drawing succeed posts 5, 20, 90 and the `toBlob` error as written, where the corrected worker posts `done` |
| Worker.HandleJob | src/workers/tfupscale.worker.ts:51-76 | with `convertToBlob`, a job posts 2 to 4 messages for its id: progress values, then one `done` or `error` as the last message; `done` comes after all three progress reports |
| Worker.HandleJobProgressRises | src/workers/tfupscale.worker.ts:54-65 | every message before the last is a progress report below 100, and the values strictly rise |
| Worker.HandleJobSucceeds | src/workers/tfupscale.worker.ts:54-72 | with `convertToBlob`, a job whose load, inference and drawing succeed posts progress 5, 20, 90 and then `done` with the drawn image |
| Worker.HandleJobLoadFails | src/workers/tfupscale.worker.ts:56-74 | a model that fails to load gives progress 5 followed by that error |
| TfjsUtilsFacts.PadCrop | src/utils/tfjs-utils.ts:8-26 | slicing the padding off again (at (top, left), the input's size) gives the input back |
| TfjsUtilsFacts.PadBorder | src/utils/tfjs-utils.ts:8-26 | every cell outside the input's window holds the constant |
| TfjsUtilsFacts.PadTwice | src/utils/tfjs-utils.ts:8-26 | padding twice with one constant is padding once by the summed amounts |
| TfjsUtils.ReflectionPad | src/utils/tfjs-utils.ts:31-67 | reflection padding succeeds exactly when every pad is smaller than its side; the result grows by the pads |
| TfjsUtilsFacts.ReflectionPadIsMirrorPad | src/utils/tfjs-utils.ts:43-66 | padding by the larger pad on both sides and slicing equals a direct mirror pad by the requested amounts |
| TfjsUtilsFacts.ReflectionPadAt | src/utils/tfjs-utils.ts:31-67 | each padded cell is the input cell at the reflected row and column, with no edge repeated |
| TfjsUtilsFacts.RowBandIsTile | src/utils/tfjs-utils.ts:85 | the top band is the first row sliced and tiled `top` times |
| TfjsUtilsFacts.ColBandIsTile | src/utils/tfjs-utils.ts:97 | the left band is the first column sliced and tiled `left` times |
| TfjsUtilsFacts.ReplicationPadAt | src/utils/tfjs-utils.ts:72-108 | each cell of the corrected replication pad is the input cell at the nearest row and column |
| TfjsUtilsFacts.ReplicationPadReplicates | src/utils/tfjs-utils.ts:72-108 | the corrected band-by-band construction equals edge replication |
| TfjsUtilsFacts.ReplicationPadAsWrittenWrongColumn | src/utils/tfjs-utils.ts:95-105 | on the row [1, 2, 3] with left = right = 1, the code as written repeats 2 on the right where edge replication gives 3 |
| TfjsUtilsFacts.ReplicationPadAsWrittenWithoutLeft | src/utils/tfjs-utils.ts:95-105 | without a left pad, the code as written and the corrected version agree |
| TfjsUtilsFacts.AlphaBorderPaddingAt | src/utils/tfjs-utils.ts:150-169 | the result is the source shifted by `padding` in both directions, with transparent borders |
| TfjsUtilsFacts.AlphaBorderPaddingBytes | src/utils/tfjs-utils.ts:157-166 | each of the four bytes of a source pixel lands at the shifted position |
| TfjsUtilsFacts.AlphaBorderPaddingIsPut | src/utils/tfjs-utils.ts:150-169 | the byte loop equals putting the image on a blank canvas at (padding, padding) and reading it back |
| TfjsUtils.SeamBlendMask | src/utils/tfjs-utils.ts:175-198 | a mask with an empty side throws the `linspace` error; otherwise it has the requested size and every value lies in [0, 1] |
| TfjsUtilsFacts.SeamBlendMaskAt | src/utils/tfjs-utils.ts:186-196 | a mask value is the distance to the nearest edge divided by the overlap, clipped to [0, 1] |
| TfjsUtilsFacts.SeamBlendMaskRamp | src/utils/tfjs-utils.ts:186-196 | the mask is 0 on the border, rises linearly within `overlap` of the edge, and is 1 beyond; a negative overlap gives 0 everywhere |
| TfjsUtilsFacts.SeamBlendMaskSymmetric | src/utils/tfjs-utils.ts:180-194 | the mask is symmetric top to bottom and left to right |
| TfjsUtilsFacts.BlendBetween | src/utils/tfjs-utils.ts:204-213 | with mask 1 the source wins, with mask 0 the destination stays, and between them the result lies between the two values |
| TfjsUtils.TtaSplit | src/utils/tfjs-utils.ts:219-234 | the split gives eight variants, the first being the input itself |
| TfjsUtils.TtaAsWrittenThrows | src/utils/tfjs-utils.ts:219-265 | against the TensorFlow.js namespace, which has no `flipUpDown`, the split always throws and so does the merge of eight predictions |
| TfjsUtilsFacts.TtaSplitWithFlip | src/utils/tfjs-utils.ts:219-234 | with an up-down flip available, the call-by-call split is the eight augmentations |
| TfjsUtilsFacts.UndoInWithFlip | src/utils/tfjs-utils.ts:247-260 | with an up-down flip available, the calls that undo one augmentation succeed and compute its inverse, `Undo` |
| TfjsUtilsFacts.UndoAllInWithFlip | src/utils/tfjs-utils.ts:247-262 | with an up-down flip available, every undo call succeeds and the list merged is the undone predictions, in order |
| TfjsUtilsFacts.TtaMergeWithFlip | src/utils/tfjs-utils.ts:240-265 | with an up-down flip available, the call-by-call merge undoes each augmentation and averages |
| TfjsUtilsFacts.FlipsInvolution | src/utils/tfjs-utils.ts:222-225 | applying the same flip combination twice gives the grid back |
| TfjsUtils.TtaMerge | src/utils/tfjs-utils.ts:240-265 | merging succeeds exactly for eight predictions whose undone forms have one shape; the result has that shape |
| TfjsUtilsFacts.TtaMergeAt | src/utils/tfjs-utils.ts:245-264 | each merged cell is the sum of the eight undone predictions at that cell, divided by 8 |
| TfjsUtilsFacts.TtaRoundTrip | src/utils/tfjs-utils.ts:219-265 | with flips that exist, merging the split of a grid gives the grid back |
| TfjsUtilsFacts.TtaRoundTripWithFlip | src/utils/tfjs-utils.ts:219-265 | call by call, with an up-down flip available, the split succeeds and merging it gives the grid back |
| TfjsUtilsFacts.MeanOfCopies | src/utils/tfjs-utils.ts:262-264 | the mean of copies of one grid is that grid |
| Grids.FlipLRInvolution | src/utils/tfjs-utils.ts:223 | flipping left to right twice gives the grid back |
| Grids.FlipUDInvolution | src/utils/tfjs-utils.ts:224 | flipping upside down twice gives the grid back |
| Grids.TransposeInvolution | src/utils/tfjs-utils.ts:227 | transposing the two spatial axes twice gives the grid back |
| Images.CanvasSide | src/lib/tiler.ts:15-16 | assigning a side keeps any value in 0..2^31−1; a negative value down to −2^31 gives the default; otherwise the value modulo 2^32 or the default |
| Images.PaintAllLastWins | src/lib/tiler.ts:35 | painting placements in order leaves each pixel with the last placement covering it, or the old pixel |
| Images.PutGetRoundTrip | src/lib/ortRunner.ts:119-123 | putting an image on a blank canvas of its size and reading it back gives the image |
| Upscaler.LoadModel | src/utils/upscaler.ts:14-22 | a cached key is returned without loading; otherwise the result is that of loading `/models/<key>/model.json` |
| Upscaler.PatchScale | src/utils/upscaler.ts:86-90 | the scale is positive: output height over 64, or 4 when the probe's output has height 0 |
| Upscaler.GridIsPlan | src/utils/upscaler.ts:107-122 | the patch loop visits exactly the tiles `makeTiles` plans with tile size 64 and overlap 0 |
| Upscaler.GridFacts | src/utils/upscaler.ts:107-122 | there are ceil(w/64)·ceil(h/64) patches, aligned to 64, inside the image, covering exactly the image |
| Upscaler.PadToPatchPixels | src/utils/upscaler.ts:124-135 | the 64×64 patch shows the source window at the top left and transparent pixels elsewhere |
| Upscaler.AlphaFixFacts | src/utils/upscaler.ts:156-160 | only zero alpha bytes change; afterwards no alpha byte is 0; the fix is idempotent |
| Upscaler.FixAlpha | src/utils/upscaler.ts:156-160 | the loop over every fourth byte from index 3 computes the alpha fix |
| Upscaler.Denormalize | src/utils/upscaler.ts:29-32 | the result lies in [0, 255] and is v·255 for v in [0, 1] |
| Upscaler.ToPixels | src/utils/upscaler.ts:152 | `toPixels` on a float32 tensor succeeds exactly when every value lies in [0, 1], with the range error otherwise, and gives 4 bytes per pixel |
| Upscaler.Unpack | src/utils/upscaler.ts:149-160 | the copy succeeds exactly for non-zero sides and values in [0, 1], and has the output's size |
| Upscaler.TileResult | src/utils/upscaler.ts:143-160 | with the values scaled back to [0, 1], a tile succeeds exactly when the model succeeds with non-zero sides |
| Upscaler.TileResultBytes | src/utils/upscaler.ts:148-160 | each colour byte is the model value times 255, clamped and rounded; every alpha byte is 255 |
| Upscaler.TileResultAsWrittenRejectsBright | src/utils/upscaler.ts:148-152 | as written, a tile whose output has a value above 1/255 fails with the `toPixels` range error, while the corrected tile succeeds |
| Upscaler.ProgressRises | src/utils/upscaler.ts:179-182 | the reported percentages strictly rise |
| Upscaler.ProgressBounded | src/utils/upscaler.ts:179-182 | every report lies in (0, 100], and the last report of a complete pass is exactly 100 |
| Upscaler.MakePass | src/utils/upscaler.ts:107-147 | the pass runs the planned 64-pixel tiles, counts them all as the total, and gives each tile the model's result on its padded patch |
| Upscaler.UpscaleImage | src/utils/upscaler.ts:35-205 | an empty image fails; a success had a successful probe, its size is `Math.round` of each side times the probed scale, and neither side is 0 |
| Upscaler.UpscaleIsWalk | src/utils/upscaler.ts:96-195 | after a successful probe, the upscaler is the patch walk over the planned grid, starting from a blank output canvas, followed by the final copy |
| Upscaler.FinalCopy | src/utils/upscaler.ts:186-195 | the final copy keeps the reports; it passes a finished canvas through unless a side is 0, where `drawImage` throws InvalidStateError; an earlier failure is kept |
| Upscaler.UpscaleFailsOnEmptyOutput | src/utils/upscaler.ts:96-195 | when every tile succeeds but a rounded output side is 0, the call reports every tile and then fails with InvalidStateError |
| Upscaler.TinyImageFailsAfterEveryTile | src/utils/upscaler.ts:81-195 | a 1×1 image with a model answering 16×16 reports 100 and then fails, its output being round(0.25) = 0 wide |
| Upscaler.UpscaleProgress | src/utils/upscaler.ts:109-182 | reports are the first n values of done/total·100; a success reports every tile and ends at 100; a failed probe reports nothing |
| Upscaler.UpscaleSucceeds | src/utils/upscaler.ts:81-195 | the upscaler succeeds exactly when the probe and every patch succeed and both rounded output sides are at least 1 |
| Upscaler.UpscaleStopsAtFirstFailure | src/utils/upscaler.ts:143-182 | a failure with some failing patch stops at the first one, after reporting every patch before it |
| Upscaler.UpscaleLastWins | src/utils/upscaler.ts:162-173 | each output pixel shows the last patch drawn over it, or stays transparent |
| Upscaler.PlaceOnGrid | src/utils/upscaler.ts:162-163 | patch k lands at k times the output side of one patch, so rounding never drifts |
| Upscaler.WalkReports | src/utils/upscaler.ts:179-182 | from any point of the walk, the reports stay the prefix of done/total·100; a success reports every tile |
| Splash.Step | src/components/Splash.tsx:8 | a tick never passes 100, strictly advances below 100, and holds at 100 |
| Splash.StepInIntegers | src/components/Splash.tsx:8 | on whole numbers, the rounded sixth is (103 − p) div 6, so the bar stays integral |
| Splash.StepFixedPoint | src/components/Splash.tsx:8 | 100 is the only value a tick leaves unchanged |
| Splash.TicksReachFull | src/components/Splash.tsx:8 | after `Ticks(p)` ticks the bar shows exactly 100, and below 100 before that |
| Splash.AfterBounded | src/components/Splash.tsx:8 | the bar never drops below its start and never exceeds 100 |
| Splash.AfterMonotone | src/components/Splash.tsx:8 | the bar never moves backwards |
| Splash.SplashSchedule | src/components/Splash.tsx:4-9 | from 8 the bar needs 21 ticks, but at most 16 ticks of 250 ms come before the 4000 ms timeout calls `onDone`, so up to that call the bar shows at most 95 and never 100 |
| UpscalePanel.DecimalRoundTrip | src/components/UpscalePanel.tsx:12 | the decimal text of a status code reads back as that number |
| UpscalePanel.PreflightModel | src/components/UpscalePanel.tsx:9-22 | a preflight passes exactly for an OK response that is not declared below 5,000,000 bytes; a failure carries a reason; an HTTP failure names its status |
| UpscalePanel.PreflightStatusReadable | src/components/UpscalePanel.tsx:12 | a non-OK response gives a reason starting with "HTTP " |
| UpscalePanel.ResolveKeepsBase | src/components/UpscalePanel.tsx:29-30 | an ordinary base is kept, at most losing one trailing slash, and the path ends the URL |
| UpscalePanel.ResolveSpaceBase | src/components/UpscalePanel.tsx:28-30 | a Space file base resolves to the Hub base followed by the path |
| UpscalePanel.Rewrite | src/components/UpscalePanel.tsx:74 | a URL ending in scale1x.onnx (ignoring case) keeps its prefix and its length and now ends in scale2x.onnx; any other URL is unchanged |
| UpscalePanel.RewriteIdempotent | src/components/UpscalePanel.tsx:73-76 | a rewritten URL no longer ends in scale1x.onnx, so rewriting twice changes nothing |
| UpscalePanel.FilterModels | src/components/UpscalePanel.tsx:47 | the filtered list only holds models whose scale, defaulting to 1, is not 1 |
| UpscalePanel.FilterModelsMembers | src/components/UpscalePanel.tsx:47 | a model survives the filter exactly when it is in the list and upscales |
| UpscalePanel.FilterModelsOrder | src/components/UpscalePanel.tsx:47 | the filter distributes over concatenation, so it keeps the manifest's order |
| UpscalePanel.FilterModelsIdempotent | src/components/UpscalePanel.tsx:47 | filtering twice is filtering once |
| UpscalePanel.Find | src/components/UpscalePanel.tsx:66 | the index found is the first entry with the id, and none means no entry has it |
| UpscalePanel.OnUpscaleAsWritten | src/components/UpscalePanel.tsx:64-110 | as written, a first run that finishes used a URL that passed preflight or does not end in scale1x.onnx |
| UpscalePanel.OnUpscale | src/components/UpscalePanel.tsx:64-110 | a finished run found its model; the first run uses the entry's scale; the fallback uses scale 2 and a URL no longer ending in scale1x.onnx |
| UpscalePanel.OnUpscaleAsWrittenLosesScale | src/components/UpscalePanel.tsx:68-76 | for a scale-4 entry whose scale1x URL fails preflight, the code as written runs at scale 2, where the intended flow runs at scale 4 |
| UpscalePanel.OnUpscaleAsWrittenReportsTypeError | src/components/UpscalePanel.tsx:76-107 | when both runs fail, the code as written shows the constant-assignment TypeError instead of the model's error |
| UpscalePanel.OnUpscaleAgreesElsewhere | src/components/UpscalePanel.tsx:64-110 | away from a failed preflight of a scale1x URL, the code as written and the corrected flow agree |
| UpscalerUI.ChoicesComplete | src/components/UpscalerUI.tsx:14-15 | the category and noise lists hold every choice exactly once |
| UpscalerUI.KeyInjective | src/components/UpscalerUI.tsx:4 | distinct categories have distinct keys |
| UpscalerUI.ModelURL | src/components/UpscalerUI.tsx:35-37 | the model URL starts with the base, ends in `_scale2x.onnx`, and has the length of its parts |
| UpscalerUI.ModelURLFields | src/components/UpscalerUI.tsx:36 | the category key and the noise digit can be read back at fixed positions of the URL |
| UpscalerUI.ModelURLInjective | src/components/UpscalerUI.tsx:35-37 | two choices give the same URL exactly when they are the same category and noise |
| UpscalerUI.LabelizeSucceeds | src/components/UpscalerUI.tsx:177-179 | `labelize` succeeds exactly when no `_`-separated segment is empty (otherwise `s[0]` is undefined) |
| UpscalerUI.LabelizeChars | src/components/UpscalerUI.tsx:177-179 | a label has the key's length; word starts are upper-cased and `_` becomes a space |
| UpscalerUI.LabelOf | src/components/UpscalerUI.tsx:177-179 | the label is determined by its characters: any text of that form is the label |
| UpscalerUI.LabelizeWordCount | src/components/UpscalerUI.tsx:178 | the label has as many spaces as the key has underscores |
| UpscalerUI.CategoryLabels | src/components/UpscalerUI.tsx:108-111 | the buttons read Art, Art Scan, Photo, Photo Scan, Art Hd and Photo Hd |
| UpscalerUI.LabelizeRejects | src/components/UpscalerUI.tsx:178 | an empty key, or one with a leading, trailing or doubled `_`, throws |
| UpscalerUI.PreviewSize | src/components/UpscalerUI.tsx:49-52 | the preview fits in 640×640; a small image keeps its size; a large one has its longer side at exactly 640 |
| UpscalerUI.DrawImageToCanvas | src/components/UpscalerUI.tsx:47-54 | the canvas takes the preview size and every pixel is the resampled picture's |
| UpscalerUI.LoadFile | src/components/UpscalerUI.tsx:41-72 | no file changes nothing; a decode failure keeps the canvas and becomes the error; a decoded picture is drawn and marks the canvas as loaded |
| UpscalerUI.LoadsDrawn | src/components/UpscalerUI.tsx:41-72 | after a series of file events a picture is drawn exactly when one was before or some event decoded one |
| UpscalerUI.RunImageModelFromUrl | src/lib/ortRunner.ts:167-175 | a successful run had its session created from the URL |
| UpscalerUI.UpscaledBy | src/lib/ortRunner.ts:157-164 | the result is the input scaled by one whole factor on both sides |
| UpscalerUI.DoUpscaleAsWritten | src/components/UpscalerUI.tsx:76-100 | a missing or zero-sized canvas fails with "Please load an image first."; a success ran the chosen model URL and is the canvas scaled by one factor |
| UpscalerUI.DoUpscaleAsWrittenRunsOnBlank | src/components/UpscalerUI.tsx:80-82 | before any image is loaded, the 300×150 default canvas passes the guard and its transparent pixels are sent to the model |
| UpscalerUI.DoUpscale | src/components/UpscalerUI.tsx:76-100 | the corrected flow succeeds only on a canvas a picture was drawn on, refuses otherwise, and on such a canvas behaves as written |
| UpscalerUI.DoUpscaleRefusesUnloaded | src/components/UpscalerUI.tsx:80 | on the canvas as mounted, the corrected flow refuses, while the code as written runs the model |
| UpscalerUI.DoUpscaleNeedsPicture | src/components/UpscalerUI.tsx:41-100 | whatever file events followed the mount, the corrected flow succeeds only if one of them decoded a picture |

## Left out

- Fetching and decoding are left out: model files, the manifest, `File` and
  `ImageBitmap` decoding, `convertToBlob`/`toDataURL` PNG encoding, and
  object URLs. A decoded image is an input, and the encoded result is the
  `ImageData` that would be encoded. The worker's `canvas.toBlob` call is
  modelled only as the error it raises on an `OffscreenCanvas`, which has
  `convertToBlob` and no `toBlob`.
- The model, session and graph-model calls, including `createSession`'s
  WebGPU-to-WASM fallback (src/lib/onnx.ts:23-29), are parameters. Which
  execution provider ran is not observable in the model.
- `drawImage` resampling is left out. Every `drawImage` in the core either
  copies at the same size (modelled as `putImageData` with clipping) or
  draws a browser-decoded image. The preview in `UpscalerUI` is drawn with a
  resampling function given as a parameter, at the size the panel picks.
- The `antialias` convolution (src/utils/tfjs-utils.ts:114-144) is left out.
  It is a library `conv2d` call with no logic of its own beyond the kernel.
- Floating point is left out: Float32 arithmetic is exact rational
  arithmetic, and NaN and infinities do not arise. The one place where
  `undefined` arithmetic matters, a read past the end of a short output
  buffer, is modelled as the byte 0 that NaN stores.
- Concurrency is left out: React state updates, `busy` flags, async
  interleavings and worker scheduling. Each handler is a function from its
  inputs to its outcome.
- The splash screen's `localStorage` flag and its timers (Splash.tsx:6-10)
  are left out. The model gives the bar's values tick by tick and the tick
  count at the 4000 ms timeout. What `onDone` does is the parent's affair:
  the bar's values after that call are not modelled.
- `fetchManifest` (src/lib/onnx.ts:17-21) and the `UpscalePanel` file loading
  (UpscalePanel.tsx:52-62) are left out. They are I/O only. In `UpscalerUI`
  the file events are modelled by their outcome (no file, a decode error, or
  the decoded picture); object URLs and the input URL state are left out.
- `downloadOut` and the JSX rendering are left out, apart from the category
  labels.
- Tiling.MakeTiles requires `overlap < tileSize`. With a step of 0 or less
  and a height above 0 the source's loop never ends, so there is no result
  to model. The hang is reachable: `UpscalePanel` passes the overlap and
  tile size typed by the user to `runTiled` unchecked (the inputs' `min` and
  `max` do not constrain typed values). A negative overlap is
  modelled, and leaves gaps (`Tiling.NegativeOverlapLeavesGaps`).
- Tiler.RunTiled, Tiler.PlanJob, Tiler.RunTiledCalls and
  Tiler.RunTiledLastWins require `tileSize >= 1`. With a tile size of 0 or
  below, `getImageData` throws (zero) or reads a mirrored rectangle
  (negative); neither is modelled.
- Tiler.RunTiled takes the scale as an exact real: `width * scale` is not
  rounded to a double before `Math.floor`. A manifest scale is a JSON
  number, so it is never NaN or infinite, and a missing or zero scale
  becomes 2 before it reaches `runTiled`.
- Upscaler.TileResult takes the per-patch model as one function from a
  64×64 patch to the squeezed float output (`fromPixels`, `normalize`,
  `execute` and `squeeze` are folded into it). `denormalize` and
  `toPixels` are modelled. The patch loop uses the corrected tile result;
  as written every tile brighter than 1/255 fails (see Findings).
- Upscaler.RawOutput assumes the squeezed model output is `[h, w, 3]`: three
  channels, with neither side equal to 1. `squeeze` drops every unit axis,
  so a 1-high output becomes `[W, 3]` and is read as W high and 3 wide, and
  `toPixels` also takes 1- or 4-channel outputs. The 64×64 upscaling
  models this file loads answer with three channels and sides above 1. The
  worker's unit-height case is modelled (`Worker.OutputImageUnitHeight`).
- Images.PutGetRoundTrip models the canvas as lossless. The HTML Living
  Standard allows a browser to change pixels that are not fully opaque on a
  `putImageData`/`getImageData` round trip (premultiplied alpha; alpha 0
  comes back as 0, 0, 0, 0), so on a translucent input the values stated
  here and in the next four members are not guaranteed.
- OrtRunner.PadToMultiple and OrtRunner.PadToMultipleAt: exact pixel values
  on the lossless canvas only, as above.
- OrtRunner.CropShortcutAgrees: the early return equals the round trip on
  the lossless canvas only, as above.
- Upscaler.PadToPatch and Upscaler.PadToPatchPixels: the patch handed to
  the model holds the exact source pixels on the lossless canvas only, as
  above.
- Upscaler.UpscaleStopsAtFirstFailure speaks only of runs in which some
  patch fails. A run in which every patch succeeds can still fail, in the
  final copy when a rounded side is 0 (`Upscaler.UpscaleFailsOnEmptyOutput`).
- UpscalerUI.Upper upper-cases ASCII letters only, where `toUpperCase` maps
  all of Unicode. The category keys are ASCII.
- TfjsUtils.SeamBlendMask requires a non-zero overlap. With overlap 0 the
  source divides by zero and TensorFlow.js produces NaN or infinities, which
  the real-number model cannot represent. An empty side is modelled: it
  fails with the `linspace` error.
- TfjsUtilsFacts.TtaRoundTrip, TfjsUtilsFacts.FlipsInvolution and
  TfjsUtilsFacts.TtaMergeAt hold for the split and merge with a working
  up-down flip (`tf.reverse` on the height axis). As written the split
  always throws (`TfjsUtils.TtaAsWrittenThrows`). Which TensorFlow.js
  version the app pins is not part of this model.
- No caller of `blendPatchWithMask` exists in the core, so no accumulator
  is modelled. `BlendPatchWithMask` is modelled as the per-pixel formula
  the code has.

## Findings

| source | as written | input that shows it | evidently intended | confidence | as-written member | corrected member |
|---|---|---|---|---|---|---|
| src/utils/tfjs-utils.ts:95-105 | `w2` is read before the left columns are added, so the right pad repeats column `w2 - 1` of the widened tensor, one that is `left` places inside the edge | the 1×3 row [1, 2, 3] with left = right = 1 gives [1, 1, 2, 3, 2] | edge replication: [1, 1, 2, 3, 3] | not executed | TfjsUtilsFacts.ReplicationPadAsWrittenWrongColumn | TfjsUtilsFacts.ReplicationPadReplicates |
| src/components/UpscalePanel.tsx:68-76 | `url` is declared `const`, so `url = alt` throws a TypeError: the scale2x sibling never runs with the entry's scale, and if the retry fails the TypeError message is shown | an entry with scale 4 at a path ending in `scale1x.onnx` whose preflight fails | declare `url` with `let`, so the scale2x URL runs at the entry's scale | not executed | UpscalePanel.OnUpscaleAsWrittenLosesScale | UpscalePanel.OnUpscale |
| src/components/UpscalerUI.tsx:80 | the guard tests only the canvas size, but an unloaded canvas element is 300×150 | pressing Upscale before any image is loaded sends a transparent 300×150 image to the model | refuse with "Please load an image first." until an image has been drawn | not executed | UpscalerUI.DoUpscaleAsWrittenRunsOnBlank | UpscalerUI.DoUpscaleNeedsPicture |
| src/workers/tfupscale.worker.ts:37-48 | the image is drawn on an `OffscreenCanvas` and encoded with `canvas.toBlob`, which that class does not have | any job whose model loads and runs and whose output is drawable ends with "canvas.toBlob is not a function" | encode with `canvas.convertToBlob({ type: mime })` | not executed | Worker.HandleJobAsWrittenFailsAfterDrawing | Worker.HandleJobSucceeds |
| src/utils/upscaler.ts:29-32,148-152 | `denormalize` scales the output to 0..255 and passes the float32 tensor to `tf.browser.toPixels`, which rejects float32 values outside [0, 1] | a patch whose output has one value above 1/255, such as 0.5 | pass the values in [0, 1] (or cast to int32 first) | not executed | Upscaler.TileResultAsWrittenRejectsBright | Upscaler.TileResultBytes |
| src/utils/tfjs-utils.ts:224,249 | `tf.image.flipUpDown` is called, but `tf.image` exports `flipLeftRight` and no `flipUpDown` | any grid passed to `ttaSplit`; any eight predictions passed to `ttaMerge` | flip the height axis with `tf.reverse(x, 1)` | not executed | TfjsUtils.TtaAsWrittenThrows | TfjsUtilsFacts.TtaRoundTripWithFlip |
