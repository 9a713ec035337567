# colourchanger in Dafny

A model of the pixel-recolouring core of colourchanger, a script that goes
through a folder of images and replaces every pixel whose colour lies within a
Euclidean RGB distance of a background colour with a replacement colour.

- `results.dfy` (`Results`): `Option` and `Result`.
- `colour.dfy` (`Colour`): `colour_distance` and `is_similar_colour`. The
  distance is the integer squared distance, and the inclusive test
  `sqrt(d) <= t` becomes `0 <= t && d <= t * t`. `SimilarIffRootWithin` shows
  that this agrees with the square-root test for every threshold, negative ones
  included. The module also models how NumPy 2 evaluates the same expression
  in wrapping uint8 arithmetic (see Findings).
- `transform.dfy` (`Transform`): `process_image` on a decoded RGBA grid. The
  mask is computed from channels 0..2 only. The output is a pointwise choice
  between the opaque replacement colour and the original pixel. An image with
  no pixels is an error. The same transform also appears as an explicit
  nested loop (`RecolourGrid`), proved to compute exactly what `ProcessImage` computes.
- `prompts.dfy` (`Prompts`): how prompt answers become settings. An empty
  answer selects the default. Otherwise the answer is parsed, and a failed
  parse ends the run.
- `batch.dfy` (`Batch`): the driver. It selects the entries ending in
  `"." + extension`, plans one job per file with the output named like the
  input, and runs the jobs serially. A failing file is reported and the loop
  carries on.

Two behaviours of the code worth knowing:
- An image with zero rows or zero columns is reported as an error rather than
  written as an empty image. `np.apply_along_axis` raises on a zero-length
  iteration dimension, and the catch-all at script.py:41-42 reports it.
- A blank answer means exactly the empty string. A whitespace-only answer is
  not blank: it is handed to the parser.

## Model

| member | source | states |
|---|---|---|
| Colour.SquaredDistance | script.py:8-12 | the squared distance is zero exactly when the two colours are equal |
| Colour.SquaredDistanceSymmetric | script.py:8-12 | the squared distance does not depend on the order of the two colours |
| Colour.SimilarSymmetric | script.py:15-17 | similarity is symmetric for every threshold |
| Colour.SimilarIffRootWithin | script.py:12-17 | for every non-negative real root s of the squared distance, the integer test holds exactly when s <= threshold, so it matches the source's sqrt-then-compare for every threshold, negative ones included |
| Colour.BoundaryIncluded | script.py:17 | a colour at distance exactly equal to the threshold is similar, and lowering the threshold by one excludes it |
| Colour.ZeroThresholdIsEquality | script.py:15-17 | with threshold 0, colours are similar only when all three channels are equal |
| Colour.Examples | script.py:15-17 | (10,5,8) is similar to black at 50 and (200,200,200) is not; with threshold 0, (1,0,0) is not similar to (0,0,0) |
| Colour.IsSimilar | script.py:15-17 | the inclusive threshold test: a negative threshold matches nothing, and any non-negative threshold matches a colour against itself |
| Colour.Uint8SquaredDistance | script.py:10-12 | in uint8 arithmetic the radicand is the true squared distance modulo 256 |
| Colour.IsSimilarAsWritten | script.py:10-17 | in uint8 arithmetic, similarity compares the true squared distance modulo 256 with the squared threshold, so it accepts everything the intended test accepts and possibly more |
| Colour.AsWrittenReplacesLightGrey | script.py:10-17 | in uint8 arithmetic, (200,200,200) counts as similar to black at threshold 50 even though its true distance is about 346 |
| Colour.AsWrittenZeroThresholdMatchesSixteen | script.py:10-17 | in uint8 arithmetic, (16,0,0) matches black even at threshold 0 |
| Transform.ComputeMask | script.py:32 | the mask has the image's shape, and a cell is true exactly when that pixel's first three channels are similar to the background; MaskIgnoresAlpha is its partner |
| Transform.Combine | script.py:35 | the output has the image's shape, and each cell is the opaque replacement where the mask is true and the original pixel where it is false; OutputPixelIsOneOfTwo is its partner |
| Transform.ProcessImage | script.py:31-35 | fails exactly for an image with no pixels; otherwise the output has the input's shape, every pixel similar to the background becomes (new_r, new_g, new_b, 255), and every other pixel is copied unchanged, alpha included |
| Transform.MaskIgnoresAlpha | script.py:32 | two grids that differ only in alpha have the same mask |
| Transform.OutputPixelIsOneOfTwo | script.py:35 | every output pixel is either the opaque replacement or the original pixel, with alpha 255 or the original alpha, never a blend |
| Transform.ProcessImageIdempotent | script.py:32-35 | transforming the output again with the same settings returns it unchanged |
| Transform.RecolourGrid | script.py:31-42 | the nested-loop form refuses an image without pixels; otherwise it keeps the shape and writes, at every position, the replacement if the pixel's RGB is similar and the pixel otherwise; its result equals ProcessImage's |
| Transform.DefaultRunExample | script.py:32-35 | with the default settings, (10,5,8,255) becomes white and (200,200,200,255) is kept |
| Prompts.ReadSettings | script.py:60-66 | empty answers give background (0,0,0), threshold 50, replacement (255,255,255) and extension "png"; a non-empty answer gives its parsed value; the run ends exactly when a non-empty answer fails to parse |
| Prompts.ParsedDefaultIsBlank | script.py:60-66 | an answer that parses to the default value, or the extension typed as "png", gives the same settings as leaving that answer empty |
| Prompts.BlankAnswersGiveDefaults | script.py:61-66 | four empty answers give the default settings whatever the parsers are |
| Batch.EndsWith | script.py:76 | str.endswith: the name is at least as long as the suffix and matches it character by character at its end |
| Batch.EndsWithIffSplit | script.py:76 | the suffix test holds exactly when the name is some stem followed by the suffix |
| Batch.SuffixIsCaseSensitive | script.py:76 | "photo.PNG" and a bare "png" are not selected for extension "png"; "photo.png" is |
| Batch.SelectFiles | script.py:76 | the selected names are exactly the entries ending in "." + extension, each kept with its multiplicity, and no others |
| Batch.SelectFilesKeepsOrder | script.py:76 | the selected names are a subsequence of the listing, so relative order is preserved |
| Batch.SelectFilesAppend | script.py:76 | selecting from a concatenated listing is the concatenation of the two selections |
| Batch.SelectFilesNoDuplicates | script.py:76 | a listing without duplicate names gives a selection without duplicate names |
| Batch.PlanJobs | script.py:78-85 | one job per selected name, in order; each output name equals its input name, and each job carries the run's background, threshold, replacement and extension |
| Batch.PlanJobsDistinctOutputs | script.py:78-85 | for a listing without duplicate names, no two jobs have the same output path, so no file is written twice |
| Batch.PlanJobsAppend | script.py:76-85 | planning a concatenated listing is the concatenation of the two plans |
| Batch.RunJob | script.py:22-42 | a file is written exactly when it decodes, has pixels and can be saved, and then holds the transformed grid under the output name; every other file is reported under its input path, as a decode failure when it did not decode |
| Batch.RunBatch | script.py:77-86 | every job runs exactly once, in order; the progress count reaches the number of jobs; each outcome depends only on its own job, so a failing file does not affect the rest |
| Batch.Run | script.py:76-86 | every selected file gets exactly one outcome, in listing order, under its own name; that outcome is the file's job run on its own, so a file that decodes, has pixels and can be saved is written with the transform of its grid |
| Batch.MixedFolderExample | script.py:76 | a folder with five .png files and two other files gives five jobs |

## Left out

- Image decoding and encoding (PIL `open`, `convert("RGBA")`, `fromarray`, `save`, script.py:25-26, 38-39) are foreign library calls. `decode` and `canSave` are parameters of the batch, and the transform works on a decoded grid.
- Filesystem calls are left out: `os.path.exists`, `os.makedirs`, `os.listdir` and `os.path.join` (script.py:69-70, 73, 76, 80-82). The listing is a given sequence of names, and input and output paths are the file names alone.
- The process pool and its size (script.py:73-74) are left out. The pool is created but never used, since `process_image` runs serially at script.py:85. Its size counts every directory entry, not only the selected ones. An empty input folder gives `Pool(0)`, which raises before any file is processed.
- The progress bar (tqdm) is modelled only as a counter. The greeting, the quit prompt and the prints (script.py:46-59, 88-91) are user interface. script.py:91 is unreachable.
- The floating-point `np.sqrt` is replaced by the exact integer test. For a byte background the radicand is at most 195075, and its rounded root is never close enough to an integer threshold to change the outcome.
- Transform.ProcessImage: accepts any integer background, as the parsed answer at script.py:61 can be, and computes the exact distance. The source does not for every such value. Under NumPy 2, a background channel outside [0,255] makes the uint8 subtraction raise, so every file is reported. Under NumPy 1, channels large enough to overflow int64 or lose float64 precision are computed inexactly. The model follows NumPy 1 for moderate values.
- Parsing "R G B" and threshold text with `int()` and `split()` (script.py:61, 63, 65) is a parameter that returns None on failure. A colour list of the wrong length is not modelled. This includes the empty list that a whitespace-only answer produces.
- Transform.ProcessImage: requires replacement channels in [0,255]. Converting an out-of-range list to uint8 (script.py:35) wraps or raises depending on the NumPy version, and that conversion is not modelled.
- Batch.RunJob: the catch-all at script.py:41-42 only prints. Its failures are modelled as `Reported` outcomes, and the kinds of failure other than decode, empty image and save are not distinguished.
- The white array filled at script.py:29 is overwritten at line 35 without being read, so it is left out.
- The unused `file_extension` field of the job tuple is kept in `JobSpec` but has no effect, as in the source.

## Findings

| source | as written | input that shows it | evidently intended | confidence | as-written member | corrected member |
|---|---|---|---|---|---|---|
| script.py:10-12 | The pixel channels arrive as uint8 scalars and the background as Python ints. Under NumPy 2 promotion rules, `(r1 - r2) ** 2` and the sums stay uint8 and wrap modulo 256. | Pixel (200,200,200,255), background (0,0,0), threshold 50: the wrapped radicand is 192, so the pixel is replaced. | The Euclidean distance over unbounded integers, about 346 here, so the pixel is kept. | medium, not executed; the wrap happens only under NumPy 2 promotion, since NumPy 1.x promoted to int64 | Colour.AsWrittenReplacesLightGrey | Colour.SimilarIffRootWithin |
