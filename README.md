# PathWork: image and PDF request handlers

This project models the request handlers of PathWork, a Nuxt/h3 server that
offers image and PDF tools, together with its API-key middleware. All pixel
and PDF work belongs to libraries: sharp and png-to-ico for images, pdf-lib
for PDFs. What the model covers is the logic the handlers have of their own
between those library calls:

- **Image requests** (`compress-image`, `convert-image`, `resize-image`,
  `crop-image`). Each turns a query string and a multipart form into a *job*
  for the image codec, then wraps the codec's output in a JSON envelope. A
  job is the uploaded bytes, the builder calls in order, and the output
  extension. The model covers:
  - format lower-casing and the supported sets;
  - `parseInt`-based quality parsing, the clamp to [1, 100] and the PNG
    ceiling of 90;
  - the 256×256 ICO pre-render, the `jpg`→`jpeg` extension and the
    data-URI envelope;
  - the guards, and the order in which they run;
  - the temporary file being removed only on success.
- **PDF requests** (`pdf-merge`, `pdf-split`, `pdf-organize`, `pdf-rotate`).
  A document is a sequence of pages, and each page has an identity and a
  rotation:
  - merge concatenates every uploaded document in order;
  - split copies the 1-based page numbers that exist, in request order;
  - organize gathers at 0-based indices;
  - rotate adds the angle to each page's rotation.

  The handlers' loops are written as loops over a `PdfDocument` object whose
  page sequence they update, and each loop is proved against a
  page-sequence function. The stale-file sweep `cleanOldFiles` is a loop
  over a temporary directory object.
- **API-key middleware.** Requests under the `/api` prefix pass only when
  the `x-api-key` header strictly equals the configured secret.

The codec, the PDF library, base64 encoding, `JSON.parse`, the decoding of a
part's bytes to text, the request id and the clock are not modelled. Each
is a parameter of the handler that uses it, and a library call that throws
is `None`. The JavaScript value semantics the handlers depend on are modelled
exactly where they change a result:

- `parseInt`: white space, sign, `0x` prefix, longest digit prefix, NaN.
- `Number(string)`: trimming, the empty string as 0, decimal and exponent
  forms, `0x`/`0o`/`0b`, `Infinity`.
- `Math.min`/`Math.max` with NaN.
- Truthiness, `String(n)`, and the h3 query values, where a repeated key
  becomes an array and is stringified by a comma join.

Behaviour of the handlers worth knowing:

- Rotation is not reduced modulo 360. Two half turns of an upright page
  leave it at 360 (`PdfDocuments.NoReductionModulo360`).
- An unparsable quality does not fall back to the default. It stays NaN
  through the clamp and reaches the codec as NaN (`CompressImage.Quality`,
  `ConvertImage.Quality`).
- Every validation failure of `pdf-split` is replaced by its single 500
  (`PdfSplit.Split`).
- The temporary file of an image request is removed only on success; a
  failure leaves it in place (`ImagePipeline.RunJob`).
- `pdf-organize` reads its indices as 0-based. A 1-based order is shifted by
  one page, and it fails only when it names the last page
  (`PdfOrganize.OneBasedOrderFails`).
- `resize-image` has no quality parameter: JPEG is always written at 95.
- A failed `stat` aborts the sweep, while a failed removal does not.

## Model

| member | source | states |
|---|---|---|
| JsValues.ParseIntOfIntToString | server/api/compress-image.post.ts:21 | `parseInt` reads back `String(n)` for every integer `n`, also when a character that is neither a letter nor a digit follows (the comma of a repeated key) |
| JsValues.ParseInt | server/api/compress-image.post.ts:21 | `parseInt` of blank text is NaN, and a negative result needs a leading minus sign after the white space |
| JsValues.TrimStart | server/api/compress-image.post.ts:21 | the result is a suffix of the input; only white space was dropped, and the result does not start with white space |
| JsValues.DigitPrefix | server/api/compress-image.post.ts:21 | `parseInt`'s digit run is a prefix of the text, all digits, and maximal |
| JsValues.MathMax | server/api/compress-image.post.ts:21 | `Math.max(n, k)` keeps NaN as NaN, and otherwise is at least `k` and equals the larger of the two |
| JsValues.MathMin | server/api/compress-image.post.ts:67 | `Math.min(n, k)` keeps NaN as NaN, and otherwise is at most `k` and equals the smaller of the two |
| JsValues.Clamp | server/api/compress-image.post.ts:20-23 | a clamped number lies in [lo, hi]: values below are raised to lo, values above are lowered to hi, values inside are unchanged, and NaN stays NaN |
| JsValues.ToLowerAscii | server/api/compress-image.post.ts:17 | lower-casing keeps the length, turns every ASCII upper-case letter into its lower-case counterpart (32 code points up), and leaves every other character unchanged |
| JsValues.StringToNumberOfIntToString | server/api/pdf-rotate.post.ts:14 | `Number` reads back `String(n)` as exactly `n` for every integer |
| JsValues.StringToNumber | server/api/pdf-rotate.post.ts:14 | `Number` of empty or blank text is 0, and a negative result needs a leading minus sign after trimming |
| Http.FindPart | server/api/compress-image.post.ts:30 | `find` gives the first part with the name, and None exactly when no part has it |
| Http.PartsNamed | server/api/pdf-merge.post.ts:10 | the filter keeps exactly the parts with the name, and no more parts than there were |
| Http.PartsNamedAppend | server/api/pdf-merge.post.ts:10 | the filter keeps submission order: filtering two part lists one after the other is filtering their concatenation |
| Http.OrElse | server/api/compress-image.post.ts:21 | `text \|\| fallback` is the text when it is present and not empty, and the fallback otherwise |
| Http.QueryText | server/api/compress-image.post.ts:21 | `query[key]?.toString()` is undefined exactly when the key is absent |
| Http.QueryString | server/api/compress-image.post.ts:16 | a query value counts as a string exactly when its key was given once |
| ImagePipeline.ExtFor | server/api/compress-image.post.ts:41 | the extension is never `jpg`; it is `jpeg` exactly for `jpg` and `jpeg`, and is the format itself for every other format |
| ImagePipeline.RequestedFormat | server/api/compress-image.post.ts:15-18 | an absent or repeated `format` is `png`; a string `format`, even an empty one, is lower-cased; the result holds no upper-case ASCII letter |
| ImagePipeline.Envelope | server/api/compress-image.post.ts:83-93 | the reply carries the extension, `mimeType` `image/<ext>` and the encoded byte length; its `file` parses back as a data URI with that media type and the base64 of the encoded bytes |
| ImagePipeline.ParseDataUriOfDataUri | server/api/compress-image.post.ts:83 | a `data:<type>;base64,<payload>` URI reads back as its media type and payload |
| ImagePipeline.RunJob | server/api/compress-image.post.ts:77-98 | the job reaches the codec; a codec failure is a 500 with the handler's message and leaves the temporary file in place; a success is the envelope and removes the file |
| CompressImage.Quality | server/api/compress-image.post.ts:20-23 | the quality is the `parseInt` value clamped to [1, 100] (below 1 gives 1, above 100 gives 100) when it parses, is NaN exactly when `parseInt` finds no digits, and is 80 when the parameter is absent or empty |
| CompressImage.ParseIntOfDefault | server/api/compress-image.post.ts:21 | the default text `'80'` parses as 80 |
| CompressImage.QualityOfDecimal | server/api/compress-image.post.ts:20-23 | a decimal quality is clamped, never refused: 500 acts as 100, and 0 or negative values act as 1 |
| CompressImage.QualityOfRepeatedKey | server/api/compress-image.post.ts:21 | a repeated `quality` is joined with commas, so its first value decides |
| CompressImage.PngAtNinetyFive | server/api/compress-image.post.ts:66-67 | `?format=PNG&quality=95` is lower-cased to `png` and encoded at 90 |
| CompressImage.BuildJob | server/api/compress-image.post.ts:44-75 | the job for a supported format: `ico` takes the 256×256 transparent `contain` render, PNG encode and ICO conversion; `png` gets `min(quality, 90)`; `jpg`/`jpeg`, `webp` and `tiff` get their encoder at the clamped quality; every numeric quality is within its encoder's bound |
| CompressImage.Compress | server/api/compress-image.post.ts:25-98 | missing form data, a missing `file` part and an unsupported format are each refused with their own 400, in that order, with no codec call; otherwise the planned job runs and its outcome is the reply |
| ConvertImage.Quality | server/api/convert-image.post.ts:26-28 | a quality that is not a string is 90; a string quality, even an empty one, is its `parseInt` value clamped to [1, 100] (below 1 gives 1, above 100 gives 100) when it parses, and is NaN when it does not |
| ConvertImage.QualityOfDecimal | server/api/convert-image.post.ts:26-28 | a decimal quality is clamped, never refused: 500 acts as 100, and 0 or negative values act as 1 |
| ConvertImage.EmptyQualityIsNaN | server/api/convert-image.post.ts:26-28 | an empty quality is NaN here, where compress-image reads it as 80 |
| ConvertImage.JpegSpellingRefused | server/api/convert-image.post.ts:30-31 | `?format=JPEG` lower-cases to `jpeg`, which is outside the supported set |
| ConvertImage.BuildJob | server/api/convert-image.post.ts:38-56 | the job for a supported format: the ICO path, `jpg` through the JPEG encoder, `png` at `min(quality, 90)`, `webp` and `tiff` at the clamped quality, every numeric quality within bound |
| ConvertImage.Convert | server/api/convert-image.post.ts:14-72 | missing form data and a missing `file` part are refused before the query is read, then an unsupported format; each is a 400 with its own message and no codec call; otherwise the planned job runs and its outcome is the reply |
| ResizeImage.Dimension | server/api/resize-image.post.ts:13-14 | a width or height is null exactly when the parameter is absent or empty |
| ResizeImage.Format | server/api/resize-image.post.ts:12 | an absent or empty `format` is `png`; any other value is lower-cased, with a repeated key joined by commas; the result holds no upper-case ASCII letter |
| ResizeImage.Fit | server/api/resize-image.post.ts:15 | an absent or empty `fit` is `inside`; any other value is passed on as written |
| ResizeImage.NoDimensionsNoResize | server/api/resize-image.post.ts:35 | with neither width nor height, no resize step is added |
| ResizeImage.ZeroWidthNoResize | server/api/resize-image.post.ts:13-35 | `?width=0` alone adds no resize step, because 0 is falsy |
| ResizeImage.BuildJob | server/api/resize-image.post.ts:32-54 | the job has a resize step, which never enlarges and pads with transparency, exactly when width or height is truthy; then JPEG at 95, or PNG or WebP at their defaults, or no explicit encoder for any other extension |
| ResizeImage.ResizeHandler | server/api/resize-image.post.ts:17-77 | a missing file is the only refusal, a 400 made before any codec call; any format is accepted; otherwise the planned job runs and its outcome is the reply |
| CropImage.Coordinate | server/api/crop-image.post.ts:12-15 | an absent or empty coordinate is 0 |
| CropImage.Accepted | server/api/crop-image.post.ts:17-20 | a crop is accepted only with form data, a `file` part, and a `width` and a `height` that are present and not empty |
| CropImage.MissingSizeRefused | server/api/crop-image.post.ts:14-25 | a crop without `width` or without `height` is always refused |
| CropImage.CropJob | server/api/crop-image.post.ts:31-34 | the codec gets exactly the parsed rectangle, with no upper-bound check, followed by a PNG encode, and the output extension is `png` |
| CropImage.Crop | server/api/crop-image.post.ts:20-55 | a missing file or a width or height that is 0 or unparsable is one 400 with no codec call; otherwise the crop job runs; any codec failure is one 500, and a success is reported as `png` / `image/png` |
| PdfDocuments.ConcatLength | server/api/pdf-merge.post.ts:18-22 | the merged page count is the sum of the input page counts |
| PdfDocuments.ConcatAppend | server/api/pdf-merge.post.ts:18-22 | concatenation keeps submission order: it distributes over appending documents |
| PdfDocuments.ConcatIndex | server/api/pdf-merge.post.ts:18-22 | page `j` of document `i` is at position (pages before document `i`) + `j` of the result, so within-file order is kept |
| PdfDocuments.Gather | server/api/pdf-organize.post.ts:22-25 | the gathered sequence has one page per index, and position `k` holds the page at `indices[k]` (repeats included) |
| PdfDocuments.AllIndices | server/api/pdf-merge.post.ts:20 | `getPageIndices()` is 0, 1, …, count − 1 |
| PdfDocuments.GatherAll | server/api/pdf-merge.post.ts:20 | copying every index in order gives the document's pages back |
| PdfDocuments.SplitIndices | server/api/pdf-split.post.ts:27-32 | every index a split copies names an existing page, and there are no more of them than page numbers |
| PdfDocuments.SplitIndicesLength | server/api/pdf-split.post.ts:27-32 | a split copies exactly one page per requested page number in [1, pageCount] |
| PdfDocuments.SplitIndicesAppend | server/api/pdf-split.post.ts:27-32 | a split keeps request order, including repeats: it distributes over appending page numbers |
| PdfDocuments.SplitIndicesAllInRange | server/api/pdf-split.post.ts:28-29 | when every page number exists, nothing is skipped and each `p` becomes `p − 1` |
| PdfDocuments.SplitExample | server/api/pdf-split.post.ts:27-32 | pages [5, 1, 99] of a five-page document copy indices [4, 0] |
| PdfDocuments.RotatedKeepsPages | server/api/pdf-rotate.post.ts:21-26 | rotation keeps the page count and the page order |
| PdfDocuments.RotatedTwice | server/api/pdf-rotate.post.ts:25 | rotating by `a` and then by `b` is rotating by `a + b` |
| PdfDocuments.QuarterTurnsTwice | server/api/pdf-rotate.post.ts:25 | two rotations by 90 equal one rotation by 180 |
| PdfDocuments.NoReductionModulo360 | server/api/pdf-rotate.post.ts:25 | there is no reduction modulo 360: two half turns of an upright page give 360 |
| PdfDocuments.PdfDocument.Create | server/api/pdf-merge.post.ts:16 | a new document has no pages |
| PdfDocuments.PdfDocument.Load | server/api/pdf-merge.post.ts:19 | a loaded document holds the parsed pages |
| PdfDocuments.PdfDocument.AddPage | server/api/pdf-merge.post.ts:21 | `addPage` appends one page |
| PdfDocuments.PdfDocument.AddAll | server/api/pdf-merge.post.ts:21 | `pages.forEach(addPage)` appends the pages in order |
| PdfDocuments.PdfDocument.SetRotation | server/api/pdf-rotate.post.ts:25 | `setRotation` changes one page's rotation and nothing else |
| PdfDocuments.PdfDocument.CopyPages | server/api/pdf-organize.post.ts:22-25 | `copyPages` succeeds exactly when every index names a page, and then gives the gathered pages |
| PdfMerge.LoadAll | server/api/pdf-merge.post.ts:18-19 | every upload parses exactly when each one does, and then gives each upload's pages in order |
| PdfMerge.Merge | server/api/pdf-merge.post.ts:3-30 | missing form data and the absence of any `files` part are 400s; a parse or save failure is the framework's 500; otherwise the saved pages are the concatenation of all uploads, and the reply is that PDF, inline as `merged.pdf` |
| PdfMerge.MergeOfTwoForms | server/api/pdf-merge.post.ts:10-22 | merging the parts of two forms one after the other gives their merged pages one after the other |
| PdfSplit.Request | server/api/pdf-split.post.ts:10-21 | a request passes validation exactly when there is form data with a `file` part and a `pages` part whose JSON is a non-empty array; the page list is then that array and the PDF is the `file` part |
| PdfSplit.Split | server/api/pdf-split.post.ts:8-58 | every failure, the handler's own 400s included, is the one 500; otherwise the saved pages are the source pages at the existing requested page numbers, in order; the reply is an attachment `split-<id>.pdf` whose `Content-Length` is the decimal byte length |
| PdfSplit.CopySelected | server/api/pdf-split.post.ts:27-32 | the copy loop adds, in order, the page `p − 1` for every requested `p` that exists |
| PdfSplit.MissingPagesIsFailure | server/api/pdf-split.post.ts:17 | a form without `pages` fails validation, and so gets the 500 |
| PdfOrganize.Organize | server/api/pdf-organize.post.ts:3-34 | missing form data is one 400 and a missing `file` or `order` another; a bad `order`, a parse failure, an index that names no page or a failed save is the framework's 500; otherwise the saved pages are the source gathered at `order`, and the reply is their base64 |
| PdfOrganize.OrganizeExample | server/api/pdf-organize.post.ts:24 | indices are 0-based: [2, 0, 0] gives the third page, then the first twice |
| PdfOrganize.OneBasedOrderFails | server/api/pdf-organize.post.ts:22-25 | the 1-based order [3, 1, 1] names a page a three-page document does not have |
| PdfRotate.AcceptedAngle | server/api/pdf-rotate.post.ts:14-17 | an angle is accepted exactly when its number is 90, 180 or 270 |
| PdfRotate.AngleValue | server/api/pdf-rotate.post.ts:6-14 | a missing form or `angle` part is NaN, an empty one is 0, and any other text is read by `Number` |
| PdfRotate.Rotate | server/api/pdf-rotate.post.ts:5-42 | a missing file is a 400 checked before the angle, and an unlisted angle is another 400; a parse or save failure is the 500; otherwise the saved pages are all rotated by the angle, and the reply echoes the angle and the page count |
| PdfRotate.TurnPages | server/api/pdf-rotate.post.ts:23-26 | the loop gives every page its current rotation plus the angle |
| PdfRotate.DecimalAngles | server/api/pdf-rotate.post.ts:14-17 | an angle written as a decimal integer is accepted exactly when it is 90, 180 or 270 |
| PdfRotate.SpellingsOfNinety | server/api/pdf-rotate.post.ts:14 | `" 0x5A "`, `"9e1"` and `"90.0"` are all accepted as 90 |
| PdfRotate.EmptyAndMissingAngleRefused | server/api/pdf-rotate.post.ts:8-17 | an empty angle (the number 0) and a missing one (NaN) are both refused |
| TempSweep.FirstStatFailure | server/api/pdf-split.post.ts:64-66 | the sweep visits entries up to the first whose `stat` fails |
| TempSweep.RemovedMembers | server/api/pdf-split.post.ts:64-70 | an entry is removed exactly when it was visited, its age is strictly greater than the limit, and its removal did not fail |
| TempSweep.OneHourBoundary | server/api/pdf-split.post.ts:49 | with the one-hour limit, an entry exactly an hour old stays and one a millisecond older goes |
| TempSweep.TempDir.CleanOldFiles | server/api/pdf-split.post.ts:60-71 | the sweep rejects exactly when some `stat` fails, and the directory loses exactly the removed entries among those visited |
| TempSweep.SweepKeepsExactlyFresh | server/api/pdf-split.post.ts:64-70 | when every `stat` and every removal succeeds, exactly the entries that are not stale remain |
| ApiKeyGate.Authorize | server/middleware/auth.ts:6-16 | a request passes exactly when its path is outside `/api` or its header equals the secret; otherwise it gets the 401 |
| ApiKeyGate.UngatedPathsPass | server/middleware/auth.ts:6 | a path outside `/api` passes whatever header it carries |
| ApiKeyGate.PrefixNotSegment | server/middleware/auth.ts:6 | the prefix test is not a path-segment test: `/apix` is gated, and `/API/...` is not |
| ApiKeyGate.UnsetSecret | server/middleware/auth.ts:7-10 | with no secret configured, a request without the header passes, but any header value is refused |

## Left out

- The image codec (decoding, resizing, extracting, encoding, PNG-to-ICO) is a function from a job to the encoded bytes. The model does not know what the codec does with a NaN quality, a NaN or negative crop coordinate, or an unknown `fit` value; it only records that the value reaches the codec.
- The PDF library's parsing and writing are functions from bytes to pages and back. The internals of `copyPages`, and pdf-lib's check that a rotation is a multiple of 90, are not modelled.
- Base64 encoding, `JSON.parse`, the text decoding of a part's bytes, `randomUUID`, `Date.now`, `os.tmpdir` and the file system are parameters or abstract state. The temporary file of an image request is recorded only as whether its removal was requested.
- h3's multipart parsing and query parsing are represented by their results. A part always carries its bytes, so the `!file.data` tests never fire.
- The status message of the framework's own 500, for errors a handler does not catch (merge and organize), is represented by one constant.
- Asynchrony and concurrency: the split handler's sweep runs after the reply, and its rejection is only logged.
- `PdfSplit.Split`: a failed write of the temporary copy is a boolean parameter. The temporary file's name and contents are not modelled.
- `ImagePipeline.ImageJob`: the ICO path of compress-image and convert-image encodes in memory and writes the ICO bytes itself. The model represents both paths as one job that the codec either completes or fails.
- `JsValues.ToLowerAscii`: only ASCII letters are lower-cased, not the rest of Unicode.
- `JsValues.StringToNumber`: the value of a decimal literal is exact, without rounding to the nearest double.
- `JsValues.ParseInt`: very long digit runs are exact, where JavaScript loses precision.
- `Http.Json`: the model distinguishes malformed JSON, an array of integers and a non-array value. An array holding non-integers (strings, fractions) is not modelled.
- `TempSweep.TempDir.CleanOldFiles`: the listing is the directory's entries each once, as `readdir` returns them, and modification times are integers of milliseconds. A failing `readdir` rejects the sweep before anything is removed; the method always receives a listing, so that outcome is not modelled (it changes nothing in the directory).
- `CompressImage.Compress`, `ConvertImage.Convert`: `sharp(file.data)` is called before the `try` in these two handlers (compress-image.post.ts:44, convert-image.post.ts:38). If the constructor throws synchronously, for example on an input it refuses outright, the error escapes as the framework's 500 rather than the handler's own 500. The codec is one function here, so every codec failure is modelled as the handler's own 500. In resize-image and crop-image the constructor is inside the `try`, and the model is exact there.
- Logging (`console.error`) is left out.
