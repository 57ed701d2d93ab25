/**
 * `POST /api/convert-image`: the same re-encoding as compress-image with a
 * smaller supported set (no `jpeg` spelling), a default quality of 90, and
 * the form checks made before the query is read.
 */
module ConvertImage {
  import opened JsValues
  import opened Http
  import opened ImagePipeline

  const SupportedFormats: seq<string> := ["png", "jpg", "webp", "tiff", "ico"]

  /**
   * A string `quality`, even an empty one, goes through `parseInt` and the
   * clamp to [1, 100]; an absent or repeated `quality` is 90.
   */
  function Quality(query: Query): (q: JsNum)
    ensures q.Int? ==> 1 <= q.value <= 100
    ensures QueryString(query, "quality").None? ==> q == Int(90)
    ensures QueryString(query, "quality").Some? ==> (q.NaN? <==> ParseInt(query["quality"].text).NaN?)
    ensures QueryString(query, "quality").Some? && ParseInt(query["quality"].text).Int? ==>
              var v := ParseInt(query["quality"].text).value;
              q == Int(if v < 1 then 1 else if v > 100 then 100 else v)
  {
    match QueryString(query, "quality")
    case Some(s) => Clamp(ParseInt(s), 1, 100)
    case None => Int(90)
  }

  /** A decimal `quality` is clamped, never refused: 500 acts as 100 and 0 as 1. */
  lemma QualityOfDecimal(query: Query, n: int)
    requires "quality" in query && query["quality"] == One(IntToString(n))
    ensures Quality(query) == Int(if n < 1 then 1 else if n > 100 then 100 else n)
  {
    assert IntToString(n) + "" == IntToString(n);
    ParseIntOfIntToString(n, "");
  }

  /** An empty `quality` is NaN here, where compress-image reads it as 80. */
  lemma EmptyQualityIsNaN(query: Query)
    requires "quality" in query && query["quality"] == One("")
    ensures Quality(query).NaN?
  {
  }

  /** `jpeg` is not in this handler's set, so `?format=jpeg` is refused. */
  lemma JpegSpellingRefused(query: Query)
    requires "format" in query && query["format"] == One("JPEG")
    ensures RequestedFormat(query) == "jpeg" && RequestedFormat(query) !in SupportedFormats
  {
    assert ToLowerAscii("JPEG") == "jpeg";
  }

  /**
   * The codec calls planned for a supported format: the ICO path for `ico`,
   * otherwise one explicit encoder, `jpg` through the JPEG encoder and PNG
   * with its quality capped at 90.
   */
  predicate Planned(job: ImageJob, data: Bytes, format: string, quality: JsNum) {
    && job.input == data
    && job.outputExt == ExtFor(format)
    && QualitiesBounded(job.steps)
    && (format == "ico" ==> job.steps == IcoSteps)
    && (format == "jpg" ==> job.steps == [Encode(Jpeg, Some(quality))])
    && (format == "png" ==> job.steps == [Encode(Png, Some(MathMin(quality, 90)))])
    && (format == "webp" ==> job.steps == [Encode(Webp, Some(quality))])
    && (format == "tiff" ==> job.steps == [Encode(Tiff, Some(quality))])
  }

  /** Builds the transformer step by step, as the handler's `switch` does. */
  method BuildJob(data: Bytes, format: string, quality: JsNum) returns (transformer: ImageJob)
    requires format in SupportedFormats
    requires quality.Int? ==> 1 <= quality.value <= 100
    ensures Planned(transformer, data, format, quality)
  {
    var ext := ExtFor(format);
    transformer := ImageJob(data, [], ext);
    if format == "ico" {
      transformer := transformer.Then(Resize(Some(Int(256)), Some(Int(256)), "contain", false, Transparent));
      transformer := transformer.Then(Encode(Png, None));
      transformer := transformer.Then(ConvertToIco);
      IcoStepsBounded();
    } else if format == "jpg" {
      transformer := transformer.Then(Encode(Jpeg, Some(quality)));
      SingleEncodeBounded(Jpeg, Some(quality));
    } else if format == "png" {
      transformer := transformer.Then(Encode(Png, Some(MathMin(quality, 90))));
      SingleEncodeBounded(Png, Some(MathMin(quality, 90)));
    } else if format == "webp" {
      transformer := transformer.Then(Encode(Webp, Some(quality)));
      SingleEncodeBounded(Webp, Some(quality));
    } else if format == "tiff" {
      transformer := transformer.Then(Encode(Tiff, Some(quality)));
      SingleEncodeBounded(Tiff, Some(quality));
    }
  }

  /**
   * The handler. Missing form data and a missing `file` part are refused
   * before the query is read, then an unsupported format; each is a 400 and
   * none reaches the codec. Otherwise the planned job runs and its outcome is
   * the reply.
   */
  method Convert(query: Query, form: Option<seq<Part>>, codec: ImageJob -> Option<Bytes>, base64: Bytes -> string)
    returns (out: ImageOutcome)
    ensures form.None? ==> out == Refused(HttpError(400, "No file uploaded"))
    ensures form.Some? && FindPart(form.value, "file").None? ==> out == Refused(HttpError(400, "Invalid file"))
    ensures form.Some? && FindPart(form.value, "file").Some? && RequestedFormat(query) !in SupportedFormats ==>
              out == Refused(HttpError(400, "Unsupported format"))
    ensures out.job.Some? <==> form.Some? && FindPart(form.value, "file").Some? && RequestedFormat(query) in SupportedFormats
    ensures out.job.Some? ==>
              && Planned(out.job.value, FindPart(form.value, "file").value.data, RequestedFormat(query), Quality(query))
              && out == RunJob(out.job.value, codec, base64, "Error processing image")
  {
    if form.None? {
      return Refused(HttpError(400, "No file uploaded"));
    }
    var file := FindPart(form.value, "file");
    if file.None? {
      return Refused(HttpError(400, "Invalid file"));
    }

    var format := RequestedFormat(query);
    var quality := Quality(query);
    if format !in SupportedFormats {
      return Refused(HttpError(400, "Unsupported format"));
    }

    var transformer := BuildJob(file.value.data, format, quality);
    out := RunJob(transformer, codec, base64, "Error processing image");
  }
}
