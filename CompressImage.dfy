/**
 * `POST /api/compress-image`: re-encode the uploaded `file` part in the
 * format named by the `format` query parameter at the quality named by
 * `quality`, and reply with the result as a base64 data URI.
 */
module CompressImage {
  import opened JsValues
  import opened Http
  import opened ImagePipeline

  const SupportedFormats: seq<string> := ["png", "jpg", "jpeg", "webp", "tiff", "ico"]

  /**
   * `quality` parsed by `parseInt` and clamped to [1, 100]; absent or empty
   * means 80. A value `parseInt` cannot read stays NaN.
   */
  function Quality(query: Query): (q: JsNum)
    ensures q.Int? ==> 1 <= q.value <= 100
    ensures q.NaN? <==> ParseInt(OrElse(QueryText(query, "quality"), "80")).NaN?
    ensures "quality" !in query || query["quality"] == One("") ==> q == Int(80)
    ensures ParseInt(OrElse(QueryText(query, "quality"), "80")).Int? ==>
              var v := ParseInt(OrElse(QueryText(query, "quality"), "80")).value;
              q == Int(if v < 1 then 1 else if v > 100 then 100 else v)
  {
    ParseIntOfDefault();
    Clamp(ParseInt(OrElse(QueryText(query, "quality"), "80")), 1, 100)
  }

  lemma ParseIntOfDefault()
    ensures ParseInt("80") == Int(80)
  {
    assert NatToString(80) == "80";
    ParseIntOfIntToString(80, "");
    assert IntToString(80) + "" == "80";
  }

  /** A decimal `quality` is clamped, never refused: 500 acts as 100 and 0 as 1. */
  lemma QualityOfDecimal(query: Query, n: int)
    requires "quality" in query && query["quality"] == One(IntToString(n))
    ensures Quality(query) == Int(if n < 1 then 1 else if n > 100 then 100 else n)
  {
    var text := IntToString(n);
    assert text + "" == text;
    ParseIntOfIntToString(n, "");
    assert text != [] by { IntToStringNonEmpty(n); }
    assert OrElse(QueryText(query, "quality"), "80") == text;
  }

  /**
   * A repeated `quality` is joined with commas before parsing, so the first
   * occurrence decides.
   */
  lemma QualityOfRepeatedKey(query: Query, n: int, others: seq<string>)
    requires others != []
    requires "quality" in query && query["quality"] == Many([IntToString(n)] + others)
    ensures Quality(query) == Int(if n < 1 then 1 else if n > 100 then 100 else n)
  {
    var items := [IntToString(n)] + others;
    assert Join(items, ",") == IntToString(n) + ("," + Join(others, ",")) by {
      assert items[1..] == others;
    }
    ParseIntOfIntToString(n, "," + Join(others, ","));
  }

  /** `?format=PNG&quality=95` is lower-cased to `png` and encoded at the PNG ceiling of 90. */
  lemma PngAtNinetyFive(query: Query, job: ImageJob, data: Bytes)
    requires query == map["format" := One("PNG"), "quality" := One("95")]
    requires Planned(job, data, RequestedFormat(query), Quality(query))
    ensures job.steps == [Encode(Png, Some(Int(90)))] && job.outputExt == "png"
  {
    FormatOfUpperPng(query);
    QualityOfNinetyFive(query);
  }

  lemma FormatOfUpperPng(query: Query)
    requires "format" in query && query["format"] == One("PNG")
    ensures RequestedFormat(query) == "png"
  {
    assert QueryString(query, "format") == Some("PNG");
    assert ToLowerAscii("PNG") == "png";
  }

  lemma QualityOfNinetyFive(query: Query)
    requires "quality" in query && query["quality"] == One("95")
    ensures Quality(query) == Int(95)
  {
    assert IntToString(95) == "95";
    QualityOfDecimal(query, 95);
  }

  /**
   * The codec calls planned for a supported format: the ICO path for `ico`,
   * otherwise one explicit encoder with the clamped quality, capped at 90 for
   * PNG; the output extension writes `jpg` as `jpeg`.
   */
  predicate Planned(job: ImageJob, data: Bytes, format: string, quality: JsNum) {
    && job.input == data
    && job.outputExt == ExtFor(format)
    && QualitiesBounded(job.steps)
    && (format == "ico" ==> job.steps == IcoSteps)
    && (format == "png" ==> job.steps == [Encode(Png, Some(MathMin(quality, 90)))])
    && (format == "jpg" || format == "jpeg" ==> job.steps == [Encode(Jpeg, Some(quality))])
    && (format == "webp" ==> job.steps == [Encode(Webp, Some(quality))])
    && (format == "tiff" ==> job.steps == [Encode(Tiff, Some(quality))])
  }

  /** Builds the transformer step by step, as the handler's `switch` does. */
  method BuildJob(data: Bytes, format: string, quality: JsNum) returns (transformer: ImageJob)
    requires format in SupportedFormats
    requires quality.Int? ==> 1 <= quality.value <= 100
    ensures Planned(transformer, data, format, quality)
  {
    var ext := ExtFor(format);
    transformer := ImageJob(data, [], ext);
    if format == "ico" {
      transformer := transformer.Then(Resize(Some(Int(256)), Some(Int(256)), "contain", false, Transparent));
      transformer := transformer.Then(Encode(Png, None));
      transformer := transformer.Then(ConvertToIco);
      IcoStepsBounded();
    } else if format == "jpeg" || format == "jpg" {
      transformer := transformer.Then(Encode(Jpeg, Some(quality)));
      SingleEncodeBounded(Jpeg, Some(quality));
    } else if format == "png" {
      transformer := transformer.Then(Encode(Png, Some(MathMin(quality, 90))));
      SingleEncodeBounded(Png, Some(MathMin(quality, 90)));
    } else if format == "webp" {
      transformer := transformer.Then(Encode(Webp, Some(quality)));
      SingleEncodeBounded(Webp, Some(quality));
    } else if format == "tiff" {
      transformer := transformer.Then(Encode(Tiff, Some(quality)));
      SingleEncodeBounded(Tiff, Some(quality));
    }
  }

  /**
   * The handler. Missing form data, a missing `file` part and an unsupported
   * format are refused in that order, each with its own 400, before any codec
   * call; otherwise the planned job runs and its outcome is the reply.
   */
  method Compress(query: Query, form: Option<seq<Part>>, codec: ImageJob -> Option<Bytes>, base64: Bytes -> string)
    returns (out: ImageOutcome)
    ensures form.None? ==> out == Refused(HttpError(400, "No file uploaded"))
    ensures form.Some? && FindPart(form.value, "file").None? ==> out == Refused(HttpError(400, "Archivo no válido"))
    ensures form.Some? && FindPart(form.value, "file").Some? && RequestedFormat(query) !in SupportedFormats ==>
              out == Refused(HttpError(400, "Formato no soportado"))
    ensures out.job.Some? <==> form.Some? && FindPart(form.value, "file").Some? && RequestedFormat(query) in SupportedFormats
    ensures out.job.Some? ==>
              && Planned(out.job.value, FindPart(form.value, "file").value.data, RequestedFormat(query), Quality(query))
              && out == RunJob(out.job.value, codec, base64, "Error procesando imagen")
  {
    var format := RequestedFormat(query);
    var quality := Quality(query);

    if form.None? {
      return Refused(HttpError(400, "No file uploaded"));
    }
    var file := FindPart(form.value, "file");
    if file.None? {
      return Refused(HttpError(400, "Archivo no válido"));
    }
    if format !in SupportedFormats {
      return Refused(HttpError(400, "Formato no soportado"));
    }

    var transformer := BuildJob(file.value.data, format, quality);
    out := RunJob(transformer, codec, base64, "Error procesando imagen");
  }
}
