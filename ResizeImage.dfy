/**
 * `POST /api/resize-image`: scale the uploaded `file` part within `width`
 * and `height` (either may be left out) using the `fit` strategy, and write
 * it with the extension of `format`, which is not checked against any set.
 */
module ResizeImage {
  import opened JsValues
  import opened Http
  import opened ImagePipeline

  /** `(query.format?.toString() || 'png').toLowerCase()`: absent or empty is `png`. */
  function Format(query: Query): (f: string)
    ensures "format" !in query || query["format"] == One("") ==> f == "png"
    ensures "format" in query && QueryValueText(query["format"]) != "" ==> f == ToLowerAscii(QueryValueText(query["format"]))
    ensures forall i :: 0 <= i < |f| ==> !('A' <= f[i] <= 'Z')
  {
    ToLowerAscii(OrElse(QueryText(query, "format"), "png"))
  }

  /** A truthy dimension is parsed (possibly to NaN); an absent or empty one is null. */
  function Dimension(query: Query, key: string): (d: Option<JsNum>)
    ensures d.None? <==> !QueryTruthy(query, key)
  {
    if QueryTruthy(query, key) then Some(ParseInt(QueryValueText(query[key]))) else None
  }

  /** The fit strategy, `inside` unless given; it is passed to the codec unchecked. */
  function Fit(query: Query): (m: string)
    ensures "fit" !in query || query["fit"] == One("") ==> m == "inside"
    ensures "fit" in query && QueryValueText(query["fit"]) != "" ==> m == QueryValueText(query["fit"])
  {
    OrElse(QueryText(query, "fit"), "inside")
  }

  /** JavaScript truthiness of a nullable dimension: null, NaN and 0 are falsy. */
  predicate DimensionTruthy(d: Option<JsNum>) {
    d.Some? && Truthy(d.value)
  }

  /** The resize step is added exactly when `width || height` is truthy. */
  predicate ResizeRequested(query: Query) {
    DimensionTruthy(Dimension(query, "width")) || DimensionTruthy(Dimension(query, "height"))
  }

  /** With neither `width` nor `height` in the query, nothing is resized. */
  lemma NoDimensionsNoResize(query: Query)
    requires "width" !in query && "height" !in query
    ensures !ResizeRequested(query)
  {
  }

  /** A zero or unreadable dimension counts as absent: `?width=0` alone does not resize. */
  lemma ZeroWidthNoResize(query: Query)
    requires "width" in query && query["width"] == One("0") && "height" !in query
    ensures !ResizeRequested(query)
  {
    assert ParseInt("0") == Int(0) by {
      assert NatToString(0) == "0";
      ParseIntOfIntToString(0, "");
      assert IntToString(0) + "" == "0";
    }
  }

  /** The encoder chosen by extension: JPEG at 95, PNG and WebP at their defaults, none otherwise. */
  predicate EncodedAs(steps: seq<Step>, ext: string) {
    if ext == "jpeg" then steps == [Encode(Jpeg, Some(Int(95)))]
    else if ext == "png" then steps == [Encode(Png, None)]
    else if ext == "webp" then steps == [Encode(Webp, None)]
    else steps == []
  }

  /**
   * The codec calls planned for a query: an optional resize step that never
   * enlarges and pads with transparency, then the encoder chosen by extension.
   */
  predicate Planned(job: ImageJob, data: Bytes, query: Query) {
    var resize := Resize(Dimension(query, "width"), Dimension(query, "height"), Fit(query), true, Transparent);
    && job.input == data
    && job.outputExt == ExtFor(Format(query))
    && (ResizeRequested(query) ==> job.steps != [] && job.steps[0] == resize && EncodedAs(job.steps[1..], job.outputExt))
    && (!ResizeRequested(query) ==> EncodedAs(job.steps, job.outputExt))
  }

  /** Builds the transformer: the conditional resize, then the encoder `switch`. */
  method BuildJob(data: Bytes, query: Query) returns (transformer: ImageJob)
    ensures Planned(transformer, data, query)
  {
    var format := Format(query);
    var width := Dimension(query, "width");
    var height := Dimension(query, "height");
    var fitMode := Fit(query);
    var ext := ExtFor(format);

    transformer := ImageJob(data, [], ext);
    if DimensionTruthy(width) || DimensionTruthy(height) {
      transformer := transformer.Then(Resize(width, height, fitMode, true, Transparent));
    }
    ghost var resized := transformer.steps;
    if ext == "jpeg" {
      transformer := transformer.Then(Encode(Jpeg, Some(Int(95))));
    } else if ext == "png" {
      transformer := transformer.Then(Encode(Png, None));
    } else if ext == "webp" {
      transformer := transformer.Then(Encode(Webp, None));
    }
    assert transformer.steps == resized + transformer.steps[|resized|..];
  }

  /**
   * The handler. A missing `file` part (or missing form data) is the only
   * refusal, a 400 before any codec call; otherwise the planned job runs and
   * its outcome is the reply, whatever format was asked for.
   */
  method ResizeHandler(query: Query, form: Option<seq<Part>>, codec: ImageJob -> Option<Bytes>, base64: Bytes -> string)
    returns (out: ImageOutcome)
    ensures form.None? || FindPart(form.value, "file").None? ==> out == Refused(HttpError(400, "No file uploaded"))
    ensures out.job.Some? <==> form.Some? && FindPart(form.value, "file").Some?
    ensures out.job.Some? ==>
              && Planned(out.job.value, FindPart(form.value, "file").value.data, query)
              && out == RunJob(out.job.value, codec, base64, "Error processing image")
  {
    var file := if form.Some? then FindPart(form.value, "file") else None;
    if file.None? {
      return Refused(HttpError(400, "No file uploaded"));
    }
    var transformer := BuildJob(file.value.data, query);
    out := RunJob(transformer, codec, base64, "Error processing image");
  }
}
