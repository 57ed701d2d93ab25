/**
 * `POST /api/crop-image`: cut the rectangle `left`, `top`, `width`,
 * `height` out of the uploaded `file` part and reply with it as PNG.
 */
module CropImage {
  import opened JsValues
  import opened Http
  import opened ImagePipeline

  /** `parseInt(query[key]?.toString() || '0')`: absent or empty is 0. */
  function Coordinate(query: Query, key: string): (n: JsNum)
    ensures !QueryTruthy(query, key) ==> n == Int(0)
  {
    ZeroParses();
    ParseInt(OrElse(QueryText(query, key), "0"))
  }

  lemma ZeroParses()
    ensures ParseInt("0") == Int(0)
  {
    assert NatToString(0) == "0";
    ParseIntOfIntToString(0, "");
    assert IntToString(0) + "" == "0";
  }

  /** The single guard `!file || !file.data || !width || !height`. */
  predicate Accepted(query: Query, form: Option<seq<Part>>): (r: bool)
    ensures r ==> form.Some? && FindPart(form.value, "file").Some?
    ensures r ==> QueryTruthy(query, "width") && QueryTruthy(query, "height")
  {
    && form.Some? && FindPart(form.value, "file").Some?
    && Truthy(Coordinate(query, "width")) && Truthy(Coordinate(query, "height"))
  }

  /** A crop with no `width` (or no `height`) in the query is always refused. */
  lemma MissingSizeRefused(query: Query, form: Option<seq<Part>>)
    requires "width" !in query || "height" !in query
    ensures !Accepted(query, form)
  {
  }

  /**
   * The rectangle and encoder handed to the codec: exactly the parsed
   * coordinates, with no upper-bound check, then a PNG encode.
   */
  function CropJob(query: Query, data: Bytes): (job: ImageJob)
    requires Truthy(Coordinate(query, "width")) && Truthy(Coordinate(query, "height"))
    ensures job.input == data && job.outputExt == "png"
    ensures |job.steps| == 2 && job.steps[1] == Encode(Png, None)
    ensures job.steps[0].Extract? && job.steps[0].left == Coordinate(query, "left") && job.steps[0].top == Coordinate(query, "top")
    ensures Int(job.steps[0].areaWidth) == Coordinate(query, "width") && Int(job.steps[0].areaHeight) == Coordinate(query, "height")
  {
    var width := Coordinate(query, "width");
    var height := Coordinate(query, "height");
    ImageJob(data, [Extract(Coordinate(query, "left"), Coordinate(query, "top"), width.value, height.value), Encode(Png, None)], "png")
  }

  /**
   * The handler. A missing file, or a width or height that is 0 or
   * unreadable, is one 400 before any codec call; otherwise the crop job
   * runs, any codec failure (such as a rectangle outside the image) is one
   * 500, and a success is always reported as PNG.
   */
  function Crop(query: Query, form: Option<seq<Part>>, codec: ImageJob -> Option<Bytes>, base64: Bytes -> string): (out: ImageOutcome)
    ensures !Accepted(query, form) ==> out == Refused(HttpError(400, "Faltan parámetros o archivo"))
    ensures out.job.Some? <==> Accepted(query, form)
    ensures out.job.Some? ==>
              && out.job.value == CropJob(query, FindPart(form.value, "file").value.data)
              && out == RunJob(out.job.value, codec, base64, "Error al recortar: asegúrate que el área esté dentro de la imagen")
    ensures out.response.Ok? ==> out.response.value.ext == "png" && out.response.value.mimeType == "image/png"
  {
    assert MimeType("png") == "image/png" by {
      assert "image/" + "png" == "image/png";
    }
    if !Accepted(query, form) then Refused(HttpError(400, "Faltan parámetros o archivo"))
    else RunJob(CropJob(query, FindPart(form.value, "file").value.data), codec, base64,
                "Error al recortar: asegúrate que el área esté dentro de la imagen")
  }
}
