/**
 * The transform plan the image handlers hand to the image codec, and the
 * JSON envelope they send back. The codec itself (decoding, resizing,
 * extracting, encoding, and the PNG-to-ICO conversion) is a collaborator the
 * model does not look into: a handler receives it as a function from a job to
 * the encoded bytes, or None when the codec throws.
 */
module ImagePipeline {
  import opened JsValues
  import opened Http

  /** The encoders the handlers select explicitly. */
  datatype Codec = Jpeg | Png | Webp | Tiff

  /** A padding colour; `alpha` 0 is fully transparent. */
  datatype Rgba = Rgba(r: nat, g: nat, b: nat, alpha: nat)

  const Transparent := Rgba(0, 0, 0, 0)

  /** One call on the codec's builder, in the order the handler makes it. */
  datatype Step =
    | Resize(width: Option<JsNum>, height: Option<JsNum>, fit: string, withoutEnlargement: bool, background: Rgba)
    | Extract(left: JsNum, top: JsNum, areaWidth: int, areaHeight: int)
      /** An explicit encoder; `quality` None means the encoder's own default. */
    | Encode(codec: Codec, quality: Option<JsNum>)
      /** The PNG bytes produced so far are converted into an ICO container. */
    | ConvertToIco

  /**
   * A job for the codec: the uploaded bytes, the builder calls, and the
   * extension of the temporary output path (from which the codec picks the
   * output format when no explicit encoder is among the steps).
   */
  datatype ImageJob = ImageJob(input: Bytes, steps: seq<Step>, outputExt: string) {
    function Then(step: Step): ImageJob {
      this.(steps := steps + [step])
    }
  }

  /** The JSON body of a successful image request. */
  datatype ImageResponse = ImageResponse(file: string, ext: string, mimeType: string, fileLength: nat)

  /**
   * What an image request comes to: the reply, the job handed to the codec
   * (None when the request was refused before any codec call), and whether
   * the handler asked for its temporary file to be removed.
   */
  datatype ImageOutcome = ImageOutcome(response: Result<ImageResponse>, job: Option<ImageJob>, tempUnlinked: bool)

  /** A request refused before the codec is reached. */
  function Refused(e: HttpError): ImageOutcome {
    ImageOutcome(Err(e), None, false)
  }

  /** The ICO target: a 256x256 `contain` render on a transparent canvas, encoded as PNG, then converted. */
  const IcoSteps: seq<Step> :=
    [Resize(Some(Int(256)), Some(Int(256)), "contain", false, Transparent), Encode(Png, None), ConvertToIco]

  /**
   * The `format` query parameter of compress-image and convert-image: a
   * string is lower-cased, an absent or repeated `format` is `png`.
   */
  function RequestedFormat(query: Query): (f: string)
    ensures "format" !in query || query["format"].Many? ==> f == "png"
    ensures "format" in query && query["format"].One? ==> f == ToLowerAscii(query["format"].text)
    ensures forall i :: 0 <= i < |f| ==> !('A' <= f[i] <= 'Z')
  {
    match QueryString(query, "format")
    case None => "png"
    case Some(s) => ToLowerAscii(s)
  }

  /** The file extension for a format: `jpg` is written `jpeg`. */
  function ExtFor(format: string): (ext: string)
    ensures ext != "jpg"
    ensures format != "jpg" ==> ext == format
    ensures ext == "jpeg" <==> format == "jpg" || format == "jpeg"
  {
    if format == "jpg" then "jpeg" else format
  }

  function MimeType(ext: string): string {
    "image/" + ext
  }

  /** A base64 data URI: `data:<media type>;base64,<payload>`. */
  function DataUri(mediaType: string, payload: string): string {
    "data:" + mediaType + ";base64," + payload
  }

  /** The position of the first `c` in `s`, or `|s|`. */
  function IndexOf(s: string, c: char): (k: nat)
    ensures k <= |s|
    ensures forall j :: 0 <= j < k ==> s[j] != c
    ensures k < |s| ==> s[k] == c
  {
    if s == [] || s[0] == c then 0 else 1 + IndexOf(s[1..], c)
  }

  /** Reads a base64 data URI back into its media type and payload. */
  function ParseDataUri(s: string): Option<(string, string)> {
    if |s| < 5 || s[..5] != "data:" then None
    else
      var rest := s[5..];
      var k := IndexOf(rest, ';');
      var tail := rest[k..];
      if |tail| >= 8 && tail[..8] == ";base64," then Some((rest[..k], tail[8..])) else None
  }

  /** A data URI whose media type has no `;` reads back as the media type and payload it was built from. */
  lemma ParseDataUriOfDataUri(mediaType: string, payload: string)
    requires ';' !in mediaType
    ensures ParseDataUri(DataUri(mediaType, payload)) == Some((mediaType, payload))
  {
    var s := DataUri(mediaType, payload);
    assert s[..5] == "data:";
    var rest := s[5..];
    assert rest == mediaType + ";base64," + payload;
    assert rest[..|mediaType|] == mediaType;
    IndexOfAt(rest, |mediaType|, ';');
    assert rest[|mediaType|..][..8] == ";base64,";
    assert rest[|mediaType|..][8..] == payload;
  }

  lemma {:induction false} IndexOfAt(s: string, k: nat, c: char)
    requires k < |s| && s[k] == c
    requires forall j :: 0 <= j < k ==> s[j] != c
    ensures IndexOf(s, c) == k
  {
    if k > 0 {
      IndexOfAt(s[1..], k - 1, c);
    }
  }

  /**
   * The success envelope for `buffer` written with extension `ext`: the
   * payload is a data URI whose media type is the reported `mimeType`, and
   * `fileLength` is the byte length of the encoded image.
   */
  function Envelope(ext: string, buffer: Bytes, base64: Bytes -> string): (r: ImageResponse)
    ensures r.ext == ext && r.mimeType == MimeType(ext) && r.fileLength == |buffer|
    ensures ';' !in ext ==> ParseDataUri(r.file) == Some((r.mimeType, base64(buffer)))
  {
    var uri := "data:image/" + ext + ";base64," + base64(buffer);
    assert ';' !in ext ==> ParseDataUri(uri) == Some((MimeType(ext), base64(buffer))) by {
      assert uri == DataUri(MimeType(ext), base64(buffer));
      if ';' !in ext {
        assert ';' !in MimeType(ext);
        ParseDataUriOfDataUri(MimeType(ext), base64(buffer));
      }
    }
    ImageResponse(uri, ext, MimeType(ext), |buffer|)
  }

  /**
   * The `try` block every image handler ends with: run the job; on success
   * reply with the envelope and remove the temporary file; on any codec,
   * write or read failure reply 500 with the handler's message and leave the
   * temporary file alone.
   */
  function RunJob(job: ImageJob, codec: ImageJob -> Option<Bytes>, base64: Bytes -> string, failure: string): (out: ImageOutcome)
    ensures out.job == Some(job)
    ensures out.tempUnlinked <==> codec(job).Some?
    ensures codec(job).None? ==> out.response == Err(HttpError(500, failure))
    ensures codec(job).Some? ==> out.response == Ok(Envelope(job.outputExt, codec(job).value, base64))
  {
    match codec(job)
    case None => ImageOutcome(Err(HttpError(500, failure)), Some(job), false)
    case Some(buffer) => ImageOutcome(Ok(Envelope(job.outputExt, buffer, base64)), Some(job), true)
  }

  /**
   * Every explicit quality that is a number lies in [1, 100], and a PNG
   * quality in [1, 90].
   */
  predicate QualitiesBounded(steps: seq<Step>) {
    forall i :: 0 <= i < |steps| && steps[i].Encode? && steps[i].quality.Some? && steps[i].quality.value.Int? ==>
      1 <= steps[i].quality.value.value <= (if steps[i].codec == Png then 90 else 100)
  }

  lemma SingleEncodeBounded(c: Codec, q: Option<JsNum>)
    requires q.Some? && q.value.Int? ==> 1 <= q.value.value <= (if c == Png then 90 else 100)
    ensures QualitiesBounded([Encode(c, q)])
  {
  }

  lemma IcoStepsBounded()
    ensures QualitiesBounded(IcoSteps)
  {
  }
}
