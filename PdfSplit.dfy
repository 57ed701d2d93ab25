/**
 * `POST /api/pdf-split`: copy the pages named by the JSON array `pages`
 * (1-based page numbers) out of the uploaded `file` into a new PDF, and send
 * it back as a download.
 */
module PdfSplit {
  import opened JsValues
  import opened Http
  import opened PdfDocuments

  /** The binary reply: `Content-Type`, `Content-Disposition`, `Content-Length` and the body. */
  datatype SplitReply = SplitReply(contentType: string, disposition: string, contentLength: string, body: Bytes)

  /**
   * The one error a caller of this handler ever sees: every failure inside
   * the handler, its own 400s included, is caught and replaced by this 500.
   */
  const Failure := HttpError(500, "Error al procesar el PDF")

  /**
   * The uploaded PDF and the requested page numbers, when the form has a `file`
   * part and a `pages` part holding a non-empty JSON array; None for each of
   * the handler's validation failures (no form, no `file`, no `pages`, a
   * `pages` that does not parse, is not an array, or is empty).
   */
  function Request(form: Option<seq<Part>>, readJson: Bytes -> Json): (r: Option<(Bytes, seq<int>)>)
    ensures r.Some? ==> form.Some? && FindPart(form.value, "file").Some? && r.value.0 == FindPart(form.value, "file").value.data
    ensures r.Some? ==> r.value.1 != []
    ensures r.Some? <==>
              && form.Some? && FindPart(form.value, "file").Some? && FindPart(form.value, "pages").Some?
              && readJson(FindPart(form.value, "pages").value.data).IntArray?
              && readJson(FindPart(form.value, "pages").value.data).items != []
    ensures r.Some? ==> r.value.1 == readJson(FindPart(form.value, "pages").value.data).items
  {
    if form.None? then None
    else
      match (FindPart(form.value, "file"), FindPart(form.value, "pages"))
      case (Some(file), Some(pages)) =>
        (match readJson(pages.data)
         case IntArray(items) => if items != [] then Some((file.data, items)) else None
         case _ => None)
      case _ => None
  }

  /**
   * The handler. The saved document holds, in request order and with repeats,
   * the page `p` for every requested `p` between 1 and the page count; any
   * failure, of validation, parsing, saving or writing the temporary copy, is
   * the single 500. The download is named `split-<id>.pdf` and its
   * `Content-Length` is the decimal byte length of the body, which
   * `ParseIntOfIntToString` reads back.
   */
  method Split(form: Option<seq<Part>>, readJson: Bytes -> Json, lib: PdfLib, tempWriteFails: bool, id: string)
    returns (out: PdfOutcome<SplitReply>)
    ensures out.reply.Err? ==> out.reply.error == Failure
    ensures out.saved.Some? <==> Request(form, readJson).Some? && lib.load(Request(form, readJson).value.0).Some?
    ensures out.saved.Some? ==>
              var source := lib.load(Request(form, readJson).value.0).value;
              out.saved.value == Gather(source, SplitIndices(Request(form, readJson).value.1, |source|))
    ensures out.reply.Ok? <==> out.saved.Some? && lib.save(out.saved.value).Some? && !tempWriteFails
    ensures out.reply.Ok? ==>
              var body := lib.save(out.saved.value).value;
              out.reply.value == SplitReply("application/pdf", "attachment; filename=\"split-" + id + ".pdf\"", NatToString(|body|), body)
  {
    var request := Request(form, readJson);
    if request.None? {
      return PdfOutcome(Err(Failure), None);
    }
    var (data, selectedPages) := request.value;

    var parsed := lib.load(data);
    if parsed.None? {
      return PdfOutcome(Err(Failure), None);
    }
    var pdfDoc := new PdfDocument.Load(parsed.value);
    var newPdf := new PdfDocument.Create();
    CopySelected(pdfDoc, newPdf, selectedPages);

    var pdfBuffer := lib.save(newPdf.pages);
    if pdfBuffer.None? || tempWriteFails {
      return PdfOutcome(Err(Failure), Some(newPdf.pages));
    }
    var reply := SplitReply("application/pdf", "attachment; filename=\"split-" + id + ".pdf\"",
                            NatToString(|pdfBuffer.value|), pdfBuffer.value);
    out := PdfOutcome(Ok(reply), Some(newPdf.pages));
  }

  /**
   * The handler's loop: for each requested page number in turn, the page
   * `p - 1` is copied and added when it exists and skipped otherwise.
   */
  method CopySelected(pdfDoc: PdfDocument, newPdf: PdfDocument, selectedPages: seq<int>)
    requires pdfDoc != newPdf && newPdf.pages == []
    modifies newPdf
    ensures newPdf.pages == Gather(pdfDoc.pages, SplitIndices(selectedPages, |pdfDoc.pages|))
  {
    var pageCount := |pdfDoc.pages|;
    var k := 0;
    while k < |selectedPages|
      invariant 0 <= k <= |selectedPages|
      invariant newPdf.pages == Gather(pdfDoc.pages, SplitIndices(selectedPages[..k], pageCount))
    {
      SplitIndicesStep(selectedPages, k, pageCount);
      var index := selectedPages[k] - 1;
      if 0 <= index < pageCount {
        var page := newPdf.CopyPages(pdfDoc, [index]);
        newPdf.AddPage(page.value[0]);
        GatherSnoc(pdfDoc.pages, SplitIndices(selectedPages[..k], pageCount), index);
      }
      k := k + 1;
    }
    assert selectedPages[..k] == selectedPages;
  }

  /** Gathering one more index appends that page. */
  lemma GatherSnoc(pages: seq<Page>, indices: seq<int>, index: int)
    requires InRange(indices, |pages|) && 0 <= index < |pages|
    ensures InRange(indices + [index], |pages|)
    ensures Gather(pages, indices + [index]) == Gather(pages, indices) + [pages[index]]
  {
    assert (indices + [index])[..|indices|] == indices;
  }

  /** A form without a `pages` part gets the 500, not the handler's own 400. */
  lemma MissingPagesIsFailure(form: seq<Part>, readJson: Bytes -> Json)
    requires FindPart(form, "pages").None?
    ensures Request(Some(form), readJson).None?
  {
  }
}
