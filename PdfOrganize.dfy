/**
 * `POST /api/pdf-organize`: rebuild the uploaded `file` with its pages in the
 * order given by the JSON array `order` of 0-based page indices, and reply
 * with the new PDF in base64.
 */
module PdfOrganize {
  import opened JsValues
  import opened Http
  import opened PdfDocuments

  /**
   * The handler. Missing form data is one 400 and a missing `file` or `order`
   * part another. Everything after that escapes as the framework's 500: an
   * `order` that does not parse or is not an array, a file that does not
   * parse, an index that names no page (there is no range check of the
   * handler's own), or a failed save. Otherwise the saved document is the
   * source pages gathered at `order`, repeats and omissions allowed.
   */
  method Organize(form: Option<seq<Part>>, readJson: Bytes -> Json, lib: PdfLib, base64: Bytes -> string)
    returns (out: PdfOutcome<string>)
    ensures form.None? ==> out == PdfOutcome(Err(HttpError(400, "Archivo inválido")), None)
    ensures form.Some? && (FindPart(form.value, "file").None? || FindPart(form.value, "order").None?) ==>
              out == PdfOutcome(Err(HttpError(400, "Datos incompletos")), None)
    ensures out.saved.Some? <==>
              && form.Some? && FindPart(form.value, "file").Some? && FindPart(form.value, "order").Some?
              && readJson(FindPart(form.value, "order").value.data).IntArray?
              && lib.load(FindPart(form.value, "file").value.data).Some?
              && InRange(readJson(FindPart(form.value, "order").value.data).items,
                         |lib.load(FindPart(form.value, "file").value.data).value|)
    ensures out.saved.Some? ==>
              out.saved.value == Gather(lib.load(FindPart(form.value, "file").value.data).value,
                                        readJson(FindPart(form.value, "order").value.data).items)
    ensures out.reply.Err? && form.Some? && FindPart(form.value, "file").Some? && FindPart(form.value, "order").Some? ==>
              out.reply.error == Unhandled
    ensures out.reply.Ok? <==> out.saved.Some? && lib.save(out.saved.value).Some?
    ensures out.reply.Ok? ==> out.reply.value == base64(lib.save(out.saved.value).value)
  {
    if form.None? {
      return PdfOutcome(Err(HttpError(400, "Archivo inválido")), None);
    }
    var file := FindPart(form.value, "file");
    var order := FindPart(form.value, "order");
    if file.None? || order.None? {
      return PdfOutcome(Err(HttpError(400, "Datos incompletos")), None);
    }

    var pageOrder := readJson(order.value.data);
    if !pageOrder.IntArray? {
      return PdfOutcome(Err(Unhandled), None);
    }
    var parsed := lib.load(file.value.data);
    if parsed.None? {
      return PdfOutcome(Err(Unhandled), None);
    }
    var pdfDoc := new PdfDocument.Load(parsed.value);
    var newPdf := new PdfDocument.Create();

    var pages := newPdf.CopyPages(pdfDoc, pageOrder.items);
    if pages.None? {
      return PdfOutcome(Err(Unhandled), None);
    }
    newPdf.AddAll(pages.value);

    var pdfBytes := lib.save(newPdf.pages);
    if pdfBytes.None? {
      return PdfOutcome(Err(Unhandled), Some(newPdf.pages));
    }
    out := PdfOutcome(Ok(base64(pdfBytes.value)), Some(newPdf.pages));
  }

  /** Indices are 0-based: the order [2, 0, 0] of a three-page document gives the third page, then the first twice. */
  lemma OrganizeExample(a: Page, b: Page, c: Page)
    ensures Gather([a, b, c], [2, 0, 0]) == [c, a, a]
  {
  }

  /** A 1-based order on a three-page document, such as [3, 1, 1], names a page that does not exist. */
  lemma OneBasedOrderFails(a: Page, b: Page, c: Page)
    ensures !InRange([3, 1, 1], |[a, b, c]|)
  {
    assert [3, 1, 1][0] == 3;
  }
}
