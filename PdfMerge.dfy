/**
 * `POST /api/pdf-merge`: every `files` part is parsed as a PDF and all their
 * pages are appended, file after file, to one new document.
 */
module PdfMerge {
  import opened JsValues
  import opened Http
  import opened PdfDocuments

  /** The binary reply: the `Content-Type` and `Content-Disposition` headers and the body. */
  datatype PdfReply = PdfReply(contentType: string, disposition: string, body: Bytes)

  /** Every upload parsed in submission order, or None as soon as one does not parse. */
  function LoadAll(load: Bytes -> Option<seq<Page>>, uploads: seq<Bytes>): (r: Option<seq<seq<Page>>>)
    ensures r.Some? <==> forall i :: 0 <= i < |uploads| ==> load(uploads[i]).Some?
    ensures r.Some? ==> |r.value| == |uploads| && forall i :: 0 <= i < |uploads| ==> r.value[i] == load(uploads[i]).value
  {
    if uploads == [] then Some([])
    else
      var front := uploads[..|uploads| - 1];
      assert forall i :: 0 <= i < |front| ==> front[i] == uploads[i];
      match LoadAll(load, front)
      case None => None
      case Some(docs) =>
        match load(uploads[|uploads| - 1])
        case None => None
        case Some(pages) => Some(docs + [pages])
  }

  /** Parsing one more upload extends the parsed prefix by its pages. */
  lemma LoadAllSnoc(load: Bytes -> Option<seq<Page>>, uploads: seq<Bytes>, i: nat, loaded: seq<seq<Page>>, pages: seq<Page>)
    requires i < |uploads| && LoadAll(load, uploads[..i]) == Some(loaded) && load(uploads[i]) == Some(pages)
    ensures LoadAll(load, uploads[..i + 1]) == Some(loaded + [pages])
  {
    assert uploads[..i + 1][..i] == uploads[..i];
  }

  /** Parsing two upload lists one after the other parses their concatenation. */
  lemma {:induction false} LoadAllAppend(load: Bytes -> Option<seq<Page>>, a: seq<Bytes>, b: seq<Bytes>)
    requires LoadAll(load, a).Some? && LoadAll(load, b).Some?
    ensures LoadAll(load, a + b) == Some(LoadAll(load, a).value + LoadAll(load, b).value)
  {
    if b == [] {
      assert a + b == a;
      assert LoadAll(load, a).value + LoadAll(load, b).value == LoadAll(load, a).value;
    } else {
      var b' := b[..|b| - 1];
      assert (a + b)[..|a + b| - 1] == a + b';
      assert (a + b)[|a + b| - 1] == b[|b| - 1];
      assert forall i :: 0 <= i < |b'| ==> b'[i] == b[i];
      LoadAllAppend(load, a, b');
      var last := load(b[|b| - 1]).value;
      assert LoadAll(load, b) == Some(LoadAll(load, b').value + [last]);
      assert LoadAll(load, a + b) == Some(LoadAll(load, a + b').value + [last]);
      assert LoadAll(load, a).value + LoadAll(load, b').value + [last]
          == LoadAll(load, a).value + (LoadAll(load, b').value + [last]);
    }
  }

  /** The uploads the handler merges: the data of the parts named `files`, in order. */
  function Uploads(form: seq<Part>): seq<Bytes> {
    DataOf(PartsNamed(form, "files"))
  }

  /**
   * The handler. Missing form data and the absence of any `files` part are
   * 400s; a file that does not parse or a failed save escapes as the
   * framework's 500. Otherwise the saved document is the concatenation of all
   * uploaded documents, and the reply is that PDF shown inline as
   * `merged.pdf`. By `ConcatLength`, it has as many pages as the uploads
   * together.
   */
  method Merge(form: Option<seq<Part>>, lib: PdfLib) returns (out: PdfOutcome<PdfReply>)
    ensures form.None? ==> out.reply == Err(HttpError(400, "No files"))
    ensures form.Some? && Uploads(form.value) == [] ==> out.reply == Err(HttpError(400, "No PDF files provided"))
    ensures out.saved.Some? <==> form.Some? && Uploads(form.value) != [] && LoadAll(lib.load, Uploads(form.value)).Some?
    ensures out.saved.Some? ==> out.saved.value == Concat(LoadAll(lib.load, Uploads(form.value)).value)
    ensures form.Some? && Uploads(form.value) != [] && (out.saved.None? || lib.save(out.saved.value).None?) ==>
              out.reply == Err(Unhandled)
    ensures out.saved.Some? && lib.save(out.saved.value).Some? ==>
              out.reply == Ok(PdfReply("application/pdf", "inline; filename=\"merged.pdf\"", lib.save(out.saved.value).value))
  {
    if form.None? {
      return PdfOutcome(Err(HttpError(400, "No files")), None);
    }
    var files := PartsNamed(form.value, "files");
    if |files| == 0 {
      return PdfOutcome(Err(HttpError(400, "No PDF files provided")), None);
    }
    ghost var uploads := Uploads(form.value);

    var mergedPdf := new PdfDocument.Create();
    ghost var loaded: seq<seq<Page>> := [];
    var i := 0;
    while i < |files|
      invariant 0 <= i <= |files|
      invariant LoadAll(lib.load, uploads[..i]) == Some(loaded)
      invariant mergedPdf.pages == Concat(loaded)
    {
      var parsed := lib.load(files[i].data);
      if parsed.None? {
        assert lib.load(uploads[i]).None?;
        return PdfOutcome(Err(Unhandled), None);
      }
      var pdf := new PdfDocument.Load(parsed.value);
      var pages := mergedPdf.CopyPages(pdf, AllIndices(|pdf.pages|));
      GatherAll(pdf.pages);
      mergedPdf.AddAll(pages.value);
      LoadAllSnoc(lib.load, uploads, i, loaded, parsed.value);
      ConcatSnoc(loaded, parsed.value);
      loaded := loaded + [parsed.value];
      i := i + 1;
    }
    assert uploads[..i] == uploads;

    var pdfBytes := lib.save(mergedPdf.pages);
    if pdfBytes.None? {
      return PdfOutcome(Err(Unhandled), Some(mergedPdf.pages));
    }
    out := PdfOutcome(Ok(PdfReply("application/pdf", "inline; filename=\"merged.pdf\"", pdfBytes.value)), Some(mergedPdf.pages));
  }

  /** The `files` parts of two forms, one after the other. */
  lemma UploadsAppend(a: seq<Part>, b: seq<Part>)
    ensures Uploads(a + b) == Uploads(a) + Uploads(b)
  {
    PartsNamedAppend(a, b, "files");
    var pa := PartsNamed(a, "files");
    var pb := PartsNamed(b, "files");
    assert DataOf(pa + pb) == DataOf(pa) + DataOf(pb);
  }

  /** Submitting the uploads of two forms one after the other merges their documents one after the other. */
  lemma MergeOfTwoForms(a: seq<Part>, b: seq<Part>, lib: PdfLib)
    requires LoadAll(lib.load, Uploads(a)).Some? && LoadAll(lib.load, Uploads(b)).Some?
    ensures LoadAll(lib.load, Uploads(a + b)).Some?
    ensures Concat(LoadAll(lib.load, Uploads(a + b)).value)
            == Concat(LoadAll(lib.load, Uploads(a)).value) + Concat(LoadAll(lib.load, Uploads(b)).value)
  {
    UploadsAppend(a, b);
    LoadAllAppend(lib.load, Uploads(a), Uploads(b));
    ConcatAppend(LoadAll(lib.load, Uploads(a)).value, LoadAll(lib.load, Uploads(b)).value);
  }
}
