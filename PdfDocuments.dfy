/**
 * PDF documents as the PDF handlers see them: a sequence of pages, each with
 * an identity and a `/Rotate` angle. Parsing and writing PDF bytes belong to
 * the PDF library, which a handler receives as two functions.
 */
module PdfDocuments {
  import opened JsValues
  import opened Http

  /** A page: which page of which upload it is, and its rotation in degrees. */
  datatype Page = Page(id: nat, rotation: int)

  /**
   * The PDF library: `load` parses bytes into the document's pages (None when
   * it throws) and `save` writes a page sequence back to bytes (None when it
   * throws).
   */
  datatype PdfLib = PdfLib(load: Bytes -> Option<seq<Page>>, save: seq<Page> -> Option<Bytes>)

  /**
   * What a PDF request comes to: the reply, and the pages handed to `save`
   * (None when the handler stopped before saving).
   */
  datatype PdfOutcome<R> = PdfOutcome(reply: Result<R>, saved: Option<seq<Page>>)

  // ---------------------------------------------------------------------------
  // Page-sequence operations

  /** All pages of several documents, document after document. */
  function Concat(docs: seq<seq<Page>>): seq<Page> {
    if docs == [] then [] else Concat(docs[..|docs| - 1]) + docs[|docs| - 1]
  }

  /** The sum of the page counts. */
  function TotalPages(docs: seq<seq<Page>>): nat {
    if docs == [] then 0 else TotalPages(docs[..|docs| - 1]) + |docs[|docs| - 1]|
  }

  /** The concatenation has as many pages as the documents together. */
  lemma {:induction false} ConcatLength(docs: seq<seq<Page>>)
    ensures |Concat(docs)| == TotalPages(docs)
  {
    if docs != [] {
      ConcatLength(docs[..|docs| - 1]);
    }
  }

  /** Appending one more document appends its pages. */
  lemma ConcatSnoc(docs: seq<seq<Page>>, pages: seq<Page>)
    ensures Concat(docs + [pages]) == Concat(docs) + pages
  {
    assert (docs + [pages])[..|docs|] == docs;
  }

  /** Concatenation keeps submission order: it distributes over appending documents. */
  lemma {:induction false} ConcatAppend(a: seq<seq<Page>>, b: seq<seq<Page>>)
    ensures Concat(a + b) == Concat(a) + Concat(b)
  {
    if b == [] {
      assert a + b == a;
    } else {
      var b' := b[..|b| - 1];
      assert (a + b)[..|a + b| - 1] == a + b';
      ConcatAppend(a, b');
    }
  }

  /**
   * Page `j` of document `i` sits in the concatenation right after the pages
   * of the documents before it, so within-file order is kept as well.
   */
  lemma {:induction false} ConcatIndex(docs: seq<seq<Page>>, i: nat, j: nat)
    requires i < |docs| && j < |docs[i]|
    ensures TotalPages(docs[..i]) + j < |Concat(docs)|
    ensures Concat(docs)[TotalPages(docs[..i]) + j] == docs[i][j]
  {
    var prefix := docs[..|docs| - 1];
    ConcatLength(prefix);
    ConcatLength(docs);
    if i == |docs| - 1 {
      assert docs[..i] == prefix;
    } else {
      assert prefix[..i] == docs[..i];
      ConcatIndex(prefix, i, j);
    }
  }

  /** Whether every index addresses one of `count` pages. */
  predicate InRange(indices: seq<int>, count: nat) {
    forall k :: 0 <= k < |indices| ==> 0 <= indices[k] < count
  }

  /** The pages at `indices`, in that order, repeats included. */
  function Gather(pages: seq<Page>, indices: seq<int>): (r: seq<Page>)
    requires InRange(indices, |pages|)
    ensures |r| == |indices|
    ensures forall k :: 0 <= k < |indices| ==> r[k] == pages[indices[k]]
  {
    if indices == [] then []
    else
      var front := indices[..|indices| - 1];
      assert InRange(front, |pages|) by {
        forall k | 0 <= k < |front| ensures 0 <= front[k] < |pages| {
          assert front[k] == indices[k];
        }
      }
      Gather(pages, front) + [pages[indices[|indices| - 1]]]
  }

  /** `getPageIndices()`: 0, 1, ..., count - 1. */
  function AllIndices(count: nat): (r: seq<int>)
    ensures |r| == count && InRange(r, count)
    ensures forall k :: 0 <= k < count ==> r[k] == k
  {
    if count == 0 then [] else AllIndices(count - 1) + [count - 1]
  }

  /** Gathering every index in order gives the document back. */
  lemma GatherAll(pages: seq<Page>)
    ensures Gather(pages, AllIndices(|pages|)) == pages
  {
    var r := Gather(pages, AllIndices(|pages|));
    assert forall k :: 0 <= k < |pages| ==> r[k] == pages[k];
  }

  /**
   * The indices a split copies: each 1-based page number `p` becomes `p - 1`,
   * and a number that names no page is skipped.
   */
  function SplitIndices(pageNums: seq<int>, count: nat): (r: seq<int>)
    ensures InRange(r, count) && |r| <= |pageNums|
  {
    if pageNums == [] then []
    else
      var index := pageNums[|pageNums| - 1] - 1;
      SplitIndices(pageNums[..|pageNums| - 1], count) + (if 0 <= index < count then [index] else [])
  }

  /** One more page number: its index is appended when it names a page. */
  lemma SplitIndicesStep(pageNums: seq<int>, k: nat, count: nat)
    requires k < |pageNums|
    ensures SplitIndices(pageNums[..k + 1], count)
            == SplitIndices(pageNums[..k], count) + (if 0 <= pageNums[k] - 1 < count then [pageNums[k] - 1] else [])
  {
    assert pageNums[..k + 1][..k] == pageNums[..k];
  }

  /** The positions of the page numbers that name a page. */
  function InRangeEntries(pageNums: seq<int>, count: nat): set<nat> {
    set k: nat | k < |pageNums| && 1 <= pageNums[k] <= count
  }

  /** A split copies exactly one page per page number that names a page. */
  lemma {:induction false} SplitIndicesLength(pageNums: seq<int>, count: nat)
    ensures |SplitIndices(pageNums, count)| == |InRangeEntries(pageNums, count)|
  {
    if pageNums != [] {
      var n := |pageNums| - 1;
      var front := pageNums[..n];
      SplitIndicesLength(front, count);
      var before := InRangeEntries(front, count);
      var after := InRangeEntries(pageNums, count);
      if 1 <= pageNums[n] <= count {
        assert after == before + {n};
        assert n !in before;
      } else {
        assert after == before;
      }
    }
  }

  /** A split keeps request order: it distributes over appending page numbers. */
  lemma {:induction false} SplitIndicesAppend(a: seq<int>, b: seq<int>, count: nat)
    ensures SplitIndices(a + b, count) == SplitIndices(a, count) + SplitIndices(b, count)
  {
    if b == [] {
      assert a + b == a;
    } else {
      var b' := b[..|b| - 1];
      var last := b[|b| - 1] - 1;
      var tail := if 0 <= last < count then [last] else [];
      assert (a + b)[..|a + b| - 1] == a + b';
      assert (a + b)[|a + b| - 1] == b[|b| - 1];
      assert SplitIndices(a + b, count) == SplitIndices(a + b', count) + tail;
      assert SplitIndices(b, count) == SplitIndices(b', count) + tail;
      SplitIndicesAppend(a, b', count);
    }
  }

  /** When every page number names a page, nothing is skipped and each becomes its 0-based index. */
  lemma {:induction false} SplitIndicesAllInRange(pageNums: seq<int>, count: nat)
    requires forall k :: 0 <= k < |pageNums| ==> 1 <= pageNums[k] <= count
    ensures |SplitIndices(pageNums, count)| == |pageNums|
    ensures forall k :: 0 <= k < |pageNums| ==> SplitIndices(pageNums, count)[k] == pageNums[k] - 1
  {
    if pageNums != [] {
      SplitIndicesAllInRange(pageNums[..|pageNums| - 1], count);
    }
  }

  /** Of the pages 5, 1 and 99 of a five-page document, the fifth and the first are copied. */
  lemma SplitExample()
    ensures SplitIndices([5, 1, 99], 5) == [4, 0]
  {
    assert [5, 1, 99][..2] == [5, 1];
    assert [5, 1][..1] == [5];
    assert [5][..0] == [];
  }

  /** Every page turned by `angle` degrees on top of its own rotation. */
  function Rotated(pages: seq<Page>, angle: int): seq<Page> {
    seq(|pages|, k requires 0 <= k < |pages| => pages[k].(rotation := pages[k].rotation + angle))
  }

  /** The page identities in order. */
  function Ids(pages: seq<Page>): seq<nat> {
    seq(|pages|, k requires 0 <= k < |pages| => pages[k].id)
  }

  /** Rotation keeps the page count and the page order. */
  lemma RotatedKeepsPages(pages: seq<Page>, angle: int)
    ensures |Rotated(pages, angle)| == |pages|
    ensures Ids(Rotated(pages, angle)) == Ids(pages)
  {
  }

  /** Rotating twice adds the angles. */
  lemma RotatedTwice(pages: seq<Page>, a: int, b: int)
    ensures Rotated(Rotated(pages, a), b) == Rotated(pages, a + b)
  {
  }

  /** Two quarter turns are a half turn. */
  lemma QuarterTurnsTwice(pages: seq<Page>)
    ensures Rotated(Rotated(pages, 90), 90) == Rotated(pages, 180)
  {
    RotatedTwice(pages, 90, 90);
  }

  /** No reduction modulo 360: two half turns of an upright page leave it at 360, not 0. */
  lemma NoReductionModulo360(p: Page)
    requires p.rotation == 0
    ensures Rotated(Rotated([p], 180), 180) == [p.(rotation := 360)]
  {
  }

  // ---------------------------------------------------------------------------
  // The document object

  /** A document being read or built by a handler. */
  class PdfDocument {
    var pages: seq<Page>

    /** `PDFDocument.create()`: an empty document. */
    constructor Create()
      ensures pages == []
    {
      pages := [];
    }

    /** The document `PDFDocument.load` parsed. */
    constructor Load(loaded: seq<Page>)
      ensures pages == loaded
    {
      pages := loaded;
    }

    /** `addPage(p)`: appends a page. */
    method AddPage(p: Page)
      modifies this
      ensures pages == old(pages) + [p]
    {
      pages := pages + [p];
    }

    /** `pages.forEach(p => doc.addPage(p))`: appends the pages in order. */
    method AddAll(added: seq<Page>)
      modifies this
      ensures pages == old(pages) + added
    {
      var j := 0;
      while j < |added|
        invariant 0 <= j <= |added|
        invariant pages == old(pages) + added[..j]
      {
        AddPage(added[j]);
        assert added[..j + 1] == added[..j] + [added[j]];
        j := j + 1;
      }
      assert added[..j] == added;
    }

    /** `setRotation` on the page at `i`; the other pages are untouched. */
    method SetRotation(i: nat, angle: int)
      requires i < |pages|
      modifies this
      ensures pages == old(pages)[i := old(pages)[i].(rotation := angle)]
    {
      pages := pages[i := pages[i].(rotation := angle)];
    }

    /**
     * `copyPages(src, indices)`: copies of the pages of `src` at `indices`, in
     * that order, or None (the library throws) when an index names no page.
     * The copies are not yet part of this document.
     */
    method CopyPages(src: PdfDocument, indices: seq<int>) returns (copied: Option<seq<Page>>)
      ensures copied.Some? <==> InRange(indices, |src.pages|)
      ensures copied.Some? ==> copied.value == Gather(src.pages, indices)
    {
      var result: seq<Page> := [];
      var k := 0;
      while k < |indices|
        invariant 0 <= k <= |indices|
        invariant InRange(indices[..k], |src.pages|)
        invariant result == Gather(src.pages, indices[..k])
      {
        var index := indices[k];
        if index < 0 || index >= |src.pages| {
          return None;
        }
        assert indices[..k + 1][..k] == indices[..k];
        result := result + [src.pages[index]];
        k := k + 1;
      }
      assert indices[..k] == indices;
      copied := Some(result);
    }
  }
}
