/**
  The packet assembly of the `/generate-packet` handler: the submittal form
  pages, the product information page(s), one section per requested
  document (divider, copied or error pages), the table of contents inserted
  at the position reserved for it, and the selective page numbers.
 */
module Assembler {
  import opened Common
  import opened Pages
  import opened Layout
  import opened Numbering
  import opened TableOfContents

  /** The number of page-break checks on the product information page, in either product branch. */
  const ProductPageBreaks: nat := 4

  /** The page-break checks that fired, by position. */
  ghost function Fired(breaks: seq<bool>): set<nat>
  {
    set i: nat | i < |breaks| && breaks[i]
  }

  /** How many of the product page's page-break checks fired. */
  function CountBreaks(breaks: seq<bool>): (c: nat)
    ensures c == |Fired(breaks)|
  {
    if breaks == [] then 0
    else
      var init := breaks[..|breaks| - 1];
      assert Fired(breaks) == Fired(init) + (if breaks[|breaks| - 1] then {|breaks| - 1} else {});
      CountBreaks(init) + (if breaks[|breaks| - 1] then 1 else 0)
  }

  /** The pages before the table of contents: the form pages, then the product pages. */
  function FrontPages(formPages: nat, productPages: nat): seq<PageKind>
  {
    seq(formPages, i requires 0 <= i => FormPage(i)) + seq(productPages, i requires 0 <= i => ProductPage(i))
  }

  /** The final page list: the table of contents appears at the reserved slot and, as appended, at the end as well. */
  function PacketPages(formPages: nat, productPages: nat, docs: seq<DocumentInput>): seq<PageKind>
  {
    FrontPages(formPages, productPages) + [TocPage] + Body(docs, |docs|) + [TocPage]
  }

  /** The product information page: one page, plus one more each time a page-break check fires. */
  method AddProductInfoPage(pdf: PdfDocument, breaks: seq<bool>)
    requires |breaks| == ProductPageBreaks
    modifies pdf
    ensures pdf.pages == old(pdf.pages) + seq(1 + CountBreaks(breaks), i requires 0 <= i => ProductPage(i))
  {
    pdf.AddPage(ProductPage(0));
    var added := 1;
    for j := 0 to |breaks|
      invariant added == 1 + CountBreaks(breaks[..j])
      invariant pdf.pages == old(pdf.pages) + seq(added, i requires 0 <= i => ProductPage(i))
    {
      assert breaks[..j + 1][..j] == breaks[..j];
      if breaks[j] {
        pdf.AddPage(ProductPage(added));
        added := added + 1;
      }
    }
    assert breaks[..|breaks|] == breaks;
  }

  /** Copies a loaded document's pages one at a time; a page whose copy fails is replaced by an error page. */
  method CopyPages(pdf: PdfDocument, k: nat, ok: seq<bool>)
    modifies pdf
    ensures pdf.pages == old(pdf.pages) + CopiedPages(k, ok)
  {
    for i := 0 to |ok|
      invariant pdf.pages == old(pdf.pages) + CopiedPages(k, ok[..i])
    {
      assert ok[..i + 1][..i] == ok[..i];
      if ok[i] {
        pdf.AddPage(Content(k, i));
      } else {
        pdf.AddPage(ErrorPage(k, PageNotProcessed(i + 1)));
      }
    }
    assert ok[..|ok|] == ok;
  }

  /**
    One pass of the document loop: the divider, then the document's pages
    or the error page standing in for them, and the section record, which
    is absent when the document's load throws.
   */
  method ProcessDocument(pdf: PdfDocument, docs: seq<DocumentInput>, k: nat, currentPageNumber: int)
    returns (next: int, section: Option<DocumentSection>)
    requires k < |docs|
    modifies pdf
    ensures pdf.pages == old(pdf.pages) + DocumentPages(k, docs[k].outcome)
    ensures next == currentPageNumber + Advance(docs[k].outcome)
    ensures section == if docs[k].outcome.LoadThrows? then None else Some(SectionOf(docs[k], currentPageNumber))
  {
    var doc := docs[k];
    ghost var initial := pdf.pages;
    var sectionStartPage := currentPageNumber;
    pdf.AddPage(Divider(k));
    next := currentPageNumber + 1;
    var documentPageCount: nat := 0;
    match doc.outcome {
      case LoadThrows =>
        pdf.AddPage(ErrorPage(k, ProcessingFailed));
        assert pdf.pages == initial + [Divider(k), ErrorPage(k, ProcessingFailed)];
        section := None;
        return;
      case Unavailable =>
        pdf.AddPage(ErrorPage(k, NotLoaded));
        assert pdf.pages == initial + [Divider(k), ErrorPage(k, NotLoaded)];
        next := next + 1;
        documentPageCount := documentPageCount + 1;
      case Loaded(ok) =>
        CopyPages(pdf, k, ok);
        assert pdf.pages == initial + ([Divider(k)] + CopiedPages(k, ok));
        next := next + |ok|;
        documentPageCount := documentPageCount + |ok|;
    }
    section := Some(DocumentSection(doc.name, doc.kind, sectionStartPage, documentPageCount + 1));
  }

  /** The form pages, copied from the filled template, then the product information page(s). */
  method AddFrontPages(pdf: PdfDocument, formPages: nat, breaks: seq<bool>)
    requires |breaks| == ProductPageBreaks
    modifies pdf
    ensures pdf.pages == old(pdf.pages) + FrontPages(formPages, 1 + CountBreaks(breaks))
  {
    for i := 0 to formPages
      invariant pdf.pages == old(pdf.pages) + seq(i, j requires 0 <= j => FormPage(j))
    {
      pdf.AddPage(FormPage(i));
    }
    AddProductInfoPage(pdf, breaks);
  }

  /** The document loop: every document in order, with the page cursor starting at `start`. */
  method ProcessDocuments(pdf: PdfDocument, docs: seq<DocumentInput>, start: int) returns (documentSections: seq<DocumentSection>)
    modifies pdf
    ensures pdf.pages == old(pdf.pages) + Body(docs, |docs|)
    ensures documentSections == Sections(docs, |docs|, start)
  {
    ghost var initial := pdf.pages;
    var currentPageNumber := start;
    documentSections := [];
    for k := 0 to |docs|
      invariant pdf.pages == initial + Body(docs, k)
      invariant currentPageNumber == CursorAfter(docs, k, start)
      invariant documentSections == Sections(docs, k, start)
    {
      var next, section := ProcessDocument(pdf, docs, k, currentPageNumber);
      LoopStep(initial, docs, k, start, section);
      currentPageNumber := next;
      if section.Some? {
        documentSections := documentSections + [section.value];
      }
    }
  }

  /** What one pass of the document loop adds to the page list, the cursor and the section records. */
  lemma LoopStep(initial: seq<PageKind>, docs: seq<DocumentInput>, k: nat, start: int, section: Option<DocumentSection>)
    requires k < |docs|
    requires section == if docs[k].outcome.LoadThrows? then None else Some(SectionOf(docs[k], CursorAfter(docs, k, start)))
    ensures initial + Body(docs, k) + DocumentPages(k, docs[k].outcome) == initial + Body(docs, k + 1)
    ensures CursorAfter(docs, k + 1, start) == CursorAfter(docs, k, start) + Advance(docs[k].outcome)
    ensures section.None? ==> Sections(docs, k + 1, start) == Sections(docs, k, start)
    ensures section.Some? ==> Sections(docs, k + 1, start) == Sections(docs, k, start) + [section.value]
  {
    BodyStep(docs, k);
  }

  /** Inserting into the page list at the boundary of its first part. */
  lemma InsertAtBoundary(a: seq<PageKind>, b: seq<PageKind>, p: PageKind)
    ensures (a + b)[..|a|] + [p] + (a + b)[|a|..] == a + [p] + b
  {
    assert (a + b)[..|a|] == a;
    assert (a + b)[|a|..] == b;
  }

  /**
    Assembles a packet from a form of `formPages` pages, the product page's
    page-break outcomes and the requested documents; `width` measures text
    for the table of contents. Returns the page list, the section records,
    the table of contents rows and the number drawn on each page.
   */
  method AssemblePacket(formPages: nat, breaks: seq<bool>, docs: seq<DocumentInput>, width: string -> real)
    returns (pages: seq<PageKind>, sections: seq<DocumentSection>, rows: seq<TocRow>, labels: seq<Option<nat>>)
    requires |breaks| == ProductPageBreaks
    ensures pages == PacketPages(formPages, 1 + CountBreaks(breaks), docs)
    ensures sections == Sections(docs, |docs|, formPages + 1 + CountBreaks(breaks) + 2)
    ensures IsLayout(sections, rows, width)
    ensures Labelled(labels, NumberedIndices(|pages|, formPages + 1, sections), |pages|)
  {
    var pdf := new PdfDocument();
    AddFrontPages(pdf, formPages, breaks);
    ghost var front := pdf.pages;

    var tocPosition := |pdf.pages|;
    var documentSections := ProcessDocuments(pdf, docs, tocPosition + 2);

    rows := CreateTableOfContents(pdf, documentSections, width);
    InsertAtBoundary(front, Body(docs, |docs|) + [TocPage], TocPage);
    pdf.InsertPage(tocPosition, TocPage);
    labels := AddSelectivePageNumbers(|pdf.pages|, formPages + 1, documentSections);
    pages := pdf.pages;
    sections := documentSections;
  }
}
