/**
  The entities of the packet assembler: the kinds of page the output
  document can hold, the section records kept for the table of contents,
  the outcome of reading one input document, and the output document
  itself, which the assembler changes page by page.
 */
module Pages {

  /** The message an error page carries. */
  datatype ErrorReason =
    | PageNotProcessed(page: nat)  // "Page <page> could not be processed", page is 1-based
    | NotLoaded                    // "Document could not be loaded"
    | ProcessingFailed             // "Document processing failed"

  /** One page of the assembled packet, named by what produced it. */
  datatype PageKind =
    | FormPage(index: nat)                  // a page of the submittal form (template or generated cover)
    | ProductPage(index: nat)               // a page of the product information sheet
    | TocPage                               // the table of contents
    | Divider(doc: nat)                     // the divider that opens document `doc`
    | Content(doc: nat, page: nat)         // page `page` (0-based) copied from document `doc`
    | ErrorPage(doc: nat, reason: ErrorReason)

  /** Every section spans its divider, so its page count is at least one. */
  type PageCount = n: int | n >= 1 witness 1

  /** The record kept per processed document for the table of contents. */
  datatype DocumentSection = DocumentSection(name: string, kind: string, startPage: int, pageCount: PageCount)

  /**
    What happens when the assembler reads one document:
    - Unavailable: no bytes (failed fetch, failed base64 decode, no payload);
    - Loaded(copyOk): the bytes parse; copyOk[i] says whether copying page i succeeds;
    - LoadThrows: the bytes do not parse, and the exception leaves the per-document block.
   */
  datatype DocOutcome = Unavailable | Loaded(copyOk: seq<bool>) | LoadThrows

  /** One requested document: its display name, its type and what reading it yields. */
  datatype DocumentInput = DocumentInput(name: string, kind: string, outcome: DocOutcome)

  /** The output document: an ordered list of pages, appended to and inserted into. */
  class PdfDocument {
    var pages: seq<PageKind>

    constructor ()
      ensures pages == []
    {
      pages := [];
    }

    /** Appends a page at the end. */
    method AddPage(p: PageKind)
      modifies this
      ensures pages == old(pages) + [p]
    {
      pages := pages + [p];
    }

    /** Inserts a page so that it occupies 0-based position `index`. */
    method InsertPage(index: nat, p: PageKind)
      requires index <= |pages|
      modifies this
      ensures pages == old(pages)[..index] + [p] + old(pages)[index..]
      ensures |pages| == |old(pages)| + 1 && pages[index] == p
    {
      pages := pages[..index] + [p] + pages[index..];
    }
  }
}
