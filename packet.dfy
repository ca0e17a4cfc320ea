/**
  Properties of the assembled packet as a whole: where each section's pages
  land once the table of contents is inserted, where the table of contents
  appears, and how the drawn page numbers line up with the dividers and
  with the page numbers the table of contents prints.
 */
module Packet {
  import opened Common
  import opened Pages
  import opened Layout
  import opened Numbering
  import opened Assembler

  /** The layout of the page list: front pages, the inserted table of contents, the document pages, the appended one. */
  lemma PacketShape(formPages: nat, productPages: nat, docs: seq<DocumentInput>)
    ensures |PacketPages(formPages, productPages, docs)| == formPages + productPages + 2 + |Body(docs, |docs|)|
    ensures forall x :: 0 <= x < formPages ==> PacketPages(formPages, productPages, docs)[x] == FormPage(x)
    ensures forall x :: formPages <= x < formPages + productPages ==> PacketPages(formPages, productPages, docs)[x] == ProductPage(x - formPages)
    ensures PacketPages(formPages, productPages, docs)[formPages + productPages] == TocPage
    ensures PacketPages(formPages, productPages, docs)[|PacketPages(formPages, productPages, docs)| - 1] == TocPage
  {
    var front := FrontPages(formPages, productPages);
    var pages := PacketPages(formPages, productPages, docs);
    assert pages == front + ([TocPage] + Body(docs, |docs|) + [TocPage]);
    forall x | 0 <= x < formPages + productPages ensures pages[x] == front[x] {
      ConcatIndexLeft(front, [TocPage] + Body(docs, |docs|) + [TocPage], x);
    }
  }

  /** The packet's length: the front pages, the table of contents twice and the document pages. */
  lemma PacketLength(formPages: nat, productPages: nat, docs: seq<DocumentInput>)
    ensures |PacketPages(formPages, productPages, docs)| == formPages + productPages + 2 + |Body(docs, |docs|)|
  {
  }

  /** Page y of the document pages sits at index y after the front pages and the inserted table of contents. */
  lemma PacketAt(formPages: nat, productPages: nat, docs: seq<DocumentInput>, y: int, x: int)
    requires 0 <= y < |Body(docs, |docs|)| && x == formPages + productPages + 1 + y
    ensures 0 <= x < |PacketPages(formPages, productPages, docs)|
    ensures PacketPages(formPages, productPages, docs)[x] == Body(docs, |docs|)[y]
  {
    var head := FrontPages(formPages, productPages) + [TocPage];
    assert PacketPages(formPages, productPages, docs) == head + (Body(docs, |docs|) + [TocPage]);
    ConcatIndex(head, Body(docs, |docs|) + [TocPage], x, y);
  }

  /**
    The table of contents page object is listed twice: at the reserved slot
    where it is inserted and, because creating it already appended it, as
    the last page. No other page is a table of contents.
   */
  lemma TocTwice(formPages: nat, productPages: nat, docs: seq<DocumentInput>)
    ensures var pages := PacketPages(formPages, productPages, docs);
      forall x :: 0 <= x < |pages| ==> (pages[x] == TocPage <==> x == formPages + productPages || x == |pages| - 1)
  {
    var pages := PacketPages(formPages, productPages, docs);
    PacketShape(formPages, productPages, docs);
    forall x | formPages + productPages < x < |pages| - 1 ensures pages[x] != TocPage {
      var y := x - (formPages + productPages + 1);
      PacketAt(formPages, productPages, docs, y, x);
      var i, j := BodyLocate(docs, |docs|, y);
      DocumentPagesCount(i, docs[i].outcome);
    }
  }

  /**
    On the normal path, page j of section i's span sits at 1-based position
    startPage + j of the finished packet (0-based index startPage - 1 + j),
    and for j = 0 that page is the section's divider.
   */
  lemma SectionInPacket(formPages: nat, productPages: nat, docs: seq<DocumentInput>, i: nat, j: nat, x: int)
    requires NoThrows(docs, |docs|) && i < |docs| && j < |DocumentPages(i, docs[i].outcome)|
    requires |Sections(docs, |docs|, formPages + productPages + 2)| == |docs|
    requires x == Sections(docs, |docs|, formPages + productPages + 2)[i].startPage - 1 + j
    ensures 0 <= x < |PacketPages(formPages, productPages, docs)|
    ensures PacketPages(formPages, productPages, docs)[x] == DocumentPages(i, docs[i].outcome)[j]
    ensures j == 0 ==> PacketPages(formPages, productPages, docs)[x] == Divider(i)
  {
    var s := SectionStart(docs, |docs|, formPages + productPages + 2, i);
    BodyAt(docs, i, |docs|, j, |Body(docs, i)| + j);
    PacketAt(formPages, productPages, docs, |Body(docs, i)| + j, x);
    DocumentPagesCount(i, docs[i].outcome);
  }

  /** On the normal path every divider in the packet is the first page of a section. */
  lemma DividerIsSectionStart(formPages: nat, productPages: nat, docs: seq<DocumentInput>, x: int) returns (i: nat)
    requires NoThrows(docs, |docs|)
    requires 0 <= x < |PacketPages(formPages, productPages, docs)| && PacketPages(formPages, productPages, docs)[x].Divider?
    ensures i < |docs| && |Sections(docs, |docs|, formPages + productPages + 2)| == |docs|
    ensures x == Sections(docs, |docs|, formPages + productPages + 2)[i].startPage - 1
    ensures PacketPages(formPages, productPages, docs)[x] == Divider(i)
  {
    PacketShape(formPages, productPages, docs);
    var y := x - (formPages + productPages + 1);
    PacketAt(formPages, productPages, docs, y, x);
    var j;
    i, j := BodyLocate(docs, |docs|, y);
    DocumentPagesCount(i, docs[i].outcome);
    var s := SectionStart(docs, |docs|, formPages + productPages + 2, i);
  }

  /**
    On the normal path the last section ends where the packet's last page,
    the appended table of contents, begins, so the packet's length is the
    final page cursor.
   */
  lemma PacketEndsAtCursor(formPages: nat, productPages: nat, docs: seq<DocumentInput>)
    requires NoThrows(docs, |docs|)
    ensures |PacketPages(formPages, productPages, docs)| == CursorAfter(docs, |docs|, formPages + productPages + 2)
  {
    PacketShape(formPages, productPages, docs);
    NoThrowsHasNoThrows(docs, |docs|);
    CursorTracksPages(docs, |docs|, formPages + productPages + 2);
  }

  /**
    On the normal path the sections are contiguous from the cursor's start
    and the last one ends at the packet's end.
   */
  lemma NormalSections(formPages: nat, productPages: nat, docs: seq<DocumentInput>, ss: seq<DocumentSection>)
    requires NoThrows(docs, |docs|) && ss == Sections(docs, |docs|, formPages + productPages + 2)
    ensures |ss| == |docs|
    ensures |ss| > 0 ==> ss[0].startPage == formPages + productPages + 2
    ensures forall m :: 0 < m < |ss| ==> ss[m].startPage == ss[m - 1].startPage + ss[m - 1].pageCount
    ensures |ss| > 0 ==> ss[|ss| - 1].startPage + ss[|ss| - 1].pageCount == |PacketPages(formPages, productPages, docs)|
  {
    SectionsContiguous(docs, |docs|, formPages + productPages + 2);
    PacketEndsAtCursor(formPages, productPages, docs);
  }

  /**
    The numbering walk starts at index formPages + 2, one past the page it
    takes for the table of contents; section i's divider is at index
    startPage - 1, which is the walk's i-th offset moved by the product
    pages beyond the first.
   */
  lemma DividerAtOffset(formPages: nat, productPages: nat, docs: seq<DocumentInput>, ss: seq<DocumentSection>, i: nat)
    requires productPages >= 1 && NoThrows(docs, |docs|) && ss == Sections(docs, |docs|, formPages + productPages + 2)
    requires i < |docs|
    ensures |ss| == |docs|
    ensures ss[i].startPage - 1 == DividerOffsets(formPages + 2, ss)[i] + (productPages - 1)
  {
    NormalSections(formPages, productPages, docs, ss);
    ContiguousAreOffsets(ss, formPages + 2, productPages, i);
  }

  /** With a one-page product sheet every divider is within the packet, so the walk numbers all of them. */
  lemma AlignedWalk(formPages: nat, docs: seq<DocumentInput>, pages: seq<PageKind>, ss: seq<DocumentSection>)
    requires NoThrows(docs, |docs|)
    requires pages == PacketPages(formPages, 1, docs) && ss == Sections(docs, |docs|, formPages + 3)
    ensures |ss| == |docs| && formPages + 1 < |pages|
    ensures |LeadingIndices(|pages|, formPages + 1)| == formPages + 2
    ensures DividerIndices(formPages + 2, ss, |pages|) == DividerOffsets(formPages + 2, ss)
  {
    NormalSections(formPages, 1, docs, ss);
    PacketLength(formPages, 1, docs);
    if |ss| > 0 {
      DividerAtOffset(formPages, 1, docs, ss, |ss| - 1);
    }
    DividerIndicesAllFit(formPages + 2, ss, |pages|);
  }

  /**
    With a one-page product sheet on the normal path, section i's divider
    gets the number formPages + 3 + i: after the formPages + 1 front pages
    and the table of contents, the dividers are numbered in order.
   */
  lemma DividerLabel(formPages: nat, docs: seq<DocumentInput>, pages: seq<PageKind>, ss: seq<DocumentSection>, labels: seq<Option<nat>>, i: nat)
    requires NoThrows(docs, |docs|)
    requires pages == PacketPages(formPages, 1, docs) && ss == Sections(docs, |docs|, formPages + 3)
    requires Labelled(labels, NumberedIndices(|pages|, formPages + 1, ss), |pages|)
    requires i < |docs|
    ensures |ss| == |docs| && 0 <= ss[i].startPage - 1 < |labels|
    ensures labels[ss[i].startPage - 1] == Some(formPages + 3 + i)
  {
    AlignedWalk(formPages, docs, pages, ss);
    DividerAtOffset(formPages, 1, docs, ss, i);
    var lead := LeadingIndices(|pages|, formPages + 1);
    var walk := DividerIndices(formPages + 2, ss, |pages|);
    ConcatIndex(lead, walk, formPages + 2 + i, i);
    LabelAt(labels, lead + walk, |pages|, formPages + 2 + i);
  }

  /**
    When the product information takes one page (no page break fires) and
    no document load throws, the numbers are drawn where the numbering
    intends: entries 0 to formPages + 1 of the page list (the front pages
    and the table of contents slot) get 1 to formPages + 2, section i's
    divider gets formPages + 3 + i, and no other entry gets a number drawn
    at its index. `labels` records the drawing calls per entry; the trailing
    table of contents entry gets none of its own, but it is the same page
    object as the slot's and shows that number (TrailingTocShowsItsNumber).
   */
  lemma NumberingAligned(formPages: nat, docs: seq<DocumentInput>, pages: seq<PageKind>, ss: seq<DocumentSection>, labels: seq<Option<nat>>)
    requires NoThrows(docs, |docs|)
    requires pages == PacketPages(formPages, 1, docs) && ss == Sections(docs, |docs|, formPages + 3)
    requires Labelled(labels, NumberedIndices(|pages|, formPages + 1, ss), |pages|)
    ensures |ss| == |docs| && |labels| == |pages|
    ensures forall i :: 0 <= i < |ss| ==> 0 <= ss[i].startPage - 1 < |labels| && labels[ss[i].startPage - 1] == Some(formPages + 3 + i)
    ensures forall x :: 0 <= x < |labels| ==> (labels[x].Some? <==> x <= formPages + 1 || pages[x].Divider?)
  {
    SectionsCount(docs, |docs|, formPages + 3);
    forall i | 0 <= i < |ss| ensures 0 <= ss[i].startPage - 1 < |labels| && labels[ss[i].startPage - 1] == Some(formPages + 3 + i) {
      DividerLabel(formPages, docs, pages, ss, labels, i);
    }
    forall x | 0 <= x < |labels| ensures labels[x].Some? <==> x <= formPages + 1 || pages[x].Divider? {
      NumberedAt(formPages, docs, pages, ss, x);
    }
  }

  /**
    The numbers drawn onto the page object listed at index x. Every entry of
    the page list is a page object of its own, except the table of
    contents: it is created by appending and then inserted again, so its
    two entries are one page, and a number drawn at either shows on both.
   */
  ghost function DrawnOn(pages: seq<PageKind>, labels: seq<Option<nat>>, x: nat): set<nat>
    requires |labels| == |pages| && x < |pages|
  {
    set y | 0 <= y < |pages| && labels[y].Some? && (y == x || (pages[x] == TocPage && pages[y] == TocPage)) :: labels[y].value
  }

  /**
    With a one-page product sheet on the normal path, the last page of the
    packet is the table of contents and shows the number formPages + 2, the
    one drawn at the reserved slot, although no number is drawn at the last
    index itself; the slot shows the same single number.
   */
  lemma TrailingTocShowsItsNumber(formPages: nat, docs: seq<DocumentInput>, pages: seq<PageKind>, ss: seq<DocumentSection>, labels: seq<Option<nat>>)
    requires NoThrows(docs, |docs|)
    requires pages == PacketPages(formPages, 1, docs) && ss == Sections(docs, |docs|, formPages + 3)
    requires Labelled(labels, NumberedIndices(|pages|, formPages + 1, ss), |pages|)
    ensures |labels| == |pages| && formPages + 1 < |pages| - 1
    ensures pages[|pages| - 1] == pages[formPages + 1] == TocPage
    ensures labels[formPages + 1] == Some(formPages + 2) && labels[|pages| - 1] == None
    ensures DrawnOn(pages, labels, |pages| - 1) == DrawnOn(pages, labels, formPages + 1) == {formPages + 2}
  {
    var last := |pages| - 1;
    var slot := formPages + 1;
    PacketShape(formPages, 1, docs);
    TocTwice(formPages, 1, docs);
    AlignedWalk(formPages, docs, pages, ss);
    var lead := LeadingIndices(|pages|, slot);
    var walk := DividerIndices(slot + 1, ss, |pages|);
    assert lead[slot] == slot;
    ConcatIndexLeft(lead, walk, slot);
    LabelAt(labels, lead + walk, |pages|, slot);
    NumberedAt(formPages, docs, pages, ss, last);
    UnlabelledAt(labels, lead + walk, |pages|, last);
    SharedPageNumbers(pages, labels, slot, last);
  }

  /**
    A page object listed at two indices, one of them numbered and the other
    not, shows the one number at both; no other entry is that page object.
   */
  lemma SharedPageNumbers(pages: seq<PageKind>, labels: seq<Option<nat>>, slot: nat, last: nat)
    requires |labels| == |pages| && slot < last < |pages|
    requires forall x :: 0 <= x < |pages| ==> (pages[x] == TocPage <==> x == slot || x == last)
    requires labels[slot].Some? && labels[last] == None
    ensures DrawnOn(pages, labels, last) == DrawnOn(pages, labels, slot) == {labels[slot].value}
  {
    var v := labels[slot].value;
    forall n | n in DrawnOn(pages, labels, last) ensures n == v {
      var y :| 0 <= y < |pages| && labels[y].Some? && (y == last || (pages[last] == TocPage && pages[y] == TocPage)) && labels[y].value == n;
    }
    forall n | n in DrawnOn(pages, labels, slot) ensures n == v {
      var y :| 0 <= y < |pages| && labels[y].Some? && (y == slot || (pages[slot] == TocPage && pages[y] == TocPage)) && labels[y].value == n;
    }
    assert v in DrawnOn(pages, labels, last);
    assert v in DrawnOn(pages, labels, slot);
  }

  /** A page carries a number exactly when it is a front page, the table of contents slot or a divider. */
  lemma NumberedAt(formPages: nat, docs: seq<DocumentInput>, pages: seq<PageKind>, ss: seq<DocumentSection>, x: nat)
    requires NoThrows(docs, |docs|)
    requires pages == PacketPages(formPages, 1, docs) && ss == Sections(docs, |docs|, formPages + 3)
    requires x < |pages|
    ensures x in NumberedIndices(|pages|, formPages + 1, ss) <==> x <= formPages + 1 || pages[x].Divider?
  {
    AlignedWalk(formPages, docs, pages, ss);
    InLeading(|pages|, formPages + 1, x);
    var offs := DividerOffsets(formPages + 2, ss);
    assert NumberedIndices(|pages|, formPages + 1, ss) == LeadingIndices(|pages|, formPages + 1) + offs;
    if x in offs {
      OffsetIsDivider(formPages, docs, pages, ss, x);
    }
    if pages[x].Divider? {
      DividerIsOffset(formPages, docs, pages, ss, x);
    }
  }

  /** With a one-page product sheet on the normal path, the walk visits every divider. */
  lemma DividerIsOffset(formPages: nat, docs: seq<DocumentInput>, pages: seq<PageKind>, ss: seq<DocumentSection>, x: nat)
    requires NoThrows(docs, |docs|)
    requires pages == PacketPages(formPages, 1, docs) && ss == Sections(docs, |docs|, formPages + 3)
    requires x < |pages| && pages[x].Divider?
    ensures x in DividerOffsets(formPages + 2, ss)
  {
    var i := DividerIsSectionStart(formPages, 1, docs, x);
    DividerAtOffset(formPages, 1, docs, ss, i);
    assert DividerOffsets(formPages + 2, ss)[i] == x;
  }

  lemma InLeading(len: nat, n: nat, x: nat)
    requires n < len
    ensures x in LeadingIndices(len, n) <==> x <= n
  {
    if x < n {
      assert Range(0, n)[x] == x;
    }
  }

  /** With a one-page product sheet on the normal path, every index the walk visits holds a divider. */
  lemma OffsetIsDivider(formPages: nat, docs: seq<DocumentInput>, pages: seq<PageKind>, ss: seq<DocumentSection>, x: nat)
    requires NoThrows(docs, |docs|)
    requires pages == PacketPages(formPages, 1, docs) && ss == Sections(docs, |docs|, formPages + 3)
    requires x in DividerOffsets(formPages + 2, ss)
    ensures x < |pages| && pages[x].Divider?
  {
    SectionsCount(docs, |docs|, formPages + 3);
    var offs := DividerOffsets(formPages + 2, ss);
    var i :| 0 <= i < |offs| && offs[i] == x;
    DividerAtOffset(formPages, 1, docs, ss, i);
    SectionInPacket(formPages, 1, docs, i, 0, x);
  }

  /**
    Numbering a divider and printing page numbers in the table of contents
    agree only in a special case: on the normal path with a one-page product
    sheet, the number drawn on section i's divider equals the start page the
    table of contents prints for it exactly when every earlier section spans
    a single page.
   */
  lemma DividerNumberMatchesToc(formPages: nat, docs: seq<DocumentInput>, pages: seq<PageKind>, ss: seq<DocumentSection>, labels: seq<Option<nat>>, i: nat)
    requires NoThrows(docs, |docs|)
    requires pages == PacketPages(formPages, 1, docs) && ss == Sections(docs, |docs|, formPages + 3)
    requires Labelled(labels, NumberedIndices(|pages|, formPages + 1, ss), |pages|)
    requires i < |docs|
    ensures |ss| == |docs| && 0 <= ss[i].startPage - 1 < |labels|
    ensures labels[ss[i].startPage - 1] == Some(ss[i].startPage) <==> forall m :: 0 <= m < i ==> ss[m].pageCount == 1
  {
    DividerLabel(formPages, docs, pages, ss, labels, i);
    StartPageUnitIff(formPages, docs, ss, i);
  }

  /** Section i starts on page formPages + 3 + i exactly when every section before it spans one page. */
  lemma StartPageUnitIff(formPages: nat, docs: seq<DocumentInput>, ss: seq<DocumentSection>, i: nat)
    requires NoThrows(docs, |docs|) && ss == Sections(docs, |docs|, formPages + 3) && i < |docs|
    ensures |ss| == |docs|
    ensures ss[i].startPage == formPages + 3 + i <==> forall m :: 0 <= m < i ==> ss[m].pageCount == 1
  {
    DividerAtOffset(formPages, 1, docs, ss, i);
    OffsetsUnitIff(formPages + 2, ss, i);
  }

  /**
    When a page break on the product information page adds pages, the
    numbering, which counts a single product page, falls out of step with
    the packet: the last section's divider gets no number.
   */
  lemma ExtraProductPagesLeaveLastDividerUnnumbered(formPages: nat, productPages: nat, docs: seq<DocumentInput>,
                                                    pages: seq<PageKind>, ss: seq<DocumentSection>, labels: seq<Option<nat>>)
    requires productPages > 1 && NoThrows(docs, |docs|) && |docs| > 0
    requires pages == PacketPages(formPages, productPages, docs) && ss == Sections(docs, |docs|, formPages + productPages + 2)
    requires Labelled(labels, NumberedIndices(|pages|, formPages + 1, ss), |pages|)
    ensures |ss| == |docs| && 0 <= ss[|ss| - 1].startPage - 1 < |pages|
    ensures pages[ss[|ss| - 1].startPage - 1] == Divider(|docs| - 1)
    ensures labels[ss[|ss| - 1].startPage - 1] == None
  {
    var last := |docs| - 1;
    var n := formPages + 1;
    DividerAtOffset(formPages, productPages, docs, ss, last);
    var x := ss[last].startPage - 1;
    SectionInPacket(formPages, productPages, docs, last, 0, x);
    OffsetsMonotone(n + 1, ss, 0, last);
    NotNumbered(|pages|, n, ss, x);
    UnlabelledAt(labels, NumberedIndices(|pages|, n, ss), |pages|, x);
  }
}
