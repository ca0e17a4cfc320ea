/**
  The page layout the assembly loop produces, as functions of its input:
  the pages each document contributes, the page cursor after each document
  and the section records kept for the table of contents. The lemmas state
  what the loop promises about them: the cursor tracks the pages appended,
  sections are contiguous, and each section record points at its divider
  and spans exactly its document's pages, however many copies failed.
 */
module Layout {
  import opened Common
  import opened Pages

  /** The page standing at source page i of document d: the copy, or the error page naming page i + 1. */
  function CopiedPage(d: nat, i: nat, ok: bool): PageKind
  {
    if ok then Content(d, i) else ErrorPage(d, PageNotProcessed(i + 1))
  }

  /** The pages a loaded document contributes after its divider: one per source page. */
  function CopiedPages(d: nat, ok: seq<bool>): (r: seq<PageKind>)
    ensures |r| == |ok|
  {
    seq(|ok|, i requires 0 <= i < |ok| => CopiedPage(d, i, ok[i]))
  }

  /** All pages appended while processing document `d`, divider first. */
  function DocumentPages(d: nat, o: DocOutcome): seq<PageKind>
  {
    match o
    case Unavailable => [Divider(d), ErrorPage(d, NotLoaded)]
    case Loaded(ok) => [Divider(d)] + CopiedPages(d, ok)
    case LoadThrows => [Divider(d), ErrorPage(d, ProcessingFailed)]
  }

  /** How far document processing moves the page cursor. */
  function Advance(o: DocOutcome): PageCount
  {
    match o
    case Unavailable => 2
    case Loaded(ok) => 1 + |ok|
    case LoadThrows => 1
  }

  /** The concatenation of the first k parts. */
  function Flatten(parts: seq<seq<PageKind>>, k: nat): seq<PageKind>
    requires k <= |parts|
  {
    if k == 0 then [] else Flatten(parts, k - 1) + parts[k - 1]
  }

  /** The pages each document contributes, in document order. */
  function Parts(docs: seq<DocumentInput>): (r: seq<seq<PageKind>>)
    ensures |r| == |docs|
  {
    seq(|docs|, i requires 0 <= i < |docs| => DocumentPages(i, docs[i].outcome))
  }

  /** The pages appended for the first k documents, in processing order. */
  function Body(docs: seq<DocumentInput>, k: nat): seq<PageKind>
    requires k <= |docs|
  {
    Flatten(Parts(docs), k)
  }

  /** Processing one more document appends its pages. */
  lemma BodyStep(docs: seq<DocumentInput>, k: nat)
    requires k < |docs|
    ensures Body(docs, k + 1) == Body(docs, k) + DocumentPages(k, docs[k].outcome)
  {
    assert Parts(docs)[k] == DocumentPages(k, docs[k].outcome);
  }

  /** The page cursor after processing the first k documents, starting from `start`. */
  function CursorAfter(docs: seq<DocumentInput>, k: nat, start: int): int
    requires k <= |docs|
  {
    if k == 0 then start else CursorAfter(docs, k - 1, start) + Advance(docs[k - 1].outcome)
  }

  /** The number of documents among the first k whose processing ended in the outer catch. */
  function Throws(docs: seq<DocumentInput>, k: nat): nat
    requires k <= |docs|
  {
    if k == 0 then 0 else Throws(docs, k - 1) + (if docs[k - 1].outcome.LoadThrows? then 1 else 0)
  }

  /** The section record of document d when the cursor stands at `cursor` as it begins. */
  function SectionOf(doc: DocumentInput, cursor: int): DocumentSection
  {
    DocumentSection(doc.name, doc.kind, cursor, Advance(doc.outcome))
  }

  /** The section records for the first k documents, one per document that did not end in the outer catch. */
  function Sections(docs: seq<DocumentInput>, k: nat, start: int): seq<DocumentSection>
    requires k <= |docs|
  {
    if k == 0 then []
    else if docs[k - 1].outcome.LoadThrows? then Sections(docs, k - 1, start)
    else Sections(docs, k - 1, start) + [SectionOf(docs[k - 1], CursorAfter(docs, k - 1, start))]
  }

  /** No document among the first k reaches the outer catch. */
  ghost predicate NoThrows(docs: seq<DocumentInput>, k: nat)
    requires k <= |docs|
  {
    forall i :: 0 <= i < k ==> !docs[i].outcome.LoadThrows?
  }

  /** The number of pages a document contributes: its divider plus its source pages, or two when it is unavailable or fails. */
  lemma DocumentPagesCount(d: nat, o: DocOutcome)
    ensures |DocumentPages(d, o)| == (if o.Loaded? then |o.copyOk| + 1 else 2)
    ensures DocumentPages(d, o)[0] == Divider(d)
    ensures forall i :: 1 <= i < |DocumentPages(d, o)| ==> !DocumentPages(d, o)[i].Divider?
    ensures forall i :: 0 <= i < |DocumentPages(d, o)| ==>
              (DocumentPages(d, o)[i].Divider? || DocumentPages(d, o)[i].Content? || DocumentPages(d, o)[i].ErrorPage?) &&
              DocumentPages(d, o)[i].doc == d
  {
    if o.Loaded? {
      var r := DocumentPages(d, o);
      forall i | 1 <= i < |r| ensures !r[i].Divider? && (r[i].Content? || r[i].ErrorPage?) && r[i].doc == d {
        assert r[i] == CopiedPages(d, o.copyOk)[i - 1];
      }
    }
  }

  /**
    The cursor invariant of the assembly loop: the cursor moves by one per
    appended page except for the page the outer catch appends.
   */
  lemma {:induction false} CursorTracksPages(docs: seq<DocumentInput>, k: nat, start: int)
    requires k <= |docs|
    ensures CursorAfter(docs, k, start) + Throws(docs, k) == start + |Body(docs, k)|
  {
    if k > 0 {
      CursorTracksPages(docs, k - 1, start);
      DocumentPagesCount(k - 1, docs[k - 1].outcome);
    }
  }

  lemma {:induction false} CursorNotBelowStart(docs: seq<DocumentInput>, k: nat, start: int)
    requires k <= |docs|
    ensures CursorAfter(docs, k, start) >= start + k
  {
    if k > 0 {
      CursorNotBelowStart(docs, k - 1, start);
    }
  }

  lemma {:induction false} NoThrowsHasNoThrows(docs: seq<DocumentInput>, k: nat)
    requires k <= |docs| && NoThrows(docs, k)
    ensures Throws(docs, k) == 0
    ensures |Sections(docs, k, 0)| == k
  {
    if k > 0 {
      NoThrowsHasNoThrows(docs, k - 1);
    }
  }

  lemma {:induction false} SectionsCount(docs: seq<DocumentInput>, k: nat, start: int)
    requires k <= |docs| && NoThrows(docs, k)
    ensures |Sections(docs, k, start)| == k
  {
    if k > 0 {
      SectionsCount(docs, k - 1, start);
    }
  }

  /**
    On the normal path the sections are contiguous: the first starts at the
    cursor's start, each next one where the previous one ends, and the last
    one ends at the final cursor.
   */
  lemma {:induction false} SectionsContiguous(docs: seq<DocumentInput>, k: nat, start: int)
    requires k <= |docs| && NoThrows(docs, k)
    ensures |Sections(docs, k, start)| == k
    ensures k > 0 ==> Sections(docs, k, start)[0].startPage == start
    ensures forall i :: 0 < i < k ==>
      Sections(docs, k, start)[i].startPage == Sections(docs, k, start)[i - 1].startPage + Sections(docs, k, start)[i - 1].pageCount
    ensures k > 0 ==> Sections(docs, k, start)[k - 1].startPage + Sections(docs, k, start)[k - 1].pageCount == CursorAfter(docs, k, start)
  {
    if k > 0 {
      SectionsContiguous(docs, k - 1, start);
      var s := Sections(docs, k, start);
      assert s == Sections(docs, k - 1, start) + [s[k - 1]];
      assert forall i :: 0 <= i < k - 1 ==> s[i] == Sections(docs, k - 1, start)[i];
    }
  }

  /** On the normal path the i-th section record is the one document i opened at the cursor reached before it. */
  lemma {:induction false} SectionAt(docs: seq<DocumentInput>, k: nat, start: int, i: nat)
    requires k <= |docs| && NoThrows(docs, k) && i < k
    ensures |Sections(docs, k, start)| == k
    ensures Sections(docs, k, start)[i] == SectionOf(docs[i], CursorAfter(docs, i, start))
  {
    SectionsCount(docs, k - 1, start);
    if i < k - 1 {
      SectionAt(docs, k - 1, start, i);
    }
  }

  /**
    Page j of document i sits right after the pages of the documents before
    it, in the pages of every longer prefix of the document list.
   */
  lemma BodyAt(docs: seq<DocumentInput>, i: nat, k: nat, j: nat, x: int)
    requires i < k <= |docs| && j < |DocumentPages(i, docs[i].outcome)|
    requires x == |Body(docs, i)| + j
    ensures 0 <= x < |Body(docs, k)|
    ensures Body(docs, k)[x] == DocumentPages(i, docs[i].outcome)[j]
  {
    FlattenAt(Parts(docs), i, k, j, x);
  }

  /** Element j of part i sits right after the parts before it, in the concatenation of any longer prefix of the parts. */
  lemma {:induction false} FlattenAt(parts: seq<seq<PageKind>>, i: nat, k: nat, j: nat, x: int)
    requires i < k <= |parts| && j < |parts[i]|
    requires x == |Flatten(parts, i)| + j
    ensures 0 <= x < |Flatten(parts, k)|
    ensures Flatten(parts, k)[x] == parts[i][j]
  {
    if k == i + 1 {
      ConcatIndex(Flatten(parts, i), parts[i], x, j);
    } else {
      FlattenAt(parts, i, k - 1, j, x);
      ConcatIndexLeft(Flatten(parts, k - 1), parts[k - 1], x);
    }
  }

  /** Every page of `Body` is page j of the pages of one document i, at its place after the documents before it. */
  lemma BodyLocate(docs: seq<DocumentInput>, k: nat, y: int) returns (i: nat, j: nat)
    requires k <= |docs| && 0 <= y < |Body(docs, k)|
    ensures i < k && j < |DocumentPages(i, docs[i].outcome)|
    ensures y == |Body(docs, i)| + j
    ensures Body(docs, k)[y] == DocumentPages(i, docs[i].outcome)[j]
  {
    i, j := FlattenLocate(Parts(docs), k, y);
    assert Parts(docs)[i] == DocumentPages(i, docs[i].outcome);
  }

  lemma {:induction false} FlattenLocate(parts: seq<seq<PageKind>>, k: nat, y: int) returns (i: nat, j: nat)
    requires k <= |parts| && 0 <= y < |Flatten(parts, k)|
    ensures i < k && j < |parts[i]|
    ensures y == |Flatten(parts, i)| + j
    ensures Flatten(parts, k)[y] == parts[i][j]
  {
    var before := Flatten(parts, k - 1);
    if y < |before| {
      i, j := FlattenLocate(parts, k - 1, y);
      ConcatIndexLeft(before, parts[k - 1], y);
    } else {
      i, j := k - 1, y - |before|;
      ConcatIndex(before, parts[k - 1], y, j);
    }
  }

  /**
    On the normal path section i belongs to document i, and the pages from
    its start page on, for its page count, are exactly that document's pages
    (positions in `Body` are relative to `start`).
   */
  lemma SectionCoversDocument(docs: seq<DocumentInput>, k: nat, start: int, i: nat) returns (s: DocumentSection)
    requires k <= |docs| && NoThrows(docs, k) && i < k
    ensures |Sections(docs, k, start)| == k && s == Sections(docs, k, start)[i]
    ensures s.name == docs[i].name && s.kind == docs[i].kind
    ensures start <= s.startPage
    ensures s.pageCount == |DocumentPages(i, docs[i].outcome)|
    ensures s.startPage - start + s.pageCount <= |Body(docs, k)|
    ensures forall j :: 0 <= j < s.pageCount ==> Body(docs, k)[s.startPage - start + j] == DocumentPages(i, docs[i].outcome)[j]
  {
    s := SectionStart(docs, k, start, i);
    var dp := DocumentPages(i, docs[i].outcome);
    BodyAt(docs, i, k, |dp| - 1, s.startPage - start + s.pageCount - 1);
    forall j | 0 <= j < s.pageCount
      ensures Body(docs, k)[s.startPage - start + j] == dp[j]
    {
      BodyAt(docs, i, k, j, s.startPage - start + j);
    }
  }

  /** On the normal path section i starts right after the pages of the documents before it and counts its document's pages. */
  lemma SectionStart(docs: seq<DocumentInput>, k: nat, start: int, i: nat) returns (s: DocumentSection)
    requires k <= |docs| && NoThrows(docs, k) && i < k
    ensures |Sections(docs, k, start)| == k && s == Sections(docs, k, start)[i]
    ensures s.name == docs[i].name && s.kind == docs[i].kind
    ensures s.startPage == start + |Body(docs, i)|
    ensures s.pageCount == |DocumentPages(i, docs[i].outcome)|
  {
    SectionAt(docs, k, start, i);
    s := Sections(docs, k, start)[i];
    NoThrowsHasNoThrows(docs, i);
    CursorTracksPages(docs, i, start);
    DocumentPagesCount(i, docs[i].outcome);
  }

  /**
    A loaded document with n source pages spans n + 1 pages however many
    copies fail; an unavailable document spans two pages.
   */
  lemma SectionPageCount(docs: seq<DocumentInput>, k: nat, start: int, i: nat)
    requires k <= |docs| && NoThrows(docs, k) && i < k
    ensures |Sections(docs, k, start)| == k
    ensures docs[i].outcome.Unavailable? ==> Sections(docs, k, start)[i].pageCount == 2
    ensures docs[i].outcome.Loaded? ==> Sections(docs, k, start)[i].pageCount == |docs[i].outcome.copyOk| + 1
  {
    SectionAt(docs, k, start, i);
  }

  /**
    Within the span of a loaded document, the page after the divider at
    offset j is source page j when its copy succeeds and exactly one error
    page naming page j + 1 when it fails.
   */
  lemma LoadedSectionPages(docs: seq<DocumentInput>, k: nat, start: int, i: nat) returns (s: DocumentSection)
    requires k <= |docs| && NoThrows(docs, k) && i < k && docs[i].outcome.Loaded?
    ensures |Sections(docs, k, start)| == k && s == Sections(docs, k, start)[i]
    ensures s.pageCount == |docs[i].outcome.copyOk| + 1
    ensures start <= s.startPage && s.startPage - start + s.pageCount <= |Body(docs, k)|
    ensures Body(docs, k)[s.startPage - start] == Divider(i)
    ensures forall j :: 0 <= j < |docs[i].outcome.copyOk| ==>
              Body(docs, k)[s.startPage - start + 1 + j] ==
                if docs[i].outcome.copyOk[j] then Content(i, j) else ErrorPage(i, PageNotProcessed(j + 1))
  {
    s := SectionStart(docs, k, start, i);
    BodySpan(docs, i, k);
    DividerAt(docs, i, k, s.startPage - start);
    forall j | 0 <= j < |docs[i].outcome.copyOk|
      ensures Body(docs, k)[s.startPage - start + 1 + j] ==
                if docs[i].outcome.copyOk[j] then Content(i, j) else ErrorPage(i, PageNotProcessed(j + 1))
    {
      LoadedPageAt(docs, i, k, j, s.startPage - start + 1 + j);
    }
  }

  /** The pages of the documents up to i fit in the pages of every longer prefix of the document list. */
  lemma BodySpan(docs: seq<DocumentInput>, i: nat, k: nat)
    requires i < k <= |docs|
    ensures |Body(docs, i)| + |DocumentPages(i, docs[i].outcome)| <= |Body(docs, k)|
  {
    FlattenSpan(Parts(docs), i, k);
  }

  lemma {:induction false} FlattenSpan(parts: seq<seq<PageKind>>, i: nat, k: nat)
    requires i < k <= |parts|
    ensures |Flatten(parts, i)| + |parts[i]| <= |Flatten(parts, k)|
  {
    if k > i + 1 {
      FlattenSpan(parts, i, k - 1);
    }
  }

  /** Document i's divider, at its place in the pages of a longer prefix. */
  lemma DividerAt(docs: seq<DocumentInput>, i: nat, k: nat, x: int)
    requires i < k <= |docs|
    requires x == |Body(docs, i)|
    ensures 0 <= x < |Body(docs, k)|
    ensures Body(docs, k)[x] == Divider(i)
  {
    DocumentPagesCount(i, docs[i].outcome);
    BodyAt(docs, i, k, 0, x);
  }

  /** Source page j of loaded document i, at its place in the pages of a longer prefix. */
  lemma LoadedPageAt(docs: seq<DocumentInput>, i: nat, k: nat, j: nat, x: int)
    requires i < k <= |docs| && docs[i].outcome.Loaded? && j < |docs[i].outcome.copyOk|
    requires x == |Body(docs, i)| + 1 + j
    ensures 0 <= x < |Body(docs, k)|
    ensures Body(docs, k)[x] == if docs[i].outcome.copyOk[j] then Content(i, j) else ErrorPage(i, PageNotProcessed(j + 1))
  {
    var ok := docs[i].outcome.copyOk;
    var dp := DocumentPages(i, docs[i].outcome);
    BodyAt(docs, i, k, 1 + j, x);
    assert dp[1 + j] == CopiedPages(i, ok)[j];
  }

  /**
    The outer catch breaks the section bookkeeping: when document f's load
    throws and document f + 1 does not, the section recorded for f + 1
    starts at f's error page, one before its own divider, and, when an
    earlier section exists, one page after the place where that section ends.
   */
  lemma OuterCatchShiftsNextSection(docs: seq<DocumentInput>, f: nat, start: int)
    requires f + 1 < |docs| && NoThrows(docs, f)
    requires docs[f].outcome.LoadThrows? && !docs[f + 1].outcome.LoadThrows?
    ensures var ss := Sections(docs, f + 2, start);
      && |ss| == f + 1
      && start <= ss[f].startPage
      && ss[f].startPage - start + 1 < |Body(docs, f + 2)|
      && Body(docs, f + 2)[ss[f].startPage - start] == ErrorPage(f, ProcessingFailed)
      && Body(docs, f + 2)[ss[f].startPage - start + 1] == Divider(f + 1)
      && (f > 0 ==> ss[f].startPage == ss[f - 1].startPage + ss[f - 1].pageCount + 1)
  {
    SectionsCount(docs, f, start);
    CursorTracksPages(docs, f, start);
    NoThrowsHasNoThrows(docs, f);
    DocumentPagesCount(f + 1, docs[f + 1].outcome);
    var before := Body(docs, f);
    var dp := DocumentPages(f + 1, docs[f + 1].outcome);
    assert Body(docs, f + 1) == before + [Divider(f), ErrorPage(f, ProcessingFailed)];
    var whole := Body(docs, f + 2);
    assert whole == before + [Divider(f), ErrorPage(f, ProcessingFailed)] + dp;
    assert whole[|before| + 1] == ErrorPage(f, ProcessingFailed);
    assert whole[|before| + 2] == Divider(f + 1);
    assert Sections(docs, f + 1, start) == Sections(docs, f, start);
    var ss := Sections(docs, f + 2, start);
    assert ss == Sections(docs, f, start) + [SectionOf(docs[f + 1], CursorAfter(docs, f, start) + 1)];
    assert ss[f].startPage - start == |before| + 1;
    if f > 0 {
      SectionsContiguous(docs, f, start);
      assert ss[f - 1] == Sections(docs, f, start)[f - 1];
    }
  }
}
