/**
  Selective page numbering: visible numbers go on the first N pages (the
  submittal form and the product information page), on the table of
  contents right after them, and on the first page of each section, the
  divider; the pages after a divider are skipped over by the section's
  page count.
 */
module Numbering {
  import opened Common
  import opened Pages

  /** The indices lo, lo + 1, ..., hi - 1. */
  function Range(lo: nat, hi: nat): (r: seq<nat>)
    ensures |r| == if lo <= hi then hi - lo else 0
    ensures forall j :: 0 <= j < |r| ==> r[j] == lo + j
    decreases hi - lo
  {
    if lo >= hi then [] else [lo] + Range(lo + 1, hi)
  }

  /**
    The divider indices the section walk numbers: it starts at `idx`, stops
    once the index passes the last page, and otherwise steps over each
    section's page count.
   */
  function DividerIndices(idx: nat, sections: seq<DocumentSection>, len: nat): seq<nat>
    decreases |sections|
  {
    if sections == [] || idx >= len then []
    else [idx] + DividerIndices(idx + sections[0].pageCount, sections[1..], len)
  }

  /** The form and product pages among the first `len`, then the table of contents slot at index n when it exists. */
  function LeadingIndices(len: nat, n: nat): seq<nat>
  {
    Range(0, if n < len then n else len) + (if len > n then [n] else [])
  }

  /** The page indices that receive a visible number, in the order they are numbered. */
  function NumberedIndices(len: nat, n: nat, sections: seq<DocumentSection>): seq<nat>
  {
    LeadingIndices(len, n) + DividerIndices(n + 1, sections, len)
  }

  ghost predicate StrictlyIncreasing(s: seq<nat>)
  {
    forall i, j :: 0 <= i < j < |s| ==> s[i] < s[j]
  }

  /**
    `labels` numbers exactly the indices of `idxs`, the j-th of them with
    j + 1, and leaves every other page without a number.
   */
  ghost predicate Labelled(labels: seq<Option<nat>>, idxs: seq<nat>, len: nat)
  {
    && |labels| == len
    && (forall j :: 0 <= j < |idxs| ==> idxs[j] < len && labels[idxs[j]] == Some(j + 1))
    && (forall i :: 0 <= i < len ==> (labels[i] == None <==> i !in idxs))
  }

  /** One step of the section walk. */
  lemma DividerStep(idx: nat, sections: seq<DocumentSection>, k: nat, len: nat)
    requires k < |sections|
    ensures idx < len ==> DividerIndices(idx, sections[k..], len) == [idx] + DividerIndices(idx + sections[k].pageCount, sections[k + 1..], len)
    ensures idx >= len ==> DividerIndices(idx, sections[k..], len) == [] && DividerIndices(idx, sections[k + 1..], len) == []
  {
    assert sections[k..][1..] == sections[k + 1..];
  }

  /** The section walk's bookkeeping: what is numbered plus what is still to come stays the whole list. */
  lemma WalkStep(done: seq<nat>, all: seq<nat>, idx: nat, sections: seq<DocumentSection>, k: nat, len: nat)
    requires k < |sections|
    requires done + DividerIndices(idx, sections[k..], len) == all
    ensures idx < len ==> (done + [idx]) + DividerIndices(idx + sections[k].pageCount, sections[k + 1..], len) == all
    ensures idx >= len ==> done + DividerIndices(idx, sections[k + 1..], len) == all
  {
    DividerStep(idx, sections, k, len);
    if idx < len {
      var rest := DividerIndices(idx + sections[k].pageCount, sections[k + 1..], len);
      assert (done + [idx]) + rest == done + ([idx] + rest);
    }
  }

  /** Numbering one more page, not numbered before, with the next number keeps `Labelled`. */
  lemma LabelledSnoc(labels: seq<Option<nat>>, done: seq<nat>, len: nat, x: nat)
    requires Labelled(labels, done, len) && x < len && x !in done
    ensures Labelled(labels[x := Some(|done| + 1)], done + [x], len)
  {
    var labels' := labels[x := Some(|done| + 1)];
    var done' := done + [x];
    forall j | 0 <= j < |done'| ensures done'[j] < len && labels'[done'[j]] == Some(j + 1) {
      if j < |done| {
        assert done'[j] == done[j] && done[j] in done;
      }
    }
    forall i | 0 <= i < len ensures labels'[i] == None <==> i !in done' {
      assert i in done' <==> i in done || i == x;
    }
  }

  /**
    Draws the page numbers onto a packet of `pageCount` pages, of which the
    first `n` are form and product pages; the result gives the number
    drawn on each page, or None.
   */
  method AddSelectivePageNumbers(pageCount: nat, n: nat, sections: seq<DocumentSection>) returns (labels: seq<Option<nat>>)
    ensures Labelled(labels, NumberedIndices(pageCount, n, sections), pageCount)
  {
    var globalPageNumber;
    labels, globalPageNumber := NumberLeadingPages(pageCount, n);
    labels := NumberDividers(labels, globalPageNumber, n + 1, sections, LeadingIndices(pageCount, n), NumberedIndices(pageCount, n, sections));
  }

  /** The first two steps: the form and product pages, then the table of contents right after them. */
  method NumberLeadingPages(pageCount: nat, n: nat) returns (labels: seq<Option<nat>>, globalPageNumber: nat)
    ensures Labelled(labels, LeadingIndices(pageCount, n), pageCount)
    ensures globalPageNumber == |LeadingIndices(pageCount, n)| + 1
    ensures forall x :: x in LeadingIndices(pageCount, n) ==> x < n + 1
  {
    labels, globalPageNumber := NumberFrontPages(pageCount, n);
    ghost var done := Range(0, if n < pageCount then n else pageCount);

    // the table of contents
    if pageCount > n {
      assert n !in done;
      LabelledSnoc(labels, done, pageCount, n);
      labels := labels[n := Some(globalPageNumber)];
      globalPageNumber := globalPageNumber + 1;
    }
  }

  /** The first step: pages 0 up to n - 1, the form and product pages, get the numbers 1 to n. */
  method NumberFrontPages(pageCount: nat, n: nat) returns (labels: seq<Option<nat>>, globalPageNumber: nat)
    ensures Labelled(labels, Range(0, if n < pageCount then n else pageCount), pageCount)
    ensures globalPageNumber == (if n < pageCount then n else pageCount) + 1
  {
    labels := seq(pageCount, _ => None);
    globalPageNumber := 1;
    var i := 0;
    assert Labelled(labels, Range(0, 0), pageCount) by {
      assert Range(0, 0) == [];
    }
    while i < n && i < pageCount
      invariant 0 <= i <= pageCount && i <= n
      invariant globalPageNumber == i + 1
      invariant Labelled(labels, Range(0, i), pageCount)
    {
      LabelledRangeStep(labels, pageCount, i);
      labels := labels[i := Some(globalPageNumber)];
      globalPageNumber := globalPageNumber + 1;
      i := i + 1;
    }
  }

  /** Numbering page i with i + 1 extends the numbering of the pages before it. */
  lemma LabelledRangeStep(labels: seq<Option<nat>>, len: nat, i: nat)
    requires i < len && Labelled(labels, Range(0, i), len)
    ensures Labelled(labels[i := Some(i + 1)], Range(0, i + 1), len)
  {
    assert i !in Range(0, i);
    LabelledSnoc(labels, Range(0, i), len, i);
    assert Range(0, i) + [i] == Range(0, i + 1);
  }

  /**
    The section walk: from index `start` on, numbers the current index (the
    next divider) and steps over the section's page count, until the index
    passes the last page.
   */
  method NumberDividers(labels0: seq<Option<nat>>, firstNumber: nat, start: nat, sections: seq<DocumentSection>,
                        ghost done0: seq<nat>, ghost all: seq<nat>) returns (labels: seq<Option<nat>>)
    requires firstNumber == |done0| + 1
    requires Labelled(labels0, done0, |labels0|)
    requires forall x :: x in done0 ==> x < start
    requires done0 + DividerIndices(start, sections, |labels0|) == all
    ensures Labelled(labels, all, |labels0|)
  {
    labels := labels0;
    var pageCount := |labels0|;
    var globalPageNumber := firstNumber;
    ghost var done: seq<nat> := done0;
    var currentIndex: nat := start;
    for k := 0 to |sections|
      invariant |labels| == pageCount
      invariant globalPageNumber == |done| + 1
      invariant Labelled(labels, done, pageCount)
      invariant forall x :: x in done ==> x < currentIndex
      invariant done + DividerIndices(currentIndex, sections[k..], pageCount) == all
    {
      WalkStep(done, all, currentIndex, sections, k, pageCount);
      if currentIndex < pageCount {
        LabelledSnoc(labels, done, pageCount, currentIndex);
        labels := labels[currentIndex := Some(globalPageNumber)];
        done := done + [currentIndex];
        globalPageNumber := globalPageNumber + 1;
        currentIndex := currentIndex + sections[k].pageCount;
      }
    }
  }

  lemma {:induction false} DividerIndicesIncrease(idx: nat, sections: seq<DocumentSection>, len: nat)
    decreases |sections|
    ensures StrictlyIncreasing(DividerIndices(idx, sections, len))
    ensures forall x :: x in DividerIndices(idx, sections, len) ==> idx <= x < len
  {
    if sections != [] && idx < len {
      var rest := DividerIndices(idx + sections[0].pageCount, sections[1..], len);
      DividerIndicesIncrease(idx + sections[0].pageCount, sections[1..], len);
      var r := [idx] + rest;
      forall i, j | 0 <= i < j < |r| ensures r[i] < r[j] {
        assert r[j] == rest[j - 1];
        if i > 0 {
          assert r[i] == rest[i - 1];
        } else {
          assert rest[j - 1] in rest;
        }
      }
    }
  }

  /** The numbered indices are distinct, in increasing order and within the packet. */
  lemma NumberedIndicesIncrease(len: nat, n: nat, sections: seq<DocumentSection>)
    ensures StrictlyIncreasing(NumberedIndices(len, n, sections))
    ensures forall x :: x in NumberedIndices(len, n, sections) ==> x < len
  {
    DividerIndicesIncrease(n + 1, sections, len);
    var front := LeadingIndices(len, n);
    assert StrictlyIncreasing(front);
    assert forall x :: x in front ==> x <= n && x < len;
    ConcatIncreasing(front, DividerIndices(n + 1, sections, len), n);
  }

  /** Two increasing lists, all of the first at most `m` and all of the second above it, concatenate to an increasing list. */
  lemma ConcatIncreasing(a: seq<nat>, b: seq<nat>, m: nat)
    requires StrictlyIncreasing(a) && StrictlyIncreasing(b)
    requires forall x :: x in a ==> x <= m
    requires forall x :: x in b ==> m < x
    ensures StrictlyIncreasing(a + b)
  {
    var all := a + b;
    forall i, j | 0 <= i < j < |all| ensures all[i] < all[j] {
      if j < |a| {
        assert all[i] == a[i] && all[j] == a[j];
      } else if i < |a| {
        assert all[i] == a[i] && a[i] in a;
        assert all[j] == b[j - |a|] && b[j - |a|] in b;
      } else {
        assert all[i] == b[i - |a|] && all[j] == b[j - |a|];
      }
    }
  }

  /**
    Numbers run 1, 2, 3, ... in page order: a labelled page gets a smaller
    number than every labelled page after it, and the numbers used are
    exactly 1 through the number of labelled pages.
   */
  lemma LabelsConsecutive(labels: seq<Option<nat>>, len: nat, n: nat, sections: seq<DocumentSection>, i: nat, i': nat)
    requires Labelled(labels, NumberedIndices(len, n, sections), len)
    requires i < i' < len && labels[i].Some? && labels[i'].Some?
    ensures 1 <= labels[i].value < labels[i'].value <= |NumberedIndices(len, n, sections)|
  {
    var idxs := NumberedIndices(len, n, sections);
    NumberedIndicesIncrease(len, n, sections);
    var j :| 0 <= j < |idxs| && idxs[j] == i;
    var j' :| 0 <= j' < |idxs| && idxs[j'] == i';
    assert labels[i] == Some(j + 1) && labels[i'] == Some(j' + 1);
    assert j < j';
  }

  /**
    When every section fits, the section walk numbers the dividers at
    n + 1 + the sum of the earlier page counts.
   */
  function DividerOffsets(idx: nat, sections: seq<DocumentSection>): (r: seq<nat>)
    decreases |sections|
    ensures |r| == |sections|
    ensures |r| > 0 ==> r[0] == idx
    ensures forall j :: 0 < j < |r| ==> r[j] == r[j - 1] + sections[j - 1].pageCount
  {
    if sections == [] then []
    else
      var tail := DividerOffsets(idx + sections[0].pageCount, sections[1..]);
      assert forall m :: 0 <= m < |sections| - 1 ==> sections[1..][m] == sections[m + 1];
      [idx] + tail
  }

  lemma {:induction false} DividerIndicesAllFit(idx: nat, sections: seq<DocumentSection>, len: nat)
    requires sections != [] ==> DividerOffsets(idx, sections)[|sections| - 1] < len
    ensures DividerIndices(idx, sections, len) == DividerOffsets(idx, sections)
    decreases |sections|
  {
    if sections != [] {
      var tail := sections[1..];
      if tail != [] {
        assert DividerOffsets(idx, sections)[|sections| - 1] == DividerOffsets(idx + sections[0].pageCount, tail)[|tail| - 1];
      }
      OffsetsMonotone(idx, sections, 0, |sections| - 1);
      DividerIndicesAllFit(idx + sections[0].pageCount, tail, len);
    }
  }

  /** The divider offsets grow by at least one per section. */
  lemma {:induction false} OffsetsMonotone(idx: nat, sections: seq<DocumentSection>, i: nat, j: nat)
    requires i <= j < |sections|
    ensures DividerOffsets(idx, sections)[i] + (j - i) <= DividerOffsets(idx, sections)[j]
    decreases j - i
  {
    if i < j {
      OffsetsMonotone(idx, sections, i, j - 1);
    }
  }

  /** The i-th offset is idx + i exactly when every earlier section spans a single page. */
  lemma {:induction false} OffsetsUnitIff(idx: nat, sections: seq<DocumentSection>, i: nat)
    requires i < |sections|
    ensures DividerOffsets(idx, sections)[i] == idx + i <==> forall m :: 0 <= m < i ==> sections[m].pageCount == 1
  {
    if i > 0 {
      OffsetsUnitIff(idx, sections, i - 1);
      OffsetsMonotone(idx, sections, 0, i - 1);
      if DividerOffsets(idx, sections)[i] == idx + i {
        assert sections[i - 1].pageCount == 1;
      }
    }
  }

  /** The section walk numbers only offsets: it is the list of offsets cut off at the last page. */
  lemma {:induction false} DividerIndicesInOffsets(idx: nat, sections: seq<DocumentSection>, len: nat)
    ensures forall x :: x in DividerIndices(idx, sections, len) ==> x in DividerOffsets(idx, sections)
    decreases |sections|
  {
    if sections != [] && idx < len {
      DividerIndicesInOffsets(idx + sections[0].pageCount, sections[1..], len);
      var tail := DividerOffsets(idx + sections[0].pageCount, sections[1..]);
      assert DividerOffsets(idx, sections) == [idx] + tail;
    }
  }

  /**
    Contiguous sections whose first one starts at idx + shift start at the
    offsets, moved by shift.
   */
  lemma {:induction false} ContiguousAreOffsets(sections: seq<DocumentSection>, idx: nat, shift: int, i: nat)
    requires i < |sections|
    requires sections[0].startPage == idx + shift
    requires forall m :: 0 < m < |sections| ==> sections[m].startPage == sections[m - 1].startPage + sections[m - 1].pageCount
    ensures sections[i].startPage == DividerOffsets(idx, sections)[i] + shift
  {
    if i > 0 {
      ContiguousAreOffsets(sections, idx, shift, i - 1);
    }
  }

  /** The leading pages the numbering takes are the n front pages and the table of contents slot at index n. */
  lemma LeadingIndicesBound(len: nat, n: nat)
    ensures forall x :: x in LeadingIndices(len, n) ==> x <= n && x < len
  {
  }

  /** The j-th numbered index carries the number j + 1. */
  lemma LabelAt(labels: seq<Option<nat>>, idxs: seq<nat>, len: nat, j: nat)
    requires Labelled(labels, idxs, len) && j < |idxs|
    ensures idxs[j] < |labels| && labels[idxs[j]] == Some(j + 1)
  {
  }

  /** A page the walk does not visit carries no number. */
  lemma UnlabelledAt(labels: seq<Option<nat>>, idxs: seq<nat>, len: nat, x: nat)
    requires Labelled(labels, idxs, len) && x < len && x !in idxs
    ensures labels[x] == None
  {
  }

  /** The section walk never goes past the last section's offset. */
  lemma WalkBelowLastOffset(idx: nat, sections: seq<DocumentSection>, len: nat)
    requires sections != []
    ensures forall y :: y in DividerIndices(idx, sections, len) ==> y <= DividerOffsets(idx, sections)[|sections| - 1]
  {
    var offs := DividerOffsets(idx, sections);
    DividerIndicesInOffsets(idx, sections, len);
    forall y | y in DividerIndices(idx, sections, len) ensures y <= offs[|sections| - 1] {
      var i :| 0 <= i < |offs| && offs[i] == y;
      OffsetsMonotone(idx, sections, i, |sections| - 1);
    }
  }

  /** An index above the front pages, the table of contents slot and the last section's offset is not numbered. */
  lemma NotNumbered(len: nat, n: nat, sections: seq<DocumentSection>, x: nat)
    requires sections != [] && x > n && x > DividerOffsets(n + 1, sections)[|sections| - 1]
    ensures x !in NumberedIndices(len, n, sections)
  {
    WalkBelowLastOffset(n + 1, sections, len);
    LeadingIndicesBound(len, n);
  }
}
