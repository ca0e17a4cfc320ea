/**
  The table of contents page: one row per section, top to bottom, each with
  the section's display name and the page its divider starts on. Rows stop
  once the next one would fall below the bottom margin, and names too wide
  for the name column are cut down and given an ellipsis.
 */
module TableOfContents {
  import opened Pages

  /** US Letter, in points. */
  const PageWidth: real := 612.0
  const PageHeight: int := 792

  /** The name column ends 200 points before the right edge of the page. */
  const MaxNameWidth: real := PageWidth - 200.0
  /** Truncation never shortens a name below this many characters. */
  const MinKept: nat := 10
  const Ellipsis: string := "..."

  /** The baseline of the first row: below the header bar and the heading. */
  const FirstRowY: int := PageHeight - 110 - 30
  const LineHeight: int := 25
  /** A row whose baseline would be below this is not drawn. */
  const BottomLimit: int := 100
  /** How many rows fit between the first row and the bottom limit. */
  const MaxRows: nat := 23

  /** One drawn row: the displayed name, its baseline and the page number shown after the dots. */
  datatype TocRow = TocRow(text: string, y: int, pageNumber: int)

  /** `s`, set in the 11-point body font, fits the name column; `width` measures a string at that size. */
  ghost predicate Fits(s: string, width: string -> real)
  {
    width(s) <= MaxNameWidth
  }

  /**
    The truncation loop of a too-wide name stops keeping `k` characters:
    with an ellipsis, `k` characters fit or are already at the floor, and
    every longer prefix (which the loop went through) neither fit nor was at
    the floor.
   */
  ghost predicate Stops(name: string, k: nat, width: string -> real)
  {
    && k <= |name|
    && (Fits(name[..k] + Ellipsis, width) || k <= MinKept)
    && forall k' :: k < k' <= |name| ==> !Fits(name[..k'] + Ellipsis, width) && k' > MinKept
  }

  /** The name drawn for a section: the name itself when it fits, else its truncation with an ellipsis. */
  ghost predicate IsDisplayName(name: string, display: string, width: string -> real)
  {
    if Fits(name, width) then display == name
    else exists k: nat :: Stops(name, k, width) && display == name[..k] + Ellipsis
  }

  /** Cuts a name that is too wide one character at a time, then appends the ellipsis. */
  method TruncateName(name: string, width: string -> real) returns (display: string)
    ensures IsDisplayName(name, display, width)
  {
    display := name;
    if width(display) > MaxNameWidth {
      while width(display + Ellipsis) > MaxNameWidth && |display| > MinKept
        invariant |display| <= |name| && display == name[..|display|]
        invariant forall k' :: |display| < k' <= |name| ==> !Fits(name[..k'] + Ellipsis, width) && k' > MinKept
        decreases |display|
      {
        display := display[..|display| - 1];
      }
      ghost var k := |display|;
      assert name[..k] + Ellipsis == display + Ellipsis;
      assert Fits(name[..k] + Ellipsis, width) || k <= MinKept;
      assert Stops(name, k, width);
      display := display + Ellipsis;
    }
  }

  /** The loop's stopping point is determined by the name and the font. */
  lemma StopsUnique(name: string, k1: nat, k2: nat, width: string -> real)
    requires Stops(name, k1, width) && Stops(name, k2, width)
    ensures k1 == k2
  {
  }

  /** A name of at most ten characters is never cut; a longer one keeps at least ten. */
  lemma KeptLength(name: string, k: nat, width: string -> real)
    requires Stops(name, k, width)
    ensures |name| <= MinKept ==> k == |name|
    ensures |name| > MinKept ==> MinKept <= k
  {
    if k < |name| {
      assert !Fits(name[..k + 1] + Ellipsis, width) && k + 1 > MinKept;
    }
  }

  /**
    A displayed name fits the column, unless the truncation reached the
    ten-character floor; it is the name itself or a prefix of it followed by
    the ellipsis.
   */
  lemma DisplayNameShape(name: string, display: string, width: string -> real)
    requires IsDisplayName(name, display, width)
    ensures Fits(display, width) || |display| <= MinKept + |Ellipsis|
    ensures display == name || (|display| >= |Ellipsis| && display[..|display| - |Ellipsis|] <= name && display[|display| - |Ellipsis|..] == Ellipsis)
  {
    if !Fits(name, width) {
      var k: nat :| Stops(name, k, width) && display == name[..k] + Ellipsis;
      assert display[..|display| - |Ellipsis|] == name[..k];
      assert display[|display| - |Ellipsis|..] == Ellipsis;
    }
  }

  /** The rows as drawn: at most 23, one line height apart, each naming its section's start page. */
  ghost predicate IsLayout(sections: seq<DocumentSection>, rows: seq<TocRow>, width: string -> real)
  {
    && |rows| == (if |sections| < MaxRows then |sections| else MaxRows)
    && forall i :: 0 <= i < |rows| ==>
         && rows[i].y == FirstRowY - LineHeight * i
         && rows[i].y >= BottomLimit
         && rows[i].pageNumber == sections[i].startPage
         && IsDisplayName(sections[i].name, rows[i].text, width)
  }

  /** The row loop: a section is skipped once the baseline has passed the bottom limit. */
  method LayOutRows(sections: seq<DocumentSection>, width: string -> real) returns (rows: seq<TocRow>)
    ensures IsLayout(sections, rows, width)
  {
    var currentY := FirstRowY;
    rows := [];
    for i := 0 to |sections|
      invariant |rows| == (if i < MaxRows then i else MaxRows)
      invariant currentY == FirstRowY - LineHeight * |rows|
      invariant forall j :: 0 <= j < |rows| ==>
                  && rows[j].y == FirstRowY - LineHeight * j
                  && rows[j].y >= BottomLimit
                  && rows[j].pageNumber == sections[j].startPage
                  && IsDisplayName(sections[j].name, rows[j].text, width)
    {
      if currentY >= BottomLimit {
        var display := TruncateName(sections[i].name, width);
        rows := rows + [TocRow(display, currentY, sections[i].startPage)];
        currentY := currentY - LineHeight;
      }
    }
  }

  /** Appends the table of contents page to `pdf` and lays out its rows. */
  method CreateTableOfContents(pdf: PdfDocument, sections: seq<DocumentSection>, width: string -> real) returns (rows: seq<TocRow>)
    modifies pdf
    ensures pdf.pages == old(pdf.pages) + [TocPage]
    ensures IsLayout(sections, rows, width)
  {
    pdf.AddPage(TocPage);
    rows := LayOutRows(sections, width);
  }
}
