# PDF packet assembler, modelled in Dafny

The worker behind `/generate-packet` builds one submittal packet from a
project description and a list of documents. It writes the following, in
order:

1. Submittal form pages: the filled form template, or a generated cover page.
2. A product information page. It grows by a page each time one of its four
   page-break checks fires.
3. A table of contents.
4. One section per document: a divider page, then the document's pages. A page
   whose copy fails is replaced by an error page. A document that cannot be
   read gets one error page.

The worker then draws page numbers on a selection of pages, and names the
download after the project.

This project models the page accounting of that assembler. It covers:

- the pages each step appends;
- the page cursor and the section records the table of contents is built from;
- where the table of contents is inserted;
- which entries of the page list get a page number drawn on them;
- which name each table-of-contents row shows, and which rows are drawn;
- how the form template is filled;
- the cover page checklist;
- the download file name;
- how a relative document path becomes the address it is fetched from.

Every page is named by what produced it (`Pages.PageKind`). Drawing,
fonts and the PDF library are abstracted away.

The modules follow the program's structure:

- `Pages`: the entities. These are the page kinds, the section record and a
  document's read outcome (`Unavailable`, `Loaded(copyOk)`, `LoadThrows`).
  The output document is a class whose page list is changed by `AddPage`
  and `InsertPage`.
- `Layout`: the pages, cursor and section records as functions of the
  document list, with their invariants.
- `Assembler`: the assembly itself, as methods over a `Pages.PdfDocument`,
  proved against `Layout`.
- `Numbering`: the selective page numbering loops. They are proved against
  the list of indices that get numbers.
- `TableOfContents`: row layout and name truncation. Text width is an
  uninterpreted function parameter.
- `Packet`: properties of the finished page list.
- `FormFill`: first-match filling of the form template, and the fallbacks
  around it.
- `Cover`, `Filename`, `DocumentUrl`: the small helpers.

Four consequences of the code as written are modelled literally:

- **The table of contents is listed twice.** `createTableOfContents`
  appends the page to the packet, and the handler then inserts that same
  page at the reserved slot. Both steps are modelled, so the table of
  contents appears at index `tocPosition` and again as the last page
  (`Packet.TocTwice`).
- **The numbering assumes a one-page product sheet.** It is told that the
  form and product pages number `submittalFormPages.length + 1`, because the
  handler hard-codes the product page count to 1. The numbering therefore
  lines up with the packet only when the product page did not break
  (`Packet.NumberingAligned`). Otherwise it falls out of step
  (`Packet.ExtraProductPagesLeaveLastDividerUnnumbered`).
- **A divider's number is not its page.** The number drawn on a divider counts
  numbered pages. The table of contents prints the divider's physical page
  instead. The two agree only when every earlier section spans one page
  (`Packet.DividerNumberMatchesToc`).
- **The trailing table of contents shows a number drawn elsewhere.** The
  numbering draws on the entry at the reserved slot. The last entry is
  the same page object, so it shows that number too, although no number
  is drawn at its own index (`Packet.TrailingTocShowsItsNumber`).

## Model

| member | source | states |
|---|---|---|
| Pages.PdfDocument.AddPage | worker/src/index.ts:150 | appending adds exactly one page at the end |
| Pages.PdfDocument.InsertPage | worker/src/index.ts:186 | inserting puts the page at the given 0-based index and shifts the rest up by one |
| Assembler.AddProductInfoPage | worker/src/index.ts:942-1324 | the product sheet adds one page plus one per page-break check that fires, in order |
| Assembler.CountBreaks | worker/src/index.ts:1117-1292 | the count is the number of distinct check positions whose page break fired |
| Assembler.AddFrontPages | worker/src/index.ts:89-95 | the form pages are copied in order, then the product pages follow |
| Assembler.CopyPages | worker/src/index.ts:146-159 | a loaded document adds one page per source page: the copy, or an error page naming that page when the copy fails |
| Assembler.ProcessDocument | worker/src/index.ts:105-180 | one document adds its divider and its pages. The cursor moves by the pages counted. The section records the start cursor and its page count, and is absent when the load throws |
| Assembler.ProcessDocuments | worker/src/index.ts:105-181 | the document loop appends every document's pages in order and records the sections `Layout.Sections` describes |
| Assembler.LoopStep | worker/src/index.ts:105-181 | one loop pass extends the pages, the cursor and the section list as the loop invariant requires |
| Assembler.AssemblePacket | worker/src/index.ts:84-189 | the finished packet is the front pages, the inserted table of contents, the document pages and the appended table of contents. The sections start at `tocPosition + 2` and the rows are laid out from them. The numbers are drawn as if the form and product pages were `formPages + 1` pages |
| TableOfContents.CreateTableOfContents | worker/src/index.ts:1328-1446 | creating the table of contents appends one page and lays out its rows |
| Assembler.FrontPages | worker/src/index.ts:89-95 | defines the pages before the table of contents: the form pages, then the product pages |
| Assembler.PacketPages | worker/src/index.ts:89-186 | defines the finished page list: the front pages, the table of contents inserted at `tocPosition`, the document pages, and the table of contents as appended |
| Assembler.Fired | worker/src/index.ts:1117-1292 | defines the set of check positions whose page break fired |
| Layout.DocumentPages | worker/src/index.ts:112-166 | defines the pages one document appends: its divider, then an error page when there are no bytes, one copied or error page per source page when loaded, or the error page of the outer catch |
| Layout.Advance | worker/src/index.ts:115-166 | defines how far one document moves the cursor: 2 when unavailable, 1 + its page count when loaded, and 1 when the load throws |
| Layout.Body | worker/src/index.ts:105-181 | defines the pages appended for the first k documents, in order |
| Layout.CursorAfter | worker/src/index.ts:103-166 | defines the cursor after the first k documents |
| Layout.Throws | worker/src/index.ts:177-180 | defines the number of documents among the first k that reached the outer catch |
| Layout.SectionOf | worker/src/index.ts:170-175 | defines a section record: name, type, the cursor when the document began, and the pages it moved the cursor by |
| Layout.Sections | worker/src/index.ts:170-180 | defines the section records for the first k documents, with none for a document whose load threw |
| Layout.CopiedPages | worker/src/index.ts:146-159 | a loaded document's copied pages are one per source page |
| Layout.Parts | worker/src/index.ts:105-181 | there is one page list per document |
| Layout.BodyStep | worker/src/index.ts:105-181 | processing one more document appends exactly its pages |
| Layout.DocumentPagesCount | worker/src/index.ts:112-166 | a document contributes its divider first and no other divider. That is the divider plus one page per source page when loaded, and two pages otherwise. Every page belongs to that document |
| Layout.CursorTracksPages | worker/src/index.ts:103-166 | the cursor equals the start plus the pages appended, minus one for each document whose load threw |
| Layout.CursorNotBelowStart | worker/src/index.ts:103-115 | the cursor advances at least once per document |
| Layout.NoThrowsHasNoThrows | worker/src/index.ts:170-180 | on the normal path no page is left out of the cursor, and every document records a section |
| Layout.SectionsCount | worker/src/index.ts:170-175 | on the normal path there is one section per document |
| Layout.SectionsContiguous | worker/src/index.ts:102-175 | on the normal path the first section starts at the cursor start, each next section starts where the previous one ends, and the last one ends at the final cursor |
| Layout.SectionAt | worker/src/index.ts:111-175 | on the normal path section i is document i's record, opened at the cursor reached before it |
| Layout.SectionStart | worker/src/index.ts:111-175 | on the normal path section i starts right after the earlier documents' pages, and spans its document's pages |
| Layout.SectionCoversDocument | worker/src/index.ts:111-175 | section i's span, from its start page for its page count, is exactly document i's pages |
| Layout.SectionPageCount | worker/src/index.ts:142-175 | a loaded document with k pages spans k + 1 pages however many copies fail, and an unavailable one spans 2 |
| Layout.LoadedSectionPages | worker/src/index.ts:142-175 | a loaded section is its divider followed, for each source page, by the copy or exactly one error page naming that page |
| Layout.BodyAt | worker/src/index.ts:105-181 | page j of document i sits after the pages of the documents before it |
| Layout.BodyLocate | worker/src/index.ts:105-181 | every appended page is page j of document i at that place |
| Layout.BodySpan | worker/src/index.ts:105-181 | the pages up to and including document i fit within every longer prefix |
| Layout.DividerAt | worker/src/index.ts:113-114 | document i's divider is the first page after the documents before it |
| Layout.LoadedPageAt | worker/src/index.ts:146-159 | source page j of a loaded document is the copy or the error page, at its place |
| Layout.OuterCatchShiftsNextSection | worker/src/index.ts:177-180 | after a load throws, the next section's start page points at the thrown document's error page, one page before its own divider, and one page past the previous section's end |
| Numbering.Range | worker/src/index.ts:1542 | the front indices are 0, 1, ... in order |
| Numbering.LeadingIndices | worker/src/index.ts:1542-1566 | defines the indices numbered first: 0 to min(n, len) - 1, then n when the packet is longer than n |
| Numbering.DividerIndices | worker/src/index.ts:1568-1588 | defines the indices the section walk numbers: from its start, one per section while the index is inside the packet, stepping by each page count |
| Numbering.NumberedIndices | worker/src/index.ts:1539-1588 | defines all numbered indices in drawing order: the leading ones, then the walk from n + 1 |
| Numbering.Labelled | worker/src/index.ts:1539-1588 | defines the drawn numbers: the j-th index of the list gets j + 1, and no other index gets a number |
| Numbering.AddSelectivePageNumbers | worker/src/index.ts:1535-1589 | the numbers 1, 2, 3, ... are drawn at the numbered indices in order, and no number is drawn at any other index. A page object listed twice shows what is drawn at either index (`Packet.DrawnOn`) |
| Numbering.NumberLeadingPages | worker/src/index.ts:1539-1566 | the first n pages and then the table of contents slot at index n (when the packet is longer than n) are numbered from 1 |
| Numbering.NumberFrontPages | worker/src/index.ts:1539-1553 | pages 0 to min(n, len) - 1 get the numbers 1 to min(n, len) |
| Numbering.LabelledRangeStep | worker/src/index.ts:1542-1553 | numbering the next front page keeps the numbering consistent |
| Numbering.LabelledSnoc | worker/src/index.ts:1543-1588 | numbering one new page with the next number keeps the numbering consistent |
| Numbering.NumberDividers | worker/src/index.ts:1568-1588 | the section walk numbers the current index while it is inside the packet, then steps over the section's page count |
| Numbering.DividerStep | worker/src/index.ts:1570-1587 | one walk step numbers the index and skips the page count, or stops past the last page |
| Numbering.WalkStep | worker/src/index.ts:1570-1587 | the numbered indices plus those still to come stay the whole walk |
| Numbering.DividerIndicesIncrease | worker/src/index.ts:1568-1588 | the walk's indices are strictly increasing and lie inside the packet |
| Numbering.NumberedIndicesIncrease | worker/src/index.ts:1539-1588 | the numbered indices are distinct, increasing and inside the packet |
| Numbering.ConcatIncreasing | worker/src/index.ts:1539-1588 | the front indices followed by the walk's indices stay increasing |
| Numbering.LabelsConsecutive | worker/src/index.ts:1539-1588 | numbers increase in page order and are exactly 1 to the count of numbered pages |
| Numbering.DividerOffsets | worker/src/index.ts:1568-1588 | the walk's offsets start at its start index and grow by each section's page count |
| Numbering.DividerIndicesAllFit | worker/src/index.ts:1571 | when the last offset is inside the packet, the walk visits every offset |
| Numbering.OffsetsMonotone | worker/src/index.ts:1584 | the offsets grow by at least one per section |
| Numbering.OffsetsUnitIff | worker/src/index.ts:1584 | offset i is start + i exactly when every earlier section spans one page |
| Numbering.DividerIndicesInOffsets | worker/src/index.ts:1568-1588 | the walk only visits offsets |
| Numbering.WalkBelowLastOffset | worker/src/index.ts:1568-1588 | the walk never goes past the last section's offset |
| Numbering.ContiguousAreOffsets | worker/src/index.ts:102-175 | contiguous sections start at the offsets, moved by a fixed shift |
| Numbering.LeadingIndicesBound | worker/src/index.ts:1542-1566 | the leading numbered indices are at most n and inside the packet |
| Numbering.NotNumbered | worker/src/index.ts:1539-1588 | an index past the table of contents slot and past the last offset gets no number |
| Numbering.LabelAt | worker/src/index.ts:1539-1588 | the j-th numbered index carries j + 1 |
| Numbering.UnlabelledAt | worker/src/index.ts:1539-1588 | an index that is not numbered carries no number |
| Packet.PacketShape | worker/src/index.ts:89-186 | the packet is the form pages, the product pages, the table of contents at index `tocPosition`, the document pages, and the table of contents as the last page |
| Packet.PacketLength | worker/src/index.ts:89-186 | the packet's length is the front pages, two table of contents entries and the document pages |
| Packet.PacketAt | worker/src/index.ts:186 | inserting the table of contents shifts every document page up by one |
| Packet.TocTwice | worker/src/index.ts:185-186 | the table of contents page is at index `tocPosition` and at the last index, and nowhere else |
| Packet.SectionInPacket | worker/src/index.ts:103-186 | after the insert, page j of section i is at 0-based index startPage - 1 + j, and at j = 0 it is the divider, so the divider is at 1-based page startPage |
| Packet.DividerIsSectionStart | worker/src/index.ts:103-186 | on the normal path every divider in the packet begins a section |
| Packet.PacketEndsAtCursor | worker/src/index.ts:103-186 | on the normal path the packet's length equals the final cursor |
| Packet.NormalSections | worker/src/index.ts:102-186 | on the normal path the sections start at `tocPosition + 2`, are contiguous, and the last one ends at the packet's end |
| Packet.DividerAtOffset | worker/src/index.ts:1568-1584 | divider i sits at the walk's i-th offset, moved by the product pages beyond the first |
| Packet.AlignedWalk | worker/src/index.ts:95-189 | with a one-page product sheet the walk visits every divider |
| Packet.DividerLabel | worker/src/index.ts:95-189 | with a one-page product sheet, divider i is numbered formPages + 3 + i |
| Packet.NumberingAligned | worker/src/index.ts:95-189 | with a one-page product sheet on the normal path, a page is numbered exactly when it is a front page, the table of contents slot or a divider, and divider i gets formPages + 3 + i |
| Packet.TrailingTocShowsItsNumber | worker/src/index.ts:1329 | with a one-page product sheet on the normal path, the last page is the table of contents. No number is drawn at its index, but it shows formPages + 2, the number drawn at the reserved slot, which is the same page object (line 186) |
| Packet.SharedPageNumbers | worker/src/index.ts:186 | a page listed at a numbered index and at an unnumbered index shows the one number at both |
| Packet.NumberedAt | worker/src/index.ts:1539-1588 | a page is in the numbered indices exactly when it is a front page, the table of contents slot or a divider |
| Packet.DividerIsOffset | worker/src/index.ts:1568-1588 | every divider is one of the walk's offsets |
| Packet.OffsetIsDivider | worker/src/index.ts:1568-1588 | every offset of the walk holds a divider |
| Packet.InLeading | worker/src/index.ts:1542-1566 | an index is a leading numbered index exactly when it is at most n |
| Packet.DividerNumberMatchesToc | worker/src/index.ts:1435 | the number drawn on divider i equals the page the table of contents prints for it exactly when every earlier section spans one page |
| Packet.StartPageUnitIff | worker/src/index.ts:103-175 | section i starts on page formPages + 3 + i exactly when every earlier section spans one page |
| Packet.ExtraProductPagesLeaveLastDividerUnnumbered | worker/src/index.ts:95 | when the product page breaks onto more pages, the last section's divider stays where the table of contents says, but gets no number |
| TableOfContents.TruncateName | worker/src/index.ts:1398-1407 | a name that fits is drawn unchanged. Otherwise the longest prefix whose text plus "..." fits, but not shorter than 10 characters, is drawn with "..." |
| TableOfContents.StopsUnique | worker/src/index.ts:1403-1405 | the truncation's stopping point is unique |
| TableOfContents.KeptLength | worker/src/index.ts:1403 | a name of at most 10 characters is never cut, and a longer one keeps at least 10 |
| TableOfContents.DisplayNameShape | worker/src/index.ts:1398-1407 | the shown name fits or is at the 10-character floor, and is the name or a prefix of it followed by "..." |
| TableOfContents.LayOutRows | worker/src/index.ts:1378-1444 | rows are in section order, at most 23, row i at y = 652 - 25i and never below 100, each showing its section's start page and display name |
| FormFill.TextMappings | worker/src/index.ts:298-305 | defines the six text mappings in order with their candidate names. A missing project number is written as the empty text |
| FormFill.StatusMappings | worker/src/index.ts:321-326 | defines the four status checkbox mappings |
| FormFill.SubmittalMappings | worker/src/index.ts:348-363 | defines the fourteen submittal type checkbox mappings |
| FormFill.AllMappings | worker/src/index.ts:296-382 | defines all mappings in the order the three loops run: text, status, then submittal type |
| FormFill.Resolves | worker/src/index.ts:307-316 | defines a candidate that works: the lookup finds a field of the right kind and the write to it succeeds. Otherwise the inner catch moves on |
| FormFill.Apply | worker/src/index.ts:305-318 | defines one mapping's effect: its first resolving candidate gets the value |
| FormFill.ApplyAll | worker/src/index.ts:305-382 | defines the effect of the mappings applied in order |
| FormFill.FirstMatch | worker/src/index.ts:305-318 | the candidate reached is the first one that resolves to a field of the right kind and accepts the write; none means no candidate does |
| FormFill.Form.FillFirst | worker/src/index.ts:305-318 | one mapping's loop writes its value to the first resolving candidate and breaks, leaving everything else unchanged |
| FormFill.Form.FillAll | worker/src/index.ts:305-382 | the mappings are applied in order |
| FormFill.Form.constructor | worker/src/index.ts:285 | a loaded form starts with no values written |
| FormFill.LoadAndFillTemplate | worker/src/index.ts:258-401 | a failed fetch or a throwing load falls back to the generated cover. Otherwise the text, status and submittal mappings are applied in that order, and the form is flattened unless flattening throws |
| FormFill.ApplyAllAppend | worker/src/index.ts:305-382 | running two mapping lists one after the other is running their concatenation |
| FormFill.ApplyWritesFirstOnly | worker/src/index.ts:305-318 | a mapping writes only its first resolving candidate, and writes nothing when none resolves |
| FormFill.ApplyAllKeepsOthers | worker/src/index.ts:305-382 | a field that no mapping writes keeps its value |
| FormFill.ApplyAllLastWriteWins | worker/src/index.ts:305-382 | a field holds the value of the last mapping that writes it |
| FormFill.ApplyAllRespectsKinds | worker/src/index.ts:305-382 | every field written is a template field of the value's kind that accepts the write |
| Cover.CoverChecklist | worker/src/index.ts:646-669 | a given category list gives one row per entry in order, checked exactly when selected. Otherwise each selected name gets a checked row, and with neither list a single note is drawn. Rows are 16 points apart |
| Cover.CheckedAreSelected | worker/src/index.ts:646-669 | the checklist is never empty, and a checked row always names a selected document |
| Cover.CategoryRowsFollowSelection | worker/src/index.ts:646-654 | with a category list, a name has a row exactly when it is in the list, and a row is checked exactly when it is selected |
| Cover.RowsSpaced | worker/src/index.ts:646-669 | row i is 16i points below the start, and the note appears exactly when both lists are empty |
| Filename.CharUnits | worker/src/index.ts:200 | a character is one UTF-16 code unit inside the Basic Multilingual Plane, and a surrogate pair outside it |
| Filename.Utf16 | worker/src/index.ts:200 | the project name as the JavaScript string holds it: at least one code unit per character, and exactly the characters when all are in the Basic Multilingual Plane |
| Filename.Sanitize | worker/src/index.ts:200 | the replacement works per code unit: the length in code units is kept, letters and digits are kept in place, and every other code unit becomes '_' |
| Filename.PacketFilename | worker/src/index.ts:200 | the file name is the sanitized code units of the project name followed by `_Packet.pdf` |
| Filename.AstralCharacterGivesTwoUnderscores | worker/src/index.ts:200 | "A😀" gives "A", two underscores for the surrogate pair, then `_Packet.pdf` |
| Filename.SanitizedAlphabet | worker/src/index.ts:200 | a sanitized name holds only letters, digits and '_' |
| Filename.FilenameIsSafe | worker/src/index.ts:200 | the file name holds only letters, digits, '_' and '.', so it cannot break the quoted header |
| Filename.FilenameUnitSafe | worker/src/index.ts:200 | each code unit of the file name is a letter, a digit, '_' or '.' |
| Filename.SanitizeIdempotent | worker/src/index.ts:200 | sanitizing twice is sanitizing once |
| Filename.SameShapeSameFilename | worker/src/index.ts:200 | names with the same number of code units that differ only in non-alphanumeric code units get the same file name |
| DocumentUrl.Utf8 | worker/src/index.ts:231 | a code point is 1 to 4 bytes, with ASCII as one byte and every byte of a longer encoding at least 0x80 |
| DocumentUrl.HexDigit | worker/src/index.ts:231 | escapes use upper-case hexadecimal digits, and no digit is '%' |
| DocumentUrl.Percent | worker/src/index.ts:231 | each byte becomes a three-character escape |
| DocumentUrl.RestoreSlashes | worker/src/index.ts:231 | the `%2F` replacement never lengthens the text |
| DocumentUrl.EncodeChar | worker/src/index.ts:231 | defines how `encodeURIComponent` writes one character: unreserved characters as they are, anything else as `%XY` escapes of its UTF-8 bytes |
| DocumentUrl.EncodeComponent | worker/src/index.ts:231 | defines `encodeURIComponent` of a string, character by character |
| DocumentUrl.EncodePath | worker/src/index.ts:231 | defines the whole path encoding: `encodeURIComponent`, then every `%2F` back to '/' |
| DocumentUrl.FullUrl | worker/src/index.ts:226-233 | an address starting with `http` is kept; any other gets the repository base in front |
| DocumentUrl.EncodePathKeepsSlashes | worker/src/index.ts:229-231 | encoding the whole path and then restoring `%2F` is the same as keeping every '/' and encoding each other character |
| DocumentUrl.RestorePercent | worker/src/index.ts:231 | escapes of bytes other than 0x2F pass through the replacement untouched |
| DocumentUrl.EscapeStep | worker/src/index.ts:231 | an escape other than `%2F` passes through the replacement |
| DocumentUrl.OneSlashDropped | worker/src/index.ts:229 | only one leading '/' is dropped: a second one stays in the address |
| DocumentUrl.LeadingSlashOptional | worker/src/index.ts:229 | a relative path gets the same address with or without one leading '/' |
| DocumentUrl.EncodedHasNoSpace | worker/src/index.ts:231 | the encoded path never contains a space |
| DocumentUrl.PercentHasNoSpace | worker/src/index.ts:231 | an escape never contains a space |

## Left out

- HTTP routing, CORS, request parsing and building the response (`worker/src/index.ts:65-77, 196-219`). These are plumbing around the core.
- Network fetches of the template, the logos and the documents. The template's fetch and load are the input `FormFill.TemplateOutcome`. A document's bytes are summarised by `Pages.DocOutcome`, and the choice between inline data and an address is part of that outcome. Base64 decoding (`atob`) is part of it too.
- PDF library internals: `PDFDocument.load`, `copyPages`, `getForm`, `getTextField`, `getCheckBox`, `flatten` and `save`. Each is modelled only by its effect: success or a throw, and one page appended.
- All drawing: text, colours, coordinates, logos, the divider, product and error page layouts, and the word wrap of the product page. Font widths are floating point, so the table of contents takes the width as an uninterpreted function.
- Assembler.AddProductInfoPage: whether a page-break check fires depends on the wrapped text height. The model takes the outcomes of the four checks as an input.
- The form pages count: when the template loads, the number of pages it holds is a parameter (`formPages`). The generated cover is one page.
- Cover.CoverChecklist: only the checklist rows of the cover page are modelled. The heading, the project fields, the status boxes and the baseline the checklist starts from are not. The starting baseline is a parameter.
- An absent (`null` or `undefined`) `selectedDocumentNames` or `allAvailableDocuments` is treated as an empty list, as the handler's `|| []` does. `documents` itself has no default, and is taken to be present.
- Outer-catch throw points other than the document's load. For example, drawing the divider or an error page could throw. These are not modelled. `Pages.DocOutcome.LoadThrows` is the load throwing after the divider was appended.
- FormFill.LoadAndFillTemplate: a flatten that throws is modelled as leaving the form unflattened. Any partial flattening before the throw is not modelled.
- The unused helpers `addDividerPage` and `addPageNumbers`, and all console logging.
- `async`/`await`: every step is taken as a sequential call; there is no concurrency.
- TableOfContents.TruncateName: lengths are counted in characters (Unicode scalar values). The source's `length` and `substring` count UTF-16 code units. So for a name with characters outside the Basic Multilingual Plane, the 10-unit floor and the cut points differ from the source's, and the source can split a surrogate pair.
- DocumentUrl.EncodeChar: `encodeURIComponent` throws on a lone UTF-16 surrogate. Dafny's `char` is a Unicode scalar value, so such strings cannot be represented and that error path is not modelled.
- The candidate name lists of different mappings are not proved pairwise disjoint. `FormFill.ApplyAllLastWriteWins` states the general rule instead.
