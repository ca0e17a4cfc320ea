/**
  The submittal type checklist of the generated cover page. When the
  category's document list is given, every document of the category gets a
  checkbox, ticked when the document is among the selected ones; otherwise
  every selected document gets a ticked checkbox; with neither, a single
  "No documents available" note is drawn. Each row is 16 points below the
  previous one. An absent list is treated like an empty one.
 */
module Cover {

  const RowStep: int := 16

  /** One drawn line of the checklist. */
  datatype ChecklistRow = Checkbox(text: string, checked: bool, y: int) | NoDocumentsNote(y: int)

  /** The checklist drawn from `selected` and `all`, starting at baseline `startY`. */
  ghost predicate IsChecklist(selected: seq<string>, all: seq<string>, startY: int, rows: seq<ChecklistRow>)
  {
    if |all| > 0 then
      && |rows| == |all|
      && forall i :: 0 <= i < |rows| ==> rows[i] == Checkbox(all[i], all[i] in selected, startY - RowStep * i)
    else if |selected| > 0 then
      && |rows| == |selected|
      && forall i :: 0 <= i < |rows| ==> rows[i] == Checkbox(selected[i], true, startY - RowStep * i)
    else
      rows == [NoDocumentsNote(startY)]
  }

  /** The checklist loop; returns the rows and the baseline below the last one. */
  method CoverChecklist(selected: seq<string>, all: seq<string>, startY: int) returns (rows: seq<ChecklistRow>, endY: int)
    ensures IsChecklist(selected, all, startY, rows)
    ensures endY == startY - RowStep * |rows|
  {
    var currentY := startY;
    rows := [];
    if |all| > 0 {
      for i := 0 to |all|
        invariant |rows| == i && currentY == startY - RowStep * i
        invariant forall j :: 0 <= j < i ==> rows[j] == Checkbox(all[j], all[j] in selected, startY - RowStep * j)
      {
        var isSelected := all[i] in selected;
        rows := rows + [Checkbox(all[i], isSelected, currentY)];
        currentY := currentY - RowStep;
      }
    } else if |selected| > 0 {
      for i := 0 to |selected|
        invariant |rows| == i && currentY == startY - RowStep * i
        invariant forall j :: 0 <= j < i ==> rows[j] == Checkbox(selected[j], true, startY - RowStep * j)
      {
        rows := rows + [Checkbox(selected[i], true, currentY)];
        currentY := currentY - RowStep;
      }
    } else {
      rows := [NoDocumentsNote(currentY)];
      currentY := currentY - RowStep;
    }
    endY := currentY;
  }

  /** A ticked box always names a selected document, and the checklist is never empty. */
  lemma CheckedAreSelected(selected: seq<string>, all: seq<string>, startY: int, rows: seq<ChecklistRow>)
    requires IsChecklist(selected, all, startY, rows)
    ensures |rows| >= 1
    ensures forall i :: 0 <= i < |rows| && rows[i].Checkbox? && rows[i].checked ==> rows[i].text in selected
  {
  }

  /**
    With the category list given, the rows are the category's documents in
    order, and a document's box is ticked exactly when it is selected; a
    selected document outside the category gets no row.
   */
  lemma CategoryRowsFollowSelection(selected: seq<string>, all: seq<string>, startY: int, rows: seq<ChecklistRow>, name: string)
    requires |all| > 0 && IsChecklist(selected, all, startY, rows)
    ensures (exists i :: 0 <= i < |rows| && rows[i].Checkbox? && rows[i].text == name) <==> name in all
    ensures forall i :: 0 <= i < |rows| ==> rows[i].Checkbox? && (rows[i].checked <==> rows[i].text in selected)
  {
    if name in all {
      var i :| 0 <= i < |all| && all[i] == name;
      assert rows[i].text == name;
    }
  }

  /** Rows are 16 points apart, top to bottom, and the note appears only when both lists are empty. */
  lemma RowsSpaced(selected: seq<string>, all: seq<string>, startY: int, rows: seq<ChecklistRow>)
    requires IsChecklist(selected, all, startY, rows)
    ensures forall i :: 0 <= i < |rows| ==> rows[i].y == startY - RowStep * i
    ensures (exists i :: 0 <= i < |rows| && rows[i].NoDocumentsNote?) <==> |all| == 0 && |selected| == 0
  {
    if |all| == 0 && |selected| == 0 {
      assert rows[0].NoDocumentsNote?;
    }
  }
}
