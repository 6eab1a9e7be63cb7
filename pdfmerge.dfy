/**
 * The PDF merger's file list: the ordered names the user picked, the rows
 * the list widget shows, and whether the "Merge PDFs" button is enabled.
 *
 * The widget allows one selected row at a time; an operation receives it as
 * `row`, -1 when nothing is selected. The file dialogs are parameters: the
 * names the open dialog returned, the path the save dialog returned ("" when
 * cancelled). The PDF merging library is not modelled; MergePdfs returns the
 * names in the order they are handed to it.
 */
module PdfMerge {
  import opened Sequences

  class Merger {
    /** self.pdf_files: the merge order. */
    var pdfFiles: seq<string>
    /** The rows of the list widget, top to bottom. */
    var shown: seq<string>
    var mergeEnabled: bool

    /**
     * What every operation keeps: the widget shows the same names as the
     * list, possibly in another order, and a non-empty list has the merge
     * button enabled. (After a merge the list is empty and the button stays
     * enabled; merging an empty list does nothing.)
     */
    ghost predicate Valid()
      reads this
    {
      multiset(shown) == multiset(pdfFiles) && |shown| == |pdfFiles| &&
      (pdfFiles != [] ==> mergeEnabled)
    }

    /** The widget shows the list in the list's order. */
    predicate Synced()
      reads this
    {
      shown == pdfFiles
    }

    constructor ()
      ensures Valid() && Synced()
      ensures pdfFiles == [] && !mergeEnabled
    {
      pdfFiles, shown, mergeEnabled := [], [], false;
    }

    /** select_pdfs: the chosen names go to the end, in the order chosen. */
    method SelectPdfs(files: seq<string>)
      requires Valid()
      modifies this
      ensures Valid()
      ensures pdfFiles == old(pdfFiles) + files
      ensures files == [] ==> shown == old(shown) && mergeEnabled == old(mergeEnabled)
      ensures files != [] ==> Synced() && mergeEnabled
    {
      if files != [] {
        pdfFiles := pdfFiles + files;
        shown := pdfFiles;
        mergeEnabled := true;
      }
    }

    /**
     * remove_pdf as written: list.remove drops the FIRST entry with the
     * selected row's name, while the widget drops the selected row itself.
     * The two agree unless an earlier row holds the same name.
     */
    method RemovePdf(row: int)
      requires Valid()
      requires -1 <= row < |shown|
      modifies this
      ensures Valid()
      ensures row == -1 ==>
        pdfFiles == old(pdfFiles) && shown == old(shown) && mergeEnabled == old(mergeEnabled)
      ensures row >= 0 ==>
        old(shown)[row] in old(pdfFiles) &&
        pdfFiles == RemoveFirst(old(pdfFiles), old(shown)[row]) &&
        shown == RemoveAt(old(shown), row) &&
        |pdfFiles| == |old(pdfFiles)| - 1 &&
        mergeEnabled == (pdfFiles != [])
      ensures row >= 0 && old(Synced()) && (forall j :: 0 <= j < row ==> old(shown)[j] != old(shown)[row]) ==>
        Synced()
    {
      if row >= 0 {
        var name := shown[row];
        RemoveFromBoth(pdfFiles, shown, row);
        if Synced() && forall j :: 0 <= j < row ==> shown[j] != shown[row] {
          RemoveFirstIsRemoveAt(shown, row);
        }
        pdfFiles, shown := RemoveFirst(pdfFiles, name), RemoveAt(shown, row);
        if pdfFiles == [] {
          mergeEnabled := false;
        }
      }
    }

    /**
     * remove_pdf as evidently intended: the selected row leaves the list and
     * the widget alike, so the widget keeps showing the merge order.
     */
    method RemoveSelectedPdf(row: int)
      requires Valid() && Synced()
      requires -1 <= row < |shown|
      modifies this
      ensures Valid() && Synced()
      ensures row == -1 ==> pdfFiles == old(pdfFiles) && mergeEnabled == old(mergeEnabled)
      ensures row >= 0 ==>
        pdfFiles == RemoveAt(old(pdfFiles), row) && mergeEnabled == (pdfFiles != [])
    {
      if row >= 0 {
        pdfFiles := RemoveAt(pdfFiles, row);
        shown := pdfFiles;
        if pdfFiles == [] {
          mergeEnabled := false;
        }
      }
    }

    /** move_up: the selected entry changes places with the one above; the top row stays. */
    method MoveUp(row: int)
      requires Valid()
      requires -1 <= row < |shown|
      modifies this
      ensures Valid() && mergeEnabled == old(mergeEnabled)
      ensures row > 0 ==> pdfFiles == Swap(old(pdfFiles), row - 1, row) && Synced()
      ensures row <= 0 ==> pdfFiles == old(pdfFiles) && shown == old(shown)
      ensures multiset(pdfFiles) == multiset(old(pdfFiles))
    {
      if row > 0 {
        SwapPermutes(pdfFiles, row - 1, row);
        pdfFiles := Swap(pdfFiles, row - 1, row);
        shown := pdfFiles;
      }
    }

    /** move_down: the selected entry changes places with the one below; the last row stays. */
    method MoveDown(row: int)
      requires Valid()
      requires -1 <= row < |shown|
      modifies this
      ensures Valid() && mergeEnabled == old(mergeEnabled)
      ensures 0 <= row < |old(pdfFiles)| - 1 ==>
        pdfFiles == Swap(old(pdfFiles), row, row + 1) && Synced()
      ensures !(0 <= row < |old(pdfFiles)| - 1) ==> pdfFiles == old(pdfFiles) && shown == old(shown)
      ensures multiset(pdfFiles) == multiset(old(pdfFiles))
    {
      if row >= 0 && row < |pdfFiles| - 1 {
        SwapPermutes(pdfFiles, row, row + 1);
        pdfFiles := Swap(pdfFiles, row, row + 1);
        shown := pdfFiles;
      }
    }

    /**
     * merge_pdfs: nothing happens for an empty list or a cancelled save
     * dialog; otherwise every name is handed to the merger in list order and
     * the list is emptied.
     */
    method MergePdfs(savePath: string) returns (merged: seq<string>)
      requires Valid()
      modifies this
      ensures Valid() && mergeEnabled == old(mergeEnabled)
      ensures old(pdfFiles) == [] || savePath == [] ==>
        merged == [] && pdfFiles == old(pdfFiles) && shown == old(shown)
      ensures old(pdfFiles) != [] && savePath != [] ==>
        merged == old(pdfFiles) && pdfFiles == [] && Synced()
    {
      merged := [];
      if pdfFiles == [] {
        return;
      }
      if savePath != [] {
        for i := 0 to |pdfFiles|
          invariant merged == pdfFiles[..i]
        {
          merged := merged + [pdfFiles[i]];
        }
        assert pdfFiles[..|pdfFiles|] == pdfFiles;
        pdfFiles := [];
        shown := pdfFiles;
      }
    }
  }

  /** A move up of row r followed by a move down of row r - 1 restores the list. */
  method MoveUpThenDown(m: Merger, r: int)
    requires m.Valid() && 0 < r < |m.shown|
    modifies m
    ensures m.Valid() && m.Synced()
    ensures m.pdfFiles == old(m.pdfFiles)
  {
    ghost var before := m.pdfFiles;
    m.MoveUp(r);
    m.MoveDown(r - 1);
    SwapTwice(before, r - 1, r);
  }

  lemma {:induction false} RemoveFirstExample()
    ensures RemoveFirst(["a.pdf", "b.pdf", "a.pdf"], "a.pdf") == ["b.pdf", "a.pdf"]
    ensures RemoveAt(["a.pdf", "b.pdf", "a.pdf"], 2) == ["a.pdf", "b.pdf"]
  {
    var s := ["a.pdf", "b.pdf", "a.pdf"];
    assert s[0] == "a.pdf";
    assert s[1..] == ["b.pdf", "a.pdf"];
    assert s[..2] == ["a.pdf", "b.pdf"];
  }

  /**
   * A list that holds a.pdf twice: removing the selected last row takes the
   * first a.pdf out of the merge order, while the widget loses its last row.
   */
  method DuplicateRemoveDivergence() returns (shownRows: seq<string>, mergeOrder: seq<string>)
    ensures shownRows == ["a.pdf", "b.pdf"]
    ensures mergeOrder == ["b.pdf", "a.pdf"]
  {
    var m := new Merger();
    m.SelectPdfs(["a.pdf", "b.pdf"]);
    m.SelectPdfs(["a.pdf"]);
    assert m.shown == ["a.pdf", "b.pdf", "a.pdf"];
    assert m.pdfFiles == ["a.pdf", "b.pdf", "a.pdf"];
    m.RemovePdf(2);
    RemoveFirstExample();
    assert m.shown == ["a.pdf", "b.pdf"];
    shownRows := m.shown;
    mergeOrder := m.MergePdfs("merged.pdf");
  }
}
