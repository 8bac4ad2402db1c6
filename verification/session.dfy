/** The annotation session: the loaded rows, the position in them, the
    selection on the current row and the list of saved annotations, with one
    method per button of the annotation page. */
module Session {
  import opened Wrappers
  import opened Annotations
  import opened SelectionModel

  /** What "save and next" did: nothing (the row has no text), saved and moved
      on, or saved the last row and stayed (the "complete" message). */
  datatype SaveOutcome = NoText | SavedAndAdvanced | SavedLastRow

  class AnnotationSession {
    var data: seq<Item>
    var dataLoaded: bool
    var currentSheet: Option<string>
    var currentIdx: int
    var annotations: seq<Annotation>
    var selectedWords: set<int>
    var selecting: bool
    var selectStart: Option<int>

    /** The selection fields as one value. */
    function Selection(): SelectionState
      reads this
    {
      SelectionState(selectedWords, selecting, selectStart)
    }

    ghost predicate Valid()
      reads this
    {
      && 0 <= currentIdx
      && (dataLoaded ==> 0 < |data| && currentIdx < |data| && currentSheet.Some?)
      && WellFormed(Selection())
    }

    /** `item.get('text', '')` for the current row. */
    function CurrentText(): string
      reads this
      requires Valid() && dataLoaded
    {
      ItemText(data[currentIdx])
    }

    /** The selection only names characters of the current row's text. The
        save handler depends on this; loading a dataset does not restore it. */
    ghost predicate SelectionWithinText()
      reads this
      requires Valid() && dataLoaded
    {
      WithinText(Selection(), |CurrentText()|)
    }

    /** The session state a fresh page starts with. */
    constructor ()
      ensures Valid() && !dataLoaded
      ensures currentIdx == 0 && annotations == [] && currentSheet == None
      ensures Selection() == Cleared
    {
      data := [];
      dataLoaded := false;
      currentSheet := None;
      currentIdx := 0;
      annotations := [];
      selectedWords := {};
      selecting := false;
      selectStart := None;
    }

    /** A dataset button: `fetched` is what the sheet download returned (empty
        when it failed). A non-empty result replaces the rows, restarts at the
        first row and clears the annotations; the selection is kept. */
    method LoadDataset(name: string, fetched: seq<Item>)
      requires Valid()
      modifies this`data, this`dataLoaded, this`currentSheet, this`currentIdx, this`annotations
      ensures Valid()
      ensures |fetched| > 0 ==>
        && data == fetched && dataLoaded && currentSheet == Some(name)
        && currentIdx == 0 && annotations == []
      ensures |fetched| == 0 ==>
        && data == old(data) && dataLoaded == old(dataLoaded) && currentSheet == old(currentSheet)
        && currentIdx == old(currentIdx) && annotations == old(annotations)
      ensures Selection() == old(Selection())
    {
      if |fetched| > 0 {
        data := fetched;
        dataLoaded := true;
        currentSheet := Some(name);
        currentIdx := 0;
        annotations := [];
      }
    }

    /** The range-selection button, drawn only on a loaded row with text. */
    method ToggleRangeMode()
      requires Valid() && dataLoaded && CurrentText() != ""
      modifies this`selecting, this`selectStart
      ensures Valid()
      ensures Selection() == SelectionModel.ToggleRangeMode(old(Selection()))
    {
      selecting := !selecting;
      if !selecting {
        selectStart := None;
      }
    }

    /** The "clear all" button, drawn only on a loaded row with text. */
    method ClearAll()
      requires Valid() && dataLoaded && CurrentText() != ""
      modifies this`selectedWords, this`selecting, this`selectStart
      ensures Valid()
      ensures Selection() == Cleared
    {
      selectedWords := {};
      selecting := false;
      selectStart := None;
    }

    /** A click on the button of character `idx` of the current row. The
        character buttons are only drawn when the range anchor, if any, is a
        character of the current row: the mode caption above them reads the
        character at the anchor. */
    method ClickUnit(idx: int)
      requires Valid() && dataLoaded && 0 <= idx < |CurrentText()|
      requires selectStart.None? || selectStart.value < |CurrentText()|
      modifies this`selectedWords, this`selecting, this`selectStart
      ensures Valid()
      ensures Selection() == Click(old(Selection()), idx)
      ensures old(SelectionWithinText()) ==> SelectionWithinText()
    {
      ghost var before := Selection();
      if selecting {
        if selectStart.None? {
          selectStart := Some(idx);
        } else {
          var start := Min(selectStart.value, idx);
          var end := Max(selectStart.value, idx);
          var i := start;
          while i < end + 1
            invariant start <= i <= end + 1
            invariant selectedWords == before.marked + Interval(start, i - 1)
          {
            selectedWords := selectedWords + {i};
            i := i + 1;
          }
          selecting := false;
          selectStart := None;
        }
      } else {
        if idx in selectedWords {
          selectedWords := selectedWords - {idx};
        } else {
          selectedWords := selectedWords + {idx};
        }
      }
      ClickKeepsInvariants(before, |CurrentText()|, idx);
    }

    /** The "previous" button, disabled on the first row. */
    method Previous() returns (moved: bool)
      requires Valid() && dataLoaded
      modifies this`currentIdx, this`selectedWords, this`selecting, this`selectStart
      ensures Valid()
      ensures moved <==> old(currentIdx) > 0
      ensures moved ==> currentIdx == old(currentIdx) - 1 && Selection() == Cleared
      ensures !moved ==> currentIdx == old(currentIdx) && Selection() == old(Selection())
    {
      moved := currentIdx != 0;
      if moved {
        currentIdx := currentIdx - 1;
        selectedWords := {};
        selecting := false;
        selectStart := None;
      }
    }

    /** The "save and next" button. The annotator name and the clock reading
        are passed in. On a row with text the button is only drawn when the
        selection lies within that text: the mode caption and the list of
        selected characters above it read the characters at the anchor and
        at every selected position. On a row without text neither is drawn. */
    method SaveAndNext(annotator: string, timestamp: string) returns (outcome: SaveOutcome)
      requires Valid() && dataLoaded && (CurrentText() != "" ==> SelectionWithinText())
      modifies this`annotations, this`currentIdx, this`selectedWords, this`selecting, this`selectStart
      ensures Valid()
      ensures old(CurrentText()) == "" ==>
        && outcome == NoText && annotations == old(annotations)
        && currentIdx == old(currentIdx) && Selection() == old(Selection())
      ensures old(CurrentText()) != "" ==>
        annotations == old(annotations) + [AnnotationFor(annotator, currentSheet, data[old(currentIdx)], old(selectedWords), timestamp)]
      ensures old(CurrentText()) != "" && old(currentIdx) < |data| - 1 ==>
        outcome == SavedAndAdvanced && currentIdx == old(currentIdx) + 1 && Selection() == Cleared
      ensures old(CurrentText()) != "" && old(currentIdx) == |data| - 1 ==>
        outcome == SavedLastRow && currentIdx == old(currentIdx) && Selection() == old(Selection())
    {
      var item := data[currentIdx];
      if ItemText(item) == "" {
        return NoText;
      }
      var annotation := BuildAnnotation(annotator, currentSheet, item, selectedWords, timestamp);
      annotations := annotations + [annotation];
      if currentIdx < |data| - 1 {
        currentIdx := currentIdx + 1;
        selectedWords := {};
        selecting := false;
        selectStart := None;
        outcome := SavedAndAdvanced;
      } else {
        outcome := SavedLastRow;
      }
    }
  }

  /** Loading a dataset keeps the selection: a character selected on a longer
      row stays selected on a shorter row of the next dataset. */
  method StaleSelectionAfterLoad() returns (s: AnnotationSession)
    ensures s.Valid() && s.dataLoaded
    ensures 1 in s.selectedWords && |s.CurrentText()| == 1
    ensures !s.SelectionWithinText()
  {
    s := new AnnotationSession();
    s.LoadDataset("first", [Item(Some("AB"), None, None)]);
    s.ClickUnit(1);
    s.LoadDataset("second", [Item(Some("C"), None, None)]);
  }

  /** A row without text draws no character buttons and no list of selected
      characters, so the save button is reached even with a selection kept
      from a longer row, and saving there changes nothing. */
  method SaveOnTextlessRowAfterLoad() returns (s: AnnotationSession, outcome: SaveOutcome)
    ensures s.Valid() && s.dataLoaded && 1 in s.selectedWords
    ensures outcome == NoText && s.annotations == [] && s.currentIdx == 0
  {
    s := new AnnotationSession();
    s.LoadDataset("first", [Item(Some("AB"), None, None)]);
    s.ClickUnit(1);
    s.LoadDataset("second", [Item(None, None, None)]);
    outcome := s.SaveAndNext("annotator", "2024-01-01 00:00:00");
  }
}
