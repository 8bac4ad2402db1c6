/** The sidebar figures and the column widths of the Excel export. The
    workbook itself (pandas, openpyxl, the download button) is not part of
    this model: only the width each column is given. */
module Export {
  import opened Wrappers
  import opened Annotations

  /** The columns of the exported sheet, in the order the annotation record
      lists its keys. */
  const Columns: seq<string> := [
    "annotator", "dataset", "filename", "speaker", "text",
    "emphasized_words", "emphasized_indices", "annotated_text",
    "has_emphasis", "timestamp"]

  /** No column is made wider than this. */
  const MaxWidth: nat := 50

  /** Python's `str` of a boolean. */
  function BoolText(b: bool): string {
    if b then "True" else "False"
  }

  /** Python's `str` of the dataset name, which is `None` before any load. */
  function DatasetText(d: Option<string>): string {
    match d
    case None => "None"
    case Some(name) => name
  }

  /** `df[col].astype(str)` for one annotation and the column at `col`. */
  function Cell(a: Annotation, col: nat): (c: string)
    requires col < |Columns|
    ensures col == 1 ==> c == (if a.dataset.Some? then a.dataset.value else "None")
    ensures col == 8 ==> (c == "True" || c == "False") && (c == "True" <==> a.hasEmphasis)
    ensures col == 4 ==> c == a.text
  {
    match col
    case 0 => a.annotator
    case 1 => DatasetText(a.dataset)
    case 2 => a.filename
    case 3 => a.speaker
    case 4 => a.text
    case 5 => a.emphasizedWords
    case 6 => a.emphasizedIndices
    case 7 => a.annotatedText
    case 8 => BoolText(a.hasEmphasis)
    case _ => a.timestamp
  }

  /** The column at `col`, as strings. */
  function Column(anns: seq<Annotation>, col: nat): (cells: seq<string>)
    requires col < |Columns|
    ensures |cells| == |anns|
  {
    seq(|anns|, i requires 0 <= i < |anns| => Cell(anns[i], col))
  }

  /** `.apply(len).max()`: the length of the longest cell. */
  function MaxLength(cells: seq<string>): (m: nat)
    requires |cells| > 0
    ensures forall i :: 0 <= i < |cells| ==> |cells[i]| <= m
    ensures exists i :: 0 <= i < |cells| && |cells[i]| == m
  {
    if |cells| == 1 then |cells[0]|
    else
      var rest := MaxLength(cells[1..]);
      assert forall i :: 1 <= i < |cells| ==> cells[i] == cells[1..][i - 1];
      if |cells[0]| >= rest then |cells[0]| else rest
  }

  /** `min(max(longest cell, len(header)) + 2, 50)`: two characters wider
      than the longest of the header and the cells, but never more than 50. */
  function ColumnWidth(cells: seq<string>, header: string): (w: nat)
    requires |cells| > 0
    ensures w <= MaxWidth
    ensures |header| + 2 <= w || w == MaxWidth
    ensures forall i :: 0 <= i < |cells| ==> |cells[i]| + 2 <= w || w == MaxWidth
    ensures w == MaxWidth || w == |header| + 2 || exists i :: 0 <= i < |cells| && w == |cells[i]| + 2
    ensures w == MaxWidth ==> |header| + 2 >= MaxWidth || exists i :: 0 <= i < |cells| && |cells[i]| + 2 >= MaxWidth
  {
    var longest := if MaxLength(cells) >= |header| then MaxLength(cells) else |header|;
    if longest + 2 <= MaxWidth then longest + 2 else MaxWidth
  }

  /** The loop over `df.columns`: the width given to each column in turn
      (column `k` is the sheet column with letter `chr(65 + k)`). The sidebar
      only offers the export when there is at least one annotation. */
  method ColumnWidths(anns: seq<Annotation>) returns (widths: seq<nat>)
    requires |anns| > 0
    ensures |widths| == |Columns|
    ensures forall k :: 0 <= k < |Columns| ==> widths[k] == ColumnWidth(Column(anns, k), Columns[k])
  {
    widths := [];
    for k := 0 to |Columns|
      invariant |widths| == k
      invariant forall j :: 0 <= j < k ==> widths[j] == ColumnWidth(Column(anns, j), Columns[j])
    {
      widths := widths + [ColumnWidth(Column(anns, k), Columns[k])];
    }
  }

  /** The `has_emphasis` column holds only `True` and `False`, so its header
      decides its width: twelve characters plus two. */
  lemma HasEmphasisWidth(anns: seq<Annotation>)
    requires |anns| > 0
    ensures ColumnWidth(Column(anns, 8), Columns[8]) == 14
  {
    var cells := Column(anns, 8);
    assert |Columns[8]| == 12;
    forall i | 0 <= i < |cells| ensures |cells[i]| <= 5 {
      assert cells[i] == BoolText(anns[i].hasEmphasis);
    }
  }
}
