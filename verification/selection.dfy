/** The per-item selection state (`selected_words`, `selecting`, `select_start`)
    and what each selection button does to it. */
module SelectionModel {
  import opened Wrappers

  datatype SelectionState = SelectionState(marked: set<int>, selecting: bool, start: Option<int>)

  /** No character selected, range mode off, no range anchor. */
  const Cleared := SelectionState({}, false, None)

  function Min(a: int, b: int): int { if a <= b then a else b }
  function Max(a: int, b: int): int { if a <= b then b else a }

  /** The integers from `lo` to `hi` inclusive. */
  function Interval(lo: int, hi: int): (r: set<int>)
    ensures forall i :: i in r <==> lo <= i <= hi
    decreases hi - lo
  {
    if hi < lo then {} else Interval(lo, hi - 1) + {hi}
  }

  /** `range(min(a, b), max(a, b) + 1)` as a set. */
  function Span(a: int, b: int): (r: set<int>)
    ensures forall i :: i in r <==> (a <= i <= b || b <= i <= a)
  {
    Interval(Min(a, b), Max(a, b))
  }

  /** The range-mode button: flips `selecting`, dropping the anchor when the mode
      is turned off. */
  function ToggleRangeMode(s: SelectionState): (r: SelectionState)
    ensures r.marked == s.marked && r.selecting == !s.selecting
    ensures r.start == if r.selecting then s.start else None
  {
    var selecting := !s.selecting;
    SelectionState(s.marked, selecting, if !selecting then None else s.start)
  }

  /** A click on character `idx` in normal mode: flips whether `idx` is selected. */
  function ToggleUnit(s: SelectionState, idx: int): (r: SelectionState)
    ensures forall i :: i in r.marked <==> (i in s.marked) != (i == idx)
    ensures r.selecting == s.selecting && r.start == s.start
  {
    if idx in s.marked then s.(marked := s.marked - {idx}) else s.(marked := s.marked + {idx})
  }

  /** A click on character `idx` in range mode: the first click anchors the range,
      the second selects every index between the anchor and `idx` and leaves
      range mode. */
  function RangeClick(s: SelectionState, idx: int): (r: SelectionState)
    ensures s.start.None? ==> r == s.(start := Some(idx))
    ensures s.start.Some? ==>
      && (forall i :: i in r.marked <==> i in s.marked || i in Span(s.start.value, idx))
      && !r.selecting && r.start.None?
  {
    match s.start
    case None => s.(start := Some(idx))
    case Some(a) => SelectionState(s.marked + Span(a, idx), false, None)
  }

  /** A click on character `idx`, in whichever mode is on. */
  function Click(s: SelectionState, idx: int): (r: SelectionState)
    ensures !s.selecting ==>
      && !r.selecting && r.start == s.start
      && (idx in r.marked <==> idx !in s.marked)
      && forall i :: i != idx ==> (i in r.marked <==> i in s.marked)
    ensures s.selecting && s.start.None? ==> r.selecting && r.start == Some(idx) && r.marked == s.marked
    ensures s.selecting && s.start.Some? ==>
      && !r.selecting && r.start.None? && s.marked <= r.marked
      && idx in r.marked && s.start.value in r.marked
  {
    if s.selecting then RangeClick(s, idx) else ToggleUnit(s, idx)
  }

  /** The selection after a series of normal-mode clicks. */
  function ToggleAll(marked: set<int>, clicks: seq<int>): set<int>
  {
    if |clicks| == 0 then marked
    else ToggleUnit(SelectionState(ToggleAll(marked, clicks[..|clicks| - 1]), false, None), clicks[|clicks| - 1]).marked
  }

  function Occurrences(clicks: seq<int>, i: int): nat
  {
    if |clicks| == 0 then 0
    else Occurrences(clicks[..|clicks| - 1], i) + (if clicks[|clicks| - 1] == i then 1 else 0)
  }

  /** After any series of normal-mode clicks, an index is selected exactly when
      it was selected before and was clicked an even number of times, or was
      not and was clicked an odd number of times. */
  lemma {:induction false} ToggleAllParity(marked: set<int>, clicks: seq<int>, i: int)
    ensures i in ToggleAll(marked, clicks) <==> (i in marked) != (Occurrences(clicks, i) % 2 == 1)
  {
    if |clicks| > 0 {
      ToggleAllParity(marked, clicks[..|clicks| - 1], i);
    }
  }

  /** Two range-mode clicks select the same span in either order. */
  lemma RangeClicksCommute(s: SelectionState, a: int, b: int)
    requires s.selecting && s.start.None?
    ensures Click(Click(s, a), b) == Click(Click(s, b), a)
    ensures var r := Click(Click(s, a), b);
      r == SelectionState(s.marked + Span(a, b), false, None)
  {
    assert Span(a, b) == Span(b, a);
  }

  /** A span covers `|a - b| + 1` indices. */
  lemma SpanSize(a: int, b: int)
    ensures |Span(a, b)| == Max(a, b) - Min(a, b) + 1
  {
    IntervalSize(Min(a, b), Max(a, b));
  }

  lemma {:induction false} IntervalSize(lo: int, hi: int)
    requires lo <= hi
    ensures |Interval(lo, hi)| == hi - lo + 1
    decreases hi - lo
  {
    if lo < hi {
      IntervalSize(lo, hi - 1);
      assert hi !in Interval(lo, hi - 1);
    }
  }

  /** The anchor is only ever set while range mode is on, and no index is negative. */
  predicate WellFormed(s: SelectionState) {
    && (s.start.Some? ==> s.selecting && 0 <= s.start.value)
    && forall i :: i in s.marked ==> 0 <= i
  }

  /** Every selected index and the anchor are positions of a text of length `n`. */
  predicate WithinText(s: SelectionState, n: int) {
    && (forall i :: i in s.marked ==> 0 <= i < n)
    && (s.start.Some? ==> 0 <= s.start.value < n)
  }

  /** Clicks on characters of the text and the range-mode button keep the
      selection well formed, and keep it inside the text if it was. */
  lemma ClickKeepsInvariants(s: SelectionState, n: int, idx: int)
    requires WellFormed(s) && 0 <= idx < n
    ensures WellFormed(Click(s, idx)) && WellFormed(ToggleRangeMode(s))
    ensures WithinText(s, n) ==> WithinText(Click(s, idx), n) && WithinText(ToggleRangeMode(s), n)
  {
  }
}
