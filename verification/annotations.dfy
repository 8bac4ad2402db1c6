/** The annotation record built by "save and next": the selected character
    indices in ascending order, the emphasised characters, the text with every
    selected character wrapped in brackets, and the emphasis flag. */
module Annotations {
  import opened Wrappers
  import opened Strings
  import opened Decimal
  import opened Tokenizer

  /** One row of the loaded sheet. A column the sheet lacks is `None`. */
  datatype Item = Item(text: Option<string>, speaker: Option<string>, filename: Option<string>)

  /** `item.get('text', '')`: the cell when the sheet has the column, empty
      text otherwise. */
  function ItemText(item: Item): (t: string)
    ensures item.text.Some? ==> t == item.text.value
    ensures item.text.None? ==> t == ""
  {
    item.text.GetOr("")
  }

  /** `item.get(key, 'N/A')`: the cell when the sheet has the column, `N/A`
      otherwise. */
  function OrNotAvailable(field: Option<string>): (t: string)
    ensures field.Some? ==> t == field.value
    ensures field.None? ==> t == "N/A"
  {
    field.GetOr("N/A")
  }

  /** One finalized annotation, with its fields in the order of the export. */
  datatype Annotation = Annotation(
    annotator: string,
    dataset: Option<string>,
    filename: string,
    speaker: string,
    text: string,
    emphasizedWords: string,
    emphasizedIndices: string,
    annotatedText: string,
    hasEmphasis: bool,
    timestamp: string)

  /** Every selected index is a position of a text of length `n`. */
  predicate InBounds(sel: set<int>, n: int) {
    forall i :: i in sel ==> 0 <= i < n
  }

  /** The selected indices in `[k, n)`. */
  function MarkedIn(sel: set<int>, k: int, n: int): set<int> {
    set i | i in sel && k <= i < n
  }

  lemma MarkedInStep(sel: set<int>, k: int, n: int)
    requires k < n
    ensures k !in MarkedIn(sel, k + 1, n)
    ensures MarkedIn(sel, k, n) == (if k in sel then {k} else {}) + MarkedIn(sel, k + 1, n)
  {
  }

  predicate StrictlyIncreasing(xs: seq<int>) {
    forall a, b :: 0 <= a < b < |xs| ==> xs[a] < xs[b]
  }

  /** The selected indices in `[k, n)`, in ascending order. */
  function SortedFrom(sel: set<int>, k: nat, n: nat): (r: seq<int>)
    requires k <= n
    ensures StrictlyIncreasing(r)
    ensures forall j :: 0 <= j < |r| ==> k <= r[j] < n
    ensures forall x :: x in r <==> x in sel && k <= x < n
    decreases n - k
  {
    if k == n then []
    else
      var rest := SortedFrom(sel, k + 1, n);
      if k in sel then
        assert forall j :: 0 <= j < |rest| ==> k < rest[j];
        [k] + rest
      else
        rest
  }

  lemma {:induction false} SortedFromCount(sel: set<int>, k: nat, n: nat)
    requires k <= n
    ensures |SortedFrom(sel, k, n)| == |MarkedIn(sel, k, n)|
    decreases n - k
  {
    if k < n {
      MarkedInStep(sel, k, n);
      SortedFromCount(sel, k + 1, n);
    }
  }

  /** `sorted(list(selected_words))` for a selection inside a text of length `n`:
      the selected indices, each once, in ascending order. */
  function SortedIndices(sel: set<int>, n: nat): (r: seq<int>)
    requires InBounds(sel, n)
    ensures StrictlyIncreasing(r)
    ensures forall j :: 0 <= j < |r| ==> 0 <= r[j] < n
    ensures forall x :: x in r <==> x in sel
    ensures |r| == |sel|
  {
    assert MarkedIn(sel, 0, n) == sel;
    SortedFromCount(sel, 0, n);
    SortedFrom(sel, 0, n)
  }

  /** A set has only one ascending listing without repeats, so the listing above
      is the one Python's `sorted` produces. */
  lemma {:induction false} SortedUnique(xs: seq<int>, ys: seq<int>)
    requires StrictlyIncreasing(xs) && StrictlyIncreasing(ys)
    requires forall x :: x in xs <==> x in ys
    ensures xs == ys
  {
    if xs != [] {
      assert xs[0] in xs;
    }
    if ys != [] {
      assert ys[0] in ys;
    }
    if xs != [] && ys != [] {
      assert xs[0] in ys && ys[0] in xs;
      assert xs[0] == ys[0];
      forall x ensures x in xs[1..] <==> x in ys[1..] {
        if x in xs[1..] {
          assert x in ys && x != ys[0];
        }
        if x in ys[1..] {
          assert x in xs && x != xs[0];
        }
      }
      SortedUnique(xs[1..], ys[1..]);
      assert xs == [xs[0]] + xs[1..] && ys == [ys[0]] + ys[1..];
    }
  }

  /** `[words[i] for i in selected_indices]`. */
  function EmphasizedWords(words: seq<string>, idxs: seq<int>): (ws: seq<string>)
    requires forall k :: 0 <= k < |idxs| ==> 0 <= idxs[k] < |words|
    ensures |ws| == |idxs|
    ensures forall k :: 0 <= k < |idxs| ==> ws[k] == words[idxs[k]]
  {
    seq(|idxs|, k requires 0 <= k < |idxs| => words[idxs[k]])
  }

  /** `map(str, selected_indices)`. */
  function IndexStrings(idxs: seq<int>): (strs: seq<string>)
    requires forall k :: 0 <= k < |idxs| ==> 0 <= idxs[k]
    ensures |strs| == |idxs|
    ensures forall k :: 0 <= k < |idxs| ==> |strs[k]| > 0 && forall i :: 0 <= i < |strs[k]| ==> IsDigit(strs[k][i])
    ensures forall k :: 0 <= k < |idxs| ==> (strs[k][0] == '0' ==> idxs[k] == 0)
  {
    seq(|idxs|, k requires 0 <= k < |idxs| => NatToString(idxs[k]))
  }

  /** One unit as it appears in `annotated_text`. */
  function RenderUnit(words: seq<string>, sel: set<int>, i: int): string
    requires 0 <= i < |words|
  {
    if i in sel then "[" + words[i] + "]" else words[i]
  }

  /** The units from position `k` on, rendered and concatenated. */
  function BracketedFrom(words: seq<string>, sel: set<int>, k: nat): string
    requires k <= |words|
    decreases |words| - k
  {
    if k == |words| then "" else RenderUnit(words, sel, k) + BracketedFrom(words, sel, k + 1)
  }

  /** `annotated_text`: every selected unit wrapped in `[` and `]`, in text order. */
  function Bracketed(words: seq<string>, sel: set<int>): (r: string)
    ensures |r| == SumLengths(words) + 2 * |MarkedIn(sel, 0, |words|)|
  {
    BracketedFromLength(words, sel, 0);
    assert words[0..] == words;
    BracketedFrom(words, sel, 0)
  }

  /** The loop that accumulates `bracketed_text`. */
  method BuildBracketedText(words: seq<string>, sel: set<int>) returns (s: string)
    ensures s == Bracketed(words, sel)
  {
    s := "";
    var i := 0;
    while i < |words|
      invariant 0 <= i <= |words|
      invariant s + BracketedFrom(words, sel, i) == BracketedFrom(words, sel, 0)
    {
      ghost var before := s;
      if i in sel {
        s := s + ("[" + words[i] + "]");
      } else {
        s := s + words[i];
      }
      assert before + (RenderUnit(words, sel, i) + BracketedFrom(words, sel, i + 1))
          == (before + RenderUnit(words, sel, i)) + BracketedFrom(words, sel, i + 1);
      i := i + 1;
    }
    assert s == BracketedFrom(words, sel, 0);
  }

  /** Reads an annotated text back: the plain text and the positions (counted
      from `k`) that were wrapped in brackets. */
  function Unmark(s: string, k: int): (string, set<int>)
    decreases |s|
  {
    if |s| == 0 then ("", {})
    else if |s| >= 3 && s[0] == '[' && s[2] == ']' then
      var rest := Unmark(s[3..], k + 1);
      ([s[1]] + rest.0, {k} + rest.1)
    else
      var rest := Unmark(s[1..], k + 1);
      ([s[0]] + rest.0, rest.1)
  }

  /** Every unit adds its own character, and two brackets when it is selected. */
  lemma {:induction false} BracketedFromLength(words: seq<string>, sel: set<int>, k: nat)
    requires k <= |words|
    ensures |BracketedFrom(words, sel, k)| == SumLengths(words[k..]) + 2 * |MarkedIn(sel, k, |words|)|
    decreases |words| - k
  {
    if k < |words| {
      MarkedInStep(sel, k, |words|);
      BracketedFromLength(words, sel, k + 1);
      assert words[k..][1..] == words[k + 1..];
    } else {
      assert MarkedIn(sel, k, |words|) == {};
    }
  }

  /** For a text without `[`, the annotated text determines the text and the
      selected positions. */
  lemma {:induction false} UnmarkBracketedFrom(text: string, sel: set<int>, k: nat)
    requires k <= |text|
    requires forall i :: 0 <= i < |text| ==> text[i] != '['
    ensures Unmark(BracketedFrom(Tokenize(text), sel, k), k) == (text[k..], MarkedIn(sel, k, |text|))
    decreases |text| - k
  {
    if k < |text| {
      var words := Tokenize(text);
      var rest := BracketedFrom(words, sel, k + 1);
      var s := BracketedFrom(words, sel, k);
      assert words[k] == [text[k]];
      UnmarkBracketedFrom(text, sel, k + 1);
      MarkedInStep(sel, k, |text|);
      assert text[k..] == [text[k]] + text[k + 1..];
      if k in sel {
        assert s == "[" + [text[k]] + "]" + rest;
        UnmarkBracket(text[k], rest, k);
      } else {
        assert s == [text[k]] + rest;
        UnmarkPlain(text[k], rest, k);
        assert MarkedIn(sel, k, |text|) == MarkedIn(sel, k + 1, |text|);
      }
    } else {
      assert BracketedFrom(Tokenize(text), sel, k) == "";
      assert text[k..] == "";
      assert MarkedIn(sel, k, |text|) == {};
    }
  }

  /** A bracketed character reads back as that character, marked. */
  lemma UnmarkBracket(c: char, rest: string, k: int)
    ensures var r := Unmark(rest, k + 1);
      Unmark("[" + [c] + "]" + rest, k) == ([c] + r.0, {k} + r.1)
  {
    var s := "[" + [c] + "]" + rest;
    assert s[0] == '[' && s[2] == ']' && s[1] == c && s[3..] == rest;
  }

  /** Any other character reads back as itself, unmarked. */
  lemma UnmarkPlain(c: char, rest: string, k: int)
    requires c != '['
    ensures var r := Unmark(rest, k + 1);
      Unmark([c] + rest, k) == ([c] + r.0, r.1)
  {
    var s := [c] + rest;
    assert s[0] == c && s[1..] == rest;
  }

  /** The annotation appended for `item` with selection `sel`. */
  function AnnotationFor(annotator: string, dataset: Option<string>, item: Item, sel: set<int>, timestamp: string): (a: Annotation)
    requires InBounds(sel, |ItemText(item)|)
    ensures a.annotator == annotator && a.dataset == dataset && a.timestamp == timestamp
    ensures a.text == ItemText(item)
    ensures a.filename == OrNotAvailable(item.filename) && a.speaker == OrNotAvailable(item.speaker)
    ensures a.hasEmphasis <==> sel != {}
  {
    var text := ItemText(item);
    var words := Tokenize(text);
    var idxs := SortedIndices(sel, |words|);
    var emphasized := EmphasizedWords(words, idxs);
    Annotation(
      annotator,
      dataset,
      OrNotAvailable(item.filename),
      OrNotAvailable(item.speaker),
      text,
      if |emphasized| > 0 then Join(", ", emphasized) else "",
      if |idxs| > 0 then Join(", ", IndexStrings(idxs)) else "",
      Bracketed(words, sel),
      |emphasized| > 0,
      timestamp)
  }

  /** The record built by the save handler, step by step: the sorted indices,
      the emphasised characters, the bracketed text from its loop, and the
      joined fields. */
  method BuildAnnotation(annotator: string, dataset: Option<string>, item: Item, sel: set<int>, timestamp: string)
    returns (a: Annotation)
    requires InBounds(sel, |ItemText(item)|)
    ensures a == AnnotationFor(annotator, dataset, item, sel, timestamp)
  {
    var text := ItemText(item);
    var words := Tokenize(text);
    var selectedIndices := SortedIndices(sel, |words|);
    var emphasizedWords := EmphasizedWords(words, selectedIndices);
    var bracketedText := BuildBracketedText(words, sel);
    a := Annotation(
      annotator,
      dataset,
      OrNotAvailable(item.filename),
      OrNotAvailable(item.speaker),
      text,
      if |emphasizedWords| > 0 then Join(", ", emphasizedWords) else "",
      if |selectedIndices| > 0 then Join(", ", IndexStrings(selectedIndices)) else "",
      bracketedText,
      |emphasizedWords| > 0,
      timestamp);
  }

  /** `has_emphasis` holds exactly when something is selected, and the two
      joined fields are empty exactly when nothing is selected. */
  lemma AnnotationEmphasis(annotator: string, dataset: Option<string>, item: Item, sel: set<int>, timestamp: string)
    requires InBounds(sel, |ItemText(item)|)
    ensures var a := AnnotationFor(annotator, dataset, item, sel, timestamp);
      && (a.hasEmphasis <==> sel != {})
      && (a.emphasizedWords == "" <==> sel == {})
      && (a.emphasizedIndices == "" <==> sel == {})
      && a.text == ItemText(item)
  {
    var text := ItemText(item);
    var words := Tokenize(text);
    var idxs := SortedIndices(sel, |words|);
    if sel != {} {
      var x :| x in sel;
      assert x in idxs;
      JoinEmpty(", ", EmphasizedWords(words, idxs));
      JoinEmpty(", ", IndexStrings(idxs));
    }
  }

  /** The annotated text is the text plus two brackets per selected character,
      and for a text without `[` reading it back gives the text and the selection. */
  lemma AnnotatedText(annotator: string, dataset: Option<string>, item: Item, sel: set<int>, timestamp: string)
    requires InBounds(sel, |ItemText(item)|)
    ensures var a := AnnotationFor(annotator, dataset, item, sel, timestamp);
      && |a.annotatedText| == |a.text| + 2 * |sel|
      && ((forall i :: 0 <= i < |a.text| ==> a.text[i] != '[') ==> Unmark(a.annotatedText, 0) == (a.text, sel))
  {
    var text := ItemText(item);
    assert MarkedIn(sel, 0, |text|) == sel;
    OneCharLengths(Tokenize(text));
    if forall i :: 0 <= i < |text| ==> text[i] != '[' {
      UnmarkBracketedFrom(text, sel, 0);
    }
  }

  /** `emphasized_words` lists the selected characters in text order, separated
      by `", "`; splitting it gives them back, whichever characters they are. */
  lemma EmphasizedWordsField(annotator: string, dataset: Option<string>, item: Item, sel: set<int>, timestamp: string)
    requires InBounds(sel, |ItemText(item)|) && sel != {}
    ensures var a := AnnotationFor(annotator, dataset, item, sel, timestamp);
      var idxs := SortedIndices(sel, |a.text|);
      var parts := SplitAll(a.emphasizedWords, ", ");
      && |parts| == |sel|
      && (forall k :: 0 <= k < |parts| ==> parts[k] == [a.text[idxs[k]]])
      && |a.emphasizedWords| == 3 * |sel| - 2
  {
    var text := ItemText(item);
    var words := Tokenize(text);
    var idxs := SortedIndices(sel, |words|);
    var emphasized := EmphasizedWords(words, idxs);
    var x :| x in sel;
    assert x in idxs;
    forall k | 0 <= k < |emphasized| ensures emphasized[k] == [text[idxs[k]]] {
      assert idxs[k] in sel;
    }
    assert AnnotationFor(annotator, dataset, item, sel, timestamp).emphasizedWords == Join(", ", emphasized);
    OneCharacterJoin(emphasized);
  }

  /** Single characters joined with `", "` split back into the list and take
      three characters per entry but the last. */
  lemma OneCharacterJoin(ws: seq<string>)
    requires |ws| > 0
    requires forall k :: 0 <= k < |ws| ==> |ws[k]| == 1
    ensures SplitAll(Join(", ", ws), ", ") == ws
    ensures |Join(", ", ws)| == 3 * |ws| - 2
  {
    OneCharacterPieces(ws);
    JoinLength(", ", ws);
    OneCharLengths(ws);
  }

  /** A list of single characters joined with `", "` splits back into the
      list, even when some of them are `,` or a space: the separator's comma
      always sits one past the start of a three-character step, so the first
      `", "` is always the one right after the first piece. */
  lemma {:induction false} OneCharacterPieces(ws: seq<string>)
    requires |ws| > 0
    requires forall k :: 0 <= k < |ws| ==> |ws[k]| == 1
    ensures SplitAll(Join(", ", ws), ", ") == ws
  {
    var x := ws[0];
    if |ws| == 1 {
      assert Find(x, ", ") == None;
    } else {
      var rest := Join(", ", ws[1..]);
      var s := x + ", " + rest;
      assert s[1..3] == ", ";
      assert s[0..2] != ", " by {
        assert s[0..2][1] == ',' != ' ';
      }
      assert FindFrom(s, ", ", 1) == Some(1);
      assert Find(s, ", ") == Some(1);
      assert s[..1] == x;
      assert s[3..] == rest;
      OneCharacterPieces(ws[1..]);
    }
  }

  lemma {:induction false} OneCharLengths(xs: seq<string>)
    requires forall k :: 0 <= k < |xs| ==> |xs[k]| == 1
    ensures SumLengths(xs) == |xs|
  {
    if |xs| > 0 {
      OneCharLengths(xs[1..]);
    }
  }

  /** `emphasized_indices` reads back, piece by piece, as the selected indices in
      ascending order. */
  lemma EmphasizedIndicesField(annotator: string, dataset: Option<string>, item: Item, sel: set<int>, timestamp: string)
    requires InBounds(sel, |ItemText(item)|) && sel != {}
    ensures var a := AnnotationFor(annotator, dataset, item, sel, timestamp);
      var idxs := SortedIndices(sel, |a.text|);
      var parts := SplitAll(a.emphasizedIndices, ", ");
      && |parts| == |idxs|
      && forall k :: 0 <= k < |parts| ==> (forall i :: 0 <= i < |parts[k]| ==> IsDigit(parts[k][i])) && ParseDigits(parts[k]) == idxs[k]
  {
    var text := ItemText(item);
    var idxs := SortedIndices(sel, |text|);
    var x :| x in sel;
    assert x in idxs;
    IndexPieces(idxs);
  }

  /** The indices rendered with `str` and joined with `", "` split back into
      digit strings that read as the indices. */
  lemma IndexPieces(idxs: seq<int>)
    requires |idxs| > 0 && forall k :: 0 <= k < |idxs| ==> 0 <= idxs[k]
    ensures var parts := SplitAll(Join(", ", IndexStrings(idxs)), ", ");
      && |parts| == |idxs|
      && forall k :: 0 <= k < |parts| ==> (forall i :: 0 <= i < |parts[k]| ==> IsDigit(parts[k][i])) && ParseDigits(parts[k]) == idxs[k]
  {
    var strs := IndexStrings(idxs);
    forall k, i | 0 <= k < |strs| && 0 <= i < |strs[k]| ensures strs[k][i] != ',' {
      assert IsDigit(strs[k][i]);
    }
    SplitJoin(", ", strs);
    forall k | 0 <= k < |strs| ensures ParseDigits(strs[k]) == idxs[k] {
      ParseNatToString(idxs[k]);
    }
  }

  /** `sum(1 for a in annotations if a['has_emphasis'])`. */
  function CountWithEmphasis(anns: seq<Annotation>): (r: nat)
    ensures r <= |anns|
  {
    if |anns| == 0 then 0
    else CountWithEmphasis(anns[..|anns| - 1]) + (if anns[|anns| - 1].hasEmphasis then 1 else 0)
  }

  /** The positions of the annotations whose `has_emphasis` is `flag`. */
  function WithFlag(anns: seq<Annotation>, flag: bool): set<int> {
    set i | 0 <= i < |anns| && anns[i].hasEmphasis == flag
  }

  lemma WithFlagStep(anns: seq<Annotation>, flag: bool)
    requires |anns| > 0
    ensures var n := |anns|;
      WithFlag(anns, flag) == WithFlag(anns[..n - 1], flag) + (if anns[n - 1].hasEmphasis == flag then {n - 1} else {})
  {
    var n := |anns|;
    assert forall i :: 0 <= i < n - 1 ==> anns[..n - 1][i] == anns[i];
  }

  /** The count is exactly the number of annotations with emphasis, so the
      "without emphasis" figure `len - count` is the number of the others. */
  lemma CountWithEmphasisExact(anns: seq<Annotation>)
    ensures CountWithEmphasis(anns) == |WithFlag(anns, true)|
    ensures |anns| - CountWithEmphasis(anns) == |WithFlag(anns, false)|
  {
    CountIsWithFlag(anns);
    FlagsPartition(anns);
  }

  lemma {:induction false} CountIsWithFlag(anns: seq<Annotation>)
    ensures CountWithEmphasis(anns) == |WithFlag(anns, true)|
  {
    var n := |anns|;
    if n == 0 {
      assert WithFlag(anns, true) == {};
    } else {
      var front := WithFlag(anns[..n - 1], true);
      CountIsWithFlag(anns[..n - 1]);
      WithFlagStep(anns, true);
      assert n - 1 !in front;
      if anns[n - 1].hasEmphasis {
        assert |front + {n - 1}| == |front| + 1;
      }
    }
  }

  /** Every annotation has the flag or not, and not both. */
  lemma {:induction false} FlagsPartition(anns: seq<Annotation>)
    ensures |WithFlag(anns, true)| + |WithFlag(anns, false)| == |anns|
  {
    var n := |anns|;
    if n == 0 {
      assert WithFlag(anns, true) == {} && WithFlag(anns, false) == {};
    } else {
      var yes := WithFlag(anns[..n - 1], true);
      var no := WithFlag(anns[..n - 1], false);
      FlagsPartition(anns[..n - 1]);
      WithFlagStep(anns, true);
      WithFlagStep(anns, false);
      assert n - 1 !in yes && n - 1 !in no;
      if anns[n - 1].hasEmphasis {
        assert |yes + {n - 1}| == |yes| + 1;
      } else {
        assert |no + {n - 1}| == |no| + 1;
      }
    }
  }
}
