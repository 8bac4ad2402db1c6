/** `tokenize_text`: the text of an utterance split into one-character units.
    Python's `list(text)` splits by code point; Dafny's `char` is a Unicode
    scalar value, so one unit here is one Python character. */
module Tokenizer {

  function Tokenize(text: string): (words: seq<string>)
    ensures |words| == |text|
    ensures forall i :: 0 <= i < |text| ==> |words[i]| == 1 && words[i][0] == text[i]
  {
    seq(|text|, i requires 0 <= i < |text| => [text[i]])
  }

  /** `''.join(words)`. */
  function Concat(words: seq<string>): string
  {
    if |words| == 0 then "" else Concat(words[..|words| - 1]) + words[|words| - 1]
  }

  /** Joining the units of a text gives back the text. */
  lemma {:induction false} ConcatTokenize(text: string)
    ensures Concat(Tokenize(text)) == text
  {
    if |text| > 0 {
      var n := |text|;
      ConcatTokenize(text[..n - 1]);
      assert Tokenize(text)[..n - 1] == Tokenize(text[..n - 1]);
      assert text == text[..n - 1] + [text[n - 1]];
    }
  }
}
