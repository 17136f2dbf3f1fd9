// The output shape of the text preprocessor,
// src/lib/moderation/filter/preprocessor/PreprocessorOutput.ts.
module PreprocessorOutput {
  /**
   * `TextPreprocessorOutput`: the characters kept, the word boundary start and
   * end indices, and for each kept character its index in the input.
   * Being a value, every `EmptyTextOutput()` is a fresh one.
   */
  datatype TextPreprocessorOutput = TextPreprocessorOutput(
    characters: seq<int>,
    wordBoundaryStartIndices: seq<int>,
    wordBoundaryEndIndices: seq<int>,
    originalIndices: seq<int>)

  /** The number of buffered values across the four arrays. */
  function Size(o: TextPreprocessorOutput): nat
  {
    |o.characters| + |o.wordBoundaryStartIndices| + |o.wordBoundaryEndIndices| + |o.originalIndices|
  }

  /** `emptyOutput`: four empty arrays. */
  function EmptyTextOutput(): (r: TextPreprocessorOutput)
    ensures Size(r) == 0
  {
    TextPreprocessorOutput([], [], [], [])
  }

  /** `SpecialCharacters`: values written in place of a character. */
  datatype SpecialCharacter = WhiteSpace | Symbol

  /** The numeric value of a sentinel: negative, so never a code point, and distinct per sentinel. */
  function Code(s: SpecialCharacter): (c: int)
    ensures c < 0
    ensures s == WhiteSpace ==> c == -2
    ensures s == Symbol ==> c == -1
  {
    match s
    case WhiteSpace => -2
    case Symbol => -1
  }

  /** Two different sentinels have different values. */
  lemma CodeInjective(s: SpecialCharacter, t: SpecialCharacter)
    ensures Code(s) == Code(t) <==> s == t
  {
  }
}
