// The preprocessor's output writer,
// src/lib/moderation/filter/preprocessor/PreprocessorOutputWriter.ts: it
// caps runs of one repeated character at a per-character limit and records a
// word boundary at the first separator after a word.
module PreprocessorOutputWriter {
  import opened PreprocessorOutput

  /** `PreprocessorOutputWriterOptions`. */
  datatype PreprocessorOutputWriterOptions = PreprocessorOutputWriterOptions(
    maxCharacterRunLength: int,
    maxCharacterRunLengthOverrides: map<int, int>)

  /** The run limit of `c`: its override when there is one, else the default. */
  function RunLimit(options: PreprocessorOutputWriterOptions, c: int): (l: int)
    ensures c in options.maxCharacterRunLengthOverrides ==> l == options.maxCharacterRunLengthOverrides[c]
    ensures c !in options.maxCharacterRunLengthOverrides ==> l == options.maxCharacterRunLength
  {
    if c in options.maxCharacterRunLengthOverrides then options.maxCharacterRunLengthOverrides[c]
    else options.maxCharacterRunLength
  }

  /**
   * The writer's state. `wordBoundaries` is the set written by
   * `writeSeparator`, which the output shape does not declare.
   */
  datatype WriterState = WriterState(
    output: TextPreprocessorOutput,
    wordBoundaries: set<int>,
    inWord: bool,
    lastWrittenCharacter: int,
    remainingCharacterWriteCounter: int)

  /** Characters and original indices are appended together. */
  predicate Aligned(s: WriterState)
  {
    |s.output.characters| == |s.output.originalIndices|
  }

  /** The state after construction or `reset`. */
  function Initial(): (s: WriterState)
    ensures Aligned(s) && Size(s.output) == 0 && s.wordBoundaries == {}
    ensures !s.inWord && s.lastWrittenCharacter == -1 && s.remainingCharacterWriteCounter == -1
  {
    WriterState(EmptyTextOutput(), {}, false, -1, -1)
  }

  /**
   * `writeAlphaCharacter(c, index)`: skipped exactly when `c` repeats the last
   * character and the run has no writes left; otherwise `c` and `index` are
   * appended, and the counter is re-armed from the limit of a new character
   * or counts down within a run.
   */
  function WriteAlpha(options: PreprocessorOutputWriterOptions, s: WriterState, c: int, index: int): (r: WriterState)
    ensures s.lastWrittenCharacter == c && s.remainingCharacterWriteCounter <= 0 ==> r == s
    ensures s.lastWrittenCharacter != c || s.remainingCharacterWriteCounter > 0 ==>
      r.output == s.output.(characters := s.output.characters + [c], originalIndices := s.output.originalIndices + [index])
      && r.wordBoundaries == s.wordBoundaries && r.inWord && r.lastWrittenCharacter == c
    ensures s.lastWrittenCharacter != c ==> r.remainingCharacterWriteCounter == RunLimit(options, c) - 1
    ensures s.lastWrittenCharacter == c && s.remainingCharacterWriteCounter > 0 ==>
      r.remainingCharacterWriteCounter == s.remainingCharacterWriteCounter - 1
    ensures Aligned(s) ==> Aligned(r)
  {
    var isDifferentCharacter := s.lastWrittenCharacter != c;
    var shouldWrite := isDifferentCharacter || s.remainingCharacterWriteCounter > 0;
    if !shouldWrite then s
    else
      var output := s.output.(characters := s.output.characters + [c], originalIndices := s.output.originalIndices + [index]);
      var counter :=
        if s.remainingCharacterWriteCounter == -1 || isDifferentCharacter then RunLimit(options, c) - 1
        else s.remainingCharacterWriteCounter - 1;
      s.(output := output, lastWrittenCharacter := c, inWord := true, remainingCharacterWriteCounter := counter)
  }

  /**
   * `writeSeparator`: at the end of a word, records the boundary
   * `characters.length - 2` and leaves the word; the output and the run
   * counter are untouched either way.
   */
  function Separator(s: WriterState): (r: WriterState)
    ensures !r.inWord
    ensures r.output == s.output && r.lastWrittenCharacter == s.lastWrittenCharacter
    ensures r.remainingCharacterWriteCounter == s.remainingCharacterWriteCounter
    ensures s.inWord ==> r.wordBoundaries == s.wordBoundaries + {|s.output.characters| - 2}
    ensures !s.inWord ==> r == s
  {
    if s.inWord then
      var position := |s.output.characters| - 1;
      s.(wordBoundaries := s.wordBoundaries + {position - 1}, inWord := false)
    else s
  }

  /** A run of separators records at most one boundary. */
  lemma SeparatorIdempotent(s: WriterState)
    ensures Separator(Separator(s)) == Separator(s)
  {
  }

  /** `n` consecutive writes of `c` at `index`. */
  function Repeat(options: PreprocessorOutputWriterOptions, s: WriterState, c: int, index: int, n: nat): WriterState
  {
    if n == 0 then s else WriteAlpha(options, Repeat(options, s, c, index, n - 1), c, index)
  }

  /** How many of `n >= 1` writes of a new character `c` are kept: `min(n, L)`, and one when `L <= 0`. */
  function Kept(options: PreprocessorOutputWriterOptions, c: int, n: nat): nat
  {
    var l := RunLimit(options, c);
    if l <= 0 then 1 else if n <= l then n else l
  }

  /** The state after a run of `n >= 1` writes of a new character `c`. */
  lemma {:induction false} RepeatState(options: PreprocessorOutputWriterOptions, s: WriterState, c: int, index: int, n: nat)
    requires s.lastWrittenCharacter != c && n >= 1
    ensures var r := Repeat(options, s, c, index, n);
      var l := RunLimit(options, c);
      var k := Kept(options, c, n);
      && r.lastWrittenCharacter == c
      && r.output.characters == s.output.characters + seq(k, _ => c)
      && r.remainingCharacterWriteCounter == (if l >= 1 then l - k else l - 1)
  {
    if n > 1 {
      RepeatState(options, s, c, index, n - 1);
      var t := Repeat(options, s, c, index, n - 1);
      var k := Kept(options, c, n - 1);
      if t.remainingCharacterWriteCounter > 0 {
        assert s.output.characters + seq(k, _ => c) + [c] == s.output.characters + seq(k + 1, _ => c);
      }
    }
  }

  /**
   * A run of `n` writes of a character other than the last one emits
   * exactly `min(n, L)` copies of it for its limit `L >= 1`, and one copy
   * for a limit below 1.
   */
  lemma RunLength(options: PreprocessorOutputWriterOptions, s: WriterState, c: int, index: int, n: nat)
    requires s.lastWrittenCharacter != c && n >= 1
    ensures var l := RunLimit(options, c);
      Repeat(options, s, c, index, n).output.characters
      == s.output.characters + seq(if l >= 1 && n > l then l else if l >= 1 then n else 1, _ => c)
  {
    RepeatState(options, s, c, index, n);
  }

  /** A separator inside a run does not restart it. */
  lemma SeparatorKeepsRun(options: PreprocessorOutputWriterOptions, s: WriterState, c: int, index: int)
    ensures WriteAlpha(options, Separator(s), c, index).output == WriteAlpha(options, s, c, index).output
  {
  }

  class PreprocessorOutputWriter {
    var rawOutput: TextPreprocessorOutput
    var wordBoundaries: set<int>
    const maxCharacterRunLength: int
    const maxCharacterRunLengthOverrides: map<int, int>
    var inWord: bool
    var lastWrittenCharacter: int
    var remainingCharacterWriteCounter: int

    function Options(): PreprocessorOutputWriterOptions
    {
      PreprocessorOutputWriterOptions(maxCharacterRunLength, maxCharacterRunLengthOverrides)
    }

    function State(): WriterState
      reads this
    {
      WriterState(rawOutput, wordBoundaries, inWord, lastWrittenCharacter, remainingCharacterWriteCounter)
    }

    /** The writer's invariant: characters and original indices stay aligned. */
    ghost predicate Valid()
      reads this
    {
      Aligned(State())
    }

    constructor (options: PreprocessorOutputWriterOptions)
      ensures Valid() && Options() == options && State() == Initial()
    {
      rawOutput := EmptyTextOutput();
      wordBoundaries := {};
      maxCharacterRunLength := options.maxCharacterRunLength;
      maxCharacterRunLengthOverrides := options.maxCharacterRunLengthOverrides;
      inWord := false;
      lastWrittenCharacter := -1;
      remainingCharacterWriteCounter := -1;
    }

    /** `getOutput`: every kept character has its original index. */
    function GetOutput(): (r: TextPreprocessorOutput)
      reads this
      requires Valid()
      ensures |r.characters| == |r.originalIndices|
    {
      rawOutput
    }

    /** `reset`: back to the state after construction. */
    method Reset()
      modifies this
      ensures Valid() && State() == Initial()
    {
      rawOutput := EmptyTextOutput();
      wordBoundaries := {};
      inWord := false;
      lastWrittenCharacter := -1;
      remainingCharacterWriteCounter := -1;
    }

    /** `writeAlphaCharacter`. */
    method WriteAlphaCharacter(c: int, index: int)
      requires Valid()
      modifies this
      ensures Valid() && State() == WriteAlpha(Options(), old(State()), c, index)
    {
      var isDifferentCharacter := lastWrittenCharacter != c;
      var shouldWrite := isDifferentCharacter || remainingCharacterWriteCounter > 0;
      if !shouldWrite {
        return;
      }
      rawOutput := rawOutput.(characters := rawOutput.characters + [c]);
      rawOutput := rawOutput.(originalIndices := rawOutput.originalIndices + [index]);
      lastWrittenCharacter := c;
      inWord := true;
      if remainingCharacterWriteCounter == -1 || isDifferentCharacter {
        var limit := if c in maxCharacterRunLengthOverrides then maxCharacterRunLengthOverrides[c] else maxCharacterRunLength;
        remainingCharacterWriteCounter := limit - 1;
      } else {
        remainingCharacterWriteCounter := remainingCharacterWriteCounter - 1;
      }
    }

    /** `writeSeparator`. */
    method WriteSeparator()
      requires Valid()
      modifies this
      ensures Valid() && State() == Separator(old(State()))
    {
      if inWord {
        wordBoundaries := wordBoundaries + {Position() - 1};
        inWord := false;
      }
    }

    /** The private `position` getter: the index of the last kept character. */
    function Position(): int
      reads this
    {
      |rawOutput.characters| - 1
    }
  }
}
