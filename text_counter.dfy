/** The word, character and line counter that the document buffer keeps up to date
    per inserted and removed character. */
module TextCounters {
  import opened Chars

  /** The counter's state: WordCount, CharacterCount, LineCount and the previously
      processed character. */
  datatype Counts = Counts(words: int, characters: int, lines: int, previous: char)

  /** The state `CountFileContent` starts its rescan from. */
  const Reset := Counts(0, 0, 1, '\0')

  /** The add-path for one character. */
  function Add(st: Counts, c: char): Counts
  {
    var words1 := if st.words == 0 && !IsWhiteSpace(st.previous) then st.words + 1 else st.words;
    var words2 := if IsWhiteSpace(c) && !IsWhiteSpace(st.previous) then words1 + 1 else words1;
    var lines1 := if c == '\n' && st.previous != '\r' then st.lines + 1 else st.lines;
    var lines2 := if c == '\r' then lines1 + 1 else lines1;
    Counts(words2, st.characters + 1, lines2, c)
  }

  /** The remove-path for one character. The test for `'\r'` appears twice, so a
      `'\r'` whose previous character is not `'\n'` takes two lines off. */
  function Remove(st: Counts, c: char): Counts
  {
    var words := if IsWhiteSpace(c) && !IsWhiteSpace(st.previous) then st.words - 1 else st.words;
    var lines1 := if c == '\r' && st.previous != '\n' then st.lines - 1 else st.lines;
    var lines2 := if c == '\r' then lines1 - 1 else lines1;
    Counts(words, st.characters - 1, lines2, c)
  }

  /** The add-path applied to every character of `s`, in order. */
  function AddAll(st: Counts, s: string): Counts
  {
    if s == [] then st else Add(AddAll(st, s[..|s| - 1]), s[|s| - 1])
  }

  /** The remove-path applied to every character of `s`, in order. */
  function RemoveAll(st: Counts, s: string): Counts
  {
    if s == [] then st else Remove(RemoveAll(st, s[..|s| - 1]), s[|s| - 1])
  }

  /** What `CountFileContent` leaves for a content. */
  function CountOf(content: string): Counts
  {
    AddAll(Reset, content)
  }

  /** The number of word ends in `s`: whitespace characters whose previous character
      (`'\0'` at the start) is not whitespace. */
  function WordEnds(s: string): nat
  {
    if s == [] then 0
    else WordEnds(s[..|s| - 1]) + if IsWhiteSpace(s[|s| - 1]) && !IsWhiteSpace(PreviousAt(s, |s| - 1)) then 1 else 0
  }

  /** The one-character paths: the add-path raises the character count by one and
      the remove-path lowers it by one; a `'\r'` adds one line, a `'\n'` adds one
      unless it follows `'\r'`; removing `'\r'` takes two lines off unless it
      follows `'\n'`, removing `'\n'` takes none; both paths remember the character. */
  lemma StepEffects(st: Counts, c: char)
    ensures Add(st, c).characters == st.characters + 1 && Add(st, c).previous == c
    ensures Remove(st, c).characters == st.characters - 1 && Remove(st, c).previous == c
    ensures Add(st, c).lines == st.lines + if IsBreak(st.previous, c) then 1 else 0
    ensures c == '\r' ==> Remove(st, c).lines == st.lines - if st.previous != '\n' then 2 else 1
    ensures c != '\r' ==> Remove(st, c).lines == st.lines
    ensures Remove(st, c).words == st.words - if IsWhiteSpace(c) && !IsWhiteSpace(st.previous) then 1 else 0
  {
  }

  /** The fold remembers the last character it processed. */
  lemma {:induction false} AddAllPrevious(st: Counts, s: string)
    ensures AddAll(st, s).previous == if s == [] then st.previous else s[|s| - 1]
  {
  }

  /** The add-path over `s` raises the character count by `|s|`. */
  lemma {:induction false} AddAllCharacters(st: Counts, s: string)
    ensures AddAll(st, s).characters == st.characters + |s|
  {
    if s != [] {
      AddAllCharacters(st, s[..|s| - 1]);
    }
  }

  /** The remove-path over `s` lowers the character count by `|s|`. */
  lemma {:induction false} RemoveAllCharacters(st: Counts, s: string)
    ensures RemoveAll(st, s).characters == st.characters - |s|
  {
    if s != [] {
      RemoveAllCharacters(st, s[..|s| - 1]);
    }
  }

  /** After a rescan the line count is one more than the number of line breaks. */
  lemma {:induction false} CountLines(s: string)
    ensures CountOf(s).lines == 1 + LineBreaks(s)
  {
    if s != [] {
      var t := s[..|s| - 1];
      CountLines(t);
      AddAllPrevious(Reset, t);
    }
  }

  /** After a rescan of a non-empty content the word count is one (counted at the
      first character) plus the number of word ends: a leading space is a word end. */
  lemma {:induction false} CountWords(s: string)
    ensures CountOf(s).words == if s == [] then 0 else 1 + WordEnds(s)
  {
    if s != [] {
      var t := s[..|s| - 1];
      CountWords(t);
      AddAllPrevious(Reset, t);
      if t == [] {
        assert WordEnds(t) == 0;
      }
    }
  }

  /** `CountFileContent` leaves the character count equal to the content length and
      the last character as the previous one. */
  lemma CountCharacters(s: string)
    ensures CountOf(s).characters == |s|
    ensures CountOf(s).previous == if s == [] then '\0' else s[|s| - 1]
  {
    AddAllCharacters(Reset, s);
    AddAllPrevious(Reset, s);
  }

  /** The rescan of `"a b\r\nc"` counts 6 characters, 3 words and 2 lines. */
  lemma CountScenario()
    ensures CountOf("a b\r\nc") == Counts(3, 6, 2, 'c')
  {
    var s := "a b\r\nc";
    assert s[..5] == "a b\r\n" && s[..5][..4] == "a b\r" && s[..4][..3] == "a b";
    assert s[..3][..2] == "a " && s[..2][..1] == "a" && s[..1][..0] == "";
    assert AddAll(Reset, "a") == Counts(1, 1, 1, 'a');
    assert AddAll(Reset, "a ") == Counts(2, 2, 1, ' ');
    assert AddAll(Reset, "a b") == Counts(2, 3, 1, 'b');
    assert "a b\r"[..3] == "a b" && IsWhiteSpace('\r') && !IsWhiteSpace('b');
    assert AddAll(Reset, "a b\r") == Counts(3, 4, 2, '\r');
    assert AddAll(Reset, "a b\r\n") == Counts(3, 5, 2, '\n');
  }

  /** Removing a lone `'\r'` right after adding it leaves the line count one below
      where it started. */
  lemma LoneCarriageReturnRemovedTwice(st: Counts)
    ensures Remove(Add(st, '\r'), '\r').lines == st.lines - 1
  {
  }

  /** The counter object. A fresh counter holds .NET's default field values (all
      counts 0, previous character `'\0'`) until `CountFileContent` is called. */
  class TextCounter {
    var wordCount: int
    var characterCount: int
    var lineCount: int
    var previousChar: char

    function State(): Counts
      reads this
    {
      Counts(wordCount, characterCount, lineCount, previousChar)
    }

    constructor ()
      ensures State() == Counts(0, 0, 0, '\0')
    {
      wordCount, characterCount, lineCount, previousChar := 0, 0, 0, '\0';
    }

    /** Resets to words 0, characters 0, lines 1, previous `'\0'` and replays the
        content through the add-path. The buffer passes its own content. */
    method CountFileContent(content: string)
      modifies this
      ensures State() == CountOf(content)
    {
      wordCount := 0;
      characterCount := 0;
      lineCount := 1;
      previousChar := '\0';
      UpdateCountsAddText(content);
    }

    method UpdateCountsAdd(inputChar: char)
      modifies this
      ensures State() == Add(old(State()), inputChar)
    {
      characterCount := characterCount + 1;
      if wordCount == 0 && !IsWhiteSpace(previousChar) {
        wordCount := wordCount + 1;
      }
      if IsWhiteSpace(inputChar) && !IsWhiteSpace(previousChar) {
        wordCount := wordCount + 1;
      }
      if inputChar == '\n' {
        if previousChar != '\r' {
          lineCount := lineCount + 1;
        }
      }
      if inputChar == '\r' {
        lineCount := lineCount + 1;
      }
      previousChar := inputChar;
    }

    method UpdateCountsAddText(inputString: string)
      modifies this
      ensures State() == AddAll(old(State()), inputString)
    {
      var i := 0;
      while i < |inputString|
        invariant 0 <= i <= |inputString|
        invariant State() == AddAll(old(State()), inputString[..i])
      {
        assert inputString[..i + 1][..i] == inputString[..i];
        UpdateCountsAdd(inputString[i]);
        i := i + 1;
      }
      assert inputString[..i] == inputString;
    }

    method UpdateCountsRemove(inputChar: char)
      modifies this
      ensures State() == Remove(old(State()), inputChar)
    {
      characterCount := characterCount - 1;
      if IsWhiteSpace(inputChar) && !IsWhiteSpace(previousChar) {
        wordCount := wordCount - 1;
      }
      if inputChar == '\r' {
        if previousChar != '\n' {
          lineCount := lineCount - 1;
        }
      }
      if inputChar == '\r' {
        lineCount := lineCount - 1;
      }
      previousChar := inputChar;
    }

    method UpdateCountsRemoveText(inputString: string)
      modifies this
      ensures State() == RemoveAll(old(State()), inputString)
    {
      var i := 0;
      while i < |inputString|
        invariant 0 <= i <= |inputString|
        invariant State() == RemoveAll(old(State()), inputString[..i])
      {
        assert inputString[..i + 1][..i] == inputString[..i];
        UpdateCountsRemove(inputString[i]);
        i := i + 1;
      }
      assert inputString[..i] == inputString;
    }
  }
}
