/** The pure text helpers of the self-ask agent: `get_last_line`,
    `extract_answer` and `extract_question`. Each looks only at the last line
    of the generated text, keeps what follows its last colon and strips one
    leading space; the answer also loses one trailing full stop, the question
    must end in a question mark. */
module SelfAskText {
  import opened Wrappers
  import opened Strings

  /** The marker of a follow-up line; it is also what `extract_question` insists on. */
  const FollowUpMarker: string := "Follow up:"

  /** `s` with one final line break removed, if it has one. */
  function DropFinalNewline(s: string): string
  {
    if s != [] && s[|s| - 1] == '\n' then s[..|s| - 1] else s
  }

  /** Rust's `str::lines` for text whose line ends are single `'\n'`: the final
      line break is optional, and the empty string has no lines at all. */
  function Lines(s: string): seq<string>
  {
    if s == [] then [] else Split(DropFinalNewline(s), '\n')
  }

  /** `get_last_line`: the text itself when it holds no line break, otherwise
      the last of its lines. */
  function LastLine(generated: string): string
  {
    if '\n' !in generated then generated else Last(Lines(generated))
  }

  /** The piece after the last colon (`split(':').last()`), or the whole line
      when it has no colon. */
  function AfterLastColon(line: string): string
  {
    if ':' !in line then line else Last(Split(line, ':'))
  }

  function StripLeadingSpace(s: string): string
  {
    if |s| > 0 && s[0] == ' ' then s[1..] else s
  }

  function StripTrailingDot(s: string): string
  {
    if |s| > 0 && s[|s| - 1] == '.' then s[..|s| - 1] else s
  }

  /** The trimming both extractions share: last line, after the last colon,
      one leading space dropped. */
  function Trimmed(generated: string): string
  {
    StripLeadingSpace(AfterLastColon(LastLine(generated)))
  }

  /** `extract_answer`: never fails. */
  function ExtractAnswer(generated: string): string
  {
    StripTrailingDot(Trimmed(generated))
  }

  /** `extract_question`: the source panics (an `assert!`) when the last line
      lacks the follow-up marker or the trimmed text does not end in `'?'`;
      the panic is an `Err` carrying the generated text, which the source
      prints in its panic message. */
  function ExtractQuestion(generated: string): Result<string, string>
  {
    if !Contains(LastLine(generated), FollowUpMarker) then Err(generated)
    else
      var q := Trimmed(generated);
      if |q| > 0 && q[|q| - 1] == '?' then Ok(q) else Err(generated)
  }

  /** A well-formed follow-up question: a single line ending in `'?'` with no colon. */
  predicate IsQuestion(q: string)
  {
    |q| > 0 && q[|q| - 1] == '?' && ':' !in q && '\n' !in q
  }

  // ---------------------------------------------------------------------------
  // get_last_line

  /** Text without a line break is its own last line; otherwise the last line
      is what follows the last line break once one final line break is dropped,
      so in every case it holds no line break. */
  lemma LastLineIsFinalLine(generated: string)
    ensures '\n' !in generated ==> LastLine(generated) == generated
    ensures IsLastPiece(LastLine(generated), DropFinalNewline(generated), '\n')
    ensures '\n' !in LastLine(generated)
  {
    if '\n' in generated {
      SplitLast(DropFinalNewline(generated), '\n');
    }
  }

  /** The last line of text ending in a line break and a break-free, non-empty line is that line. */
  lemma LastLineOfAppend(before: string, line: string)
    requires line != [] && '\n' !in line
    ensures LastLine(before + "\n" + line) == line
  {
    var s := before + "\n" + line;
    assert s[|s| - 1] == line[|line| - 1];
    assert DropFinalNewline(s) == s;
    assert s == before + ['\n'] + line;
    LastPieceOfAppend(before, '\n', line);
    LastLineIsFinalLine(s);
    LastPieceUnique(LastLine(s), line, s, '\n');
  }

  /** A single final line break is ignored: the last line of "a\nb\n" is "b". */
  lemma LastLineIgnoresFinalNewline()
    ensures LastLine("a\nb\n") == "b"
  {
    var s := "a\nb\n";
    assert DropFinalNewline(s) == "a" + ['\n'] + "b";
    LastPieceOfAppend("a", '\n', "b");
    LastLineIsFinalLine(s);
    LastPieceUnique(LastLine(s), "b", DropFinalNewline(s), '\n');
  }

  /** The last line is a piece of the text. */
  lemma LastLineIsPiece(generated: string)
    ensures Contains(generated, LastLine(generated))
  {
    LastLineIsFinalLine(generated);
    DropFinalNewlineIsPrefix(generated);
    LastPieceOfPrefixContained(generated, DropFinalNewline(generated), LastLine(generated), '\n');
  }

  lemma DropFinalNewlineIsPrefix(s: string)
    ensures |DropFinalNewline(s)| <= |s| && DropFinalNewline(s) == s[..|DropFinalNewline(s)|]
  {
  }

  // ---------------------------------------------------------------------------
  // The shared trimming

  /** What follows the last colon holds no colon and is a suffix of the line. */
  lemma AfterLastColonIsSuffix(line: string)
    ensures IsLastPiece(AfterLastColon(line), line, ':')
  {
    if ':' in line {
      SplitLast(line, ':');
    }
  }

  /** A suffix of a line is a piece of it and, like the line, free of line breaks. */
  lemma SuffixIsCleanPiece(line: string, after: string, c: char)
    requires IsLastPiece(after, line, c) && '\n' !in line
    ensures Contains(line, after) && '\n' !in after
  {
    SliceContained(line, |line| - |after|, |line|);
    assert line[|line| - |after|..|line|] == after;
    forall k | 0 <= k < |after|
      ensures after[k] != '\n'
    {
      assert after[k] == line[|line| - |after| + k];
    }
  }

  /** Dropping a leading space keeps a piece of the text, and adds no character. */
  lemma StripLeadingSpaceIsPiece(s: string)
    ensures Contains(s, StripLeadingSpace(s))
    ensures forall ch | ch !in s :: ch !in StripLeadingSpace(s)
  {
    if |s| > 0 && s[0] == ' ' {
      SliceContained(s, 1, |s|);
      assert s[1..|s|] == s[1..];
    } else {
      SliceContained(s, 0, |s|);
      assert s[0..|s|] == s;
    }
  }

  /** The trimmed text holds neither a colon nor a line break, and is a piece of the input. */
  lemma TrimmedIsCleanPiece(generated: string)
    ensures ':' !in Trimmed(generated) && '\n' !in Trimmed(generated)
    ensures Contains(generated, Trimmed(generated))
  {
    var line := LastLine(generated);
    LastLineIsFinalLine(generated);
    LastLineIsPiece(generated);
    var after := AfterLastColon(line);
    AfterLastColonIsSuffix(line);
    SuffixIsCleanPiece(line, after, ':');
    ContainsTransitive(generated, line, after);
    var trimmed := StripLeadingSpace(after);
    assert trimmed == Trimmed(generated);
    StripLeadingSpaceIsPiece(after);
    ContainsTransitive(generated, after, trimmed);
  }

  /** Only the last line counts: text ending in a line break and a non-empty line trims like that line. */
  lemma TrimmedOfLastLine(before: string, line: string)
    requires line != [] && '\n' !in line
    ensures Trimmed(before + "\n" + line) == Trimmed(line)
  {
    LastLineOfAppend(before, line);
  }

  /** On a single line, everything up to the last colon is dropped. */
  lemma TrimmedOfLine(head: string, tail: string)
    requires '\n' !in head && '\n' !in tail && ':' !in tail
    ensures Trimmed(head + [':'] + tail) == StripLeadingSpace(tail)
  {
    var line := head + [':'] + tail;
    assert line[|head|] == ':';
    LastPieceOfAppend(head, ':', tail);
    SplitLast(line, ':');
    LastPieceUnique(Last(Split(line, ':')), tail, line, ':');
  }

  // ---------------------------------------------------------------------------
  // extract_answer

  /** The answer holds neither a colon nor a line break and is a contiguous piece of the input. */
  lemma ExtractAnswerIsCleanPiece(generated: string)
    ensures ':' !in ExtractAnswer(generated) && '\n' !in ExtractAnswer(generated)
    ensures Contains(generated, ExtractAnswer(generated))
  {
    var q := Trimmed(generated);
    TrimmedIsCleanPiece(generated);
    if |q| > 0 && q[|q| - 1] == '.' {
      SliceContained(q, 0, |q| - 1);
      ContainsTransitive(generated, q, q[..|q| - 1]);
    }
  }

  /** Clean text is its own answer: one line, no colon, no leading space, no final full stop. */
  lemma ExtractAnswerKeepsCleanText(text: string)
    requires ':' !in text && '\n' !in text
    requires !(|text| > 0 && text[0] == ' ')
    requires !(|text| > 0 && text[|text| - 1] == '.')
    ensures ExtractAnswer(text) == text
  {
  }

  lemma FinalLineFacts()
    ensures "So the final answer is: Paris." == "So the final answer is" + [':'] + " Paris."
    ensures '\n' !in "So the final answer is"
    ensures StripTrailingDot(StripLeadingSpace(" Paris.")) == "Paris"
  {
  }

  /** "So the final answer is: Paris." gives "Paris". */
  lemma ExtractAnswerOfFinalLine()
    ensures ExtractAnswer("So the final answer is: Paris.") == "Paris"
  {
    FinalLineFacts();
    TrimmedOfLine("So the final answer is", " Paris.");
  }

  // ---------------------------------------------------------------------------
  // extract_question

  /** `extract_question` fails exactly when the last line lacks the follow-up
      marker or the trimmed text does not end in '?'; what it returns is a
      well-formed question and a piece of the text. */
  lemma ExtractQuestionSucceedsExactly(generated: string)
    ensures ExtractQuestion(generated).Ok? <==>
      Contains(LastLine(generated), FollowUpMarker) &&
      |Trimmed(generated)| > 0 && Trimmed(generated)[|Trimmed(generated)| - 1] == '?'
    ensures ExtractQuestion(generated).Ok? ==>
      IsQuestion(ExtractQuestion(generated).value) &&
      Contains(generated, ExtractQuestion(generated).value)
    ensures ExtractQuestion(generated).Err? ==> ExtractQuestion(generated).error == generated
  {
    TrimmedIsCleanPiece(generated);
  }

  /** Whenever `extract_question` succeeds, `extract_answer` returns the same
      string: a question ends in '?', so the full-stop strip cannot fire. */
  lemma QuestionIsAlsoAnswer(generated: string)
    requires ExtractQuestion(generated).Ok?
    ensures ExtractAnswer(generated) == ExtractQuestion(generated).value
  {
  }

  /** A follow-up line yields the question after its last colon. */
  lemma ExtractQuestionOfLine(head: string, tail: string)
    requires '\n' !in head && '\n' !in tail && ':' !in tail
    requires Contains(head + [':'] + tail, FollowUpMarker)
    requires |StripLeadingSpace(tail)| > 0 && StripLeadingSpace(tail)[|StripLeadingSpace(tail)| - 1] == '?'
    ensures ExtractQuestion(head + [':'] + tail) == Ok(StripLeadingSpace(tail))
  {
    TrimmedOfLine(head, tail);
  }

  lemma FollowUpLineSplits()
    ensures "Follow up: How old was X?" == "Follow up" + [':'] + " How old was X?"
  {
  }

  lemma FollowUpLineHasMarker()
    ensures OccursAt("Follow up: How old was X?", FollowUpMarker, 0)
  {
    assert "Follow up: How old was X?"[..|FollowUpMarker|] == FollowUpMarker;
  }

  lemma FollowUpLineClean()
    ensures '\n' !in "Follow up" && '\n' !in " How old was X?" && ':' !in " How old was X?"
  {
  }

  lemma FollowUpLineStrips()
    ensures StripLeadingSpace(" How old was X?") == "How old was X?"
  {
  }

  /** "Follow up: How old was X?" gives "How old was X?". */
  lemma ExtractQuestionOfFollowUp()
    ensures ExtractQuestion("Follow up: How old was X?") == Ok("How old was X?")
  {
    FollowUpLineSplits();
    FollowUpLineHasMarker();
    FollowUpLineClean();
    FollowUpLineStrips();
    ExtractQuestionOfLine("Follow up", " How old was X?");
  }

  /** A last line without the follow-up marker makes `extract_question` fail. */
  lemma ExtractQuestionRejectsPlainLine(generated: string)
    requires !Contains(LastLine(generated), FollowUpMarker)
    ensures ExtractQuestion(generated) == Err(generated)
  {
    ExtractQuestionSucceedsExactly(generated);
  }
}
