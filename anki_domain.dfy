/** The card-mining front end's domain: sentences found in the corpus, the
    words being mined with their meta data, and the text helpers that format
    definitions, compare sentences, name a sentence's source and highlight
    the focus word. */
module AnkiDomain {
  import opened Wrappers
  import opened Strings
  import opened JsStrings

  /** A sentence found in the corpus; `original` is the line as it was
      found, before the user edits `line`. */
  datatype Sentence = Sentence(
    language: string, series: Option<string>, filename: Option<string>,
    chapter: Option<string>, line: string, original: Option<string>)

  /** A reading: plain text, or the pinyin and zhuyin of a Chinese word. */
  datatype Reading = Text(text: string) | ChineseReading(pinyin: Option<string>, zhuyin: Option<string>)

  /** What has been collected about a word. `definitionJapanese` is read
      when a card is exported and `externalId` when words are imported. */
  datatype WordMeta = WordMeta(
    sentence: Option<Sentence>, reading: Option<Reading>,
    definitionEnglish: Option<string>, definitionTargetLanguage: Option<string>,
    definitionJapanese: Option<string>, audioUrl: Option<string>,
    vocabCard: bool, highlight: Option<string>, externalId: Option<int>)

  datatype Word = Word(value: string, done: bool, meta: WordMeta)

  /** A chapter as the corpus API returns it. */
  datatype Chapter = Chapter(filename: string, series: string, title: string, body: string)

  /** The words being mined, by id, and the id of the selected one. */
  datatype Collection = Collection(words: map<string, Word>, selectedId: Option<string>)

  /** The numbered lines of a definition list: "1. first", "2. second", … */
  function NumberedDefinitions(meanings: seq<string>): (lines: seq<string>)
    ensures |lines| == |meanings|
    ensures forall k :: 0 <= k < |meanings| ==> lines[k] == IntToString(k + 1) + ". " + meanings[k]
  {
    if meanings == [] then []
    else
      var last := IntToString(|meanings|) + ". " + meanings[|meanings| - 1];
      NumberedDefinitions(meanings[..|meanings| - 1]) + [last]
  }

  /** `formatDefinitions`: the numbered definitions, one per line. */
  function FormatDefinitions(meanings: seq<string>): (s: string)
    ensures meanings == [] ==> s == ""
  {
    Join(NumberedDefinitions(meanings), "\n")
  }

  /** When no meaning spans several lines, the formatted text splits back
      into its numbered lines, the k-th of them "k. " and the k-th meaning. */
  lemma FormatDefinitionsLines(meanings: seq<string>)
    requires meanings != []
    requires forall k :: 0 <= k < |meanings| ==> '\n' !in meanings[k]
    ensures Split(FormatDefinitions(meanings), "\n") == NumberedDefinitions(meanings)
    ensures forall k :: 0 <= k < |meanings| ==>
      Split(FormatDefinitions(meanings), "\n")[k] == IntToString(k + 1) + ". " + meanings[k]
  {
    var lines := NumberedDefinitions(meanings);
    forall k | 0 <= k < |lines|
      ensures '\n' !in lines[k]
    {
      NumberedLineHasNoNewline(k + 1, meanings[k]);
    }
    SplitJoinChar(lines, '\n');
    assert "\n" == ['\n'];
  }

  lemma NumberedLineHasNoNewline(n: int, meaning: string)
    requires '\n' !in meaning
    ensures '\n' !in IntToString(n) + ". " + meaning
  {
    IntToStringNoChar(n, '\n');
    var a := IntToString(n);
    var b := ". ";
    assert '\n' !in b;
    var s := a + b + meaning;
    forall i | 0 <= i < |s|
      ensures s[i] != '\n'
    {
      if i < |a| {
        assert s[i] == a[i];
      } else if i < |a| + |b| {
        assert s[i] == b[i - |a|];
      } else {
        assert s[i] == meaning[i - |a| - |b|];
      }
    }
  }

  /** `compareSentences`: the same original line from the same file of the
      same series. */
  predicate SameSentence(s1: Sentence, s2: Sentence) {
    s1.original == s2.original && s1.series == s2.series && s1.filename == s2.filename
  }

  /** Sentence comparison is an equivalence that ignores the edited line,
      the chapter title and the language. */
  lemma SameSentenceIsEquivalence(s1: Sentence, s2: Sentence, s3: Sentence, line: string, chapter: Option<string>)
    ensures SameSentence(s1, s1)
    ensures SameSentence(s1, s2) ==> SameSentence(s2, s1)
    ensures SameSentence(s1, s2) && SameSentence(s2, s3) ==> SameSentence(s1, s3)
    ensures SameSentence(s1, s1.(line := line, chapter := chapter, language := s2.language))
  {
  }

  /** `sourceForSentence`: "series - chapter", when the sentence and both of
      these are known. */
  function SourceForSentence(sentence: Option<Sentence>): (r: Option<string>)
    ensures r.None? <==> sentence.None? || sentence.value.series.None? || sentence.value.chapter.None?
    ensures r.Some? ==> r.value == sentence.value.series.value + " - " + sentence.value.chapter.value
  {
    match sentence
    case None => None
    case Some(s) =>
      if s.series.None? || s.chapter.None? then None
      else Some(s.series.value + " - " + s.chapter.value)
  }

  /** The text that is highlighted for a word: its own highlight, or the
      word itself. */
  function Target(word: Word): string {
    word.meta.highlight.GetOr(word.value)
  }

  /** `target` set in bold. */
  function Bold(target: string): (b: string)
    ensures |b| == |target| + 7
  {
    "<b>" + target + "</b>"
  }

  /** `sentenceWithFocusWord`: the sentence's line with every occurrence of
      the target set in bold; "" without a sentence. The target is part of
      the replacement string, so JavaScript's '$' patterns in it apply. */
  function SentenceWithFocusWord(word: Word): (r: string)
    ensures word.meta.sentence.None? ==> r == ""
  {
    match word.meta.sentence
    case None => ""
    case Some(s) => JsReplaceAll(s.line, Target(word), Bold(Target(word)))
  }

  /** For a target without '$': a line without the target comes back
      unchanged; otherwise each of the non-overlapping occurrences gains the
      seven characters of the tags. */
  lemma FocusWordMarksEachOccurrence(word: Word)
    requires word.meta.sentence.Some? && Target(word) != "" && '$' !in Target(word)
    ensures |SentenceWithFocusWord(word)|
         == |word.meta.sentence.value.line| + 7 * CountOccurrences(word.meta.sentence.value.line, Target(word))
    ensures !Contains(word.meta.sentence.value.line, Target(word)) ==>
      SentenceWithFocusWord(word) == word.meta.sentence.value.line
  {
    var t := Target(word);
    assert Bold(t) == "<b>" + t + "</b>";
    JsReplaceAllWithoutDollar(word.meta.sentence.value.line, t, Bold(t));
    BoldEachOccurrence(word.meta.sentence.value.line, t);
  }

  /** A target "$$" is not copied into the bold text as it is: on a line
      `x + "$$" + y` with no other '$' it comes out as
      `x + "<b>$</b>" + y` (so "a$$b" gives "a<b>$</b>b"), one character
      short of the seven added by the tags. */
  lemma DollarTargetIsRewritten(word: Word, x: string, y: string)
    requires word.meta.sentence.Some? && word.meta.sentence.value.line == x + "$$" + y
    requires Target(word) == "$$" && '$' !in x && '$' !in y
    ensures SentenceWithFocusWord(word) == x + "<b>$</b>" + y
    ensures |SentenceWithFocusWord(word)| == |word.meta.sentence.value.line| + 6
  {
    assert SentenceWithFocusWord(word) == JsReplaceAll(x + "$$" + y, "$$", Bold("$$"));
    BoldDollarLine(x, y);
  }

  lemma BoldDollarLine(x: string, y: string)
    requires '$' !in x && '$' !in y
    ensures JsReplaceAll(x + "$$" + y, "$$", Bold("$$")) == x + "<b>$</b>" + y
  {
    var s, rep := x + "$$" + y, Bold("$$");
    assert rep == "<b>" + "$$" + "</b>";
    DoubleDollarSubstitution("<b>", "</b>", s, |x|);
    var m := Substitution(rep, "$$", s, |x|);
    assert m == "<b>$</b>";
    DollarLine(x, y, rep);
  }

  /** Replacing the only "$$" of `x + "$$" + y` inserts the substitution
      for that match between `x` and `y`. */
  lemma DollarLine(x: string, y: string, rep: string)
    requires '$' !in x && '$' !in y
    ensures JsReplaceAll(x + "$$" + y, "$$", rep) == x + Substitution(rep, "$$", x + "$$" + y, |x|) + y
  {
    var s := x + "$$" + y;
    DollarSplit(x, y);
    JoinSplit(s, "$$");
    assert JsReplaceAll(s, "$$", rep) == JsJoin(s, [x, y], "$$", rep, 0);
    assert [x, y][0] == x && [x, y][1..] == [y];
    assert |Join([y], "$$")| == |y|;
    assert JsJoin(s, [y], "$$", rep, |x| + 2) == y;
  }

  /** Splitting `x + "$$" + y` at "$$" gives `x` and `y`, when neither
      holds a '$'. */
  lemma DollarSplit(x: string, y: string)
    requires '$' !in x && '$' !in y
    ensures Split(x + "$$" + y, "$$") == [x, y]
  {
    var s := x + "$$" + y;
    forall j | 0 <= j < |x|
      ensures !OccursAt(s, "$$", j)
    {
      assert s[j] == x[j] && s[j..j + 2][0] == s[j];
    }
    assert s[|x|..|x| + 2] == "$$";
    IndexOfIsLeftmost(s, "$$", |x|);
    NoDoubleDollar(y);
    assert s[..|x|] == x && s[|x| + 2..] == y;
  }

  lemma NoDoubleDollar(y: string)
    requires '$' !in y
    ensures IndexOf(y, "$$") == None
  {
    forall k | 0 <= k && k + 2 <= |y|
      ensures !OccursAt(y, "$$", k)
    {
      assert y[k..k + 2][0] == y[k];
    }
    var r := IndexOf(y, "$$");
    assert r.Some? ==> OccursAt(y, "$$", r.value);
  }

  /** A replacement string with one "$$" and no other '$' inserts a single
      '$' there. */
  lemma DoubleDollarSubstitution(before: string, after: string, str: string, pos: nat)
    requires '$' !in before && '$' !in after && pos + 2 <= |str|
    ensures Substitution(before + "$$" + after, "$$", str, pos) == before + "$" + after
  {
    var tail := "$$" + after;
    assert before + "$$" + after == before + tail;
    SubstitutionAfterPlain(before, tail, "$$", str, pos);
    assert tail[0] == '$' && tail[1] == '$' && tail[2..] == after;
    SubstitutionWithoutDollar(after, "$$", str, pos);
  }

  lemma BoldEachOccurrence(line: string, t: string)
    requires t != ""
    ensures |ReplaceAll(line, t, Bold(t))| == |line| + 7 * CountOccurrences(line, t)
    ensures !Contains(line, t) ==> ReplaceAll(line, t, Bold(t)) == line
  {
    var b := Bold(t);
    BoldLength(line, t, b);
    if !Contains(line, t) {
      ReplaceAllAbsent(line, t, b);
    }
  }

  lemma BoldLength(line: string, t: string, b: string)
    requires t != "" && |b| == |t| + 7
    ensures |ReplaceAll(line, t, b)| == |line| + 7 * CountOccurrences(line, t)
  {
    ReplaceAllLength(line, t, b);
    var n, d := CountOccurrences(line, t), |b| - |t|;
    assert d == 7;
    assert n * d == 7 * n;
  }
}
