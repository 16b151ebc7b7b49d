/** The mining app's calls to the back end and to Anki: the normalisation
    of corpus results (trimmed, then ordered by length), the fallbacks when
    a lookup fails, and the note sent to Anki for a word.

    The HTTP exchange itself is left out: each call is given the status and
    the decoded body it received. Whitespace trimming is a parameter. */
module AnkiApi {
  import opened Wrappers
  import opened Strings
  import opened AnkiDomain

  // ---- corpus results -----------------------------------------------------------

  /** A corpus result as the app keeps it: the line trimmed, and the
      trimmed line also kept as the original. */
  function Normalise(s: Sentence, trim: string -> string): (r: Sentence)
    ensures r.line == trim(s.line) && r.original == Some(r.line)
    ensures r.(line := s.line, original := s.original) == s
  {
    s.(line := trim(s.line), original := Some(trim(s.line)))
  }

  function NormaliseAll(results: seq<Sentence>, trim: string -> string): (r: seq<Sentence>)
    ensures |r| == |results| && forall k :: 0 <= k < |results| ==> r[k] == Normalise(results[k], trim)
  {
    seq(|results|, k requires 0 <= k < |results| => Normalise(results[k], trim))
  }

  /** Normalising twice is normalising once, since trimmed text trims to
      itself. */
  lemma NormaliseIdempotent(s: Sentence, trim: string -> string)
    requires forall t :: trim(trim(t)) == trim(t)
    ensures Normalise(Normalise(s, trim), trim) == Normalise(s, trim)
  {
    assert trim(trim(s.line)) == trim(s.line);
  }

  function Length(s: Sentence): nat {
    |s.line|
  }

  predicate SortedByLength(ss: seq<Sentence>) {
    forall p, q :: 0 <= p < q < |ss| ==> Length(ss[p]) <= Length(ss[q])
  }

  /** Orders the sentences by the length of their line, shortest first, in
      place (by insertion). */
  method SortByLength(a: array<Sentence>)
    modifies a
    ensures SortedByLength(a[..])
    ensures multiset(a[..]) == multiset(old(a[..]))
  {
    var i := 0;
    while i < a.Length
      invariant 0 <= i <= a.Length
      invariant SortedByLength(a[..i])
      invariant multiset(a[..]) == multiset(old(a[..]))
    {
      Insert(a, i);
      i := i + 1;
    }
    assert a[..i] == a[..];
  }

  /** Moves `a[i]` left past every longer line before it. */
  method Insert(a: array<Sentence>, i: nat)
    requires i < a.Length && SortedByLength(a[..i])
    modifies a
    ensures SortedByLength(a[..i + 1])
    ensures multiset(a[..]) == multiset(old(a[..]))
  {
    var j := i;
    while j > 0 && Length(a[j - 1]) > Length(a[j])
      invariant 0 <= j <= i
      invariant forall p, q :: 0 <= p < q <= i && p != j && q != j ==> Length(a[p]) <= Length(a[q])
      invariant forall q :: j < q <= i ==> Length(a[j]) < Length(a[q])
      invariant multiset(a[..]) == multiset(old(a[..]))
    {
      Swap(a, j);
      j := j - 1;
    }
  }

  /** Exchanges `a[j - 1]` and `a[j]`. */
  method Swap(a: array<Sentence>, j: nat)
    requires 0 < j < a.Length
    modifies a
    ensures a[..] == old(a[..])[j - 1 := old(a[j])][j := old(a[j - 1])]
    ensures multiset(a[..]) == multiset(old(a[..]))
  {
    a[j - 1], a[j] := a[j], a[j - 1];
  }

  /** `getSentences`: no results unless the corpus answered 200; otherwise
      every result normalised, ordered by line length. */
  method GetSentences(status: int, results: seq<Sentence>, trim: string -> string) returns (sentences: seq<Sentence>)
    ensures status != 200 ==> sentences == []
    ensures status == 200 ==> SortedByLength(sentences)
    ensures status == 200 ==> multiset(sentences) == multiset(NormaliseAll(results, trim))
    ensures forall k :: 0 <= k < |sentences| ==>
      sentences[k].original == Some(sentences[k].line) && sentences[k] in NormaliseAll(results, trim)
  {
    if status != 200 {
      return [];
    }
    var a := new Sentence[|results|](k requires 0 <= k < |results| => Normalise(results[k], trim));
    assert a[..] == NormaliseAll(results, trim);
    SortByLength(a);
    sentences := a[..];
    forall k | 0 <= k < |sentences|
      ensures sentences[k] in NormaliseAll(results, trim)
    {
      assert sentences[k] in multiset(sentences);
    }
  }

  // ---- lookups and their fallbacks -------------------------------------------------

  datatype Definition = Definition(meaning: string)
  datatype JishoResult = JishoResult(word: string, definitions: seq<Definition>)
  datatype GooResult = GooResult(word: string, definition: string, reading: string)

  /** A Jisho lookup: the body on 200, no definitions otherwise. */
  function GetJishoDefinition(word: string, status: int, body: JishoResult): (r: JishoResult)
    ensures status == 200 ==> r == body
    ensures status != 200 ==> r.word == word && r.definitions == []
  {
    if status != 200 then JishoResult(word, []) else body
  }

  /** A Goo lookup: the body on 200, an empty definition and reading
      otherwise. */
  function GetGooDefinition(word: string, status: int, body: GooResult): (r: GooResult)
    ensures status == 200 ==> r == body
    ensures status != 200 ==> r == GooResult(word, "", "")
  {
    if status != 200 then GooResult(word, "", "") else body
  }

  /** A chapter request: the chapter on 200; any other status is an error. */
  function GetChapter(status: int, body: Chapter): (r: Result<Chapter, string>)
    ensures r.Success? <==> status == 200
    ensures r.Success? ==> r.value == body
    ensures r.Failure? ==> r.error == "not found"
  {
    if status != 200 then Failure("not found") else Success(body)
  }

  // ---- the Anki note -----------------------------------------------------------------

  /** `nl2br`: every line break becomes "<br />". */
  function Nl2br(s: Option<string>): (r: Option<string>)
    ensures r.None? <==> s.None?
    ensures r.Some? ==> '\n' !in r.value
  {
    match s
    case None => None
    case Some(t) =>
      ReplaceAllRemovesChar(t, '\n', "<br />");
      Some(ReplaceAll(t, "\n", "<br />"))
  }

  /** Text without line breaks passes through unchanged, and the result
      grows by five characters per line break. */
  lemma Nl2brOfOneLine(t: string)
    ensures '\n' !in t ==> Nl2br(Some(t)) == Some(t)
    ensures |Nl2br(Some(t)).value| == |t| + 5 * CountOccurrences(t, "\n")
  {
    if '\n' !in t {
      OccursAtChar(t, '\n');
      ReplaceAllAbsent(t, "\n", "<br />");
    }
    ReplaceAllLength(t, "\n", "<br />");
  }

  datatype NoteFields = NoteFields(
    expression: string, focus: string, reading: Option<Reading>,
    englishDefinition: Option<string>, japaneseDefinition: Option<string>,
    vocabOnlyCard: string, source: Option<string>)

  datatype Note = Note(deckName: string, modelName: string, fields: NoteFields,
                       allowDuplicate: bool, duplicateScope: string, tags: seq<string>)

  const FixedTags: seq<string> := ["ankiminer", "japanese", "mined", "native"]

  /** The note `addAnkiNote` sends for a word. */
  function AnkiNote(word: Word): (n: Note)
    ensures n.fields.expression == SentenceWithFocusWord(word) && n.fields.focus == word.value
    ensures n.fields.reading == word.meta.reading
    ensures n.deckName == "3. Japanese::3. Vocab" && n.modelName == "ankiminer_jp"
    ensures !n.allowDuplicate && n.duplicateScope == "deck"
    ensures n.fields.vocabOnlyCard == (if word.meta.vocabCard then "1" else "")
    ensures n.fields.source == SourceForSentence(word.meta.sentence)
    ensures n.fields.englishDefinition == Nl2br(word.meta.definitionEnglish)
    ensures n.fields.japaneseDefinition == Nl2br(word.meta.definitionJapanese)
    ensures |n.tags| == 4 || |n.tags| == 5
    ensures n.tags[..4] == FixedTags
    ensures |n.tags| == 5 <==> word.meta.sentence.Some? && word.meta.sentence.value.series.Some?
    ensures |n.tags| == 5 ==> n.tags[4] == word.meta.sentence.value.series.value
  {
    var deckName := "3. Japanese::3. Vocab";
    var series := if word.meta.sentence.Some? then word.meta.sentence.value.series else None;
    var fields := NoteFields(
      SentenceWithFocusWord(word), word.value, word.meta.reading,
      Nl2br(word.meta.definitionEnglish), Nl2br(word.meta.definitionJapanese),
      if word.meta.vocabCard then "1" else "",
      SourceForSentence(word.meta.sentence));
    Note(deckName, "ankiminer_jp", fields, false, "deck",
         FixedTags + if series.Some? then [series.value] else [])
  }
}
