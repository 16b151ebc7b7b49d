/** The list of example sentences for a word, with every occurrence of the
    word's highlight marked in each sentence, and the sentence the user
    picked shown as active. */
module SentenceList {
  import opened Wrappers
  import opened Strings
  import opened AnkiDomain

  /** The characters of `s` as one-character strings. */
  function Chars(s: string): (r: seq<string>)
    ensures |r| == |s| && forall k :: 0 <= k < |s| ==> r[k] == [s[k]]
  {
    seq(|s|, k requires 0 <= k < |s| => [s[k]])
  }

  /** JavaScript's `split` with a string separator: the characters for "",
      otherwise the pieces between occurrences. */
  function JsSplit(s: string, sep: string): (parts: seq<string>)
    ensures sep == "" ==> parts == Chars(s)
    ensures sep != "" ==> parts == Split(s, sep)
  {
    if sep == "" then Chars(s) else Split(s, sep)
  }

  lemma {:induction false} ConcatChars(s: string)
    ensures Concat(Chars(s)) == s
    decreases |s|
  {
    if s != [] {
      ConcatChars(s[1..]);
      assert Chars(s) == [[s[0]]] + Chars(s[1..]);
      assert Chars(s)[1..] == Chars(s[1..]);
    }
  }

  /** Splitting on `sep` and joining with `sep` gives the string back, for
      the empty separator as well. */
  lemma JoinJsSplit(s: string, sep: string)
    ensures Join(JsSplit(s, sep), sep) == s
  {
    if sep == "" {
      JoinEmptyIsConcat(Chars(s));
      ConcatChars(s);
    } else {
      JoinSplit(s, sep);
    }
  }

  /** A piece of rendered text: plain, or set in the highlight colour. */
  datatype Piece = Plain(text: string) | Highlighted(text: string)

  /** The pieces, with the highlight between consecutive ones. */
  function Interleave(parts: seq<string>, highlight: string): (r: seq<Piece>)
    ensures parts == [] ==> r == []
    ensures parts != [] ==> |r| == 2 * |parts| - 1
  {
    if |parts| == 0 then []
    else if |parts| == 1 then [Plain(parts[0])]
    else [Plain(parts[0]), Highlighted(highlight)] + Interleave(parts[1..], highlight)
  }

  /** Part `k` is the piece at `2k`, and the highlight separates it from
      part `k + 1`. */
  lemma {:induction false} InterleaveShape(parts: seq<string>, highlight: string)
    ensures forall k :: 0 <= k < |parts| ==> Interleave(parts, highlight)[2 * k] == Plain(parts[k])
    ensures forall k :: 0 <= k < |parts| - 1 ==> Interleave(parts, highlight)[2 * k + 1] == Highlighted(highlight)
    decreases |parts|
  {
    if |parts| > 1 {
      var rest := Interleave(parts[1..], highlight);
      var r := Interleave(parts, highlight);
      InterleaveShape(parts[1..], highlight);
      forall k | 1 <= k < |parts|
        ensures r[2 * k] == Plain(parts[k])
      {
        var j := k - 1;
        assert r[2 * k] == rest[2 * j];
        assert parts[1..][j] == parts[k];
      }
      forall k | 1 <= k < |parts| - 1
        ensures r[2 * k + 1] == Highlighted(highlight)
      {
        var j := k - 1;
        assert r[2 * k + 1] == rest[2 * j + 1];
      }
    }
  }

  /** `SentenceView`: the line split at the highlight, with the highlight
      marked between consecutive parts. */
  function SentenceView(line: string, highlight: string): seq<Piece> {
    Interleave(JsSplit(line, highlight), highlight)
  }

  /** The text the pieces show, in order. */
  function TextOf(pieces: seq<Piece>): string {
    if pieces == [] then "" else pieces[0].text + TextOf(pieces[1..])
  }

  /** The number of highlighted pieces. */
  function Marks(pieces: seq<Piece>): nat {
    if pieces == [] then 0 else (if pieces[0].Highlighted? then 1 else 0) + Marks(pieces[1..])
  }

  lemma {:induction false} TextOfInterleave(parts: seq<string>, highlight: string)
    ensures TextOf(Interleave(parts, highlight)) == Join(parts, highlight)
    ensures parts != [] ==> Marks(Interleave(parts, highlight)) == |parts| - 1
    decreases |parts|
  {
    if |parts| == 1 {
      assert TextOf([Plain(parts[0])]) == parts[0] + TextOf([]);
    } else if |parts| > 1 {
      TextOfInterleave(parts[1..], highlight);
      var rest := Interleave(parts[1..], highlight);
      var r := [Plain(parts[0]), Highlighted(highlight)] + rest;
      assert r[1..] == [Highlighted(highlight)] + rest;
      assert r[1..][1..] == rest;
    }
  }

  /** The rendered sentence reads exactly as the line. */
  lemma SentenceViewShowsLine(line: string, highlight: string)
    ensures TextOf(SentenceView(line, highlight)) == line
  {
    TextOfInterleave(JsSplit(line, highlight), highlight);
    JoinJsSplit(line, highlight);
  }

  /** A non-empty highlight is marked once per non-overlapping occurrence. */
  lemma SentenceViewMarksOccurrences(line: string, highlight: string)
    requires highlight != ""
    ensures Marks(SentenceView(line, highlight)) == CountOccurrences(line, highlight)
  {
    TextOfInterleave(Split(line, highlight), highlight);
    SplitCount(line, highlight);
  }

  /** One rendered entry of the list. */
  datatype Item = Item(sentence: Sentence, isActive: bool, view: seq<Piece>, source: Option<string>)

  /** The whole list: a notice when there are no sentences, the entries
      otherwise. */
  datatype ListView = NoSentencesFound | Items(items: seq<Item>)

  /** A sentence is shown as active when there is an active sentence and
      the two compare equal. */
  predicate IsActive(active: Option<Sentence>, s: Sentence) {
    active.Some? && SameSentence(active.value, s)
  }

  /** `SentenceList`: each sentence rendered with the word's highlight
      (its own, or the word itself) and its source. */
  function Render(word: Word, sentences: Option<seq<Sentence>>, active: Option<Sentence>): (v: ListView)
    ensures v.NoSentencesFound? <==> sentences.None? || sentences.value == []
    ensures v.Items? ==> |v.items| == |sentences.value|
    ensures v.Items? ==> forall k :: 0 <= k < |v.items| ==> (v.items[k] ==
      Item(sentences.value[k], IsActive(active, sentences.value[k]),
           SentenceView(sentences.value[k].line, Target(word)), SourceForSentence(Some(sentences.value[k]))))
  {
    if sentences.None? || sentences.value == [] then NoSentencesFound
    else
      var ss := sentences.value;
      Items(seq(|ss|, k requires 0 <= k < |ss| =>
        Item(ss[k], IsActive(active, ss[k]), SentenceView(ss[k].line, Target(word)), SourceForSentence(Some(ss[k])))))
  }

  /** Without an active sentence no entry is active; with one, the entries
      that compare equal to it are. */
  lemma ActiveEntries(word: Word, sentences: seq<Sentence>, active: Option<Sentence>, k: nat)
    requires sentences != [] && k < |sentences|
    ensures Render(word, Some(sentences), active).items[k].isActive
        <==> active.Some? && SameSentence(active.value, sentences[k])
    ensures active.None? ==> !Render(word, Some(sentences), active).items[k].isActive
  {
  }
}
