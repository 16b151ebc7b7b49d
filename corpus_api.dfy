/** The corpus endpoints of the mining API: picking the corpus by language,
    turning search results into response records, and answering a chapter
    request with 404 or 500 when the chapter cannot be returned. */
module CorpusApi {
  import opened Wrappers
  import opened Strings
  import opened Handlers
  import C = Corpus

  /** One search hit as the API reports it. `language` is the language the
      client asked for: chapters themselves carry no language. */
  datatype SearchResult = SearchResult(language: string, filename: string, series: string, chapter: string, line: string)

  /** A chapter as the API returns it: its title and the body after the
      title line. */
  datatype GetChapterResponse = GetChapterResponse(filename: string, series: string, title: string, body: string)

  /** The answer to a chapter request that got past the language check. */
  datatype ChapterReply = NoContent(status: int) | Found(response: GetChapterResponse)

  /** The corpus results `res` as response records, one per result and in
      the same order. */
  function SearchResults(lang: string, res: seq<C.Result>): (out: seq<SearchResult>)
    reads set k | 0 <= k < |res| :: res[k].chapter
    ensures |out| == |res|
    ensures forall k :: 0 <= k < |res| ==> out[k] == SearchResultOf(lang, res[k])
  {
    if res == [] then []
    else SearchResults(lang, res[..|res| - 1]) + [SearchResultOf(lang, res[|res| - 1])]
  }

  /** One corpus result as a response record: the chapter's file name,
      series and title, and the matching line. */
  function SearchResultOf(lang: string, r: C.Result): (s: SearchResult)
    reads r.chapter
    ensures s.language == lang && s.line == r.line && s.chapter == r.chapter.Title()
    ensures s.filename == r.chapter.filename && s.series == r.chapter.series
  {
    SearchResult(lang, r.chapter.filename, r.chapter.series, r.chapter.Title(), r.line)
  }

  /** The status a failed chapter lookup is answered with: 404 when the
      innermost error is "chapter not found", 500 for any other error. */
  function StatusForError(e: C.Error): (status: int)
    ensures status == StatusNotFound <==> C.Cause(e) == C.ChapterNotFound
    ensures status != StatusNotFound ==> status == StatusInternalServerError
  {
    if C.Cause(e) == C.ChapterNotFound then StatusNotFound else StatusInternalServerError
  }

  /** Wrapping does not change the status an error maps to. */
  lemma {:induction false} StatusIgnoresWrapping(message: string, e: C.Error)
    ensures StatusForError(C.Wrapped(message, e)) == StatusForError(e)
    ensures StatusForError(C.Wrapped(message, C.ChapterNotFound)) == StatusNotFound
    ensures StatusForError(C.PathError(message)) == StatusInternalServerError
  {
    C.CauseOfWrapped(message, e);
    C.CauseOfWrapped(message, C.ChapterNotFound);
  }

  /** The response for a found chapter. */
  function ResponseFor(ch: C.Chapter): (r: GetChapterResponse)
    reads ch
    ensures r.filename == ch.filename && r.series == ch.series
    ensures r.title == ch.Title() && r.body == ch.BodyWithoutTitle()
  {
    GetChapterResponse(ch.filename, ch.series, ch.Title(), ch.BodyWithoutTitle())
  }

  /** The response leaves out the first line of the body: together with it,
      the response body is the whole chapter. */
  lemma ResponseOmitsTitleLine(ch: C.Chapter)
    requires IndexOf(ch.body, "\n").Some?
    ensures ch.body == C.FirstSegment(ch.body) + "\n" + ResponseFor(ch).body
  {
    C.BodySplitsAtFirstNewline(ch);
  }

  /** The corpus endpoints over the Japanese and the Chinese corpus. */
  class CorpusAPI {
    const jp: C.Corpus
    const zh: C.Corpus

    constructor (jp: C.Corpus, zh: C.Corpus)
      ensures this.jp == jp && this.zh == zh
    {
      this.jp := jp;
      this.zh := zh;
    }

    /** "jp" and "zh" select their corpus; any other language is an error
        naming it. */
    function GetCorpus(lang: string): (r: Wrappers.Result<C.Corpus, string>)
      ensures lang == "jp" ==> r == Success(jp)
      ensures lang == "zh" ==> r == Success(zh)
      ensures lang != "jp" && lang != "zh" ==> r == Failure("no corpus found for language " + lang)
    {
      if lang == "jp" then Success(jp)
      else if lang == "zh" then Success(zh)
      else Failure("no corpus found for language " + lang)
    }

    /** Searches the corpus of `lang` for `token` (chapters visited in the
        order `order` gives) and reports one record per hit, in hit order.
        An unknown language is an error before any search. */
    method Search(lang: string, token: string, order: seq<nat>) returns (r: Wrappers.Result<seq<SearchResult>, string>)
      requires GetCorpus(lang).Success? ==> C.IsPermutation(order, |GetCorpus(lang).value.chapters|)
      ensures GetCorpus(lang).Failure? ==> r == Failure(GetCorpus(lang).error)
      ensures GetCorpus(lang).Success? ==> (r.Success?
        && C.Below(order, |GetCorpus(lang).value.chapters|)
        && r.value == SearchResults(lang, C.Gather(C.AllHits(GetCorpus(lang).value.chapters, token), order)))
    {
      var cor := GetCorpus(lang);
      if cor.Failure? {
        return Failure(cor.error);
      }
      var res := cor.value.Search(token, order);
      // `make([]SearchResult, len(res))`: zero records, then filled by index
      var results: seq<SearchResult> := seq(|res|, _ => SearchResult("", "", "", "", ""));
      var i := 0;
      while i < |res|
        invariant 0 <= i <= |res| && |results| == |res|
        invariant forall k :: 0 <= k < i ==> results[k] == SearchResultOf(lang, res[k])
      {
        results := results[i := SearchResultOf(lang, res[i])];
        i := i + 1;
      }
      return Success(results);
    }

    /** The chapter `filename` of series `series` in the corpus of `lang`:
        its title and body without the title line, or 404 when there is no
        such chapter. An unknown language is an error before any lookup. */
    method GetChapter(lang: string, series: string, filename: string) returns (r: Wrappers.Result<ChapterReply, string>)
      ensures GetCorpus(lang).Failure? ==> r == Failure(GetCorpus(lang).error)
      ensures GetCorpus(lang).Success? ==> r.Success?
      ensures r.Success? ==> (r.value.NoContent? <==> forall k :: 0 <= k < |GetCorpus(lang).value.chapters| ==>
        !(GetCorpus(lang).value.chapters[k].series == series && GetCorpus(lang).value.chapters[k].filename == filename))
      ensures r.Success? && r.value.NoContent? ==> r.value.status == StatusNotFound
      ensures r.Success? && r.value.Found? ==> exists k :: (0 <= k < |GetCorpus(lang).value.chapters|
        && GetCorpus(lang).value.chapters[k].series == series && GetCorpus(lang).value.chapters[k].filename == filename
        && (forall j :: 0 <= j < k ==> !(GetCorpus(lang).value.chapters[j].series == series
                                           && GetCorpus(lang).value.chapters[j].filename == filename))
        && r.value.response == ResponseFor(GetCorpus(lang).value.chapters[k]))
    {
      var cor := GetCorpus(lang);
      if cor.Failure? {
        return Failure(cor.error);
      }
      var found := cor.value.FindOriginal(series, filename);
      if found.Failure? {
        return Success(NoContent(StatusForError(found.error)));
      }
      return Success(Found(ResponseFor(found.value)));
    }
  }
}
