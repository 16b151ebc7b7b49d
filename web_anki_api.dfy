/** The web front end's calls to the corpus API. They post-process corpus
    results exactly as the mining app does, so the normalisation, the
    ordering and the chapter fallback come from `AnkiApi`. */
module WebAnkiApi {
  import opened Wrappers
  import opened AnkiDomain
  import A = AnkiApi

  /** `getSentences` for a language: no results unless the corpus answered
      200; otherwise every result trimmed (its original set to the trimmed
      line), ordered by line length. */
  method GetSentences(status: int, results: seq<Sentence>, trim: string -> string) returns (sentences: seq<Sentence>)
    ensures status != 200 ==> sentences == []
    ensures status == 200 ==> A.SortedByLength(sentences)
    ensures status == 200 ==> multiset(sentences) == multiset(A.NormaliseAll(results, trim))
  {
    if status != 200 {
      return [];
    }
    var a := new Sentence[|results|](k requires 0 <= k < |results| => A.Normalise(results[k], trim));
    assert a[..] == A.NormaliseAll(results, trim);
    A.SortByLength(a);
    sentences := a[..];
  }

  /** `getChapter` for a language: the chapter on 200, an error otherwise. */
  function GetChapter(status: int, body: Chapter): (r: Result<Chapter, string>)
    ensures r == A.GetChapter(status, body)
    ensures r.Failure? <==> status != 200
  {
    if status != 200 then Failure("not found") else Success(body)
  }
}
