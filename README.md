# Language-learning tools: a verified model of the core

The repository is a set of tools for people learning Japanese, Chinese and
German.

- **Corpus search engine (Go).** It loads a tree `root/<series>/<chapter>.txt` of novel chapters. It finds every line that contains a word, and it finds one chapter by series and file name.
- **HTTP API around it (Go).** The API exposes the corpus and stores mined flash cards and reading texts. It validates requests before it touches the database.
- **German lemmatizer (Go).** It also tries the "ss" → "ß" spelling and merges its results.
- **Mining front end (TypeScript).** It collects words, sorts example sentences by length, highlights the word in each sentence and builds the Anki note.
- **Two readers (TypeScript).**
  - An OCR-based manga reader: page clamping, text selection, the popup over the selection, cropping and card export.
  - A Chinese text reader: a line cursor, characters read, a summary position and a saved reading position.

Each core source file is modelled in one module (the two copies of the OCR helpers share `Ocr`). String, JavaScript and sequence semantics that several files rely on live in helper modules (`Wrappers`, `Strings`, `JsStrings`, `Sequences`, and `Handlers` for the controllers' shared parsing):

| module | models |
|---|---|
| `Wrappers` | Option and Result. |
| `Strings` | Go and JavaScript string operations on `seq<char>`: `Split`, `Join`, `Contains`, `ReplaceAll`, decimal rendering and parsing, each with its round-trip lemmas. |
| `JsStrings` | JavaScript's `replaceAll` with a string pattern, including the '$' patterns of the replacement. |
| `Sequences` | Two generic facts about sequences used by the filters' proofs. |
| `Corpus` | internal/pkg/corpus/main.go. `Chapter` and `Corpus` are classes. Loading, `Find` and `Search` are methods with loops, proved against specification functions. |
| `Handlers`, `CorpusApi`, `Mining`, `Texts`, `Translate` | The API controllers. A handler's answer is an `Outcome`: the status, the database query it issued (if any) and why a 400 was given. |
| `Lemmatizer` | internal/pkg/german/lemmatizer/lemmatizer.go. |
| `AnkiDomain`, `AnkiApi`, `AnkiWordStore`, `SentenceList` | The stand-alone mining app. |
| `WebWordStore`, `WebAnkiApi` | The web front end's word collection and its corpus calls. |
| `Ocr`, `ChineseDomain` | OCR flattening, pinyin pairing and tone colours (frontend/web/src/lib/chinesereader/domain.ts). |
| `MangaDomain`, `Popup`, `MangaReader` | The manga reader. |
| `TextReader` | The Chinese text reader. |

Three kinds of thing that the code does not compute itself are taken as
parameters of the operations:

- **Abstract text functions.** `trim`, `toLowerCase`, `toLocaleLowerCase` and the German title caser. The lemmatizer's dictionary comes in as two functions: "is in the dictionary" and "lemmas of".
- **Outside world.** The file system is a map from directory path to listing and a map from file path to contents. The database's success is a boolean, and the translator's answer is a value.
- **Non-determinism.** The uuids of new words are a list of fresh ids, and `Object.keys` order is a list that enumerates the map's keys. The order in which the concurrent search visits chapters is a permutation.

## Model

| member | source | states |
|---|---|---|
| Corpus.Cause | internal/pkg/corpus/main.go:26 | The innermost error under any number of wraps, never itself a wrap; the `errors.Cause` the API applies to lookup errors. |
| Corpus.CauseOfWrapped | internal/pkg/corpus/main.go:99-128 | Wrapping an error (as the loaders do) does not change its cause. |
| Corpus.Ext | internal/pkg/corpus/main.go:136 | `filepath.Ext`: empty, or a suffix of the path that starts with '.' and holds no '/'. |
| Corpus.ExtIsTxt | internal/pkg/corpus/main.go:136 | A path's extension is ".txt" exactly when the path ends with ".txt". |
| Corpus.JoinPathIsTxt | internal/pkg/corpus/main.go:134-138 | Whether `dir/name` is kept depends only on whether the entry name ends with ".txt". |
| Corpus.DropCR | internal/pkg/corpus/main.go:186-188 | A scanned line is the raw line, or the raw line minus one trailing "\r". |
| Corpus.ScanLines | internal/pkg/corpus/main.go:194-198 | The default line scanner yields no line exactly when the body is empty (no trailing empty token). |
| Corpus.FirstLineIsFirstSegment | internal/pkg/corpus/main.go:186-188 | The title is the part before the first "\n" with a trailing "\r" dropped, and equals that part when it has no trailing "\r". |
| Corpus.ScanLinesNoNewline | internal/pkg/corpus/main.go:194-198 | No scanned line contains a newline. |
| Corpus.HitsConcat | internal/pkg/corpus/main.go:197-206 | Scanning two runs of lines gives the hits of the first followed by the hits of the second. |
| Corpus.HitsOne | internal/pkg/corpus/main.go:198-205 | A single line yields one result, holding that line and the chapter, exactly when it contains the word. |
| Corpus.HitsMembers | internal/pkg/corpus/main.go:197-206 | A result is produced exactly for the scanned lines that contain the word, each pointing at its chapter. |
| Corpus.HitsEmptyWord | internal/pkg/corpus/main.go:199 | Searching for "" returns every scanned line, empty interior lines included, in order. |
| Corpus.Chapter.constructor | internal/pkg/corpus/main.go:156-164 | `NewChapter` sets series, path and file name, with an empty body and title. |
| Corpus.Chapter.BodyWithoutTitle | internal/pkg/corpus/main.go:170-173 | "" when the body has no "\n"; otherwise everything after the first "\n". |
| Corpus.Chapter.Load | internal/pkg/corpus/main.go:179-191 | A missing file gives the wrapped path error and leaves body and title alone. Otherwise there is no error, the body is the file and the title is the first scanned line. |
| Corpus.Chapter.Find | internal/pkg/corpus/main.go:193-209 | Its results are the hits of the scanned body lines, top to bottom. |
| Corpus.BodyWithoutTitleParts | internal/pkg/corpus/main.go:170-173 | Dropping the first "\n"-separated part and rejoining gives "" without a newline, else the text after the first newline. |
| Corpus.BodySplitsAtFirstNewline | internal/pkg/corpus/main.go:170-173 | A body with a newline is its first segment, "\n", then `BodyWithoutTitle`. |
| Corpus.EmptyBodyHasNoTitleOrResults | internal/pkg/corpus/main.go:179-209 | An empty file gives an empty title, an empty body-without-title and no search results. |
| Corpus.Infos | internal/pkg/corpus/main.go:147-154 | One (series, path, file name) record per chapter, in order. |
| Corpus.TxtInfosKeepsTxtNames | internal/pkg/corpus/main.go:133-142 | The chapters of a series are exactly the listing's entries whose name ends with ".txt", in listing order, each with series, `dir/name` and name. |
| Corpus.LoadChapters | internal/pkg/corpus/main.go:125-145 | An unreadable directory gives the wrapped error. Otherwise it gives fresh, distinct, unloaded chapters matching the ".txt" entries in order. |
| Corpus.SeriesLoadSucceedsIff | internal/pkg/corpus/main.go:99-123 | Loading succeeds exactly when the root and every directory entry of it can be listed. |
| Corpus.SeriesLoadFailureCause | internal/pkg/corpus/main.go:100-117 | A failed load's cause is a path error for a directory that cannot be listed. |
| Corpus.SeriesLoadOnlyDirs | internal/pkg/corpus/main.go:107-119 | Every loaded chapter comes from a directory entry of the root (plain files are skipped) and has a ".txt" name. |
| Corpus.SeriesLoadStopsAtFailure | internal/pkg/corpus/main.go:113-117 | Once a series fails, the remaining folders are not looked at and the whole load fails the same way. |
| Corpus.LoadSeries | internal/pkg/corpus/main.go:99-123 | The loop's result equals the specification of the tree load: the same error on failure, and otherwise fresh, distinct chapters in series then listing order. |
| Corpus.Range | internal/pkg/corpus/main.go:80 | The chapter indices 0 … n-1 in order, the sequential visiting order. |
| Corpus.AllHits | internal/pkg/corpus/main.go:84-88 | One block of results per chapter: that chapter's `Find` results. |
| Corpus.GatherPermutation | internal/pkg/corpus/main.go:80-94 | Concatenating the chapters' result blocks in any visiting order yields the same multiset of results. |
| Corpus.GatherAround | internal/pkg/corpus/main.go:84-88 | Moving one chapter's block of results to the end of the concatenation does not change the multiset of results. |
| Corpus.Corpus.constructor | internal/pkg/corpus/main.go:59 | A corpus holds the chapters it is built from. |
| Corpus.Corpus.FindOriginal | internal/pkg/corpus/main.go:62-70 | Fails with `ErrChapterNotFound` exactly when no chapter matches both series and file name; otherwise returns the first chapter in list order that matches both. |
| Corpus.Corpus.Search | internal/pkg/corpus/main.go:72-97 | For a visiting order that is a permutation of the chapters, the results are the chapters' `AllHits` blocks concatenated in that order, and a permutation of the sequential scan's results. |
| Corpus.New | internal/pkg/corpus/main.go:28-60 | Fails exactly when the tree load fails, with its error. Otherwise every chapter of the tree, in order, is loaded from its file (body and first-line title). |
| CorpusApi.SearchResults | cmd/api_miner/controllers/corpus.go:48-61 | One response record per corpus result, in the same order. |
| CorpusApi.SearchResultOf | cmd/api_miner/controllers/corpus.go:49-59 | The record carries the request's language, the line, and the chapter's title, file name and series. |
| CorpusApi.StatusForError | cmd/api_miner/controllers/corpus.go:86-95 | 404 exactly when the error's cause is `ErrChapterNotFound`, otherwise 500. |
| CorpusApi.StatusIgnoresWrapping | cmd/api_miner/controllers/corpus.go:86-95 | Wrapping does not change the status; a wrapped not-found is 404 and a path error is 500. |
| CorpusApi.ResponseFor | cmd/api_miner/controllers/corpus.go:97-102 | The chapter response carries the title and the body without its first line, not the full body. |
| CorpusApi.ResponseOmitsTitleLine | cmd/api_miner/controllers/corpus.go:97-102 | For a body with a newline, the first segment, "\n" and the response body make up the whole body. |
| CorpusApi.CorpusAPI.constructor | cmd/api_miner/controllers/corpus.go:23-28 | The API holds the Japanese and the Chinese corpus. |
| CorpusApi.CorpusAPI.GetCorpus | cmd/api_miner/controllers/corpus.go:30-39 | "jp" gives the Japanese corpus and "zh" the Chinese one; any other language is the error naming it. |
| CorpusApi.CorpusAPI.Search | cmd/api_miner/controllers/corpus.go:41-64 | An unknown language gives its error before any search. Otherwise the records are those of the corpus search, one per result and in order. |
| CorpusApi.CorpusAPI.GetChapter | cmd/api_miner/controllers/corpus.go:78-105 | An unknown language gives its error first. A missing chapter is answered 404. A found chapter is answered with the first matching chapter's response. |
| Handlers.Atoi | cmd/api_miner/controllers/mining.go:134 | `strconv.Atoi`: a value only for an optional sign followed by digits, and only within the int64 range. |
| Handlers.AtoiOfIntToString | cmd/api_miner/controllers/mining.go:134 | Every int64 written in decimal parses back to itself. |
| Handlers.AtoiAcceptsPlus | cmd/api_miner/controllers/mining.go:134 | A leading '+' is accepted and does not change the value. |
| Handlers.AtoiRejectsOverflow | cmd/api_miner/controllers/mining.go:134-137 | 2^63 is rejected. |
| Handlers.ParseId | cmd/api_miner/controllers/texts.go:127-135 | The handlers' id check: an empty id is rejected, and any accepted id is its `Atoi` value. |
| Handlers.ParseIdOfIntToString | cmd/api_miner/controllers/texts.go:127-135 | Every int64 written in decimal passes the id check as itself. |
| Handlers.Int32 | cmd/api_miner/controllers/texts.go:181 | `int32(x)`: the int32 congruent to x modulo 2^32. |
| Handlers.Int32KeepsSmallValues | cmd/api_miner/controllers/texts.go:181 | Values in the int32 range are unchanged. |
| Handlers.Int32Unique | cmd/api_miner/controllers/texts.go:181 | The narrowed value is the only int32 congruent to x modulo 2^32. |
| Handlers.Int32WrapsAround | cmd/api_miner/controllers/texts.go:181 | 2^31 becomes -2^31, -2^31-1 becomes 2^31-1 and 2^32 becomes 0. |
| Mining.CreatePendingCardRequest.Validate | cmd/api_miner/controllers/mining.go:116-126 | No error exactly when both fields are set. An empty language code is reported first, even when the token is empty too; otherwise an empty token is reported. |
| Mining.ValidateIgnoresImageAndMeta | cmd/api_miner/controllers/mining.go:116-126 | Source image and meta data are never inspected. |
| Mining.ListedCards | cmd/api_miner/controllers/mining.go:53-60 | One card per row, in row order, with the row's fields. |
| Mining.ListPendingCards | cmd/api_miner/controllers/mining.go:39-63 | 400 without a query exactly when the language code is empty; otherwise the listing query, answered 200 when the database succeeds. |
| Mining.CreatePendingCard | cmd/api_miner/controllers/mining.go:77-107 | 400 without a query exactly when the body is unreadable or fails validation (with the validation message). Otherwise the insert of the request's fields, answered 201 when the database succeeds. |
| Mining.CardImage | cmd/api_miner/controllers/mining.go:128-148 | 400 exactly when the id is empty or not an integer, with no query; otherwise the image query for that id. |
| Mining.UpdateCard | cmd/api_miner/controllers/mining.go:150-182 | The body is checked before the id, and either failure is 400 without a query; otherwise the meta update for that id. |
| Mining.MarkCardAsExported | cmd/api_miner/controllers/mining.go:188-205 | 400 exactly when the id check fails, with no query; otherwise the export update, answered 201 on success. |
| Mining.IdEndpointsAcceptDecimalIds | cmd/api_miner/controllers/mining.go:128-205 | Every int64 id in decimal reaches its query, and an empty id is rejected as a bad id. |
| Texts.CreateTextRequest.Validate | cmd/api_miner/controllers/texts.go:110-124 | No error exactly when all three fields are non-empty (whitespace passes). Otherwise it names the first empty one of language code, title, content. |
| Texts.ListedTexts | cmd/api_miner/controllers/texts.go:48-56 | One summary per row, in row order, with id, title and language code. |
| Texts.ListTexts | cmd/api_miner/controllers/texts.go:36-59 | 400 without a query exactly when the language code is empty. |
| Texts.CreateText | cmd/api_miner/controllers/texts.go:73-102 | 400 without a query exactly when the body is unreadable or invalid; otherwise the insert, answered 201 on success. |
| Texts.GetText | cmd/api_miner/controllers/texts.go:126-150 | 400 exactly when the id check fails, before any query; otherwise the query for that id. 200 exactly when the query returns a row, and then the body carries every column of that row. |
| Texts.UpdateReadingPosition | cmd/api_miner/controllers/texts.go:156-189 | The id is checked before the body, either failure is 400 without a query; otherwise the id and the position narrowed to int32 are stored. |
| Texts.StoredPositionIsNarrowed | cmd/api_miner/controllers/texts.go:179-182 | The stored position is always an int32 and equals the request's when it fits; 2^31 is stored as -2^31. |
| Translate.TranslateRequest.Validate | cmd/api_miner/controllers/translate.go:61-75 | No error exactly when all three fields are non-empty. Otherwise it names the first empty one of source language, target language, input. |
| Translate.Translate | cmd/api_miner/controllers/translate.go:26-53 | A bad body or failed validation is 400 and the translator is never called. Otherwise the translator gets the input and both codes, and 200 comes exactly with its translation. |
| Translate.ValidRequestIsTranslated | cmd/api_miner/controllers/translate.go:33-53 | A request with all fields set reaches the translator. |
| Lemmatizer.EszettVariantLength | internal/pkg/german/lemmatizer/lemmatizer.go:35 | The "ß" spelling is as long in bytes as the input. |
| Lemmatizer.EszettVariantDiffers | internal/pkg/german/lemmatizer/lemmatizer.go:35-36 | The variant differs from the input exactly when the input contains "ss". |
| Lemmatizer.RawLemmas | internal/pkg/german/lemmatizer/lemmatizer.go:28-43 | At most the input's lemmas plus the variant's lemmas. |
| Lemmatizer.RawLemmasUseVariant | internal/pkg/german/lemmatizer/lemmatizer.go:35-39 | The variant's lemmas are added exactly when the input contains "ss" and the variant is in the dictionary. |
| Lemmatizer.EveryInputKept | internal/pkg/german/lemmatizer/lemmatizer.go:51-60 | Every input word is among the keys. |
| Lemmatizer.OnlyInputsOrTitled | internal/pkg/german/lemmatizer/lemmatizer.go:52-57 | Every key is an input word or the title-cased lower-case form of one. |
| Lemmatizer.FormattedGrows | internal/pkg/german/lemmatizer/lemmatizer.go:51-60 | Taking more words never removes a key. |
| Lemmatizer.RepeatGivesTitled | internal/pkg/german/lemmatizer/lemmatizer.go:52-57 | A word that occurs twice brings its title-cased form into the keys. |
| Lemmatizer.DistinctInputsKeptAsIs | internal/pkg/german/lemmatizer/lemmatizer.go:51-60 | Without repeats, the keys are exactly the input words. |
| Lemmatizer.FormatResults | internal/pkg/german/lemmatizer/lemmatizer.go:48-71 | The map loop and the key listing give a list without duplicates whose elements are exactly the collected keys. |
| Lemmatizer.ListKeys | internal/pkg/german/lemmatizer/lemmatizer.go:62-70 | The keys of a map listed once each, with nothing missing. |
| Lemmatizer.Lemmas | internal/pkg/german/lemmatizer/lemmatizer.go:27-44 | The result has no duplicates and holds exactly the merged keys of the looked-up lemmas. |
| Lemmatizer.NoLemmasOutsideDictionary | internal/pkg/german/lemmatizer/lemmatizer.go:28-43 | A word in the dictionary under neither spelling has no lemmas. |
| AnkiDomain.NumberedDefinitions | frontend/anki/src/app/domain.ts:63-65 | The k-th definition becomes "k. meaning", counting from 1. |
| AnkiDomain.FormatDefinitions | frontend/anki/src/app/domain.ts:63-65 | No definitions give "". |
| AnkiDomain.FormatDefinitionsLines | frontend/anki/src/app/domain.ts:63-65 | When no definition spans lines, the text splits at "\n" back into exactly the numbered lines. |
| AnkiDomain.SameSentenceIsEquivalence | frontend/anki/src/app/domain.ts:67-70 | Sentence comparison is reflexive, symmetric and transitive, and ignores the edited line, the chapter and the language. |
| AnkiDomain.SourceForSentence | frontend/anki/src/app/domain.ts:72-85 | Undefined exactly when the sentence, its series or its chapter is undefined; otherwise "series - chapter". |
| AnkiDomain.Bold | frontend/anki/src/app/domain.ts:92 | The target wrapped in `<b>` and `</b>`, seven characters longer. |
| AnkiDomain.SentenceWithFocusWord | frontend/anki/src/app/domain.ts:87-94 | "" without a sentence; otherwise JavaScript's `replaceAll` of the target by its bold form. |
| AnkiDomain.FocusWordMarksEachOccurrence | frontend/anki/src/app/domain.ts:87-94 | For a target without '$', every occurrence of the highlight (or the word) is wrapped, adding seven characters each; a line without it comes back unchanged. |
| AnkiDomain.DollarTargetIsRewritten | frontend/anki/src/app/domain.ts:92-93 | For the target "$$" on a line x + "$$" + y with no '$' in x or y (such as "a$$b"), the result is x + "<b>$</b>" + y: the target's "$$" becomes "$", six characters added rather than seven. |
| AnkiDomain.BoldDollarLine | frontend/anki/src/app/domain.ts:93 | JavaScript's `replaceAll` of "$$" by its bold form on x + "$$" + y, with no '$' in x or y, gives x + "<b>$</b>" + y. |
| AnkiDomain.DoubleDollarSubstitution | frontend/anki/src/app/domain.ts:93 | In a replacement string whose only '$' are one "$$", that pair is inserted as a single "$". |
| AnkiDomain.DollarLine | frontend/anki/src/app/domain.ts:93 | Replacing "$$" on x + "$$" + y, with no '$' in x or y, puts the substitution for that one match between x and y. |
| AnkiDomain.DollarSplit | frontend/anki/src/app/domain.ts:93 | A line x + "$$" + y with no '$' in x or y has exactly one match of "$$", cutting it into x and y. |
| JsStrings.SubstitutionWithoutDollar | frontend/anki/src/app/domain.ts:93 | A replacement string without '$' is inserted as written. |
| JsStrings.SubstitutionAfterPlain | frontend/anki/src/app/domain.ts:93 | Text without '$' at the head of a replacement string passes through unchanged. |
| JsStrings.JsReplaceAllWithoutDollar | frontend/anki/src/app/domain.ts:93 | With no '$' in the replacement, JavaScript's `replaceAll` with a string pattern replaces each leftmost non-overlapping occurrence, or inserts before every character and at the end for the empty pattern. |
| AnkiApi.Normalise | frontend/anki/src/app/api.ts:73-77 | The line is trimmed, `original` is the trimmed line, and nothing else changes. |
| AnkiApi.NormaliseAll | frontend/anki/src/app/api.ts:73-77 | Each result normalised, in order. |
| AnkiApi.NormaliseIdempotent | frontend/anki/src/app/api.ts:73-77 | With an idempotent trim, normalising twice is normalising once. |
| AnkiApi.SortByLength | frontend/anki/src/app/api.ts:79-91 | The in-place sort leaves the array ordered by line length and a permutation of what it held. |
| AnkiApi.GetSentences | frontend/anki/src/app/api.ts:61-92 | Nothing unless the status is 200; then a length-sorted permutation of the normalised results, each with `line` and `original` equal to a trimmed server line. |
| AnkiApi.GetJishoDefinition | frontend/anki/src/app/api.ts:43-59 | On 200 the body; otherwise the word with no definitions. |
| AnkiApi.GetGooDefinition | frontend/anki/src/app/api.ts:94-109 | On 200 the body; otherwise the word with an empty definition and reading. |
| AnkiApi.GetChapter | frontend/anki/src/app/api.ts:27-41 | Success exactly on 200, with the body; otherwise the "not found" error. |
| AnkiApi.Nl2br | frontend/anki/src/app/api.ts:111 | Undefined exactly for undefined; a defined result has no "\n" left. |
| AnkiApi.Nl2brOfOneLine | frontend/anki/src/app/api.ts:111 | Text without line breaks is unchanged, and each "\n" adds five characters. |
| AnkiApi.AnkiNote | frontend/anki/src/app/api.ts:113-159 | The note goes to the deck "3. Japanese::3. Vocab" with the model "ankiminer_jp", duplicates not allowed within the deck. The fields are the highlighted sentence, the word, its reading, '1' or '' for the vocabulary flag, the source, and both definitions with "<br />" line breaks. The tags are the four fixed ones, plus the series exactly when the sentence has one. |
| AnkiWordStore.Updated | frontend/anki/src/app/hooks.ts:144-153 | An absent id changes nothing; a present one replaces only that word, and the selection stays. |
| AnkiWordStore.UpdateTouchesOnlyItsWord | frontend/anki/src/app/hooks.ts:149-153 | Every other word and the set of ids are unchanged. |
| AnkiWordStore.WordStore.constructor | frontend/anki/src/app/hooks.ts:125-129 | The collection starts empty with no selection. |
| AnkiWordStore.WordStore.Load | frontend/anki/src/app/hooks.ts:131-141 | A cached collection replaces the empty one; without a selection it selects the first key, or none when empty. |
| AnkiWordStore.WordStore.UpdateWord | frontend/anki/src/app/hooks.ts:144-153 | An absent id changes neither state nor storage; otherwise the updated collection is stored and shown. |
| AnkiWordStore.WordStore.SetSelectedWordId | frontend/anki/src/app/hooks.ts:155-157 | Only the selection changes. |
| WebWordStore.WithWord | frontend/web/src/lib/anki/hooks.ts:112-123 | An absent id changes nothing. Otherwise only that word is replaced, and the selection becomes the given id or stays. |
| WebWordStore.Deleted | frontend/web/src/lib/anki/hooks.ts:184-193 | Only the id is removed; the selection becomes undefined exactly when it was that id (or already undefined). |
| WebWordStore.Undone | frontend/web/src/lib/anki/hooks.ts:195-205 | Exactly the words not done, unchanged. |
| WebWordStore.Cleaned | frontend/web/src/lib/anki/hooks.ts:195-213 | The done words are removed. The selection is kept exactly when it named a word before cleaning, even one just removed. |
| WebWordStore.NewWord | frontend/web/src/lib/anki/hooks.ts:137-151 | A new word is not done, is a vocabulary card, is highlighted as itself and has every other meta field undefined. |
| WebWordStore.KeyedKeys | frontend/web/src/lib/anki/hooks.ts:152-158 | The keys of a keyed batch are exactly the batch's ids, one per word. |
| WebWordStore.KeyedValues | frontend/web/src/lib/anki/hooks.ts:152-158 | With distinct ids, each word of the batch sits under its own id. |
| WebWordStore.NewWords | frontend/web/src/lib/anki/hooks.ts:137-151 | One new word per raw word, in order. |
| WebWordStore.AddedWords | frontend/web/src/lib/anki/hooks.ts:136-161 | Every existing word stays and each raw word is added under its own fresh id. The size grows by the number of raw words, and the selection is unchanged. |
| WebWordStore.ExternalIds | frontend/web/src/lib/anki/hooks.ts:164-168 | It holds every external id an existing word carries. |
| WebWordStore.ExternalIdsAreCarried | frontend/web/src/lib/anki/hooks.ts:164-168 | Every collected external id is carried by an existing word. |
| WebWordStore.Kept | frontend/web/src/lib/anki/hooks.ts:169-171 | The incoming words kept are exactly those without an external id or with an unknown one, each as often as the batch holds it. |
| WebWordStore.KeptKeepsOrder | frontend/web/src/lib/anki/hooks.ts:169-171 | Filtering a + b is filtering a, then b: kept words keep their order. |
| WebWordStore.KeptSnoc | frontend/web/src/lib/anki/hooks.ts:169-171 | One more incoming word is appended to the kept words exactly when it is importable. |
| WebWordStore.ImportedWords | frontend/web/src/lib/anki/hooks.ts:163-182 | Existing words stay. The k-th kept word sits under the k-th fresh id, so the collection grows by the number of kept words, batch duplicates included. Every new key holds an importable incoming word, and the selection is unchanged. |
| WebWordStore.KeyedSize | frontend/web/src/lib/anki/hooks.ts:173-181 | Under fresh ids, each batch word sits under its own new id and the collection grows by the batch's length. |
| WebWordStore.ImportKeepsBatchDuplicates | frontend/web/src/lib/anki/hooks.ts:163-181 | A word without an external id given twice in one import is added twice, under two different new keys. |
| WebWordStore.WithDefaultSelection | frontend/web/src/lib/anki/hooks.ts:99-110 | The words stay. A missing selection becomes the first key, and stays undefined exactly when there are no words. |
| WebWordStore.UpdateAfterDeleteIsNoOp | frontend/web/src/lib/anki/hooks.ts:112-115 | Updating a just-deleted word changes nothing. |
| WebWordStore.CleanTwice | frontend/web/src/lib/anki/hooks.ts:195-213 | A second clean removes no further words and clears a dangling selection. |
| WebWordStore.CleanKeepsDanglingSelection | frontend/web/src/lib/anki/hooks.ts:206-212 | A selected done word is removed while the selection still names it. |
| WebWordStore.ImportFiltersByExternalId | frontend/web/src/lib/anki/hooks.ts:164-171 | A word whose external id is known is dropped; the same word without an external id is kept. |
| WebWordStore.WordStore.constructor | frontend/web/src/lib/anki/hooks.ts:87-93 | An empty collection stored under "collection_" followed by the language code. |
| WebWordStore.WordStore.Load | frontend/web/src/lib/anki/hooks.ts:99-110 | A stored collection replaces the empty one with the default selection; storage is unchanged. |
| WebWordStore.WordStore.Persist | frontend/web/src/lib/anki/hooks.ts:94-97 | The collection becomes current and is written under its name. |
| WebWordStore.WordStore.UpdateWord | frontend/web/src/lib/anki/hooks.ts:112-123 | An absent id changes nothing; otherwise the updated collection is current and stored. |
| WebWordStore.WordStore.SetSelectedWordId | frontend/web/src/lib/anki/hooks.ts:125-127 | Only the selection changes, and storage is not written. |
| WebWordStore.WordStore.AddWords | frontend/web/src/lib/anki/hooks.ts:136-161 | The loop keying each raw word under its id yields `Added` of the old collection, which is stored. |
| WebWordStore.WordStore.ImportWords | frontend/web/src/lib/anki/hooks.ts:163-182 | The loop keying each kept word under its id yields `Imported` of the old collection, which is stored. |
| WebWordStore.WordStore.DeleteWord | frontend/web/src/lib/anki/hooks.ts:184-193 | The collection becomes `Deleted` of the old one, and is stored. |
| WebWordStore.WordStore.CleanWords | frontend/web/src/lib/anki/hooks.ts:195-213 | The loop over the keys yields `Cleaned` of the old collection, which is stored. |
| WebAnkiApi.GetSentences | frontend/web/src/app/anki/api.ts:25-59 | Nothing unless 200; then a length-sorted permutation of the trimmed results. |
| WebAnkiApi.GetChapter | frontend/web/src/app/anki/api.ts:8-23 | The same answer as the mining app's chapter call: an error exactly when the status is not 200. |
| SentenceList.Chars | frontend/anki/src/app/components/SentenceList.tsx:99-101 | The characters of the line as one-character strings, in order. |
| SentenceList.JsSplit | frontend/anki/src/app/components/SentenceList.tsx:99-101 | `split` with "" gives the characters; any other separator splits at its occurrences. |
| SentenceList.ConcatChars | frontend/anki/src/app/components/SentenceList.tsx:99-101 | The characters concatenate back to the line. |
| SentenceList.JoinJsSplit | frontend/anki/src/app/components/SentenceList.tsx:99-111 | Joining the split parts with the separator gives the line back, for every separator. |
| SentenceList.Interleave | frontend/anki/src/app/components/SentenceList.tsx:102-109 | No parts give no pieces; n parts give 2n-1 pieces. |
| SentenceList.InterleaveShape | frontend/anki/src/app/components/SentenceList.tsx:102-109 | Part k is the piece at 2k and the highlight is the piece between consecutive parts. |
| SentenceList.TextOfInterleave | frontend/anki/src/app/components/SentenceList.tsx:102-109 | The pieces read as the parts joined by the highlight, with one mark between each pair. |
| SentenceList.SentenceViewShowsLine | frontend/anki/src/app/components/SentenceList.tsx:99-111 | The rendered sentence reads exactly as the line. |
| SentenceList.SentenceViewMarksOccurrences | frontend/anki/src/app/components/SentenceList.tsx:99-107 | A non-empty highlight is marked once per non-overlapping occurrence. |
| SentenceList.Render | frontend/anki/src/app/components/SentenceList.tsx:24-38 | "No sentences found" exactly for undefined or empty results; otherwise one entry per sentence, rendered with `highlight ?? value`. |
| SentenceList.ActiveEntries | frontend/anki/src/app/components/SentenceList.tsx:34-38 | An entry is active exactly when an active sentence is defined and compares equal to it. |
| Ocr.Coordinates | frontend/web/src/lib/chinesereader/domain.ts:142 | Two strings per vertex: its x then its y. |
| Ocr.CoordinatesInjective | frontend/web/src/lib/chinesereader/domain.ts:141-144 | Equal coordinate lists come from equal vertex lists. |
| Ocr.HashPieces | frontend/web/src/lib/chinesereader/domain.ts:141-144 | Splitting a hash at '_' gives "block" and the coordinates back. |
| Ocr.HashInjective | frontend/web/src/lib/chinesereader/domain.ts:141-144 | Boxes with different vertex lists have different hashes. |
| Ocr.SymbolTexts | frontend/web/src/lib/chinesereader/domain.ts:173-176 | The symbols' texts in order. |
| Ocr.WordIdsTellBoxesApart | frontend/web/src/lib/chinesereader/domain.ts:177-182 | Two words with the same text and id share their box. |
| Ocr.SentenceOf | frontend/web/src/lib/chinesereader/domain.ts:169-186 | One word per OCR word, in order. |
| Ocr.Sentences | frontend/web/src/lib/chinesereader/domain.ts:146-154 | One sentence per paragraph, in order. |
| Ocr.GetTextForParagraph | frontend/web/src/lib/chinesereader/domain.ts:169-186 | The nested loops build exactly the paragraph's sentence: symbol texts concatenated, id "word_" + text + "_" + hash. |
| Ocr.GetTextForBlock | frontend/web/src/lib/chinesereader/domain.ts:146-154 | The loop yields one sentence per paragraph, in order. |
| Ocr.GetRawTextForBlock | frontend/web/src/lib/chinesereader/domain.ts:156-167 | The loops yield the block's word texts concatenated without separators. |
| Ocr.RawTextIsParagraphTexts | frontend/web/src/lib/chinesereader/domain.ts:156-167 | A block's raw text is its paragraphs' texts one after the other. |
| Ocr.BlockTexts | frontend/web/src/lib/chinesereader/domain.ts:123 | One raw text per block, in order. |
| Ocr.PageTexts | frontend/web/src/lib/chinesereader/domain.ts:121-125 | Each page's block texts joined by "\n". |
| Ocr.JoinGroups | frontend/web/src/lib/chinesereader/domain.ts:121-125 | Joining non-empty groups and then joining the results equals joining all their pieces with the same separator. |
| Ocr.JoinPages | frontend/web/src/lib/chinesereader/domain.ts:121-125 | When every page has a block, joining the pages equals joining all block texts by "\n". |
| Ocr.AnalysedLinesAreBlockTexts | frontend/web/src/lib/chinesereader/domain.ts:121-125 | When no block text holds a newline, the analysed text splits at "\n" into exactly the block texts, page by page. |
| Ocr.GetWordsFromBlocks | frontend/web/src/lib/chinesereader/domain.ts:131-136 | The loops over one page's blocks yield their words in block, paragraph, word order. |
| Ocr.GetWordsFromOcrResult | frontend/web/src/lib/chinesereader/domain.ts:127-139 | The words in page, block, paragraph, word order; the set removes nothing. |
| Ocr.AllWordsKept | frontend/web/src/lib/chinesereader/domain.ts:127-139 | One word per OCR word of the whole result. |
| ChineseDomain.LeadingDigits | frontend/web/src/lib/chinesereader/domain.ts:208 | The longest run of digits at the start of the text. |
| ChineseDomain.FirstDigit | frontend/web/src/lib/chinesereader/domain.ts:208 | None exactly when there is no digit; otherwise the position of the first one. |
| ChineseDomain.Tone | frontend/web/src/lib/chinesereader/domain.ts:208-212 | -1 exactly when the syllable holds no digit; otherwise the value of the first run of digits. |
| ChineseDomain.ToneOfNumberedSyllable | frontend/web/src/lib/chinesereader/domain.ts:208-212 | A syllable followed by digit d has tone d. |
| ChineseDomain.ReadingPairs | frontend/web/src/lib/chinesereader/domain.ts:199-216 | None (the TypeError) exactly when the numbered pinyin has fewer syllables. Otherwise one pair per space-separated tone-marked syllable: the syllable lower-cased, with the tone of the numbered syllable at the same place. |
| ChineseDomain.ToneToColor | frontend/web/src/lib/chinesereader/domain.ts:219-231 | Non-empty exactly for tones 1 to 4, with their fixed classes. |
| MangaDomain.Ys | frontend/web/src/app/mangareader/domain.ts:197 | The y of each vertex, in order. |
| MangaDomain.Xs | frontend/web/src/app/mangareader/domain.ts:198 | The x of each vertex, in order. |
| MangaDomain.Min | frontend/web/src/app/mangareader/domain.ts:200-203 | `Math.min` of a non-empty list: one of its values, and at most every one. |
| MangaDomain.Max | frontend/web/src/app/mangareader/domain.ts:200-203 | `Math.max` of a non-empty list: one of its values, and at least every one. |
| MangaDomain.GetPosition | frontend/web/src/app/mangareader/domain.ts:196-216 | A box holding every vertex; height and width are its non-negative extents. |
| MangaDomain.GetPositionIsTight | frontend/web/src/app/mangareader/domain.ts:196-216 | The box is the smallest: each of its four sides is reached by a vertex. |
| MangaDomain.GetPositionIgnoresOrder | frontend/web/src/app/mangareader/domain.ts:197-203 | Reordering the vertices does not change the box. |
| Popup.LexTotal | frontend/web/src/app/mangareader/Popup.tsx:26 | The string order used by `sort()` is total. |
| Popup.LexTransitive | frontend/web/src/app/mangareader/Popup.tsx:26 | It is transitive. |
| Popup.LexAntisymmetric | frontend/web/src/app/mangareader/Popup.tsx:26 | It is antisymmetric. |
| Popup.InsertKey | frontend/web/src/app/mangareader/Popup.tsx:25-26 | Inserting into a sorted key list keeps it sorted and adds exactly that key. |
| Popup.SortKeys | frontend/web/src/app/mangareader/Popup.tsx:25-26 | The indices ordered by their decimal text, and a permutation of them. |
| Popup.SortPutsTenBeforeTwo | frontend/web/src/app/mangareader/Popup.tsx:26 | Index 10 is placed before index 2. |
| Popup.SortedUnique | frontend/web/src/app/mangareader/Popup.tsx:25-26 | Sorted lists with the same elements are equal, so the order depends only on the selected set. |
| Popup.Pick | frontend/web/src/app/mangareader/Popup.tsx:27 | The list's entries at the given indices, in that order. |
| Popup.SelectedTokens | frontend/web/src/app/mangareader/Popup.tsx:25-27 | One token per selected index, taken in sorted index order. |
| Popup.Boxes | frontend/web/src/app/mangareader/Popup.tsx:53 | The box of each selected token. |
| Popup.AnchorOf | frontend/web/src/app/mangareader/Popup.tsx:33-44 | Top is at least 0 and every bottom + height, left is at most the parent width and every left; each is the start value or reached by a token. |
| Popup.CropArea | frontend/web/src/app/mangareader/Popup.tsx:52-69 | Bounded by the parent, it contains every token's box clipped to the parent. Each side is the start value or a token's side. |
| Popup.CropAreaIsTightInsideParent | frontend/web/src/app/mangareader/Popup.tsx:52-69 | When every box lies inside the parent, the crop area is exactly their bounding box. |
| Popup.Render | frontend/web/src/app/mangareader/Popup.tsx:21-69 | Nothing exactly without tokens or without a selection. Otherwise the anchor, the selected text and the crop area of the selected tokens. |
| Popup.RenderIgnoresSelectionOrder | frontend/web/src/app/mangareader/Popup.tsx:25-69 | The order in which texts were selected does not change the popup. |
| MangaReader.SafePage | frontend/web/src/lib/mangareader/MangaReader.tsx:135-151 | In range for a non-empty book. An in-range page is kept, a page past the end goes to the last and a negative page goes to 0. |
| MangaReader.SafePageIdempotent | frontend/web/src/lib/mangareader/MangaReader.tsx:135-151 | Clamping a clamped page changes nothing. |
| MangaReader.PageTurnsSaturate | frontend/web/src/lib/mangareader/MangaReader.tsx:153-159 | Next on the last page and previous on the first stay put. |
| MangaReader.WithSelected | frontend/web/src/lib/mangareader/MangaReader.tsx:175-181 | The index joins the selection, earlier selections stay in their order and the list is kept. |
| MangaReader.WithSelectedIdempotent | frontend/web/src/lib/mangareader/MangaReader.tsx:175-181 | Selecting the same text twice is selecting it once. |
| MangaReader.WithinCrop | frontend/web/src/lib/mangareader/MangaReader.tsx:188-199 | A text is in the result exactly when it is in the list and its box lies inside the crop; never longer than the list. |
| MangaReader.WithinCropKeepsOrder | frontend/web/src/lib/mangareader/MangaReader.tsx:188-199 | The filter of a + b is the filter of a followed by the filter of b, for every a and b: survivors keep their list order. |
| MangaReader.WithinCropSnoc | frontend/web/src/lib/mangareader/MangaReader.tsx:188-199 | One more text at the end is appended to the filter exactly when its box is inside. |
| MangaReader.WithinCropOne | frontend/web/src/lib/mangareader/MangaReader.tsx:188-199 | A single text survives exactly when its box is inside. |
| MangaReader.WithinCropKeepsAll | frontend/web/src/lib/mangareader/MangaReader.tsx:188-199 | With every box inside, the list comes back unchanged. |
| MangaReader.WithinCropCount | frontend/web/src/lib/mangareader/MangaReader.tsx:188-199 | A text inside the crop is kept as often as the list holds it; one outside is not kept. |
| MangaReader.CollapseKeepsCleanText | frontend/web/src/lib/mangareader/MangaReader.tsx:205-208 | Text with no space before ",", ".", "!" or "?" is unchanged. |
| MangaReader.Descriptions | frontend/web/src/lib/mangareader/MangaReader.tsx:202 | The texts' descriptions, in order. |
| MangaReader.SentenceFromCrop | frontend/web/src/lib/mangareader/MangaReader.tsx:183-209 | Undefined exactly without tokens. Otherwise the collapsed, lower-cased join of the descriptions of the ordered filter `WithinCrop`. |
| MangaReader.SentenceIgnoresOutsideText | frontend/web/src/lib/mangareader/MangaReader.tsx:188-209 | A text outside the crop, anywhere in the list, does not change the sentence, and neither does the selection. |
| MangaReader.SentenceOfTextsInside | frontend/web/src/lib/mangareader/MangaReader.tsx:188-209 | With every box inside, the sentence is built from all the descriptions, in list order. |
| MangaReader.SentenceOfTwoTexts | frontend/web/src/lib/mangareader/MangaReader.tsx:188-209 | Two texts inside the crop read first, join character, second, before lower-casing and collapsing. |
| MangaReader.MergeMeta | frontend/web/src/lib/mangareader/MangaReader.tsx:258-262 | The editor's meta keys plus "sentence". The editor's values win, including its own sentence. |
| MangaReader.Reader.constructor | frontend/web/src/lib/mangareader/MangaReader.tsx:69-85 | No book, page 0, no tokens, default view, no card data. |
| MangaReader.Reader.SetBook | frontend/web/src/lib/mangareader/MangaReader.tsx:123 | The book is set and nothing else changes. |
| MangaReader.Reader.SetPageSafely | frontend/web/src/lib/mangareader/MangaReader.tsx:135-151 | Without a book nothing changes. Otherwise the page is clamped, and the tokens are cleared exactly when the page changed. |
| MangaReader.Reader.OnNextPage | frontend/web/src/lib/mangareader/MangaReader.tsx:153-155 | Without a book nothing changes. Otherwise the clamped page after the current one, with the tokens cleared exactly when the page changed. |
| MangaReader.Reader.OnPrevPage | frontend/web/src/lib/mangareader/MangaReader.tsx:157-159 | Without a book nothing changes. Otherwise the clamped page before the current one, with the tokens cleared exactly when the page changed. |
| MangaReader.Reader.LoadOcr | frontend/web/src/lib/mangareader/MangaReader.tsx:109-117 | With a book, the detected texts without the first, and nothing selected. |
| MangaReader.Reader.SelectIndex | frontend/web/src/lib/mangareader/MangaReader.tsx:161-181 | No tokens: nothing. No index: the selection is cleared and the list kept. An index joins the selection. |
| MangaReader.Reader.InitCardCreationFlow | frontend/web/src/lib/mangareader/MangaReader.tsx:129-133 | The editor's data and crop area are kept, and the view switches to cropping. |
| MangaReader.Reader.ExportCard | frontend/web/src/lib/mangareader/MangaReader.tsx:211-264 | Nothing without an image or card data. Otherwise the source text, the panel and the merged meta are sent, the view returns to default and the selection is cleared. |
| TextReader.Received | cmd/api_miner/controllers/texts.go:61-67 | The fetched body as the reader sees it: id, title and content as sent, and a position of 0 arriving as undefined. |
| TextReader.ResumesAtFetchedPosition | frontend/web/src/lib/chinesereader/TextReader.tsx:26 | A successfully fetched text starts at the position stored in its row. |
| TextReader.ResumesAtStoredPosition | frontend/web/src/lib/chinesereader/TextReader.tsx:61-68 | After a position is saved and the text is fetched again, the reader starts at that position narrowed to int32, which is the position itself whenever it fits. |
| TextReader.NextIndex | frontend/web/src/lib/chinesereader/TextReader.tsx:41-46 | Forward one line only while lines are loaded and the cursor is before their end, so it can reach but not pass the summary position. |
| TextReader.PrevIndex | frontend/web/src/lib/chinesereader/TextReader.tsx:47-52 | Back one line only from line 1 or later. |
| TextReader.SkipIndex | frontend/web/src/lib/chinesereader/TextReader.tsx:120-128 | Line numbers count from 1; NaN and numbers outside the text leave the cursor where it is. |
| TextReader.NextThenPrev | frontend/web/src/lib/chinesereader/TextReader.tsx:41-52 | Forward then back returns to the same line. |
| TextReader.SliceEnd | frontend/web/src/lib/chinesereader/TextReader.tsx:75 | Where `slice(0, end)` stops: end itself in range, the length past it, counted from the back when negative. |
| TextReader.CharCountStep | frontend/web/src/lib/chinesereader/TextReader.tsx:74-77 | Moving one line forward adds that line's traditional characters. |
| TextReader.CharCountMonotonic | frontend/web/src/lib/chinesereader/TextReader.tsx:74-77 | Characters read never decrease as the cursor moves forward. |
| TextReader.CharCountAtSummary | frontend/web/src/lib/chinesereader/TextReader.tsx:74-77 | At the summary position every line has been read. |
| TextReader.Caption | frontend/web/src/lib/chinesereader/TextReader.tsx:132-134 | "Summary" exactly at the summary position. |
| TextReader.SavedPositionCanMoveBack | frontend/web/src/lib/chinesereader/TextReader.tsx:61-68 | Loaded at 3, the store gets 6 and then 5. |
| TextReader.UnsavedWithoutId | frontend/web/src/lib/chinesereader/TextReader.tsx:62 | A text without an id, or with id 0, never has its position saved. |
| TextReader.Reader.constructor | frontend/web/src/lib/chinesereader/TextReader.tsx:25-27 | The cursor starts at the saved position or 0, with nothing analysed and nothing saved. |
| TextReader.Reader.Analysed | frontend/web/src/lib/chinesereader/TextReader.tsx:57-59 | The analysed lines arrive and nothing else changes. |
| TextReader.Reader.SetFocusWord | frontend/web/src/lib/chinesereader/TextReader.tsx:94 | Only the focus word changes. |
| TextReader.Reader.MoveTo | frontend/web/src/lib/chinesereader/TextReader.tsx:61-68 | The cursor moves. A save is recorded exactly when the position changed, the text has a non-zero id and the position is past the loaded one. |
| TextReader.Reader.OnNextSentence | frontend/web/src/lib/chinesereader/TextReader.tsx:41-46 | The next index, the focus word reset on a move, the persistence rule applied, and the cursor kept in range. |
| TextReader.Reader.OnPrevSentence | frontend/web/src/lib/chinesereader/TextReader.tsx:47-52 | The previous index, the focus word reset on a move, the persistence rule applied, and the cursor kept in range. |
| TextReader.Reader.SkipToLine | frontend/web/src/lib/chinesereader/TextReader.tsx:120-128 | The skip index, with the persistence rule applied. |
| TextReader.Reader.CharsRead | frontend/web/src/lib/chinesereader/TextReader.tsx:74-77 | At the summary position, the total of all lines. |
| TextReader.Reader.CurrentCaption | frontend/web/src/lib/chinesereader/TextReader.tsx:132-134 | "Summary" exactly at the summary position. |

The same OCR flattening and bounding-box hash also appear in
frontend/web/src/app/mangareader/domain.ts:

- parse at 60-64;
- words at 66-78;
- hash at 80-83;
- block texts at 85-93;
- raw text at 95-106;
- paragraph at 108-125.

These copies are identical to the Chinese reader's, so the `Ocr` module
models both.

## Code behaviour worth knowing

These are consequences of the code as written, stated in the lemmas above:

- A search for "" returns every scanned line of every chapter, empty interior lines included (`Corpus.HitsEmptyWord`).
- Loading keeps listing order (series folders, then files in each). `ioutil.ReadDir` returns its entries sorted by file name. The model accepts a listing in any order, so what it proves holds for the sorted listings in particular.
- `UpdateCard`'s success is answered 200 by the handler; `MarkCardAsExported`'s is 201.
- The text reader compares the cursor with the position the text was LOADED with, not with the last saved one. Moving back after moving forward therefore saves a smaller position than before (`TextReader.SavedPositionCanMoveBack`), so the stored position can go down.
- For a book with no pages, `setPageSafely(n)` with n ≥ 0 chooses page -1, because the upper check runs first. A negative n gives 0.
- `sort()` on the selected indices compares their decimal renderings, so index 10 comes before index 2 (`Popup.SortPutsTenBeforeTwo`).
- `cleanWords` can leave the selection on a word it just removed (`WebWordStore.CleanKeepsDanglingSelection`).

## Left out

### Excluded machinery

- Concurrency in the corpus (semaphores, wait group, mutex, goroutines). `Search` is modelled as a sequential scan in a chapter order given as a permutation.
- The error of `New` after loading. Every goroutine writes the shared `err`, so a later successful load can overwrite a failure. `Corpus.New` loads the chapters sequentially, and its error states only the tree load's failure.
- I/O on the file system: directory listings and file contents are inputs.
- `bufio.Scanner`'s 64 KiB line limit: every line is assumed to be shorter.
- HTTP routing, JSON decoding (a body that fails to decode is `None`) and the Postgres layer.
- The translator, the dictionaries, the OCR and text-detection services: they are parameters.

### Behaviour that comes in as parameters

- uuids and `Object.keys` order.
- `trim`, `toLowerCase`, `toLocaleLowerCase`, the German title caser and the golem dictionary.
- `parseInt`: the reply's parse comes in, with NaN as None.
- The canvas drawing in `exportCard`: the panel image is a parameter.

### JavaScript semantics not captured

- `AnkiDomain.FocusWordMarksEachOccurrence`: stated only for targets without '$'. The target is part of the replacement string, so "$$", "$&", "$`" and "$'" in it are rewritten (`AnkiDomain.DollarTargetIsRewritten`). The other `replaceAll` calls in the model use constant replacements without '$', where `Strings.ReplaceAll` is the same (`JsStrings.JsReplaceAllWithoutDollar`).
- The stability of `sort`: only "sorted by length and a permutation" is stated.
- The floating-point page estimate from the number of characters read.
- CSS offsets and the rendering of the popup.
- `Math.min` and `Math.max` over an empty vertex list give ±Infinity, so in the source a text with no vertices gets an infinite box (left and top +Infinity, right and bottom -Infinity). `MangaDomain.GetPosition` requires a non-empty vertex list; `Popup.SelectedTokens` requires every selected text to have one; `MangaReader.WithinCrop`, `MangaReader.SentenceFromCrop` and `MangaReader.Reader.ExportCard` require every detected text to have one.
- The OCR symbols' confidence and other fields not read by the flattening.
- `Ocr.GetWordsFromOcrResult`: the `Set` is by object identity, and every word object is new, so the model lists the words without de-duplication.

### Other modelling choices

- The shown `internal/pkg/corpus/main.go` has no language on `Chapter` and none in `New(path)`. Yet `cmd/api_miner/controllers/corpus.go:53` reads the chapter's language, and `cmd/api_miner/main.go:112,117` passes "jp" and "zh" to `corpus.New`, so the files disagree. The model follows the corpus file: `CorpusApi.SearchResultOf` takes the language from the request, which names the corpus searched.
- `Outcome.rejection` records why a 400 was given. It is a modelling device, not something the handlers return.
- `WebWordStore.ExternalIds` states only that every carried external id is in the set. The converse is the lemma `WebWordStore.ExternalIdsAreCarried`.
- The React state updates and effects (the page-change effect in the manga reader, the persistence effect in the text reader) are modelled as running right after the state change that triggers them.
- The lib/ and app/ copies of the manga reader and text reader duplicate each other. The model follows frontend/web/src/lib/mangareader/MangaReader.tsx, frontend/web/src/lib/chinesereader/TextReader.tsx and the Popup and domain of frontend/web/src/app/mangareader/.
