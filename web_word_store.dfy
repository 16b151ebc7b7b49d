/** The word collection of the web front end: the words being mined, by
    id, and the selected one, kept in the browser's storage. Every change
    except a change of selection is written to storage.

    Fresh ids (uuids in the front end) are a parameter: a list of distinct
    ids that are not yet keys. The order in which JavaScript lists an
    object's keys is a parameter too. */
module WebWordStore {
  import opened Wrappers
  import opened AnkiDomain
  import Sequences

  // ---- the transitions, on values ---------------------------------------------

  /** `updateWord`: a known word is replaced and the selection moves to
      `selectedWordId` when one is given; an unknown id changes nothing. */
  function WithWord(c: Collection, newWord: Word, id: string, selectedWordId: Option<string>): (r: Collection)
    ensures id !in c.words ==> r == c
    ensures id in c.words ==> r.words.Keys == c.words.Keys && r.words[id] == newWord
    ensures forall k :: k in c.words && k != id ==> r.words[k] == c.words[k]
    ensures id in c.words ==> r.selectedId == (if selectedWordId.Some? then selectedWordId else c.selectedId)
  {
    if id !in c.words then c
    else Collection(c.words[id := newWord], if selectedWordId.Some? then selectedWordId else c.selectedId)
  }

  /** `deleteWord`: the word is removed, and so is the selection when it
      pointed at it. */
  function Deleted(c: Collection, id: string): (r: Collection)
    ensures r.words.Keys == c.words.Keys - {id}
    ensures forall k :: k in r.words ==> r.words[k] == c.words[k]
    ensures r.selectedId.None? <==> c.selectedId.None? || c.selectedId == Some(id)
    ensures r.selectedId.Some? ==> r.selectedId == c.selectedId
  {
    Collection(c.words - {id}, if c.selectedId == Some(id) then None else c.selectedId)
  }

  /** The words that are not done yet. */
  function Undone(words: map<string, Word>): (r: map<string, Word>)
    ensures forall k :: k in r <==> k in words && !words[k].done
    ensures forall k :: k in r ==> r[k] == words[k]
  {
    map k | k in words && !words[k].done :: words[k]
  }

  /** `cleanWords`: the words that are done are removed. The selection is
      kept whenever it named a word before cleaning, even one that has just
      been removed, and cleared only when it named no word. */
  function Cleaned(c: Collection): (r: Collection)
    ensures r.words == Undone(c.words)
    ensures r.selectedId.Some? <==> c.selectedId.Some? && c.selectedId.value in c.words
    ensures r.selectedId.Some? ==> r.selectedId == c.selectedId
  {
    Collection(Undone(c.words), if c.selectedId.Some? && c.selectedId.value in c.words then c.selectedId else None)
  }

  /** A new word as `addWords` creates it: not done, meant for a vocabulary
      card, highlighted as itself, nothing else known. */
  function NewWord(value: string): (w: Word)
    ensures w.value == value && !w.done && w.meta.vocabCard && w.meta.highlight == Some(value)
    ensures w.meta.sentence.None? && w.meta.reading.None? && w.meta.audioUrl.None? && w.meta.externalId.None?
    ensures w.meta.definitionEnglish.None? && w.meta.definitionTargetLanguage.None? && w.meta.definitionJapanese.None?
  {
    Word(value, false, WordMeta(None, None, None, None, None, None, true, Some(value), None))
  }

  /** `ids` can serve as fresh keys for `n` new words of `words`. */
  predicate FreshIds(ids: seq<string>, n: nat, words: map<string, Word>) {
    |ids| >= n
    && (forall i, j :: 0 <= i < j < |ids| ==> ids[i] != ids[j])
    && (forall i :: 0 <= i < |ids| ==> ids[i] !in words)
  }

  /** The words of `batch` under the ids `ids`, as a map. */
  function Keyed(batch: seq<Word>, ids: seq<string>): map<string, Word>
    requires |ids| >= |batch|
    decreases |batch|
  {
    if batch == [] then map[]
    else
      var n := |batch| - 1;
      Keyed(batch[..n], ids)[ids[n] := batch[n]]
  }

  /** The keys are exactly the first `|batch|` ids. */
  lemma {:induction false} KeyedKeys(batch: seq<Word>, ids: seq<string>)
    requires |ids| >= |batch|
    ensures forall k :: k in Keyed(batch, ids) <==> exists i :: 0 <= i < |batch| && ids[i] == k
    decreases |batch|
  {
    if batch != [] {
      var n := |batch| - 1;
      KeyedKeys(batch[..n], ids);
    }
  }

  /** With distinct ids, each word sits under its own id. */
  lemma {:induction false} KeyedValues(batch: seq<Word>, ids: seq<string>)
    requires |ids| >= |batch|
    requires forall i, j :: 0 <= i < j < |ids| ==> ids[i] != ids[j]
    ensures forall i :: 0 <= i < |batch| ==> ids[i] in Keyed(batch, ids) && Keyed(batch, ids)[ids[i]] == batch[i]
    decreases |batch|
  {
    if batch != [] {
      var n := |batch| - 1;
      KeyedValues(batch[..n], ids);
      KeyedKeys(batch[..n], ids);
      forall i | 0 <= i < |batch|
        ensures ids[i] in Keyed(batch, ids) && Keyed(batch, ids)[ids[i]] == batch[i]
      {
        if i < n {
          assert ids[i] != ids[n];
          assert batch[..n][i] == batch[i];
        }
      }
    }
  }

  /** Keying one more word extends the map by that word. */
  lemma KeyedStep(batch: seq<Word>, ids: seq<string>, i: nat)
    requires i < |batch| <= |ids|
    ensures Keyed(batch[..i + 1], ids) == Keyed(batch[..i], ids)[ids[i] := batch[i]]
  {
    var s := batch[..i + 1];
    assert s[..i] == batch[..i];
    assert s != [] && |s| - 1 == i && s[i] == batch[i];
    assert Keyed(s, ids) == Keyed(s[..i], ids)[ids[i] := s[i]];
  }

  /** The words of `raw`, as new words. */
  function NewWords(raw: seq<string>): (ws: seq<Word>)
    ensures |ws| == |raw| && forall i :: 0 <= i < |raw| ==> ws[i] == NewWord(raw[i])
  {
    seq(|raw|, i requires 0 <= i < |raw| => NewWord(raw[i]))
  }

  /** `addWords`: each raw word added as a new word under its own batch id. */
  function Added(c: Collection, raw: seq<string>, ids: seq<string>): Collection
    requires FreshIds(ids, |raw|, c.words)
  {
    Collection(c.words + Keyed(NewWords(raw), ids), c.selectedId)
  }

  /** Adding words keeps every existing word and the selection, and adds
      each raw word as a new word under its own batch id and nothing else. */
  lemma AddedWords(c: Collection, raw: seq<string>, ids: seq<string>)
    requires FreshIds(ids, |raw|, c.words)
    ensures var r := Added(c, raw, ids);
      (forall k :: k in c.words ==> k in r.words && r.words[k] == c.words[k]) &&
      (forall i :: 0 <= i < |raw| ==> ids[i] in r.words && r.words[ids[i]] == NewWord(raw[i])) &&
      (forall k :: k in r.words ==> k in c.words || exists i :: 0 <= i < |raw| && ids[i] == k) &&
      |r.words| == |c.words| + |raw| &&
      r.selectedId == c.selectedId
  {
    var batch := Keyed(NewWords(raw), ids);
    KeyedKeys(NewWords(raw), ids);
    KeyedValues(NewWords(raw), ids);
    AddedSize(c.words, batch, ids[..|raw|]);
  }

  lemma AddedSize(words: map<string, Word>, batch: map<string, Word>, ids: seq<string>)
    requires forall i, j :: 0 <= i < j < |ids| ==> ids[i] != ids[j]
    requires forall k :: k in batch <==> k in ids
    requires forall k :: k in ids ==> k !in words
    ensures |words + batch| == |words| + |ids|
  {
    assert (words + batch).Keys == words.Keys + batch.Keys;
    assert words.Keys * batch.Keys == {};
    DistinctCard(ids);
    assert batch.Keys == set k | k in ids;
  }

  lemma {:induction false} DistinctCard(ids: seq<string>)
    requires forall i, j :: 0 <= i < j < |ids| ==> ids[i] != ids[j]
    ensures |set k | k in ids| == |ids|
    decreases |ids|
  {
    if ids != [] {
      var init := ids[..|ids| - 1];
      DistinctCard(init);
      assert ids == init + [ids[|ids| - 1]];
      assert (set k | k in ids) == (set k | k in init) + {ids[|ids| - 1]};
    }
  }

  /** The external ids that existing words carry. */
  function ExternalIds(words: map<string, Word>): (ext: set<int>)
    ensures forall k :: k in words && words[k].meta.externalId.Some? ==> words[k].meta.externalId.value in ext
  {
    set k | k in words && words[k].meta.externalId.Some? :: words[k].meta.externalId.value
  }

  /** Every collected external id is carried by some existing word. */
  lemma ExternalIdsAreCarried(words: map<string, Word>, x: int)
    requires x in ExternalIds(words)
    ensures exists k :: k in words && words[k].meta.externalId == Some(x)
  {
  }

  /** Whether an imported word is kept: it has no external id, or one that
      no existing word carries. */
  predicate Importable(w: Word, ext: set<int>) {
    w.meta.externalId.None? || w.meta.externalId.value !in ext
  }

  /** The imported words that are kept, in their order, each as often as
      the batch holds it. */
  function Kept(batch: seq<Word>, ext: set<int>): (r: seq<Word>)
    ensures |r| <= |batch|
    ensures forall w :: w in r <==> w in batch && Importable(w, ext)
    ensures forall w :: multiset(r)[w] == if Importable(w, ext) then multiset(batch)[w] else 0
    decreases |batch|
  {
    if batch == [] then []
    else
      var n := |batch| - 1;
      assert batch == batch[..n] + [batch[n]];
      Kept(batch[..n], ext) + if Importable(batch[n], ext) then [batch[n]] else []
  }

  /** Filtering a batch in two pieces is filtering each piece, in order. */
  lemma {:induction false} KeptKeepsOrder(a: seq<Word>, b: seq<Word>, ext: set<int>)
    ensures Kept(a + b, ext) == Kept(a, ext) + Kept(b, ext)
    decreases |b|
  {
    if b == [] {
      assert a + b == a;
    } else {
      var n := |b| - 1;
      var init, x := b[..n], b[n];
      KeptKeepsOrder(a, init, ext);
      Sequences.SplitLast(b);
      Sequences.AppendAssoc(a, init, [x]);
      var last := if Importable(x, ext) then [x] else [];
      KeptSnoc(a + init, x, ext);
      assert Kept(a + b, ext) == Kept(a + init, ext) + last;
      KeptSnoc(init, x, ext);
      assert Kept(b, ext) == Kept(init, ext) + last;
      Sequences.AppendAssoc(Kept(a, ext), Kept(init, ext), last);
    }
  }

  lemma KeptSnoc(batch: seq<Word>, x: Word, ext: set<int>)
    ensures Kept(batch + [x], ext) == Kept(batch, ext) + if Importable(x, ext) then [x] else []
  {
    var l := batch + [x];
    assert l[..|l| - 1] == batch;
  }

  /** `importWords`: the incoming words whose external id no existing word
      carries are added under fresh ids; words without an external id, and
      repeats within the incoming batch, are all kept. */
  function Imported(c: Collection, incoming: seq<Word>, ids: seq<string>): Collection
    requires FreshIds(ids, |incoming|, c.words)
  {
    Collection(c.words + Keyed(Kept(incoming, ExternalIds(c.words)), ids), c.selectedId)
  }

  /** Importing keeps every existing word and the selection, adds every
      importable incoming word under a new key, and adds nothing else. */
  lemma ImportedWords(c: Collection, incoming: seq<Word>, ids: seq<string>)
    requires FreshIds(ids, |incoming|, c.words)
    ensures var r := Imported(c, incoming, ids);
      (forall k :: k in c.words ==> k in r.words && r.words[k] == c.words[k]) &&
      (forall w :: w in incoming && Importable(w, ExternalIds(c.words)) ==>
        exists k :: k in r.words && k !in c.words && r.words[k] == w) &&
      (forall k :: k in r.words && k !in c.words ==>
        r.words[k] in incoming && Importable(r.words[k], ExternalIds(c.words))) &&
      r.selectedId == c.selectedId
    ensures var r, kept := Imported(c, incoming, ids), Kept(incoming, ExternalIds(c.words));
      (forall i :: 0 <= i < |kept| ==> ids[i] in r.words && ids[i] !in c.words && r.words[ids[i]] == kept[i]) &&
      |r.words| == |c.words| + |kept|
  {
    var kept := Kept(incoming, ExternalIds(c.words));
    KeyedUnion(c.words, kept, ids);
    KeyedSize(c.words, kept, ids);
  }

  /** Adding a batch under fresh ids puts each of its words under its own
      new id, so the collection grows by the batch's length. */
  lemma KeyedSize(words: map<string, Word>, batch: seq<Word>, ids: seq<string>)
    requires FreshIds(ids, |batch|, words)
    ensures var u := words + Keyed(batch, ids);
      (forall i :: 0 <= i < |batch| ==> ids[i] in u && ids[i] !in words && u[ids[i]] == batch[i]) &&
      |u| == |words| + |batch|
  {
    KeyedKeys(batch, ids);
    KeyedValues(batch, ids);
    AddedSize(words, Keyed(batch, ids), ids[..|batch|]);
  }

  /** A word without an external id imported twice in one batch is added
      twice, under two new keys. */
  lemma ImportKeepsBatchDuplicates(c: Collection, w: Word, ids: seq<string>)
    requires w.meta.externalId.None? && FreshIds(ids, 2, c.words)
    ensures var r := Imported(c, [w, w], ids).words;
      |r| == |c.words| + 2 && ids[0] in r && ids[1] in r && ids[0] != ids[1] && r[ids[0]] == w && r[ids[1]] == w
  {
    KeptTwice(w, ExternalIds(c.words));
    KeyedSize(c.words, [w, w], ids);
    assert [w, w][0] == w && [w, w][1] == w;
  }

  lemma KeptTwice(w: Word, ext: set<int>)
    requires Importable(w, ext)
    ensures Kept([w, w], ext) == [w, w]
  {
    KeptSnoc([], w, ext);
    KeptSnoc([w], w, ext);
    assert [] + [w] == [w] && [w] + [w] == [w, w];
  }

  /** Adding a batch under fresh ids keeps every word and adds exactly the
      batch's words. */
  lemma KeyedUnion(words: map<string, Word>, batch: seq<Word>, ids: seq<string>)
    requires FreshIds(ids, |batch|, words)
    ensures forall k :: k in words ==> k in words + Keyed(batch, ids) && (words + Keyed(batch, ids))[k] == words[k]
    ensures forall w :: w in batch ==>
      exists k :: k in words + Keyed(batch, ids) && k !in words && (words + Keyed(batch, ids))[k] == w
    ensures forall k :: k in words + Keyed(batch, ids) && k !in words ==> (words + Keyed(batch, ids))[k] in batch
  {
    var m := Keyed(batch, ids);
    KeyedKeys(batch, ids);
    KeyedValues(batch, ids);
    var u := words + m;
    forall k | k in words
      ensures k in u && u[k] == words[k]
    {
      assert k !in m;
    }
    forall w | w in batch
      ensures exists k :: k in u && k !in words && u[k] == w
    {
      var i :| 0 <= i < |batch| && batch[i] == w;
      assert ids[i] in m && ids[i] !in words;
      assert u[ids[i]] == w;
    }
    forall k | k in u && k !in words
      ensures u[k] in batch
    {
      var i :| 0 <= i < |batch| && ids[i] == k;
      assert u[k] == batch[i];
    }
  }

  /** The selection a collection read from storage gets: its own, or the
      first key when it has none (None when there are no words). */
  function WithDefaultSelection(c: Collection, keyOrder: seq<string>): (r: Collection)
    requires forall k :: k in keyOrder <==> k in c.words
    ensures r.words == c.words
    ensures c.selectedId.Some? ==> r.selectedId == c.selectedId
    ensures c.selectedId.None? ==> (r.selectedId.None? <==> c.words == map[])
    ensures c.selectedId.None? && r.selectedId.Some? ==> r.selectedId.value in c.words && r.selectedId == Some(keyOrder[0])
  {
    if c.selectedId.Some? then c
    else if keyOrder == [] then
      assert forall k :: k !in c.words;
      c
    else
      assert keyOrder[0] in c.words;
      Collection(c.words, Some(keyOrder[0]))
  }

  // ---- properties of the transitions ----------------------------------------

  /** Updating a word that has just been deleted changes nothing. */
  lemma UpdateAfterDeleteIsNoOp(c: Collection, id: string, w: Word, sel: Option<string>)
    ensures WithWord(Deleted(c, id), w, id, sel) == Deleted(c, id)
  {
  }

  /** Cleaning twice removes no more words than cleaning once, but the
      second pass clears a selection the first one left dangling. */
  lemma CleanTwice(c: Collection)
    ensures Cleaned(Cleaned(c)).words == Cleaned(c).words
    ensures var once := Cleaned(c);
      once.selectedId.Some? && once.selectedId.value !in once.words ==> Cleaned(once).selectedId.None?
    ensures Cleaned(Cleaned(c)).selectedId.Some? ==> Cleaned(Cleaned(c)).selectedId.value in Cleaned(c).words
  {
    var once := Cleaned(c);
    assert Undone(once.words) == once.words;
  }

  /** Cleaning can leave the selection on a word it removed: a selected word
      that is done is removed while the selection stays. */
  lemma CleanKeepsDanglingSelection(c: Collection)
    requires c.selectedId.Some? && c.selectedId.value in c.words && c.words[c.selectedId.value].done
    ensures Cleaned(c).selectedId == c.selectedId && c.selectedId.value !in Cleaned(c).words
  {
  }

  /** An imported word whose external id is already known is dropped, and
      one without an external id is always added. */
  lemma ImportFiltersByExternalId(c: Collection, w: Word, k: string)
    requires k in c.words && c.words[k].meta.externalId.Some? && w.meta.externalId == c.words[k].meta.externalId
    ensures !Importable(w, ExternalIds(c.words))
    ensures Importable(w.(meta := w.meta.(externalId := None)), ExternalIds(c.words))
  {
  }

  // ---- the store --------------------------------------------------------------

  class WordStore {
    var words: map<string, Word>
    var selectedId: Option<string>
    /** The collections in browser storage, by name. */
    var storage: map<string, Collection>
    /** The name this collection is stored under. */
    const name: string

    function Contents(): Collection
      reads this
    {
      Collection(words, selectedId)
    }

    /** The collection of one language starts empty, over whatever storage
        already holds. */
    constructor (languageCode: string, storage: map<string, Collection>)
      ensures words == map[] && selectedId.None? && this.storage == storage
      ensures name == "collection_" + languageCode
    {
      words := map[];
      selectedId := None;
      this.storage := storage;
      name := "collection_" + languageCode;
    }

    /** The load effect: a stored collection replaces the empty one, with
        the first key selected when it has no selection. Nothing is written. */
    method Load(keyOrder: seq<string>)
      requires name in storage ==> forall k :: k in keyOrder <==> k in storage[name].words
      modifies this
      ensures storage == old(storage)
      ensures name !in storage ==> Contents() == old(Contents())
      ensures name in storage ==> Contents() == WithDefaultSelection(storage[name], keyOrder)
    {
      if name in storage {
        var c := storage[name];
        if c.selectedId.None? {
          c := c.(selectedId := if |keyOrder| > 0 then Some(keyOrder[0]) else None);
        }
        words := c.words;
        selectedId := c.selectedId;
      }
    }

    /** Writes the collection to storage and makes it the current one. */
    method Persist(c: Collection)
      modifies this
      ensures Contents() == c && storage == old(storage)[name := c]
    {
      storage := storage[name := c];
      words := c.words;
      selectedId := c.selectedId;
    }

    method UpdateWord(newWord: Word, id: string, selectedWordId: Option<string>)
      modifies this
      ensures id !in old(words) ==> Contents() == old(Contents()) && storage == old(storage)
      ensures id in old(words) ==> Contents() == WithWord(old(Contents()), newWord, id, selectedWordId)
      ensures id in old(words) ==> storage == old(storage)[name := Contents()]
    {
      if id !in words {
        return;
      }
      var newWords := words[id := newWord];
      Persist(Collection(newWords, if selectedWordId.Some? then selectedWordId else selectedId));
    }

    /** Changes the selection only; storage is not written. */
    method SetSelectedWordId(id: Option<string>)
      modifies this
      ensures words == old(words) && selectedId == id && storage == old(storage)
    {
      selectedId := id;
    }

    method AddWords(rawWords: seq<string>, ids: seq<string>)
      requires FreshIds(ids, |rawWords|, words)
      modifies this
      ensures Contents() == Added(old(Contents()), rawWords, ids) && storage == old(storage)[name := Contents()]
    {
      var newWords := NewWords(rawWords);
      var batch: map<string, Word> := map[];
      var i := 0;
      while i < |newWords|
        invariant 0 <= i <= |newWords|
        invariant batch == Keyed(newWords[..i], ids)
        invariant words == old(words) && selectedId == old(selectedId) && storage == old(storage)
      {
        KeyedStep(newWords, ids, i);
        batch := batch[ids[i] := newWords[i]];
        i := i + 1;
      }
      assert newWords[..i] == newWords;
      Persist(Collection(words + batch, selectedId));
    }

    method ImportWords(incoming: seq<Word>, ids: seq<string>)
      requires FreshIds(ids, |incoming|, words)
      modifies this
      ensures Contents() == Imported(old(Contents()), incoming, ids) && storage == old(storage)[name := Contents()]
    {
      var filtered := Kept(incoming, ExternalIds(words));
      var batch: map<string, Word> := map[];
      var i := 0;
      while i < |filtered|
        invariant 0 <= i <= |filtered|
        invariant batch == Keyed(filtered[..i], ids)
        invariant words == old(words) && selectedId == old(selectedId) && storage == old(storage)
      {
        KeyedStep(filtered, ids, i);
        batch := batch[ids[i] := filtered[i]];
        i := i + 1;
      }
      assert filtered[..i] == filtered;
      Persist(Collection(words + batch, selectedId));
    }

    method DeleteWord(id: string)
      modifies this
      ensures Contents() == Deleted(old(Contents()), id) && storage == old(storage)[name := Contents()]
    {
      var newWords := words - {id};
      Persist(Collection(newWords, if selectedId == Some(id) then None else selectedId));
    }

    /** Visits every key and deletes the words that are done. */
    method CleanWords()
      modifies this
      ensures Contents() == Cleaned(old(Contents())) && storage == old(storage)[name := Contents()]
    {
      var newWords := words;
      var remaining := words.Keys;
      while remaining != {}
        invariant remaining <= words.Keys
        invariant forall k :: k in newWords <==> k in words && (k in remaining || !words[k].done)
        invariant forall k :: k in newWords ==> newWords[k] == words[k]
        decreases |remaining|
      {
        var id :| id in remaining;
        if words[id].done {
          newWords := newWords - {id};
        }
        remaining := remaining - {id};
      }
      assert newWords == Undone(words);
      var sel := if selectedId.Some? && selectedId.value in words then selectedId else None;
      Persist(Collection(newWords, sel));
    }
  }
}
