/** The word collection of the stand-alone mining app. It is read from and
    written to browser storage under the name "collection"; its updates keep
    the selection, and a change of selection is not written. */
module AnkiWordStore {
  import opened Wrappers
  import opened AnkiDomain
  import W = WebWordStore

  /** `updateWord` of this app: a known word is replaced and nothing else
      changes; the selection stays where it was. */
  function Updated(c: Collection, newWord: Word, id: string): (r: Collection)
    ensures id !in c.words ==> r == c
    ensures r.selectedId == c.selectedId
    ensures id in c.words ==> r.words == c.words[id := newWord]
    ensures r == W.WithWord(c, newWord, id, None)
  {
    if id !in c.words then c else Collection(c.words[id := newWord], c.selectedId)
  }

  /** An update leaves every other word and the set of ids as they were. */
  lemma UpdateTouchesOnlyItsWord(c: Collection, newWord: Word, id: string, other: string)
    requires id in c.words && other != id && other in c.words
    ensures Updated(c, newWord, id).words[other] == c.words[other]
    ensures Updated(c, newWord, id).words.Keys == c.words.Keys
  {
  }

  class WordStore {
    var words: map<string, Word>
    var selectedId: Option<string>
    /** The collections in browser storage, by name. */
    var storage: map<string, Collection>

    static const Name := "collection"

    function Contents(): Collection
      reads this
    {
      Collection(words, selectedId)
    }

    constructor (storage: map<string, Collection>)
      ensures words == map[] && selectedId.None? && this.storage == storage
    {
      words := map[];
      selectedId := None;
      this.storage := storage;
    }

    /** The load effect: a stored collection replaces the empty one, with
        its first key selected when it has no selection. Nothing is written. */
    method Load(keyOrder: seq<string>)
      requires Name in storage ==> forall k :: k in keyOrder <==> k in storage[Name].words
      modifies this
      ensures storage == old(storage)
      ensures Name !in storage ==> Contents() == old(Contents())
      ensures Name in storage ==> Contents() == W.WithDefaultSelection(storage[Name], keyOrder)
    {
      if Name in storage {
        var c := storage[Name];
        if c.selectedId.None? {
          c := c.(selectedId := if |keyOrder| > 0 then Some(keyOrder[0]) else None);
        }
        words := c.words;
        selectedId := c.selectedId;
      }
    }

    method UpdateWord(newWord: Word, id: string)
      modifies this
      ensures id !in old(words) ==> Contents() == old(Contents()) && storage == old(storage)
      ensures id in old(words) ==> Contents() == Updated(old(Contents()), newWord, id)
      ensures id in old(words) ==> storage == old(storage)[Name := Contents()]
    {
      if id !in words {
        return;
      }
      var newCollection := Collection(words[id := newWord], selectedId);
      storage := storage[Name := newCollection];
      words := newCollection.words;
      selectedId := newCollection.selectedId;
    }

    /** Changes the selection only; the words and storage stay as they are. */
    method SetSelectedWordId(id: Option<string>)
      modifies this
      ensures words == old(words) && selectedId == id && storage == old(storage)
    {
      selectedId := id;
    }
  }
}
