/** The manga reader's state: the book, the page shown, the texts detected
    on it with the reader's selection, and the card being prepared from a
    cropped panel. */
module MangaReader {
  import opened Wrappers
  import opened Strings
  import opened MangaDomain
  import Popup
  import Sequences

  datatype Book = Book(title: string, pages: seq<string>)
  datatype ViewMode = Default | Crop

  /** What the popup editor handed over when card creation started. */
  datatype CardData = CardData(sourceText: string, meta: map<string, string>)

  /** The card sent to `createCard`; a meta value of None is `undefined`. */
  datatype CardRequest = CardRequest(token: string, image: string, meta: map<string, Option<string>>)

  // ---- pages -------------------------------------------------------------

  /** `setPageSafely`'s choice for a book of `len` pages: the last page for
      anything at or past the end (checked first, so -1 for an empty book
      and any `n >= 0`), the first page for anything before it, and `n`
      itself otherwise. */
  function SafePage(len: nat, n: int): (r: int)
    ensures len > 0 ==> 0 <= r < len
    ensures 0 <= n < len ==> r == n
    ensures n >= len ==> r == len - 1
    ensures n < 0 ==> r == 0
  {
    if len <= n then len - 1
    else if 0 > n then 0
    else n
  }

  /** A page already in range is kept as it is. */
  lemma SafePageIdempotent(len: nat, n: int)
    requires len > 0
    ensures SafePage(len, SafePage(len, n)) == SafePage(len, n)
  {
  }

  /** Pressing next on the last page, or previous on the first, stays put. */
  lemma PageTurnsSaturate(len: nat)
    requires len > 0
    ensures SafePage(len, (len - 1) + 1) == len - 1
    ensures SafePage(len, 0 - 1) == 0
  {
  }

  // ---- selection -------------------------------------------------------

  /** `selectIndex(i)`: `i` joins the selection (a key already present keeps
      its place), and the detected texts stay as they are. */
  function WithSelected(t: Tokens, i: int): (r: Tokens)
    ensures r.list == t.list
    ensures forall j :: j in r.selectedIndices <==> j in t.selectedIndices || j == i
    ensures |t.selectedIndices| <= |r.selectedIndices| <= |t.selectedIndices| + 1
    ensures r.selectedIndices[..|t.selectedIndices|] == t.selectedIndices
  {
    if i in t.selectedIndices then t else Tokens(t.selectedIndices + [i], t.list)
  }

  /** Selecting the same text twice is selecting it once. */
  lemma WithSelectedIdempotent(t: Tokens, i: int)
    ensures WithSelected(WithSelected(t, i), i) == WithSelected(t, i)
  {
  }

  // ---- the sentence under the crop ---------------------------------------

  /** A box lies entirely inside the crop area. */
  predicate Inside(p: Position, crop: Popup.Area) {
    p.left >= crop.left && p.right <= crop.right && p.top >= crop.top && p.bottom <= crop.bottom
  }

  predicate HavePolygons(list: seq<VisionText>) {
    forall k :: 0 <= k < |list| ==> list[k].vertices != []
  }

  /** The detected texts whose box lies inside the crop, in list order. */
  function WithinCrop(list: seq<VisionText>, crop: Popup.Area): (r: seq<VisionText>)
    requires HavePolygons(list)
    ensures |r| <= |list|
    ensures forall t :: t in r <==> t in list && Inside(GetPosition(t.vertices), crop)
  {
    if list == [] then []
    else
      var n := |list| - 1;
      var front := WithinCrop(list[..n], crop);
      assert list == list[..n] + [list[n]];
      if Inside(GetPosition(list[n].vertices), crop) then front + [list[n]] else front
  }

  /** Filtering a list in two pieces is filtering each piece, the first
      piece's survivors before the second's: the filter keeps list order. */
  lemma {:induction false} WithinCropKeepsOrder(a: seq<VisionText>, b: seq<VisionText>, crop: Popup.Area)
    requires HavePolygons(a) && HavePolygons(b)
    ensures HavePolygons(a + b)
    ensures WithinCrop(a + b, crop) == WithinCrop(a, crop) + WithinCrop(b, crop)
    decreases |b|
  {
    PolygonsConcat(a, b);
    if b == [] {
      assert a + b == a;
    } else {
      var n := |b| - 1;
      var init, x := b[..n], b[n];
      PolygonsPrefix(b, n);
      WithinCropKeepsOrder(a, init, crop);
      PolygonsConcat(a, init);
      Sequences.SplitLast(b);
      Sequences.AppendAssoc(a, init, [x]);
      WithinCropSnoc(a + init, x, crop);
      WithinCropSnoc(init, x, crop);
    }
  }

  /** The filter of a list with one more text at the end. */
  lemma WithinCropSnoc(list: seq<VisionText>, x: VisionText, crop: Popup.Area)
    requires HavePolygons(list) && x.vertices != []
    ensures HavePolygons(list + [x])
    ensures WithinCrop(list + [x], crop)
         == WithinCrop(list, crop) + if Inside(GetPosition(x.vertices), crop) then [x] else []
  {
    var l := list + [x];
    assert l[..|l| - 1] == list;
    assert l[|l| - 1] == x;
    assert HavePolygons(l) by {
      forall k | 0 <= k < |l| ensures l[k].vertices != [] {
        if k < |list| { assert l[k] == list[k]; }
      }
    }
  }

  /** A one-text list survives exactly when its box is inside. */
  lemma WithinCropOne(t: VisionText, crop: Popup.Area)
    requires t.vertices != []
    ensures HavePolygons([t])
    ensures WithinCrop([t], crop) == if Inside(GetPosition(t.vertices), crop) then [t] else []
  {
    assert [t][..0] == [];
  }

  /** With every text inside the crop, nothing is dropped. */
  lemma {:induction false} WithinCropKeepsAll(list: seq<VisionText>, crop: Popup.Area)
    requires HavePolygons(list)
    requires forall k :: 0 <= k < |list| ==> Inside(GetPosition(list[k].vertices), crop)
    ensures WithinCrop(list, crop) == list
    decreases |list|
  {
    if list != [] {
      var n := |list| - 1;
      var init := list[..n];
      forall k | 0 <= k < |init|
        ensures init[k].vertices != [] && Inside(GetPosition(init[k].vertices), crop)
      {
        assert init[k] == list[k];
      }
      WithinCropKeepsAll(init, crop);
      assert Inside(GetPosition(list[n].vertices), crop);
      assert list == init + [list[n]];
    }
  }

  /** Each text inside the crop is kept as often as the list holds it, and
      a text outside it not at all. */
  lemma {:induction false} WithinCropCount(list: seq<VisionText>, crop: Popup.Area, t: VisionText)
    requires HavePolygons(list) && t.vertices != []
    ensures multiset(WithinCrop(list, crop))[t]
         == if Inside(GetPosition(t.vertices), crop) then multiset(list)[t] else 0
    decreases |list|
  {
    if list != [] {
      var n := |list| - 1;
      var init, x := list[..n], list[n];
      PolygonsPrefix(list, n);
      WithinCropCount(init, crop, t);
      Sequences.SplitLast(list);
      WithinCropSnoc(init, x, crop);
    }
  }

  lemma PolygonsConcat(a: seq<VisionText>, b: seq<VisionText>)
    requires HavePolygons(a) && HavePolygons(b)
    ensures HavePolygons(a + b)
  {
    forall k | 0 <= k < |a + b| ensures (a + b)[k].vertices != [] {
      if k < |a| { assert (a + b)[k] == a[k]; } else { assert (a + b)[k] == b[k - |a|]; }
    }
  }

  lemma PolygonsPrefix(list: seq<VisionText>, n: nat)
    requires HavePolygons(list) && n <= |list|
    ensures HavePolygons(list[..n])
  {
    forall k | 0 <= k < n ensures list[..n][k].vertices != [] {
      assert list[..n][k] == list[k];
    }
  }

  /** The spaces before ',', '.', '!' and '?' removed, in that order. */
  function Collapse(s: string): string {
    ReplaceAll(ReplaceAll(ReplaceAll(ReplaceAll(s, " ,", ","), " .", "."), " !", "!"), " ?", "?")
  }

  /** A sentence with no space before its punctuation is left as it is. */
  lemma CollapseKeepsCleanText(s: string)
    requires !Contains(s, " ,") && !Contains(s, " .") && !Contains(s, " !") && !Contains(s, " ?")
    ensures Collapse(s) == s
  {
    ReplaceAllAbsent(s, " ,", ",");
    ReplaceAllAbsent(s, " .", ".");
    ReplaceAllAbsent(s, " !", "!");
    ReplaceAllAbsent(s, " ?", "?");
  }

  function Descriptions(ts: seq<VisionText>): (r: seq<string>)
    ensures |r| == |ts| && forall k :: 0 <= k < |ts| ==> r[k] == ts[k].description
  {
    seq(|ts|, k requires 0 <= k < |ts| => ts[k].description)
  }

  /** `sentenceFromCropPosition`: nothing without detected texts; otherwise
      the descriptions inside the crop joined by the join character,
      lowercased, with spaces before punctuation removed. */
  function SentenceFromCrop(tokens: Option<Tokens>, crop: Popup.Area, joinCharacter: string,
                            lower: string -> string): (r: Option<string>)
    requires tokens.Some? ==> HavePolygons(tokens.value.list)
    ensures r.None? <==> tokens.None?
    ensures r.Some? ==> r.value == Collapse(lower(Join(Descriptions(WithinCrop(tokens.value.list, crop)), joinCharacter)))
  {
    if tokens.None? then None
    else Some(Collapse(lower(Join(Descriptions(WithinCrop(tokens.value.list, crop)), joinCharacter))))
  }

  /** A text outside the crop contributes nothing, wherever it sits in the
      list, and the selection plays no part. */
  lemma SentenceIgnoresOutsideText(sel: seq<int>, sel2: seq<int>, a: seq<VisionText>, t: VisionText,
                                   b: seq<VisionText>, crop: Popup.Area, joinCharacter: string,
                                   lower: string -> string)
    requires HavePolygons(a) && HavePolygons(b) && t.vertices != []
    requires !Inside(GetPosition(t.vertices), crop)
    ensures HavePolygons(a + [t] + b) && HavePolygons(a + b)
    ensures SentenceFromCrop(Some(Tokens(sel, a + [t] + b)), crop, joinCharacter, lower)
         == SentenceFromCrop(Some(Tokens(sel2, a + b)), crop, joinCharacter, lower)
  {
    WithinCropOne(t, crop);
    WithinCropKeepsOrder(a, [t], crop);
    WithinCropKeepsOrder(a + [t], b, crop);
    WithinCropKeepsOrder(a, b, crop);
  }

  /** With every text inside the crop, the sentence is all the descriptions
      in list order. */
  lemma SentenceOfTextsInside(sel: seq<int>, list: seq<VisionText>, crop: Popup.Area,
                              joinCharacter: string, lower: string -> string)
    requires HavePolygons(list)
    requires forall k :: 0 <= k < |list| ==> Inside(GetPosition(list[k].vertices), crop)
    ensures SentenceFromCrop(Some(Tokens(sel, list)), crop, joinCharacter, lower)
         == Some(Collapse(lower(Join(Descriptions(list), joinCharacter))))
  {
    WithinCropKeepsAll(list, crop);
  }

  /** Two texts inside the crop are read first then second, with the join
      character between them. */
  lemma SentenceOfTwoTexts(sel: seq<int>, t1: VisionText, t2: VisionText, crop: Popup.Area,
                           joinCharacter: string, lower: string -> string)
    requires t1.vertices != [] && t2.vertices != []
    requires Inside(GetPosition(t1.vertices), crop) && Inside(GetPosition(t2.vertices), crop)
    ensures HavePolygons([t1, t2])
    ensures SentenceFromCrop(Some(Tokens(sel, [t1, t2])), crop, joinCharacter, lower)
         == Some(Collapse(lower(t1.description + joinCharacter + t2.description)))
  {
    var list := [t1, t2];
    assert HavePolygons(list) by {
      forall k | 0 <= k < 2 ensures list[k].vertices != [] { }
    }
    SentenceOfTextsInside(sel, list, crop, joinCharacter, lower);
    TwoDescriptions(t1, t2, joinCharacter);
  }

  lemma TwoDescriptions(t1: VisionText, t2: VisionText, joinCharacter: string)
    ensures Join(Descriptions([t1, t2]), joinCharacter) == t1.description + joinCharacter + t2.description
  {
    var d := Descriptions([t1, t2]);
    assert d == [t1.description, t2.description];
    assert d[1..] == [t2.description];
  }

  // ---- the exported card -------------------------------------------------

  /** `{sentence, ...meta}`: the computed sentence, unless the editor's meta
      has a sentence of its own, and every key of the editor's meta. */
  function MergeMeta(sentence: Option<string>, meta: map<string, string>): (r: map<string, Option<string>>)
    ensures r.Keys == meta.Keys + {"sentence"}
    ensures forall k :: k in meta ==> r[k] == Some(meta[k])
    ensures "sentence" !in meta ==> r["sentence"] == sentence
  {
    map["sentence" := sentence] + map k | k in meta :: Some(meta[k])
  }

  class Reader {
    var book: Option<Book>
    var page: int
    var tokens: Option<Tokens>
    var viewMode: ViewMode
    var cardData: Option<CardData>
    var cropPosition: Popup.Area
    const sentenceJoinCharacter: string
    /** The locale's lowercasing (`toLocaleLowerCase`). */
    const lower: string -> string

    /** No book, the first page, nothing detected, no card in preparation
        and an empty crop. */
    constructor(sentenceJoinCharacter: string, lower: string -> string)
      ensures book == None && page == 0 && tokens == None && viewMode == Default
      ensures cardData == None && cropPosition == Popup.Area(0, 0, 0, 0)
      ensures this.sentenceJoinCharacter == sentenceJoinCharacter && this.lower == lower
    {
      book := None;
      page := 0;
      tokens := None;
      viewMode := Default;
      cardData := None;
      cropPosition := Popup.Area(0, 0, 0, 0);
      this.sentenceJoinCharacter := sentenceJoinCharacter;
      this.lower := lower;
    }

    /** The book importer hands over a book; the page is not reset. */
    method SetBook(b: Book)
      modifies this
      ensures book == Some(b)
      ensures page == old(page) && tokens == old(tokens) && viewMode == old(viewMode)
      ensures cardData == old(cardData) && cropPosition == old(cropPosition)
    {
      book := Some(b);
    }

    /** `setPageSafely`, followed by the effect that forgets the detected
        texts whenever the page changes. */
    method SetPageSafely(n: int)
      modifies this
      ensures book == old(book) && viewMode == old(viewMode)
      ensures cardData == old(cardData) && cropPosition == old(cropPosition)
      ensures old(book).None? ==> page == old(page) && tokens == old(tokens)
      ensures old(book).Some? ==> page == SafePage(|old(book).value.pages|, n)
      ensures old(book).Some? ==> tokens == if page != old(page) then None else old(tokens)
    {
      if book.None? {
        return;
      }
      var len := |book.value.pages|;
      var newPage: int;
      if len <= n {
        newPage := len - 1;
      } else if 0 > n {
        newPage := 0;
      } else {
        newPage := n;
      }
      if newPage != page {
        page := newPage;
        tokens := None;
      }
    }

    method OnNextPage()
      modifies this
      ensures book == old(book) && viewMode == old(viewMode)
      ensures cardData == old(cardData) && cropPosition == old(cropPosition)
      ensures old(book).None? ==> page == old(page) && tokens == old(tokens)
      ensures old(book).Some? ==> page == SafePage(|old(book).value.pages|, old(page) + 1)
      ensures old(book).Some? ==> tokens == if page != old(page) then None else old(tokens)
    {
      SetPageSafely(page + 1);
    }

    method OnPrevPage()
      modifies this
      ensures book == old(book) && viewMode == old(viewMode)
      ensures cardData == old(cardData) && cropPosition == old(cropPosition)
      ensures old(book).None? ==> page == old(page) && tokens == old(tokens)
      ensures old(book).Some? ==> page == SafePage(|old(book).value.pages|, old(page) - 1)
      ensures old(book).Some? ==> tokens == if page != old(page) then None else old(tokens)
    {
      SetPageSafely(page - 1);
    }

    /** `loadOCR`: the texts detected on the current page, without the first
        entry (the whole page's text), and nothing selected. */
    method LoadOcr(detected: seq<VisionText>)
      modifies this
      ensures book == old(book) && page == old(page) && viewMode == old(viewMode)
      ensures cardData == old(cardData) && cropPosition == old(cropPosition)
      ensures old(book).None? ==> tokens == old(tokens)
      ensures old(book).Some? ==> tokens == Some(Tokens([], if detected == [] then [] else detected[1..]))
    {
      if book.None? {
        return;
      }
      var list := if detected == [] then [] else detected[1..];
      tokens := Some(Tokens([], list));
    }

    /** `selectIndex`: no index clears the selection; an index joins it. The
        detected texts are kept either way. */
    method SelectIndex(i: Option<int>)
      modifies this
      ensures book == old(book) && page == old(page) && viewMode == old(viewMode)
      ensures cardData == old(cardData) && cropPosition == old(cropPosition)
      ensures old(tokens).None? ==> tokens == None
      ensures old(tokens).Some? && i.None? ==> tokens == Some(Tokens([], old(tokens).value.list))
      ensures old(tokens).Some? && i.Some? ==> tokens == Some(WithSelected(old(tokens).value, i.value))
    {
      if tokens.None? {
        return;
      }
      if i.None? {
        tokens := Some(Tokens([], tokens.value.list));
        return;
      }
      var selected := tokens.value.selectedIndices;
      if i.value !in selected {
        selected := selected + [i.value];
      }
      tokens := Some(Tokens(selected, tokens.value.list));
    }

    /** `initCardCreationFlow`: keep what the editor handed over, start the
        crop at the proposed area and switch to cropping. */
    method InitCardCreationFlow(sourceText: string, meta: map<string, string>, initialCropArea: Popup.Area)
      modifies this
      ensures cardData == Some(CardData(sourceText, meta)) && cropPosition == initialCropArea
      ensures viewMode == Crop
      ensures book == old(book) && page == old(page) && tokens == old(tokens)
    {
      cardData := Some(CardData(sourceText, meta));
      cropPosition := initialCropArea;
      viewMode := Crop;
    }

    /** `exportCard`, given the cropped panel's image data (drawing it is
        canvas work) and whether the page image is mounted: nothing happens
        without the image or without card data; otherwise the view returns
        to default, the selection is cleared, and the card is the editor's
        source text with the sentence under the crop merged into its meta. */
    method ExportCard(panel: string, imageMounted: bool) returns (card: Option<CardRequest>)
      requires tokens.Some? ==> HavePolygons(tokens.value.list)
      modifies this
      ensures book == old(book) && page == old(page) && cardData == old(cardData)
      ensures cropPosition == old(cropPosition)
      ensures !imageMounted || old(cardData).None? ==> card == None && tokens == old(tokens) && viewMode == old(viewMode)
      ensures imageMounted && old(cardData).Some? ==>
        viewMode == Default &&
        tokens == (if old(tokens).None? then None else Some(Tokens([], old(tokens).value.list))) &&
        card == Some(CardRequest(old(cardData).value.sourceText, panel,
          MergeMeta(SentenceFromCrop(old(tokens), cropPosition, sentenceJoinCharacter, lower), old(cardData).value.meta)))
    {
      if !imageMounted || cardData.None? {
        return None;
      }
      var sentence := SentenceFromCrop(tokens, cropPosition, sentenceJoinCharacter, lower);
      viewMode := Default;
      SelectIndex(None);
      card := Some(CardRequest(cardData.value.sourceText, panel, MergeMeta(sentence, cardData.value.meta)));
    }
  }
}
