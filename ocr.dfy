/** The flattening of an OCR result (pages of blocks of paragraphs of words
    of symbols) into the words the readers display and the plain text sent
    to the text analyser; also the string hash that names a bounding box.
    The Chinese reader and the manga reader carry the same code. */
module Ocr {
  import opened Strings

  datatype Vertex = Vertex(x: int, y: int)
  datatype BoundingBox = BoundingBox(vertices: seq<Vertex>)

  datatype Symbol = Symbol(box: BoundingBox, text: string)
  datatype OcrWord = OcrWord(box: BoundingBox, symbols: seq<Symbol>)
  datatype Paragraph = Paragraph(box: BoundingBox, words: seq<OcrWord>)
  datatype Block = Block(box: BoundingBox, blockType: int, paragraphs: seq<Paragraph>)
  datatype Page = Page(blocks: seq<Block>)
  datatype OcrResult = OcrResult(text: string, pages: seq<Page>)

  /** A word as the readers show it: its text, its box and a string id. */
  datatype Word = Word(id: string, text: string, box: BoundingBox)
  datatype Sentence = Sentence(words: seq<Word>)

  // ---- bounding-box hash -------------------------------------------------

  /** Each vertex's x and y, rendered in decimal, in vertex order. */
  function Coordinates(vs: seq<Vertex>): (r: seq<string>)
    ensures |r| == 2 * |vs|
  {
    if vs == [] then []
    else [IntToString(vs[0].x), IntToString(vs[0].y)] + Coordinates(vs[1..])
  }

  /** `getBoundingBoxHash`: "block" followed by every coordinate, joined by '_'. */
  function BoundingBoxHash(box: BoundingBox): string {
    Join(["block"] + Coordinates(box.vertices), "_")
  }

  lemma {:induction false} CoordinatesInjective(a: seq<Vertex>, b: seq<Vertex>)
    requires Coordinates(a) == Coordinates(b)
    ensures a == b
    decreases |a|
  {
    if a != [] {
      var ca := Coordinates(a);
      assert ca[0] == IntToString(a[0].x) && ca[0] == IntToString(b[0].x);
      assert ca[1] == IntToString(a[0].y) && ca[1] == IntToString(b[0].y);
      IntToStringInjective(a[0].x, b[0].x);
      IntToStringInjective(a[0].y, b[0].y);
      assert Coordinates(a[1..]) == ca[2..] == Coordinates(b[1..]);
      CoordinatesInjective(a[1..], b[1..]);
    }
  }

  /** The pieces of a hash: "block" and the coordinates, none holding '_'. */
  lemma HashPieces(box: BoundingBox)
    ensures Split(BoundingBoxHash(box), "_") == ["block"] + Coordinates(box.vertices)
  {
    var cs := Coordinates(box.vertices);
    var parts := ["block"] + cs;
    forall k | 0 <= k < |parts|
      ensures '_' !in parts[k]
    {
      if k > 0 {
        assert parts[k] == cs[k - 1];
        CoordinateHasNoChar(box.vertices, k - 1, '_');
      }
    }
    SplitJoinChar(parts, '_');
  }

  /** No coordinate holds a character other than '-' and the digits. */
  lemma CoordinateHasNoChar(vs: seq<Vertex>, k: nat, c: char)
    requires k < 2 * |vs| && c != '-' && !IsDigit(c)
    ensures c !in Coordinates(vs)[k]
  {
    var i := k / 2;
    CoordinateAt(vs, i);
    IntToStringNoChar(vs[i].x, c);
    IntToStringNoChar(vs[i].y, c);
    assert k == 2 * i || k == 2 * i + 1;
  }

  /** Vertex `i` gives coordinates `2 * i` (its x) and `2 * i + 1` (its y). */
  lemma {:induction false} CoordinateAt(vs: seq<Vertex>, i: nat)
    requires i < |vs|
    ensures Coordinates(vs)[2 * i] == IntToString(vs[i].x)
    ensures Coordinates(vs)[2 * i + 1] == IntToString(vs[i].y)
    decreases i
  {
    if i > 0 {
      CoordinateAt(vs[1..], i - 1);
      assert vs[1..][i - 1] == vs[i];
    }
  }

  /** Boxes with different vertex lists have different hashes. */
  lemma HashInjective(a: BoundingBox, b: BoundingBox)
    requires BoundingBoxHash(a) == BoundingBoxHash(b)
    ensures a == b
  {
    HashPieces(a);
    HashPieces(b);
    var ca := ["block"] + Coordinates(a.vertices);
    var cb := ["block"] + Coordinates(b.vertices);
    assert ca == cb;
    assert Coordinates(a.vertices) == ca[1..] == cb[1..] == Coordinates(b.vertices);
    CoordinatesInjective(a.vertices, b.vertices);
  }

  // ---- words and sentences -----------------------------------------------

  /** The texts of a word's symbols, in order. */
  function SymbolTexts(w: OcrWord): (r: seq<string>)
    ensures |r| == |w.symbols|
    ensures forall k :: 0 <= k < |r| ==> r[k] == w.symbols[k].text
  {
    seq(|w.symbols|, k requires 0 <= k < |w.symbols| => w.symbols[k].text)
  }

  /** The word built for an OCR word: its symbols' texts concatenated, and
      the id "word_" + text + "_" + hash of its box. */
  function WordOf(w: OcrWord): Word {
    var text := Concat(SymbolTexts(w));
    Word("word_" + text + "_" + BoundingBoxHash(w.box), text, w.box)
  }

  /** Two words with the same text share an id only when they share a box. */
  lemma WordIdsTellBoxesApart(v: OcrWord, w: OcrWord)
    requires WordOf(v).text == WordOf(w).text
    requires WordOf(v).id == WordOf(w).id
    ensures v.box == w.box
  {
    var prefix := "word_" + WordOf(v).text + "_";
    assert WordOf(v).id == prefix + BoundingBoxHash(v.box);
    assert WordOf(w).id == prefix + BoundingBoxHash(w.box);
    assert BoundingBoxHash(v.box) == WordOf(v).id[|prefix|..] == BoundingBoxHash(w.box);
    HashInjective(v.box, w.box);
  }

  /** The sentence of a paragraph: one word per OCR word, in order. */
  function SentenceOf(p: Paragraph): (r: Sentence)
    ensures |r.words| == |p.words|
    ensures forall k :: 0 <= k < |p.words| ==> r.words[k] == WordOf(p.words[k])
  {
    Sentence(seq(|p.words|, k requires 0 <= k < |p.words| => WordOf(p.words[k])))
  }

  /** One sentence per paragraph, in paragraph order. */
  function Sentences(ps: seq<Paragraph>): (r: seq<Sentence>)
    ensures |r| == |ps|
    ensures forall k :: 0 <= k < |ps| ==> r[k] == SentenceOf(ps[k])
  {
    seq(|ps|, k requires 0 <= k < |ps| => SentenceOf(ps[k]))
  }

  /** `getTextForParagraph`: the loop over words with an inner loop over
      their symbols. */
  method GetTextForParagraph(p: Paragraph) returns (s: Sentence)
    ensures s == SentenceOf(p)
  {
    var words: seq<Word> := [];
    for i := 0 to |p.words|
      invariant |words| == i
      invariant forall k :: 0 <= k < i ==> words[k] == WordOf(p.words[k])
    {
      var word := p.words[i];
      var w: seq<string> := [];
      for j := 0 to |word.symbols|
        invariant w == SymbolTexts(word)[..j]
      {
        w := w + [word.symbols[j].text];
      }
      assert w == SymbolTexts(word);
      JoinEmptyIsConcat(w);
      var text := Join(w, "");
      words := words + [Word("word_" + text + "_" + BoundingBoxHash(word.box), text, word.box)];
    }
    s := Sentence(words);
  }

  /** `getTextForBlock`: one sentence per paragraph, in order. */
  method GetTextForBlock(b: Block) returns (sentences: seq<Sentence>)
    ensures sentences == Sentences(b.paragraphs)
  {
    sentences := [];
    for i := 0 to |b.paragraphs|
      invariant sentences == Sentences(b.paragraphs)[..i]
    {
      var s := GetTextForParagraph(b.paragraphs[i]);
      sentences := sentences + [s];
    }
  }

  // ---- raw text --------------------------------------------------------

  /** The texts of the words, in order. */
  function Texts(ws: seq<Word>): (r: seq<string>)
    ensures |r| == |ws| && forall k :: 0 <= k < |ws| ==> r[k] == ws[k].text
  {
    seq(|ws|, k requires 0 <= k < |ws| => ws[k].text)
  }

  lemma TextsSnoc(ws: seq<Word>, j: nat)
    requires j < |ws|
    ensures Texts(ws[..j + 1]) == Texts(ws[..j]) + [ws[j].text]
  {
  }

  /** The texts of every word of the sentences, sentence by sentence. */
  function WordTexts(ss: seq<Sentence>): seq<string> {
    if ss == [] then [] else WordTexts(ss[..|ss| - 1]) + Texts(ss[|ss| - 1].words)
  }

  /** The text of a block: its word texts with no separator. */
  function RawText(b: Block): string {
    Concat(WordTexts(Sentences(b.paragraphs)))
  }

  /** `getRawTextForBlock`: pushes every word's text, sentence by sentence,
      and joins them with the empty string. */
  method GetRawTextForBlock(b: Block) returns (text: string)
    ensures text == RawText(b)
  {
    var sentences := GetTextForBlock(b);
    var res: seq<string> := [];
    for i := 0 to |sentences|
      invariant res == WordTexts(sentences[..i])
    {
      var words := sentences[i].words;
      ghost var before := res;
      for j := 0 to |words|
        invariant res == before + Texts(words[..j])
      {
        TextsSnoc(words, j);
        res := res + [words[j].text];
      }
      assert words[..|words|] == words;
      WordTextsStep(sentences, i);
    }
    assert sentences[..|sentences|] == sentences;
    JoinEmptyIsConcat(res);
    text := Join(res, "");
  }

  lemma WordTextsStep(ss: seq<Sentence>, i: nat)
    requires i < |ss|
    ensures WordTexts(ss[..i + 1]) == WordTexts(ss[..i]) + Texts(ss[i].words)
  {
    assert ss[..i + 1][..i] == ss[..i];
  }

  lemma {:induction false} ConcatAppend(a: seq<string>, b: seq<string>)
    ensures Concat(a + b) == Concat(a) + Concat(b)
    decreases |a|
  {
    if a != [] {
      assert (a + b)[1..] == a[1..] + b;
      ConcatAppend(a[1..], b);
    } else {
      assert a + b == b;
    }
  }

  /** The text of a paragraph: its words' texts with no separator. */
  function ParagraphText(p: Paragraph): string {
    Concat(seq(|p.words|, k requires 0 <= k < |p.words| => WordOf(p.words[k]).text))
  }

  /** The text of paragraphs, one after the other. */
  function ParagraphsText(ps: seq<Paragraph>): string {
    if ps == [] then "" else ParagraphsText(ps[..|ps| - 1]) + ParagraphText(ps[|ps| - 1])
  }

  /** A block's raw text is its paragraphs' texts in paragraph order, each
      one the concatenation of its words' symbol texts. */
  lemma {:induction false} RawTextIsParagraphTexts(ps: seq<Paragraph>)
    ensures Concat(WordTexts(Sentences(ps))) == ParagraphsText(ps)
    decreases |ps|
  {
    if ps != [] {
      var n := |ps| - 1;
      var ss := Sentences(ps);
      assert ss[..n] == Sentences(ps[..n]);
      RawTextIsParagraphTexts(ps[..n]);
      var last := ss[n];
      var texts := Texts(last.words);
      ConcatAppend(WordTexts(ss[..n]), texts);
      assert texts == seq(|ps[n].words|, k requires 0 <= k < |ps[n].words| => WordOf(ps[n].words[k]).text);
    }
  }

  // ---- the analysed text -------------------------------------------------

  /** The raw texts of a page's blocks, in block order. */
  function BlockTexts(p: Page): (r: seq<string>)
    ensures |r| == |p.blocks|
  {
    seq(|p.blocks|, k requires 0 <= k < |p.blocks| => RawText(p.blocks[k]))
  }

  /** `parseOcrForTextAnalyse`: block texts joined by newlines within a page,
      and the pages joined by newlines. */
  function ParseOcrForTextAnalyse(ocr: OcrResult): string {
    Join(PageTexts(ocr.pages), "\n")
  }

  /** Each page's block texts joined by newlines. */
  function PageTexts(ps: seq<Page>): (r: seq<string>)
    ensures |r| == |ps|
    ensures forall k :: 0 <= k < |ps| ==> r[k] == Join(BlockTexts(ps[k]), "\n")
  {
    seq(|ps|, k requires 0 <= k < |ps| => Join(BlockTexts(ps[k]), "\n"))
  }

  /** The block texts of each page, page by page. */
  function PageBlockTexts(ps: seq<Page>): (r: seq<seq<string>>)
    ensures |r| == |ps| && forall k :: 0 <= k < |ps| ==> r[k] == BlockTexts(ps[k])
  {
    seq(|ps|, k requires 0 <= k < |ps| => BlockTexts(ps[k]))
  }

  /** Every block text of the pages, page by page. */
  function AllBlockTexts(ps: seq<Page>): seq<string> {
    Flatten(PageBlockTexts(ps))
  }

  /** The groups one after another. */
  function Flatten(gs: seq<seq<string>>): seq<string> {
    if gs == [] then [] else Flatten(gs[..|gs| - 1]) + gs[|gs| - 1]
  }

  function JoinEach(gs: seq<seq<string>>, sep: string): (r: seq<string>)
    ensures |r| == |gs| && forall k :: 0 <= k < |gs| ==> r[k] == Join(gs[k], sep)
  {
    seq(|gs|, k requires 0 <= k < |gs| => Join(gs[k], sep))
  }

  /** Joining non-empty groups and then joining the results is joining all
      their pieces. */
  lemma {:induction false} JoinGroups(gs: seq<seq<string>>, sep: string)
    requires forall k :: 0 <= k < |gs| ==> gs[k] != []
    ensures Join(JoinEach(gs, sep), sep) == Join(Flatten(gs), sep)
    ensures gs != [] ==> Flatten(gs) != []
    decreases |gs|
  {
    if gs != [] {
      var n := |gs| - 1;
      var init := gs[..n];
      forall k | 0 <= k < |init| ensures init[k] != [] {
        assert init[k] == gs[k];
      }
      JoinGroups(init, sep);
      var front, last := JoinEach(init, sep), Join(gs[n], sep);
      assert JoinEach(gs, sep) == front + [last];
      if n > 0 {
        JoinAppend(front, [last], sep);
        JoinAppend(Flatten(init), gs[n], sep);
      } else {
        assert Flatten(gs) == gs[n];
      }
    }
  }

  lemma JoinPages(ps: seq<Page>)
    requires forall k :: 0 <= k < |ps| ==> ps[k].blocks != []
    ensures Join(PageTexts(ps), "\n") == Join(AllBlockTexts(ps), "\n")
    ensures ps != [] ==> AllBlockTexts(ps) != []
  {
    var gs := PageBlockTexts(ps);
    assert PageTexts(ps) == JoinEach(gs, "\n");
    JoinGroups(gs, "\n");
  }

  /** When every page has a block and no block text holds a newline, the
      lines of the analysed text are the block texts, page by page. */
  lemma AnalysedLinesAreBlockTexts(ocr: OcrResult)
    requires ocr.pages != []
    requires forall k :: 0 <= k < |ocr.pages| ==> ocr.pages[k].blocks != []
    requires forall k :: 0 <= k < |AllBlockTexts(ocr.pages)| ==> '\n' !in AllBlockTexts(ocr.pages)[k]
    ensures Split(ParseOcrForTextAnalyse(ocr), "\n") == AllBlockTexts(ocr.pages)
  {
    JoinPages(ocr.pages);
    assert "\n" == ['\n'];
    SplitJoinChar(AllBlockTexts(ocr.pages), '\n');
  }

  // ---- all words -------------------------------------------------------

  /** The words of the sentences, sentence by sentence (`flat`). */
  function SentencesWords(ss: seq<Sentence>): seq<Word> {
    if ss == [] then [] else SentencesWords(ss[..|ss| - 1]) + ss[|ss| - 1].words
  }

  /** The words of the blocks, block by block. */
  function BlocksWords(bs: seq<Block>): seq<Word> {
    if bs == [] then [] else BlocksWords(bs[..|bs| - 1]) + SentencesWords(Sentences(bs[|bs| - 1].paragraphs))
  }

  /** The words of the pages: page, then block, then paragraph, then word order. */
  function PagesWords(ps: seq<Page>): seq<Word> {
    if ps == [] then [] else PagesWords(ps[..|ps| - 1]) + BlocksWords(ps[|ps| - 1].blocks)
  }

  lemma BlocksWordsStep(bs: seq<Block>, j: nat)
    requires j < |bs|
    ensures BlocksWords(bs[..j + 1]) == BlocksWords(bs[..j]) + SentencesWords(Sentences(bs[j].paragraphs))
  {
    assert bs[..j + 1][..j] == bs[..j];
  }

  lemma PagesWordsStep(ps: seq<Page>, i: nat)
    requires i < |ps|
    ensures PagesWords(ps[..i + 1]) == PagesWords(ps[..i]) + BlocksWords(ps[i].blocks)
  {
    assert ps[..i + 1][..i] == ps[..i];
  }

  /** `getWordsFromOcrResult`. Every word object is built afresh, so the
      `Set` by identity removes nothing and the list is returned as pushed. */
  method GetWordsFromOcrResult(ocr: OcrResult) returns (res: seq<Word>)
    ensures res == PagesWords(ocr.pages)
  {
    res := [];
    for i := 0 to |ocr.pages|
      invariant res == PagesWords(ocr.pages[..i])
    {
      var words := GetWordsFromBlocks(ocr.pages[i].blocks);
      PagesWordsStep(ocr.pages, i);
      res := res + words;
    }
    assert ocr.pages[..|ocr.pages|] == ocr.pages;
  }

  /** The inner loop of `getWordsFromOcrResult`: the words of one page's
      blocks, block by block. */
  method GetWordsFromBlocks(blocks: seq<Block>) returns (res: seq<Word>)
    ensures res == BlocksWords(blocks)
  {
    res := [];
    for j := 0 to |blocks|
      invariant res == BlocksWords(blocks[..j])
    {
      var sentences := GetTextForBlock(blocks[j]);
      BlocksWordsStep(blocks, j);
      res := res + SentencesWords(sentences);
    }
    assert blocks[..|blocks|] == blocks;
  }

  // ---- counting ----------------------------------------------------------

  function ParagraphsWordCount(ps: seq<Paragraph>): nat {
    if ps == [] then 0 else ParagraphsWordCount(ps[..|ps| - 1]) + |ps[|ps| - 1].words|
  }

  function BlocksWordCount(bs: seq<Block>): nat {
    if bs == [] then 0 else BlocksWordCount(bs[..|bs| - 1]) + ParagraphsWordCount(bs[|bs| - 1].paragraphs)
  }

  /** The number of OCR words on the pages. */
  function WordCount(ps: seq<Page>): nat {
    if ps == [] then 0 else WordCount(ps[..|ps| - 1]) + BlocksWordCount(ps[|ps| - 1].blocks)
  }

  lemma {:induction false} SentencesWordsCount(ps: seq<Paragraph>)
    ensures |SentencesWords(Sentences(ps))| == ParagraphsWordCount(ps)
    decreases |ps|
  {
    if ps != [] {
      var n := |ps| - 1;
      assert Sentences(ps)[..n] == Sentences(ps[..n]);
      SentencesWordsCount(ps[..n]);
    }
  }

  lemma {:induction false} BlocksWordsCount(bs: seq<Block>)
    ensures |BlocksWords(bs)| == BlocksWordCount(bs)
    decreases |bs|
  {
    if bs != [] {
      BlocksWordsCount(bs[..|bs| - 1]);
      SentencesWordsCount(bs[|bs| - 1].paragraphs);
    }
  }

  /** Nothing is dropped: one word per OCR word of the whole result. */
  lemma {:induction false} AllWordsKept(ps: seq<Page>)
    ensures |PagesWords(ps)| == WordCount(ps)
    decreases |ps|
  {
    if ps != [] {
      AllWordsKept(ps[..|ps| - 1]);
      BlocksWordsCount(ps[|ps| - 1].blocks);
    }
  }
}
