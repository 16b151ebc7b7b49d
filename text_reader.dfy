/** The Chinese text reader: a cursor over the analysed lines of a text, the
    count of characters read, the caption under the text and the rule that
    decides when the cursor position is saved. */
module TextReader {
  import opened Wrappers
  import opened Strings
  import Handlers
  import Texts

  datatype Token = Token(hanziTraditional: string, hanziSimplified: string, start: int, end: int)
  datatype Line = Line(simplified: string, traditional: string, tokens: seq<Token>)

  /** A stored text; `lastPosition` is the saved cursor, if any. */
  datatype Text = Text(id: Option<int>, title: Option<string>, content: string, lastPosition: Option<int>)

  /** Where the cursor starts: the saved position, or the first line. */
  function StartIndex(text: Text): int {
    text.lastPosition.GetOr(0)
  }

  /** The body of a 200 fetch as the reader receives it. `id` and `title`
      are always sent; `last_position` is tagged `omitempty`, so a stored 0
      arrives as undefined. (`content` is tagged so too, but creating a
      text rejects an empty content.) */
  function Received(t: Texts.Text): (r: Text)
    ensures r.id == Some(t.id) && r.title == Some(t.title) && r.content == t.content
    ensures r.lastPosition.None? <==> t.lastPosition == 0
    ensures r.lastPosition.Some? ==> r.lastPosition.value == t.lastPosition
  {
    Text(Some(t.id), Some(t.title), t.content,
      if t.lastPosition == 0 then None else Some(t.lastPosition))
  }

  /** A fetched text is read from the position stored in its row. */
  lemma ResumesAtFetchedPosition(id: string, row: Texts.TextRow)
    requires Handlers.ParseId(id).Some?
    ensures var f := Texts.GetText(id, Some(row));
      f.body.Some? && StartIndex(Received(f.body.value)) == row.lastPosition
  {
  }

  /** Saving a position and fetching the text again resumes at that
      position narrowed to an int32, which is the position itself whenever
      it fits. */
  lemma ResumesAtStoredPosition(n: int, p: Handlers.Int64, row: Texts.TextRow)
    requires Handlers.MinInt64 <= n <= Handlers.MaxInt64
    requires var o := Texts.UpdateReadingPosition(IntToString(n), Some(Texts.UpdateReadingPositionRequest(p)), true);
      o.query.Some? && o.query.value.StorePosition? && row.lastPosition == o.query.value.lastPosition
    ensures var f := Texts.GetText(IntToString(n), Some(row));
      f.body.Some? && StartIndex(Received(f.body.value)) == Handlers.Int32(p) &&
      (Handlers.MinInt32 <= p <= Handlers.MaxInt32 ==> StartIndex(Received(f.body.value)) == p)
  {
    Handlers.ParseIdOfIntToString(n);
    if Handlers.MinInt32 <= p <= Handlers.MaxInt32 {
      Handlers.Int32KeepsSmallValues(p);
    }
  }

  /** The persistence effect's guard: the text has a (truthy, so non-zero)
      id and the cursor is past the position the text was loaded with. */
  predicate ShouldPersist(text: Text, lineIndex: int) {
    text.id.Some? && text.id.value != 0 && lineIndex > StartIndex(text)
  }

  // ---- cursor moves ------------------------------------------------------

  /** `onNextSentence`: forward one line while lines are loaded and the
      cursor is before their end, so it can reach the summary position
      `|lines|`. */
  function NextIndex(analyse: Option<seq<Line>>, i: int): (r: int)
    ensures analyse.Some? && 0 <= i <= |analyse.value| ==> 0 <= r <= |analyse.value|
    ensures analyse.Some? && i == |analyse.value| ==> r == i
    ensures r == i || r == i + 1
  {
    if analyse.Some? && i < |analyse.value| then i + 1 else i
  }

  /** `onPrevSentence`: back one line unless at the first. */
  function PrevIndex(i: int): (r: int)
    ensures i >= 0 ==> r >= 0
    ensures i >= 1 ==> r == i - 1
    ensures i < 1 ==> r == i
  {
    if i >= 1 then i - 1 else i
  }

  /** Skip-to-line, given what `parseInt` made of the reply (None for NaN):
      line numbers count from 1, and anything outside the text is ignored. */
  function SkipIndex(lineCount: nat, i: int, parsed: Option<int>): (r: int)
    ensures r == i || 0 <= r < lineCount
    ensures parsed.Some? && 1 <= parsed.value <= lineCount ==> r == parsed.value - 1
    ensures parsed.None? ==> r == i
  {
    match parsed
    case None => i
    case Some(v) => if v - 1 >= 0 && v - 1 < lineCount then v - 1 else i
  }

  /** Moving forward and back again returns to the same line. */
  lemma NextThenPrev(analyse: seq<Line>, i: int)
    requires 0 <= i < |analyse|
    ensures PrevIndex(NextIndex(Some(analyse), i)) == i
  {
  }

  // ---- characters read and the caption -----------------------------------

  /** Where `slice(0, end)` stops in a list of `len`: a negative end counts
      from the back. */
  function SliceEnd(len: nat, end: int): (r: nat)
    ensures r <= len
    ensures 0 <= end <= len ==> r == end
    ensures end > len ==> r == len
    ensures end < 0 && -end <= len ==> r == len + end
  {
    if end < 0 then (if len + end >= 0 then len + end else 0)
    else if end <= len then end
    else len
  }

  function SumTraditional(lines: seq<Line>): nat {
    if lines == [] then 0 else SumTraditional(lines[..|lines| - 1]) + |lines[|lines| - 1].traditional|
  }

  /** `charCount`: the characters of the traditional text of every line
      before the cursor. */
  function CharCount(lines: seq<Line>, lineIndex: int): nat {
    SumTraditional(lines[..SliceEnd(|lines|, lineIndex)])
  }

  /** Stepping forward over a line adds that line's characters. */
  lemma CharCountStep(lines: seq<Line>, i: nat)
    requires i < |lines|
    ensures CharCount(lines, i + 1) == CharCount(lines, i) + |lines[i].traditional|
  {
    assert lines[..i + 1][..i] == lines[..i];
  }

  /** Characters read never go down as the cursor moves forward. */
  lemma {:induction false} CharCountMonotonic(lines: seq<Line>, i: nat, j: nat)
    requires i <= j <= |lines|
    ensures CharCount(lines, i) <= CharCount(lines, j)
    decreases j - i
  {
    if i < j {
      CharCountStep(lines, j - 1);
      CharCountMonotonic(lines, i, j - 1);
    }
  }

  /** At the summary position every character has been read. */
  lemma CharCountAtSummary(lines: seq<Line>)
    ensures CharCount(lines, |lines|) == SumTraditional(lines)
  {
    assert lines[..|lines|] == lines;
  }

  /** The caption: "Summary" past the last line, otherwise the 1-based
      line number out of the number of lines. */
  function Caption(lineCount: nat, lineIndex: int): (r: string)
    ensures r == "Summary" <==> lineIndex == lineCount
  {
    if lineIndex == lineCount then "Summary"
    else
      var r := IntToString(lineIndex + 1) + " / " + IntToString(lineCount);
      NegativeStartsWithMinus(lineIndex + 1);
      assert r[0] == IntToString(lineIndex + 1)[0];
      assert r[0] == '-' || IsDigit(r[0]) by {
        if lineIndex + 1 >= 0 {
          assert IsDigit(NatToString(lineIndex + 1)[0]);
        }
      }
      assert r[0] != "Summary"[0];
      r
  }

  // ---- the persistence rule ------------------------------------------------

  /** The guard compares with the position the text was loaded with, not
      with the last position saved, so a later save can store a smaller
      position than an earlier one: loaded at 3, moving forward to 6 saves
      6, and moving back to 5 saves 5. */
  lemma SavedPositionCanMoveBack(lines: seq<Line>)
    requires |lines| >= 7
    ensures var text := Text(Some(1), None, "", Some(3));
      NextIndex(Some(lines), 5) == 6 && ShouldPersist(text, 6) &&
      PrevIndex(6) == 5 && ShouldPersist(text, 5)
  {
  }

  /** A text without an id, or with id 0, never has its position saved. */
  lemma UnsavedWithoutId(text: Text, i: int)
    requires text.id.None? || text.id == Some(0)
    ensures !ShouldPersist(text, i)
  {
  }

  class Reader {
    const text: Text
    /** The analysed lines, once the analyser has answered. */
    var analyse: Option<seq<Line>>
    var lineIndex: int
    var focusWord: Option<Token>
    /** The positions sent to the store, in order. */
    var saved: seq<int>

    /** Every saved position was saved for a text with an id and lies past
        the position the text was loaded with. */
    predicate Valid()
      reads this
    {
      (saved != [] ==> text.id.Some? && text.id.value != 0) &&
      forall k :: 0 <= k < |saved| ==> saved[k] > StartIndex(text)
    }

    /** The cursor is on a line or at the summary position. */
    predicate InRange()
      reads this
    {
      analyse.Some? && 0 <= lineIndex <= |analyse.value|
    }

    constructor(text: Text)
      ensures this.text == text && analyse == None && focusWord == None && saved == []
      ensures lineIndex == StartIndex(text)
      ensures Valid()
    {
      this.text := text;
      analyse := None;
      lineIndex := StartIndex(text);
      focusWord := None;
      saved := [];
    }

    /** The analyser's answer arrives. */
    method Analysed(lines: seq<Line>)
      modifies this
      ensures analyse == Some(lines)
      ensures lineIndex == old(lineIndex) && focusWord == old(focusWord) && saved == old(saved)
    {
      analyse := Some(lines);
    }

    /** A word of the current line is picked (or the pick is cleared). */
    method SetFocusWord(w: Option<Token>)
      modifies this
      ensures focusWord == w
      ensures analyse == old(analyse) && lineIndex == old(lineIndex) && saved == old(saved)
    {
      focusWord := w;
    }

    /** A new cursor position, then the persistence effect, which runs only
        when the position changed. */
    method MoveTo(i: int)
      requires Valid()
      modifies this
      ensures Valid()
      ensures lineIndex == i && analyse == old(analyse) && focusWord == old(focusWord)
      ensures saved == old(saved) + (if i != old(lineIndex) && ShouldPersist(text, i) then [i] else [])
    {
      if i != lineIndex {
        lineIndex := i;
        if text.id.Some? && text.id.value != 0 && i > text.lastPosition.GetOr(0) {
          saved := saved + [i];
        }
      }
    }

    method OnNextSentence()
      requires Valid()
      modifies this
      ensures Valid()
      ensures lineIndex == NextIndex(old(analyse), old(lineIndex)) && analyse == old(analyse)
      ensures focusWord == if lineIndex != old(lineIndex) then None else old(focusWord)
      ensures saved == old(saved) + (if lineIndex != old(lineIndex) && ShouldPersist(text, lineIndex) then [lineIndex] else [])
      ensures old(InRange()) ==> InRange()
    {
      if analyse.Some? && lineIndex < |analyse.value| {
        MoveTo(lineIndex + 1);
        focusWord := None;
      }
    }

    method OnPrevSentence()
      requires Valid()
      modifies this
      ensures Valid()
      ensures lineIndex == PrevIndex(old(lineIndex)) && analyse == old(analyse)
      ensures focusWord == if lineIndex != old(lineIndex) then None else old(focusWord)
      ensures saved == old(saved) + (if lineIndex != old(lineIndex) && ShouldPersist(text, lineIndex) then [lineIndex] else [])
      ensures old(InRange()) ==> InRange()
    {
      if lineIndex >= 1 {
        MoveTo(lineIndex - 1);
        focusWord := None;
      }
    }

    /** Skip-to-line; its control is shown only once the lines are in. */
    method SkipToLine(parsed: Option<int>)
      requires Valid() && analyse.Some?
      modifies this
      ensures Valid()
      ensures lineIndex == SkipIndex(|old(analyse).value|, old(lineIndex), parsed)
      ensures analyse == old(analyse) && focusWord == old(focusWord)
      ensures saved == old(saved) + (if lineIndex != old(lineIndex) && ShouldPersist(text, lineIndex) then [lineIndex] else [])
      ensures old(InRange()) ==> InRange()
    {
      if parsed.Some? {
        var p := parsed.value - 1;
        if p >= 0 && p < |analyse.value| {
          MoveTo(p);
        }
      }
    }

    /** The characters read so far. */
    function CharsRead(): (r: nat)
      reads this
      requires analyse.Some?
      ensures lineIndex == |analyse.value| ==> r == SumTraditional(analyse.value)
    {
      CharCountAtSummary(analyse.value);
      CharCount(analyse.value, lineIndex)
    }

    /** The caption under the text. */
    function CurrentCaption(): (r: string)
      reads this
      requires analyse.Some?
      ensures r == "Summary" <==> lineIndex == |analyse.value|
    {
      Caption(|analyse.value|, lineIndex)
    }
  }
}
