/** The texts endpoints of the mining API: validation of a new text, the id
    checks, and the reading position stored for a text. */
module Texts {
  import opened Wrappers
  import opened Strings
  import opened Handlers

  /** The decoded body of a request to create a text. */
  datatype CreateTextRequest = CreateTextRequest(languageCode: string, title: string, content: string)
  {
    /** Names the first empty field in the order language code, title,
        content; None when the request is valid. Only emptiness is checked,
        so a title of spaces passes. */
    function Validate(): (err: Option<string>)
      ensures err.None? <==> languageCode != "" && title != "" && content != ""
      ensures languageCode == "" ==> err == Some("language_code is required")
      ensures languageCode != "" && title == "" ==> err == Some("title is required")
      ensures languageCode != "" && title != "" && content == "" ==> err == Some("content is required")
    {
      if languageCode == "" then Some("language_code is required")
      else if title == "" then Some("title is required")
      else if content == "" then Some("content is required")
      else None
    }
  }

  /** The decoded body of a request to store a reading position. */
  datatype UpdateReadingPositionRequest = UpdateReadingPositionRequest(lastPosition: Int64)

  /** The database queries the endpoints issue. */
  datatype Query =
    | SelectTexts(languageCode: string)
    | InsertText(languageCode: string, title: string, content: string)
    | SelectText(id: int)
    | StorePosition(id: int, lastPosition: int)

  /** A stored text, and the summary of it that a listing returns. */
  datatype TextRow = TextRow(id: int, languageCode: string, title: string, content: string, lastPosition: int)
  datatype Text = Text(id: int, languageCode: string, title: string, content: string, lastPosition: int)

  /** One summary per row, in row order; content and position are left at
      their zero values, which the JSON encoding omits. */
  function ListedTexts(rows: seq<TextRow>): (texts: seq<Text>)
    ensures |texts| == |rows|
    ensures forall i :: 0 <= i < |rows| ==>
      texts[i] == Text(rows[i].id, rows[i].languageCode, rows[i].title, "", 0)
  {
    if rows == [] then []
    else
      var last := rows[|rows| - 1];
      ListedTexts(rows[..|rows| - 1]) + [Text(last.id, last.languageCode, last.title, "", 0)]
  }

  /** Listing needs a language code; without one nothing is queried. */
  function ListTexts(languageCode: string, dbOk: bool): (o: Outcome<Query>)
    ensures o.status == StatusBadRequest <==> languageCode == ""
    ensures languageCode == "" ==> o.query.None? && o.rejection == Some(MissingParameter)
    ensures languageCode != "" ==> o.query == Some(SelectTexts(languageCode))
    ensures o.status == StatusOK <==> languageCode != "" && dbOk
  {
    if languageCode == "" then Reject(MissingParameter)
    else Issue(SelectTexts(languageCode), dbOk, StatusOK)
  }

  /** Creating a text: 400 without a query when the body cannot be read or
      does not validate; otherwise the text is inserted and the answer is
      201 (with the new id), or 500 when the insert fails. */
  function CreateText(body: Option<CreateTextRequest>, dbOk: bool): (o: Outcome<Query>)
    ensures o.status == StatusBadRequest <==> body.None? || body.value.Validate().Some?
    ensures o.status == StatusBadRequest ==> o.query.None?
    ensures body.None? ==> o.rejection == Some(UnreadableBody)
    ensures body.Some? && body.value.Validate().Some? ==>
      o.rejection == Some(Invalid(body.value.Validate().value))
    ensures o.query.Some? ==> (body.Some? && o.query.value ==
      InsertText(body.value.languageCode, body.value.title, body.value.content))
    ensures o.status == StatusCreated <==> body.Some? && body.value.Validate().None? && dbOk
  {
    match body
    case None => Reject(UnreadableBody)
    case Some(req) =>
      match req.Validate()
      case Some(msg) => Reject(Invalid(msg))
      case None => Issue(InsertText(req.languageCode, req.title, req.content), dbOk, StatusCreated)
  }

  /** The answer to a fetch: the outcome and, with a 200, the JSON body. */
  datatype Fetch = Fetch(outcome: Outcome<Query>, body: Option<Text>)

  /** Fetching a text: the id check before the query. `row` is what the
      query returned, None when it failed; a 200 answer carries every
      column of the row. */
  function GetText(id: string, row: Option<TextRow>): (f: Fetch)
    ensures f.outcome.status == StatusBadRequest <==> ParseId(id).None?
    ensures f.outcome.query.Some? <==> ParseId(id).Some?
    ensures f.outcome.query.Some? ==> f.outcome.query.value == SelectText(ParseId(id).value)
    ensures f.outcome.status == StatusOK <==> ParseId(id).Some? && row.Some?
    ensures f.body.Some? <==> f.outcome.status == StatusOK
    ensures f.body.Some? ==> f.body.value.id == row.value.id && f.body.value.title == row.value.title
    ensures f.body.Some? ==> f.body.value.languageCode == row.value.languageCode
    ensures f.body.Some? ==> f.body.value.content == row.value.content
    ensures f.body.Some? ==> f.body.value.lastPosition == row.value.lastPosition
  {
    match ParseId(id)
    case None => Fetch(Reject(BadId), None)
    case Some(n) =>
      match row
      case None => Fetch(Issue(SelectText(n), false, StatusOK), None)
      case Some(t) =>
        Fetch(Issue(SelectText(n), true, StatusOK), Some(Text(t.id, t.languageCode, t.title, t.content, t.lastPosition)))
  }

  /** Storing a reading position: the id is checked BEFORE the body is
      read, and the position stored is the int64 of the request narrowed to
      an int32 by two's-complement truncation. */
  function UpdateReadingPosition(id: string, body: Option<UpdateReadingPositionRequest>, dbOk: bool): (o: Outcome<Query>)
    ensures o.status == StatusBadRequest <==> ParseId(id).None? || body.None?
    ensures ParseId(id).None? ==> o.rejection == Some(BadId)
    ensures ParseId(id).Some? && body.None? ==> o.rejection == Some(UnreadableBody)
    ensures o.query.Some? <==> ParseId(id).Some? && body.Some?
    ensures o.query.Some? ==> o.query.value == StorePosition(ParseId(id).value, Int32(body.value.lastPosition))
    ensures o.status == StatusOK <==> o.query.Some? && dbOk
  {
    match ParseId(id)
    case None => Reject(BadId)
    case Some(n) =>
      match body
      case None => Reject(UnreadableBody)
      case Some(req) => Issue(StorePosition(n, Int32(req.lastPosition)), dbOk, StatusOK)
  }

  /** The stored position always fits in an int32; it equals the requested
      one exactly when that one already fits, and 2^31 is stored as -2^31. */
  lemma StoredPositionIsNarrowed(n: int, p: Int64, dbOk: bool)
    requires MinInt64 <= n <= MaxInt64
    ensures var o := UpdateReadingPosition(IntToString(n), Some(UpdateReadingPositionRequest(p)), dbOk);
      o.query.Some? && MinInt32 <= o.query.value.lastPosition <= MaxInt32
      && (o.query.value.lastPosition == p <==> MinInt32 <= p <= MaxInt32)
    ensures UpdateReadingPosition(IntToString(n), Some(UpdateReadingPositionRequest(MaxInt32 + 1)), dbOk).query
      == Some(StorePosition(n, MinInt32))
  {
    ParseIdOfIntToString(n);
    if MinInt32 <= p <= MaxInt32 {
      Int32KeepsSmallValues(p);
    }
    Int32WrapsAround();
  }
}
