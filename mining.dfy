/** The pending-card endpoints of the mining API: validation of a new card,
    the id checks of the card endpoints and which database query each
    request leads to. */
module Mining {
  import opened Wrappers
  import opened Strings
  import opened Handlers

  /** The decoded body of a request to create a pending card; `meta` is raw
      JSON, kept as text. */
  datatype CreatePendingCardRequest = CreatePendingCardRequest(
    languageCode: string, token: string, sourceImage: string, meta: string)
  {
    /** The first required field that is empty, named in the error message;
        None when the request is valid. */
    function Validate(): (err: Option<string>)
      ensures err.None? <==> languageCode != "" && token != ""
      ensures languageCode == "" ==> err == Some("language_code is required")
      ensures languageCode != "" && token == "" ==> err == Some("token is required")
    {
      if languageCode == "" then Some("language_code is required")
      else if token == "" then Some("token is required")
      else None
    }
  }

  /** The decoded body of a request to update a card's meta data. */
  datatype UpdateCardRequest = UpdateCardRequest(meta: string)

  /** The database queries the endpoints issue. */
  datatype Query =
    | SelectPendingCards(languageCode: string)
    | InsertPendingCard(languageCode: string, token: string, sourceImage: string, meta: string)
    | SelectImage(id: int)
    | UpdateMeta(meta: string, id: int)
    | SetExported(id: int)

  /** Validation looks at the language code and the token only. */
  lemma ValidateIgnoresImageAndMeta(r: CreatePendingCardRequest, sourceImage: string, meta: string)
    ensures r.(sourceImage := sourceImage, meta := meta).Validate() == r.Validate()
  {
  }

  /** A pending card as listed, and the row it comes from. */
  datatype PendingCardRow = PendingCardRow(id: int, languageCode: string, token: string, sourceImage: string, meta: string)
  datatype Card = Card(id: int, languageCode: string, token: string, sourceImage: string, meta: string)

  /** The cards of a listing: one per row, in row order, without the source
      image (which the JSON encoding then omits). */
  function ListedCards(rows: seq<PendingCardRow>): (cards: seq<Card>)
    ensures |cards| == |rows|
    ensures forall i :: 0 <= i < |rows| ==>
      cards[i] == Card(rows[i].id, rows[i].languageCode, rows[i].token, "", rows[i].meta)
  {
    if rows == [] then []
    else
      var last := rows[|rows| - 1];
      ListedCards(rows[..|rows| - 1]) + [Card(last.id, last.languageCode, last.token, "", last.meta)]
  }

  /** Listing needs a language code; without one nothing is queried. */
  function ListPendingCards(languageCode: string, dbOk: bool): (o: Outcome<Query>)
    ensures o.status == StatusBadRequest <==> languageCode == ""
    ensures languageCode == "" ==> o.query.None? && o.rejection == Some(MissingParameter)
    ensures languageCode != "" ==> o.query == Some(SelectPendingCards(languageCode))
    ensures o.status == StatusOK <==> languageCode != "" && dbOk
  {
    if languageCode == "" then Reject(MissingParameter)
    else Issue(SelectPendingCards(languageCode), dbOk, StatusOK)
  }

  /** Creating a card: an unreadable body or a failed validation is a 400
      and no query is issued; otherwise the card is inserted with the
      request's fields and the answer is 201, or 500 when the insert fails. */
  function CreatePendingCard(body: Option<CreatePendingCardRequest>, dbOk: bool): (o: Outcome<Query>)
    ensures o.status == StatusBadRequest <==> body.None? || body.value.Validate().Some?
    ensures o.status == StatusBadRequest ==> o.query.None?
    ensures body.None? ==> o.rejection == Some(UnreadableBody)
    ensures body.Some? && body.value.Validate().Some? ==>
      o.rejection == Some(Invalid(body.value.Validate().value))
    ensures o.query.Some? ==> (body.Some? && o.query.value ==
      InsertPendingCard(body.value.languageCode, body.value.token, body.value.sourceImage, body.value.meta))
    ensures o.status == StatusCreated <==> body.Some? && body.value.Validate().None? && dbOk
  {
    match body
    case None => Reject(UnreadableBody)
    case Some(req) =>
      match req.Validate()
      case Some(msg) => Reject(Invalid(msg))
      case None => Issue(InsertPendingCard(req.languageCode, req.token, req.sourceImage, req.meta), dbOk, StatusCreated)
  }

  /** Fetching a card's image: the id must be a decimal integer, checked
      before any query; the image is then selected by that id. */
  function CardImage(id: string, dbOk: bool): (o: Outcome<Query>)
    ensures o.status == StatusBadRequest <==> ParseId(id).None?
    ensures o.query.Some? <==> ParseId(id).Some?
    ensures o.query.Some? ==> o.query.value == SelectImage(ParseId(id).value)
    ensures o.status == StatusOK <==> ParseId(id).Some? && dbOk
  {
    match ParseId(id)
    case None => Reject(BadId)
    case Some(n) => Issue(SelectImage(n), dbOk, StatusOK)
  }

  /** Updating a card's meta data: the body is decoded BEFORE the id is
      checked, so a request with both wrong is rejected for its body. The
      handler returns without writing a status on success, which the
      framework answers with 200. */
  function UpdateCard(body: Option<UpdateCardRequest>, id: string, dbOk: bool): (o: Outcome<Query>)
    ensures o.status == StatusBadRequest <==> body.None? || ParseId(id).None?
    ensures body.None? ==> o.rejection == Some(UnreadableBody)
    ensures body.Some? && ParseId(id).None? ==> o.rejection == Some(BadId)
    ensures o.query.Some? <==> body.Some? && ParseId(id).Some?
    ensures o.query.Some? ==> o.query.value == UpdateMeta(body.value.meta, ParseId(id).value)
    ensures o.status == StatusOK <==> o.query.Some? && dbOk
  {
    match body
    case None => Reject(UnreadableBody)
    case Some(req) =>
      match ParseId(id)
      case None => Reject(BadId)
      case Some(n) => Issue(UpdateMeta(req.meta, n), dbOk, StatusOK)
  }

  /** Marking a card as exported: the id check, then the update, answered
      with 201. */
  function MarkCardAsExported(id: string, dbOk: bool): (o: Outcome<Query>)
    ensures o.status == StatusBadRequest <==> ParseId(id).None?
    ensures o.query.Some? <==> ParseId(id).Some?
    ensures o.query.Some? ==> o.query.value == SetExported(ParseId(id).value)
    ensures o.status == StatusCreated <==> ParseId(id).Some? && dbOk
  {
    match ParseId(id)
    case None => Reject(BadId)
    case Some(n) => Issue(SetExported(n), dbOk, StatusCreated)
  }

  /** Every endpoint with an id accepts every int64 written in decimal and
      queries exactly that id; an empty id is always refused. */
  lemma IdEndpointsAcceptDecimalIds(n: int, meta: string, dbOk: bool)
    requires MinInt64 <= n <= MaxInt64
    ensures CardImage(IntToString(n), dbOk).query == Some(SelectImage(n))
    ensures MarkCardAsExported(IntToString(n), dbOk).query == Some(SetExported(n))
    ensures UpdateCard(Some(UpdateCardRequest(meta)), IntToString(n), dbOk).query == Some(UpdateMeta(meta, n))
    ensures CardImage("", dbOk).rejection == Some(BadId)
    ensures MarkCardAsExported("", dbOk).rejection == Some(BadId)
  {
    ParseIdOfIntToString(n);
  }
}
