/** What the HTTP handlers of the mining API share: status codes, the outcome
    of handling one request, decimal id parsing (Go's strconv.Atoi on a
    64-bit platform) and Go's conversion of an int64 to an int32. */
module Handlers {
  import opened Wrappers
  import opened Strings

  const StatusOK := 200
  const StatusCreated := 201
  const StatusBadRequest := 400
  const StatusNotFound := 404
  const StatusInternalServerError := 500

  const MinInt64: int := -0x8000_0000_0000_0000
  const MaxInt64: int := 0x7fff_ffff_ffff_ffff
  const MinInt32: int := -0x8000_0000
  const MaxInt32: int := 0x7fff_ffff

  type Int64 = x: int | MinInt64 <= x <= MaxInt64

  /** Why a request was turned away with 400 before any query ran: the body
      could not be read or decoded, a required parameter was empty, the id
      is not a decimal integer, or the decoded request failed validation. */
  datatype Rejection = UnreadableBody | MissingParameter | BadId | Invalid(message: string)

  /** The status a handler answers with, the database query it issued (none
      when the request was rejected) and the reason for a rejection. */
  datatype Outcome<Q> = Outcome(status: int, query: Option<Q>, rejection: Option<Rejection>)

  function Reject<Q>(why: Rejection): Outcome<Q> {
    Outcome(StatusBadRequest, None, Some(why))
  }

  /** The outcome of issuing `q`: `success` when the database accepts it,
      500 when it fails. */
  function Issue<Q>(q: Q, dbOk: bool, success: int): Outcome<Q> {
    Outcome(if dbOk then success else StatusInternalServerError, Some(q), None)
  }

  predicate IsSign(c: char) {
    c == '-' || c == '+'
  }

  /** Go's `strconv.Atoi`: an optional sign followed by one or more decimal
      digits whose value fits in an int64; anything else is an error. */
  function Atoi(s: string): (r: Option<int>)
    ensures r.Some? ==> MinInt64 <= r.value <= MaxInt64
    ensures r.Some? ==> s != [] && (IsSign(s[0]) || IsDigit(s[0])) && AllDigits(s[1..])
  {
    var digits := if |s| > 0 && IsSign(s[0]) then s[1..] else s;
    if digits == [] || !AllDigits(digits) then None
    else
      var v: int := if |s| > 0 && s[0] == '-' then -(ParseDigits(digits) as int) else ParseDigits(digits);
      if MinInt64 <= v <= MaxInt64 then Some(v) else None
  }

  /** Every int64 written in decimal is read back as itself. */
  lemma AtoiOfIntToString(x: int)
    requires MinInt64 <= x <= MaxInt64
    ensures Atoi(IntToString(x)) == Some(x)
  {
    var s := IntToString(x);
    if x < 0 {
      assert s[1..] == NatToString(-x);
      ParseDigitsOfNatToString(-x);
    } else {
      assert !IsSign(s[0]) by {
        assert IsDigit(NatToString(x)[0]);
      }
      ParseDigitsOfNatToString(x);
    }
  }

  /** A leading '+' is accepted and does not change the value. */
  lemma AtoiAcceptsPlus(n: nat)
    requires n <= MaxInt64
    ensures Atoi("+" + NatToString(n)) == Some(n)
  {
    assert ("+" + NatToString(n))[1..] == NatToString(n);
    ParseDigitsOfNatToString(n);
  }

  /** The first value past the int64 range is rejected. */
  lemma AtoiRejectsOverflow()
    ensures Atoi(NatToString(MaxInt64 + 1)) == None
  {
    ParseDigitsOfNatToString(MaxInt64 + 1);
    assert !IsSign(NatToString(MaxInt64 + 1)[0]) by {
      assert IsDigit(NatToString(MaxInt64 + 1)[0]);
    }
  }

  /** The id check the handlers share: a non-empty path parameter that
      `strconv.Atoi` accepts. */
  function ParseId(id: string): (r: Option<int>)
    ensures id == "" ==> r.None?
    ensures r.Some? ==> r == Atoi(id)
  {
    if id == "" then None else Atoi(id)
  }

  /** An int64 id written in decimal passes the id check as itself. */
  lemma ParseIdOfIntToString(x: int)
    requires MinInt64 <= x <= MaxInt64
    ensures ParseId(IntToString(x)) == Some(x)
  {
    AtoiOfIntToString(x);
  }

  /** Go's `int32(x)` for an int64 `x`: the low 32 bits read as two's
      complement. */
  function Int32(x: Int64): (r: int)
    ensures MinInt32 <= r <= MaxInt32
    ensures (x - r) % 0x1_0000_0000 == 0
  {
    var low := x % 0x1_0000_0000;
    if low <= MaxInt32 then low else low - 0x1_0000_0000
  }

  /** Narrowing keeps every value that already fits in an int32. */
  lemma Int32KeepsSmallValues(x: Int64)
    requires MinInt32 <= x <= MaxInt32
    ensures Int32(x) == x
  {
    var r := Int32(x);
    Int32Unique(x, x);
  }

  /** The narrowed value is the only int32 congruent to `x` modulo 2^32. */
  lemma Int32Unique(x: Int64, r: int)
    requires MinInt32 <= r <= MaxInt32
    requires (x - r) % 0x1_0000_0000 == 0
    ensures r == Int32(x)
  {
    var q := Int32(x);
    assert (r - q) % 0x1_0000_0000 == 0 by {
      var a := (x - q) / 0x1_0000_0000;
      var b := (x - r) / 0x1_0000_0000;
      assert x - q == a * 0x1_0000_0000;
      assert x - r == b * 0x1_0000_0000;
      assert r - q == (a - b) * 0x1_0000_0000;
    }
  }

  /** The positions just past the int32 range wrap around to its other end. */
  lemma Int32WrapsAround()
    ensures Int32(MaxInt32 + 1) == MinInt32
    ensures Int32(MinInt32 - 1) == MaxInt32
    ensures Int32(0x1_0000_0000) == 0
  {
  }
}
