/** String operations shared by the Go back end and the TypeScript front end:
    substring search, split and join on a separator, replace-all and the
    decimal rendering of integers.  A `char` stands for a byte of a Go string
    and for a UTF-16 code unit of a JavaScript string. */
module Strings {
  import opened Wrappers

  predicate IsPrefix(p: string, s: string) {
    |p| <= |s| && s[..|p|] == p
  }

  /** `w` occurs in `s` starting at index `i`. */
  predicate OccursAt(s: string, w: string, i: int) {
    0 <= i && i + |w| <= |s| && s[i..i + |w|] == w
  }

  lemma OccursAtShift(s: string, w: string)
    requires |s| >= 1
    ensures forall j :: 1 <= j ==> (OccursAt(s, w, j) <==> OccursAt(s[1..], w, j - 1))
    ensures forall j :: 0 <= j ==> (OccursAt(s[1..], w, j) <==> OccursAt(s, w, j + 1))
  {
    forall j | 1 <= j
      ensures OccursAt(s, w, j) <==> OccursAt(s[1..], w, j - 1)
    {
      if j + |w| <= |s| {
        assert s[1..][j - 1..j - 1 + |w|] == s[j..j + |w|];
      }
    }
    forall j | 0 <= j
      ensures OccursAt(s[1..], w, j) <==> OccursAt(s, w, j + 1)
    {
      if j + 1 + |w| <= |s| {
        assert s[1..][j..j + |w|] == s[j + 1..j + 1 + |w|];
      }
    }
  }

  /** An occurrence inside a prefix is an occurrence in the whole string. */
  lemma OccursInPrefix(s: string, w: string, i: nat)
    requires i <= |s|
    ensures forall j :: OccursAt(s[..i], w, j) ==> OccursAt(s, w, j)
  {
    forall j | OccursAt(s[..i], w, j)
      ensures OccursAt(s, w, j)
    {
      assert s[..i][j..j + |w|] == s[j..j + |w|];
    }
  }

  /** A one-character pattern occurs exactly where that character is. */
  lemma OccursAtChar(s: string, c: char)
    ensures forall j :: OccursAt(s, [c], j) <==> 0 <= j < |s| && s[j] == c
  {
    forall j | 0 <= j < |s|
      ensures OccursAt(s, [c], j) <==> s[j] == c
    {
      assert s[j..j + 1] == [s[j]];
    }
  }

  /** The leftmost occurrence of `w` in `s` (Go's strings.Index, JavaScript's indexOf). */
  function IndexOf(s: string, w: string): (r: Option<nat>)
    ensures r.Some? ==> OccursAt(s, w, r.value)
    ensures r.Some? ==> forall j :: 0 <= j < r.value ==> !OccursAt(s, w, j)
    ensures r.None? ==> forall j :: !OccursAt(s, w, j)
    decreases |s|
  {
    if IsPrefix(w, s) then Some(0)
    else if s == [] then None
    else
      OccursAtShift(s, w);
      match IndexOf(s[1..], w)
      case None => None
      case Some(k) => Some(k + 1)
  }

  lemma IndexOfIsLeftmost(s: string, w: string, i: nat)
    requires OccursAt(s, w, i)
    requires forall j :: 0 <= j < i ==> !OccursAt(s, w, j)
    ensures IndexOf(s, w) == Some(i)
  {
  }

  /** Substring containment (Go's strings.Contains, JavaScript's includes). */
  predicate Contains(s: string, w: string) {
    IndexOf(s, w).Some?
  }

  lemma ContainsIff(s: string, w: string)
    ensures Contains(s, w) <==> exists i :: OccursAt(s, w, i)
  {
  }

  /** Go's strings.Split and JavaScript's split for a non-empty separator:
      the pieces between the leftmost non-overlapping occurrences of `sep`. */
  function Split(s: string, sep: string): (parts: seq<string>)
    requires sep != []
    ensures |parts| >= 1
    decreases |s|
  {
    match IndexOf(s, sep)
    case None => [s]
    case Some(i) => [s[..i]] + Split(s[i + |sep|..], sep)
  }

  /** Go's strings.Join and JavaScript's join. */
  function Join(parts: seq<string>, sep: string): string {
    if |parts| == 0 then ""
    else if |parts| == 1 then parts[0]
    else parts[0] + sep + Join(parts[1..], sep)
  }

  /** The pieces concatenated without a separator. */
  function Concat(parts: seq<string>): string {
    if parts == [] then "" else parts[0] + Concat(parts[1..])
  }

  lemma {:induction false} JoinEmptyIsConcat(parts: seq<string>)
    ensures Join(parts, "") == Concat(parts)
  {
    if |parts| > 1 {
      JoinEmptyIsConcat(parts[1..]);
    } else if |parts| == 1 {
      assert parts[1..] == [];
    }
  }

  lemma JoinCons(p: string, rest: seq<string>, sep: string)
    requires |rest| >= 1
    ensures Join([p] + rest, sep) == p + sep + Join(rest, sep)
  {
    assert ([p] + rest)[1..] == rest;
  }

  /** Joining two non-empty runs of pieces is joining each and putting the
      separator between them. */
  lemma {:induction false} JoinAppend(a: seq<string>, b: seq<string>, sep: string)
    requires |a| >= 1 && |b| >= 1
    ensures Join(a + b, sep) == Join(a, sep) + sep + Join(b, sep)
    decreases |a|
  {
    if |a| == 1 {
      JoinCons(a[0], b, sep);
    } else {
      assert (a + b)[1..] == a[1..] + b;
      JoinAppend(a[1..], b, sep);
    }
  }

  /** Splitting and joining again on the same separator gives back the string. */
  lemma {:induction false} JoinSplit(s: string, sep: string)
    requires sep != []
    ensures Join(Split(s, sep), sep) == s
    decreases |s|
  {
    var r := IndexOf(s, sep);
    if r.Some? {
      var i := r.value;
      var rest := s[i + |sep|..];
      var tail := Split(rest, sep);
      assert Split(s, sep) == [s[..i]] + tail;
      JoinSplit(rest, sep);
      JoinCons(s[..i], tail, sep);
      assert s == s[..i] + s[i..i + |sep|] + rest;
    }
  }

  /** No piece of a split contains the separator. */
  lemma {:induction false} SplitPartsFree(s: string, sep: string)
    requires sep != []
    ensures forall k :: 0 <= k < |Split(s, sep)| ==> !Contains(Split(s, sep)[k], sep)
    decreases |s|
  {
    match IndexOf(s, sep)
    case None =>
    case Some(i) =>
      var rest := s[i + |sep|..];
      SplitPartsFree(rest, sep);
      var first := s[..i];
      OccursInPrefix(s, sep, i);
      assert !Contains(first, sep);
      var parts := Split(s, sep);
      assert parts == [first] + Split(rest, sep);
      forall k | 0 <= k < |parts|
        ensures !Contains(parts[k], sep)
      {
        if k > 0 {
          assert parts[k] == Split(rest, sep)[k - 1];
        }
      }
  }

  /** Splitting a join on a one-character separator that no piece contains
      gives back the pieces. */
  lemma {:induction false} SplitJoinChar(parts: seq<string>, c: char)
    requires |parts| >= 1
    requires forall k :: 0 <= k < |parts| ==> c !in parts[k]
    ensures Split(Join(parts, [c]), [c]) == parts
  {
    var p := parts[0];
    if |parts| == 1 {
      OccursAtChar(p, c);
      assert IndexOf(p, [c]) == None;
    } else {
      var tail := parts[1..];
      forall k | 0 <= k < |tail| ensures c !in tail[k] {
        assert tail[k] == parts[k + 1];
      }
      SplitJoinChar(tail, c);
      assert Join(parts, [c]) == p + [c] + Join(tail, [c]);
      SplitAtFirstChar(p, c, Join(tail, [c]));
      assert parts == [p] + tail;
    }
  }

  /** A split on a character first cuts at its first occurrence. */
  lemma SplitAtFirstChar(p: string, c: char, rest: string)
    requires c !in p
    ensures Split(p + [c] + rest, [c]) == [p] + Split(rest, [c])
  {
    var s := p + [c] + rest;
    OccursAtChar(s, c);
    assert forall j :: 0 <= j < |p| ==> s[j] == p[j];
    IndexOfIsLeftmost(s, [c], |p|);
    assert s[..|p|] == p;
    assert s[|p| + 1..] == rest;
  }


  /** A string with a character inserted before each character and at the end
      (JavaScript's replaceAll with an empty pattern). */
  function InsertEverywhere(s: string, ins: string): string {
    if s == [] then ins else ins + [s[0]] + InsertEverywhere(s[1..], ins)
  }

  /** Go's strings.ReplaceAll, and JavaScript's replaceAll with a string
      pattern and a replacement without '$' (`JsStrings.JsReplaceAllWithoutDollar`). */
  function ReplaceAll(s: string, pattern: string, replacement: string): string {
    if pattern == [] then InsertEverywhere(s, replacement)
    else Join(Split(s, pattern), replacement)
  }

  /** The number of leftmost non-overlapping occurrences of `w` in `s`,
      counted by scanning from the left. */
  function CountOccurrences(s: string, w: string): nat
    requires w != []
    decreases |s|
  {
    if |s| < |w| then 0
    else if IsPrefix(w, s) then 1 + CountOccurrences(s[|w|..], w)
    else CountOccurrences(s[1..], w)
  }

  lemma {:induction false} CountSkip(s: string, w: string, i: nat)
    requires w != [] && i <= |s|
    requires forall j :: 0 <= j < i ==> !OccursAt(s, w, j)
    ensures CountOccurrences(s, w) == CountOccurrences(s[i..], w)
    decreases i
  {
    if i > 0 {
      if |s| >= |w| {
        assert !OccursAt(s, w, 0);
        OccursAtShift(s, w);
        CountSkip(s[1..], w, i - 1);
        assert s[1..][i - 1..] == s[i..];
      }
    }
  }

  /** A split yields one piece more than there are occurrences of the separator. */
  lemma {:induction false} SplitCount(s: string, w: string)
    requires w != []
    ensures |Split(s, w)| == CountOccurrences(s, w) + 1
    decreases |s|
  {
    match IndexOf(s, w)
    case None =>
      CountSkip(s, w, |s|);
    case Some(i) =>
      CountAtFirst(s, w, i);
      SplitCount(s[i + |w|..], w);
  }

  /** Counting from the leftmost occurrence at `i` counts it and goes on
      after it. */
  lemma CountAtFirst(s: string, w: string, i: nat)
    requires w != [] && IndexOf(s, w) == Some(i)
    ensures CountOccurrences(s, w) == 1 + CountOccurrences(s[i + |w|..], w)
  {
    CountSkip(s, w, i);
    var t := s[i..];
    assert IsPrefix(w, t) by {
      assert t[..|w|] == s[i..i + |w|];
    }
    assert t[|w|..] == s[i + |w|..];
  }

  function SumLengths(parts: seq<string>): nat {
    if parts == [] then 0 else |parts[0]| + SumLengths(parts[1..])
  }

  lemma SumLengthsCons(p: string, rest: seq<string>)
    ensures SumLengths([p] + rest) == |p| + SumLengths(rest)
  {
    assert ([p] + rest)[1..] == rest;
  }

  lemma {:induction false} JoinLength(parts: seq<string>, sep: string)
    requires |parts| >= 1
    ensures |Join(parts, sep)| == SumLengths(parts) + (|parts| - 1) * |sep|
  {
    if |parts| > 1 {
      JoinLength(parts[1..], sep);
    } else {
      assert parts[1..] == [];
    }
  }

  lemma {:induction false} SplitLength(s: string, sep: string)
    requires sep != []
    ensures SumLengths(Split(s, sep)) + (|Split(s, sep)| - 1) * |sep| == |s|
    decreases |s|
  {
    var r := IndexOf(s, sep);
    if r.None? {
      assert Split(s, sep) == [s];
      SumLengthsCons(s, []);
    } else {
      var i := r.value;
      var rest := s[i + |sep|..];
      SplitLength(rest, sep);
      SplitLengthStep(s, sep, i);
    }
  }

  lemma SplitLengthStep(s: string, sep: string, i: nat)
    requires sep != [] && IndexOf(s, sep) == Some(i)
    requires var rest := s[i + |sep|..];
      SumLengths(Split(rest, sep)) + (|Split(rest, sep)| - 1) * |sep| == |rest|
    ensures SumLengths(Split(s, sep)) + (|Split(s, sep)| - 1) * |sep| == |s|
  {
    var rest := s[i + |sep|..];
    var t := Split(rest, sep);
    var parts := Split(s, sep);
    assert parts == [s[..i]] + t;
    SumLengthsCons(s[..i], t);
    assert |s| == i + |sep| + |rest|;
    var before, after := (|t| - 1) * |sep|, |t| * |sep|;
    MulStep(|t|, |sep|);
    assert after == |sep| + before;
    var n := |parts| - 1;
    assert n == |t|;
    assert n * |sep| == after;
  }

  lemma MulStep(n: int, k: int)
    ensures n * k == k + (n - 1) * k
  {
  }

  /** Every replacement changes the length by the difference of the two
      strings' lengths, once per occurrence. */
  lemma ReplaceAllLength(s: string, pattern: string, replacement: string)
    requires pattern != []
    ensures |ReplaceAll(s, pattern, replacement)|
         == |s| + CountOccurrences(s, pattern) * (|replacement| - |pattern|)
  {
    var parts := Split(s, pattern);
    var m, r, p := |parts| - 1, |replacement|, |pattern|;
    JoinLength(parts, replacement);
    SplitLength(s, pattern);
    SplitCount(s, pattern);
    assert m == CountOccurrences(s, pattern);
    var sum := SumLengths(parts);
    assert |Join(parts, replacement)| == sum + m * r;
    assert |s| == sum + m * p;
    MulSub(m, r, p);
  }

  lemma MulSub(m: int, a: int, b: int)
    ensures m * a - m * b == m * (a - b)
  {
  }

  lemma ReplaceAllAbsent(s: string, pattern: string, replacement: string)
    requires pattern != [] && !Contains(s, pattern)
    ensures ReplaceAll(s, pattern, replacement) == s
  {
  }

  /** A join contains a character only if a piece or the separator does. */
  lemma {:induction false} JoinAvoids(parts: seq<string>, sep: string, c: char)
    requires c !in sep
    requires forall k :: 0 <= k < |parts| ==> c !in parts[k]
    ensures c !in Join(parts, sep)
  {
    if |parts| > 1 {
      JoinAvoids(parts[1..], sep, c);
    }
  }

  lemma NotContainsChar(s: string, c: char)
    requires !Contains(s, [c])
    ensures c !in s
  {
    OccursAtChar(s, c);
  }

  /** Replacing every occurrence of a character by a string that lacks it
      leaves no occurrence behind. */
  lemma ReplaceAllRemovesChar(s: string, c: char, replacement: string)
    requires c !in replacement
    ensures c !in ReplaceAll(s, [c], replacement)
  {
    var parts := Split(s, [c]);
    SplitPartsFree(s, [c]);
    forall k | 0 <= k < |parts|
      ensures c !in parts[k]
    {
      NotContainsChar(parts[k], c);
    }
    JoinAvoids(parts, replacement, c);
  }

  // ---- decimal numbers -------------------------------------------------

  predicate IsDigit(c: char) {
    '0' <= c <= '9'
  }

  predicate AllDigits(s: string) {
    forall i :: 0 <= i < |s| ==> IsDigit(s[i])
  }

  function DigitChar(d: nat): (c: char)
    requires d < 10
    ensures IsDigit(c)
  {
    (48 + d) as char
  }

  function DigitValue(c: char): nat
    requires IsDigit(c)
  {
    c as int - 48
  }

  /** The decimal rendering of a natural number (JavaScript's String(n), Go's strconv.Itoa). */
  function NatToString(n: nat): (s: string)
    ensures |s| >= 1 && AllDigits(s)
    decreases n
  {
    if n < 10 then [DigitChar(n)] else NatToString(n / 10) + [DigitChar(n % 10)]
  }

  /** The value of a string of decimal digits. */
  function ParseDigits(s: string): nat
    requires AllDigits(s)
    decreases |s|
  {
    if s == [] then 0 else 10 * ParseDigits(s[..|s| - 1]) + DigitValue(s[|s| - 1])
  }

  lemma {:induction false} ParseDigitsOfNatToString(n: nat)
    ensures ParseDigits(NatToString(n)) == n
    decreases n
  {
    if n >= 10 {
      ParseDigitsOfNatToString(n / 10);
      var s := NatToString(n);
      assert s[..|s| - 1] == NatToString(n / 10);
    }
  }

  /** The decimal rendering of an integer, with a leading '-' when negative. */
  function IntToString(x: int): string {
    if x < 0 then "-" + NatToString(-x) else NatToString(x)
  }

  lemma IntToStringInjective(x: int, y: int)
    requires IntToString(x) == IntToString(y)
    ensures x == y
  {
    NegativeStartsWithMinus(x);
    NegativeStartsWithMinus(y);
    assert (x < 0) == (y < 0);
    if x < 0 {
      var a, b := NatToString(-x), NatToString(-y);
      assert IntToString(x) == "-" + a && IntToString(y) == "-" + b;
      assert a == IntToString(x)[1..] == IntToString(y)[1..] == b;
      ParseDigitsOfNatToString(-x);
      ParseDigitsOfNatToString(-y);
    } else {
      ParseDigitsOfNatToString(x);
      ParseDigitsOfNatToString(y);
    }
  }

  lemma NegativeStartsWithMinus(x: int)
    ensures |IntToString(x)| >= 1
    ensures x < 0 <==> IntToString(x)[0] == '-'
  {
    if x >= 0 {
      assert IsDigit(NatToString(x)[0]);
    }
  }

  lemma IntToStringNoChar(x: int, c: char)
    requires c != '-' && !IsDigit(c)
    ensures c !in IntToString(x)
  {
    var s := IntToString(x);
    forall i | 0 <= i < |s|
      ensures s[i] != c
    {
      if x < 0 && i > 0 {
        assert s[i] == NatToString(-x)[i - 1];
      }
    }
  }
}
