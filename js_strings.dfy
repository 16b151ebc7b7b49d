/** JavaScript's `String.prototype.replaceAll` with a string pattern,
    including the '$' patterns of its replacement string, and its agreement
    with the plain replace-all of `Strings` when the replacement has no '$'. */
module JsStrings {
  import opened Strings

  /** The text JavaScript's replaceAll inserts for a match of `matched` at
      `pos` in `str` when the pattern is a string, so that there are no
      capture groups: "$$" gives "$", "$&" the match, "$`" the text before
      it and "$'" the text after it; any other '$' stays as written. */
  function Substitution(rep: string, matched: string, str: string, pos: nat): string
    requires pos + |matched| <= |str|
    decreases |rep|
  {
    if rep == [] then ""
    else if rep[0] == '$' && |rep| >= 2 && rep[1] == '$' then "$" + Substitution(rep[2..], matched, str, pos)
    else if rep[0] == '$' && |rep| >= 2 && rep[1] == '&' then matched + Substitution(rep[2..], matched, str, pos)
    else if rep[0] == '$' && |rep| >= 2 && rep[1] == '`' then str[..pos] + Substitution(rep[2..], matched, str, pos)
    else if rep[0] == '$' && |rep| >= 2 && rep[1] == '\'' then
      str[pos + |matched|..] + Substitution(rep[2..], matched, str, pos)
    else [rep[0]] + Substitution(rep[1..], matched, str, pos)
  }

  /** A replacement without '$' is inserted as written. */
  lemma {:induction false} SubstitutionWithoutDollar(rep: string, matched: string, str: string, pos: nat)
    requires pos + |matched| <= |str| && '$' !in rep
    ensures Substitution(rep, matched, str, pos) == rep
    decreases |rep|
  {
    if rep != [] {
      assert rep[0] != '$';
      assert '$' !in rep[1..];
      SubstitutionWithoutDollar(rep[1..], matched, str, pos);
      assert rep == [rep[0]] + rep[1..];
    }
  }

  /** Text without '$' before a replacement is inserted as written. */
  lemma {:induction false} SubstitutionAfterPlain(a: string, rep: string, matched: string, str: string, pos: nat)
    requires pos + |matched| <= |str| && '$' !in a
    ensures Substitution(a + rep, matched, str, pos) == a + Substitution(rep, matched, str, pos)
    decreases |a|
  {
    if a != [] {
      assert (a + rep)[0] == a[0] && (a + rep)[1..] == a[1..] + rep;
      assert '$' !in a[1..];
      SubstitutionAfterPlain(a[1..], rep, matched, str, pos);
      assert a == [a[0]] + a[1..];
    } else {
      assert a + rep == rep;
    }
  }

  /** JavaScript's replaceAll with a non-empty string pattern finds the same
      leftmost non-overlapping matches that split cuts at. `parts` are the
      pieces from index `off` of `s` on; each match between two pieces is
      replaced by its substitution, computed against the whole of `s`. */
  function JsJoin(s: string, parts: seq<string>, pattern: string, rep: string, off: nat): string
    requires |parts| >= 1 && off + |Join(parts, pattern)| <= |s|
    decreases |parts|
  {
    if |parts| == 1 then parts[0]
    else
      var pos := off + |parts[0]|;
      parts[0] + Substitution(rep, pattern, s, pos) + JsJoin(s, parts[1..], pattern, rep, pos + |pattern|)
  }

  /** JavaScript's replaceAll with the empty pattern, on `s` from index `i`
      on: an empty match before every character and one at the end. */
  function JsInsertFrom(s: string, rep: string, i: nat): string
    requires i <= |s|
    decreases |s| - i
  {
    if i == |s| then Substitution(rep, "", s, i)
    else Substitution(rep, "", s, i) + [s[i]] + JsInsertFrom(s, rep, i + 1)
  }

  /** JavaScript's `s.replaceAll(pattern, rep)` for a string pattern. */
  function JsReplaceAll(s: string, pattern: string, rep: string): string {
    if pattern == [] then JsInsertFrom(s, rep, 0)
    else
      JoinSplit(s, pattern);
      JsJoin(s, Split(s, pattern), pattern, rep, 0)
  }

  lemma {:induction false} JsJoinWithoutDollar(s: string, parts: seq<string>, pattern: string, rep: string, off: nat)
    requires |parts| >= 1 && off + |Join(parts, pattern)| <= |s| && '$' !in rep
    ensures JsJoin(s, parts, pattern, rep, off) == Join(parts, rep)
    decreases |parts|
  {
    if |parts| > 1 {
      var pos := off + |parts[0]|;
      SubstitutionWithoutDollar(rep, pattern, s, pos);
      JsJoinWithoutDollar(s, parts[1..], pattern, rep, pos + |pattern|);
    }
  }

  lemma {:induction false} JsInsertFromIsInsert(s: string, rep: string, i: nat)
    requires i <= |s| && '$' !in rep
    ensures JsInsertFrom(s, rep, i) == InsertEverywhere(s[i..], rep)
    decreases |s| - i
  {
    SubstitutionWithoutDollar(rep, "", s, i);
    if i < |s| {
      var t := s[i..];
      assert t[0] == s[i] && t[1..] == s[i + 1..];
      JsInsertFromIsInsert(s, rep, i + 1);
    }
  }

  /** With no '$' in the replacement, JavaScript's replaceAll is the plain
      replacement of every leftmost non-overlapping occurrence. */
  lemma JsReplaceAllWithoutDollar(s: string, pattern: string, rep: string)
    requires '$' !in rep
    ensures JsReplaceAll(s, pattern, rep) == ReplaceAll(s, pattern, rep)
  {
    assert s[0..] == s;
    if pattern == [] {
      JsInsertFromIsInsert(s, rep, 0);
    } else {
      JoinSplit(s, pattern);
      JsJoinWithoutDollar(s, Split(s, pattern), pattern, rep, 0);
    }
  }
}
