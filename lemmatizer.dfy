/** The German lemmatizer: the lemmas of a word, also trying the spelling
    with "ß" for "ss", and the merging of the lemma lists into one list
    without duplicates, where a word seen twice also contributes its
    title-cased form.

    The dictionary (`inDict`, `lemmasOf`), lower-casing (`lower`) and German
    title-casing (`title`) are parameters: their content is not modelled. */
module Lemmatizer {
  import opened Strings

  /** "ß" as the two bytes of its UTF-8 encoding. */
  const Eszett: string := ['\U{C3}', '\U{9F}']

  /** The input with every "ss" written as "ß". */
  function EszettVariant(input: string): string {
    ReplaceAll(input, "ss", Eszett)
  }

  /** Both spellings occupy two bytes, so the variant is as long as the input. */
  lemma EszettVariantLength(input: string)
    ensures |EszettVariant(input)| == |input|
  {
    ReplaceAllLength(input, "ss", Eszett);
  }

  /** The variant is a different word exactly when the input contains "ss". */
  lemma EszettVariantDiffers(input: string)
    ensures EszettVariant(input) != input <==> Contains(input, "ss")
  {
    if Contains(input, "ss") {
      var i := IndexOf(input, "ss").value;
      var rest := input[i + 2..];
      assert Split(input, "ss") == [input[..i]] + Split(rest, "ss");
      var v := EszettVariant(input);
      assert v == input[..i] + Eszett + Join(Split(rest, "ss"), Eszett);
      assert v[i] == '\U{C3}';
      assert input[i..i + 2] == "ss";
      assert input[i] == 's';
    } else {
      ReplaceAllAbsent(input, "ss", Eszett);
    }
  }

  /** The lemmas looked up before merging: those of the input when it is in
      the dictionary, then those of the "ß" variant when that is a different
      word in the dictionary. */
  function RawLemmas(input: string, inDict: string -> bool, lemmasOf: string -> seq<string>): (r: seq<string>)
    ensures |r| <= |lemmasOf(input)| + |lemmasOf(EszettVariant(input))|
  {
    var direct := if inDict(input) then lemmasOf(input) else [];
    var variant := EszettVariant(input);
    direct + if inDict(variant) && variant != input then lemmasOf(variant) else []
  }

  /** The variant's lemmas are consulted exactly when the input contains
      "ss" and the variant is in the dictionary. */
  lemma RawLemmasUseVariant(input: string, inDict: string -> bool, lemmasOf: string -> seq<string>)
    ensures Contains(input, "ss") && inDict(EszettVariant(input)) ==>
      RawLemmas(input, inDict, lemmasOf)
        == (if inDict(input) then lemmasOf(input) else []) + lemmasOf(EszettVariant(input))
    ensures !(Contains(input, "ss") && inDict(EszettVariant(input))) ==>
      RawLemmas(input, inDict, lemmasOf) == (if inDict(input) then lemmasOf(input) else [])
  {
    EszettVariantDiffers(input);
  }

  /** The keys `formatResults` collects from `results`, taken one word at a
      time: a new word is added as it is, a word already present adds its
      lower-cased, title-cased form instead. */
  ghost function Formatted(results: seq<string>, title: string -> string, lower: string -> string): set<string>
    decreases |results|
  {
    if results == [] then {}
    else
      var seen := Formatted(results[..|results| - 1], title, lower);
      var w := results[|results| - 1];
      if w in seen then seen + {title(lower(w))} else seen + {w}
  }

  /** Every input word is among the keys. */
  lemma {:induction false} EveryInputKept(results: seq<string>, title: string -> string, lower: string -> string)
    ensures forall k :: 0 <= k < |results| ==> results[k] in Formatted(results, title, lower)
    decreases |results|
  {
    if results != [] {
      var init := results[..|results| - 1];
      EveryInputKept(init, title, lower);
      forall k | 0 <= k < |results| - 1
        ensures results[k] in Formatted(results, title, lower)
      {
        assert results[k] == init[k];
      }
    }
  }

  /** Every key is an input word or the title-cased form of one. */
  lemma {:induction false} OnlyInputsOrTitled(results: seq<string>, title: string -> string, lower: string -> string)
    ensures forall w :: w in Formatted(results, title, lower) ==>
      w in results || exists k :: 0 <= k < |results| && w == title(lower(results[k]))
    decreases |results|
  {
    if results != [] {
      var init := results[..|results| - 1];
      OnlyInputsOrTitled(init, title, lower);
      forall w | w in Formatted(results, title, lower)
        ensures w in results || exists k :: 0 <= k < |results| && w == title(lower(results[k]))
      {
        if w in Formatted(init, title, lower) {
          if w in init {
            assert w in results;
          } else {
            var k :| 0 <= k < |init| && w == title(lower(init[k]));
            assert results[k] == init[k];
          }
        } else {
          assert w == results[|results| - 1] || w == title(lower(results[|results| - 1]));
        }
      }
    }
  }

  /** Keys are never dropped as more words are taken. */
  lemma {:induction false} FormattedGrows(results: seq<string>, n: nat, title: string -> string, lower: string -> string)
    requires n <= |results|
    ensures Formatted(results[..n], title, lower) <= Formatted(results, title, lower)
    decreases |results| - n
  {
    if n < |results| {
      var init := results[..|results| - 1];
      assert init[..n] == results[..n];
      FormattedGrows(init, n, title, lower);
    } else {
      assert results[..n] == results;
    }
  }

  /** A word that occurs twice brings its title-cased form into the keys. */
  lemma RepeatGivesTitled(results: seq<string>, i: nat, j: nat, title: string -> string, lower: string -> string)
    requires i < j < |results| && results[i] == results[j]
    ensures title(lower(results[j])) in Formatted(results, title, lower)
  {
    var pre := results[..j];
    EveryInputKept(pre, title, lower);
    assert pre[i] == results[j];
    assert results[..j + 1][..j] == pre;
    assert title(lower(results[j])) in Formatted(results[..j + 1], title, lower);
    FormattedGrows(results, j + 1, title, lower);
  }

  /** Without repeated words the keys are exactly the input words. */
  lemma {:induction false} DistinctInputsKeptAsIs(results: seq<string>, title: string -> string, lower: string -> string)
    requires forall i, j :: 0 <= i < j < |results| ==> results[i] != results[j]
    ensures Formatted(results, title, lower) == set w | w in results
    decreases |results|
  {
    if results != [] {
      var init := results[..|results| - 1];
      DistinctInputsKeptAsIs(init, title, lower);
      var w := results[|results| - 1];
      assert results == init + [w];
      assert w !in init;
    }
  }

  /** `formatResults`: collects the keys in a map, then lists the map's keys
      in whatever order the map yields them. */
  method FormatResults(results: seq<string>, title: string -> string, lower: string -> string) returns (keys: seq<string>)
    ensures forall i, j :: 0 <= i < j < |keys| ==> keys[i] != keys[j]
    ensures (set w | w in keys) == Formatted(results, title, lower)
  {
    var newResults: map<string, bool> := map[];
    var i := 0;
    while i < |results|
      invariant 0 <= i <= |results|
      invariant newResults.Keys == Formatted(results[..i], title, lower)
    {
      assert results[..i + 1][..i] == results[..i];
      var word := results[i];
      if word in newResults {
        var withCaps := title(lower(word));
        if withCaps !in newResults {
          newResults := newResults[withCaps := true];
        }
      } else {
        newResults := newResults[word := true];
      }
      i := i + 1;
    }
    assert results[..i] == results;
    keys := ListKeys(newResults.Keys);
  }

  lemma AppendFresh(before: seq<string>, k: string)
    requires forall a, b :: 0 <= a < b < |before| ==> before[a] != before[b]
    requires k !in before
    ensures (set w | w in before + [k]) == (set w | w in before) + {k}
    ensures forall a, b :: 0 <= a < b < |before + [k]| ==> (before + [k])[a] != (before + [k])[b]
  {
  }

  /** The second half of `formatResults`: a slice as long as the key set,
      filled by index with the keys in the order they are visited. */
  method ListKeys(s: set<string>) returns (keys: seq<string>)
    ensures forall i, j :: 0 <= i < j < |keys| ==> keys[i] != keys[j]
    ensures (set w | w in keys) == s
  {
    keys := seq(|s|, _ => "");
    var remaining := s;
    var n := 0;
    while remaining != {}
      invariant 0 <= n <= |keys| == |s|
      invariant n + |remaining| == |s|
      invariant remaining <= s
      invariant (set w | w in keys[..n]) == s - remaining
      invariant forall a, b :: 0 <= a < b < n ==> keys[a] != keys[b]
      decreases |remaining|
    {
      var k :| k in remaining;
      ghost var before := keys[..n];
      assert k !in before;
      AppendFresh(before, k);
      keys := keys[n := k];
      assert keys[..n + 1] == before + [k];
      remaining := remaining - {k};
      n := n + 1;
    }
    assert keys[..n] == keys;
  }

  /** The lemmas of `input`, merged. */
  method Lemmas(input: string, inDict: string -> bool, lemmasOf: string -> seq<string>,
                title: string -> string, lower: string -> string) returns (words: seq<string>)
    ensures forall i, j :: 0 <= i < j < |words| ==> words[i] != words[j]
    ensures (set w | w in words) == Formatted(RawLemmas(input, inDict, lemmasOf), title, lower)
  {
    var results: seq<string> := [];
    if inDict(input) {
      results := results + lemmasOf(input);
    }
    var inputWithEszett := ReplaceAll(input, "ss", Eszett);
    if inDict(inputWithEszett) && inputWithEszett != input {
      results := results + lemmasOf(inputWithEszett);
    }
    assert results == RawLemmas(input, inDict, lemmasOf);
    words := FormatResults(results, title, lower);
  }

  /** A word that is in the dictionary under neither spelling has no lemmas. */
  lemma NoLemmasOutsideDictionary(input: string, inDict: string -> bool, lemmasOf: string -> seq<string>,
                                  title: string -> string, lower: string -> string)
    requires !inDict(input) && !inDict(EszettVariant(input))
    ensures RawLemmas(input, inDict, lemmasOf) == []
    ensures Formatted(RawLemmas(input, inDict, lemmasOf), title, lower) == {}
  {
  }
}
