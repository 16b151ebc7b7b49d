/** Pinyin helpers of the Chinese reader: pairing each tone-marked syllable
    with the tone number of the matching numbered syllable, and the colour
    class of a tone. */
module ChineseDomain {
  import opened Wrappers
  import opened Strings

  /** A dictionary entry's two pinyin renderings, e.g. "nǐ hǎo" and "ni3 hao3". */
  datatype PinyinEntry = PinyinEntry(pinyinTones: string, pinyin: string)

  datatype ReadingPair = ReadingPair(reading: string, tone: int)

  /** The longest run of digits at the start of `s`. */
  function LeadingDigits(s: string): (r: string)
    ensures AllDigits(r) && IsPrefix(r, s)
    ensures |r| == |s| || !IsDigit(s[|r|])
  {
    if s == [] || !IsDigit(s[0]) then [] else [s[0]] + LeadingDigits(s[1..])
  }

  /** The position of the first digit of `s`, if it has one. */
  function FirstDigit(s: string): (r: Option<nat>)
    ensures r.None? <==> forall i :: 0 <= i < |s| ==> !IsDigit(s[i])
    ensures r.Some? ==> r.value < |s| && IsDigit(s[r.value])
    ensures r.Some? ==> forall i :: 0 <= i < r.value ==> !IsDigit(s[i])
  {
    if s == [] then None
    else if IsDigit(s[0]) then Some(0)
    else match FirstDigit(s[1..])
      case None => None
      case Some(i) => Some(i + 1)
  }

  /** `Number(token.match(/\d+/))`, or -1 when the token has no digit: the
      value of the first run of digits. */
  function Tone(token: string): (r: int)
    ensures r == -1 <==> forall i :: 0 <= i < |token| ==> !IsDigit(token[i])
  {
    match FirstDigit(token)
    case None => -1
    case Some(i) => ParseDigits(LeadingDigits(token[i..]))
  }

  /** A numbered syllable carries its tone: "hao" + "3" has tone 3. */
  lemma ToneOfNumberedSyllable(syllable: string, d: nat)
    requires d < 10
    requires forall i :: 0 <= i < |syllable| ==> !IsDigit(syllable[i])
    ensures Tone(syllable + [DigitChar(d)]) == d
  {
    var s := syllable + [DigitChar(d)];
    assert IsDigit(s[|syllable|]);
    var i := FirstDigit(s).value;
    assert i == |syllable|;
    assert s[i..] == [DigitChar(d)];
    assert LeadingDigits([DigitChar(d)]) == [DigitChar(d)];
    assert [DigitChar(d)][..0] == [];
    assert ParseDigits([DigitChar(d)]) == 10 * ParseDigits([]) + DigitValue(DigitChar(d));
  }

  /** `getReadingPairs`: one pair per space-separated tone-marked syllable,
      lowercased, with the tone of the numbered syllable at the same place;
      numbered syllables past the last tone-marked one are ignored. None
      when the numbered pinyin has fewer syllables: the missing one is
      undefined and calling `match` on it throws a TypeError. */
  function ReadingPairs(entry: PinyinEntry, lower: string -> string): (r: Option<seq<ReadingPair>>)
    ensures r.None? <==> |Split(entry.pinyinTones, " ")| > |Split(entry.pinyin, " ")|
    ensures r.Some? ==> |r.value| == |Split(entry.pinyinTones, " ")|
    ensures r.Some? ==> forall k :: 0 <= k < |r.value| ==> r.value[k].reading == lower(Split(entry.pinyinTones, " ")[k])
    ensures r.Some? ==> forall k :: 0 <= k < |r.value| ==> r.value[k].tone == Tone(Split(entry.pinyin, " ")[k])
  {
    var readings := Split(entry.pinyinTones, " ");
    var numbered := Split(entry.pinyin, " ");
    if |readings| > |numbered| then None
    else Some(seq(|readings|, k requires 0 <= k < |readings| => ReadingPair(lower(readings[k]), Tone(numbered[k]))))
  }

  /** `toneToColor`: tones 1 to 4 have a colour class, anything else none. */
  function ToneToColor(tone: int): (r: string)
    ensures r != "" <==> 1 <= tone <= 4
    ensures tone == 1 ==> r == "text-red-500 dark:text-red-600"
    ensures tone == 2 ==> r == "text-orange-500 dark:text-orange-400"
    ensures tone == 3 ==> r == "text-green-500 dark:text-green-300"
    ensures tone == 4 ==> r == "text-blue-500 dark:text-blue-400"
  {
    if tone == 1 then "text-red-500 dark:text-red-600"
    else if tone == 2 then "text-orange-500 dark:text-orange-400"
    else if tone == 3 then "text-green-500 dark:text-green-300"
    else if tone == 4 then "text-blue-500 dark:text-blue-400"
    else ""
  }
}
