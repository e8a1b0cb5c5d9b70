/**
  `ExperimentTranslationCollection`: the translations of an experiment, keyed
  by language code, and the one chosen for the app's current locale by a
  score over the code's base language, region and script.
*/
module TranslationCollection {
  import opened Doubles

  // ---------------------------------------------------------------------------
  // Language codes

  /** ASCII lower case; other characters are kept. */
  function Lower(c: char): (d: char)
    ensures 'A' <= c <= 'Z' ==> d as int == c as int + 32
    ensures !('A' <= c <= 'Z') ==> d == c
  {
    if 'A' <= c <= 'Z' then (c as int + 32) as char else c
  }

  function LowerString(s: string): (r: string)
    ensures |r| == |s| && forall i :: 0 <= i < |s| ==> r[i] == Lower(s[i])
  {
    seq(|s|, i requires 0 <= i < |s| => Lower(s[i]))
  }

  /** Lower-casing twice is lower-casing once. */
  lemma LowerStringIdempotent(s: string)
    ensures LowerString(LowerString(s)) == LowerString(s)
  {
    var once := LowerString(s);
    assert forall i :: 0 <= i < |s| ==> Lower(once[i]) == once[i];
  }

  predicate IsSeparator(c: char) {
    c == '-' || c == '_'
  }

  /** A piece as parsing leaves it: no separator and no upper-case letter. */
  predicate Clean(w: string) {
    forall i :: 0 <= i < |w| ==> !IsSeparator(w[i]) && !('A' <= w[i] <= 'Z')
  }

  /** Lower-cased text has no upper-case letter. */
  lemma LowerStringHasNoUpper(s: string)
    ensures forall i :: 0 <= i < |s| ==> !('A' <= LowerString(s)[i] <= 'Z')
  {
  }

  /**
    `components(separatedBy: "-_")`: the pieces between separators, empty ones
    included, so there is always at least one.
  */
  function Split(s: string): (parts: seq<string>)
    ensures |parts| >= 1
    ensures forall k :: 0 <= k < |parts| ==> forall i :: 0 <= i < |parts[k]| ==> !IsSeparator(parts[k][i])
  {
    if |s| == 0 then [""]
    else
      var rest := Split(s[1..]);
      if IsSeparator(s[0]) then [""] + rest
      else
        var parts := [[s[0]] + rest[0]] + rest[1..];
        assert forall k :: 1 <= k < |parts| ==> parts[k] == rest[k];
        parts
  }

  /** The pieces of text without upper-case letters have none either. */
  lemma {:induction false} SplitClean(s: string)
    requires forall i :: 0 <= i < |s| ==> !('A' <= s[i] <= 'Z')
    ensures forall k :: 0 <= k < |Split(s)| ==> Clean(Split(s)[k])
  {
    if |s| > 0 {
      SplitClean(s[1..]);
      var rest := Split(s[1..]);
      if !IsSeparator(s[0]) {
        var first := [s[0]] + rest[0];
        assert Clean(rest[0]);
        assert Clean(first);
        assert Split(s) == [first] + rest[1..];
      }
    }
  }

  /** The pieces joined again with '-'. */
  function Join(parts: seq<string>): string
    requires |parts| >= 1
  {
    if |parts| == 1 then parts[0] else parts[0] + "-" + Join(parts[1..])
  }

  function Dashed(s: string): (r: string)
    ensures |r| == |s| && forall i :: 0 <= i < |s| ==> r[i] == if IsSeparator(s[i]) then '-' else s[i]
  {
    seq(|s|, i requires 0 <= i < |s| => if IsSeparator(s[i]) then '-' else s[i])
  }

  /** Splitting loses nothing but which separator it was: joining with '-' gives the code back. */
  lemma {:induction false} JoinSplit(s: string)
    ensures Join(Split(s)) == Dashed(s)
  {
    if |s| > 0 {
      JoinSplit(s[1..]);
      var rest := Split(s[1..]);
      assert Dashed(s) == [Dashed(s)[0]] + Dashed(s[1..]);
      if IsSeparator(s[0]) {
        assert ([""] + rest)[1..] == rest;
      } else {
        JoinCons(s[0], rest);
      }
    }
  }

  /** A character glued to the front of the first part comes first in the joined text. */
  lemma {:induction false} JoinCons(c: char, rest: seq<string>)
    requires |rest| >= 1
    ensures Join([[c] + rest[0]] + rest[1..]) == [c] + Join(rest)
  {
    var parts := [[c] + rest[0]] + rest[1..];
    if |rest| == 1 {
      assert parts == [[c] + rest[0]];
    } else {
      assert parts[1..] == rest[1..];
      calc {
        Join(parts);
        ([c] + rest[0]) + "-" + Join(rest[1..]);
        [c] + (rest[0] + "-" + Join(rest[1..]));
        [c] + Join(rest);
      }
    }
  }

  /** A code's base language, region and script. */
  datatype CodeParts = CodeParts(base: string, region: string, script: string)

  /**
    The parts of a lower-cased code: the base is the first piece; with two or
    more pieces the region is the last one and the script the second one when
    there are three or more, else the region again; a single piece has neither.
  */
  function Parse(code: string): (p: CodeParts)
  {
    var parts := Split(LowerString(code));
    var base := parts[0];
    if |parts| > 1 then
      var region := parts[|parts| - 1];
      CodeParts(base, region, if |parts| > 2 then parts[1] else region)
    else CodeParts(base, "", "")
  }

  /**
    Every part is lower-case and free of separators, and a code without a
    separator is, lower-cased, its own base with neither region nor script.
  */
  lemma ParseParts(code: string)
    ensures var p := Parse(code);
            Clean(p.base) && Clean(p.region) && Clean(p.script)
    ensures (forall i :: 0 <= i < |code| ==> !IsSeparator(code[i])) ==> Parse(code) == CodeParts(LowerString(code), "", "")
  {
    LowerStringHasNoUpper(code);
    SplitClean(LowerString(code));
    SplitWordWhenClear(LowerString(code));
  }

  /** A code without separators splits into itself. */
  lemma SplitWordWhenClear(w: string)
    ensures (forall i :: 0 <= i < |w| ==> !IsSeparator(w[i])) ==> Split(w) == [w]
  {
    if forall i :: 0 <= i < |w| ==> !IsSeparator(w[i]) {
      SplitWord(w);
    }
  }

  /** Parsing does not see letter case. */
  lemma ParseIgnoresCase(code: string)
    ensures Parse(LowerString(code)) == Parse(code)
  {
    LowerStringIdempotent(code);
  }

  /** A piece without separators splits into itself. */
  lemma {:induction false} SplitWord(w: string)
    requires forall i :: 0 <= i < |w| ==> !IsSeparator(w[i])
    ensures Split(w) == [w]
  {
    if |w| > 0 {
      SplitWord(w[1..]);
      assert [w[0]] + w[1..] == w;
    }
  }

  /** A piece followed by a separator is the first part; the rest splits on its own. */
  lemma {:induction false} SplitAtSeparator(w: string, c: char, rest: string)
    requires forall i :: 0 <= i < |w| ==> !IsSeparator(w[i])
    requires IsSeparator(c)
    ensures Split(w + [c] + rest) == [w] + Split(rest)
  {
    var s := w + [c] + rest;
    if |w| == 0 {
      assert s[1..] == rest;
    } else {
      assert s[1..] == w[1..] + [c] + rest;
      SplitAtSeparator(w[1..], c, rest);
      assert [w[0]] + w[1..] == w;
    }
  }

  /** "de-Latn-AT" has base "de", script "latn" and region "at". */
  lemma ParseThreeParts()
    ensures Parse("de-Latn-AT") == CodeParts("de", "at", "latn")
  {
    assert LowerString("de-Latn-AT") == "de" + "-" + ("latn" + "-" + "at");
    SplitWord("at");
    SplitAtSeparator("latn", '-', "at");
    SplitAtSeparator("de", '-', "latn" + "-" + "at");
  }

  /** "en_US" has base "en", and region and script both "us". */
  lemma ParseTwoParts()
    ensures Parse("en_US") == CodeParts("en", "us", "us")
  {
    assert LowerString("en_US") == "en" + "_" + "us";
    SplitWord("us");
    SplitAtSeparator("en", '_', "us");
  }

  /** "fr" has base "fr" and neither region nor script. */
  lemma ParseOnePart()
    ensures Parse("fr") == CodeParts("fr", "", "")
  {
    assert LowerString("fr") == "fr";
    SplitWord("fr");
  }

  // ---------------------------------------------------------------------------
  // Rating

  /**
    The app's current locale, as `Locale(identifier:)` of the preferred
    localisation reports it; each part may be missing.
  */
  datatype AppLocale = AppLocale(languageCode: Option<string>, regionCode: Option<string>, scriptCode: Option<string>)

  /** A part equals the current locale's lower-cased part; a missing part equals nothing. */
  predicate Matches(part: string, current: Option<string>) {
    current.Some? && part == LowerString(current.value)
  }

  /**
    The rating of a language code. A missing or empty code rates 1. Otherwise
    a matching base language gives 100, a matching region 20, a matching script
    10, and English as the base 2 more.
  */
  function Rating(code: Option<string>, locale: AppLocale): (score: int)
    ensures code.None? || code.value == "" ==> score == 1
    ensures code.Some? && code.value != "" ==> 0 <= score <= 132
    ensures code.Some? && code.value != "" ==> (score >= 100 <==> Matches(Parse(code.value).base, locale.languageCode))
    ensures code.Some? && code.value != "" ==> (score % 10 == 2 <==> Parse(code.value).base == "en")
  {
    if code.None? || code.value == "" then 1
    else
      var p := Parse(code.value);
      (if Matches(p.base, locale.languageCode) then 100 else 0)
      + (if Matches(p.region, locale.regionCode) then 20 else 0)
      + (if Matches(p.script, locale.scriptCode) then 10 else 0)
      + (if p.base == "en" then 2 else 0)
  }

  /** `getLanguageRating(languageCode:)`: the score built up term by term. */
  method GetLanguageRating(languageCode: Option<string>, locale: AppLocale) returns (score: int)
    ensures score == Rating(languageCode, locale)
  {
    if languageCode.None? || languageCode.value == "" {
      return 1;
    }
    score := 0;
    var parts := Split(LowerString(languageCode.value));
    var baseLanguage := parts[0];
    var region: string;
    var script: string;
    if |parts| > 1 {
      region := parts[|parts| - 1];
      if |parts| > 2 {
        script := parts[1];
      } else {
        script := region;
      }
    } else {
      region := "";
      script := "";
    }
    if Matches(baseLanguage, locale.languageCode) {
      score := score + 100;
    }
    if Matches(region, locale.regionCode) {
      score := score + 20;
    }
    if Matches(script, locale.scriptCode) {
      score := score + 10;
    }
    if baseLanguage == "en" {
      score := score + 2;
    }
  }

  /** A code in the current base language beats every non-empty code in another one, whatever their regions. */
  lemma BaseLanguageDominates(c1: string, c2: string, locale: AppLocale)
    requires c1 != "" && c2 != ""
    requires Matches(Parse(c1).base, locale.languageCode) && !Matches(Parse(c2).base, locale.languageCode)
    ensures Rating(Some(c1), locale) > Rating(Some(c2), locale)
  {
  }

  /** A code in the current base language also beats the missing or empty code. */
  lemma BaseLanguageBeatsEmpty(c1: string, c2: Option<string>, locale: AppLocale)
    requires c1 != "" && (c2.None? || c2.value == "")
    requires Matches(Parse(c1).base, locale.languageCode)
    ensures Rating(Some(c1), locale) > Rating(c2, locale)
  {
  }

  /** A German locale in Germany with no script. */
  function GermanLocale(): AppLocale {
    AppLocale(Some("de"), Some("DE"), None)
  }

  /** There "de_DE" rates 120: base and region match; its script (the region again) has nothing to match. */
  lemma RatingRegionExample()
    ensures Rating(Some("de_DE"), GermanLocale()) == 120
  {
    assert LowerString("de_DE") == "de" + "_" + "de";
    assert LowerString("DE") == "de";
    SplitWord("de");
    SplitAtSeparator("de", '_', "de");
  }

  /** There "de" rates 100 and "en" only 2. */
  lemma RatingBaseExample()
    ensures Rating(Some("de"), GermanLocale()) == 100
    ensures Rating(Some("en"), GermanLocale()) == 2
  {
    assert LowerString("de") == "de" && LowerString("en") == "en";
    SplitWord("de");
    SplitWord("en");
  }

  // ---------------------------------------------------------------------------
  // Choosing a translation

  /** The strings of one translation; the other fields of a translation are not part of this model. */
  datatype Translation = Translation(translatedStrings: map<string, string>)

  datatype TranslationCollection = TranslationCollection(
    translations: map<string, Translation>,
    selectedTranslation: Option<Translation>)

  predicate NoDuplicateKeys(keys: seq<string>) {
    forall i, j :: 0 <= i < j < |keys| ==> keys[i] != keys[j]
  }

  /**
    `init(translations:defaultLanguageCode:)`. `keys` is the order in which the
    dictionary hands out its keys. Starting from the default code, a key is
    chosen only when it rates strictly higher than the choice so far, so the
    choice rates at least as high as the default and every key, the first key
    of the best rating wins, and the default stays unless a key beats it. The
    selected translation is the entry for the chosen code, absent when the
    default code is not a key.
  */
  method Init(translations: map<string, Translation>, defaultLanguageCode: string, keys: seq<string>, locale: AppLocale)
    returns (c: TranslationCollection, ghost selectedCode: string)
    requires NoDuplicateKeys(keys) && forall k :: k in keys <==> k in translations
    ensures c.translations == translations
    ensures selectedCode == defaultLanguageCode || selectedCode in translations
    ensures Rating(Some(selectedCode), locale) >= Rating(Some(defaultLanguageCode), locale)
    ensures forall k :: k in translations ==> Rating(Some(selectedCode), locale) >= Rating(Some(k), locale)
    ensures (forall k :: k in translations ==> Rating(Some(k), locale) <= Rating(Some(defaultLanguageCode), locale))
            ==> selectedCode == defaultLanguageCode
    ensures forall i, j :: 0 <= i < j < |keys| && keys[j] == selectedCode && selectedCode != defaultLanguageCode
                           ==> Rating(Some(keys[i]), locale) < Rating(Some(selectedCode), locale)
    ensures c.selectedTranslation == if selectedCode in translations then Some(translations[selectedCode]) else None
  {
    var selectedLanguageCode := defaultLanguageCode;
    var bestScore := GetLanguageRating(Some(defaultLanguageCode), locale);
    for n := 0 to |keys|
      invariant bestScore == Rating(Some(selectedLanguageCode), locale)
      invariant selectedLanguageCode == defaultLanguageCode || selectedLanguageCode in keys[..n]
      invariant bestScore >= Rating(Some(defaultLanguageCode), locale)
      invariant forall i :: 0 <= i < n ==> Rating(Some(keys[i]), locale) <= bestScore
      invariant (forall i :: 0 <= i < n ==> Rating(Some(keys[i]), locale) <= Rating(Some(defaultLanguageCode), locale))
                ==> selectedLanguageCode == defaultLanguageCode
      invariant forall i, j :: 0 <= i < j < n && keys[j] == selectedLanguageCode && selectedLanguageCode != defaultLanguageCode
                               ==> Rating(Some(keys[i]), locale) < bestScore
    {
      var code := keys[n];
      var score := GetLanguageRating(Some(code), locale);
      if score > bestScore {
        bestScore := score;
        selectedLanguageCode := code;
      }
    }
    assert keys[..|keys|] == keys;
    selectedCode := selectedLanguageCode;
    var selected := if selectedLanguageCode in translations then Some(translations[selectedLanguageCode]) else None;
    c := TranslationCollection(translations, selected);
  }

  /** `localize(_:)`: the selected translation's string when it has one, else the string itself. */
  function Localize(c: TranslationCollection, s: string): (r: string)
    ensures c.selectedTranslation.Some? && s in c.selectedTranslation.value.translatedStrings
            ==> r == c.selectedTranslation.value.translatedStrings[s]
    ensures !(c.selectedTranslation.Some? && s in c.selectedTranslation.value.translatedStrings) ==> r == s
  {
    match c.selectedTranslation
    case Some(t) => if s in t.translatedStrings then t.translatedStrings[s] else s
    case None => s
  }

  /** Without a selected translation every string stays as it is. */
  lemma LocalizeWithoutTranslation(c: TranslationCollection, s: string)
    requires c.selectedTranslation.None?
    ensures Localize(c, s) == s
  {
  }
}
