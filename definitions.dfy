/** `SupportedLanguages` and its case-insensitive lookup. */
module Definitions {
  import opened Wrappers
  import opened PyStr

  datatype SupportedLanguage = EN | RU

  /** The members in definition order. */
  const Languages: seq<SupportedLanguage> := [EN, RU]

  function Value(l: SupportedLanguage): string {
    match l
    case EN => "en"
    case RU => "ru"
  }

  /** The members' values stay apart under lower-casing. */
  lemma ValuesDistinct(l: SupportedLanguage, m: SupportedLanguage)
    ensures Lower(Value(l)) == Lower(Value(m)) ==> l == m
  {
    if l != m {
      assert Lower(Value(l))[0] != Lower(Value(m))[0];
    }
  }

  /** `get_language`: the member whose value equals `language` when both
      are lower-cased, found by walking the members in order; `None` when
      there is none. */
  method GetLanguage(language: string) returns (r: Option<SupportedLanguage>)
    ensures r.Some? ==> Lower(Value(r.value)) == Lower(language)
    ensures r.None? <==> forall l: SupportedLanguage :: Lower(Value(l)) != Lower(language)
    ensures forall l: SupportedLanguage :: r == Some(l) <==> Lower(Value(l)) == Lower(language)
  {
    for i := 0 to |Languages|
      invariant forall j :: 0 <= j < i ==> Lower(Value(Languages[j])) != Lower(language)
    {
      var lang := Languages[i];
      if Lower(Value(lang)) == Lower(language) {
        forall l: SupportedLanguage
          ensures Some(lang) == Some(l) <==> Lower(Value(l)) == Lower(language)
        {
          ValuesDistinct(lang, l);
        }
        return Some(lang);
      }
    }
    forall l: SupportedLanguage
      ensures Lower(Value(l)) != Lower(language)
    {
      assert l == Languages[0] || l == Languages[1];
    }
    return None;
  }

  /** The spellings the configuration uses pick the members they name:
      "EN" and "en" are `EN`, "ru" and "RU" are `RU`, and the lookup is
      insensitive to case in general. */
  lemma LanguageSpellings(language: string)
    ensures Lower("EN") == Value(EN) && Lower("en") == Value(EN)
    ensures Lower("RU") == Value(RU) && Lower("ru") == Value(RU)
    ensures forall l: SupportedLanguage :: Lower(Value(l)) == Lower(language) <==> Lower(Value(l)) == Lower(Lower(language))
  {
    LowerIdempotent(language);
    assert Lower("EN") == "en";
    assert Lower("RU") == "ru";
    assert Lower("en") == "en";
    assert Lower("ru") == "ru";
    assert Lower(Value(EN)) == "en" && Lower(Value(RU)) == "ru";
  }
}
