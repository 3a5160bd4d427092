/**
 * The rule that picks the language a page loads first: a saved choice wins,
 * otherwise the browser's language tag is matched against a fixed list of
 * prefixes and exact tags, and English is the default.
 */
module LanguageChoice {
  import opened Wrappers

  const DefaultLanguage: string := "en"

  /** Every language the rule can produce without a saved choice. */
  const BuiltInLanguages: set<string> := {"en", "fr-CA", "th", "ja", "zh-CN", "zh-TW"}

  /** JavaScript truthiness of what the storage lookup answers: `null` and `""` are falsy. */
  predicate IsTruthy(saved: Option<string>)
  {
    saved.Some? && saved.value != ""
  }

  /** `s.startsWith(prefix)` */
  predicate StartsWith(s: string, prefix: string)
  {
    prefix <= s
  }

  /**
   * The language to load, from the saved choice and the browser's tag
   * (the if / else-if chain of initializeLanguage). Each ensures says, for one
   * possible answer, exactly which inputs produce it.
   */
  function ChooseLanguage(saved: Option<string>, browserLang: string): (r: string)
    ensures IsTruthy(saved) ==> r == saved.value
    ensures !IsTruthy(saved) ==> r in BuiltInLanguages
    ensures !IsTruthy(saved) ==> (r == "fr-CA" <==> StartsWith(browserLang, "fr"))
    ensures !IsTruthy(saved) ==> (r == "th" <==> StartsWith(browserLang, "th"))
    ensures !IsTruthy(saved) ==> (r == "ja" <==> StartsWith(browserLang, "ja"))
    ensures !IsTruthy(saved) ==>
      (r == "zh-CN" <==> browserLang == "zh-CN" || browserLang == "zh-SG")
    ensures !IsTruthy(saved) ==>
      (r == "zh-TW" <==> StartsWith(browserLang, "zh") && browserLang != "zh-CN" && browserLang != "zh-SG")
    ensures !IsTruthy(saved) ==>
      (r == DefaultLanguage <==>
        !StartsWith(browserLang, "fr") && !StartsWith(browserLang, "th") &&
        !StartsWith(browserLang, "ja") && !StartsWith(browserLang, "zh"))
  {
    if IsTruthy(saved) then saved.value
    else if StartsWith(browserLang, "fr") then
      assert browserLang[0] == 'f' && browserLang[1] == 'r';
      "fr-CA"
    else if StartsWith(browserLang, "th") then
      assert browserLang[0] == 't' && browserLang[1] == 'h';
      "th"
    else if StartsWith(browserLang, "ja") then
      assert browserLang[0] == 'j' && browserLang[1] == 'a';
      "ja"
    else if browserLang == "zh-CN" || browserLang == "zh-SG" then
      assert browserLang[0] == 'z' && browserLang[1] == 'h';
      "zh-CN"
    else if StartsWith(browserLang, "zh") then
      assert browserLang[0] == 'z' && browserLang[1] == 'h';
      "zh-TW"
    else DefaultLanguage
  }

  // An independent, table-driven statement of the same rule.

  /** One line of the browser-tag table: a prefix test or an exact test, and the language it selects. */
  datatype Rule = Prefix(prefix: string, lang: string) | Exact(tag: string, lang: string)

  predicate Matches(rule: Rule, tag: string)
  {
    match rule
    case Prefix(p, _) => StartsWith(tag, p)
    case Exact(t, _) => tag == t
  }

  /** The browser-tag rules, in the order they are tried. */
  const BrowserRules: seq<Rule> := [
    Prefix("fr", "fr-CA"),
    Prefix("th", "th"),
    Prefix("ja", "ja"),
    Exact("zh-CN", "zh-CN"),
    Exact("zh-SG", "zh-CN"),
    Prefix("zh", "zh-TW")
  ]

  /** The language of the first rule that matches `tag`, if any does. */
  function FirstMatch(rules: seq<Rule>, tag: string): (r: Option<string>)
    ensures r.None? <==> forall i :: 0 <= i < |rules| ==> !Matches(rules[i], tag)
    ensures r.Some? ==>
      exists i :: 0 <= i < |rules| && Matches(rules[i], tag) && r.value == rules[i].lang &&
        forall j :: 0 <= j < i ==> !Matches(rules[j], tag)
  {
    if rules == [] then None
    else if Matches(rules[0], tag) then Some(rules[0].lang)
    else
      var r := FirstMatch(rules[1..], tag);
      assert forall i :: 1 <= i < |rules| ==> rules[i] == rules[1..][i - 1];
      r
  }

  /** The chain of initializeLanguage is the saved choice, else the first matching table rule, else English. */
  lemma ChooseIsFirstMatchingRule(saved: Option<string>, browserLang: string)
    ensures ChooseLanguage(saved, browserLang) ==
      if IsTruthy(saved) then saved.value else FirstMatch(BrowserRules, browserLang).GetOr(DefaultLanguage)
  {
    var rs := BrowserRules;
    assert rs[1..] == [rs[1], rs[2], rs[3], rs[4], rs[5]];
    assert rs[1..][1..] == [rs[2], rs[3], rs[4], rs[5]];
    assert rs[1..][1..][1..] == [rs[3], rs[4], rs[5]];
    assert rs[1..][1..][1..][1..] == [rs[4], rs[5]];
    assert rs[1..][1..][1..][1..][1..] == [rs[5]];
    assert rs[1..][1..][1..][1..][1..][1..] == [];
  }
}
