/**
 * Translation tables and how loading one changes the page: every element
 * tagged with a key whose table entry is a non-empty string gets that string
 * as its content; a failed fetch of a language other than English falls
 * back to English, once.
 */
module Translation {
  import opened PagePaths

  /** A parsed language file: key to HTML snippet. */
  type Table = map<string, string>

  /** An element carrying `data-i18n-key`, with its current content. */
  datatype Element = Element(key: string, content: string)

  /** `currentTranslations[key]` is truthy: present and not the empty string. */
  predicate HasText(table: Table, key: string)
  {
    key in table && table[key] != ""
  }

  /** One iteration of the loop body: replace the content when the key has text. */
  function Translate(table: Table, e: Element): (r: Element)
    ensures r.key == e.key
    ensures HasText(table, e.key) ==> r.content == table[e.key]
    ensures !HasText(table, e.key) ==> r == e
  {
    if HasText(table, e.key) then e.(content := table[e.key]) else e
  }

  /** The elements after the whole loop has run over them. */
  function ApplyAll(table: Table, es: seq<Element>): (r: seq<Element>)
    ensures |r| == |es|
    ensures forall i :: 0 <= i < |es| ==> r[i].key == es[i].key
    ensures forall i :: 0 <= i < |es| ==>
      r[i].content == if HasText(table, es[i].key) then table[es[i].key] else es[i].content
  {
    seq(|es|, i requires 0 <= i < |es| => Translate(table, es[i]))
  }

  /** The `forEach` over the tagged elements, updating each in place. */
  method ApplyTranslations(table: Table, elements: array<Element>)
    modifies elements
    ensures elements[..] == ApplyAll(table, old(elements[..]))
  {
    for i := 0 to elements.Length
      invariant forall k :: 0 <= k < i ==> elements[k] == Translate(table, old(elements[k]))
      invariant forall k :: i <= k < elements.Length ==> elements[k] == old(elements[k])
    {
      elements[i] := Translate(table, elements[i]);
    }
  }

  /** Applying the same table a second time changes nothing. */
  lemma ApplyIdempotent(table: Table, es: seq<Element>)
    ensures ApplyAll(table, ApplyAll(table, es)) == ApplyAll(table, es)
  {
  }

  /**
   * The table whose application equals applying `first` and then `second`:
   * the text of `second` where it has some, else that of `first`.
   */
  function Overlay(first: Table, second: Table): (t: Table)
    ensures forall k :: HasText(t, k) <==> HasText(first, k) || HasText(second, k)
    ensures forall k :: HasText(second, k) ==> k in t && t[k] == second[k]
    ensures forall k :: HasText(first, k) && !HasText(second, k) ==> k in t && t[k] == first[k]
  {
    map k | k in first.Keys + second.Keys ::
      if HasText(second, k) || k !in first then second[k] else first[k]
  }

  /**
   * Loading a second language after a first leaves the first one's text on
   * every element the second table has no text for.
   */
  lemma ApplySequence(first: Table, second: Table, es: seq<Element>)
    ensures ApplyAll(second, ApplyAll(first, es)) == ApplyAll(Overlay(first, second), es)
  {
    var lhs := ApplyAll(second, ApplyAll(first, es));
    var rhs := ApplyAll(Overlay(first, second), es);
    forall i | 0 <= i < |es| ensures lhs[i] == rhs[i] {
    }
  }

  // Loading a language file.

  /** What `fetch` and `response.json()` give for one URL. */
  datatype Fetched =
    | Json(table: Table)  // response.ok and the body parsed
    | HttpError           // !response.ok
    | Thrown              // fetch or response.json() threw; the catch logs it

  /** Which language file, if any, a call of loadTranslations ends up applying. */
  datatype Outcome = Loaded(lang: string, table: Table) | NotLoaded

  const Fallback: string := "en"

  /** The end result of `loadTranslations(lang)` on page `pathname`. */
  function LoadOutcome(pathname: string, lang: string, fetch: string -> Fetched): (o: Outcome)
    ensures o.Loaded? ==> fetch(TranslationUrl(pathname, o.lang)) == Json(o.table)
    ensures o.Loaded? && o.lang != lang ==>
      o.lang == Fallback && lang != Fallback && fetch(TranslationUrl(pathname, lang)) == HttpError
    ensures fetch(TranslationUrl(pathname, lang)).Json? ==> o.Loaded? && o.lang == lang
    ensures o.NotLoaded? <==>
      fetch(TranslationUrl(pathname, lang)).Thrown? ||
      (fetch(TranslationUrl(pathname, lang)).HttpError? &&
       (lang == Fallback || !fetch(TranslationUrl(pathname, Fallback)).Json?))
    decreases if lang == Fallback then 0 else 1
  {
    match fetch(TranslationUrl(pathname, lang))
    case Json(t) => Loaded(lang, t)
    case HttpError => if lang != Fallback then LoadOutcome(pathname, Fallback, fetch) else NotLoaded
    case Thrown => NotLoaded
  }

  /** The URLs `loadTranslations(lang)` requests, in order. */
  function Requests(pathname: string, lang: string, fetch: string -> Fetched): (r: seq<string>)
    ensures 1 <= |r| <= 2 && r[0] == TranslationUrl(pathname, lang)
    ensures |r| == 2 <==> lang != Fallback && fetch(TranslationUrl(pathname, lang)).HttpError?
    ensures |r| == 2 ==> r[1] == TranslationUrl(pathname, Fallback)
    decreases if lang == Fallback then 0 else 1
  {
    var url := TranslationUrl(pathname, lang);
    if fetch(url).HttpError? && lang != Fallback then [url] + Requests(pathname, Fallback, fetch)
    else [url]
  }
}
