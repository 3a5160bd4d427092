/**
 * The page as the script sees it once the header has been injected: the
 * tagged elements and the translation state, the header's classes and the
 * body style, and the stored language preference. The browser APIs are
 * inputs: the pathname and the set of header elements are fixed when the
 * page is built, `navigator.language` is an argument, and the network is the
 * function `fetch` from URL to what that URL gives.
 */
module PageScript {
  import opened Wrappers
  import opened PagePaths
  import opened Translation
  import LanguageChoice
  import Header

  class Page {
    const pathname: string
    const elements: array<Element>
    const present: Header.Present

    var translations: Table   // currentTranslations
    var documentLang: string  // document.documentElement.lang
    ghost var requested: seq<string>  // every URL fetched for translations, in order

    var hamburgerActive: bool
    var overlayActive: bool
    var overflow: string      // document.body.style.overflow
    var selectorActive: bool
    var storedLanguage: Option<string>  // localStorage 'userLanguage'

    /** The header part of the state, as the pure transitions see it. */
    function Ui(): Header.Ui
      reads this
    {
      Header.Ui(hamburgerActive, overlayActive, overflow, selectorActive, storedLanguage)
    }

    /** A freshly loaded page: menu and selector closed, no inline overflow, nothing translated yet. */
    constructor (pathname: string, elements: array<Element>, present: Header.Present,
                 documentLang: string, storedLanguage: Option<string>)
      ensures this.pathname == pathname && this.elements == elements && this.present == present
      ensures this.documentLang == documentLang && translations == map[] && requested == []
      ensures Ui() == Header.Ui(false, false, "", false, storedLanguage)
      ensures Header.InSync(Ui())
    {
      this.pathname := pathname;
      this.elements := elements;
      this.present := present;
      this.documentLang := documentLang;
      this.storedLanguage := storedLanguage;
      translations := map[];
      requested := [];
      hamburgerActive, overlayActive, overflow, selectorActive := false, false, "", false;
    }

    /** loadTranslations(lang), run to completion. */
    method Load(lang: string, fetch: string -> Fetched)
      modifies this, elements
      ensures requested == old(requested) + Requests(pathname, lang, fetch)
      ensures match LoadOutcome(pathname, lang, fetch)
        case Loaded(l, t) =>
          translations == t && documentLang == l && elements[..] == ApplyAll(t, old(elements[..]))
        case NotLoaded =>
          translations == old(translations) && documentLang == old(documentLang) &&
          elements[..] == old(elements[..])
      ensures Ui() == old(Ui())
      decreases if lang == Fallback then 0 else 1
    {
      var url := TranslationUrl(pathname, lang);
      requested := requested + [url];
      var response := fetch(url);
      match response {
        case HttpError =>
          if lang != Fallback {
            Load(Fallback, fetch);
          }
        case Thrown =>
        case Json(t) =>
          translations := t;
          documentLang := lang;
          ApplyTranslations(t, elements);
      }
    }

    /** initializeLanguage, with `navigator.language` as its argument. */
    method InitializeLanguage(browserLang: string, fetch: string -> Fetched)
      modifies this, elements
      ensures var lang := LanguageChoice.ChooseLanguage(old(storedLanguage), browserLang);
        requested == old(requested) + Requests(pathname, lang, fetch) &&
        match LoadOutcome(pathname, lang, fetch)
        case Loaded(l, t) =>
          translations == t && documentLang == l && elements[..] == ApplyAll(t, old(elements[..]))
        case NotLoaded =>
          translations == old(translations) && documentLang == old(documentLang) &&
          elements[..] == old(elements[..])
      ensures Ui() == old(Ui())
    {
      var lang := LanguageChoice.ChooseLanguage(storedLanguage, browserLang);
      Load(lang, fetch);
    }

    /** toggleMenu */
    method ToggleMenu()
      modifies this
      ensures Ui() == Header.ToggleMenu(present, old(Ui()))
      ensures translations == old(translations) && documentLang == old(documentLang)
      ensures requested == old(requested)
    {
      if present.hamburger && present.overlay {
        hamburgerActive := !hamburgerActive;
        overlayActive := !overlayActive;
        overflow := if overlayActive then "hidden" else "";
      }
    }

    /**
     * One click, delivered to its target's listener and then, unless the
     * language button stopped it, to the document's listener. A language
     * option also starts loading its language.
     */
    method Click(c: Header.Click, fetch: string -> Fetched)
      modifies this, elements
      ensures Ui() == Header.Dispatch(present, old(Ui()), c)
      ensures c.target.LangOption? && Header.SelectorWired(present) ==>
        var lang := Header.DataLangText(c.target.dataLang);
        requested == old(requested) + Requests(pathname, lang, fetch) &&
        match LoadOutcome(pathname, lang, fetch)
        case Loaded(l, t) =>
          translations == t && documentLang == l && elements[..] == ApplyAll(t, old(elements[..]))
        case NotLoaded =>
          translations == old(translations) && documentLang == old(documentLang) &&
          elements[..] == old(elements[..])
      ensures !(c.target.LangOption? && Header.SelectorWired(present)) ==>
        requested == old(requested) && translations == old(translations) &&
        documentLang == old(documentLang) && elements[..] == old(elements[..])
    {
      var t := c.target;
      if t.HamburgerButton? || t.CloseButton? {
        if Header.MenuWired(present) {
          ToggleMenu();
        }
      } else if t.MenuLink? {
        if Header.MenuWired(present) && overlayActive {
          ToggleMenu();
        }
      } else if t.LangButton? {
        if Header.SelectorWired(present) {
          selectorActive := !selectorActive;
        }
      } else if t.LangOption? {
        if Header.SelectorWired(present) {
          var lang := Header.DataLangText(t.dataLang);
          Load(lang, fetch);
          storedLanguage := Some(lang);
          selectorActive := false;
        }
      }
      if Header.SelectorWired(present) && Header.ReachesDocument(present, c) {
        if selectorActive && !c.insideSelector {
          selectorActive := false;
        }
      }
    }
  }
}
