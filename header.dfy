/**
 * The menu and language-selector behaviour of the injected header, as
 * transitions on the part of the page state they touch: the two `active`
 * classes of the menu, the body's `overflow` style, the selector's
 * `active` class and the stored language preference.
 */
module Header {
  import opened Wrappers
  import LanguageChoice

  /** Which of the elements the header code looks up exist on the page. */
  datatype Present = Present(
    hamburger: bool, overlay: bool, closeButton: bool,
    langSelector: bool, langButton: bool, langDropdown: bool)

  /** The menu listeners are attached only when all three menu elements exist. */
  predicate MenuWired(p: Present)
  {
    p.hamburger && p.overlay && p.closeButton
  }

  /** The selector listeners are attached only when all three selector elements exist. */
  predicate SelectorWired(p: Present)
  {
    p.langButton && p.langDropdown && p.langSelector
  }

  datatype Ui = Ui(
    hamburgerActive: bool,
    overlayActive: bool,
    overflow: string,
    selectorActive: bool,
    storedLanguage: Option<string>)

  /** The body overflow toggleMenu derives from the overlay. */
  function OverflowFor(overlayActive: bool): string
  {
    if overlayActive then "hidden" else ""
  }

  /** Both menu classes agree and the body scrolls exactly when the menu is closed. */
  predicate InSync(u: Ui)
  {
    u.hamburgerActive == u.overlayActive && u.overflow == OverflowFor(u.overlayActive)
  }

  /** toggleMenu */
  function ToggleMenu(p: Present, u: Ui): (r: Ui)
    ensures !(p.hamburger && p.overlay) ==> r == u
    ensures p.hamburger && p.overlay ==>
      r.hamburgerActive == !u.hamburgerActive && r.overlayActive == !u.overlayActive &&
      (r.overflow == "hidden" <==> r.overlayActive) && (r.overflow == "" <==> !r.overlayActive)
    ensures r.selectorActive == u.selectorActive && r.storedLanguage == u.storedLanguage
  {
    if p.hamburger && p.overlay then
      var overlay := !u.overlayActive;
      u.(hamburgerActive := !u.hamburgerActive, overlayActive := overlay, overflow := OverflowFor(overlay))
    else u
  }

  /** The listener on each menu link: toggle only when the menu is open. */
  function LinkClick(p: Present, u: Ui): (r: Ui)
    requires p.hamburger && p.overlay
    ensures !u.overlayActive ==> r == u
    ensures u.overlayActive ==> !r.overlayActive && r.overflow == "" && r.hamburgerActive == !u.hamburgerActive
    ensures InSync(u) ==> InSync(r) && !r.hamburgerActive
    ensures r.selectorActive == u.selectorActive && r.storedLanguage == u.storedLanguage
  {
    if u.overlayActive then ToggleMenu(p, u) else u
  }

  /** The language button's listener (it also stops the click from reaching the document). */
  function LangButtonClick(u: Ui): (r: Ui)
    ensures r.selectorActive == !u.selectorActive
    ensures r.(selectorActive := u.selectorActive) == u
  {
    u.(selectorActive := !u.selectorActive)
  }

  /** The document's listener: a click outside an open selector closes it. */
  function DocumentClick(u: Ui, insideSelector: bool): (r: Ui)
    ensures insideSelector ==> r == u
    ensures !insideSelector ==> !r.selectorActive
    ensures r.(selectorActive := u.selectorActive) == u
  {
    if u.selectorActive && !insideSelector then u.(selectorActive := false) else u
  }

  /** The string JavaScript stores for `getAttribute('data-lang')`; a missing attribute is `null`, stored as "null". */
  function DataLangText(dataLang: Option<string>): (r: string)
    ensures dataLang.Some? ==> r == dataLang.value
    ensures dataLang.None? ==> r == "null"
  {
    match dataLang
    case Some(l) => l
    case None => "null"
  }

  /** The listener on each language option: persist the choice and close the selector. */
  function OptionClick(u: Ui, dataLang: Option<string>): (r: Ui)
    ensures r.storedLanguage == Some(DataLangText(dataLang))
    ensures !r.selectorActive
    ensures r.hamburgerActive == u.hamburgerActive && r.overlayActive == u.overlayActive && r.overflow == u.overflow
  {
    u.(storedLanguage := Some(DataLangText(dataLang)), selectorActive := false)
  }

  /** What was clicked. */
  datatype Target =
    | HamburgerButton
    | CloseButton
    | MenuLink
    | LangButton
    | LangOption(dataLang: Option<string>)
    | Elsewhere

  /** A click, and whether its target lies inside the `.lang-selector` element. */
  datatype Click = Click(target: Target, insideSelector: bool)

  /** The menu part of the state is the same in `r` and `u`. */
  predicate MenuUnchanged(r: Ui, u: Ui)
  {
    r.hamburgerActive == u.hamburgerActive && r.overlayActive == u.overlayActive && r.overflow == u.overflow
  }

  /** The selector part of the state, and the stored language, are the same in `r` and `u`. */
  predicate SelectorUnchanged(r: Ui, u: Ui)
  {
    r.selectorActive == u.selectorActive && r.storedLanguage == u.storedLanguage
  }

  /** The target's own listener, if one was attached. */
  function TargetHandler(p: Present, u: Ui, t: Target): (r: Ui)
    ensures (t.HamburgerButton? || t.CloseButton?) && MenuWired(p) ==>
      r.hamburgerActive == !u.hamburgerActive && r.overlayActive == !u.overlayActive &&
      r.overflow == OverflowFor(r.overlayActive)
    ensures t.MenuLink? && MenuWired(p) && u.overlayActive ==>
      !r.overlayActive && r.hamburgerActive == !u.hamburgerActive && r.overflow == ""
    ensures t.MenuLink? && !u.overlayActive ==> r == u
    ensures (t.HamburgerButton? || t.CloseButton? || t.MenuLink?) ==>
      SelectorUnchanged(r, u) && (!MenuWired(p) ==> r == u)
    ensures t.LangButton? && SelectorWired(p) ==> r.selectorActive == !u.selectorActive
    ensures t.LangButton? ==> r.storedLanguage == u.storedLanguage
    ensures t.LangOption? && SelectorWired(p) ==>
      r.storedLanguage == Some(DataLangText(t.dataLang)) && !r.selectorActive
    ensures (t.LangButton? || t.LangOption?) ==>
      MenuUnchanged(r, u) && (!SelectorWired(p) ==> r == u)
    ensures t.Elsewhere? ==> r == u
  {
    match t
    case HamburgerButton => if MenuWired(p) then ToggleMenu(p, u) else u
    case CloseButton => if MenuWired(p) then ToggleMenu(p, u) else u
    case MenuLink => if MenuWired(p) then LinkClick(p, u) else u
    case LangButton => if SelectorWired(p) then LangButtonClick(u) else u
    case LangOption(l) => if SelectorWired(p) then OptionClick(u, l) else u
    case Elsewhere => u
  }

  /** The handler of the language button stops propagation, so the document never sees that click. */
  function ReachesDocument(p: Present, c: Click): (r: bool)
    ensures !c.target.LangButton? ==> r
    ensures c.target.LangButton? ==> (r <==> !SelectorWired(p))
  {
    !(c.target.LangButton? && SelectorWired(p))
  }

  /** One click: the target's listener, then the document's listener if the click bubbles up to it. */
  function Dispatch(p: Present, u: Ui, c: Click): (r: Ui)
    ensures var v := TargetHandler(p, u, c.target);
      MenuUnchanged(r, v) && r.storedLanguage == v.storedLanguage &&
      (!SelectorWired(p) || !ReachesDocument(p, c) || c.insideSelector ==> r == v) &&
      (SelectorWired(p) && ReachesDocument(p, c) && !c.insideSelector ==> !r.selectorActive)
    ensures !SelectorWired(p) ==> SelectorUnchanged(r, u)
    ensures !MenuWired(p) ==> MenuUnchanged(r, u)
  {
    var v := TargetHandler(p, u, c.target);
    if SelectorWired(p) && ReachesDocument(p, c) then DocumentClick(v, c.insideSelector) else v
  }

  /** A sequence of clicks, in order. Parts whose listeners are missing never change. */
  function Run(p: Present, u: Ui, clicks: seq<Click>): (r: Ui)
    ensures !SelectorWired(p) ==> SelectorUnchanged(r, u)
    ensures !MenuWired(p) ==> MenuUnchanged(r, u)
    decreases |clicks|
  {
    if clicks == [] then u else Run(p, Dispatch(p, u, clicks[0]), clicks[1..])
  }

  /** Running two sequences of clicks is running the first and then the second. */
  lemma {:induction false} RunAppend(p: Present, u: Ui, first: seq<Click>, second: seq<Click>)
    ensures Run(p, u, first + second) == Run(p, Run(p, u, first), second)
    decreases |first|
  {
    if first == [] {
      assert first + second == second;
    } else {
      assert (first + second)[1..] == first[1..] + second;
      RunAppend(p, Dispatch(p, u, first[0]), first[1..], second);
    }
  }

  /** Toggling twice gives the flags back, and the whole state when overflow was the derived one. */
  lemma ToggleTwice(p: Present, u: Ui)
    ensures var r := ToggleMenu(p, ToggleMenu(p, u));
      r.hamburgerActive == u.hamburgerActive && r.overlayActive == u.overlayActive
    ensures u.overflow == OverflowFor(u.overlayActive) ==> ToggleMenu(p, ToggleMenu(p, u)) == u
  {
  }

  /** Toggling keeps the two menu flags equal when they were equal. */
  lemma ToggleKeepsFlagsEqual(p: Present, u: Ui)
    ensures var r := ToggleMenu(p, u);
      (r.hamburgerActive == r.overlayActive) <==> (u.hamburgerActive == u.overlayActive)
  {
  }

  /** Every click keeps the menu in sync. */
  lemma DispatchKeepsInSync(p: Present, u: Ui, c: Click)
    requires InSync(u)
    ensures InSync(Dispatch(p, u, c))
  {
  }

  /** Any sequence of clicks keeps the menu in sync. */
  lemma {:induction false} RunKeepsInSync(p: Present, u: Ui, clicks: seq<Click>)
    requires InSync(u)
    ensures InSync(Run(p, u, clicks))
    decreases |clicks|
  {
    if clicks != [] {
      DispatchKeepsInSync(p, u, clicks[0]);
      RunKeepsInSync(p, Dispatch(p, u, clicks[0]), clicks[1..]);
    }
  }

  /** The selector's state after one click, when its listeners are attached. */
  lemma SelectorAfterClick(p: Present, u: Ui, c: Click)
    requires SelectorWired(p)
    ensures c.target.LangButton? ==> Dispatch(p, u, c).selectorActive == !u.selectorActive
    ensures c.target.LangOption? ==> !Dispatch(p, u, c).selectorActive
    ensures !c.target.LangButton? && !c.insideSelector ==> !Dispatch(p, u, c).selectorActive
    ensures !c.target.LangButton? && !c.target.LangOption? && c.insideSelector ==>
      Dispatch(p, u, c).selectorActive == u.selectorActive
  {
  }

  /** Without its listeners the selector never changes. */
  lemma SelectorInertWhenUnwired(p: Present, u: Ui, c: Click)
    requires !SelectorWired(p)
    ensures Dispatch(p, u, c).selectorActive == u.selectorActive
    ensures Dispatch(p, u, c).storedLanguage == u.storedLanguage
  {
  }

  /** After an option is picked, the next language choice returns that option's language, whatever the browser says. */
  lemma PickedLanguageIsChosenNext(p: Present, u: Ui, lang: string, inside: bool, browserLang: string)
    requires SelectorWired(p) && lang != ""
    ensures LanguageChoice.ChooseLanguage(Dispatch(p, u, Click(LangOption(Some(lang)), inside)).storedLanguage, browserLang) == lang
  {
  }

  /**
   * Picking an option with an empty `data-lang` stores "", which is falsy, so the
   * next choice goes by the browser again; a missing attribute stores "null".
   */
  lemma OddOptionsChosenNext(p: Present, u: Ui, inside: bool, browserLang: string)
    requires SelectorWired(p)
    ensures LanguageChoice.ChooseLanguage(Dispatch(p, u, Click(LangOption(Some("")), inside)).storedLanguage, browserLang) ==
      LanguageChoice.ChooseLanguage(None, browserLang)
    ensures LanguageChoice.ChooseLanguage(Dispatch(p, u, Click(LangOption(None), inside)).storedLanguage, browserLang) == "null"
  {
  }
}
