# Page bootstrap script of pandesalbytes.ca, modelled in Dafny

The site's pages share one script, `shared/scripts.js`. Once the page has
loaded, it injects the shared header and footer, wires up the hamburger menu
and the language selector, picks a language and applies that language's
translation file to every element carrying a `data-i18n-key`. This project
models the decision rules and state updates inside that script, with the
browser replaced by plain inputs:

- `LanguageChoice` (`language_choice.dfy`): the choice in `initializeLanguage`.
  A truthy saved language wins. Otherwise the browser tag is tested for `fr`,
  `th` and `ja` prefixes, then for exactly `zh-CN`/`zh-SG`, then for a `zh`
  prefix, and `en` is the default. A table of rules (`BrowserRules`,
  `FirstMatch`) restates the chain independently, and a lemma proves the two
  agree.
- `PagePaths` (`page_paths.dfy`): `pathname.includes('/', 1)` and the two
  relative prefixes it selects. These are tied to what they are for by a small
  model of relative-reference resolution: from pages at the root or one
  folder deep, `…lang/` resolves to `/lang/` and the shared prefix resolves
  to `/shared/`. From pages two folders deep, they do not.
- `Translation` (`translation.dfy`): the element-by-element replacement
  (`ApplyAll` and the in-place loop `ApplyTranslations`). Also the end result
  of `loadTranslations` (`LoadOutcome`) and the URLs it requests
  (`Requests`), including the single fallback to `en`.
- `Header` (`header.dfy`): the menu and selector listeners as transitions on
  the header state. `InSync` is the invariant that both menu classes agree
  and `overflow` is `hidden` exactly when the menu is open. `Dispatch` and
  `Run` model click delivery, target first and then the document.
- `PageScript` (`page_script.dfy`): class `Page`, whose fields are the page
  state the script mutates. Its methods `Load` (recursive, as
  `loadTranslations` is), `InitializeLanguage`, `ToggleMenu` and `Click` are proved
  against the functions above.

Inputs in place of browser APIs:

- `window.location.pathname` is the `pathname` field.
- `navigator.language` is an argument.
- The value `localStorage` holds under `userLanguage` is the
  `storedLanguage` field. Its `null` is `None`.
- The network plus `response.json()` is a function `fetch` from URL to
  `Json(table)`, `HttpError` (not `ok`) or `Thrown` (an exception the `catch`
  swallows).
- Which header elements exist is the `present` field.
- `console.error` does nothing.

Behaviour of the code that the model keeps, though it is easy to miss:

- A `Thrown` load never falls back to `en`. Only a response that is not `ok`
  does.
- The hamburger and close buttons only work when the close button exists too,
  because the listeners are attached only when all three menu elements exist
  (`shared/scripts.js:105`).
- Menu clicks bubble to the document and so also close an open selector.
- A language option without `data-lang` stores and loads the string `"null"`.

## Model

| member | source | states |
|---|---|---|
| LanguageChoice.ChooseLanguage | shared/scripts.js:38-55 | A truthy saved language is returned whatever the browser tag. Otherwise the result is one of en, fr-CA, th, ja, zh-CN, zh-TW, and for each of these the ensures says exactly which tags give it: `fr`/`th`/`ja` prefixes, exact zh-CN or zh-SG, any other `zh` prefix, and `en` iff no prefix matches |
| LanguageChoice.FirstMatch | shared/scripts.js:45-55 | The first rule of an ordered rule table that matches the tag. It is None iff no rule matches, and otherwise it is the language of a matching rule with no earlier match |
| LanguageChoice.ChooseIsFirstMatchingRule | shared/scripts.js:42-55 | The else-if chain equals the saved value, or else the first matching rule of the table `fr*`, `th*`, `ja*`, `zh-CN`, `zh-SG`, `zh*`, defaulting to `en` |
| PagePaths.IncludesFrom | shared/scripts.js:9 | `includes` of one character from a position: true iff the character occurs at that index or later |
| PagePaths.IsNested | shared/scripts.js:9 | A page is nested iff its pathname has a `/` at index 1 or later |
| PagePaths.LangBase | shared/scripts.js:10 | Nested pages use `../` for the lang folder, other pages `./` |
| PagePaths.SharedBase | shared/scripts.js:66-67 | Nested pages use `../shared/`, other pages `shared/` |
| PagePaths.NestingExamples | shared/scripts.js:9-12 | `/` and `/index.html` are not nested and `/about/x.html` is; the translation and header URLs built for them |
| PagePaths.TopLevelPageResolvesToRoot | shared/scripts.js:9-67 | For `/file`: not nested, `./lang/` resolves to `/lang/` and `shared/` resolves to `/shared/` (the two ternaries at lines 9-10 and 66-67) |
| PagePaths.OneLevelPageResolvesToRoot | shared/scripts.js:9-67 | For `/folder/file`: nested, `../lang/` resolves to `/lang/` and `../shared/` resolves to `/shared/` (the two ternaries at lines 9-10 and 66-67) |
| PagePaths.TwoLevelPageMissesRoot | shared/scripts.js:9-67 | For any page `/a/b/file` (nested), `../lang/` resolves to `/a/lang/` and `../shared/` to `/a/shared/`: one level short of the root (the two ternaries at lines 9-10 and 66-67) |
| PagePaths.TranslationUrl | shared/scripts.js:12 | The language file's URL is the lang base, then `lang/`, then the language code and `.json` |
| PagePaths.TranslationUrlInjective | shared/scripts.js:12-16 | Two languages share a URL only if they are the same language, so the `en` fallback requests a file different from the failed one |
| PagePaths.TopLevelFragmentUrls | shared/scripts.js:66-76 | From a page `/file` (not nested), the header URL resolves to `/shared/header.html` and the footer URL to `/shared/footer.html` |
| PagePaths.OneLevelFragmentUrls | shared/scripts.js:66-76 | From a page `/folder/file` (nested), the header URL resolves to `/shared/header.html` and the footer URL to `/shared/footer.html` |
| Translation.Translate | shared/scripts.js:26-29 | An element keeps its key. It gets the table's string iff its key maps to a non-empty string, and is otherwise left unchanged |
| Translation.ApplyAll | shared/scripts.js:25-30 | Same number and order of elements and the same keys; each content becomes the table's string iff its key has non-empty text, and otherwise stays |
| Translation.ApplyTranslations | shared/scripts.js:25-30 | The loop over the element array leaves it equal to `ApplyAll` of its old contents |
| Translation.ApplyIdempotent | shared/scripts.js:25-30 | Applying the same table twice equals applying it once |
| Translation.ApplySequence | shared/scripts.js:19-30 | Loading table A and then table B equals applying the overlay of B's text on A's. Keys B has no text for keep A's translation |
| Translation.LoadOutcome | shared/scripts.js:13-22 | A load ends by applying the requested language's file if it parsed. Otherwise, only after a not-ok response for a language other than en, it applies the en file. A thrown error or a failed en load applies nothing |
| Translation.Requests | shared/scripts.js:12-16 | One or two URLs are fetched: first the requested language's, then en's only when the first was not ok and the language was not en. The fallback never recurses further |
| Header.ToggleMenu | shared/scripts.js:97-103 | With hamburger and overlay present, both `active` flags are flipped and overflow becomes `hidden` iff the overlay is now active. Without either element nothing changes, and the selector and the stored language are never touched |
| Header.LinkClick | shared/scripts.js:108-112 | A link click closes an open menu (overlay inactive, overflow empty) and leaves a closed menu unchanged. It keeps InSync |
| Header.LangButtonClick | shared/scripts.js:121-124 | The button flips the selector's `active` flag and nothing else |
| Header.DocumentClick | shared/scripts.js:126-130 | A click outside clears the selector's `active` flag. A click inside changes nothing. Nothing else ever changes |
| Header.OptionClick | shared/scripts.js:132-139 | Picking an option stores its `data-lang`, or "null" when it is missing, and clears the selector's `active` flag. The menu is left as it was |
| Header.DataLangText | shared/scripts.js:135-137 | The attribute's value when present. A missing attribute (`getAttribute` gives `null`) becomes the string "null", which is what gets loaded and stored |
| Header.TargetHandler | shared/scripts.js:105-140 | The clicked element's listener. Hamburger and close toggle the menu, and a link closes an open menu; these need the hamburger, overlay and close button to exist and never touch the selector or storage. The language button flips the selector, and an option stores its language and closes the selector; these need the three selector elements and never touch the menu. Any other target changes nothing |
| Header.ReachesDocument | shared/scripts.js:121-122 | Every click bubbles to the document except a click on the language button while its listener (which calls `stopPropagation`) is attached |
| Header.Dispatch | shared/scripts.js:105-141 | The target's listener, then the document listener if the click bubbles. The document listener only clears the selector, and only for an outside click. Missing listeners leave their part of the state unchanged |
| Header.Run | shared/scripts.js:97-141 | Clicks in order. Without the selector elements, the selector and stored language never change; without the menu elements, the menu never changes |
| Header.RunAppend | shared/scripts.js:97-141 | Running two click sequences one after the other equals running their concatenation |
| Header.ToggleTwice | shared/scripts.js:97-103 | Toggling twice restores both flags, and the whole state when overflow was the derived value |
| Header.ToggleKeepsFlagsEqual | shared/scripts.js:99-100 | The two menu flags are equal after a toggle iff they were equal before |
| Header.DispatchKeepsInSync | shared/scripts.js:97-139 | No click breaks InSync: both menu flags equal, and overflow `hidden` exactly when open |
| Header.RunKeepsInSync | shared/scripts.js:97-139 | Any sequence of clicks starting from an InSync state ends in an InSync state |
| Header.SelectorAfterClick | shared/scripts.js:121-139 | With the selector wired: the button flips it, an option closes it, any other click outside closes it, and any other click inside leaves it |
| Header.SelectorInertWhenUnwired | shared/scripts.js:120 | If any of the three selector elements is missing, clicks never change the selector or the stored language |
| Header.PickedLanguageIsChosenNext | shared/scripts.js:43-44 | After an option with a non-empty `data-lang` is picked, the next language choice returns that language whatever the browser tag |
| Header.OddOptionsChosenNext | shared/scripts.js:135-137 | An option with `data-lang=""` stores a falsy value, so the browser rule applies again. One without the attribute makes the next choice "null" |
| PageScript.Page.constructor | shared/scripts.js:3 | A new page has no translations, no requests, a closed menu and selector, and empty overflow, so it is InSync |
| PageScript.Page.Load | shared/scripts.js:6-35 | The URLs requested are `Requests`. The translations, the document language and the elements are as `LoadOutcome` says, and are unchanged when it applies nothing. The header state is untouched, and the recursion terminates |
| PageScript.Page.InitializeLanguage | shared/scripts.js:38-58 | It loads `ChooseLanguage` of the stored value and the browser tag, with exactly the effects of `Load` |
| PageScript.Page.ToggleMenu | shared/scripts.js:97-103 | The header state becomes `Header.ToggleMenu` of the old one, and the translation state is unchanged |
| PageScript.Page.Click | shared/scripts.js:105-141 | The header state becomes `Header.Dispatch` of the old one. A wired option click also has the effects of `Load` for its language; every other click leaves the translation state alone |

## Left out

- PageScript.Page.constructor: starts with no `active` classes and no inline `overflow`. The script does not set this state (line 3 only empties the translations). It comes from the header markup and the page's body style, which are not part of this model. It is the starting point `Header.RunKeepsInSync` needs.
- Fetching and injecting the header and footer fragments (`shared/scripts.js:62-79`) is network I/O and HTML injection. Only the URLs they are fetched from are modelled (`HeaderUrl`, `FooterUrl`).
- `async`/`await` ordering, the 10 ms `setTimeout` and the `DOMContentLoaded` wiring are left out, as is overlap between two loads still in flight. Each `Load` is modelled as running to completion. In `Click`, the option's load is shown finishing before the storage write and the selector update. The source only starts the load there, but the two touch disjoint state.
- `fetch` is a deterministic function of the URL, so both requests of one load see the same server.
- The real DOM is left out. Element lookup becomes the `present` flags, and `innerHTML` is an opaque string with no HTML parsing. Event propagation is reduced to "target, then document", and the language button's `stopPropagation` is the one exception. Whether a click is inside `.lang-selector` is part of the click (the header markup, `shared/header.html`, is not part of this model).
- JSON parsing is left out, so a translation file is a map from string to string. Non-string values, and keys inherited from `Object.prototype` (such as `toString`), are not modelled.
- `navigator.language` being undefined is not modelled: the tag is always a string.
- `PagePaths.Resolve` covers only relative references whose dot segments all come first, which are the only ones the script builds. It is not the general algorithm of section 5.2 of RFC 3986.
