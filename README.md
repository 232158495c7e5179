# Portfolio page behaviour, modelled in Dafny

This project models the behaviour of `assets/js/main.js`, the script of a static
portfolio page. The model leaves out the DOM, the timers and the browser APIs.
What remains are the small state updates beneath them:

- **Project filter** (`initializeProjectFilter`). A click on a filter button
  makes that button the only 'active' one. It then shows every captured card
  when the button's `data-filter` is `all` or is one of the card's classes, and
  hides the others. `ProjectFilter.FilterBar` holds the buttons' flags and the
  cards' class sets in arrays. `Click` updates them in two loops, as the
  handler's two `forEach` calls do.
- **Catalog rendering** (`populateProjects`, `createProjectCard`). Each of the
  eight records becomes a card whose class attribute is `project-card
  <category>`. The cards are appended to the grid in catalog order.
  `Catalog.Grid` is the grid element. Its children form a sequence that
  `AppendChild` extends.
- **Contact-form validation** (`validateContactForm`, `isValidEmail`). Five
  checks run in a fixed order. Each check that fails pushes one message. The
  form is valid exactly when no message was pushed. Whitespace is the exact
  ECMAScript set that both `\s` and `trim()` use.
- **Scroll-driven flags**. These are the navbar's 'scrolled' class and its
  hide-on-scroll-down transform, with `lastScrollTop` updated on every event.
  They also cover the back-to-top button's visibility and the nav link that
  tracks the current section.
- **Typing effect and counters**. One `typeText` tick adds one UTF-16 code
  unit of the element's text, which is one character inside the Basic
  Multilingual Plane and half a surrogate pair outside it. `animateCounters`
  does its work at most once.

Behaviour of the code that the model keeps:

- The click handler rejects no filter value. It uses whatever `data-filter`
  the button carries.
- When all four fields are empty or whitespace-only, `validateContactForm`
  pushes **five** messages. A blank e-mail fails both the `trim()` check
  (main.js:354) and the pattern check (main.js:355).
- The filter captures the `.project-card` elements once, when it is set up
  (main.js:177). The page sets up the filter before it renders the catalog
  (main.js:6 and main.js:12). So the filter works over the cards given to
  `FilterBar`'s constructor, not over `Grid.children`.
- A missing grid makes the first `appendChild` throw a `TypeError`. The model
  returns `ok == false` and leaves the page unchanged.
- Clicking is idempotent only for filters other than `hidden`. A button whose
  filter is `hidden` would test the same class it toggles, so repeated clicks
  flip its cards (`ProjectFilter.HiddenFilterFlips`). No catalog category is
  `hidden` (`Catalog.CatalogCategories`).

`ProjectFilter.ClickThrough` is an example run of `FilterBar.Click`'s
contract: three clicks over three cards, with the visible cards asserted
after each.

## Model

| member | source | states |
|---|---|---|
| `Text.LeadingSpace` | assets/js/main.js:353 | the count is the length of the longest all-whitespace prefix: every counted char is whitespace, and the next one is not |
| `Text.TrailingSpace` | assets/js/main.js:353 | the count is the length of the longest all-whitespace suffix |
| `Text.Trim` | assets/js/main.js:353-357 | `trim()` returns a contiguous piece of `s` that starts right after the leading whitespace and neither starts nor ends with whitespace |
| `Text.TrimBounds` | assets/js/main.js:353-357 | `trim()` returns the middle slice `s[a..b]`: the head `s[..a]` and the tail `s[b..]` are all whitespace, and a non-empty middle starts and ends with non-whitespace |
| `Text.BlankIffAllSpace` | assets/js/main.js:353-357 | `!s.trim()` holds iff every character of `s` is whitespace |
| `Text.TrimIdempotent` | assets/js/main.js:353-357 | trimming a trimmed string changes nothing |
| `Sequences.FirstIndex` | assets/js/main.js:71 | the first occurrence of a value: the index holds it and no earlier index does, and no result means it is absent; `querySelector` finds a link this way, and the e-mail check splits at the first '@' this way |
| `ContactForm.IsValidEmail` | assets/js/main.js:367-369 | an accepted address has at least five characters (local part, '@', a domain with an inner '.') and no whitespace anywhere |
| `ContactForm.IsValidEmailMatchesPattern` | assets/js/main.js:367-369 | the e-mail check accepts `s` iff `^[^\s@]+@[^\s@]+\.[^\s@]+$` matches it, i.e. some '@' and a later '.' cut `s` into three non-empty runs without whitespace or '@' |
| `ContactForm.ValidEmailMatches` | assets/js/main.js:367-369 | every accepted address matches the pattern |
| `ContactForm.MatchingEmailValid` | assets/js/main.js:367-369 | every address the pattern matches is accepted |
| `ContactForm.IsValidEmailSplit` | assets/js/main.js:367-369 | accepted iff `s` is local + '@' + domain, where both parts are non-empty and free of whitespace and '@', and the domain has a '.' with text on both sides |
| `ContactForm.AcceptsSimpleAddress` | assets/js/main.js:367-369 | "a@b.co" is accepted |
| `ContactForm.RejectsMalformedAddresses` | assets/js/main.js:367-369 | "a@b", "a b@c.com" and "" are rejected |
| `ContactForm.PaddedEmailRejected` | assets/js/main.js:355 | an address with leading whitespace is rejected, because the pattern is applied to the untrimmed field |
| `ContactForm.ValidEmailNotBlank` | assets/js/main.js:354-355 | an accepted address is never blank |
| `ContactForm.CheckAt` | assets/js/main.js:353-357 | the k-th check of the handler has rank k (the check order) |
| `ContactForm.ErrorsAfterSound` | assets/js/main.js:351-357 | after the first k checks, the list holds exactly the failed checks among them, each once, in check order |
| `ContactForm.ErrorsAreFailedChecks` | assets/js/main.js:351-357 | the final error list holds an error iff its check fails, without repeats, in the order name, email-required, email-valid, subject, message |
| `ContactForm.ValidateContactForm` | assets/js/main.js:350-365 | returns the error list built push by push; the form is valid iff the list is empty; an invalid form reports the messages joined by ", " as one notification |
| `ContactForm.JoinTexts` | assets/js/main.js:360 | `errors.join(', ')` is empty exactly for an empty list and otherwise starts with the first message |
| `ContactForm.JoinedCommaCount` | assets/js/main.js:360 | no message holds a comma, so the notification holds exactly one comma fewer than there are errors |
| `ContactForm.AllErrorsText` | assets/js/main.js:353-360 | the notification for all five errors is the five messages, in check order, joined by ", " |
| `ContactForm.ValidIff` | assets/js/main.js:350-365 | the form passes iff name, subject and message each hold non-whitespace text and the e-mail matches the pattern |
| `ContactForm.BlankEmailReportedTwice` | assets/js/main.js:354-355 | a blank e-mail gives both "Email is required" and "Please enter a valid email" |
| `ContactForm.EmailRequiredImpliesInvalid` | assets/js/main.js:354-355 | "Email is required" never appears without "Please enter a valid email" |
| `ContactForm.AllBlankGivesFiveErrors` | assets/js/main.js:351-362 | with all four fields empty or whitespace-only, the list is all five errors, in order, and the notification reads "Name is required, Email is required, Please enter a valid email, Subject is required, Message is required" |
| `Catalog.TokensFromWord` | assets/js/main.js:285 | a run without class separators is read as one class token |
| `Catalog.ClassTokens` | assets/js/main.js:285 | assigning `className` gives classes that are each non-empty and free of separators; a single token gives exactly that class |
| `Catalog.ClassTokensOfCard` | assets/js/main.js:285 | the class attribute "project-card " + category gives the class "project-card" and the classes of the category text |
| `Catalog.CreateProjectCard` | assets/js/main.js:283-309 | the card shows its record and has the class "project-card"; with a single-token category its classes are exactly {"project-card", category} |
| `Catalog.CardsFollowCatalog` | assets/js/main.js:277-280 | rendering gives one card per record, in record order, each with its record's classes |
| `Catalog.AppendCards` | assets/js/main.js:275-280 | the grid's children become the old children followed by one card per record, in order; with no grid the call fails unless there are no records |
| `Catalog.PopulateProjects` | assets/js/main.js:199-281 | the grid grows by exactly the eight catalog cards, in catalog order |
| `Catalog.CatalogCategories` | assets/js/main.js:200-273 | the catalog has eight records with categories web, mobile, data, web, mobile, other, web, data, each a single class token |
| `Catalog.Grid.AppendChild` | assets/js/main.js:279 | appending adds the card at the end and changes nothing else |
| `ProjectFilter.Filtered` | assets/js/main.js:187-193 | after a click with filter f, a card lacks 'hidden' iff f is "all" or one of its classes, and its other classes are unchanged |
| `ProjectFilter.VisibleAfterFilter` | assets/js/main.js:187-193 | after filtering, the visible cards are exactly those the filter shows |
| `ProjectFilter.LastClickWins` | assets/js/main.js:185-193 | a click with a filter other than "hidden" leaves each card as if no earlier click had happened |
| `ProjectFilter.OnlyLastClickMatters` | assets/js/main.js:179-195 | after any run of clicks whose last filter is not "hidden", each card's classes are those the last click alone would give |
| `ProjectFilter.ClickIdempotent` | assets/js/main.js:180-194 | clicking the same button twice gives the same card classes as clicking it once |
| `ProjectFilter.HiddenFilterFlips` | assets/js/main.js:188-192 | with the filter "hidden", every click toggles the card's 'hidden' class and two clicks restore its classes, so idempotence needs a filter other than "hidden" |
| `ProjectFilter.CatalogCardShown` | assets/js/main.js:188 | the handler's test, on a card whose classes are those `createProjectCard` gives, passes iff f is "all", its category or "project-card"; the rendered catalog cards are not among the captured cards, so on the page they stay shown whatever the filter |
| `ProjectFilter.SoleActiveCount` | assets/js/main.js:182-183 | when only button i is flagged, the set of active buttons is {i}, so exactly one button is active |
| `ProjectFilter.FilterBar.constructor` | assets/js/main.js:176-177 | the buttons and the cards are captured once, as given |
| `ProjectFilter.FilterBar.Click` | assets/js/main.js:180-194 | button i becomes the only active button; every card's classes become `Filtered(filter_i, old classes)`; the visible cards are exactly those the filter shows |
| `Navigation.ScrollTop` | assets/js/main.js:23 | the offset `pageYOffset`, falling back to `scrollTop`, on integers: one of the two offsets, `pageYOffset` whenever it is non-zero, and zero only when both are zero |
| `Navigation.NavbarStep` | assets/js/main.js:22-38 | after one scroll event the navbar is hidden only if it is also 'scrolled', never when the offset did not grow, and the event's offset is remembered |
| `Navigation.NavbarRunLatest` | assets/js/main.js:21-38 | after any run of scroll events: 'scrolled' iff the last offset > 100; hidden iff the last offset exceeds the one before it and 500; `lastScrollTop` is the last offset |
| `Navigation.Navbar.constructor` | assets/js/main.js:21 | `lastScrollTop` starts at 0 and the navbar starts in place |
| `Navigation.Navbar.OnScroll` | assets/js/main.js:22-38 | 'scrolled' iff scrollTop > 100; hidden iff scrollTop > the previous `lastScrollTop` and > 500; `lastScrollTop` becomes scrollTop |
| `Navigation.LinkFor` | assets/js/main.js:52-71 | the switch maps the ids home, projects, athletics, about and contact to the href "#" + id; a section's link is the first link with that href, and there is none for any other id or when no link has that href |
| `Navigation.LastHit` | assets/js/main.js:46-77 | picks the last section, in document order, whose window `[offsetTop-150, offsetTop-150+offsetHeight)` holds scrollY; none when no window does |
| `Navigation.StackedOrdered` | assets/js/main.js:47-48 | in sections laid out end to end, each later section starts after every earlier one ends |
| `Navigation.StackedHitIsUnique` | assets/js/main.js:46-77 | with sections laid end to end, a section's window holds scrollY iff that section is the one picked |
| `Navigation.SectionHighlighter.Highlight` | assets/js/main.js:43-78 | if no window holds scrollY, the links are unchanged; otherwise only the link of the last matching section is active, or none if it has no link |
| `Navigation.BackToTop.OnScroll` | assets/js/main.js:479-485 | the back-to-top button is visible iff pageYOffset > 300 |
| `Typing.UnitsOf` | assets/js/main.js:128 | a character is one UTF-16 code unit inside the Basic Multilingual Plane and otherwise a high and a low surrogate that decode back to it |
| `Typing.Utf16` | assets/js/main.js:128 | `textContent` has at least as many code units as characters, and exactly the characters' code points when all lie in the Basic Multilingual Plane |
| `Typing.TypeStep` | assets/js/main.js:134-140 | one tick keeps the element showing a prefix of the text and moves one code unit further, until the end, after which it changes nothing |
| `Typing.TypeStepsShowPrefix` | assets/js/main.js:131-140 | after k ticks the element shows the first min(k, `text.length`) code units, and the index is that number |
| `Typing.TypingStops` | assets/js/main.js:134-139 | once the whole text is shown, a tick changes nothing (that it then does not re-arm is `Typewriter.TypeText`'s `rearmed` clause) |
| `Typing.BmpTypesByCharacter` | assets/js/main.js:128-140 | for text inside the Basic Multilingual Plane, k ticks show the first min(k, length) characters |
| `Typing.SupplementaryCharTakesTwoTicks` | assets/js/main.js:134-140 | a character outside the Basic Multilingual Plane takes two ticks, and after the first the element shows a lone high surrogate |
| `Typing.EmojiTakesThreeTicks` | assets/js/main.js:128-140 | "a" followed by U+1F600 is three code units; two ticks show "a" and the high surrogate 0xD83D, and the third completes the text |
| `Typing.Typewriter.constructor` | assets/js/main.js:128-131 | the element's text is saved as UTF-16 code units, the element is emptied and the index starts at 0 |
| `Typing.Typewriter.TypeText` | assets/js/main.js:134-140 | one tick appends the next code unit (`charAt`) and advances the index, and re-arms iff code units remained |
| `Typing.Typewriter.TypeTicks` | assets/js/main.js:134-143 | k ticks from a fresh start show the first min(k, `text.length`) code units |
| `Counters.Starts` | assets/js/main.js:148-152 | over any number of calls, the counters start once from a fresh page, never once the flag is set, and never without a call |
| `Counters.CounterAnimation.AnimateCounters` | assets/js/main.js:150-170 | the first call starts one timer per counter target and sets the flag; every later call starts nothing; the number of starts stays `Starts(false, calls)`, so at most one |

## Left out

- Markup and styles: the card's `innerHTML`, inline styles and the navbar's
  `transform` strings. A card keeps the record it shows, and the transform is
  a boolean.
- Timers and asynchrony: `setTimeout`/`setInterval` scheduling, `debounce`,
  `throttle` and the throttled `--scroll-y` property. Each timer tick or event
  is one method call.
- `showNotification`: only the text of the validation error notification is
  modelled (the `notice` result). The type-to-colour choice, replacing an
  existing notification and the fade timing are left out.
- The submit handler around `validateContactForm`. It disables the button,
  awaits `simulateFormSubmission` (a random failure after a delay) and resets
  the form. This is asynchronous and random, with no stateable contract.
- `Counters.CounterAnimation.AnimateCounters`: the values each counter timer
  writes are left out. They come from floating-point steps of `target / 50`
  rounded down by `Math.floor`. Only which counters start, and that they start
  once, are modelled.
- The hero parallax (`scrolled * 0.5`, floating point), smooth scrolling to
  anchors and the back-to-top click (browser `scrollTo` calls), and the
  IntersectionObserver reveal animations. Performance logging, the
  service-worker stub, the global error handler and the empty keydown handler
  are also left out. They are browser plumbing with no state to model.
- Absent elements: a missing navbar, typing element, back-to-top button or
  contact form. Apart from the grid, these are not modelled.
- A filter button without `data-filter` (a `null` filter) is not modelled.
  Filters are strings.
- A submitted form that lacks one of the four fields makes `data.<field>.trim()`
  throw a `TypeError` (main.js:353-357). `ContactData` always holds four
  strings, so this path is not modelled.
- Form fields are sequences of Unicode scalar values, so a field holding a
  lone surrogate cannot be expressed. Whitespace, `trim()` and the e-mail
  pattern only test membership in sets of BMP characters, so for every other
  string they decide the same on characters as on UTF-16 code units. The
  typing effect, whose ticks count code units, is modelled on UTF-16 code
  units (`Typing.Utf16`).
- Offsets are integers. The `||` in `pageYOffset || scrollTop` is modelled for
  integers only: a zero offset falls back to the document's `scrollTop`, and
  NaN and `undefined` are not modelled.
- The theme toggle and its stored preference are not part of this file and
  are not part of this model.
