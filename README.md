# Portfolio timeline: a Dafny model

This project models the deterministic rules of a single-page portfolio site.
The site shows a timeline of career years. It exists in two versions:

- a framework-free script, `script.js`;
- a React application: `src/App.jsx` and the components `ProjectModal`,
  `TimelineCard` and `DownloadDropdown`.

The model treats the document, `localStorage`, the `prefers-color-scheme`
media query, the clock and the scroll position as plain inputs and fields.
It then states and proves what the code does with them.

The project is made of these modules:

- `YearRange` (`year_range.dfy`): the range of years from 2013 to the current
  year. It also holds the rule that samples some years as navigation links,
  which both versions share.
- `TimelineData` (`timeline_data.dfy`): the per-year content table. It is an
  object literal whose last property is keyed by the current year.
- `Theme` (`theme.dfy`): how the start-up theme is resolved. The order is the
  stored value, then the operating system's preference, then light.
- `Scroll` (`scroll.dfy`): the strict `> 500` back-to-top threshold.
- `I18n` (`i18n.dfy`): the translation lookup `t`, and the keys
  `timeline.<key>.<field>`.
- `VanillaScript` (`vanilla_script.dfy`): `script.js`. Its loops (the
  timeline and the nav links) are methods proved against the functions above.
  The dark-mode toggle, the reveal observer and the back-to-top button are
  classes over the state they mutate.
- `ReactApp` (`react_app.dfy`): `src/App.jsx`. It covers the sections and
  their alternating layout, the nav links, and the theme and back-to-top
  state.
- `ProjectModal` (`project_modal.dfy`): the scroll-lock effect and its
  cleanup as a small state machine, the null-render guard, the content
  lookups and the link-icon classification.
- `DownloadDropdown` (`download_dropdown.dfy`): the open/closed state
  machine and the option list.
- `TimelineCard` (`timeline_card.dfy`): the stateless card. Its index parity
  chooses the row and the slide-in side.
- `Common` (`common.dfy`): `Option`, JavaScript truthiness of strings, how a
  template literal renders an integer, `includes`, and a parity fact.

## Behaviour worth noting

- A stored theme is not limited to `light` or `dark`. Any non-empty stored
  string wins. Only the exact string `dark` turns dark mode on. An empty
  stored string falls through to the operating system's preference.
- The React page renders every year of the range. A year without data gets
  the title `Year N`, no description and an empty list with no items. The page does not skip
  such a year.
- A list lookup (`items`, `links`) on a key the catalog lacks does not render
  as an empty list. i18next returns the key string, and calling `.map` on a
  string throws. The model returns `TypeError` (`Fails` for the modal). So
  does a non-empty array of the wrong kind: links rendered as list items are
  objects React refuses, and strings rendered as links have no `label`. An
  empty array renders nothing under either lookup. The page's own catalog
  has both lists for every entry.
- The dropdown's outside-mousedown listener is registered on mount and stays
  registered, whether the menu is open or closed. A mousedown outside a
  closed menu is therefore a no-op.
- The modal has no escape-key handler. It closes only through the backdrop
  and the close button, which both invoke the same `onClose`.
- The React start-up effect writes the resolved theme to the body's
  `data-theme`, whatever that theme is. It does not touch the root element's
  `dark` class. Only `toggleTheme` does. The component's wrapper takes the
  class `dark` from `isDark`.

## Model

| member | source | states |
|---|---|---|
| Common.IntToDecimal | script.js:107 | `${year}` renders a non-empty text, starting with a minus sign exactly for negative years |
| Common.IntToDecimalInjective | script.js:113 | different years never render to the same text, so `year-N` ids are unique per year |
| Common.ContainsIffOccurs | src/components/ProjectModal.jsx:93-94 | `includes` holds exactly when the word occurs at some position of the label |
| Common.ParityAlternates | src/components/TimelineCard.jsx:7 | helper for the card layout: consecutive integers have opposite parity; the test `i % 2 === 0` asks "is i even" under a truncating or a Euclidean `%` alike |
| YearRange.Years | src/App.jsx:25 | `years` has length `currentYear - startYear + 1` (empty when negative) and its element `i` is `startYear + i` |
| YearRange.YearsMembership | src/App.jsx:25 | a year is listed exactly when it lies between the two bounds, and the list is strictly ascending |
| YearRange.FilterNav | src/App.jsx:68 | the filter keeps exactly the years passing the sampling rule and preserves ascending order |
| YearRange.FilterNavSnoc | script.js:137-141 | pushing one more year extends the filtered list by that year exactly when it passes the rule |
| YearRange.NavYearsSpec | script.js:137-141 | year y is a nav link iff it is in range and y is the start, the current year or `(y - start) % 3 == 0`; the links are ascending with no duplicates, first the start year and last the current year |
| YearRange.SectionIdInjective | script.js:113 | distinct years get distinct section ids |
| YearRange.NavLinksTargetSections | script.js:145 | every nav link's `#year-N` href names the id of a rendered section |
| TimelineData.ObjectLiteral | script.js:13-84 | the literal's keys are exactly the keys of its properties |
| TimelineData.LastWriteWins | script.js:13-84 | a property that no later property overrides keeps its value |
| TimelineData.PresentDayWins | src/App.jsx:21-22 | the `[currentYear]` property is written last, so looking up the current year always yields the "present day" entry |
| TimelineData.AuthoredYearKept | script.js:14-78 | any other authored year keeps its own entry |
| TimelineData.UnlistedYearMissing | script.js:13-84 | a year that no property names is missing from the table |
| Theme.ResolveTheme | script.js:177-178 | the resolved theme is never empty and a truthy stored value wins; with nothing truthy stored it is "dark" when the operating system prefers dark and "light" otherwise; it is "dark" iff "dark" is stored, or nothing truthy is stored and the system prefers dark |
| Theme.ThemeName | src/App.jsx:48 | the stored name is "dark" exactly for the dark state and "light" for the light state |
| Scroll.AfterScrollsIsLast | src/App.jsx:40 | after any run of scroll events the back-to-top flag equals `lastScrollY > 500` |
| I18n.KeyInjective | src/components/TimelineCard.jsx:21-27 | `timeline.<key>.<field>` determines the entry key |
| I18n.T | src/components/ProjectModal.jsx:61 | a missing key translates to the key itself; a key holding a string translates to that string |
| I18n.TList | src/components/TimelineCard.jsx:27 | a list lookup succeeds exactly when the catalog holds a list of strings or an empty array there, and yields that list (empty for an empty array); a non-array or a non-empty array of links throws |
| I18n.TLinks | src/components/ProjectModal.jsx:85 | a links lookup succeeds exactly when the catalog holds a list of links or an empty array there, and yields those links (none for an empty array); a non-array or a non-empty array of strings throws |
| I18n.EmptyArrayEitherVariant | src/components/TimelineCard.jsx:27 | `[]` maps to nothing under both lookups, whichever variant encodes it |
| VanillaScript.RenderSection | script.js:112-126 | a section shows its year's id, marker, heading, title and description, and one `<li>` per achievement in order |
| VanillaScript.InitTimeline | script.js:100-130 | exactly one section per year from 2013 to the current year, ascending, each showing the year's entry or the placeholder |
| VanillaScript.FallbackEntry | script.js:106-110 | a missing year gets `Year N`, the fixed description and the two fixed achievements; a listed year keeps its data unchanged |
| VanillaScript.SectionIdsDistinct | script.js:113 | no two generated sections share an id |
| VanillaScript.InitNavbarLinks | script.js:133-141 | the years pushed onto `yearsToShow` are exactly the React version's filtered years |
| VanillaScript.ClickedAttribute | script.js:186-195 | a click makes the body dark exactly when it was not, and leaves the attribute absent or "dark" |
| VanillaScript.ClicksParity | script.js:185-196 | from an absent or "dark" attribute, an even number of clicks restores it and an odd number flips it |
| VanillaScript.DarkModeToggle.constructor | script.js:177-183 | start-up sets `data-theme="dark"` only when the resolved theme is exactly "dark", and writes nothing to storage |
| VanillaScript.DarkModeToggle.Click | script.js:185-196 | a click flips the attribute and stores "dark" or "light" matching the new state |
| VanillaScript.Revealed | script.js:158-162 | a batch of observer entries only adds the 'active' mark, to the intersecting targets |
| VanillaScript.RevealIsPermanent | script.js:157-165 | once an element is active it stays active through every later batch |
| VanillaScript.RevealObserver.OnIntersect | script.js:158-164 | the callback's loop marks exactly the intersecting targets and removes no mark |
| VanillaScript.BackToTopButton.OnScroll | script.js:214-220 | the button is visible iff `scrollY > 500`, strictly, so exactly 500 keeps it hidden |
| ReactApp.SectionsLayout | src/App.jsx:107-121 | one section per year, ascending; section `idx` is mirrored iff `idx` is even |
| ReactApp.NeighboursAlternate | src/App.jsx:121 | adjacent sections always use opposite layouts |
| ReactApp.MissingYearFallback | src/App.jsx:128-134 | a year without data renders `Year N`, no description and no achievements; a year with data and a non-empty title renders its own title and achievements (an empty title falls back to `Year N` through `||`) |
| ReactApp.LastSectionIsPresentDay | src/App.jsx:21-22 | over the page's table the last section is the current year and shows the "present day" entry |
| ReactApp.NavLinks | src/App.jsx:68 | the nav links are exactly the years passing the start / current / every-third rule, ascending |
| ReactApp.Toggled | src/App.jsx:45-53 | `toggleTheme` negates `isDark` |
| ReactApp.ToggleParity | src/App.jsx:45-53 | `n` toggles flip `isDark` `n` times, so two restore it; after any toggle storage, the body attribute and the root class match `isDark` |
| ReactApp.App.constructor | src/App.jsx:28-29 | `isDark` and `showBackToTop` start false |
| ReactApp.App.ThemeEffect | src/App.jsx:33-37 | after start-up `isDark` is true iff the resolved theme is exactly "dark"; the body attribute is the resolved theme |
| ReactApp.App.ToggleTheme | src/App.jsx:45-53 | negates `isDark`, stores "dark" or "light" to match, and sets the root 'dark' class iff the new value is dark |
| ReactApp.App.OnScroll | src/App.jsx:40 | `showBackToTop` equals `scrollY > 500` after every scroll event, and the theme state is untouched |
| ProjectModal.LockFor | src/components/ProjectModal.jsx:10-14 | the effect writes "hidden" iff the modal is open, and "unset" otherwise |
| ProjectModal.ScrollLockFollowsIsOpen | src/components/ProjectModal.jsx:9-18 | over any sequence of commits and unmounts, the lock is held only while a mounted modal is open; after a commit overflow is "hidden" iff `isOpen`; after unmount the page is never left locked |
| ProjectModal.LinkIcon | src/components/ProjectModal.jsx:93-95 | GitHub icon iff the label contains 'GitHub'; book icon iff it contains 'Book' but not 'GitHub'; otherwise the external-link icon |
| ProjectModal.GitHubBeatsBook | src/components/ProjectModal.jsx:93-94 | a label containing both words gets the GitHub icon |
| ProjectModal.GitHubLabelIcon | src/components/ProjectModal.jsx:93 | example from the catalog, an instance of LinkIcon: "GitHub Repository" gets the GitHub icon |
| ProjectModal.BookLabelIcon | src/components/ProjectModal.jsx:94 | example from the catalog, an instance of LinkIcon: "Book Link" gets the book icon |
| ProjectModal.ReportLabelIcon | src/components/ProjectModal.jsx:95 | example from the catalog, an instance of LinkIcon: "Full Report" gets the external-link icon |
| ProjectModal.LinkViews | src/components/ProjectModal.jsx:85-97 | the links render in order, one per entry, with `href = url`, the label and its icon |
| ProjectModal.View | src/components/ProjectModal.jsx:20-104 | nothing without a project key; no modal while closed; while open the title, details, items and links come from `timeline.<projectKey>.<field>`, and the backdrop and close button both invoke the `onClose` prop it was given; each link is rendered from its catalog entry in order; with a truthy key, while open, the modal is shown unless a list lookup throws |
| ProjectModal.ModalHost.Render | src/components/ProjectModal.jsx:9-24 | the effect runs before the guard: a committed render makes the scroll lock follow `isOpen` even when nothing is rendered; a render that throws is never committed, and the tree unmounts, running the pending cleanup |
| ProjectModal.ModalHost.Unmount | src/components/ProjectModal.jsx:15-17 | unmounting runs the pending cleanup, which resets overflow to "unset" |
| DownloadDropdown.RunWithoutCloses | src/components/DownloadDropdown.jsx:25 | without a closing event each trigger click flips the menu |
| DownloadDropdown.RunAppend | src/components/DownloadDropdown.jsx:13-25 | events are handled one after another |
| DownloadDropdown.OpenAfterLastClose | src/components/DownloadDropdown.jsx:13-48 | after the last outside mousedown or option click the menu is open iff an odd number of trigger clicks followed it |
| DownloadDropdown.Dropdown.constructor | src/components/DownloadDropdown.jsx:7 | the menu starts closed |
| DownloadDropdown.Dropdown.OnTriggerClick | src/components/DownloadDropdown.jsx:25 | a trigger click negates `isOpen` |
| DownloadDropdown.Dropdown.OnMouseDown | src/components/DownloadDropdown.jsx:13-17 | a mousedown outside closes, even an already-closed menu; one inside leaves `isOpen` unchanged |
| DownloadDropdown.Dropdown.OnOptionClick | src/components/DownloadDropdown.jsx:48 | clicking any option closes the menu |
| DownloadDropdown.ColorOf | src/components/DownloadDropdown.jsx:51 | the option's `colorClasses` when truthy, otherwise the fixed default classes |
| DownloadDropdown.Entries | src/components/DownloadDropdown.jsx:43-55 | exactly one entry per option, in order, with href = file, label = t(labelKey) and its colour |
| DownloadDropdown.Menu | src/components/DownloadDropdown.jsx:34-56 | no entries while closed; while open, exactly one entry per option, in order, each as `Entries` builds it |
| TimelineCard.SlideOffset | src/components/TimelineCard.jsx:14 | +50 for an even index and -50 for an odd one |
| TimelineCard.Card | src/components/TimelineCard.jsx:5-36 | the card is mirrored iff the index is even; title, description and items come from `timeline.<item.key>.<field>`; view-details passes the card's own item unchanged |
| TimelineCard.NeighbouringCardsAlternate | src/components/TimelineCard.jsx:7-14 | adjacent cards use opposite rows and slide in from opposite sides |
| TimelineCard.CardsTwoApartAlike | src/components/TimelineCard.jsx:7-14 | cards two indices apart use the same row and slide in from the same side |
| TimelineCard.DistinctItemsDistinctKeys | src/components/TimelineCard.jsx:21-27 | cards of different items never read the same field's translation key |

## Left out

- The scroll progress bar (`script.js` and `useScroll`/`useSpring` in `src/App.jsx`) is left out. It uses floating-point division with no guard against a zero height, plus a spring from an animation library.
- The smooth `scrollTo` of the back-to-top button is left out. It is a fire-and-forget browser call with no outcome to state.
- Adding and removing event listeners, the `IntersectionObserver`'s threshold and margin, `new Date()`, `localStorage` and `matchMedia` are not modelled as such. They appear only as method calls, inputs and fields. Whether an entry is intersecting is an input.
- Icons and styling are left out as presentational. This covers the sun/moon icon class swaps of `script.js`, the lucide icons except the link-icon choice, framer-motion props and Tailwind classes except the parity-driven row class. The footer year is left out too.
- VanillaScript.InitTimeline: the markup is modelled as a sequence of section records, not as one concatenated HTML string. Entry text is inserted unescaped in the source, and the model does not check that text against markup.
- VanillaScript.DarkModeToggle, VanillaScript.BackToTopButton, VanillaScript.RevealObserver: the page's initial markup is not part of this model. The body attribute's starting value is a parameter. The button starts hidden and no element starts active.
- I18n.T: when the catalog holds a list or an object under a key read as text, i18next returns a diagnostic string. The model returns the key instead. Language switching and interpolation are left out.
- ReactApp.App.ToggleTheme: handlers are taken to see the state of the last commit, so `isDark` captured by the closure is the current value.
- ProjectModal.ModalHost.Render: with no error boundary, a render that throws unmounts the whole React root. The model records only what happens to the modal: its pending cleanup runs and nothing is committed. The rest of the page going blank is not modelled.
- Scroll: `scrollY` is a `real`. NaN and infinities are not modelled.
- `src/components/YearSection.jsx` only wraps children under the id `year-N`, and `src/locales/en.js` is static text. The caller that groups entries by year and computes each card's global index is not part of this model.
