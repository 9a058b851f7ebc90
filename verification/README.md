# Portfolio modal and lightbox — a Dafny model

This project models the stateful core of a portfolio site's client script
(`scripts.js`): the project manager that resolves a project from a manifest
and per-section content files, the tabbed project modal, the screenshot grid
and the lightbox it opens, and the one page-wide scroll lock that the modal
and the lightbox share. Every piece is an immutable datatype with pure
functions; the DOM becomes flags and lists, and network fetches become
inputs.

- `optional.dfy` — `Option`, for missing attributes and fields.
- `projects.dfy` — module `Projects`: manifest, descriptors, `getProjectDetails`
  with its default project and per-section error placeholder.
- `gallery.dfy` — module `Gallery`: `renderModalScreenshots`, which builds the
  lightbox image list (banner first) and the grid whose items carry lightbox
  indices.
- `lightbox.dfy` — module `Lightbox`: the carousel state `(images, index, shown)`
  with `openLightbox`, previous/next with JavaScript's truncating `%`, and close.
- `tabs.dfy` — module `Tabs`: `buildTabbedModalContent`, `switchToTab`, the
  per-button click handler and the first-tab reset, with "exactly one active
  button/pane pair" as the invariant.
- `modal.dfy` — module `Modal`: the engine icon path, `openProjectModal`
  (including the missing-id guard), `closeProjectModal`, grid clicks, the
  lightbox close and the document key handlers, over a `Page` record.

Inputs that stand for the outside world:

- The manifest is a `map` from project id to `Descriptor`. Loading it is
  `LoadProjects(current, outcome)`: a failed load keeps the current manifest.
- Section fetches are a function `fetch: (nat, string) -> Fetch`. It maps a
  section's position in the loop and its content-file locator to
  `Fetched(text)` or `FetchFailed`. Each section has its own outcome, so two
  sections reading the same file can fare differently. `fetch` rejects only
  on network errors, so an HTTP error page is `Fetched` with that page's body.
- The card's attributes are a `Card` record: project id (optional), title,
  banner locator and engine name.

Behaviour of the code that a reader might not expect:

- Sections are fetched one after another (`await` inside the loop), not
  concurrently. The result is the same as a sequence map, so that is how it is modelled.
- A descriptor whose `sections` object is empty resolves to a project with
  no sections, and no tab is then active. One might expect every resolved
  project to have at least one section. That holds only for the default
  project and for non-empty descriptors (`Projects.ResolvedProjectNonEmpty`).
- `switchToTab` acts only when both a button and a pane match the id. If
  either is missing, nothing changes.
- `openProjectModal` resets both scroll offsets before it checks the project
  id. An aborted open therefore still zeroes them. The modal, the lightbox
  and the scroll lock stay untouched.
- An empty `data-project-id` is falsy and aborts the open, just like a missing one.
- The scroll lock is one boolean. Closing the lightbox unlocks page
  scrolling while the modal is still shown
  (`Modal.LightboxCloseUnlocksUnderOpenModal`).
- Three document key listeners exist. The modal's (scripts.js:513) and the
  lightbox's (scripts.js:446) both act on Escape, each on its own overlay only,
  so Escape closes both overlays at once in whichever order they run. The
  sidebar's listener (scripts.js:230) is left out: it is registered last and
  acts only while the modal is shown, which the modal's listener has already
  ended, and it touches only the sidebar, which is not modelled.
- With screenshots present, the grid shows only the screenshots. The
  banner is at lightbox index 0, but it gets a grid item only when there
  are no screenshots.
- `openLightbox` does not range-check its start index. The list and index
  are stored anyway. For an index outside the list, rendering throws before
  the overlay is shown and before the scroll lock is taken.

## Model

| member | source | states |
|---|---|---|
| Projects.ResolveSections | scripts.js:55-75 | one resolved section per manifest section, in order, keeping id and title; content is the fetched text, or the error placeholder naming the title when that fetch failed |
| Projects.GetProjectDetails | scripts.js:47-92 | an unknown id yields the default project (one section `default`/`Description`/"Detailed description coming soon...", no screenshots); a known id yields its sections resolved in order and its screenshots copied unchanged |
| Projects.ResolvedProjectNonEmpty | scripts.js:47-92 | a resolved project has a section exactly when the id is unknown or its descriptor has one |
| Projects.SectionFailureIsolated | scripts.js:57-75 | when the fetch for section k fails, section k shows the placeholder naming its title and every other section is exactly as it was |
| Projects.SameFileFetchedPerSection | scripts.js:57-75 | two sections reading the same content file are fetched separately: the first can fail while the second shows the fetched text |
| Projects.LoadProjects | scripts.js:36-45 | a successful load replaces the manifest with the parsed one; a failed load keeps the current manifest |
| Projects.FailedLoadYieldsDefault | scripts.js:36-52 | after a failed manifest load from the initial empty manifest, every id resolves to the default project |
| Gallery.ShotImage | scripts.js:635-637 | a screenshot's image keeps its locator; its caption is its own non-empty caption, else the project title (bare locators always fall back) |
| Gallery.ShotImages | scripts.js:635-640 | the images pushed after the banner: one per screenshot, in order |
| Gallery.ShotGrid | scripts.js:635-640 | one grid item per screenshot, item k opening lightbox index k+1 with that screenshot's locator and caption |
| Gallery.Grid | scripts.js:635-644 | the grid is item g showing screenshot g's image and caption for every screenshot, or a single banner item opening index 0 exactly when there are none |
| Gallery.LightboxImages | scripts.js:608-640 | the lightbox list holds the banner captioned "<title> - Main Banner" at index 0 and screenshot k at index k+1 |
| Gallery.RenderScreenshots | scripts.js:598-645 | the list has one image more than there are screenshots, banner first; a grid item opens index 0 exactly when there are no screenshots; every grid item's index is in range and names the very image the item shows; with screenshots, item g shows screenshot g and opens index g + 1 |
| Lightbox.JsRem | scripts.js:464-471 | JavaScript `%`: dividend = truncated quotient × divisor + remainder, with the remainder in [0, n) for a non-negative dividend and in (-n, 0] for a negative one |
| Lightbox.Next | scripts.js:469-474 | fewer than two images: unchanged; otherwise the index advances and wraps from the last image to 0, staying in range from any non-negative start |
| Lightbox.Prev | scripts.js:462-467 | fewer than two images: unchanged; otherwise the index steps back and wraps from 0 to the last image, staying in range from any non-negative start |
| Lightbox.Open | scripts.js:476-490 | the list and start index are stored unchecked; the overlay is shown only when the start index names an image, otherwise its visibility is unchanged |
| Lightbox.Close | scripts.js:492-495 | the overlay is hidden; list and index are kept |
| Lightbox.PrevUndoesNext | scripts.js:462-474 | on an in-range index, previous after next and next after previous restore the state |
| Lightbox.StepsAreModular | scripts.js:462-474 | on an in-range index with two images or more, next is (index+1) mod N and previous is (index-1+N) mod N |
| Lightbox.NegativeIndexStepsForward | scripts.js:469-474 | from a negative index with two images or more, a step forward lands at 0 or below, and lands in range exactly when the list length divides the distance from the index + 1 back to 0 |
| Lightbox.RemainderSignExample | scripts.js:464-471 | one example where JavaScript `%` and Dafny `%` differ: -3 % 2 is -1 in JavaScript |
| Lightbox.ControlsShownExactlyWhenStepsMove | scripts.js:476-482 | on an index in range, the previous/next controls are displayed exactly when a step would move the index |
| Lightbox.NextNFewImages | scripts.js:469-474 | with fewer than two images, any number of next presses leaves the state unchanged |
| Lightbox.NextNIndex | scripts.js:469-474 | within one turn, k presses of next advance the index by k with wraparound, leaving the list and visibility alone |
| Lightbox.NextCycles | scripts.js:469-474 | N presses of next on an N-image list return to the starting state |
| Tabs.FirstIndex | scripts.js:379-380 | a query returns the first match in document order, or nothing (-1) exactly when no element matches |
| Tabs.Build | scripts.js:648-667 | one button and one pane per section, in section order, each pair sharing the section's id; only button 0 and pane 0 are active, or none when there are no sections |
| Tabs.SwitchToTab | scripts.js:376-388 | when a button and a pane answer to the id, the first button and the first pane with that id become the only active pair; otherwise nothing changes; the tabs themselves never change |
| Tabs.SwitchKeepsOnePair | scripts.js:376-388 | a bar with exactly one active pair keeps exactly one after any switch |
| Tabs.ResetToFirst | scripts.js:573-584 | button 0 becomes the only active button, and the first pane with its id the only active pane; when no pane has that id, no pane is active |
| Tabs.ResetAfterBuild | scripts.js:573-584 | resetting a freshly built bar leaves it unchanged |
| Tabs.ClickTab | scripts.js:678-703 | the handler faults exactly when no button is active, no pane is active, or no pane has the clicked id; otherwise the tabs are unchanged and, from an only active pair (i, j), the clicked button and the first pane of its tab become the only active pair, the slide being `slide-right` exactly when the clicked index is greater than i |
| Tabs.FirstActiveIsOnlyActive | scripts.js:680-681 | when one button and one pane are the only active ones, the queries for the active button and pane return exactly those |
| Tabs.ClickMovesActivePair | scripts.js:678-703 | from one active pair, a click makes the clicked button and a pane of its tab the only active pair; the slide is `slide-right` exactly when the clicked index is greater than the previously active one |
| Tabs.ClickAgreesWithSwitch | scripts.js:376-388 | on a bar with one active pair, clicking a button whose id no earlier button carries ends in the same state as `switchToTab` with that id |
| Modal.LowerChar | scripts.js:565 | ASCII lower-casing: upper-case letters move up by 32 code points (to their lower-case form), everything else is kept, and the result is never upper-case |
| Modal.Lower | scripts.js:565 | lower-casing keeps the length and lower-cases each character |
| Modal.EngineIcon | scripts.js:562-566 | `FriendshipEngine` gets `assets/icons/friendshiplogo.svg`; any other engine gets `assets/icons/white` + the lower-cased name + `.svg` |
| Modal.EngineIconIgnoresCaseOnly | scripts.js:562-566 | apart from the special case, two engines share an icon exactly when their names agree once lower-cased |
| Modal.SpecialIconIsDistinct | scripts.js:562-566 | no engine other than `FriendshipEngine`, in any spelling, is given the special icon |
| Modal.OpenProjectModal | scripts.js:530-595 | offsets are reset in every case; a card without a project id changes nothing else; otherwise the modal is shown, scrolling is locked, the header comes from the card, the tabs are the built bar with the first tab active, and the grid is the rendering of the resolved project |
| Modal.CloseProjectModal | scripts.js:707-719 | the modal is hidden, scrolling is unlocked, both offsets are zero; the lightbox and the modal's title, tabs and gallery are untouched |
| Modal.ClickGridItem | scripts.js:622-624 | the lightbox receives the rendered list and the item's index; it is shown and scrolling is locked when the index is in range, otherwise both stay as they were; the modal and the scroll offsets are untouched |
| Modal.CloseLightbox | scripts.js:492-495 | the lightbox is hidden and the shared scroll lock is cleared; the modal, the lightbox's list and index, and the offsets are untouched |
| Modal.KeyDown | scripts.js:446-457 | both document listeners act, the modal's (scripts.js:513-517) on the modal only; Escape closes whichever overlays are shown and clears the lock, and does nothing when none is; arrows step the lightbox only while it is shown and change nothing else |
| Modal.EscapeActsAsCloseControls | scripts.js:513-517 | Escape closes the modal when it is shown, then the lightbox when that is shown, leaving exactly the state the close controls would leave |
| Modal.OpenActivatesFirstTab | scripts.js:573-584 | after a successful open of a project with a section, tab 0 is the only active button/pane pair |
| Modal.OpenCloseRestoresLock | scripts.js:586-595 | opening then closing the modal from an unlocked page leaves it unlocked, the modal hidden and the offsets zero |
| Modal.GridClickShowsItsImage | scripts.js:614-643 | every grid item of an opened modal opens a shown lightbox, with scrolling locked, on the image the item displays |
| Modal.LightboxCloseUnlocksUnderOpenModal | scripts.js:488-494 | the lock is one flag: closing a lightbox opened from the modal unlocks scrolling while the modal is still shown |
| Modal.TwoSectionScenarioTabs | scripts.js:648-667 | a project with two sections opens with two tabs in manifest order and tab 0 the only active pair |
| Modal.TwoSectionScenarioGallery | scripts.js:608-644 | the same project with two screenshots gets a three-image lightbox list with the banner first, and two grid items opening indices 1 and 2 |
| Modal.TwoSectionScenarioIcon | scripts.js:562-566 | the same card's `Unity` engine gets `assets/icons/whiteunity.svg` |

## Left out

- `fetch`, JSON parsing and console logging. The manifest and every fetch outcome are inputs.
- A manifest whose JSON lacks `projects`. Lookups would then throw; the model's manifest is always a map.
- Ids that name inherited object properties (`constructor`, `toString`). Such a lookup finds a truthy value that is not a descriptor and then throws. The model's map holds only the manifest's own keys.
- The ordering `Object.entries` gives integer-like keys: they come first, ascending. Sections are kept in declared order.
- A `sections` field that is missing or null. `Object.entries` would throw; descriptors always carry a sequence. An array of section records would resolve with ids "0", "1", …; the model represents that as a sequence with those ids.
- Fields of a descriptor other than `sections` and `screenshots`. They are copied by the spread but never read.
- Captions that are not strings. Captions are `Option<string>`, so only missing or empty captions fall back to the title.
- Manifest values that are falsy (null, false, 0, ""). `getProjectDetails` would return the default project for them; the model's map holds only descriptors, so an id either names a descriptor or is absent.
- Screenshot entries that are null or numbers. A null entry throws while the grid is rendered, after the tabs are rebuilt, so the modal is never shown and scrolling is not locked; a number entry gets src `undefined` with the title as caption. Screenshots are modelled as locators or records only.
- Section records that are null. Reading `contentFile` throws, the catch then throws again reading `title`, and `getProjectDetails` rejects. Section references are always records in the model.
- Modal.LowerChar: models `toLowerCase` on ASCII letters only, because full Unicode case mapping is not available in Dafny.
- Modal.Lower: inherits the ASCII-only mapping, and keeps the string's length, although `toLowerCase` can lengthen a string ('İ' becomes two code units).
- Modal.EngineIcon: uses `Modal.Lower`, so an engine name with non-ASCII letters may get a different icon locator than the page computes.
- Section ids that are not valid CSS identifiers, or that collide with other element ids in the modal. The queries would throw or find the wrong element; the model's queries look only at tab buttons and panes.
- Tabs.ClickTab: a faulting click leaves classes partly changed in the page; the model records only that it faulted.
- The 50 ms delay before the incoming pane gains `active`, and clicks landing inside that window. Only the settled state is modelled.
- Interleaving of other events while `openProjectModal` awaits the project, and in-flight fetches after a close. The open is modelled as one step.
- The floating tab sidebar: intersection observer, compact-mode threshold, floating-point geometry, mirrored active state. These are host scheduling and measured layout.
- Smooth scrolling of the modal body to the new pane, and `requestAnimationFrame` resets. Those are presentation timing; the offsets are modelled as reset to zero.
- Particle effects, fade-in animation and anchor smooth-scrolling. They are decorative.
- A card missing its `h3`, its `img`, its `.engine-badge` or the badge's `data-engine`. Each throws at the line that reads it (scripts.js:550, 551, 552, and 565 for an undefined engine), after the project is resolved, so the modal is not shown and scrolling is not locked. The model's `Card` always carries a title, banner and engine string.
