# Portfolio site view-state controllers, modelled in Dafny

The portfolio site's interactive behaviour lives in three client-side state
hooks. This project models them:

- **Project catalog view** (`src/hooks/useProjects.js`), module `Projects`.
  It holds the category `filter` (`'all'` is a sentinel meaning "every category") and the `viewMode`.
  From the read-only, ordered project catalog it derives the filtered, featured and regular projects.
  It also gives the category list, the tag list, lookup by id and a free-text search.
  The catalog is a parameter (`seq<Project>`): the data file is not part of this model.
  Derivations are pure functions over sequences. The two state cells are fields of the class `ProjectsView`, changed by setter methods.
- **Modal controller** (`src/hooks/useModal.js`), module `Modal`.
  The modal is Closed, or Open with a payload.
  It supports `open`, `close` and `toggle`.
  Three option flags enable three reactions: Escape closes the modal, a mouse press outside the overlay closes it, and the body's overflow style is locked while it is open (saved on open, restored on close or unmount).
  Pure step functions over `ModalState` specify the state machine.
  The class `ModalController` keeps the state in fields (`isOpen`, `data`, `bodyOverflow`, `savedOverflow`), and each method is proved to perform exactly one step.
- **Theme controller** (`src/hooks/useTheme.js`), module `Theme`.
  It holds a dark/light flag.
  The start-up value comes from the stored `theme` value, or from the system colour-scheme preference when nothing is stored.
  Every change writes `'dark'` or `'light'` to storage and adds or removes the single `'dark'` class on the document root.
  Storage is a `map<string, string>` field and the root's class list a `set<string>` field of `ThemeController`.
  Its methods are proved to perform the pure transitions `ToggleStep` and `SetThemeStep`.
  At start-up, any stored value other than `'dark'` means light, and the system preference is used only when nothing is stored (`src/hooks/useTheme.js:12-14`); `Theme.InitialDarkModeCases` states this.

Two helper modules give the JavaScript built-ins these hooks rely on a meaning:
- `Sequences`: `filter`, `find`, and `[...new Set(xs)]`, with their order and multiplicity properties.
- `Text`: `toLowerCase`, `trim` and `includes`.

Browser inputs are parameters:
- the stored key-value pairs and the document root's classes (constructor arguments);
- the `prefers-color-scheme: dark` media query result (a boolean argument);
- the body's overflow style (a field);
- keyboard and mouse events (method arguments: the key string, the overlay's element set and the target element).

## Model

| member | source | states |
|---|---|---|
| `Projects.InCategory` | src/hooks/useProjects.js:17 | the category test accepts a project exactly when its category is the given one |
| `Projects.ProjectsByCategory` | src/hooks/useProjects.js:37-40 | for `'all'` the result is the whole catalog; for any other category it is an order-preserving subsequence of the catalog that holds exactly the projects of that category, each as often as in the catalog; an unknown category gives the empty sequence, not an error |
| `Projects.ProjectsView.constructor` | src/hooks/useProjects.js:9-10 | a fresh view has filter `'all'` and view mode `'grid'`, so the filtered projects are the whole catalog |
| `Projects.ProjectsView.SetFilter` | src/hooks/useProjects.js:13-18 | after choosing a category (any string is accepted), the filtered projects are those `ProjectsByCategory` gives for it; the view mode is untouched |
| `Projects.ProjectsView.SetViewMode` | src/hooks/useProjects.js:10 | changing the view mode leaves the filter and the filtered, featured and regular projects unchanged |
| `Projects.ProjectsView.FilteredProjects` | src/hooks/useProjects.js:13-18 | under `'all'` the whole catalog; otherwise an order-preserving subsequence holding exactly the catalog's projects of the active category |
| `Projects.ProjectsView.Featured` | src/hooks/useProjects.js:21-24 | an order-preserving subsequence of the filtered projects holding exactly the featured ones |
| `Projects.ProjectsView.Regular` | src/hooks/useProjects.js:26-29 | an order-preserving subsequence of the filtered projects holding exactly the ones that are not featured |
| `Projects.ProjectsView.TotalProjects` | src/hooks/useProjects.js:91 | the catalog's size, whatever the filter; under `'all'` it equals the number of filtered projects |
| `Projects.FeaturedProjects` | src/hooks/useProjects.js:21-24 | an order-preserving subsequence of its input holding exactly the featured projects, each as often as in the input |
| `Projects.RegularProjects` | src/hooks/useProjects.js:26-29 | an order-preserving subsequence of its input holding exactly the projects that are not featured, each as often as in the input |
| `Projects.FeaturedRegularPartition` | src/hooks/useProjects.js:21-29 | featured and regular projects partition the filtered projects: multisets add up to it, lengths add up to its length, and no project is in both |
| `Projects.ProjectsView.FilteredCount` | src/hooks/useProjects.js:91-92 | the filtered count is the length of the filtered projects, at most the total, and equal to it under `'all'` |
| `Projects.ProjectsView.FeaturedCount` | src/hooks/useProjects.js:93 | the featured count plus the number of regular projects equals the filtered count |
| `Projects.ProjectById` | src/hooks/useProjects.js:32-34 | nothing is returned exactly when no project has the id; otherwise the result is the first project in catalog order with that id |
| `Projects.ProjectByIdFindsEntry` | src/hooks/useProjects.js:32-34 | in a catalog with unique ids, looking up any entry's id returns that entry |
| `Projects.CategoryList` | src/hooks/useProjects.js:44 | `map` gives one category per project, position by position, so a category is listed exactly when some project has it |
| `Projects.Categories` | src/hooks/useProjects.js:43-46 | `'all'` comes first; the rest has no duplicates and holds a category exactly when some project has it |
| `Projects.CategoriesInFirstUseOrder` | src/hooks/useProjects.js:43-46 | the categories after `'all'` are in the order of their first use in the catalog |
| `Projects.TagList` | src/hooks/useProjects.js:50 | the flattened tag list holds a tag exactly when some project carries it |
| `Projects.AllTags` | src/hooks/useProjects.js:49-52 | no duplicates, and a tag is listed exactly when some project carries it |
| `Projects.AllTagsInFirstUseOrder` | src/hooks/useProjects.js:49-52 | the tags are in the order of their first use in the flattened tag list |
| `Projects.MatchesTerm` | src/hooks/useProjects.js:59-64 | the `includes`-based test holds exactly when the term is a substring of the lower-cased title, summary, some tag, or category |
| `Projects.SearchTerm` | src/hooks/useProjects.js:58 | the term is empty exactly when the query is empty or all whitespace; it holds no upper-case letter and neither starts nor ends with whitespace |
| `Projects.SearchProjects` | src/hooks/useProjects.js:55-65 | an empty or whitespace-only query returns the whole catalog; any other query returns an order-preserving subsequence holding exactly the projects that mention the lower-cased, trimmed query, each as often as in the catalog (empty when none does) |
| `Projects.SearchIgnoresQueryCase` | src/hooks/useProjects.js:56-58 | searching for the lower-cased query gives the same result as searching for the query |
| `Projects.ThreeProjectExample` | src/hooks/useProjects.js:13-29 | with projects 1 (A, featured), 2 (B) and 3 (A), filter A gives [1, 3], featured [1], regular [3] |
| `Projects.LookupExample` | src/hooks/useProjects.js:32-34 | in that catalog, id 999 finds nothing |
| `Sequences.Filter` | src/hooks/useProjects.js:17 | `filter` keeps exactly the elements that pass the test, each with its multiplicity in the input, and nothing else |
| `Sequences.FilterIsSubseq` | src/hooks/useProjects.js:17 | what `filter` keeps stays in input order |
| `Sequences.FilterComplement` | src/hooks/useProjects.js:21-29 | filtering by a test and by its negation splits the input: multisets and lengths add up and the two results share no element |
| `Sequences.Dedup` | src/hooks/useProjects.js:44 | `[...new Set(xs)]` has no duplicates and holds exactly the elements of `xs` |
| `Sequences.DedupFirstOccurrenceOrder` | src/hooks/useProjects.js:51 | its elements are in the order of their first occurrence in `xs` |
| `Sequences.FindIndex` | src/hooks/useProjects.js:33 | nothing exactly when no element passes; otherwise the position of the first element that passes |
| `Sequences.Find` | src/hooks/useProjects.js:33 | `find` returns nothing exactly when no element passes, otherwise the first element that passes |
| `Text.Trim` | src/hooks/useProjects.js:56 | `trim` returns a slice of its input, drops only whitespace, neither starts nor ends with whitespace, and is empty exactly when the input is all whitespace |
| `Text.TrimToLowerEmpty` | src/hooks/useProjects.js:56-58 | lower-casing does not change whether the trimmed query is empty |
| `Text.ToLowerIdempotent` | src/hooks/useProjects.js:58 | lower-casing twice is lower-casing once |
| `Text.ToLower` | src/hooks/useProjects.js:58 | lower-casing keeps the length, lower-cases each character in place, and leaves no upper-case letter |
| `Text.TrimKeepsLowerCase` | src/hooks/useProjects.js:58 | trimming a string without upper-case letters leaves none |
| `Text.LowerChar` | src/hooks/useProjects.js:58 | a lower-cased character is not upper case, and is whitespace exactly when the original is |
| `Text.Includes` | src/hooks/useProjects.js:60-63 | `includes` holds exactly when the needle occurs as a contiguous run of the haystack |
| `Modal.Initial` | src/hooks/useModal.js:16-17 | a fresh modal is closed and has no payload |
| `Modal.ModalController.constructor` | src/hooks/useModal.js:11-17 | a new controller has the given options, is in the initial state and satisfies the invariant |
| `Modal.ModalController.WithDefaults` | src/hooks/useModal.js:11-17 | a modal created without options has outside-click closing, Escape closing and the scroll lock all enabled, and starts closed |
| `Modal.OpenStep` | src/hooks/useModal.js:19-22 | after `open(payload)` the modal is open with that payload (no argument is modelled as `None`, the source's `null`) |
| `Modal.ModalController.Open` | src/hooks/useModal.js:19-22 | performs `OpenStep`; a closed, scroll-locking modal first saves the body's overflow style, then sets it to `'hidden'` (the effect at src/hooks/useModal.js:52-58) |
| `Modal.CloseStep` | src/hooks/useModal.js:24-27 | after `close()` the modal is closed with no payload |
| `Modal.ModalController.Close` | src/hooks/useModal.js:24-27 | performs `CloseStep`; an open, scroll-locking modal puts back the saved overflow style (the cleanup at src/hooks/useModal.js:59-61) |
| `Modal.ToggleStep` | src/hooks/useModal.js:29-35 | `toggle()` flips the open flag and leaves no payload: from Open it closes, from Closed it opens with `null` |
| `Modal.ModalController.Toggle` | src/hooks/useModal.js:29-35 | performs `ToggleStep`, by calling `Close` or `Open(None)` |
| `Modal.KeyDownStep` | src/hooks/useModal.js:38-49 | a key press either changes nothing or closes the modal; afterwards the modal is open exactly when it was open and not (Escape-closing enabled and key `'Escape'`) |
| `Modal.MouseDownStep` | src/hooks/useModal.js:66-77 | a press either changes nothing or closes the modal; afterwards the modal is open exactly when it was open and not (outside-click closing enabled, an overlay mounted and the target outside it) |
| `Modal.StepsKeepInv` | src/hooks/useModal.js:19-77 | every operation and event keeps the invariant: closed means no payload; open with the lock means hidden overflow |
| `Modal.OpenReplacesPayload` | src/hooks/useModal.js:19-22 | `open(x)` then `open(y)` is the same as `open(y)`: the last caller wins and nothing stacks |
| `Modal.CloseIdempotent` | src/hooks/useModal.js:24-27 | closing twice gives the same state as closing once |
| `Modal.CloseWhenClosedIsNoop` | src/hooks/useModal.js:24-27 | closing a closed modal changes nothing |
| `Modal.OpenThenCloseRestores` | src/hooks/useModal.js:52-63 | opening then closing gives back the closed flag, no payload, and exactly the overflow style the body had before |
| `Modal.ToggleTwiceFromClosed` | src/hooks/useModal.js:29-35 | toggling twice from Closed gives back the open flag, the payload and the overflow style |
| `Modal.KeyDownClosesOnlyOnEscape` | src/hooks/useModal.js:38-49 | a key press changes the state exactly when Escape-closing is enabled, the modal is open and the key is `'Escape'`, and it then closes the modal |
| `Modal.ModalController.HandleKeyDown` | src/hooks/useModal.js:38-49 | performs `KeyDownStep` |
| `Modal.EscapeIdempotent` | src/hooks/useModal.js:38-49 | a second Escape after the one that closed the modal does nothing |
| `Modal.MouseDownOutsideOnly` | src/hooks/useModal.js:66-77 | a press changes the state exactly when outside-click closing is enabled, an overlay is mounted, the target is outside it and the modal is open, and it then closes the modal; a press inside the overlay, with no overlay, or on a closed modal changes nothing |
| `Modal.ModalController.HandleMouseDown` | src/hooks/useModal.js:66-77 | performs `MouseDownStep`: closes only if outside-click closing is enabled, an overlay node is mounted and the target is not inside it |
| `Modal.UnmountStep` | src/hooks/useModal.js:59-61 | the teardown cleanup leaves the open flag and payload as they are |
| `Modal.Step` | src/hooks/useModal.js:19-77 | any single operation or event keeps the invariant |
| `Modal.Run` | src/hooks/useModal.js:19-77 | any sequence of operations and events keeps the invariant |
| `Modal.ModalController.Unmount` | src/hooks/useModal.js:59-61 | performs `UnmountStep`: an open, scroll-locking modal puts back the saved overflow style |
| `Modal.OverflowRestored` | src/hooks/useModal.js:52-63 | from a closed modal and after any sequence of operations and events: a closed modal shows the original overflow style, an open scroll-locking modal shows `'hidden'`, without the lock the style is untouched, and unmounting leaves the original style |
| `Modal.RunKeepsOverflowTracked` | src/hooks/useModal.js:52-63 | the overflow bookkeeping (`OverflowTracks`) holds after any sequence of operations and events |
| `Modal.UnlockedLeavesOverflow` | src/hooks/useModal.js:53 | with `lockBodyScroll` off, no sequence of operations and events, from any state, writes the body's overflow style |
| `Theme.ThemeName` | src/hooks/useTheme.js:49 | the derived theme name is `'dark'` exactly in dark mode and `'light'` otherwise |
| `Theme.InitialDarkMode` | src/hooks/useTheme.js:12-14 | with no stored theme the system preference decides; with a stored theme, dark exactly when it is `'dark'` |
| `Theme.InitialDarkModeCases` | src/hooks/useTheme.js:11-17 | with no stored theme the system preference decides; with one, dark exactly when it is `'dark'`; after storing a theme name, start-up resolves to that theme whatever the preference |
| `Theme.WithDarkClass` | src/hooks/useTheme.js:20-26 | `'dark'` is in the root's classes exactly when dark mode is asked for, and every other class is unchanged |
| `Theme.WithDarkClassKeeps` | src/hooks/useTheme.js:20-26 | applying the flag the classes already show leaves them as they are |
| `Theme.InitialState` | src/hooks/useTheme.js:11-18 | start-up sets the flag to `InitialDarkMode` of storage and preference, makes the root class agree with it, leaves storage unwritten and keeps every other class |
| `Theme.ThemeController.constructor` | src/hooks/useTheme.js:11-18 | the controller starts in `InitialState` of the storage, root classes and system preference |
| `Theme.ThemeController.UpdateDocumentClass` | src/hooks/useTheme.js:20-26 | the root's classes become `WithDarkClass` of the old ones; the flag and storage are untouched |
| `Theme.ToggleStep` | src/hooks/useTheme.js:28-37 | toggling negates the flag, stores the matching name, makes the root class agree, and leaves other storage keys and classes unchanged |
| `Theme.ThemeController.ToggleTheme` | src/hooks/useTheme.js:28-37 | performs `ToggleStep` |
| `Theme.SetThemeStep` | src/hooks/useTheme.js:39-43 | `setTheme(b)` sets the flag to `b`, stores `'dark'` exactly when `b`, makes the root class agree, and leaves other storage keys and classes unchanged |
| `Theme.ThemeController.SetTheme` | src/hooks/useTheme.js:39-43 | performs `SetThemeStep` |
| `Theme.ToggleIsSetOpposite` | src/hooks/useTheme.js:28-43 | toggling is `setTheme` with the opposite of the current flag |
| `Theme.SetThemeIdempotent` | src/hooks/useTheme.js:39-43 | setting the same theme twice gives the same state as setting it once |
| `Theme.ToggleTwice` | src/hooks/useTheme.js:28-37 | from a state whose root class agrees with the flag, two toggles give back the flag and the root's classes |
| `Theme.ReloadKeepsChoice` | src/hooks/useTheme.js:11-43 | once the theme has been set or toggled, starting afresh from the stored value and the root's classes reproduces the same state, whatever the system prefers |
| `Theme.ThemeController.Theme` | src/hooks/useTheme.js:49 | the derived `theme` is `'dark'` exactly in dark mode, otherwise `'light'` |

## Left out

- Presentational components are not part of this model: the JSX markup, styling, animation, the contact form and its email call, the Calendly script, scroll progress, the hero keyword rotation, the error boundary and the App shell. They only render what the hooks derive, or they are browser and network plumbing.
- React mechanics are collapsed into plain transitions: `useMemo`/`useCallback` memoisation and effect scheduling. The scroll-lock effect runs as part of the `isOpen` change it reacts to. In each hook the state between an event and the next render is not modelled.
- Listener lifetime is not modelled: attaching and detaching the `keydown` and `mousedown` listeners, and the ref-callback cleanup that may never run. The Escape rule is modelled as a guard on the handler (`closeOnEscape`, `isOpen`, key). An outside press is modelled as an event whose overlay node is `None` when no overlay element is mounted.
- `Modal.ModalController.Open`: the source saves the body's computed overflow and restores it as an inline style. The model has one overflow value, so it does not capture the difference between a computed style and an inline style.
- `Theme.ThemeController.ToggleTheme`: two calls within one render would both read the same stale `darkMode` in the source. The model assumes a render between calls, as the property "two toggles restore the theme" does.
- `Text.LowerChar`: `toLowerCase` is modelled for Basic Latin and Latin-1 upper-case letters only. Other Unicode case mappings (including ones that change string length) are not modelled.
- `Theme.ThemeController.constructor`: storage access failures are not modelled. Neither is the first render's `darkMode = false` before the start-up effect runs.
- Project metadata that no hook reads (images, links, write-ups, video) is omitted from `Projects.Project`. A project id is an integer, because the data file that fixes its type is not part of this model.
- `Projects.ProjectsView.SetFilter`: React's functional-updater form of `setFilter` and `setViewMode` is not modelled; only a new value is.
