# Desktop session manager — a verified Dafny model

This project models the state logic of a browser-based desktop simulation: a desktop page
with icons, overlapping application windows, a dock and a menu bar, together with a few
smaller pages built around it.

- **Desktop page** (`Desktop`, `Windows`, `DesktopIcons`, `Geometry`). The page holds four
  state cells: the desktop icons, the open windows, the focused window id and a stacking
  counter that starts at 10. `Desktop.DesktopSession` is a class with those four fields.
  Each event handler of the page is one of its methods:
  - launching an app from the dock or a menu;
  - focusing, closing, minimizing and maximizing a window;
  - selecting, double-clicking and dropping an icon;
  - clicking the desktop background;
  - the "Close Window" and "Minimize" menu commands.

  The `map`/`filter`/`sort` rewrites those handlers apply to the window list are pure
  functions in `Windows`. The icon rewrites are in `DesktopIcons`, and the drop clamp is in
  `Geometry`. The registry invariant covers four things:
  - ids are unique;
  - z-indices strictly ascend in list order, so they are pairwise distinct;
  - every z-index is at most the counter;
  - a window's active flag is set exactly when the focused id names it.

  Every handler keeps this invariant.
- **Finder page** (`Finder`). A catalog of seven entries with one selected id, an icon/list
  view switch, an unclamped drop position and a case-insensitive name search. It also
  models the "N item(s)" status bar and the "No items match" message.
- **Launchpad** (`Launchpad`). Eighteen apps, filtered by name or by any keyword.
- **Notes demo page** (`GenericApp`). One window that is active or inactive. It has a
  derived z-index, a title that falls back when the filename is empty, and a Clear action.
- **Finder sidebar** (`FinderSidebar`). The predicate that decides which sidebar entry is
  highlighted for the current route.

Supporting modules:

- `Text`: ASCII case mapping, substring and prefix tests, decimal rendering.
- `Sequences`: `filter` and order-preserving subsequences.
- `Wrappers`: `Option`.
- `RegistryScenarios`: multi-step sessions proved from the single-step lemmas.

Rendered React nodes (window content and glyphs) are an opaque type parameter `N`.
Minimizing stores the empty fragment `<></>`, modelled as `View.EmptyFragment`.
`Array.prototype.sort` is stable, and it is modelled as a stable insertion sort by
ascending z-index (`Windows.SortByZ`).

Two behaviours of the code worth knowing:

- **Focus on an id that is not open.** It is not a no-op. It still draws a new z-index,
  clears every window's active flag and sets the focused id (`Windows.FocusMissing`,
  `Desktop.DesktopSession.FocusWindow`).
- **Truthiness of the focused id.** The handlers and menu commands use JavaScript
  truthiness. An empty-string id counts as "no focus" (`Desktop.Truthy`).

## Model

| member | source | states |
|---|---|---|
| Desktop.DesktopSession.constructor | src/pages/DesktopEnvironmentPage.tsx:93-96 | the page starts with the three catalog icons, no windows, no focus and the counter at 10, and the invariant holds |
| Desktop.DesktopSession.LaunchApp | src/pages/DesktopEnvironmentPage.tsx:107-140 | the counter rises by exactly one and the launched id becomes focused. An open id keeps exactly one window, moved to the end with the new z-index and active; the others keep their order and go inactive. A new id appends one window at the cascade offset for the old window count, with the default size when none is given. The invariant is kept |
| Desktop.DesktopSession.FocusWindow | src/pages/DesktopEnvironmentPage.tsx:218-228 | focusing the focused id changes nothing, the counter included. Otherwise the counter rises by one, the id becomes focused and its window is the only active one, moved to the end with the new z-index |
| Desktop.DesktopSession.CloseWindow | src/pages/DesktopEnvironmentPage.tsx:211-216 | every window with that id is removed and the others keep their order. Focus is cleared only when it was on that id, and no other window is promoted |
| Desktop.DesktopSession.MinimizeWindow | src/pages/DesktopEnvironmentPage.tsx:230-237 | that window stays in place with empty content, size 0x0 and inactive. Every other window is untouched, and focus is cleared only when it was on that id |
| Desktop.DesktopSession.MaximizeWindow | src/pages/DesktopEnvironmentPage.tsx:239-243 | changes no state and keeps the invariant |
| Desktop.DesktopSession.SelectIcon | src/pages/DesktopEnvironmentPage.tsx:245-253 | afterwards an icon is selected exactly when it has that id. When a window had focus, every window is deactivated and focus is cleared; otherwise the windows are untouched |
| Desktop.DesktopSession.ClickDesktop | src/pages/DesktopEnvironmentPage.tsx:289-297 | no icon stays selected. Windows lose focus under the same rule as icon selection |
| Desktop.DesktopSession.DragEndIcon | src/pages/DesktopEnvironmentPage.tsx:267-287 | with a measured container, only the dragged icon moves, to the clamped drop position. Without one, nothing changes |
| Desktop.DesktopSession.DoubleClickIcon | src/pages/DesktopEnvironmentPage.tsx:255-265 | opens or refocuses the window `folder-window-<id>` or `file-window-<id>`, titled with the icon's name or the kind's fallback, as a launch |
| Desktop.DesktopSession.ClickDockEntry | src/pages/DesktopEnvironmentPage.tsx:142-173 | a window-opening dock entry launches its app with its own size. The Launchpad entry leaves the page, so the desktop is next seen in its initial state |
| Desktop.DesktopSession.CloseActiveWindow | src/pages/DesktopEnvironmentPage.tsx:197 | closes the focused window. With no (truthy) focused id, nothing changes |
| Desktop.DesktopSession.MinimizeActiveWindow | src/pages/DesktopEnvironmentPage.tsx:313 | minimizes the focused window. With no (truthy) focused id, nothing changes |
| Desktop.DesktopSession.DockIndicator | src/pages/DesktopEnvironmentPage.tsx:386 | the dock dot for an app is shown exactly when that app's window is open and is the focused one |
| Desktop.DesktopSession.ClickInsideWindowAsWired | src/pages/DesktopEnvironmentPage.tsx:324-366 | as the page is wired, a left click inside a window raises it with a fresh z-index (unless it had focus), then deselects every icon and deactivates every window: no window is focused or active and no dock dot is shown, though the clicked window is on top |
| Desktop.DesktopSession.ClickInsideWindow | src/pages/DesktopEnvironmentPage.tsx:218-228 | a click that does not reach the desktop area is exactly a focus: the clicked window is raised to the top with a fresh z-index (unless it had focus), becomes the focused one and shows its dock dot; the icons are untouched |
| Desktop.IconWindowId | src/pages/DesktopEnvironmentPage.tsx:261-263 | the window id is the icon id behind a non-empty kind prefix |
| Desktop.IconWindowIdInjective | src/pages/DesktopEnvironmentPage.tsx:261-263 | different icons, or a folder and a file with the same id, never open the same window |
| Desktop.IconWindowTitle | src/pages/DesktopEnvironmentPage.tsx:257-263 | the title is never empty, and it is the icon's name whenever the icon is found with a non-empty name |
| Geometry.ClampAxis | src/pages/DesktopEnvironmentPage.tsx:278-279 | the result is never negative, never above a non-negative limit, equals the input when it fits, and pins to the nearer bound otherwise |
| Geometry.ToContainer | src/pages/DesktopEnvironmentPage.tsx:271-272 | adding the container's left/top offset back gives the viewport point |
| Geometry.DropPosition | src/pages/DesktopEnvironmentPage.tsx:267-279 | a drop lands at x, y >= 0 and at most dimension − 96 when the container is at least 96 wide (tall). It lands at 0 when the container is smaller, and exactly at the translated point when the icon fits there. A drop left of (above) the container lands on 0; one past the far edge lands on dimension − 96 |
| Geometry.DropPositionExample | src/pages/DesktopEnvironmentPage.tsx:271-279 | in a 400x300 container at the origin, a drop at (−50, 500) lands at (0, 204) |
| Geometry.DropPositionKeepsFittingPoint | src/pages/DesktopEnvironmentPage.tsx:271-279 | a drop where the icon already fits is only translated, never clamped |
| Windows.CascadeOffset | src/pages/DesktopEnvironmentPage.tsx:121-122 | the offset is diagonal, lies between 100 and 220, and is 100 + 30n for the first five windows |
| Windows.CascadeRepeatsEveryFive | src/pages/DesktopEnvironmentPage.tsx:121-122 | the offset repeats with period five in the number of open windows |
| Windows.AtMostOneActive | src/pages/DesktopEnvironmentPage.tsx:95 | under the registry invariant at most one window is active |
| Windows.Without | src/pages/DesktopEnvironmentPage.tsx:212 | the close filter never grows the list and leaves no window with that id |
| Windows.InsertByZElements | src/pages/DesktopEnvironmentPage.tsx:118 | one insertion step of the sort keeps every window and adds the inserted one, and keeps any upper bound on z-indices |
| Windows.InsertByZSorted | src/pages/DesktopEnvironmentPage.tsx:118 | inserting into a list in paint order keeps it in paint order |
| Windows.SortByZSortedPermutation | src/pages/DesktopEnvironmentPage.tsx:118-136 | the sort by z-index yields ascending z-indices and is a permutation of its input |
| Windows.SortByZOfSorted | src/pages/DesktopEnvironmentPage.tsx:118-136 | sorting a list already in paint order returns it unchanged |
| Windows.SortMovesTopToEnd | src/pages/DesktopEnvironmentPage.tsx:114-118 | when one window is raised above the others and they are in paint order, the sort moves it to the end and leaves the others in place |
| Windows.RemoveAtKeeps | src/pages/DesktopEnvironmentPage.tsx:109-118 | taking one window out of a valid registry keeps ids unique and z-indices ascending and bounded, and no other window has its id |
| Windows.AppendTopKeepsInvariant | src/pages/DesktopEnvironmentPage.tsx:124-136 | appending an active window with a fresh id and the next z-index to a registry with no active window yields a valid registry focused on it |
| Windows.RaisedSplit | src/pages/DesktopEnvironmentPage.tsx:114-117 | with unique ids, raising a window touches exactly that window and deactivates the rest |
| Windows.RaiseExisting | src/pages/DesktopEnvironmentPage.tsx:222-226 | raising an open window gives the others in their old order, deactivated, then that window, active with the new z-index, and the registry stays valid |
| Windows.LaunchNew | src/pages/DesktopEnvironmentPage.tsx:119-136 | launching an id that is not open appends one new active window at the cascade offset after the deactivated old list, and the registry stays valid |
| Windows.LaunchExisting | src/pages/DesktopEnvironmentPage.tsx:109-118 | launching an open id keeps one window for it, moved to the end, active and with the new z-index; the registry stays valid |
| Windows.LaunchOutcome | src/pages/DesktopEnvironmentPage.tsx:107-140 | every launch keeps the registry valid, grows the list by at most one window (exactly one for a new id), and ends with the launched window active and last |
| Windows.FocusMissing | src/pages/DesktopEnvironmentPage.tsx:218-228 | focusing an id that is not open only deactivates every window, while the registry moves to the new counter and the new focused id |
| Windows.WithoutRemovesOne | src/pages/DesktopEnvironmentPage.tsx:212 | with unique ids the close filter removes exactly the window at that id's index |
| Windows.WithoutAbsent | src/pages/DesktopEnvironmentPage.tsx:212 | closing an id that is not open changes nothing |
| Windows.CloseKeepsInvariant | src/pages/DesktopEnvironmentPage.tsx:211-216 | closing keeps the registry valid, with focus cleared only when it named the closed id |
| Windows.MinimizeKeepsInvariant | src/pages/DesktopEnvironmentPage.tsx:230-237 | minimizing keeps the registry valid, touches only the windows with that id, and collapses those |
| Windows.DeactivateKeepsInvariant | src/pages/DesktopEnvironmentPage.tsx:293-296 | clearing every active flag with focus cleared keeps the registry valid, and no window is left active |
| Windows.DockRunningIffFocused | src/pages/DesktopEnvironmentPage.tsx:386 | in a valid registry the dock's `some` test holds exactly when the app is open and focused |
| DesktopIcons.FindIcon | src/pages/DesktopEnvironmentPage.tsx:257 | a found icon has the id and is in the list. Nothing is found exactly when no icon has the id |
| DesktopIcons.InitialIconsValid | src/pages/DesktopEnvironmentPage.tsx:62-86 | the initial icons have unique ids and none is selected twice |
| DesktopIcons.SelectIsExclusive | src/pages/DesktopEnvironmentPage.tsx:247 | after a selection exactly the icon with that id is selected, whatever was selected before |
| DesktopIcons.DeselectAllClears | src/pages/DesktopEnvironmentPage.tsx:291 | a background click leaves no icon selected |
| DesktopIcons.MoveChangesOnlyDragged | src/pages/DesktopEnvironmentPage.tsx:281-285 | a drop changes only the dragged icon's position |
| RegistryScenarios.FreshLaunchStep | src/pages/DesktopEnvironmentPage.tsx:119-136 | a launch of a new id appends its id with the next z-index at the cascade offset, and leaves the earlier windows' positions alone |
| RegistryScenarios.OpenAllCascades | src/pages/DesktopEnvironmentPage.tsx:119-136 | launching distinct new apps in turn appends them in launch order. The k-th window overall opens at the cascade offset for k, and the registry stays valid with the last launched app focused |
| RegistryScenarios.SixthWindowReusesFirstOffset | src/pages/DesktopEnvironmentPage.tsx:121-122 | from an empty desktop the first window opens at (100, 100), the fifth at (220, 220), and the sixth where the first did |
| RegistryScenarios.TwoLaunches | src/pages/DesktopEnvironmentPage.tsx:107-140 | launching two different apps that are not open appends their windows in launch order, the second on top with z = counter + 2 and focused |
| RegistryScenarios.RefocusFromEmptyDesktop | src/pages/DesktopEnvironmentPage.tsx:107-140 | from a fresh desktop, a, b, a leaves exactly two windows: b at z 12 and a above it at z 13, with only a's dock dot shown |
| RegistryScenarios.RefocusKeepsOneWindowPerApp | src/pages/DesktopEnvironmentPage.tsx:107-140 | launching a, then b, then a again (neither open before) adds exactly two windows: b (z = counter + 2) just below a (z = counter + 3). The invariant holds with a focused, and a's is the only dock dot shown |
| Finder.InitialItemsUnique | src/pages/FinderInterface.tsx:53-61 | the seven catalog entries have unique ids |
| Finder.FilteredItems | src/pages/FinderInterface.tsx:106-108 | the search keeps exactly the entries whose lower-cased name contains the lower-cased term, in catalog order |
| Finder.EmptySearchKeepsAll | src/pages/FinderInterface.tsx:106-108 | an empty term keeps every entry |
| Finder.SearchIgnoresCase | src/pages/FinderInterface.tsx:107 | typing the term in capitals or lower case gives the same result |
| Finder.NoMatchMessageIff | src/pages/FinderInterface.tsx:246 | "No items match" shows exactly when the term is non-empty and no name contains it, and never for an empty term |
| Finder.IconViewItems | src/pages/FinderInterface.tsx:199-200 | the icon view draws exactly the filtered entries that have a position, in catalog order |
| Finder.StatusTextReadsBack | src/pages/FinderInterface.tsx:256 | the status bar is the count in decimal, which reads back as the count, followed by " item" for exactly one entry and " items" otherwise |
| Finder.StatusTextExamples | src/pages/FinderInterface.tsx:256 | one entry reads "1 item", none reads "0 items", seven read "7 items" |
| Finder.MoveSetsPositionVerbatim | src/pages/FinderInterface.tsx:98-104 | a drop stores the given position on the dragged entry without clamping and leaves every other entry unchanged |
| Finder.ItemsMovedAppend | src/pages/FinderInterface.tsx:99-103 | the drop rewrite works element by element (it distributes over concatenation) |
| Finder.MoveCommutesWithSearch | src/pages/FinderInterface.tsx:98-108 | moving an entry never changes which entries the search shows |
| Finder.FinderWindow.constructor | src/pages/FinderInterface.tsx:79-82 | the page starts with the catalog, nothing selected, the icon view and an empty term |
| Finder.FinderWindow.SelectItem | src/pages/FinderInterface.tsx:89-91 | the selected id becomes exactly the given one, and nothing else changes |
| Finder.FinderWindow.DragEndItem | src/pages/FinderInterface.tsx:98-104 | the entries become the drop rewrite of the old entries, and nothing else changes |
| Finder.FinderWindow.SetSearchTerm | src/pages/FinderInterface.tsx:167-168 | the term is replaced, and nothing else changes |
| Finder.FinderWindow.SetView | src/pages/FinderInterface.tsx:144-152 | the view is replaced, and nothing else changes |
| Finder.FinderWindow.StatusBar | src/pages/FinderInterface.tsx:256 | the status bar starts with the decimal number of entries the current term shows, which reads back as that number, and ends in " item" when it is one and " items" otherwise |
| Finder.FinderWindow.AtMostOneRenderedSelected | src/pages/FinderInterface.tsx:207 | with unique ids at most one entry is drawn selected |
| Launchpad.FilteredApps | src/pages/LaunchpadInterface.tsx:73-76 | the search keeps exactly the apps whose name or one of whose keywords contains the term, ignoring case, in list order |
| Launchpad.NoKeywordsMeansNameOnly | src/pages/LaunchpadInterface.tsx:75 | an app without keywords is matched on its name alone |
| Launchpad.EmptyTermListsAll | src/pages/LaunchpadInterface.tsx:38-76 | an empty term lists every app, all 18 of the catalog |
| Launchpad.MatchIgnoresTermCase | src/pages/LaunchpadInterface.tsx:74-75 | whether an app matches does not depend on the case of the term |
| Launchpad.SearchIgnoresCase | src/pages/LaunchpadInterface.tsx:74-75 | the term in capitals or lower case lists the same apps |
| Launchpad.NoResultsIff | src/pages/LaunchpadInterface.tsx:112-124 | "No results" shows exactly when no app matches, and never for an empty term over the catalog |
| Launchpad.KeywordFindsSystemSettings | src/pages/LaunchpadInterface.tsx:73-76 | "CONTROL" matches System Settings through its keyword "control panel" |
| GenericApp.DemoZIndexOrdersWindows | src/pages/GenericAppInterface.tsx:104 | the active window is drawn at 20, above the inactive 10, and the z-index is 20 exactly when active |
| GenericApp.DemoTitle | src/pages/GenericAppInterface.tsx:100 | the title is never empty. It is the filename when there is one, else "Generic Application" |
| GenericApp.NotesDemo.constructor | src/pages/GenericAppInterface.tsx:12-21 | the window starts active, titled "Demo Note", with the introductory text |
| GenericApp.NotesDemo.HandleFocus | src/pages/GenericAppInterface.tsx:32-35 | focus makes the window active, at z 20, and keeps the text and filename |
| GenericApp.NotesDemo.BackgroundClick | src/pages/GenericAppInterface.tsx:96 | a background click makes the window inactive, at z 10 |
| GenericApp.NotesDemo.Clear | src/pages/GenericAppInterface.tsx:74-78 | Clear empties the text and renames the note "Untitled Note", which becomes the title |
| GenericApp.NotesDemo.SetFilename | src/pages/GenericAppInterface.tsx:55 | the filename is replaced, and an emptied filename shows the fallback title |
| GenericApp.NotesDemo.SetNotesContent | src/pages/GenericAppInterface.tsx:65 | the text is replaced, and nothing else changes |
| GenericApp.NotesDemo.HandleClose | src/pages/GenericAppInterface.tsx:26-30 | close changes no state on this page |
| GenericApp.NotesDemo.HandleMinimize | src/pages/GenericAppInterface.tsx:37-39 | minimize changes no state on this page |
| GenericApp.NotesDemo.HandleMaximize | src/pages/GenericAppInterface.tsx:41-43 | maximize changes no state on this page |
| GenericApp.NotesDemo.ClickInsideWindowAsWired | src/pages/GenericAppInterface.tsx:92-109 | as the page is wired, a left click inside the window leaves it inactive |
| GenericApp.NotesDemo.ClickInsideWindow | src/pages/GenericAppInterface.tsx:32-35 | a click that does not reach the background leaves the window active, at z 20 |
| FinderSidebar.ActiveOnOwnRoute | src/components/FinderSidebarItem.tsx:23 | an entry is highlighted on exactly its own route |
| FinderSidebar.NonRootMatchesPrefix | src/components/FinderSidebarItem.tsx:23 | an entry other than "/" is highlighted exactly on the routes that start with its target |
| FinderSidebar.RootMatchesOnlyRoot | src/components/FinderSidebarItem.tsx:23 | the "/" entry is highlighted on "/" alone |
| FinderSidebar.InactiveOtherwise | src/components/FinderSidebarItem.tsx:23 | a route that neither equals the target nor, off the root, starts with it leaves the entry plain |
| FinderSidebar.PrefixIsNotSegmentAware | src/components/FinderSidebarItem.tsx:23 | the test is on characters, not path segments: "/foo" is highlighted on "/foobar" |
| Text.ToLower | src/pages/FinderInterface.tsx:107 | lower-casing keeps the length, turns every ASCII capital into its lower-case letter and leaves every other character alone |
| Text.ToLowerIgnoresCase | src/pages/LaunchpadInterface.tsx:74-75 | lower-casing forgets the case a string was written in, and is idempotent |
| Text.ContainsIff | src/pages/FinderInterface.tsx:107 | `includes` holds exactly when the term occurs at some offset |
| Text.NatToStringRoundTrip | src/pages/FinderInterface.tsx:256 | the decimal rendering of a count reads back as that count |
| Sequences.Filter | src/pages/FinderInterface.tsx:106-108 | an element is in the result exactly when it is in the input and accepted, and the result is never longer |
| Sequences.FilterMultiplicity | src/pages/FinderInterface.tsx:106-108 | every accepted element appears in the result as often as in the input, and no rejected one appears |
| Sequences.FilterIsSubsequence | src/pages/LaunchpadInterface.tsx:73-76 | the filter result is an order-preserving subsequence of its input |
| Sequences.FilterKeepsAll | src/pages/LaunchpadInterface.tsx:73-76 | a test that accepts every element returns the input unchanged |
| Sequences.FilterCongruent | src/pages/LaunchpadInterface.tsx:73-76 | two tests that agree on the input select the same elements |

## Findings

| source | as written | input that shows it | evidently intended | confidence | as-written member | corrected member |
|---|---|---|---|---|---|---|
| src/pages/DesktopEnvironmentPage.tsx:324-366 | the window frame focuses on left mouse-down but does not stop the click. The click bubbles to the desktop area, whose handler deactivates every window and clears the focused id | a left click on the content of any window with a non-empty id | clicking inside a window leaves it focused and active, with its dock dot shown, as the frame's own comment says | medium, not executed | Desktop.DesktopSession.ClickInsideWindowAsWired | Desktop.DesktopSession.ClickInsideWindow |
| src/pages/GenericAppInterface.tsx:92-97 | the same bubbling on the demo page: the focus sets the window active, then the background's click handler sets it inactive | a left click inside the demo window's content | "click the window to activate", as the page's own help text says | medium, not executed | GenericApp.NotesDemo.ClickInsideWindowAsWired | GenericApp.NotesDemo.ClickInsideWindow |

## Left out

- Rendering (JSX, styling, animation, tooltips) is not modelled. Window content and glyphs
  are an opaque type parameter.
- Window dragging and the random default position in `src/components/WindowFrame.tsx` are
  not modelled, because framer-motion does the drag. A window's stored position is its
  launch position.
- `src/components/DesktopFileIcon.tsx` is not part of this model beyond the raw pointer
  point it forwards, which `DragEndIcon` takes as input.
- The container measurement (`getBoundingClientRect`) is an optional `Rect` argument. An
  absent container stands for the unmounted ref.
- Coordinates are integers. Fractional pixel values are not modelled.
- The clock timer, the Escape-key listener on the Launchpad, `alert`, `console.log` and
  all navigation (`navigate`, `Link`, routing) are left out, because they are side effects
  with no state in the core.
- Desktop.DesktopSession.ClickDockEntry: the Launchpad entry leaves the desktop page,
  which discards its state. The model resets the session to its initial state and does
  not model the Launchpad page shown in between or the route back.
- The menu entries that only log are left out. The entries that launch ("About This Mac",
  "System Settings...", "New Finder Window") are calls of `LaunchApp` with fixed arguments.
- React's batching of state updates and the stale capture of `nextZIndex` inside
  `useCallback` are not modelled. Each handler is one atomic transition on the current
  state.
- Event bubbling is modelled only for the click inside a window (see Findings). Other
  compositions of handlers within one input event are not modelled.
- Desktop.DesktopSession.DoubleClickIcon: does not model an icon's `onDoubleClickAction`,
  because no icon in the catalog carries one.
- Sequences.Filter: its own contract states membership and length only; how often each
  element is kept is stated by `Sequences.FilterMultiplicity`, kept apart so that the
  search lemmas do not reason about multisets.
- Text.ToLower: lower-cases ASCII letters only. JavaScript's Unicode case mapping is not
  modelled.
- Finder list view: the table columns (date, size, kind) are carried as data, but the
  table rendering is not modelled. The list-row click only logs.
- `src/pages/SystemPreferencesInterface.tsx`, `src/components/MenuBarItem.tsx`,
  `src/components/LaunchpadAppIcon.tsx` and `src/App.tsx` are not part of this model. They
  hold no logic beyond widget state and routing.
- The Finder entries' and Launchpad apps' glyph components are left out as presentational.
