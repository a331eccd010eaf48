# App grid sorter, modelled in Dafny

A model of the ordering logic of the GNOME Shell extension
`app-grid-sorter@pantas.net`. The extension replaces two methods of the
shell's application grid.

- `_compareItems` becomes a comparator that reads the persisted `sort-mode`
  on every call. It orders icons by name ("alphabetical"), by the shell's
  usage statistics ("usage"), or by the modification time of their desktop
  files ("date-added"). Any other mode ("manual" included), a missing or
  empty attribute, or a usage lookup that throws compares the two icons as
  equal. A desktop file that cannot be read does not: the time search goes
  on to the next directory, and an application found nowhere gets time 0.
- `_redisplay` becomes a grid refresh. It loads the application list and
  sorts it unless the mode is "manual". It removes and destroys the icons
  whose id left the list. It then puts every icon of the new list on page
  `floor(i / itemsPerPage)` in slot `i % itemsPerPage`, adding it when its id
  is new and moving it otherwise. Finally it stores the new list as the
  display order.

The quick-settings toggle's `_resort` refreshes the grid, unless there is no
grid or the grid's page manager is in the middle of updating its pages.

Files:

- `records.dfy` (module `AppRecords`): icons as values, JavaScript truthiness
  of optional strings, and the `map` and `filter` helpers.
- `desktop_files.dfy` (module `DesktopFiles`): the desktop-file
  modification-time lookup, over an abstract file system.
- `sorting.dfy` (module `Sorting`): the host's `Array.prototype.sort`,
  modelled as a stable insertion sort. It is proved to be a permutation, to
  be sorted whenever the comparator is consistent on the input, and to
  be stable. Consistent (`Sorting.PreorderOn`) means the comparator's sign
  flips when its arguments are swapped, and "may stay before"
  (`cmp(x, y) <= 0`) is total and transitive: a total preorder.
- `compare_items.dfy` (module `CompareItems`): the comparator,
  `CompareItems.Compare`, and the lemmas that characterise each mode.
- `app_grid.dfy` (module `AppGrid`): the refresh, the display it mutates (a
  class with the display order and a log of the grid calls made), and the
  toggle's guarded resort.

Everything the code consults outside itself is a parameter, collected in
`CompareItems.SortContext`:

- the `sort-mode` string;
- `String.prototype.localeCompare`;
- `Shell.AppUsage.compare`, returning `None` when the call throws;
- the file system;
- the home directory.

The file system is a map from path to the result of querying that path's
modification time. A path is a key when `GLib.file_test(path, EXISTS)` holds.
A `None` value stands for a `query_info` call that throws. The `try` block
around the query (extension.js lines 60-66) can also throw after a
successful query: its log line formats the time as a date, and that fails
for a time beyond 8.64e12 seconds either side of the epoch. The model skips
such a directory as well (`DesktopFiles.Formattable`). The list
`this._loadApps()` returns is a parameter of the refresh.

The refresh is stated against `AppGrid.Reconcile`, the exact sequence of
grid calls going from the old display order to the new one. The lemmas
about `Reconcile` give the id diff:

- which icons are removed and destroyed;
- that the cleanup comes first;
- which call each icon of the new list gets;
- the page and slot arithmetic.

A second refresh only moves icons, to the slots they already occupy, when
it gets the same loaded list, the same context (mode, usage statistics,
desktop-file times, locale comparison, home directory) and the same page
size. This follows from `AppGrid.Redisplay` and
`AppGrid.ReconcileSameListOnlyMoves` together. With a different context,
for example other usage statistics, the sorted list can differ and icons
are moved to other slots.

Two facts about the code that are easy to miss:

- `_redisplay` never removes duplicate icons. The new list is whatever
  `_loadApps` returns, sorted or in loader order (`AppGrid.Arranged`), and
  the filters keep every occurrence (`AppRecords.WithoutCounts`).
- In "manual" mode the refresh skips the sort
  (`AppGrid.ManualKeepsLoaderOrder`), and the comparator itself answers 0
  in that mode (`CompareItems.OtherModesAreEqual`).

## Model

| member | source | states |
|---|---|---|
| AppRecords.Truthy | app-grid-sorter@pantas.net/extension.js:114 | JavaScript truthiness of an optional string, as in `!a.name` and `!a.id` (also lines 119 and 126); no contract of its own: false exactly for an absent or empty string |
| AppRecords.Ids | app-grid-sorter@pantas.net/extension.js:155 | `map(icon => icon.id)`: one id per icon, the id of the icon at the same index |
| AppRecords.Without | app-grid-sorter@pantas.net/extension.js:163-164 | the `filter` by id: an icon is kept exactly when it is in the list and its id is not among the given ids; it never grows the list |
| AppRecords.WithoutCounts | app-grid-sorter@pantas.net/extension.js:163-164 | the filter keeps each icon whose id is not among the ids exactly as many times as it occurs, and no other icon |
| AppRecords.WithoutKeepsOrder | app-grid-sorter@pantas.net/extension.js:163-164 | the filter keeps the input's order: filtering a concatenation concatenates the filtered parts |
| AppRecords.WithoutSingle | app-grid-sorter@pantas.net/extension.js:163-164 | a single icon is kept exactly when its id is not among the ids |
| AppRecords.InIds | app-grid-sorter@pantas.net/extension.js:161-164 | an id is in the mapped id list exactly when some icon of the list carries it, which is what `includes` on the ids tests |
| DesktopFiles.DesktopDirs | app-grid-sorter@pantas.net/extension.js:50-55 | the four search directories; the first is under the home directory |
| DesktopFiles.EntryPath | app-grid-sorter@pantas.net/extension.js:58 | the candidate path `dir + "/" + appId`; no contract of its own |
| DesktopFiles.Formattable | app-grid-sorter@pantas.net/extension.js:64-65 | the time, in seconds, lies within the range a JavaScript `Date` can format (8.64e12 seconds either side of the epoch); no contract of its own |
| DesktopFiles.Yields | app-grid-sorter@pantas.net/extension.js:59-66 | the file exists and the whole `try` block completes: the query succeeds and its time is formattable; no contract of its own |
| DesktopFiles.FirstMtime | app-grid-sorter@pantas.net/extension.js:57-74 | the search through the directories in order; no contract of its own: characterised by FirstMtimeIsFirstMatch and FirstMtimeIsOnFile |
| DesktopFiles.DesktopFileMtime | app-grid-sorter@pantas.net/extension.js:49-75 | the search through `DesktopDirs(homeDir)`; no contract of its own: `GetDesktopFileMtime` is proved equal to it, and FirstMtimeIsFirstMatch describes it |
| DesktopFiles.GetDesktopFileMtime | app-grid-sorter@pantas.net/extension.js:49-75 | the loop over the directories returns exactly the first-match search result `DesktopFileMtime`, skipping entries whose query or date formatting throws |
| DesktopFiles.FirstMtimeIsFirstMatch | app-grid-sorter@pantas.net/extension.js:57-74 | the result is the time of the first directory whose entry exists and whose `try` block completes; missing or unreadable entries before it do not matter; 0 when no directory yields a time |
| DesktopFiles.UnformattableTimeSkipped | app-grid-sorter@pantas.net/extension.js:57-68 | a home-directory entry whose time cannot be formatted as a date is skipped, and the time under /usr/share/applications is returned |
| DesktopFiles.FirstMtimeIsOnFile | app-grid-sorter@pantas.net/extension.js:57-74 | the result is 0 or the time of some readable, formattable entry in one of the directories |
| Sorting.Insert | app-grid-sorter@pantas.net/extension.js:159 | one insertion step of the sort adds exactly the inserted element (multiset) |
| Sorting.SortBy | app-grid-sorter@pantas.net/extension.js:159 | `sort` returns a permutation of its input, for any comparator |
| Sorting.ConsSorted | app-grid-sorter@pantas.net/extension.js:159 | an element that may stay before every element of a sorted list can be put in front of it, and the list stays sorted |
| Sorting.InsertSorted | app-grid-sorter@pantas.net/extension.js:159 | inserting into a sorted list keeps it sorted when the comparator is consistent on the elements |
| Sorting.SortBySorted | app-grid-sorter@pantas.net/extension.js:159 | for a comparator that is consistent on the input, `sort` orders every pair of positions by it |
| Sorting.InsertStable | app-grid-sorter@pantas.net/extension.js:159 | an insertion step keeps the relative order of the elements tied with any given element |
| Sorting.SortByStable | app-grid-sorter@pantas.net/extension.js:159 | for a comparator consistent on the input and the given element, `sort` is stable: the elements tied with that element come out in input order |
| CompareItems.Compare | app-grid-sorter@pantas.net/extension.js:108-142 | the comparator itself; no contract of its own: characterised per mode by AlphabeticalByName, MissingIdIsEqual, UsageForwardsIds, OtherModesAreEqual and DateAddedNewerFirst |
| CompareItems.MtimeOf | app-grid-sorter@pantas.net/extension.js:130-131 | the `getDesktopFileMtime(id)` call for an icon with an id; no contract of its own: it is the search `DesktopFileMtime` in the context's file system and home directory |
| CompareItems.Comparator | app-grid-sorter@pantas.net/extension.js:159 | `this._compareItems.bind(this)`, the comparator value handed to the sort; no contract of its own: it applies `Compare` in the given context |
| CompareItems.AlphabeticalByName | app-grid-sorter@pantas.net/extension.js:113-116 | "alphabetical": 0 when either name is missing or empty, otherwise the locale comparison of the names |
| CompareItems.MissingIdIsEqual | app-grid-sorter@pantas.net/extension.js:118-129 | "usage" and "date-added": 0 when either id is missing or empty, whatever the usage service and file system hold |
| CompareItems.UsageForwardsIds | app-grid-sorter@pantas.net/extension.js:112-141 | "usage" with both ids: the usage service's answer for the two ids in argument order; 0 when that call throws |
| CompareItems.OtherModesAreEqual | app-grid-sorter@pantas.net/extension.js:112-141 | any mode other than the three named ones, "manual" included, gives 0 for every pair |
| CompareItems.DateAddedNewerFirst | app-grid-sorter@pantas.net/extension.js:124-134 | "date-added" with both ids: `mtime(b) - mtime(a)`, antisymmetric, negative exactly when `a` is newer; `a` may stay first exactly when its time is at least `b`'s |
| CompareItems.DateAddedIsPreorder | app-grid-sorter@pantas.net/extension.js:130-134 | on icons that all have ids, "date-added" is consistent: sign-antisymmetric, total and transitive |
| CompareItems.AlphabeticalIsPreorder | app-grid-sorter@pantas.net/extension.js:113-116 | on icons that all have names, "alphabetical" is consistent whenever the locale comparison is consistent on those names |
| AppGrid.Arranged | app-grid-sorter@pantas.net/extension.js:151-160 | the new list is a permutation of the loaded list |
| AppGrid.Stale | app-grid-sorter@pantas.net/extension.js:164 | `removedApps`: the displayed icons whose id is absent from the new ids; no contract of its own: its content is given by `Without` and ReconcileRemovesExactlyStale |
| AppGrid.Reconcile | app-grid-sorter@pantas.net/extension.js:163-181 | the whole sequence of grid calls one refresh makes; no contract of its own: characterised by ReconcileRemovesExactlyStale, ReconcileCleansUpFirst, ReconcileLength, ReconcilePlacesIcon and ReconcileSameListOnlyMoves |
| AppGrid.Cleanup | app-grid-sorter@pantas.net/extension.js:166-169 | two calls per stale icon |
| AppGrid.Place | app-grid-sorter@pantas.net/extension.js:172-181 | the call for one icon is an add or a move of that icon, and an add exactly when the icon is among the added ones |
| AppGrid.Placements | app-grid-sorter@pantas.net/extension.js:172-181 | one placing call per icon of the new list |
| AppGrid.PlacementsSnoc | app-grid-sorter@pantas.net/extension.js:172-181 | one more `forEach` step appends exactly the call for the next index |
| AppGrid.CleanupAt | app-grid-sorter@pantas.net/extension.js:166-169 | for the k-th stale icon, call 2k removes it and call 2k+1 destroys it |
| AppGrid.PlacementsAt | app-grid-sorter@pantas.net/extension.js:172-181 | the i-th placing call is the one for the icon at index i, with page and slot computed from i |
| AppGrid.CleanupHolds | app-grid-sorter@pantas.net/extension.js:166-169 | the cleanup calls are removals and destructions only, of exactly the stale icons |
| AppGrid.PlacementsOnlyPlace | app-grid-sorter@pantas.net/extension.js:172-181 | the placing calls are adds and moves only |
| AppGrid.ReconcileRemovesExactlyStale | app-grid-sorter@pantas.net/extension.js:161-169 | an icon is removed, and destroyed, exactly when it was displayed and its id is absent from the new list |
| AppGrid.PlacedAtRecoversIndex | app-grid-sorter@pantas.net/extension.js:173-174 | a placing call's `page * itemsPerPage + slot` is its index, and `0 <= slot < itemsPerPage` |
| AppGrid.ReconcileCleansUpFirst | app-grid-sorter@pantas.net/extension.js:166-181 | every call of the cleanup part is a removal or a destruction: no icon is placed before the stale ones are gone |
| AppGrid.ReconcileLength | app-grid-sorter@pantas.net/extension.js:163-181 | the refresh makes two calls per stale icon and one per icon of the new list, no more |
| AppGrid.ReconcilePlacesIcon | app-grid-sorter@pantas.net/extension.js:163-181 | after the cleanup, the call for index i places the icon at index i on page `i / itemsPerPage`, slot `i % itemsPerPage`; it is an add exactly when the icon's id was not displayed before, and a move otherwise |
| AppGrid.ReconcileSameListOnlyMoves | app-grid-sorter@pantas.net/extension.js:154-181 | refreshing to the list already displayed removes, destroys and adds nothing: each icon is moved to the slot of its own index |
| AppGrid.ManualKeepsLoaderOrder | app-grid-sorter@pantas.net/extension.js:151-160 | in "manual" mode the new list is the loaded list, in loader order |
| AppGrid.ArrangedKeepsIds | app-grid-sorter@pantas.net/extension.js:157-161 | in every mode the new ids are exactly the loaded ids |
| AppGrid.ArrangedSortedAndStable | app-grid-sorter@pantas.net/extension.js:158-160 | in a sorting mode whose comparator is consistent on the loaded icons, the new list is sorted by it and ties keep loader order |
| AppGrid.DateAddedNewestFirst | app-grid-sorter@pantas.net/extension.js:158-160 | in "date-added" mode with every id present, the new list runs from the newest desktop file to the oldest |
| AppGrid.AlphabeticalExample | app-grid-sorter@pantas.net/extension.js:113-116 | Zed then Abc, loaded in that order, are shown Abc first when the locale puts "Zed" after "Abc" |
| AppGrid.ExampleMtimeX | app-grid-sorter@pantas.net/extension.js:57-66 | a desktop file present only under the home directory gives its own time |
| AppGrid.ExampleMtimeY | app-grid-sorter@pantas.net/extension.js:73-74 | a desktop file found in no directory gives 0 |
| AppGrid.DateAddedExample | app-grid-sorter@pantas.net/extension.js:130-134 | "date-added": the icon whose file has time 500 goes before the one with no file, in either load order |
| AppGrid.AppDisplay.RemoveItem | app-grid-sorter@pantas.net/extension.js:167 | logs one removal of the icon and changes nothing else |
| AppGrid.AppDisplay.Destroy | app-grid-sorter@pantas.net/extension.js:168 | logs one destruction of the icon and changes nothing else |
| AppGrid.AppDisplay.AddItem | app-grid-sorter@pantas.net/extension.js:177 | logs one add of the icon at the page and slot and changes nothing else |
| AppGrid.AppDisplay.MoveItem | app-grid-sorter@pantas.net/extension.js:179 | logs one move of the icon to the page and slot and changes nothing else |
| AppGrid.AppDisplay.RemoveAll | app-grid-sorter@pantas.net/extension.js:166-169 | the removal `forEach` appends exactly the cleanup calls for the stale icons, in order |
| AppGrid.AppDisplay.PlaceAll | app-grid-sorter@pantas.net/extension.js:171-181 | the placement `forEach` appends exactly the placing calls for every icon, in index order |
| AppGrid.AppDisplay.Redisplay | app-grid-sorter@pantas.net/extension.js:150-185 | the display order becomes the arranged loaded list; the calls made are exactly `Reconcile` from the old display order to the new one; the page size, and so `Valid()`, is kept |
| AppGrid.SorterToggle.Updating | app-grid-sorter@pantas.net/extension.js:195 | the guard `_pageManager?._updatingPages`: true exactly when a display and its page manager exist and the flag is set; no contract of its own: used by the `Resort` contract |
| AppGrid.SorterToggle.Resort | app-grid-sorter@pantas.net/extension.js:190-201 | nothing changes without a display or while its page manager is updating pages; otherwise the display order and call log change exactly as by `Redisplay`, and the display's page size and page manager are kept |

## Left out

- The preferences window (`prefs.js`) and the quick-settings menu: menu construction, ornaments, the settings link, the indicator, and enabling and disabling the extension. These are user-interface wiring.
- Signal handling: the `changed::sort-mode` listener, the menu callbacks that call `_resort`, and `emit('view-loaded')`. These are host event plumbing; the refresh's effect on the grid is modelled without them.
- The `InjectionManager` patching itself: the model calls the comparator and the refresh directly instead of installing them on the host prototype.
- Logging (`log`): the messages are not modelled. The one log line that can throw, the date formatting inside the mtime query's `try` block, is modelled by its effect: an unformattable time makes the search skip that directory.
- `GLib.get_home_dir`, `GLib.file_test` and `Gio.File.query_info`: they become the `homeDir` parameter and the file-system map. A `file_test` call that throws is not modelled; only `query_info` failures are.
- `Shell.AppUsage.compare` and `String.prototype.localeCompare`: their implementations are not visible, so they are uninterpreted parameters.
- The host's `this._loadApps()`: its result is a parameter of the refresh.
- The host's own bookkeeping inside `_removeItem`, `_addItem`, `_moveItem` and `destroy` is not modelled: each of them only records itself in the effect log. The refresh overwrites the display order at the end in any case.
- Object identity: icons are values. Two icons with the same id and name are the same icon, so `addedApps.includes(icon)` is modelled as membership by value, and aliasing between the display list and the loader's list is not captured.
- `Sorting.SortBy`: the host's sort algorithm is not visible. It is modelled as a stable insertion sort, with the guarantees the language standard gives: a permutation always, and stability and order under a consistent comparator (`Sorting.PreorderOn`: sign-antisymmetric, with a total and transitive "may stay before"). The sortedness and stability lemmas all require that consistency. For an inconsistent comparator, for example one that answers negative in both argument orders, only the permutation property is claimed about the host.
- Numbers: JavaScript doubles are modelled as unbounded integers. Modification times are whole seconds (`tv_sec`), and `bTime - aTime` cannot overflow in that range.
- AppGrid.AppDisplay.PlaceAll, AppGrid.AppDisplay.Redisplay and AppGrid.SorterToggle.Resort: all require a page size of at least one slot, through `AppDisplay.Valid()`. With a zero page size, JavaScript would compute `NaN`/`Infinity` pages. The model assumes the host's grid always reports at least one slot per page. The host grid's layout code is not part of this model, so that assumption is not derived from it.
- CompareItems.AlphabeticalIsPreorder: the alphabetical comparator is not a total preorder on icons with a missing name (such an icon ties with everything, which breaks transitivity). Sortedness is therefore proved only under the stated preorder assumptions; permutation holds in every case.
