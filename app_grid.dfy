/**
 * The grid refresh the extension installs as the app grid's `_redisplay`,
 * and the guarded call to it in the toggle's `_resort`.
 *
 * The refresh loads the application list, sorts it with the installed
 * comparator unless the mode is "manual", removes and destroys the icons
 * whose id left the list, and places every icon of the new list on its page
 * and slot: added when its id is new, moved otherwise. The grid calls it
 * makes are recorded, in order, in the display's `effects` log.
 */
module AppGrid {
  import opened AppRecords
  import opened Sorting
  import opened DesktopFiles
  import opened CompareItems

  /** One call the refresh makes on the grid or on an icon. */
  datatype Effect =
    | Removed(icon: Icon)                            // `this._removeItem(icon)`
    | Destroyed(icon: Icon)                          // `icon.destroy()`
    | Added(icon: Icon, page: int, position: int)    // `this._addItem(icon, page, position)`
    | Moved(icon: Icon, page: int, position: int)    // `this._moveItem(icon, page, position)`

  /** The new list in display order: the loader's order in "manual" mode, sorted otherwise. */
  function Arranged(ctx: SortContext, loaded: seq<Icon>): (r: seq<Icon>)
    ensures multiset(r) == multiset(loaded)
  {
    if ctx.mode == "manual" then loaded else SortBy(Comparator(ctx), loaded)
  }

  /** The calls that remove and then destroy each stale icon, in order. */
  function Cleanup(removed: seq<Icon>): (calls: seq<Effect>)
    ensures |calls| == 2 * |removed|
  {
    if removed == [] then []
    else Cleanup(removed[..|removed| - 1]) + [Removed(removed[|removed| - 1]), Destroyed(removed[|removed| - 1])]
  }

  /** The call that puts the icon at index `i` on page `i / perPage`, slot `i % perPage`. */
  function Place(icon: Icon, added: seq<Icon>, i: nat, perPage: nat): (e: Effect)
    requires perPage > 0
    ensures (e.Added? || e.Moved?) && e.icon == icon
    ensures e.Added? <==> icon in added
  {
    if icon in added then Added(icon, i / perPage, i % perPage)
    else Moved(icon, i / perPage, i % perPage)
  }

  /** The placing calls for every icon of `icons`, in index order. */
  function Placements(icons: seq<Icon>, added: seq<Icon>, perPage: nat): (calls: seq<Effect>)
    requires perPage > 0
    ensures |calls| == |icons|
  {
    if icons == [] then []
    else Placements(icons[..|icons| - 1], added, perPage)
         + [Place(icons[|icons| - 1], added, |icons| - 1, perPage)]
  }

  lemma PlacementsSnoc(icons: seq<Icon>, icon: Icon, added: seq<Icon>, perPage: nat)
    requires perPage > 0
    ensures Placements(icons + [icon], added, perPage)
            == Placements(icons, added, perPage) + [Place(icon, added, |icons|, perPage)]
  {
    assert (icons + [icon])[..|icons|] == icons;
  }

  /** The icons of `current` whose id is not in `next`. */
  function Stale(current: seq<Icon>, next: seq<Icon>): seq<Icon>
  {
    Without(current, Ids(next))
  }

  /** The whole sequence of calls one refresh makes, going from `current` to `next`. */
  function Reconcile(current: seq<Icon>, next: seq<Icon>, perPage: nat): seq<Effect>
    requires perPage > 0
  {
    Cleanup(Stale(current, next)) + Placements(next, Without(next, Ids(current)), perPage)
  }

  /** The cleanup lists, for each stale icon in turn, its removal and then its destruction. */
  lemma {:induction false} CleanupAt(removed: seq<Icon>)
    ensures forall k :: 0 <= k < |removed| ==>
              Cleanup(removed)[2 * k] == Removed(removed[k]) && Cleanup(removed)[2 * k + 1] == Destroyed(removed[k])
  {
    if removed != [] {
      var front := removed[..|removed| - 1];
      CleanupAt(front);
      forall k | 0 <= k < |front| ensures front[k] == removed[k] {
      }
    }
  }

  /** The placements hold one call per icon, the one for the icon at its own index. */
  lemma {:induction false} PlacementsAt(icons: seq<Icon>, added: seq<Icon>, perPage: nat)
    requires perPage > 0
    ensures forall i {:trigger Placements(icons, added, perPage)[i]} :: 0 <= i < |icons| ==>
              Placements(icons, added, perPage)[i] == Place(icons[i], added, i, perPage)
  {
    if icons != [] {
      var front := icons[..|icons| - 1];
      PlacementsAt(front, added, perPage);
      forall i | 0 <= i < |front| ensures front[i] == icons[i] {
      }
    }
  }

  /** The cleanup calls are removals and destructions, of exactly the stale icons. */
  lemma {:induction false} CleanupHolds(removed: seq<Icon>)
    ensures forall e :: e in Cleanup(removed) ==> e.Removed? || e.Destroyed?
    ensures forall c :: Removed(c) in Cleanup(removed) <==> c in removed
    ensures forall c :: Destroyed(c) in Cleanup(removed) <==> c in removed
  {
    if removed != [] {
      var front, last := removed[..|removed| - 1], removed[|removed| - 1];
      CleanupHolds(front);
      assert removed == front + [last];
    }
  }

  /** The placing calls are adds and moves only. */
  lemma {:induction false} PlacementsOnlyPlace(icons: seq<Icon>, added: seq<Icon>, perPage: nat)
    requires perPage > 0
    ensures forall e :: e in Placements(icons, added, perPage) ==> e.Added? || e.Moved?
  {
    if icons != [] {
      PlacementsOnlyPlace(icons[..|icons| - 1], added, perPage);
    }
  }

  /**
   * Exactly the icons of the old list whose id is absent from the new list
   * are removed, and exactly they are destroyed.
   */
  lemma ReconcileRemovesExactlyStale(current: seq<Icon>, next: seq<Icon>, perPage: nat)
    requires perPage > 0
    ensures forall c :: Removed(c) in Reconcile(current, next, perPage) <==> c in current && c.id !in Ids(next)
    ensures forall c :: Destroyed(c) in Reconcile(current, next, perPage) <==> c in current && c.id !in Ids(next)
  {
    var stale := Stale(current, next);
    var placed := Placements(next, Without(next, Ids(current)), perPage);
    CleanupHolds(stale);
    PlacementsOnlyPlace(next, Without(next, Ids(current)), perPage);
    forall c ensures Removed(c) in Cleanup(stale) + placed <==> c in stale {
      assert Removed(c) !in placed;
    }
    forall c ensures Destroyed(c) in Cleanup(stale) + placed <==> c in stale {
      assert Destroyed(c) !in placed;
    }
  }

  /** `e` is the call that puts `icon` at index `i`: an add when it is new, a move otherwise. */
  predicate PlacedAt(e: Effect, icon: Icon, i: nat, perPage: nat, isNew: bool)
    requires perPage > 0
  {
    && (if isNew then e.Added? else e.Moved?)
    && e.icon == icon
    && e.page == i / perPage
    && e.position == i % perPage
  }

  /** A placing call's page and slot give its index back, and the slot is within the page. */
  lemma PlacedAtRecoversIndex(e: Effect, icon: Icon, i: nat, perPage: nat, isNew: bool)
    requires perPage > 0 && PlacedAt(e, icon, i, perPage, isNew)
    ensures e.page * perPage + e.position == i
    ensures 0 <= e.position < perPage && 0 <= e.page
  {
  }

  /** The refresh makes all its cleanup calls before any placing call. */
  lemma ReconcileCleansUpFirst(current: seq<Icon>, next: seq<Icon>, perPage: nat)
    requires perPage > 0
    ensures forall k :: 0 <= k < |Cleanup(Stale(current, next))| ==>
              Reconcile(current, next, perPage)[k].Removed? || Reconcile(current, next, perPage)[k].Destroyed?
  {
    var cleanup := Cleanup(Stale(current, next));
    var effects := Reconcile(current, next, perPage);
    CleanupHolds(Stale(current, next));
    forall k | 0 <= k < |cleanup| ensures effects[k].Removed? || effects[k].Destroyed? {
      assert effects[k] == cleanup[k];
      assert cleanup[k] in cleanup;
    }
  }

  /** The refresh makes two cleanup calls per stale icon and one placing call per icon it shows. */
  lemma ReconcileLength(current: seq<Icon>, next: seq<Icon>, perPage: nat)
    requires perPage > 0
    ensures |Reconcile(current, next, perPage)| == 2 * |Stale(current, next)| + |next|
  {
  }

  /**
   * After the cleanup calls, the refresh places the icons of the new list in
   * index order: the call for the icon at index `i` puts it on page
   * `i / perPage` in slot `i % perPage`, and it is an add exactly when the
   * icon's id was not in the old list and a move otherwise.
   */
  lemma ReconcilePlacesIcon(current: seq<Icon>, next: seq<Icon>, perPage: nat, i: nat)
    requires perPage > 0 && i < |next|
    ensures |Cleanup(Stale(current, next))| + i < |Reconcile(current, next, perPage)|
    ensures PlacedAt(Reconcile(current, next, perPage)[|Cleanup(Stale(current, next))| + i],
                     next[i], i, perPage, next[i].id !in Ids(current))
  {
    var added := Without(next, Ids(current));
    var cleanup := Cleanup(Stale(current, next));
    var placed := Placements(next, added, perPage);
    PlacementsAt(next, added, perPage);
    assert Reconcile(current, next, perPage) == cleanup + placed;
    assert (cleanup + placed)[|cleanup| + i] == placed[i];
    assert next[i] in added <==> next[i].id !in Ids(current);
  }

  /**
   * Refreshing a list that is already displayed, in the same order, removes,
   * destroys and adds nothing: every icon is moved to the page and slot of
   * the index it already has.
   */
  lemma ReconcileSameListOnlyMoves(icons: seq<Icon>, perPage: nat)
    requires perPage > 0
    ensures |Reconcile(icons, icons, perPage)| == |icons|
    ensures forall i :: 0 <= i < |icons| ==>
              Reconcile(icons, icons, perPage)[i] == Moved(icons[i], i / perPage, i % perPage)
  {
    var added := Without(icons, Ids(icons));
    assert Stale(icons, icons) == [] by {
      if Stale(icons, icons) != [] {
        var c := Stale(icons, icons)[0];
        assert c in Without(icons, Ids(icons));
        InIds(icons, c.id);
        assert false;
      }
    }
    PlacementsAt(icons, added, perPage);
    forall i | 0 <= i < |icons| ensures icons[i] !in added {
      InIds(icons, icons[i].id);
    }
    assert Reconcile(icons, icons, perPage) == Placements(icons, added, perPage);
  }

  /** In "manual" mode the new list keeps the loader's order. */
  lemma ManualKeepsLoaderOrder(ctx: SortContext, loaded: seq<Icon>)
    requires ctx.mode == "manual"
    ensures Arranged(ctx, loaded) == loaded
  {
  }

  /** Whatever the mode, the new list holds exactly the ids the loader returned. */
  lemma ArrangedKeepsIds(ctx: SortContext, loaded: seq<Icon>)
    ensures forall id :: id in Ids(Arranged(ctx, loaded)) <==> id in Ids(loaded)
  {
    var r := Arranged(ctx, loaded);
    forall id ensures id in Ids(r) <==> id in Ids(loaded) {
      InIds(r, id);
      InIds(loaded, id);
      forall x ensures x in r <==> x in loaded {
        assert x in r <==> x in multiset(r);
        assert x in loaded <==> x in multiset(loaded);
      }
    }
  }

  /**
   * In a sorting mode whose comparator is consistent on the loaded
   * icons, the new list is sorted by it, and icons that compare equal keep
   * their loader order.
   */
  lemma ArrangedSortedAndStable(ctx: SortContext, loaded: seq<Icon>, e: Icon)
    requires ctx.mode != "manual"
    requires PreorderOn(Comparator(ctx), Elems(loaded) + {e})
    ensures Sorted(Comparator(ctx), Arranged(ctx, loaded))
    ensures TiesWith(Comparator(ctx), Arranged(ctx, loaded), e) == TiesWith(Comparator(ctx), loaded, e)
  {
    PreorderOnSubset(Comparator(ctx), Elems(loaded), Elems(loaded) + {e});
    SortBySorted(Comparator(ctx), loaded);
    SortByStable(Comparator(ctx), loaded, e);
  }

  /** In "date-added" mode, with every id present, the newest desktop files come first. */
  lemma DateAddedNewestFirst(ctx: SortContext, loaded: seq<Icon>)
    requires ctx.mode == "date-added"
    requires forall x :: x in loaded ==> Truthy(x.id)
    ensures forall i, j :: 0 <= i < j < |Arranged(ctx, loaded)| ==>
              && Arranged(ctx, loaded)[i].id.Some? && Arranged(ctx, loaded)[j].id.Some?
              && MtimeOf(ctx, Arranged(ctx, loaded)[i]) >= MtimeOf(ctx, Arranged(ctx, loaded)[j])
  {
    var r := Arranged(ctx, loaded);
    forall i | 0 <= i < |r| ensures Truthy(r[i].id) {
      assert r[i] in multiset(r);
    }
    DateAddedIsPreorder(ctx, Elems(loaded));
    SortBySorted(Comparator(ctx), loaded);
    forall i, j | 0 <= i < j < |r| ensures MtimeOf(ctx, r[i]) >= MtimeOf(ctx, r[j]) {
      assert r[i] in multiset(loaded) && r[j] in multiset(loaded);
      DateAddedNewerFirst(ctx, r[i], r[j]);
    }
  }

  /**
   * "alphabetical" on Zed and Abc, loaded in that order, shows Abc first
   * whenever the locale puts "Zed" after "Abc".
   */
  lemma AlphabeticalExample(localeCompare: (string, string) -> int)
    requires localeCompare("Zed", "Abc") > 0
    ensures var zed := Icon(Some("1"), Some("Zed"));
            var abc := Icon(Some("2"), Some("Abc"));
            var ctx := SortContext("alphabetical", localeCompare, (p, q) => None, map[], "/home/user");
            Arranged(ctx, [zed, abc]) == [abc, zed]
  {
    var zed := Icon(Some("1"), Some("Zed"));
    var abc := Icon(Some("2"), Some("Abc"));
    var ctx := SortContext("alphabetical", localeCompare, (p, q) => None, map[], "/home/user");
    assert [zed, abc][1..] == [abc];
    assert SortBy(Comparator(ctx), [abc]) == [abc];
    assert !Le(Comparator(ctx), zed, abc);
  }

  /**
   * The file system of the "date-added" example: one desktop file,
   * x.desktop, in the first directory searched, under the home directory.
   */
  const ExampleFiles: FileSystem := map[EntryPath(DesktopDirs("/home/user")[0], "x.desktop") := Some(500)]

  lemma ExampleMtimeX()
    ensures DesktopFileMtime(ExampleFiles, "/home/user", "x.desktop") == 500
  {
    var dirs := DesktopDirs("/home/user");
    assert Yields(ExampleFiles, EntryPath(dirs[0], "x.desktop"));
  }

  lemma ExampleMtimeY()
    ensures DesktopFileMtime(ExampleFiles, "/home/user", "y.desktop") == 0
  {
    var dirs := DesktopDirs("/home/user");
    forall k | 0 <= k < 4 ensures !Yields(ExampleFiles, EntryPath(dirs[k], "y.desktop")) {
      var path := EntryPath(dirs[k], "y.desktop");
      assert path[|path| - 9] == 'y';
    }
    FirstMtimeIsFirstMatch(ExampleFiles, dirs, "y.desktop");
  }

  /**
   * "date-added": X, found only under the home directory with time 500,
   * goes before Y, found nowhere (time 0), in whichever order they load.
   */
  lemma DateAddedExample()
    ensures var x := Icon(Some("x.desktop"), Some("X"));
            var y := Icon(Some("y.desktop"), Some("Y"));
            var ctx := SortContext("date-added", (p, q) => 0, (p, q) => None, ExampleFiles, "/home/user");
            Arranged(ctx, [y, x]) == [x, y] && Arranged(ctx, [x, y]) == [x, y]
  {
    var x := Icon(Some("x.desktop"), Some("X"));
    var y := Icon(Some("y.desktop"), Some("Y"));
    var ctx := SortContext("date-added", (p, q) => 0, (p, q) => None, ExampleFiles, "/home/user");
    ExampleMtimeX();
    ExampleMtimeY();
    assert Compare(ctx, y, x) == 500 && Compare(ctx, x, y) == -500;
    assert [y, x][1..] == [x] && [x, y][1..] == [y];
    assert SortBy(Comparator(ctx), [x]) == [x];
    assert SortBy(Comparator(ctx), [y]) == [y];
  }

  /** The host's page manager; only its "updating pages" flag matters here. */
  class PageManager {
    var updatingPages: bool

    constructor (updatingPages: bool)
      ensures this.updatingPages == updatingPages
    {
      this.updatingPages := updatingPages;
    }
  }

  /** The app grid view whose two methods the extension overrides. */
  class AppDisplay {
    /** `_orderedItems`: the icons in display order. */
    var orderedItems: seq<Icon>
    /** `_grid.itemsPerPage`: the capacity of one page. */
    var itemsPerPage: nat
    /** `_pageManager`, which may be absent. */
    var pageManager: PageManager?
    /** The grid and icon calls made so far, oldest first. */
    var effects: seq<Effect>

    ghost predicate Valid()
      reads this
    {
      itemsPerPage > 0
    }

    constructor (itemsPerPage: nat, pageManager: PageManager?)
      requires itemsPerPage > 0
      ensures Valid()
      ensures orderedItems == [] && effects == []
      ensures this.itemsPerPage == itemsPerPage && this.pageManager == pageManager
    {
      this.orderedItems := [];
      this.itemsPerPage := itemsPerPage;
      this.pageManager := pageManager;
      this.effects := [];
    }

    method RemoveItem(icon: Icon)
      modifies this`effects
      ensures effects == old(effects) + [Removed(icon)]
    {
      effects := effects + [Removed(icon)];
    }

    method Destroy(icon: Icon)
      modifies this`effects
      ensures effects == old(effects) + [Destroyed(icon)]
    {
      effects := effects + [Destroyed(icon)];
    }

    method AddItem(icon: Icon, page: int, position: int)
      modifies this`effects
      ensures effects == old(effects) + [Added(icon, page, position)]
    {
      effects := effects + [Added(icon, page, position)];
    }

    method MoveItem(icon: Icon, page: int, position: int)
      modifies this`effects
      ensures effects == old(effects) + [Moved(icon, page, position)]
    {
      effects := effects + [Moved(icon, page, position)];
    }

    /** Removes, then destroys, each stale icon, in order. */
    method RemoveAll(removedApps: seq<Icon>)
      modifies this`effects
      ensures effects == old(effects) + Cleanup(removedApps)
    {
      var k := 0;
      while k < |removedApps|
        invariant 0 <= k <= |removedApps|
        invariant effects == old(effects) + Cleanup(removedApps[..k])
      {
        RemoveItem(removedApps[k]);
        Destroy(removedApps[k]);
        assert removedApps[..k + 1][..k] == removedApps[..k];
        k := k + 1;
      }
      assert removedApps[..k] == removedApps;
    }

    /**
     * Places every icon of the new list in index order: the icon at index
     * `i` goes to page `floor(i / itemsPerPage)`, slot `i % itemsPerPage`;
     * added when it is one of `addedApps`, moved otherwise.
     */
    method PlaceAll(newApps: seq<Icon>, addedApps: seq<Icon>)
      requires Valid()
      modifies this`effects
      ensures effects == old(effects) + Placements(newApps, addedApps, itemsPerPage)
    {
      var perPage := itemsPerPage;
      var i := 0;
      while i < |newApps|
        invariant 0 <= i <= |newApps|
        invariant effects == old(effects) + Placements(newApps[..i], addedApps, perPage)
      {
        var icon := newApps[i];
        var page := i / perPage;
        var position := i % perPage;
        if icon in addedApps {
          AddItem(icon, page, position);
        } else {
          MoveItem(icon, page, position);
        }
        assert newApps[..i + 1] == newApps[..i] + [icon];
        PlacementsSnoc(newApps[..i], icon, addedApps, perPage);
        i := i + 1;
      }
      assert newApps[..i] == newApps;
    }

    /**
     * `_redisplay` with `loaded` as the result of `this._loadApps()`: the
     * new display order is the arranged list, and the calls made are those
     * of `Reconcile` from the old display order to the new one.
     */
    method Redisplay(ctx: SortContext, loaded: seq<Icon>)
      requires Valid()
      modifies this`orderedItems, this`effects
      ensures Valid()
      ensures orderedItems == Arranged(ctx, loaded)
      ensures effects == old(effects) + Reconcile(old(orderedItems), orderedItems, itemsPerPage)
    {
      var shouldSort := ctx.mode != "manual";

      var currentApps := orderedItems;
      var currentAppIds := Ids(currentApps);

      var newApps := loaded;
      if shouldSort {
        newApps := SortBy(Comparator(ctx), newApps);
      }
      var newAppIds := Ids(newApps);

      var addedApps := Without(newApps, currentAppIds);
      var removedApps := Without(currentApps, newAppIds);

      ghost var before := effects;
      RemoveAll(removedApps);
      PlaceAll(newApps, addedApps);
      AppendAssoc(before, Cleanup(removedApps), Placements(newApps, addedApps, itemsPerPage));

      orderedItems := newApps;
    }
  }

  /** The quick-settings toggle, reduced to the display it refreshes. */
  class SorterToggle {
    /** `_appDisplay`, which may be absent. */
    var appDisplay: AppDisplay?

    constructor (appDisplay: AppDisplay?)
      ensures this.appDisplay == appDisplay
    {
      this.appDisplay := appDisplay;
    }

    /** The page manager exists and is in the middle of updating its pages. */
    predicate Updating()
      reads this, appDisplay, if appDisplay == null then null else appDisplay.pageManager
    {
      appDisplay != null && appDisplay.pageManager != null && appDisplay.pageManager.updatingPages
    }

    /**
     * `_resort`: nothing without a display; nothing while the page manager
     * is updating; otherwise one refresh.
     */
    method Resort(ctx: SortContext, loaded: seq<Icon>)
      requires appDisplay != null ==> appDisplay.Valid()
      modifies appDisplay
      ensures appDisplay == old(appDisplay)
      ensures appDisplay != null ==> appDisplay.pageManager == old(appDisplay.pageManager)
      ensures appDisplay != null ==>
                appDisplay.itemsPerPage == old(appDisplay.itemsPerPage) && appDisplay.Valid()
      ensures appDisplay != null && old(Updating()) ==> unchanged(appDisplay)
      ensures appDisplay != null && !old(Updating()) ==>
                && appDisplay.orderedItems == Arranged(ctx, loaded)
                && appDisplay.effects == old(appDisplay.effects)
                     + Reconcile(old(appDisplay.orderedItems), appDisplay.orderedItems, appDisplay.itemsPerPage)
    {
      if appDisplay == null {
        return;
      }
      if appDisplay.pageManager == null || !appDisplay.pageManager.updatingPages {
        appDisplay.Redisplay(ctx, loaded);
      }
    }
  }
}
