/**
 * The comparator the extension installs as the app grid's `_compareItems`.
 * It reads the persisted sort mode on every call and orders two icons by
 * name, by usage or by the modification time of their desktop files. Any
 * other mode, a missing or empty attribute, or a usage lookup that throws
 * gives 0 ("equal"); a desktop file that cannot be read only makes the time
 * search go on to the next directory.
 */
module CompareItems {
  import opened AppRecords
  import opened DesktopFiles
  import opened Sorting

  /**
   * Everything the comparator consults outside its two arguments: the
   * persisted `sort-mode` string, the host's locale-aware string comparison,
   * the usage service's comparison (`None` when that call throws), the file
   * system and the home directory.
   */
  datatype SortContext = SortContext(
    mode: string,
    localeCompare: (string, string) -> int,
    usageCompare: (string, string) -> Option<int>,
    files: FileSystem,
    homeDir: string)

  /** The modification time the "date-added" mode uses for an icon with an id. */
  function MtimeOf(ctx: SortContext, icon: Icon): int
    requires icon.id.Some?
  {
    DesktopFileMtime(ctx.files, ctx.homeDir, icon.id.value)
  }

  /** The comparator itself: negative keeps `a` first, positive puts `b` first. */
  function Compare(ctx: SortContext, a: Icon, b: Icon): int
  {
    if ctx.mode == "alphabetical" then
      if !Truthy(a.name) || !Truthy(b.name) then 0
      else ctx.localeCompare(a.name.value, b.name.value)
    else if ctx.mode == "usage" then
      if !Truthy(a.id) || !Truthy(b.id) then 0
      else match ctx.usageCompare(a.id.value, b.id.value)
        case Some(result) => result
        case None => 0
    else if ctx.mode == "date-added" then
      if !Truthy(a.id) || !Truthy(b.id) then 0
      else MtimeOf(ctx, b) - MtimeOf(ctx, a)
    else 0
  }

  /** The comparator as the value handed to the sort. */
  function Comparator(ctx: SortContext): (Icon, Icon) -> int
  {
    (a: Icon, b: Icon) => Compare(ctx, a, b)
  }

  /**
   * "alphabetical": equal as soon as either name is missing or empty,
   * otherwise the locale comparison of the two names.
   */
  lemma AlphabeticalByName(ctx: SortContext, a: Icon, b: Icon)
    requires ctx.mode == "alphabetical"
    ensures !Truthy(a.name) || !Truthy(b.name) ==> Compare(ctx, a, b) == 0
    ensures Truthy(a.name) && Truthy(b.name) ==>
              Compare(ctx, a, b) == ctx.localeCompare(a.name.value, b.name.value)
  {
  }

  /**
   * "usage" and "date-added": equal as soon as either id is missing or
   * empty, whatever the usage service and the file system hold.
   */
  lemma MissingIdIsEqual(ctx: SortContext, a: Icon, b: Icon)
    requires ctx.mode == "usage" || ctx.mode == "date-added"
    requires !Truthy(a.id) || !Truthy(b.id)
    ensures Compare(ctx, a, b) == 0
  {
  }

  /**
   * "usage": with both ids present, the usage service's answer for the ids
   * in argument order, and equal when that call fails.
   */
  lemma UsageForwardsIds(ctx: SortContext, a: Icon, b: Icon)
    requires ctx.mode == "usage" && Truthy(a.id) && Truthy(b.id)
    ensures ctx.usageCompare(a.id.value, b.id.value).Some? ==>
              Compare(ctx, a, b) == ctx.usageCompare(a.id.value, b.id.value).value
    ensures ctx.usageCompare(a.id.value, b.id.value).None? ==> Compare(ctx, a, b) == 0
  {
  }

  /** Every mode but the three named ones, "manual" included, compares all icons equal. */
  lemma OtherModesAreEqual(ctx: SortContext, a: Icon, b: Icon)
    requires ctx.mode != "alphabetical" && ctx.mode != "usage" && ctx.mode != "date-added"
    ensures Compare(ctx, a, b) == 0
  {
  }

  /**
   * "date-added" with both ids present: the difference of the two times,
   * hence antisymmetric, and `a` goes first exactly when its file is newer.
   */
  lemma DateAddedNewerFirst(ctx: SortContext, a: Icon, b: Icon)
    requires ctx.mode == "date-added" && Truthy(a.id) && Truthy(b.id)
    ensures Compare(ctx, a, b) == MtimeOf(ctx, b) - MtimeOf(ctx, a)
    ensures Compare(ctx, a, b) == -Compare(ctx, b, a)
    ensures Compare(ctx, a, b) < 0 <==> MtimeOf(ctx, a) > MtimeOf(ctx, b)
    ensures Le(Comparator(ctx), a, b) <==> MtimeOf(ctx, a) >= MtimeOf(ctx, b)
  {
  }

  /** On icons that all have ids, "date-added" is a consistent order: newest first. */
  lemma DateAddedIsPreorder(ctx: SortContext, icons: set<Icon>)
    requires ctx.mode == "date-added"
    requires forall x :: x in icons ==> Truthy(x.id)
    ensures PreorderOn(Comparator(ctx), icons)
  {
    forall x, y | x in icons && y in icons
      ensures Le(Comparator(ctx), x, y) <==> MtimeOf(ctx, x) >= MtimeOf(ctx, y)
    {
      DateAddedNewerFirst(ctx, x, y);
    }
  }

  /** The names of the named icons in `icons`. */
  function Names(icons: set<Icon>): set<string>
  {
    set x | x in icons && x.name.Some? :: x.name.value
  }

  /**
   * On icons that all have names, "alphabetical" is a consistent order as
   * soon as the locale comparison is one on their names.
   */
  lemma AlphabeticalIsPreorder(ctx: SortContext, icons: set<Icon>)
    requires ctx.mode == "alphabetical"
    requires forall x :: x in icons ==> Truthy(x.name)
    requires PreorderOn(ctx.localeCompare, Names(icons))
    ensures PreorderOn(Comparator(ctx), icons)
  {
    forall x | x in icons ensures x.name.value in Names(icons) {
    }
    forall x, y | x in icons && y in icons
      ensures Le(Comparator(ctx), x, y) <==> Le(ctx.localeCompare, x.name.value, y.name.value)
    {
    }
  }
}
