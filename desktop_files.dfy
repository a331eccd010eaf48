/**
 * The modification-time lookup behind the "date-added" sort mode: the
 * desktop file of an application is searched for in a fixed, ordered list of
 * directories and the first one found and readable gives the time.
 */
module DesktopFiles {
  import opened AppRecords

  /**
   * The file system as the lookup sees it. A path is a key exactly when a
   * file exists there; its value is the result of asking for the file's
   * modification time: `Some(seconds)`, or `None` when that query throws.
   */
  type FileSystem = map<string, Option<int>>

  /**
   * The largest number of seconds, either side of the epoch, that a
   * JavaScript `Date` can hold (8.64e15 milliseconds). Formatting a time
   * beyond it for the log line throws, inside the same `try` as the query.
   */
  const MaxDateSeconds: int := 8_640_000_000_000

  /** Formatting the time `mtime` (in seconds) as a date succeeds. */
  predicate Formattable(mtime: int)
  {
    -MaxDateSeconds <= mtime <= MaxDateSeconds
  }

  /** The directories searched, in search order; the first is under the home directory. */
  function DesktopDirs(homeDir: string): (dirs: seq<string>)
    ensures |dirs| == 4
    ensures dirs[0] == homeDir + "/.local/share/applications"
  {
    [ homeDir + "/.local/share/applications",
      "/var/lib/snapd/desktop/applications",
      "/usr/share/applications",
      "/usr/local/share/applications" ]
  }

  /** Where the desktop file `appId` would be in `dir`. */
  function EntryPath(dir: string, appId: string): string
  {
    dir + "/" + appId
  }

  /**
   * The file exists, its modification time can be read, and the time can be
   * formatted for the log: the whole `try` block completes.
   */
  predicate Yields(files: FileSystem, path: string)
  {
    path in files && files[path].Some? && Formattable(files[path].value)
  }

  /** Search `dirs` in order; the time of the first readable entry, or 0. */
  function FirstMtime(files: FileSystem, dirs: seq<string>, appId: string): int
  {
    if dirs == [] then 0
    else if Yields(files, EntryPath(dirs[0], appId)) then files[EntryPath(dirs[0], appId)].value
    else FirstMtime(files, dirs[1..], appId)
  }

  /** The modification time the lookup reports for the application `appId`. */
  function DesktopFileMtime(files: FileSystem, homeDir: string, appId: string): int
  {
    FirstMtime(files, DesktopDirs(homeDir), appId)
  }

  /**
   * The search, step by step: a missing file is skipped; a file whose query
   * throws, or whose time cannot be formatted as a date, is skipped too (the
   * error is only logged); the first success is returned, and 0 when no
   * directory yields a time.
   */
  method GetDesktopFileMtime(files: FileSystem, homeDir: string, appId: string) returns (mtime: int)
    ensures mtime == DesktopFileMtime(files, homeDir, appId)
  {
    var dirs := DesktopDirs(homeDir);
    var i := 0;
    while i < |dirs|
      invariant 0 <= i <= |dirs|
      invariant FirstMtime(files, dirs[i..], appId) == FirstMtime(files, dirs, appId)
    {
      var path := EntryPath(dirs[i], appId);
      if path in files {
        var query := files[path];
        if query.Some? && Formattable(query.value) {
          return query.value;
        }
      }
      assert dirs[i..][1..] == dirs[i + 1..];
      i := i + 1;
    }
    return 0;
  }

  /**
   * First-match characterisation of the search: with `k` the first
   * directory whose entry yields a time, the result is that time; when no
   * directory yields one, the result is 0. Directories whose entry is
   * missing or unreadable before `k` do not matter.
   */
  lemma {:induction false} FirstMtimeIsFirstMatch(files: FileSystem, dirs: seq<string>, appId: string)
    ensures (forall k :: 0 <= k < |dirs| ==> !Yields(files, EntryPath(dirs[k], appId)))
              ==> FirstMtime(files, dirs, appId) == 0
    ensures forall k :: 0 <= k < |dirs| && Yields(files, EntryPath(dirs[k], appId))
              && (forall j :: 0 <= j < k ==> !Yields(files, EntryPath(dirs[j], appId)))
              ==> FirstMtime(files, dirs, appId) == files[EntryPath(dirs[k], appId)].value
  {
    if dirs != [] {
      FirstMtimeIsFirstMatch(files, dirs[1..], appId);
      forall k | 0 <= k < |dirs| && Yields(files, EntryPath(dirs[k], appId))
                 && (forall j :: 0 <= j < k ==> !Yields(files, EntryPath(dirs[j], appId)))
        ensures FirstMtime(files, dirs, appId) == files[EntryPath(dirs[k], appId)].value
      {
        if k > 0 {
          assert !Yields(files, EntryPath(dirs[0], appId));
          assert dirs[1..][k - 1] == dirs[k];
          forall j | 0 <= j < k - 1 ensures !Yields(files, EntryPath(dirs[1..][j], appId)) {
            assert dirs[1..][j] == dirs[j + 1];
          }
        }
      }
      if forall k :: 0 <= k < |dirs| ==> !Yields(files, EntryPath(dirs[k], appId)) {
        forall k | 0 <= k < |dirs| - 1 ensures !Yields(files, EntryPath(dirs[1..][k], appId)) {
          assert dirs[1..][k] == dirs[k + 1];
        }
      }
    }
  }

  /** The result is one of the times on file, or 0. */
  lemma {:induction false} FirstMtimeIsOnFile(files: FileSystem, dirs: seq<string>, appId: string)
    ensures var t := FirstMtime(files, dirs, appId);
            t == 0 || exists k :: 0 <= k < |dirs| && Yields(files, EntryPath(dirs[k], appId))
                                  && files[EntryPath(dirs[k], appId)].value == t
  {
    if dirs != [] && !Yields(files, EntryPath(dirs[0], appId)) {
      FirstMtimeIsOnFile(files, dirs[1..], appId);
      var t := FirstMtime(files, dirs, appId);
      if t != 0 {
        var k :| 0 <= k < |dirs| - 1 && Yields(files, EntryPath(dirs[1..][k], appId))
                 && files[EntryPath(dirs[1..][k], appId)].value == t;
        assert dirs[1..][k] == dirs[k + 1];
      }
    } else if dirs != [] {
      assert Yields(files, EntryPath(dirs[0], appId));
    }
  }

  /**
   * A home-directory entry whose time is too large to format as a date is
   * skipped: the search goes on and takes the time found in the third
   * directory, /usr/share/applications.
   */
  lemma UnformattableTimeSkipped()
    ensures var dirs := DesktopDirs("/home/user");
            var files := map[
              EntryPath(dirs[0], "a.desktop") := Some(MaxDateSeconds + 1),
              EntryPath(dirs[2], "a.desktop") := Some(7)];
            DesktopFileMtime(files, "/home/user", "a.desktop") == 7
  {
    var dirs := DesktopDirs("/home/user");
    var home, snap, usr := EntryPath(dirs[0], "a.desktop"), EntryPath(dirs[1], "a.desktop"), EntryPath(dirs[2], "a.desktop");
    var files := map[home := Some(MaxDateSeconds + 1), usr := Some(7)];
    assert home[1] == 'h' && snap[1] == 'v' && usr[1] == 'u';
    assert !Yields(files, home) && !Yields(files, snap) && Yields(files, usr);
    FirstMtimeIsFirstMatch(files, dirs, "a.desktop");
  }
}
