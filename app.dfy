/**
 * The navigator state `App`: the current directory, its full listing, the
 * visible (filtered) set, the cursor and the search query, with the
 * operations that update them in place.
 */
module Navigator {
  import opened Wrappers
  import opened Paths
  import opened DirListing
  import opened Search
  import opened Cursor

  /** `enter_directory` will descend: an entry is selected and is a directory now. */
  predicate CanEnter(fs: FileSystem, items: seq<Path>, c: Option<nat>)
  {
    Selection(items, c).Some? && IsDirNow(fs, Selection(items, c).value)
  }

  /**
   * The loop of `load_directories` over the `read_dir` items: pushes the paths
   * of readable directories onto `dirs` and of readable files onto `files`,
   * in iteration order, skipping item errors and unreadable metadata.
   */
  method PartitionEntries(dir: Path, entries: seq<DirItem>) returns (dirs: seq<Path>, files: seq<Path>)
    ensures dirs == KindPaths(dir, entries, true)
    ensures files == KindPaths(dir, entries, false)
  {
    dirs, files := [], [];
    var i := 0;
    while i < |entries|
      invariant 0 <= i <= |entries|
      invariant dirs == KindPaths(dir, entries[..i], true)
      invariant files == KindPaths(dir, entries[..i], false)
    {
      KindPathsStep(dir, entries, i);
      match entries[i] {
        case ItemError =>
        case Item(name, meta) =>
          var path := Child(dir, name);
          if meta.Readable? {
            if meta.isDir {
              dirs := dirs + [path];
            } else {
              files := files + [path];
            }
          }
      }
      i := i + 1;
    }
    assert entries[..i] == entries;
  }

  /**
   * The `filter` over `all_items` in `apply_search`: keeps, in order, the
   * entries whose lowercased file name contains the lowercased query.
   */
  method FilterItems(all: seq<Path>, searchQuery: string) returns (kept: seq<Path>)
    ensures kept == KeepMatching(all, searchQuery)
  {
    var query := Lower(searchQuery);
    kept := [];
    var i := 0;
    while i < |all|
      invariant 0 <= i <= |all|
      invariant kept == KeepMatching(all[..i], searchQuery)
    {
      KeepMatchingStep(all, i, searchQuery);
      if Contains(Lower(FileName(all[i])), query) {
        kept := kept + [all[i]];
      }
      i := i + 1;
    }
    assert all[..i] == all;
  }

  /** The fields of an `App` at one moment, as a value. */
  datatype AppState = AppState(currentDir: Path, allItems: seq<Path>, items: seq<Path>,
                               selected: Option<nat>, searchQuery: string)

  class App {
    var currentDir: Path
    var allItems: seq<Path>
    var items: seq<Path>
    var selected: Option<nat>
    var searchQuery: string

    /**
     * The invariant every operation keeps: the cursor is `None` exactly when
     * nothing is visible and otherwise in bounds, the listing holds entries of
     * the current directory, and the visible set is a subsequence of it.
     */
    ghost predicate Valid()
      reads this
    {
      CursorOk(|items|, selected) && ChildrenOf(allItems, currentDir) && IsSubseq(items, allItems)
    }

    /** The current values of all fields. */
    function State(): AppState
      reads this
    {
      AppState(currentDir, allItems, items, selected, searchQuery)
    }

    /** The visible set is the listing filtered by the current query. */
    ghost predicate Synced()
      reads this
    {
      items == Visible(allItems, searchQuery)
    }

    /** `App::new`, with the working directory passed in; `None` stands for its failure, which falls back to the root. */
    constructor (fs: FileSystem, cwd: Option<Path>)
      ensures currentDir == (if cwd.Some? then cwd.value else [])
      ensures searchQuery == ""
      ensures allItems == Listing(fs, currentDir) && items == allItems
      ensures selected == ResetCursor(|items|)
      ensures Valid() && Synced()
    {
      currentDir := if cwd.Some? then cwd.value else [];
      allItems, items, selected, searchQuery := [], [], None, "";
      new;
      LoadDirectories(fs);
    }

    /** Re-reads the current directory and recomputes the visible set and the cursor. */
    method LoadDirectories(fs: FileSystem)
      modifies this`allItems, this`items, this`selected
      ensures allItems == Listing(fs, currentDir)
      ensures items == Visible(allItems, searchQuery) && selected == ResetCursor(|items|)
      ensures Valid() && Synced()
    {
      allItems := [];
      var dir := currentDir;
      var listed := ReadDir(fs, dir);
      if listed.Some? {
        var entries := listed.value;
        var dirs, files := PartitionEntries(dir, entries);
        dirs := SortPaths(dirs);
        files := SortPaths(files);
        // `all_items` was cleared above; extending it by both groups leaves exactly them.
        allItems := dirs + files;
        ListingOfReadable(fs, dir);
      }
      ApplySearch();
    }

    /** Recomputes the visible set from the listing and the query, and puts the cursor on its first entry. */
    method ApplySearch()
      modifies this`items, this`selected
      ensures items == Visible(allItems, searchQuery)
      ensures selected == ResetCursor(|items|)
      ensures IsSubseq(items, allItems) && CursorOk(|items|, selected)
    {
      if searchQuery == "" {
        items := allItems;
      } else {
        items := FilterItems(allItems, searchQuery);
      }
      VisibleSubseq(allItems, searchQuery);
      if items != [] {
        selected := Some(0);
      } else {
        selected := None;
      }
    }

    /** Moves the cursor one entry down, stopping at the last one. */
    method Next()
      modifies this`selected
      ensures selected == NextCursor(|items|, old(selected))
      ensures items != [] ==> CursorOk(|items|, selected)
      ensures old(Valid()) ==> Valid()
    {
      var i := match selected
        case Some(i) => if i >= SaturatingSub(|items|, 1) then SaturatingSub(|items|, 1) else i + 1
        case None => 0;
      if items != [] {
        selected := Some(i);
      }
      NextCursorSpec(|items|, old(selected));
    }

    /** Moves the cursor one entry up, stopping at the first one. */
    method Previous()
      modifies this`selected
      ensures selected == PreviousCursor(|items|, old(selected))
      ensures old(Valid()) ==> Valid()
    {
      var i := match selected
        case Some(i) => if i == 0 then 0 else i - 1
        case None => 0;
      if items != [] {
        selected := Some(i);
      }
      PreviousCursorSpec(|items|, old(selected));
    }

    /**
     * Ascends to the parent directory and reloads it (filtered by the current
     * query); at the root nothing changes.
     */
    method GoToParent(fs: FileSystem)
      modifies this`currentDir, this`allItems, this`items, this`selected
      ensures Parent(old(currentDir)).None? ==>
                currentDir == old(currentDir) && allItems == old(allItems) &&
                items == old(items) && selected == old(selected)
      ensures Parent(old(currentDir)).Some? ==>
                currentDir == Parent(old(currentDir)).value && allItems == Listing(fs, currentDir) &&
                Synced() && selected == ResetCursor(|items|)
      ensures old(Valid()) ==> Valid()
    {
      match Parent(currentDir) {
        case None =>
        case Some(parent) =>
          currentDir := parent;
          LoadDirectories(fs);
          ApplySearch();
      }
    }

    /**
     * Descends into the selected entry if the filesystem says, now, that it is
     * a directory, reloading it with the current query; otherwise nothing
     * changes. Returns whether it descended.
     */
    method EnterDirectory(fs: FileSystem) returns (entered: bool)
      modifies this`currentDir, this`allItems, this`items, this`selected
      ensures entered == CanEnter(fs, old(items), old(selected))
      ensures entered ==>
                currentDir == Selection(old(items), old(selected)).value &&
                allItems == Listing(fs, currentDir) && Synced() && selected == ResetCursor(|items|) && Valid()
      ensures !entered ==>
                currentDir == old(currentDir) && allItems == old(allItems) &&
                items == old(items) && selected == old(selected)
      ensures old(Valid()) ==> Valid()
    {
      match selected {
        case None =>
        case Some(i) =>
          if i < |items| {
            var path := items[i];
            if IsDirNow(fs, path) {
              currentDir := path;
              LoadDirectories(fs);
              ApplySearch();
              return true;
            }
          }
      }
      return false;
    }

    /**
     * The directory to hand to the shell on confirm: the selected entry if it
     * is a directory now; else the directory containing it, never the entry
     * itself; and the current directory when nothing is selected.
     */
    function GetSelectedPath(fs: FileSystem): (r: Path)
      reads this
      ensures Selection(items, selected).None? ==> r == currentDir
      ensures CanEnter(fs, items, selected) ==> r == Selection(items, selected).value
      ensures Selection(items, selected).Some? && !CanEnter(fs, items, selected) ==>
                var p := Selection(items, selected).value;
                (p != [] ==> r + [FileName(p)] == p) && (p == [] ==> r == currentDir)
      ensures Valid() && Selection(items, selected).Some? && !CanEnter(fs, items, selected) ==>
                r == currentDir && r != Selection(items, selected).value
    {
      match Selection(items, selected)
      case Some(path) =>
        if IsDirNow(fs, path) then path
        else
          SubseqMembers(items, allItems);
          (match Parent(path)
           case Some(parent) => parent
           case None => currentDir)
      case None => currentDir
    }
  }
}
