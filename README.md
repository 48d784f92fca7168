# better_cd navigator, modelled in Dafny

`better_cd` is a terminal directory browser. The user moves through the
filesystem, filters the entries of the current directory by a substring, and
confirms a directory. Its path is then printed for the calling shell to `cd`
into. This project models the navigator state `App` (src/app.rs) and the key
dispatch of `run_app` (src/main.rs), and proves what they promise.

- `Paths` (paths.dfy): a path is the sequence of its components, and `[]` is
  the root. It defines `Path::parent`, `Path::file_name`, `Path::join`, and the
  order `PathBuf` is sorted by: component by component, each component compared
  as a string. It also has an insertion sort that stands for `Vec::sort`,
  together with the proof that every sorted permutation equals its result.
- `DirListing` (listing.dfy): a filesystem snapshot. `read_dir` either fails
  or yields items. An item is an I/O error or an entry with readable or
  unreadable metadata. `is_dir` is answered by an independent set. The module
  also holds the listing that `load_directories` builds: readable
  sub-directories sorted, then readable files sorted.
- `Search` (search.dfy): ASCII lowercasing, substring containment, and the
  visible set that `apply_search` computes.
- `Cursor` (cursor.dfy): the `ListState` cursor under `next`, `previous` and
  the reset after a search, plus `Vec::get` on the visible set.
- `Navigator` (app.dfy): `class App` with the fields of the Rust struct. Its
  methods update them in place. The loops of `load_directories` and
  `apply_search` are the methods `PartitionEntries` and `FilterItems`. The
  invariant `Valid()` says:
  - the cursor is `None` exactly when nothing is visible, and otherwise in
    bounds;
  - the listing holds children of the current directory;
  - the visible set is a subsequence of the listing.
- `EventLoop` (event_loop.dfy): the effect of one key on a value snapshot of
  the `App` fields (`Moves`), one key event (`Step`), a session over a finite
  stream of events (`Run`, with a ghost trace of the states it passes
  through), and what `main` prints.
- `Scenario` (scenario.dfy): a worked session. A directory holds `b/`, `a/`
  and `z.txt`. It is listed as `a`, `b`, `z.txt`. Typing `z` leaves only
  `z.txt`, and Enter confirms the directory itself.

Where the code departs from the intended policy, the model follows the code:
- The intended policy is that descending clears the filter before reloading.
  In the code, Right (`enter_directory`) reloads the new directory with the
  old query still in force, and only after that does `run_app` clear the
  query. So after a descent the visible set is the new listing filtered by the
  old query, while the query is empty.
- Left clears the query before `go_to_parent`. At the root nothing is
  reloaded, so the visible set stays filtered by the old query while the query
  is empty (`EventLoop.Moves`, case `Left`).
- `go_to_parent` and `enter_directory` call `apply_search` a second time after
  `load_directories`. The model does the same. The second call changes
  nothing: `ApplySearch` computes the visible set and the cursor from the
  listing and the query alone, and it changes neither of them.

## Model

| member | source | states |
|---|---|---|
| Navigator.App.constructor | src/app.rs:13-23 | Starts in the working directory, or at the root when that is unavailable, with an empty query. The listing is that directory's listing, everything is visible, the cursor is on the first entry if there is one, and the invariant holds. |
| Navigator.App.LoadDirectories | src/app.rs:25-47 | The listing becomes exactly `Listing(fs, currentDir)`, which is empty when `read_dir` fails. The visible set is that listing filtered by the current query, the cursor is reset, and the invariant and sync hold. |
| Navigator.PartitionEntries | src/app.rs:28-40 | The loop over the `read_dir` items yields exactly the readable directory entries and the readable file entries, each in iteration order. Item errors and unreadable metadata are skipped. |
| Navigator.App.ApplySearch | src/app.rs:49-71 | The visible set is the listing filtered by the query, and the whole listing when the query is empty. It is a subsequence of the listing. The cursor is `Some(0)` when something is visible and `None` otherwise. |
| Navigator.FilterItems | src/app.rs:53-64 | The filter loop keeps, in order, exactly the entries whose lowercased name contains the lowercased query. |
| Navigator.App.Next | src/app.rs:73-87 | The cursor moves as `NextCursor`: nothing happens when no entry is visible, and `None` goes to 0. Otherwise it moves one down, saturating at the last entry. The invariant is preserved. |
| Navigator.App.Previous | src/app.rs:89-103 | The cursor moves as `PreviousCursor`: one up, stopping at 0. `None` goes to 0 when something is visible. The invariant is preserved. |
| Navigator.App.GoToParent | src/app.rs:105-111 | At the root nothing changes. Otherwise the current directory becomes the parent, its listing is loaded, the visible set is synced with the query, and the cursor is reset. The invariant is preserved. |
| Navigator.App.EnterDirectory | src/app.rs:113-125 | Returns true exactly when an entry is selected and `is_dir` answers yes for it now. In that case the selected path becomes the current directory, its listing is loaded under the current query, the cursor is reset and the invariant holds. Otherwise nothing changes. |
| Navigator.App.GetSelectedPath | src/app.rs:127-140 | With no selection, the current directory. For a selected directory, the directory itself. For a selected file, its parent: the path plus the file name gives the file back. Under the invariant that parent is the current directory and never the file itself. |
| EventLoop.Step | src/main.rs:49-73 | One key; the fields move as `Moves` says (`KeyEffect`). Esc cancels and Enter confirms `get_selected_path`, and these are the only keys that end the session; neither changes the state. Char and Backspace edit the query (`push` and `pop`) and re-filter. Left clears the query and ascends. Right descends and clears the query only if it descended. Down and Up move the cursor. Any other key changes nothing. The invariant is preserved. |
| EventLoop.Run | src/main.rs:44-77 | Over a stream of events, the session ends at the first Esc or Enter. Esc gives no selection. Enter gives the path `get_selected_path` returns at that moment. With neither key the session is still waiting. The ghost trace starts at the state before the session and ends at the final state. Each step in it is the `Moves` of the corresponding handled event, and it has one step per event before the exit. The invariant is preserved. |
| EventLoop.MovesDeterministic | src/main.rs:49-73 | A key and a filesystem determine the new state from the old one. |
| EventLoop.FollowsUnique | src/main.rs:45-76 | Two traces of the same events from the same state are equal. So the state a session ends in, and the path it confirms, are fixed by the events handled before the exit. |
| EventLoop.Handled | src/main.rs:45-76 | The number of events handled without ending: all of them, or exactly those before the first exit. |
| EventLoop.FirstExit | src/main.rs:45-77 | The position of the first Esc or Enter: none exactly when there is none, and no exit before it. |
| EventLoop.PopLast | src/main.rs:52 | `String::pop`: the empty query stays empty, and otherwise the last character is dropped. |
| EventLoop.Printed | src/main.rs:37-39 | `main` prints one line, the path, when a path was confirmed, and nothing on cancel. |
| EventLoop.CancelDistinctFromConfirm | src/main.rs:37-39 | A cancel and a confirm print differently, even when the confirmed path is the current directory. |
| DirListing.KindPaths | src/app.rs:30-40 | The entries of one kind are children of the directory, and there are no more of them than items. |
| DirListing.Listing | src/app.rs:25-45 | The listing is empty when `read_dir` fails and holds only children of the directory. |
| DirListing.ListingDirsThenFiles | src/app.rs:34-44 | The listing is a block of readable directory entries followed by a block of readable file entries, and each block is in ascending order of names. |
| DirListing.ListingMember | src/app.rs:27-40 | A path is listed exactly when `read_dir` succeeded and some entry with readable metadata has that path. |
| DirListing.ListingOrderIndependent | src/app.rs:30-44 | The listing does not depend on the order in which `read_dir` yields the entries. |
| DirListing.KindPathsPermutation | src/app.rs:30-40 | Reordering the items permutes the entries of each kind. |
| DirListing.KindPathsMember | src/app.rs:30-40 | A path is among the entries of one kind exactly when some readable item of that kind has that path. |
| Paths.SortPathsCharacterised | src/app.rs:41-42 | The sort result is sorted, and it is the only sorted permutation of its input. So any correct sort, including the standard library's, gives the same sequence. |
| Paths.SortPathsPermutation | src/app.rs:41-42 | Sorting two permutations of the same paths gives the same sequence. |
| Paths.SiblingOrder | src/app.rs:41-42 | Two entries of the same directory compare as their names compare. |
| Paths.PathLeTotal | src/app.rs:41-42 | The path order is total. |
| Paths.PathLeAntisymmetric | src/app.rs:41-42 | The path order is antisymmetric. |
| Paths.PathLeTransitive | src/app.rs:41-42 | The path order is transitive. |
| Paths.Parent | src/app.rs:106 | The root has no parent. Any other path is its parent extended by one component. |
| Paths.Child | src/app.rs:31 | An entry's path has the directory as its parent and the entry's name as its file name. |
| Search.Lower | src/app.rs:53 | Lowercasing keeps the length and maps each character by `LowerChar`, leaving no capital letter. |
| Search.LowerChar | src/app.rs:60 | A capital letter goes to its small letter, and every other character is unchanged. |
| Search.LowerIdempotent | src/app.rs:53-60 | Lowercasing twice is lowercasing once. |
| Search.ContainsAt | src/app.rs:61 | `contains` holds exactly when the needle occurs at some position of the haystack. |
| Search.VisibleMember | src/app.rs:49-65 | An entry is visible exactly when it is listed and its lowercased name contains the lowercased query. |
| Search.VisibleSubseq | src/app.rs:54-64 | The visible set keeps the listing's order: it is a subsequence of the listing. |
| Search.KeepMatchingGreatest | src/app.rs:54-64 | Every subsequence of the listing whose entries all match is a subsequence of the filter's result, so the filter drops no matching entry. |
| Search.VisibleIsFilter | src/app.rs:50-51 | The shortcut for the empty query gives the same set as filtering by it. |
| Search.KeepMatchingEmptyQuery | src/app.rs:50-64 | Every name contains the empty query. |
| Search.VisibleIdempotent | src/app.rs:54-64 | The filter is idempotent: filtering its result again by the same query changes nothing. |
| Search.VisibleCaseInsensitive | src/app.rs:53-61 | A query and its lowercased form give the same visible set. |
| Search.KeepMatchingConcat | src/app.rs:54-64 | Filtering distributes over concatenation. |
| Cursor.ResetCursor | src/app.rs:66-70 | The reset cursor is in bounds and is `Some(0)` when something is visible. |
| Cursor.NextCursorSpec | src/app.rs:73-87 | With no entries `next` changes nothing. From a valid cursor, or whenever something is visible, the new cursor is valid. It moves one down below the last entry and stays at the last. |
| Cursor.PreviousCursorSpec | src/app.rs:89-103 | With no entries `previous` changes nothing. It keeps a valid cursor valid and takes `None` to 0. It moves one up above the first entry and stays at 0. |
| Cursor.NextTimesSaturates | src/app.rs:73-87 | `k` presses of Down from `i` land on `min(i + k, n - 1)`. |
| Cursor.PreviousTimesSaturates | src/app.rs:89-103 | `k` presses of Up from `i` land on `max(i - k, 0)`. |
| Cursor.RepeatedMovesReachEnds | src/app.rs:73-103 | `n` or more presses reach the last entry going down and the first going up. |
| Cursor.Selection | src/app.rs:114-115 | `items.get(selected)` finds an entry exactly when the cursor is in bounds, and that entry is the one at the cursor. Under the invariant there is a selection exactly when something is visible. |
| Cursor.SaturatingSub | src/app.rs:76-77 | `saturating_sub` is the difference when it is non-negative, and 0 otherwise. |
| Scenario.SampleListing | src/app.rs:25-65 | With `b/`, `a/` and `z.txt`, the listing is `a`, `b`, `z.txt`, and the query `z` leaves only `z.txt`. |
| Scenario.SampleFileIsNoDirectory | src/app.rs:130-134 | The sample file is not a directory, so confirming on it gives its parent. |

## Left out

- src/ui.rs (drawing), terminal raw mode and the alternate screen, and `terminal.draw` are not part of this model. They only present the state.
- The `?` errors of `event::read` and `terminal.draw` are left out. Reading events is modelled as a finite sequence, and `RunResult.Pending` stands for still blocking on input.
- Non-key events, and key codes other than the eight handled ones, are folded into `Key.Other`, which changes nothing.
- The real filesystem and `env::current_dir` are parameters: a `FileSystem` snapshot per event, and an `Option<Path>` for the working directory.
- Search.LowerChar: `to_lowercase` is Unicode-aware, but the model lowercases only ASCII capital letters. Every other character is left as it is.
- `to_string_lossy` and the rendering of a path as a `String` are left out. A confirmed path is the `Path` itself.
- Paths.SortPathsCharacterised: `Vec::sort` is the standard library's merge sort. It is modelled by an insertion sort, which is proved to be the unique sorted permutation. Stability is therefore not modelled, and it does not matter, because equal paths are identical.
- Paths.PathLe: `PathBuf` compares components by their bytes, and the model compares them by characters. For UTF-8 text the two orders agree. Non-UTF-8 file names are not modelled.
- Absolute-path details are not modelled: Windows prefixes, `.` and `..` components. The root is the empty component sequence.
- Cursor.PreviousCursorSpec: an out-of-range cursor is not shown to come back into bounds on Up, because the source does not promise that. The invariant rules such cursors out.
- `ListState`'s scroll offset is not modelled. Only `selected` is.
