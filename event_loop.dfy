/**
 * The key dispatch of `run_app` and what `main` prints: each key event
 * updates the navigator or ends the session with a cancel or a confirm.
 */
module EventLoop {
  import opened Wrappers
  import opened Paths
  import opened DirListing
  import opened Search
  import opened Cursor
  import opened Navigator

  /** The key codes `run_app` distinguishes; `Other` is every other key (and every non-key event). */
  datatype Key = Esc | Backspace | Char(c: char) | Left | Right | Down | Up | Enter | Other

  /** What one key does to the session: go on, cancel (`Ok(None)`) or confirm a path (`Ok(Some(path))`). */
  datatype StepResult = Continue | Cancel | Confirm(path: Path)

  /** One input event, with the filesystem as it is when the event is handled. */
  datatype Event = Event(key: Key, fs: FileSystem)

  /** The outcome of a run over a finite stream of events: still waiting for input, or ended with `run_app`'s result. */
  datatype RunResult = Pending | Exited(selection: Option<Path>)

  /** `String::pop`: drops the last character; the empty string stays empty. */
  function PopLast(s: string): (r: string)
    ensures s == [] ==> r == []
    ensures s != [] ==> r + [s[|s| - 1]] == s
  {
    if s == [] then [] else s[..|s| - 1]
  }

  /**
   * What handling `key` does to the navigator's fields, with `fs` the
   * filesystem at that moment. Typing and deleting re-filter the listing; Left
   * clears the query, then ascends (at the root only the query changes);
   * Right descends, reloading with the query still in force, and clears the
   * query afterwards only if it descended; Up and Down move the cursor; Esc,
   * Enter and every other key leave the fields as they are.
   */
  ghost predicate Moves(s0: AppState, s1: AppState, fs: FileSystem, key: Key)
  {
    match key
    case Esc => s1 == s0
    case Enter => s1 == s0
    case Other => s1 == s0
    case Char(c) =>
      s1.searchQuery == s0.searchQuery + [c] &&
      s1.currentDir == s0.currentDir && s1.allItems == s0.allItems &&
      s1.items == Visible(s1.allItems, s1.searchQuery) && s1.selected == ResetCursor(|s1.items|)
    case Backspace =>
      s1.searchQuery == PopLast(s0.searchQuery) &&
      s1.currentDir == s0.currentDir && s1.allItems == s0.allItems &&
      s1.items == Visible(s1.allItems, s1.searchQuery) && s1.selected == ResetCursor(|s1.items|)
    case Left =>
      s1.searchQuery == "" &&
      if Parent(s0.currentDir).None? then
        s1.currentDir == s0.currentDir && s1.allItems == s0.allItems &&
        s1.items == s0.items && s1.selected == s0.selected
      else
        s1.currentDir == Parent(s0.currentDir).value &&
        s1.allItems == Listing(fs, s1.currentDir) && s1.items == s1.allItems &&
        s1.selected == ResetCursor(|s1.items|)
    case Right =>
      if CanEnter(fs, s0.items, s0.selected) then
        s1.currentDir == Selection(s0.items, s0.selected).value &&
        s1.allItems == Listing(fs, s1.currentDir) &&
        s1.items == Visible(s1.allItems, s0.searchQuery) &&
        s1.selected == ResetCursor(|s1.items|) && s1.searchQuery == ""
      else
        s1 == s0
    case Down =>
      s1.selected == NextCursor(|s1.items|, s0.selected) &&
      s1.currentDir == s0.currentDir && s1.allItems == s0.allItems &&
      s1.items == s0.items && s1.searchQuery == s0.searchQuery
    case Up =>
      s1.selected == PreviousCursor(|s1.items|, s0.selected) &&
      s1.currentDir == s0.currentDir && s1.allItems == s0.allItems &&
      s1.items == s0.items && s1.searchQuery == s0.searchQuery
  }

  /** A key and a filesystem determine the new state: `Moves` is a function of the old state. */
  lemma MovesDeterministic(s0: AppState, s1: AppState, s2: AppState, fs: FileSystem, key: Key)
    requires Moves(s0, s1, fs, key) && Moves(s0, s2, fs, key)
    ensures s1 == s2
  {
  }

  /**
   * What handling `key` does, with `r` the step's result: the fields move as
   * `Moves` says; Esc cancels, Enter confirms the path `get_selected_path`
   * gives, and every other key goes on.
   */
  twostate predicate KeyEffect(app: App, fs: FileSystem, key: Key, r: StepResult)
    reads app
  {
    Moves(old(app.State()), app.State(), fs, key) &&
    match key
    case Esc => r == Cancel
    case Enter => r == Confirm(app.GetSelectedPath(fs))
    case _ => r == Continue
  }

  /** One iteration of the `run_app` loop: dispatches `key` to the navigator. */
  method Step(app: App, fs: FileSystem, key: Key) returns (r: StepResult)
    modifies app
    ensures old(app.Valid()) ==> app.Valid()
    ensures r == Cancel <==> key == Esc
    ensures r.Confirm? <==> key == Enter
    ensures r.Confirm? ==> r.path == app.GetSelectedPath(fs)
    ensures KeyEffect(app, fs, key, r)
  {
    r := Continue;
    match key {
      case Esc =>
        r := Cancel;
      case Backspace =>
        app.searchQuery := PopLast(app.searchQuery);
        app.ApplySearch();
      case Char(c) =>
        app.searchQuery := app.searchQuery + [c];
        app.ApplySearch();
      case Left =>
        app.searchQuery := "";
        app.GoToParent(fs);
        VisibleIsFilter(app.allItems, "");
        KeepMatchingEmptyQuery(app.allItems);
      case Right =>
        var entered := app.EnterDirectory(fs);
        if entered {
          app.searchQuery := "";
        }
      case Down =>
        app.Next();
      case Up =>
        app.Previous();
      case Enter =>
        var path := app.GetSelectedPath(fs);
        r := Confirm(path);
      case Other =>
    }
  }

  /** An event that ends `run_app`. */
  predicate IsExit(k: Key)
  {
    k == Esc || k == Enter
  }

  /** The position of the first event that ends the session, if any. */
  function FirstExit(events: seq<Event>): (r: Option<nat>)
    ensures r.None? <==> forall k :: 0 <= k < |events| ==> !IsExit(events[k].key)
    ensures r.Some? ==> r.value < |events| && IsExit(events[r.value].key) &&
                        forall k :: 0 <= k < r.value ==> !IsExit(events[k].key)
  {
    if events == [] then None
    else if IsExit(events[0].key) then Some(0)
    else
      match FirstExit(events[1..])
      case None => None
      case Some(i) => Some(i + 1)
  }

  /** An exit event with no exit before it is the first exit. */
  lemma FirstExitAt(events: seq<Event>, i: nat)
    requires i < |events| && IsExit(events[i].key)
    requires forall k :: 0 <= k < i ==> !IsExit(events[k].key)
    ensures FirstExit(events) == Some(i)
  {
  }

  /**
   * `trace` is the sequence of states the navigator passes through while
   * handling the first `|trace| - 1` events: each move is `Moves` for that
   * event's key and filesystem.
   */
  ghost predicate Follows(trace: seq<AppState>, events: seq<Event>)
  {
    trace != [] && |trace| <= |events| + 1 &&
    forall k :: 0 <= k < |trace| - 1 ==> Moves(trace[k], trace[k + 1], events[k].fs, events[k].key)
  }

  /** The number of events `run_app` handles without ending: all of them, or those before the first exit. */
  function Handled(events: seq<Event>): (n: nat)
    ensures n <= |events|
    ensures FirstExit(events).Some? ==> n == FirstExit(events).value
  {
    match FirstExit(events)
    case None => |events|
    case Some(i) => i
  }

  /**
   * `run_app` over a finite event stream: handles events one by one until the
   * first Esc or Enter. Esc ends with no selection, Enter with the path
   * `get_selected_path` gives at that moment; if neither occurs the session is
   * still waiting for input. `trace` holds the state before the session and
   * after each event handled before the exit; the exit itself changes nothing,
   * so the last state is the one the session ends in.
   */
  method Run(app: App, events: seq<Event>) returns (res: RunResult, ghost trace: seq<AppState>)
    modifies app
    ensures old(app.Valid()) ==> app.Valid()
    ensures res == Pending <==> FirstExit(events).None?
    ensures res.Exited? ==> (res.selection.None? <==> events[FirstExit(events).value].key == Esc)
    ensures res.Exited? && res.selection.Some? ==>
              res.selection.value == app.GetSelectedPath(events[FirstExit(events).value].fs)
    ensures |trace| == Handled(events) + 1 && Follows(trace, events)
    ensures trace[0] == old(app.State()) && trace[|trace| - 1] == app.State()
  {
    trace := [app.State()];
    var i := 0;
    while i < |events|
      invariant 0 <= i <= |events|
      invariant forall k :: 0 <= k < i ==> !IsExit(events[k].key)
      invariant old(app.Valid()) ==> app.Valid()
      invariant |trace| == i + 1 && Follows(trace, events)
      invariant trace[0] == old(app.State()) && trace[i] == app.State()
    {
      ghost var before := trace;
      var step := Step(app, events[i].fs, events[i].key);
      match step {
        case Cancel =>
          FirstExitAt(events, i);
          return Exited(None), trace;
        case Confirm(path) =>
          FirstExitAt(events, i);
          return Exited(Some(path)), trace;
        case Continue =>
          assert !IsExit(events[i].key);
      }
      trace := trace + [app.State()];
      FollowsExtend(before, app.State(), events);
      i := i + 1;
    }
    return Pending, trace;
  }

  /**
   * Two traces of the same events from the same state agree, so the state a
   * session ends in is fixed by the events it handled.
   */
  lemma {:induction false} FollowsUnique(t1: seq<AppState>, t2: seq<AppState>, events: seq<Event>)
    requires Follows(t1, events) && Follows(t2, events)
    requires |t1| == |t2| && t1[0] == t2[0]
    ensures t1 == t2
    decreases |t1|
  {
    if |t1| > 1 {
      var n := |t1| - 1;
      FollowsPrefix(t1, events);
      FollowsPrefix(t2, events);
      FollowsUnique(t1[..n], t2[..n], events);
      assert t1[n - 1] == t1[..n][n - 1] && t2[n - 1] == t2[..n][n - 1];
      MovesDeterministic(t1[n - 1], t1[n], t2[n], events[n - 1].fs, events[n - 1].key);
      assert t1 == t1[..n] + [t1[n]] && t2 == t2[..n] + [t2[n]];
    }
  }

  lemma FollowsPrefix(t: seq<AppState>, events: seq<Event>)
    requires Follows(t, events) && |t| > 1
    ensures Follows(t[..|t| - 1], events)
  {
    var p := t[..|t| - 1];
    forall k | 0 <= k < |p| - 1 ensures Moves(p[k], p[k + 1], events[k].fs, events[k].key) {
      assert p[k] == t[k] && p[k + 1] == t[k + 1];
    }
  }

  lemma FollowsExtend(trace: seq<AppState>, s: AppState, events: seq<Event>)
    requires Follows(trace, events) && |trace| <= |events|
    requires Moves(trace[|trace| - 1], s, events[|trace| - 1].fs, events[|trace| - 1].key)
    ensures Follows(trace + [s], events)
  {
    var t := trace + [s];
    forall k | 0 <= k < |t| - 1 ensures Moves(t[k], t[k + 1], events[k].fs, events[k].key) {
      if k < |trace| - 1 {
        assert t[k] == trace[k] && t[k + 1] == trace[k + 1];
      }
    }
  }

  /** The lines `main` writes to standard output for `run_app`'s result: the path on confirm, nothing on cancel. */
  function Printed(selection: Option<Path>): (lines: seq<Path>)
    ensures |lines| <= 1
    ensures lines == [] <==> selection.None?
    ensures selection.Some? ==> lines == [selection.value]
  {
    match selection
    case Some(p) => [p]
    case None => []
  }

  /**
   * Cancelling and confirming are told apart by the caller: a cancel prints
   * nothing, a confirm prints one line even when it is the current directory.
   */
  lemma CancelDistinctFromConfirm(p: Path)
    ensures Printed(None) != Printed(Some(p))
    ensures |Printed(Some(p))| == 1 && Printed(None) == []
  {
  }
}
