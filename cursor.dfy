/**
 * The selection cursor (`ListState::selected`, an optional index into the
 * visible set) and how `next`, `previous` and `apply_search` move it.
 */
module Cursor {
  import opened Wrappers
  import opened Paths

  /** The cursor invariant: `None` exactly when there are no entries, else a valid index. */
  predicate CursorOk(n: nat, c: Option<nat>)
  {
    (c.None? <==> n == 0) && (c.Some? ==> c.value < n)
  }

  /** `usize::saturating_sub`. */
  function SaturatingSub(a: nat, b: nat): (r: nat)
    ensures a >= b ==> r + b == a
    ensures a < b ==> r == 0
  {
    if a >= b then a - b else 0
  }

  /** The cursor `apply_search` selects over `n` visible entries: the first one, if any. */
  function ResetCursor(n: nat): (c: Option<nat>)
    ensures CursorOk(n, c)
    ensures n > 0 ==> c == Some(0)
  {
    if n > 0 then Some(0) else None
  }

  /** The cursor after `next` over `n` visible entries. */
  function NextCursor(n: nat, c: Option<nat>): Option<nat>
  {
    var i := match c
      case Some(i) => if i >= SaturatingSub(n, 1) then SaturatingSub(n, 1) else i + 1
      case None => 0;
    if n > 0 then Some(i) else c
  }

  /** The cursor after `previous` over `n` visible entries. */
  function PreviousCursor(n: nat, c: Option<nat>): Option<nat>
  {
    var i := match c
      case Some(i) => if i == 0 then 0 else i - 1
      case None => 0;
    if n > 0 then Some(i) else c
  }

  /**
   * `next` keeps the cursor invariant (and establishes it whenever there are
   * entries); it moves a valid cursor one step down, except at the last entry,
   * where it stays: it never wraps. Over no entries it changes nothing.
   */
  lemma NextCursorSpec(n: nat, c: Option<nat>)
    ensures n == 0 ==> NextCursor(n, c) == c
    ensures CursorOk(n, c) || n > 0 ==> CursorOk(n, NextCursor(n, c))
    ensures CursorOk(n, c) && c.Some? && c.value + 1 < n ==> NextCursor(n, c) == Some(c.value + 1)
    ensures CursorOk(n, c) && c.Some? && c.value + 1 == n ==> NextCursor(n, c) == c
  {
  }

  /**
   * `previous` keeps the cursor invariant; it moves a valid cursor one step up,
   * except at the first entry, where it stays. Over no entries it changes nothing.
   */
  lemma PreviousCursorSpec(n: nat, c: Option<nat>)
    ensures n == 0 ==> PreviousCursor(n, c) == c
    ensures CursorOk(n, c) ==> CursorOk(n, PreviousCursor(n, c))
    ensures n > 0 && c.None? ==> PreviousCursor(n, c) == Some(0)
    ensures CursorOk(n, c) && c.Some? && c.value > 0 ==> PreviousCursor(n, c) == Some(c.value - 1)
    ensures CursorOk(n, c) && c == Some(0) ==> PreviousCursor(n, c) == c
  {
  }

  /** `next` applied `k` times. */
  function NextTimes(n: nat, c: Option<nat>, k: nat): Option<nat>
    decreases k
  {
    if k == 0 then c else NextTimes(n, NextCursor(n, c), k - 1)
  }

  /** `previous` applied `k` times. */
  function PreviousTimes(n: nat, c: Option<nat>, k: nat): Option<nat>
    decreases k
  {
    if k == 0 then c else PreviousTimes(n, PreviousCursor(n, c), k - 1)
  }

  /** `k` steps down from entry `i` land on entry `i + k`, or on the last entry if that is beyond it. */
  lemma {:induction false} NextTimesSaturates(n: nat, i: nat, k: nat)
    requires i < n
    ensures NextTimes(n, Some(i), k) == Some(if i + k < n then i + k else n - 1)
    decreases k
  {
    if k > 0 {
      NextTimesSaturates(n, if i + 1 < n then i + 1 else n - 1, k - 1);
    }
  }

  /** `k` steps up from entry `i` land on entry `i - k`, or on the first entry if that is beyond it. */
  lemma {:induction false} PreviousTimesSaturates(n: nat, i: nat, k: nat)
    requires i < n
    ensures PreviousTimes(n, Some(i), k) == Some(if i >= k then i - k else 0)
    decreases k
  {
    if k > 0 {
      PreviousTimesSaturates(n, if i > 0 then i - 1 else 0, k - 1);
    }
  }

  /**
   * From any valid cursor, pressing down as many times as there are entries
   * (or more) lands on the last entry, and pressing up as often lands on the first.
   */
  lemma RepeatedMovesReachEnds(n: nat, c: Option<nat>, k: nat)
    requires CursorOk(n, c) && n > 0 && k >= n
    ensures NextTimes(n, c, k) == Some(n - 1)
    ensures PreviousTimes(n, c, k) == Some(0)
  {
    NextTimesSaturates(n, c.value, k);
    PreviousTimesSaturates(n, c.value, k);
  }

  /** `items.get(selected)`: the selected entry, if the cursor points at one. */
  function Selection(items: seq<Path>, c: Option<nat>): (r: Option<Path>)
    ensures r.Some? <==> c.Some? && c.value < |items|
    ensures r.Some? ==> r.value == items[c.value]
    ensures CursorOk(|items|, c) ==> (r.Some? <==> items != [])
  {
    match c
    case Some(i) => if i < |items| then Some(items[i]) else None
    case None => None
  }
}
