/**
 * The search filter of `apply_search`: an entry is visible when its lowercased
 * file name contains the lowercased query.
 */
module Search {
  import opened Paths

  /** Lowercasing of one character, ASCII letters only. */
  function LowerChar(c: char): (r: char)
    ensures !('A' <= r <= 'Z')
    ensures 'A' <= c <= 'Z' ==> r as int == c as int + 32
    ensures !('A' <= c <= 'Z') ==> r == c
  {
    if 'A' <= c <= 'Z' then (c as int + 32) as char else c
  }

  /** `str::to_lowercase`, restricted to ASCII letters: the same length, no capital left. */
  function Lower(s: string): (r: string)
    ensures |r| == |s|
    ensures forall i :: 0 <= i < |r| ==> r[i] == LowerChar(s[i]) && !('A' <= r[i] <= 'Z')
  {
    seq(|s|, i requires 0 <= i < |s| => LowerChar(s[i]))
  }

  /** Lowercasing twice is lowercasing once. */
  lemma LowerIdempotent(s: string)
    ensures Lower(Lower(s)) == Lower(s)
  {
  }

  /** A string without capital letters is its own lowercase. */
  lemma LowerWithoutCapitals(s: string)
    requires forall i :: 0 <= i < |s| ==> !('A' <= s[i] <= 'Z')
    ensures Lower(s) == s
  {
  }

  /** `str::contains`: `needle` occurs in `hay` as a contiguous substring. */
  predicate Contains(hay: string, needle: string)
    decreases |hay|
  {
    needle <= hay || (|hay| > 0 && Contains(hay[1..], needle))
  }

  /** `needle` occurs in `hay` starting at offset `i`. */
  predicate OccursAt(hay: string, needle: string, i: int)
  {
    0 <= i <= |hay| - |needle| && hay[i..i + |needle|] == needle
  }

  /** `Contains` means: there is an offset at which `needle` occurs. */
  lemma {:induction false} ContainsAt(hay: string, needle: string)
    ensures Contains(hay, needle) <==> exists i :: OccursAt(hay, needle, i)
    decreases |hay|
  {
    if |hay| > 0 {
      ContainsAt(hay[1..], needle);
      assert needle <= hay <==> OccursAt(hay, needle, 0);
      forall i | 0 <= i ensures OccursAt(hay[1..], needle, i) <==> OccursAt(hay, needle, i + 1) {
        if i <= |hay[1..]| - |needle| {
          var a, b := hay[1..][i..i + |needle|], hay[i + 1..i + 1 + |needle|];
          assert |a| == |b|;
          forall j | 0 <= j < |a| ensures a[j] == b[j] { assert a[j] == hay[i + 1 + j]; }
          assert a == b;
        }
      }
      if exists i :: OccursAt(hay, needle, i) {
        var i :| OccursAt(hay, needle, i);
        if i > 0 { assert OccursAt(hay[1..], needle, i - 1); }
      }
      if Contains(hay, needle) && !(needle <= hay) {
        var i :| OccursAt(hay[1..], needle, i);
        assert OccursAt(hay, needle, i + 1);
      }
    } else {
      if needle == [] { assert OccursAt(hay, needle, 0); }
    }
  }

  /** The filter predicate: the lowercased file name contains the lowercased query. */
  predicate Matches(p: Path, query: string)
  {
    Contains(Lower(FileName(p)), Lower(query))
  }

  /** What the filter keeps of one entry: the entry itself if it matches, else nothing. */
  function Hit(p: Path, query: string): (r: seq<Path>)
    ensures r == [p] || r == []
  {
    if Matches(p, query) then [p] else []
  }

  /** `all_items.iter().filter(..).cloned().collect()`: the matching entries, in order. */
  function KeepMatching(s: seq<Path>, query: string): seq<Path>
  {
    if s == [] then [] else Hit(s[0], query) + KeepMatching(s[1..], query)
  }

  /** The visible set `apply_search` computes: the whole listing for an empty query, else the matches. */
  function Visible(all: seq<Path>, query: string): seq<Path>
  {
    if query == "" then all else KeepMatching(all, query)
  }

  /** `a` can be obtained from `b` by deleting elements: an order-preserving subsequence. */
  predicate IsSubseq<T(==)>(a: seq<T>, b: seq<T>)
    decreases |b|
  {
    a == [] || (b != [] && ((a[0] == b[0] && IsSubseq(a[1..], b[1..])) || IsSubseq(a, b[1..])))
  }

  /** Every element of a subsequence is an element of the sequence. */
  lemma {:induction false} SubseqMembers<T>(a: seq<T>, b: seq<T>)
    ensures IsSubseq(a, b) ==> forall k :: 0 <= k < |a| ==> a[k] in b
    decreases |b|
  {
    if IsSubseq(a, b) && a != [] {
      SubseqMembers(a[1..], b[1..]);
      SubseqMembers(a, b[1..]);
      forall k | 0 <= k < |a| ensures a[k] in b {
        if k > 0 && a[0] == b[0] && IsSubseq(a[1..], b[1..]) { assert a[k] == a[1..][k - 1]; }
      }
    }
  }

  lemma {:induction false} KeepMatchingConcat(a: seq<Path>, b: seq<Path>, query: string)
    ensures KeepMatching(a + b, query) == KeepMatching(a, query) + KeepMatching(b, query)
    decreases |a|
  {
    if a == [] {
      assert a + b == b;
    } else {
      assert (a + b)[0] == a[0] && (a + b)[1..] == a[1..] + b;
      KeepMatchingConcat(a[1..], b, query);
    }
  }

  /** One more iteration of the filter appends what it keeps of the next entry. */
  lemma KeepMatchingStep(s: seq<Path>, i: nat, query: string)
    requires i < |s|
    ensures KeepMatching(s[..i + 1], query) == KeepMatching(s[..i], query) + Hit(s[i], query)
  {
    assert s[..i + 1] == s[..i] + [s[i]];
    KeepMatchingConcat(s[..i], [s[i]], query);
    assert [s[i]][1..] == [];
  }

  /** An entry is kept exactly when it is in the listing and matches the query. */
  lemma {:induction false} KeepMatchingMember(s: seq<Path>, query: string, p: Path)
    ensures p in KeepMatching(s, query) <==> p in s && Matches(p, query)
    decreases |s|
  {
    if s != [] {
      KeepMatchingMember(s[1..], query, p);
      assert s == [s[0]] + s[1..];
    }
  }

  lemma {:induction false} KeepMatchingSubseq(s: seq<Path>, query: string)
    ensures IsSubseq(KeepMatching(s, query), s)
    decreases |s|
  {
    if s != [] {
      KeepMatchingSubseq(s[1..], query);
      var rest := KeepMatching(s[1..], query);
      if Matches(s[0], query) {
        assert KeepMatching(s, query) == [s[0]] + rest;
        assert ([s[0]] + rest)[1..] == rest;
      } else {
        assert KeepMatching(s, query) == rest;
      }
    }
  }

  lemma {:induction false} SubseqCons<T>(a: seq<T>, x: T, b: seq<T>)
    requires IsSubseq(a, b)
    ensures IsSubseq(a, [x] + b)
  {
    assert ([x] + b)[1..] == b;
  }

  /**
   * The kept entries form the largest matching subsequence: every
   * order-preserving subsequence of the listing whose entries all match is a
   * subsequence of it.
   */
  lemma {:induction false} KeepMatchingGreatest(r: seq<Path>, s: seq<Path>, query: string)
    requires IsSubseq(r, s)
    requires forall i :: 0 <= i < |r| ==> Matches(r[i], query)
    ensures IsSubseq(r, KeepMatching(s, query))
    decreases |s|
  {
    if r != [] {
      var rest := KeepMatching(s[1..], query);
      if r[0] == s[0] && IsSubseq(r[1..], s[1..]) {
        KeepMatchingGreatest(r[1..], s[1..], query);
        assert Matches(s[0], query);
        assert KeepMatching(s, query) == [s[0]] + rest;
        assert ([s[0]] + rest)[1..] == rest;
      } else {
        KeepMatchingGreatest(r, s[1..], query);
        if Matches(s[0], query) {
          assert KeepMatching(s, query) == [s[0]] + rest;
          SubseqCons(r, s[0], rest);
        } else {
          assert KeepMatching(s, query) == rest;
        }
      }
    }
  }

  /** Every name contains the empty query, so filtering by it keeps everything. */
  lemma {:induction false} KeepMatchingEmptyQuery(s: seq<Path>)
    ensures KeepMatching(s, "") == s
    decreases |s|
  {
    if s != [] {
      assert Lower("") == "";
      assert Matches(s[0], "");
      KeepMatchingEmptyQuery(s[1..]);
      assert s == [s[0]] + s[1..];
    }
  }

  /** The empty-query shortcut of `apply_search` agrees with filtering. */
  lemma VisibleIsFilter(all: seq<Path>, query: string)
    ensures Visible(all, query) == KeepMatching(all, query)
  {
    if query == "" { KeepMatchingEmptyQuery(all); }
  }

  /** The visible set is an order-preserving subsequence of the listing. */
  lemma VisibleSubseq(all: seq<Path>, query: string)
    ensures IsSubseq(Visible(all, query), all)
  {
    VisibleIsFilter(all, query);
    KeepMatchingSubseq(all, query);
  }

  /** An entry is visible exactly when it is listed and its name matches. */
  lemma VisibleMember(all: seq<Path>, query: string, p: Path)
    ensures p in Visible(all, query) <==> p in all && Matches(p, query)
  {
    VisibleIsFilter(all, query);
    KeepMatchingMember(all, query, p);
  }

  /** A sequence whose entries all match is kept whole. */
  lemma {:induction false} KeepMatchingAllMatch(t: seq<Path>, query: string)
    requires forall i :: 0 <= i < |t| ==> Matches(t[i], query)
    ensures KeepMatching(t, query) == t
    decreases |t|
  {
    if t != [] {
      assert Hit(t[0], query) == [t[0]];
      KeepMatchingAllMatch(t[1..], query);
      assert t == [t[0]] + t[1..];
    }
  }

  lemma KeepMatchingIdempotent(s: seq<Path>, query: string)
    ensures KeepMatching(KeepMatching(s, query), query) == KeepMatching(s, query)
  {
    var t := KeepMatching(s, query);
    forall i | 0 <= i < |t| ensures Matches(t[i], query) {
      KeepMatchingMember(s, query, t[i]);
    }
    KeepMatchingAllMatch(t, query);
  }

  /** Re-applying the filter to the visible set changes nothing. */
  lemma VisibleIdempotent(all: seq<Path>, query: string)
    ensures Visible(Visible(all, query), query) == Visible(all, query)
  {
    if query != "" { KeepMatchingIdempotent(all, query); }
  }

  lemma {:induction false} KeepMatchingLowerQuery(s: seq<Path>, query: string)
    ensures KeepMatching(s, Lower(query)) == KeepMatching(s, query)
    decreases |s|
  {
    LowerIdempotent(query);
    if s != [] { KeepMatchingLowerQuery(s[1..], query); }
  }

  /** The filter is case-insensitive in the query: a query and its lowercase show the same entries. */
  lemma VisibleCaseInsensitive(all: seq<Path>, query: string)
    ensures Visible(all, Lower(query)) == Visible(all, query)
  {
    KeepMatchingLowerQuery(all, query);
  }
}
