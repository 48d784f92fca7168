/**
 * Paths as sequences of components, and the order in which `Vec<PathBuf>::sort`
 * arranges them: `Path`'s `Ord` compares component by component, and each
 * component compares as a string.
 */
module Paths {
  import opened Wrappers

  /** A path below the root, one component per element; `[]` is the root `/`. */
  type Path = seq<string>

  /** `Path::parent`: the path without its last component, `None` at the root. */
  function Parent(p: Path): (r: Option<Path>)
    ensures r.None? <==> p == []
    ensures r.Some? ==> |r.value| + 1 == |p| && r.value + [p[|p| - 1]] == p
  {
    if p == [] then None else Some(p[..|p| - 1])
  }

  /** `Path::file_name().unwrap_or_default()`: the last component, empty at the root. */
  function FileName(p: Path): (r: string)
    ensures p != [] ==> Parent(p).value + [r] == p
  {
    if p == [] then "" else p[|p| - 1]
  }

  /** The path of an entry `name` of directory `dir`, as `DirEntry::path` gives it. */
  function Child(dir: Path, name: string): (r: Path)
    ensures Parent(r) == Some(dir) && FileName(r) == name
  {
    dir + [name]
  }

  /** Every path of `s` is an immediate entry of `dir`. */
  predicate ChildrenOf(s: seq<Path>, dir: Path)
  {
    forall i :: 0 <= i < |s| ==> Parent(s[i]) == Some(dir)
  }

  // ---------------------------------------------------------------------------
  // String order: lexicographic by character, a proper prefix first.
  // (Code-point order on characters is byte order on their UTF-8 encoding.)

  predicate StrLe(a: string, b: string)
    decreases |a|
  {
    |a| == 0 || (|b| > 0 && (a[0] < b[0] || (a[0] == b[0] && StrLe(a[1..], b[1..]))))
  }

  predicate StrLt(a: string, b: string)
  {
    StrLe(a, b) && a != b
  }

  lemma {:induction false} StrLeReflexive(a: string)
    ensures StrLe(a, a)
    decreases |a|
  {
    if |a| > 0 { StrLeReflexive(a[1..]); }
  }

  lemma {:induction false} StrLeTotal(a: string, b: string)
    ensures StrLe(a, b) || StrLe(b, a)
    decreases |a|
  {
    if |a| > 0 && |b| > 0 && a[0] == b[0] { StrLeTotal(a[1..], b[1..]); }
  }

  lemma {:induction false} StrLeAntisymmetric(a: string, b: string)
    requires StrLe(a, b) && StrLe(b, a)
    ensures a == b
    decreases |a|
  {
    if |a| > 0 {
      StrLeAntisymmetric(a[1..], b[1..]);
      assert a == [a[0]] + a[1..] && b == [b[0]] + b[1..];
    }
  }

  lemma {:induction false} StrLeTransitive(a: string, b: string, c: string)
    requires StrLe(a, b) && StrLe(b, c)
    ensures StrLe(a, c)
    decreases |a|
  {
    if |a| > 0 && a[0] == b[0] && b[0] == c[0] { StrLeTransitive(a[1..], b[1..], c[1..]); }
  }

  lemma StrLtTransitive(a: string, b: string, c: string)
    requires StrLt(a, b) && StrLt(b, c)
    ensures StrLt(a, c)
  {
    StrLeTransitive(a, b, c);
    if a == c { StrLeAntisymmetric(a, b); }
  }

  // ---------------------------------------------------------------------------
  // Path order: lexicographic by component, a proper prefix first.

  predicate PathLe(a: Path, b: Path)
    decreases |a|
  {
    |a| == 0 || (|b| > 0 && (StrLt(a[0], b[0]) || (a[0] == b[0] && PathLe(a[1..], b[1..]))))
  }

  lemma {:induction false} PathLeReflexive(a: Path)
    ensures PathLe(a, a)
    decreases |a|
  {
    if |a| > 0 { PathLeReflexive(a[1..]); }
  }

  lemma {:induction false} PathLeTotal(a: Path, b: Path)
    ensures PathLe(a, b) || PathLe(b, a)
    decreases |a|
  {
    if |a| > 0 && |b| > 0 {
      StrLeTotal(a[0], b[0]);
      if a[0] == b[0] { PathLeTotal(a[1..], b[1..]); }
    }
  }

  lemma {:induction false} PathLeAntisymmetric(a: Path, b: Path)
    requires PathLe(a, b) && PathLe(b, a)
    ensures a == b
    decreases |a|
  {
    if |a| > 0 {
      if a[0] != b[0] { StrLeAntisymmetric(a[0], b[0]); }
      PathLeAntisymmetric(a[1..], b[1..]);
      assert a == [a[0]] + a[1..] && b == [b[0]] + b[1..];
    }
  }

  lemma {:induction false} PathLeTransitive(a: Path, b: Path, c: Path)
    requires PathLe(a, b) && PathLe(b, c)
    ensures PathLe(a, c)
    decreases |a|
  {
    if |a| > 0 {
      if a[0] == b[0] && b[0] == c[0] {
        PathLeTransitive(a[1..], b[1..], c[1..]);
      } else if a[0] != b[0] && b[0] != c[0] {
        StrLtTransitive(a[0], b[0], c[0]);
      }
    }
  }

  /** Siblings compare as their file names do: sorting one directory's entries sorts their names. */
  lemma {:induction false} SiblingOrder(dir: Path, a: string, b: string)
    ensures PathLe(Child(dir, a), Child(dir, b)) <==> StrLe(a, b)
    decreases |dir|
  {
    if dir == [] {
      assert Child(dir, a) == [a] && Child(dir, b) == [b];
      assert [a][1..] == [] && [b][1..] == [];
      StrLeReflexive(a);
    } else {
      assert Child(dir, a)[0] == dir[0] && Child(dir, a)[1..] == Child(dir[1..], a);
      assert Child(dir, b)[0] == dir[0] && Child(dir, b)[1..] == Child(dir[1..], b);
      SiblingOrder(dir[1..], a, b);
    }
  }

  // ---------------------------------------------------------------------------
  // `Vec::sort`, specified by what any correct sort returns.

  ghost predicate Sorted(s: seq<Path>)
  {
    forall i, j :: 0 <= i < j < |s| ==> PathLe(s[i], s[j])
  }

  function Insert(x: Path, s: seq<Path>): (r: seq<Path>)
    ensures multiset(r) == multiset(s) + multiset{x}
  {
    if s == [] then [x]
    else if PathLe(x, s[0]) then [x] + s
    else
      assert s == [s[0]] + s[1..];
      [s[0]] + Insert(x, s[1..])
  }

  /** The result of sorting `s` in place: insertion sort, which the lemmas below show agrees with every sort. */
  function SortPaths(s: seq<Path>): (r: seq<Path>)
    ensures multiset(r) == multiset(s) && |r| == |s|
  {
    if s == [] then []
    else
      assert s == [s[0]] + s[1..];
      Insert(s[0], SortPaths(s[1..]))
  }

  /** A path below every element of a sorted sequence can be put in front of it. */
  lemma SortedCons(y: Path, t: seq<Path>)
    requires Sorted(t)
    requires forall z :: z in t ==> PathLe(y, z)
    ensures Sorted([y] + t)
  {
    var r := [y] + t;
    forall i, j | 0 <= i < j < |r| ensures PathLe(r[i], r[j]) {
      assert r[j] == t[j - 1];
      if i > 0 { assert r[i] == t[i - 1]; }
    }
  }

  lemma {:induction false} InsertSorted(x: Path, s: seq<Path>)
    requires Sorted(s)
    ensures Sorted(Insert(x, s))
    decreases |s|
  {
    if s == [] {
    } else if PathLe(x, s[0]) {
      forall z | z in s ensures PathLe(x, z) {
        SortedHeadLeast(s, z);
        PathLeTransitive(x, s[0], z);
      }
      SortedCons(x, s);
    } else {
      PathLeTotal(x, s[0]);
      SortedTail(s);
      InsertSorted(x, s[1..]);
      var t := Insert(x, s[1..]);
      forall z | z in t ensures PathLe(s[0], z) {
        assert z in multiset(t);
        if z != x {
          assert z in s[1..];
          SortedHeadLeast(s, z);
        }
      }
      SortedCons(s[0], t);
    }
  }

  lemma {:induction false} SortPathsSorted(s: seq<Path>)
    ensures Sorted(SortPaths(s))
    decreases |s|
  {
    if s != [] {
      SortPathsSorted(s[1..]);
      InsertSorted(s[0], SortPaths(s[1..]));
    }
  }

  /** The head of a sorted sequence is below each of its elements. */
  lemma SortedHeadLeast(a: seq<Path>, y: Path)
    requires Sorted(a) && y in a
    ensures PathLe(a[0], y)
  {
    var k :| 0 <= k < |a| && a[k] == y;
    if k == 0 { PathLeReflexive(y); }
  }

  lemma SortedTail(a: seq<Path>)
    requires Sorted(a) && a != []
    ensures Sorted(a[1..])
  {
    forall i, j | 0 <= i < j < |a[1..]| ensures PathLe(a[1..][i], a[1..][j]) {
      assert a[1..][i] == a[i + 1] && a[1..][j] == a[j + 1];
    }
  }

  lemma MultisetTail(a: seq<Path>)
    requires a != []
    ensures multiset(a[1..]) == multiset(a) - multiset{a[0]}
  {
    assert a == [a[0]] + a[1..];
  }

  /** Two sorted arrangements of the same paths are the same sequence. */
  lemma {:induction false} SortedUnique(a: seq<Path>, b: seq<Path>)
    requires Sorted(a) && Sorted(b) && multiset(a) == multiset(b)
    ensures a == b
    decreases |a|
  {
    assert |a| == |multiset(a)| == |multiset(b)| == |b|;
    if a != [] {
      assert a[0] in multiset(b) && b[0] in multiset(a);
      SortedHeadLeast(b, a[0]);
      SortedHeadLeast(a, b[0]);
      PathLeAntisymmetric(a[0], b[0]);
      MultisetTail(a);
      MultisetTail(b);
      SortedTail(a);
      SortedTail(b);
      SortedUnique(a[1..], b[1..]);
    }
  }

  /** Sorting two arrangements of the same paths gives the same sequence. */
  lemma SortPathsPermutation(x: seq<Path>, y: seq<Path>)
    requires multiset(x) == multiset(y)
    ensures SortPaths(x) == SortPaths(y)
  {
    SortPathsSorted(x);
    SortPathsSorted(y);
    SortedUnique(SortPaths(x), SortPaths(y));
  }

  /**
   * `SortPaths(s)` is the one sorted permutation of `s`, so any sorting algorithm
   * (in particular the standard library's stable merge sort) yields exactly it.
   */
  lemma SortPathsCharacterised(s: seq<Path>, r: seq<Path>)
    ensures Sorted(SortPaths(s))
    ensures Sorted(r) && multiset(r) == multiset(s) <==> r == SortPaths(s)
  {
    SortPathsSorted(s);
    if Sorted(r) && multiset(r) == multiset(s) { SortedUnique(r, SortPaths(s)); }
  }
}
