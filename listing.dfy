/**
 * The filesystem as `load_directories` sees it, and the listing it builds:
 * readable sub-directories sorted, then readable files sorted.
 */
module DirListing {
  import opened Wrappers
  import opened Paths

  /** What `DirEntry::metadata` gives: an error, or whether the entry is a directory. */
  datatype Metadata = Unreadable | Readable(isDir: bool)

  /** One item of the `read_dir` iterator: an I/O error, or an entry with its name and metadata. */
  datatype DirItem = ItemError | Item(name: string, meta: Metadata)

  /**
   * A snapshot of the filesystem. `contents` holds the directories `read_dir`
   * can open (a missing key means it fails); `dirsNow` holds the paths for
   * which `Path::is_dir` answers true at the moment of asking. The two are
   * independent: `is_dir` follows symbolic links and asks again, so it can
   * disagree with the metadata recorded in a listing, and a vanished path is
   * simply not in `dirsNow`.
   */
  datatype FileSystem = FileSystem(contents: map<Path, seq<DirItem>>, dirsNow: set<Path>)

  /** `fs::read_dir`: the directory's items, or `None` when it cannot be opened. */
  function ReadDir(fs: FileSystem, dir: Path): Option<seq<DirItem>>
  {
    if dir in fs.contents then Some(fs.contents[dir]) else None
  }

  /** `Path::is_dir`, re-queried at the time of the call. */
  predicate IsDirNow(fs: FileSystem, p: Path)
  {
    p in fs.dirsNow
  }

  /** The item is an entry whose metadata could be read and whose kind is `wantDir`. */
  predicate OfKind(item: DirItem, wantDir: bool)
  {
    item.Item? && item.meta == Readable(wantDir)
  }

  /** The entries of one kind, in iteration order, as the loop pushes them into `dirs` or `files`. */
  function KindPaths(dir: Path, items: seq<DirItem>, wantDir: bool): (r: seq<Path>)
    ensures ChildrenOf(r, dir)
    ensures |r| <= |items|
  {
    if items == [] then []
    else (if OfKind(items[0], wantDir) then [Child(dir, items[0].name)] else [])
         + KindPaths(dir, items[1..], wantDir)
  }

  /** `p` is the path of some readable entry of kind `wantDir` among `items`. */
  ghost predicate Listed(items: seq<DirItem>, dir: Path, p: Path, wantDir: bool)
  {
    exists k :: 0 <= k < |items| && OfKind(items[k], wantDir) && p == Child(dir, items[k].name)
  }

  lemma {:induction false} KindPathsConcat(dir: Path, a: seq<DirItem>, b: seq<DirItem>, wantDir: bool)
    ensures KindPaths(dir, a + b, wantDir) == KindPaths(dir, a, wantDir) + KindPaths(dir, b, wantDir)
    decreases |a|
  {
    if a == [] {
      assert a + b == b;
    } else {
      assert (a + b)[0] == a[0] && (a + b)[1..] == a[1..] + b;
      KindPathsConcat(dir, a[1..], b, wantDir);
    }
  }

  lemma {:induction false} KindPathsMember(dir: Path, items: seq<DirItem>, wantDir: bool, p: Path)
    ensures p in KindPaths(dir, items, wantDir) <==> Listed(items, dir, p, wantDir)
    decreases |items|
  {
    if items != [] {
      KindPathsMember(dir, items[1..], wantDir, p);
      if Listed(items[1..], dir, p, wantDir) {
        var k :| 0 <= k < |items[1..]| && OfKind(items[1..][k], wantDir) && p == Child(dir, items[1..][k].name);
        assert items[k + 1] == items[1..][k];
      }
      if Listed(items, dir, p, wantDir) {
        var k :| 0 <= k < |items| && OfKind(items[k], wantDir) && p == Child(dir, items[k].name);
        if k > 0 { assert items[1..][k - 1] == items[k]; }
      }
    }
  }

  lemma MultisetRemove(b: seq<DirItem>, k: nat)
    requires k < |b|
    ensures multiset(b[..k] + b[k + 1..]) == multiset(b) - multiset{b[k]}
  {
    assert b == b[..k] + ([b[k]] + b[k + 1..]);
  }

  lemma KindPathsRemove(dir: Path, b: seq<DirItem>, k: nat, wantDir: bool)
    requires k < |b|
    ensures multiset(b[..k] + b[k + 1..]) == multiset(b) - multiset{b[k]}
    ensures multiset(KindPaths(dir, b, wantDir))
         == multiset(KindPaths(dir, [b[k]], wantDir)) + multiset(KindPaths(dir, b[..k] + b[k + 1..], wantDir))
  {
    MultisetRemove(b, k);
    var front, rest := b[..k], b[k + 1..];
    assert b == front + ([b[k]] + rest);
    KindPathsConcat(dir, front, [b[k]] + rest, wantDir);
    KindPathsConcat(dir, [b[k]], rest, wantDir);
    KindPathsConcat(dir, front, rest, wantDir);
  }

  /** One more iteration of the listing loop appends at most the next item's path to its kind's list. */
  lemma KindPathsStep(dir: Path, items: seq<DirItem>, i: nat)
    requires i < |items|
    ensures KindPaths(dir, items[..i + 1], true) ==
              KindPaths(dir, items[..i], true) + (if OfKind(items[i], true) then [Child(dir, items[i].name)] else [])
    ensures KindPaths(dir, items[..i + 1], false) ==
              KindPaths(dir, items[..i], false) + (if OfKind(items[i], false) then [Child(dir, items[i].name)] else [])
  {
    assert items[..i + 1] == items[..i] + [items[i]];
    KindPathsConcat(dir, items[..i], [items[i]], true);
    KindPathsConcat(dir, items[..i], [items[i]], false);
    assert [items[i]][1..] == [];
  }

  /** The multiset of entries of one kind depends only on the multiset of items, not on their order. */
  lemma {:induction false} KindPathsPermutation(dir: Path, a: seq<DirItem>, b: seq<DirItem>, wantDir: bool)
    requires multiset(a) == multiset(b)
    ensures multiset(KindPaths(dir, a, wantDir)) == multiset(KindPaths(dir, b, wantDir))
    decreases |a|
  {
    assert |a| == |multiset(a)| == |multiset(b)| == |b|;
    if a != [] {
      assert a[0] in multiset(b);
      var k :| 0 <= k < |b| && b[k] == a[0];
      var rest := b[..k] + b[k + 1..];
      KindPathsRemove(dir, b, k, wantDir);
      assert a == [a[0]] + a[1..];
      assert multiset(a[1..]) == multiset(a) - multiset{a[0]};
      KindPathsPermutation(dir, a[1..], rest, wantDir);
      KindPathsConcat(dir, [a[0]], a[1..], wantDir);
      calc {
        multiset(KindPaths(dir, a, wantDir));
        multiset(KindPaths(dir, [a[0]], wantDir)) + multiset(KindPaths(dir, a[1..], wantDir));
        multiset(KindPaths(dir, [b[k]], wantDir)) + multiset(KindPaths(dir, rest, wantDir));
        multiset(KindPaths(dir, b, wantDir));
      }
    }
  }

  /**
   * `load_directories`'s listing of `dir`: empty when `read_dir` fails;
   * otherwise the readable directories, sorted, followed by the readable
   * files, sorted. Entries whose item or metadata is an error appear nowhere.
   */
  function Listing(fs: FileSystem, dir: Path): (r: seq<Path>)
    ensures ReadDir(fs, dir).None? ==> r == []
    ensures ChildrenOf(r, dir)
  {
    match ReadDir(fs, dir)
    case None => []
    case Some(items) =>
      var ds := KindPaths(dir, items, true);
      var fls := KindPaths(dir, items, false);
      SortedChildren(ds, dir);
      SortedChildren(fls, dir);
      SortPaths(ds) + SortPaths(fls)
  }

  /** When `read_dir` succeeds, the listing is the two kinds' entries, each sorted, directories first. */
  lemma ListingOfReadable(fs: FileSystem, dir: Path)
    requires ReadDir(fs, dir).Some?
    ensures Listing(fs, dir) == SortPaths(KindPaths(dir, ReadDir(fs, dir).value, true))
                              + SortPaths(KindPaths(dir, ReadDir(fs, dir).value, false))
  {
  }

  lemma SortedChildren(s: seq<Path>, dir: Path)
    requires ChildrenOf(s, dir)
    ensures ChildrenOf(SortPaths(s), dir)
  {
    forall i | 0 <= i < |SortPaths(s)| ensures Parent(SortPaths(s)[i]) == Some(dir) {
      assert SortPaths(s)[i] in multiset(s);
    }
  }

  /** How many of the listing's leading entries are directories. */
  function DirCount(fs: FileSystem, dir: Path): nat
  {
    match ReadDir(fs, dir)
    case None => 0
    case Some(items) => |KindPaths(dir, items, true)|
  }

  /** The names of `s` are in non-decreasing string order. */
  ghost predicate NamesSorted(s: seq<Path>)
  {
    forall i, j :: 0 <= i < j < |s| ==> StrLe(FileName(s[i]), FileName(s[j]))
  }

  lemma SortedSiblingsNamesSorted(s: seq<Path>, dir: Path)
    requires Sorted(s) && ChildrenOf(s, dir)
    ensures NamesSorted(s)
  {
    forall i, j | 0 <= i < j < |s| ensures StrLe(FileName(s[i]), FileName(s[j])) {
      assert s[i] == Child(dir, FileName(s[i])) && s[j] == Child(dir, FileName(s[j]));
      SiblingOrder(dir, FileName(s[i]), FileName(s[j]));
    }
  }

  /** Each element of a sorted group is one of the readable entries of that kind. */
  lemma GroupListed(dir: Path, items: seq<DirItem>, wantDir: bool, i: nat)
    requires i < |SortPaths(KindPaths(dir, items, wantDir))|
    ensures Listed(items, dir, SortPaths(KindPaths(dir, items, wantDir))[i], wantDir)
  {
    var g := SortPaths(KindPaths(dir, items, wantDir));
    assert g[i] in multiset(KindPaths(dir, items, wantDir));
    KindPathsMember(dir, items, wantDir, g[i]);
  }

  /** Each sorted group is in ascending order of names. */
  lemma GroupNamesSorted(dir: Path, items: seq<DirItem>, wantDir: bool)
    ensures NamesSorted(SortPaths(KindPaths(dir, items, wantDir)))
  {
    var k := KindPaths(dir, items, wantDir);
    SortPathsSorted(k);
    SortedChildren(k, dir);
    SortedSiblingsNamesSorted(SortPaths(k), dir);
  }

  /** The two sorted groups, put together, in the terms of `ListingDirsThenFiles`. */
  lemma {:induction false} BlocksListed(dir: Path, items: seq<DirItem>)
    ensures var ds, fls := SortPaths(KindPaths(dir, items, true)), SortPaths(KindPaths(dir, items, false));
            var l := ds + fls;
            (forall i :: 0 <= i < |ds| ==> Listed(items, dir, l[i], true)) &&
            (forall i :: |ds| <= i < |l| ==> Listed(items, dir, l[i], false)) &&
            l[..|ds|] == ds && l[|ds|..] == fls && NamesSorted(ds) && NamesSorted(fls)
  {
    var ds, fls := SortPaths(KindPaths(dir, items, true)), SortPaths(KindPaths(dir, items, false));
    var l := ds + fls;
    forall i | 0 <= i < |ds| ensures Listed(items, dir, l[i], true) {
      GroupListed(dir, items, true, i);
    }
    forall i | |ds| <= i < |l| ensures Listed(items, dir, l[i], false) {
      GroupListed(dir, items, false, i - |ds|);
    }
    assert l[..|ds|] == ds && l[|ds|..] == fls;
    GroupNamesSorted(dir, items, true);
    GroupNamesSorted(dir, items, false);
  }

  /**
   * The listing is a block of directory entries followed by a block of file
   * entries, and each block is in ascending order of names.
   */
  lemma ListingDirsThenFiles(fs: FileSystem, dir: Path)
    requires ReadDir(fs, dir).Some?
    ensures DirCount(fs, dir) <= |Listing(fs, dir)|
    ensures forall i :: 0 <= i < DirCount(fs, dir) ==>
              Listed(ReadDir(fs, dir).value, dir, Listing(fs, dir)[i], true)
    ensures forall i :: DirCount(fs, dir) <= i < |Listing(fs, dir)| ==>
              Listed(ReadDir(fs, dir).value, dir, Listing(fs, dir)[i], false)
    ensures NamesSorted(Listing(fs, dir)[..DirCount(fs, dir)])
    ensures NamesSorted(Listing(fs, dir)[DirCount(fs, dir)..])
  {
    ListingOfReadable(fs, dir);
    BlocksListed(dir, ReadDir(fs, dir).value);
  }

  /**
   * A path is listed exactly when `read_dir` succeeded and some entry of that
   * name had readable metadata; entries whose metadata fails are absent.
   */
  lemma ListingMember(fs: FileSystem, dir: Path, p: Path)
    ensures p in Listing(fs, dir) <==>
              ReadDir(fs, dir).Some? &&
              (Listed(ReadDir(fs, dir).value, dir, p, true) || Listed(ReadDir(fs, dir).value, dir, p, false))
  {
    if ReadDir(fs, dir).Some? {
      var items := ReadDir(fs, dir).value;
      var ds, fls := KindPaths(dir, items, true), KindPaths(dir, items, false);
      assert p in Listing(fs, dir) <==> p in multiset(SortPaths(ds)) || p in multiset(SortPaths(fls));
      KindPathsMember(dir, items, true, p);
      KindPathsMember(dir, items, false, p);
    }
  }

  /**
   * The listing does not depend on the order in which `read_dir` yields the
   * entries: it is the same for every arrangement of the same items.
   */
  lemma ListingOrderIndependent(fs1: FileSystem, fs2: FileSystem, dir: Path)
    requires ReadDir(fs1, dir).Some? && ReadDir(fs2, dir).Some?
    requires multiset(ReadDir(fs1, dir).value) == multiset(ReadDir(fs2, dir).value)
    ensures Listing(fs1, dir) == Listing(fs2, dir)
  {
    var a, b := ReadDir(fs1, dir).value, ReadDir(fs2, dir).value;
    KindPathsPermutation(dir, a, b, true);
    KindPathsPermutation(dir, a, b, false);
    SortPathsPermutation(KindPaths(dir, a, true), KindPaths(dir, b, true));
    SortPathsPermutation(KindPaths(dir, a, false), KindPaths(dir, b, false));
    assert Listing(fs1, dir) == SortPaths(KindPaths(dir, a, true)) + SortPaths(KindPaths(dir, a, false));
    assert Listing(fs2, dir) == SortPaths(KindPaths(dir, b, true)) + SortPaths(KindPaths(dir, b, false));
  }
}
