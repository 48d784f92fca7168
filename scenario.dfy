/**
 * A worked session: a directory holding sub-directories `b` and `a` and a
 * file `z.txt` is listed as `a`, `b`, `z.txt`; typing `z` leaves only
 * `z.txt` under the cursor, and confirming yields the directory itself.
 */
module Scenario {
  import opened Wrappers
  import opened Paths
  import opened DirListing
  import opened Search
  import opened Cursor
  import opened Navigator
  import opened EventLoop

  const Home: Path := ["home"]

  function SampleFs(): FileSystem
  {
    FileSystem(map[Home := [Item("b", Readable(true)), Item("a", Readable(true)), Item("z.txt", Readable(false))]],
               {Home, Child(Home, "a"), Child(Home, "b")})
  }

  lemma SampleNames()
    ensures Lower("a") == "a" && Lower("b") == "b" && Lower("z") == "z" && Lower("z.txt") == "z.txt"
  {
    assert "a"[0] == 'a' && "b"[0] == 'b' && "z"[0] == 'z';
    LowerWithoutCapitals("a");
    LowerWithoutCapitals("b");
    LowerWithoutCapitals("z");
    var t := "z.txt";
    assert t[0] == 'z' && t[1] == '.' && t[2] == 't' && t[3] == 'x' && t[4] == 't';
    LowerWithoutCapitals(t);
  }

  lemma SampleMatches()
    ensures !Matches(Child(Home, "a"), "z") && !Matches(Child(Home, "b"), "z") && Matches(Child(Home, "z.txt"), "z")
  {
    SampleNames();
    assert "a"[0] == 'a' && "b"[0] == 'b' && "z"[0] == 'z' && "z.txt"[0] == 'z';
    assert "a"[1..] == "" && "b"[1..] == "";
    assert !Contains("", "z");
    assert "z" <= "z.txt";
  }

  lemma SampleSort()
    ensures SortPaths([Child(Home, "b"), Child(Home, "a")]) == [Child(Home, "a"), Child(Home, "b")]
  {
    SiblingOrder(Home, "b", "a");
    assert "a"[0] == 'a' && "b"[0] == 'b';
    assert !StrLe("b", "a");
    assert SortPaths([Child(Home, "a")]) == [Child(Home, "a")];
    assert [Child(Home, "b"), Child(Home, "a")][1..] == [Child(Home, "a")];
  }

  lemma SampleFileIsNoDirectory()
    ensures !IsDirNow(SampleFs(), Child(Home, "z.txt"))
  {
    assert "z.txt"[0] == 'z' && "a"[0] == 'a' && "b"[0] == 'b';
    assert "z.txt" != "a" && "z.txt" != "b";
  }

  lemma SampleKinds()
    ensures ReadDir(SampleFs(), Home).Some?
    ensures KindPaths(Home, ReadDir(SampleFs(), Home).value, true) == [Child(Home, "b"), Child(Home, "a")]
    ensures KindPaths(Home, ReadDir(SampleFs(), Home).value, false) == [Child(Home, "z.txt")]
  {
    var items := SampleFs().contents[Home];
    assert items[1..] == [Item("a", Readable(true)), Item("z.txt", Readable(false))];
    assert items[1..][1..] == [Item("z.txt", Readable(false))];
    assert items[1..][1..][1..] == [];
  }

  lemma SampleVisible(a: Path, b: Path, z: Path)
    requires a == Child(Home, "a") && b == Child(Home, "b") && z == Child(Home, "z.txt")
    ensures Visible([a, b, z], "z") == [z]
  {
    SampleMatches();
    assert [a, b, z][1..] == [b, z] && [b, z][1..] == [z] && [z][1..] == [];
    assert KeepMatching([z], "z") == [z];
    assert KeepMatching([b, z], "z") == [z];
  }

  lemma Arrange(a: Path, b: Path, z: Path)
    ensures SortPaths([z]) == [z] && [a, b] + [z] == [a, b, z]
  {
  }

  lemma SampleGroups()
    ensures Listing(SampleFs(), Home) == SortPaths([Child(Home, "b"), Child(Home, "a")]) + SortPaths([Child(Home, "z.txt")])
  {
    SampleKinds();
    ListingOfReadable(SampleFs(), Home);
  }

  /** Directories first, each group by name, and the query `z` keeps only the file. */
  lemma SampleListing()
    ensures Listing(SampleFs(), Home) == [Child(Home, "a"), Child(Home, "b"), Child(Home, "z.txt")]
    ensures Visible(Listing(SampleFs(), Home), "z") == [Child(Home, "z.txt")]
  {
    var a, b, z := Child(Home, "a"), Child(Home, "b"), Child(Home, "z.txt");
    SampleGroups();
    SampleSort();
    Arrange(a, b, z);
    SampleVisible(a, b, z);
  }

  /** The session driven through `App` and `Step`. */
  method SampleSession()
  {
    var fs := SampleFs();
    var app := new App(fs, Some(Home));
    SampleListing();
    assert app.allItems == [Child(Home, "a"), Child(Home, "b"), Child(Home, "z.txt")];
    var r := Step(app, fs, Char('z'));
    assert app.searchQuery == "z";
    assert app.items == [Child(Home, "z.txt")] && app.selected == Some(0);
    r := Step(app, fs, Enter);
    SampleFileIsNoDirectory();
    assert r == Confirm(Home);
  }
}
