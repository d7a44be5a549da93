/**
 * `list_svg_files`: the SVG files directly inside one directory, over an
 * abstract view of the filesystem instead of `Path::is_dir`, `fs::read_dir`
 * and `Path::is_file`.
 */
module Files {
  import opened Wrappers
  import opened Paths

  /** One item of `read_dir`'s iterator: an I/O error, or a name with its "is a regular file" answer. */
  datatype DirEntry = Unreadable | Entry(name: string, isFile: bool)

  /** A directory: whether `read_dir` succeeds on it, and the entries it yields, in order. */
  datatype Directory = Directory(readable: bool, entries: seq<DirEntry>)

  /** The directories of the filesystem, by path; a path not in the map is not a directory. */
  type FileSystem = map<Path, Directory>

  /** `Path::is_dir`; the empty path names nothing (querying its metadata fails). */
  predicate IsDir(fs: FileSystem, p: Path)
  {
    p != "" && p in fs
  }

  /** Whether `entry`, read from `dir`, is a regular file whose extension is exactly "svg". */
  predicate IsSvgFile(dir: Path, entry: DirEntry)
  {
    entry.Entry? && entry.isFile && Extension(Join(dir, entry.name)) == Some("svg")
  }

  /** The paths of the SVG files among `entries`, in enumeration order. */
  function SvgEntries(dir: Path, entries: seq<DirEntry>): seq<Path>
  {
    if entries == [] then []
    else
      var last := entries[|entries| - 1];
      SvgEntries(dir, entries[..|entries| - 1]) + (if IsSvgFile(dir, last) then [Join(dir, last.name)] else [])
  }

  /** What `list_svg_files(dir)` returns. */
  function SvgFiles(fs: FileSystem, dir: Path): seq<Path>
  {
    if IsDir(fs, dir) && fs[dir].readable then SvgEntries(dir, fs[dir].entries) else []
  }

  /** `list_svg_files`: one pass over the directory, pushing each SVG file's path. */
  method ListSvgFiles(fs: FileSystem, dir: Path) returns (svgFiles: seq<Path>)
    ensures svgFiles == SvgFiles(fs, dir)
  {
    svgFiles := [];
    if IsDir(fs, dir) {
      var listing := fs[dir];
      if listing.readable {
        var entries := listing.entries;
        for i := 0 to |entries|
          invariant svgFiles == SvgEntries(dir, entries[..i])
        {
          assert entries[..i + 1][..i] == entries[..i];
          var entry := entries[i];
          if entry.Entry? {
            var path := Join(dir, entry.name);
            if entry.isFile && Extension(path) == Some("svg") {
              svgFiles := svgFiles + [path];
            }
          }
        }
        assert entries[..|entries|] == entries;
      }
    }
  }

  /** Listing `a` then `b` gives the listing of `a` followed by the listing of `b`: order is kept. */
  lemma {:induction false} SvgEntriesAppend(dir: Path, a: seq<DirEntry>, b: seq<DirEntry>)
    ensures SvgEntries(dir, a + b) == SvgEntries(dir, a) + SvgEntries(dir, b)
    decreases |b|
  {
    if b == [] {
      assert a + b == a;
    } else {
      var b' := b[..|b| - 1];
      assert (a + b)[..|a + b| - 1] == a + b';
      assert (a + b)[|a + b| - 1] == b[|b| - 1];
      SvgEntriesAppend(dir, a, b');
    }
  }

  /** Every listed path comes from an entry that is an SVG file. */
  lemma {:induction false} SvgEntriesSound(dir: Path, entries: seq<DirEntry>, p: Path) returns (i: nat)
    requires p in SvgEntries(dir, entries)
    ensures i < |entries| && IsSvgFile(dir, entries[i]) && p == Join(dir, entries[i].name)
    decreases |entries|
  {
    var init := entries[..|entries| - 1];
    if p in SvgEntries(dir, init) {
      i := SvgEntriesSound(dir, init, p);
      assert init[i] == entries[i];
    } else {
      i := |entries| - 1;
    }
  }

  /** Every entry that is an SVG file is listed. */
  lemma {:induction false} SvgEntriesComplete(dir: Path, entries: seq<DirEntry>, i: nat)
    requires i < |entries| && IsSvgFile(dir, entries[i])
    ensures Join(dir, entries[i].name) in SvgEntries(dir, entries)
    decreases |entries|
  {
    var init := entries[..|entries| - 1];
    if i < |init| {
      SvgEntriesComplete(dir, init, i);
      assert init[i] == entries[i];
    }
  }

  /** At most one path per entry: unreadable entries and non-SVG entries contribute nothing. */
  lemma {:induction false} SvgEntriesBound(dir: Path, entries: seq<DirEntry>)
    ensures |SvgEntries(dir, entries)| <= |entries|
    ensures (forall i :: 0 <= i < |entries| ==> !IsSvgFile(dir, entries[i])) ==> SvgEntries(dir, entries) == []
    decreases |entries|
  {
    if entries != [] {
      var init := entries[..|entries| - 1];
      SvgEntriesBound(dir, init);
      if forall i :: 0 <= i < |entries| ==> !IsSvgFile(dir, entries[i]) {
        assert forall i :: 0 <= i < |init| ==> init[i] == entries[i];
      }
    }
  }

  /** Every listed path ends with a file name of the form "<something>.svg". */
  lemma ListedFilesEndInSvg(fs: FileSystem, dir: Path, p: Path)
    requires p in SvgFiles(fs, dir)
    ensures IsSvgName(FileName(p))
  {
    var i := SvgEntriesSound(dir, fs[dir].entries, p);
    SvgExtensionIff(p);
  }

  /** A path that is not a readable directory lists nothing, whatever the filesystem holds. */
  lemma NotADirectoryListsNothing(fs: FileSystem, dir: Path)
    requires !IsDir(fs, dir) || !fs[dir].readable
    ensures SvgFiles(fs, dir) == []
  {
  }

  /** A readable entry is listed iff it is a regular file whose name is longer than ".svg" and ends with ".svg". */
  lemma SvgEntryIff(dir: Path, name: string, isFile: bool)
    requires Separator !in name
    ensures IsSvgFile(dir, Entry(name, isFile)) <==> isFile && IsSvgName(name)
  {
    FileNameOfJoin(dir, name);
    SvgExtensionIff(Join(dir, name));
  }

  /**
   * A directory holding the regular files "a.svg", "b.png" and "c.SVG", an
   * unreadable entry and a subdirectory "sub" lists only its "a.svg".
   */
  lemma ExampleListing(fs: FileSystem, dir: Path)
    requires IsDir(fs, dir)
    requires fs[dir] == Directory(true, [Entry("a.svg", true), Entry("b.png", true), Unreadable,
                                         Entry("c.SVG", true), Entry("sub", false)])
    ensures SvgFiles(fs, dir) == [Join(dir, "a.svg")]
  {
    var entries := fs[dir].entries;
    var first, rest := entries[..1], entries[1..];
    ExampleSvgListed(dir, first);
    ExampleOthersNotListed(dir, rest);
    SvgEntriesAppend(dir, first, rest);
    assert first + rest == entries;
  }

  /** The regular file "a.svg" is listed. */
  lemma ExampleSvgListed(dir: Path, first: seq<DirEntry>)
    requires first == [Entry("a.svg", true)]
    ensures SvgEntries(dir, first) == [Join(dir, "a.svg")]
  {
    assert IsSvgFile(dir, first[0]) by {
      SvgEntryIff(dir, "a.svg", true);
      assert "a.svg"[1..] == ".svg";
    }
    assert first[..0] == [];
  }

  /** "b.png", an unreadable entry, "c.SVG" and a subdirectory contribute nothing. */
  lemma ExampleOthersNotListed(dir: Path, rest: seq<DirEntry>)
    requires rest == [Entry("b.png", true), Unreadable, Entry("c.SVG", true), Entry("sub", false)]
    ensures SvgEntries(dir, rest) == []
  {
    assert "b.png"[1..] != ".svg" by { assert "b.png"[2] != "svg"[1]; }
    assert "c.SVG"[1..] != ".svg" by { assert "c.SVG"[2] != "svg"[1]; }
    NoSvgNameListsNothing(dir, rest);
  }

  /** Entries that are unreadable, not regular files, or not named "<something>.svg" list nothing. */
  lemma NoSvgNameListsNothing(dir: Path, entries: seq<DirEntry>)
    requires forall i :: 0 <= i < |entries| ==>
               entries[i].Unreadable? || !entries[i].isFile || (Separator !in entries[i].name && !IsSvgName(entries[i].name))
    ensures SvgEntries(dir, entries) == []
  {
    forall i | 0 <= i < |entries| ensures !IsSvgFile(dir, entries[i]) {
      if entries[i].Entry? && entries[i].isFile {
        SvgEntryIff(dir, entries[i].name, true);
      }
    }
    SvgEntriesBound(dir, entries);
  }
}
