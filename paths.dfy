/**
 * The fragment of Rust's `std::path` behaviour that `list_svg_files` relies on:
 * joining a directory entry's name onto its directory, taking the last path
 * component, and taking that component's extension.
 */
module Paths {
  import opened Wrappers

  type Path = string

  const Separator: char := '/'

  /** Index of the last occurrence of `c` in `s`, or -1 when `c` does not occur. */
  function LastIndexOf(s: string, c: char): (k: int)
    ensures -1 <= k < |s|
  {
    if s == [] then -1
    else if s[|s| - 1] == c then |s| - 1
    else LastIndexOf(s[..|s| - 1], c)
  }

  /** `LastIndexOf` finds `c` with no `c` after it, and finds none exactly when `c` does not occur. */
  lemma {:induction false} LastIndexOfSpec(s: string, c: char)
    ensures var k := LastIndexOf(s, c);
      && (0 <= k ==> s[k] == c)
      && (forall j :: k < j < |s| ==> s[j] != c)
      && (k == -1 <==> c !in s)
  {
    if s != [] && s[|s| - 1] != c {
      var init := s[..|s| - 1];
      LastIndexOfSpec(init, c);
      assert forall j :: 0 <= j < |init| ==> s[j] == init[j];
    }
  }

  /** The last component of `p`: the text after its last separator. */
  function FileName(p: Path): string
  {
    p[LastIndexOf(p, Separator) + 1..]
  }

  /**
   * `PathBuf::push` of a relative name: the name is appended, after a
   * separator unless the directory is empty or already ends with one.
   */
  function Join(dir: Path, name: string): Path
  {
    if dir == [] || dir[|dir| - 1] == Separator then dir + name
    else dir + [Separator] + name
  }

  /**
   * `Path::extension`: the text after the last '.' of the file name; none when
   * the name has no '.', when its only '.' is the leading one, or when it is "..".
   */
  function Extension(p: Path): Option<string>
  {
    NameExtension(FileName(p))
  }

  /** The extension part of a single file name, as `Path::extension` splits it. */
  function NameExtension(name: string): Option<string>
  {
    if name == ".." then None
    else
      var k := LastIndexOf(name, '.');
      if k <= 0 then None else Some(name[k + 1..])
  }

  /** A name that does not contain the separator is the file name of the joined path. */
  lemma FileNameOfJoin(dir: Path, name: string)
    requires Separator !in name
    ensures FileName(Join(dir, name)) == name
  {
    var p := Join(dir, name);
    var prefix := if dir == [] || dir[|dir| - 1] == Separator then dir else dir + [Separator];
    assert p == prefix + name;
    var k := LastIndexOf(p, Separator);
    LastIndexOfSpec(p, Separator);
    if prefix == [] {
      assert Separator !in p by {
        forall j | 0 <= j < |p| ensures p[j] != Separator {
          assert p[j] == name[j];
        }
      }
    } else {
      assert p[|prefix| - 1] == Separator;
      forall j | |prefix| <= j < |p| ensures p[j] != Separator {
        assert p[j] == name[j - |prefix|];
      }
      assert k == |prefix| - 1;
    }
  }

  /**
   * The extension of a path is exactly "svg" iff its file name is longer than
   * ".svg" and ends with ".svg" (a bare ".svg" is a hidden file without extension).
   */
  lemma SvgExtensionIff(p: Path)
    ensures Extension(p) == Some("svg") <==> IsSvgName(FileName(p))
  {
    var name := FileName(p);
    if NameExtension(name) == Some("svg") {
      SvgExtensionHasSuffix(name);
    }
    if IsSvgName(name) {
      SvgSuffixHasExtension(name);
    }
  }

  /** A name longer than ".svg" that ends with ".svg". */
  predicate IsSvgName(name: string)
  {
    |name| > 4 && name[|name| - 4..] == ".svg"
  }

  lemma SvgExtensionHasSuffix(name: string)
    requires NameExtension(name) == Some("svg")
    ensures IsSvgName(name)
  {
    var k := LastIndexOf(name, '.');
    LastIndexOfSpec(name, '.');
    assert name[k + 1..] == "svg";
    assert |name| == k + 4;
    assert name[|name| - 4..] == [name[k]] + name[k + 1..];
  }

  lemma SvgSuffixHasExtension(name: string)
    requires IsSvgName(name)
    ensures NameExtension(name) == Some("svg")
  {
    var d := |name| - 4;
    var tail := name[d..];
    assert tail == ".svg";
    assert name[d] == '.' by { assert tail[0] == name[d]; }
    forall j | d < j < |name| ensures name[j] != '.' {
      assert tail[j - d] == name[j];
    }
    var k := LastIndexOf(name, '.');
    LastIndexOfSpec(name, '.');
    assert k == d;
    assert name[k + 1..] == tail[1..] == "svg";
    assert name != ".." by { assert |name| > 4; }
  }
}
