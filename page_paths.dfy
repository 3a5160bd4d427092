/**
 * How the script finds the shared folders from the current page: a page is
 * "nested" when its pathname has a `/` after the leading one, and nested
 * pages reach the site root through `../`.
 */
module PagePaths {

  /** `s.includes(c, from)` for a one-character search string. */
  function IncludesFrom(s: string, c: char, from: nat): (r: bool)
    ensures r <==> exists i :: from <= i < |s| && s[i] == c
    decreases |s| - from
  {
    if from >= |s| then false
    else s[from] == c || IncludesFrom(s, c, from + 1)
  }

  /** `pathname.includes('/', 1)`: some `/` stands at index 1 or later. */
  function IsNested(pathname: string): (r: bool)
    ensures r <==> exists i :: 1 <= i < |pathname| && pathname[i] == '/'
  {
    IncludesFrom(pathname, '/', 1)
  }

  /** The prefix in front of `lang/` when translations are fetched. */
  function LangBase(pathname: string): (r: string)
    ensures IsNested(pathname) ==> r == "../"
    ensures !IsNested(pathname) ==> r == "./"
  {
    if IsNested(pathname) then "../" else "./"
  }

  /** The prefix of the shared header and footer fragments. */
  function SharedBase(pathname: string): (r: string)
    ensures IsNested(pathname) ==> r == "../shared/"
    ensures !IsNested(pathname) ==> r == "shared/"
  {
    if IsNested(pathname) then "../shared/" else "shared/"
  }

  /** The language file of `lang`: `${basePath}lang/${lang}.json`. */
  function TranslationUrl(pathname: string, lang: string): (r: string)
    ensures LangBase(pathname) + "lang/" <= r
    ensures r[|LangBase(pathname)| + 5..] == lang + ".json"
  {
    LangBase(pathname) + "lang/" + lang + ".json"
  }

  /** Different languages are fetched from different URLs, so the fallback never re-requests the first file. */
  lemma TranslationUrlInjective(pathname: string, a: string, b: string)
    requires TranslationUrl(pathname, a) == TranslationUrl(pathname, b)
    ensures a == b
  {
    var n := |LangBase(pathname)| + 5;
    assert a + ".json" == TranslationUrl(pathname, a)[n..] == b + ".json";
    assert a == (a + ".json")[..|a|] && b == (b + ".json")[..|b|];
  }

  /** The shared header fragment: `${basePath}header.html`. */
  function HeaderUrl(pathname: string): (r: string)
    ensures SharedBase(pathname) <= r && r[|SharedBase(pathname)|..] == "header.html"
  {
    SharedBase(pathname) + "header.html"
  }

  /** The shared footer fragment: `${basePath}footer.html`. */
  function FooterUrl(pathname: string): (r: string)
    ensures SharedBase(pathname) <= r && r[|SharedBase(pathname)|..] == "footer.html"
  {
    SharedBase(pathname) + "footer.html"
  }

  /** The site root, a top-level page and a page one folder down. */
  lemma NestingExamples()
    ensures !IsNested("/") && !IsNested("/index.html")
    ensures IsNested("/about/x.html")
    ensures TranslationUrl("/index.html", "ja") == "./lang/ja.json"
    ensures TranslationUrl("/about/x.html", "ja") == "../lang/ja.json"
    ensures HeaderUrl("/about/x.html") == "../shared/header.html"
  {
    assert "/about/x.html"[6] == '/';
  }

  // Resolving the relative prefixes against the page's own directory, as a
  // browser does for a relative reference whose dot segments all lead it.

  predicate NoSlash(s: string)
  {
    forall i :: 0 <= i < |s| ==> s[i] != '/'
  }

  /** A directory path, as the browser keeps it: absolute and ending in `/`. */
  predicate IsDirectory(d: string)
  {
    |d| > 0 && d[0] == '/' && d[|d| - 1] == '/'
  }

  /** Index of the last `/` of `s`. */
  function LastSlash(s: string): (k: nat)
    requires '/' in s
    ensures k < |s| && s[k] == '/'
    ensures NoSlash(s[k + 1..])
  {
    if s[|s| - 1] == '/' then |s| - 1
    else
      assert '/' in s[..|s| - 1] by {
        var i :| 0 <= i < |s| && s[i] == '/';
        assert s[..|s| - 1][i] == '/';
      }
      var k := LastSlash(s[..|s| - 1]);
      assert s[k + 1..] == s[..|s| - 1][k + 1..] + [s[|s| - 1]];
      k
  }

  /** The directory part of an absolute path: everything up to its last `/`. */
  function Directory(path: string): (d: string)
    requires |path| > 0 && path[0] == '/'
    ensures IsDirectory(d) && d <= path
    ensures NoSlash(path[|d|..])
  {
    assert path[0] in path;
    path[..LastSlash(path) + 1]
  }

  /** The directory one level up; the root is its own parent. */
  function Parent(dir: string): (p: string)
    requires IsDirectory(dir)
    ensures IsDirectory(p) && |p| <= |dir|
  {
    if |dir| == 1 then dir else Directory(dir[..|dir| - 1])
  }

  /** Where a relative reference `rel` lands from directory `dir`. */
  function Resolve(dir: string, rel: string): string
    requires IsDirectory(dir)
    decreases |rel|
  {
    if |rel| >= 2 && rel[0] == '.' && rel[1] == '/' then Resolve(dir, rel[2..])
    else if |rel| >= 3 && rel[0] == '.' && rel[1] == '.' && rel[2] == '/' then Resolve(Parent(dir), rel[3..])
    else dir + rel
  }

  /** A directory prefix followed by no further `/` is the directory of the path. */
  lemma DirectoryUnique(path: string, d: string)
    requires |path| > 0 && path[0] == '/'
    requires IsDirectory(d) && d <= path && NoSlash(path[|d|..])
    ensures Directory(path) == d
  {
    var e := Directory(path);
    assert e == path[..|e|] && d == path[..|d|];
  }

  /** Directory of a path `"/" + file`, and of `"/" + folder + "/" + file`. */
  lemma DirectoryOfShallowPaths(folder: string, file: string)
    requires NoSlash(folder) && NoSlash(file)
    ensures Directory("/" + file) == "/"
    ensures Directory("/" + folder + "/" + file) == "/" + folder + "/"
  {
    assert ("/" + file)[1..] == file;
    DirectoryUnique("/" + file, "/");
    var q := "/" + folder + "/" + file;
    assert q[|folder| + 2..] == file;
    DirectoryUnique(q, "/" + folder + "/");
  }

  /** A page at the site root fetches `/lang/…` and `/shared/…`. */
  lemma TopLevelPageResolvesToRoot(file: string)
    requires NoSlash(file)
    ensures !IsNested("/" + file)
    ensures Resolve(Directory("/" + file), LangBase("/" + file) + "lang/") == "/lang/"
    ensures Resolve(Directory("/" + file), SharedBase("/" + file)) == "/shared/"
  {
    var p := "/" + file;
    DirectoryOfShallowPaths("", file);
    assert ("./" + "lang/")[2..] == "lang/";
  }

  /** A page one folder below the root also fetches `/lang/…` and `/shared/…`. */
  lemma OneLevelPageResolvesToRoot(folder: string, file: string)
    requires NoSlash(folder) && NoSlash(file)
    ensures IsNested("/" + folder + "/" + file)
    ensures Resolve(Directory("/" + folder + "/" + file), LangBase("/" + folder + "/" + file) + "lang/") == "/lang/"
    ensures Resolve(Directory("/" + folder + "/" + file), SharedBase("/" + folder + "/" + file)) == "/shared/"
  {
    var p := "/" + folder + "/" + file;
    assert p[|folder| + 1] == '/';
    DirectoryOfShallowPaths(folder, file);
    var d := "/" + folder + "/";
    DirectoryOfShallowPaths("", folder);
    assert d[..|d| - 1] == "/" + folder;
    assert Parent(d) == "/";
    assert ("../" + "lang/")[3..] == "lang/";
    assert "../shared/"[3..] == "shared/";
  }

  /** A reference that starts with a plain segment is appended to the directory. */
  lemma ResolvePlain(dir: string, rel: string)
    requires IsDirectory(dir) && |rel| > 0 && rel[0] != '.'
    ensures Resolve(dir, rel) == dir + rel
  {
  }

  /** `../shared/name` goes up one directory, then into `shared/`. */
  lemma ResolveSharedUp(dir: string, name: string)
    requires IsDirectory(dir)
    ensures Resolve(dir, "../shared/" + name) == Parent(dir) + "shared/" + name
  {
    var rel := "../shared/" + name;
    assert rel[0] == '.' && rel[1] == '.' && rel[2] == '/';
    assert rel[3..] == "shared/" + name;
    assert rel[3..][0] == 's';
    ResolvePlain(Parent(dir), rel[3..]);
  }

  /** A page one folder below the root is nested, and its directory's parent is the root. */
  lemma OneLevelParentIsRoot(folder: string, file: string)
    requires NoSlash(folder) && NoSlash(file)
    ensures IsNested("/" + folder + "/" + file)
    ensures Parent(Directory("/" + folder + "/" + file)) == "/"
  {
    var p := "/" + folder + "/" + file;
    assert p[|folder| + 1] == '/';
    DirectoryOfShallowPaths(folder, file);
    var d := "/" + folder + "/";
    DirectoryOfShallowPaths("", folder);
    assert d[..|d| - 1] == "/" + folder;
  }

  lemma FragmentLiterals()
    ensures "/" + "shared/" + "header.html" == "/shared/header.html"
    ensures "/" + "shared/" + "footer.html" == "/shared/footer.html"
  {
  }

  /** `shared/name` lands in the `shared/` folder of the directory itself. */
  lemma ResolveShared(dir: string, name: string)
    requires IsDirectory(dir)
    ensures Resolve(dir, "shared/" + name) == dir + "shared/" + name
  {
    var rel := "shared/" + name;
    assert rel[0] == 's';
    ResolvePlain(dir, rel);
  }

  /** A page at the site root is not nested, and its directory is the root. */
  lemma TopLevelDirectoryIsRoot(file: string)
    requires NoSlash(file)
    ensures !IsNested("/" + file)
    ensures Directory("/" + file) == "/"
  {
    DirectoryOfShallowPaths("", file);
  }

  /** From a page at the site root, the header and footer fragments are fetched from `/shared/`. */
  lemma TopLevelFragmentUrls(file: string)
    requires NoSlash(file)
    ensures Resolve(Directory("/" + file), HeaderUrl("/" + file)) == "/shared/header.html"
    ensures Resolve(Directory("/" + file), FooterUrl("/" + file)) == "/shared/footer.html"
  {
    var p := "/" + file;
    TopLevelDirectoryIsRoot(file);
    assert HeaderUrl(p) == "shared/" + "header.html" && FooterUrl(p) == "shared/" + "footer.html";
    ResolveShared("/", "header.html");
    ResolveShared("/", "footer.html");
    FragmentLiterals();
  }

  /** From a page one folder below the root, the header and footer fragments are also fetched from `/shared/`. */
  lemma OneLevelFragmentUrls(folder: string, file: string)
    requires NoSlash(folder) && NoSlash(file)
    ensures Resolve(Directory("/" + folder + "/" + file), HeaderUrl("/" + folder + "/" + file)) == "/shared/header.html"
    ensures Resolve(Directory("/" + folder + "/" + file), FooterUrl("/" + folder + "/" + file)) == "/shared/footer.html"
  {
    var p := "/" + folder + "/" + file;
    OneLevelParentIsRoot(folder, file);
    var d := Directory(p);
    assert HeaderUrl(p) == "../shared/" + "header.html" && FooterUrl(p) == "../shared/" + "footer.html";
    ResolveSharedUp(d, "header.html");
    ResolveSharedUp(d, "footer.html");
    FragmentLiterals();
  }

  /** Two folders down, the single `../` stops one level short of the root, for both prefixes. */
  lemma TwoLevelPageMissesRoot(a: string, b: string, file: string)
    requires NoSlash(a) && NoSlash(b) && NoSlash(file)
    ensures IsNested("/" + a + "/" + b + "/" + file)
    ensures Resolve(Directory("/" + a + "/" + b + "/" + file), LangBase("/" + a + "/" + b + "/" + file) + "lang/") ==
      "/" + a + "/lang/"
    ensures Resolve(Directory("/" + a + "/" + b + "/" + file), SharedBase("/" + a + "/" + b + "/" + file)) ==
      "/" + a + "/shared/"
  {
    var p := "/" + a + "/" + b + "/" + file;
    assert p[|a| + 1] == '/';
    var d := "/" + a + "/" + b + "/";
    assert p[|d|..] == file;
    DirectoryUnique(p, d);
    var up := "/" + a + "/";
    assert d[..|d| - 1] == "/" + a + "/" + b;
    assert d[..|d| - 1][|up|..] == b;
    DirectoryUnique(d[..|d| - 1], up);
    assert Parent(d) == up;
    assert ("../" + "lang/")[3..] == "lang/";
    assert "../shared/"[3..] == "shared/";
  }
}
