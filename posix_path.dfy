/**
 * The part of Python's `pathlib.PurePosixPath` used to turn a document path
 * into the directory that holds it: parsing a string into a root and parts,
 * rendering it back with `str()`, and `.parent`.
 */
module PosixPath {
  import opened Strings

  /** A parsed POSIX path: its root (`""`, `"/"` or `"//"`) and its parts. */
  datatype PurePath = PurePath(root: string, parts: seq<string>)

  /** A part is never empty, never `"."` and never holds a slash. */
  predicate IsPart(p: string)
  {
    p != [] && p != "." && '/' !in p
  }

  /** What parsing can produce. */
  predicate Valid(p: PurePath)
  {
    (p.root == "" || p.root == "/" || p.root == "//") &&
    forall k :: 0 <= k < |p.parts| ==> IsPart(p.parts[k])
  }

  /**
   * The root of a POSIX path: one or two leading slashes are kept as they
   * are, three or more count as one.
   */
  function Root(s: string): (root: string)
    ensures root == "" || root == "/" || root == "//"
    ensures |root| <= |s| && s[..|root|] == root
    ensures root == "" <==> (s == [] || s[0] != '/')
    ensures root == "//" <==> |s| >= 2 && s[..2] == "//" && (|s| == 2 || s[2] != '/')
  {
    if |s| >= 2 && s[0] == '/' && s[1] == '/' && !(|s| >= 3 && s[2] == '/') then "//"
    else if |s| >= 1 && s[0] == '/' then "/"
    else ""
  }

  /**
   * The pieces of a split that name a part: empty pieces and `"."` drop out
   * (pieces of a split on `'/'` never hold a slash, so `IsPart` asks no more).
   */
  function Parts(pieces: seq<string>): (parts: seq<string>)
    ensures forall k :: 0 <= k < |parts| ==> IsPart(parts[k])
    ensures |parts| <= |pieces|
  {
    if pieces == [] then []
    else (if IsPart(pieces[0]) then [pieces[0]] else []) + Parts(pieces[1..])
  }

  /** `PurePosixPath(s)`. */
  function ParsePath(s: string): (p: PurePath)
    ensures Valid(p)
  {
    PurePath(Root(s), Parts(Split(s, '/')))
  }

  /** `str(p)`: the root, then the parts joined by slashes, or `"."` for the empty path. */
  function Format(p: PurePath): (s: string)
    requires Valid(p)
    ensures s != []
    ensures s == "." <==> p.root == "" && p.parts == []
    ensures |p.root| <= |s| && s[..|p.root|] == p.root
    ensures p.parts == [] ==> s == (if p.root == "" then "." else p.root)
    ensures p.parts != [] ==> Split(s[|p.root|..], '/') == p.parts
  {
    JoinStart(p.parts);
    if p.root == "" && p.parts == [] then "."
    else
      var s := p.root + Join(p.parts, '/');
      assert p.root != "" ==> s[0] == '/';
      assert p.parts != [] ==> IsPart(p.parts[0]);
      assert |s| == 1 ==> |p.parts| <= 1;
      assert s[|p.root|..] == Join(p.parts, '/');
      if p.parts != [] then SplitJoin(p.parts, '/'); s else s
  }

  /** `p.parent`: the path without its last part; a path with no parts is its own parent. */
  function Parent(p: PurePath): (q: PurePath)
    ensures q.root == p.root
    ensures q.parts <= p.parts
    ensures |q.parts| == if p.parts == [] then 0 else |p.parts| - 1
  {
    if p.parts == [] then p else PurePath(p.root, p.parts[..|p.parts| - 1])
  }

  /** `str(PurePosixPath(s).parent)`: the directory that holds `s`. */
  function ParentDirectory(s: string): (dir: string)
    ensures ParsePath(dir) == Parent(ParsePath(s))
    ensures var q := Parent(ParsePath(s));
            |q.root| <= |dir| && dir[..|q.root|] == q.root &&
            (q.parts == [] ==> dir == (if q.root == "" then "." else q.root)) &&
            (q.parts != [] ==> Split(dir[|q.root|..], '/') == q.parts)
  {
    var q := Parent(ParsePath(s));
    ParseFormat(q);
    Format(q)
  }

  lemma {:induction false} PartsAppend(x: seq<string>, y: seq<string>)
    ensures Parts(x + y) == Parts(x) + Parts(y)
    decreases |x|
  {
    if x == [] {
      assert x + y == y;
    } else {
      assert (x + y)[1..] == x[1..] + y;
      PartsAppend(x[1..], y);
    }
  }

  lemma {:induction false} PartsOfParts(parts: seq<string>)
    requires forall k :: 0 <= k < |parts| ==> IsPart(parts[k])
    ensures Parts(parts) == parts
    decreases |parts|
  {
    if parts != [] {
      PartsOfParts(parts[1..]);
    }
  }

  /** Splitting the joined parts and dropping empty pieces gives the parts back. */
  lemma PartsOfJoin(parts: seq<string>)
    requires forall k :: 0 <= k < |parts| ==> IsPart(parts[k])
    ensures Parts(Split(Join(parts, '/'), '/')) == parts
  {
    if parts == [] {
      assert Split([], '/') == [[]];
    } else {
      SplitJoin(parts, '/');
      PartsOfParts(parts);
    }
  }

  /** A non-empty join starts with the first character of the first part. */
  lemma JoinStart(parts: seq<string>)
    requires parts != [] ==> parts[0] != []
    ensures parts != [] ==> Join(parts, '/') != [] && Join(parts, '/')[0] == parts[0][0]
    ensures |parts| == 1 ==> Join(parts, '/') == parts[0]
    ensures |parts| > 1 ==> |Join(parts, '/')| > |parts[0]|
  {
  }

  /** `"/" + s` splits into an empty piece followed by the pieces of `s`. */
  lemma SplitAfterSlash(s: string)
    ensures Parts(Split("/" + s, '/')) == Parts(Split(s, '/'))
  {
  }

  /** The root of a rendered path is the root it was rendered from. */
  lemma RootOfRendered(root: string, j: string)
    requires root == "" || root == "/" || root == "//"
    requires j == [] || j[0] != '/'
    ensures Root(root + j) == root
  {
  }

  /** `str(PurePosixPath(""))` is `"."`, which parses back to the empty path. */
  lemma ParseDot()
    ensures ParsePath(".") == PurePath("", [])
  {
  }

  /** A root in front of a string adds no parts. */
  lemma PartsAfterRoot(root: string, j: string)
    requires root == "" || root == "/" || root == "//"
    ensures Parts(Split(root + j, '/')) == Parts(Split(j, '/'))
  {
    if root == "" {
      assert root + j == j;
    } else if root == "/" {
      SplitAfterSlash(j);
    } else {
      assert root + j == "/" + ("/" + j);
      SplitAfterSlash("/" + j);
      SplitAfterSlash(j);
    }
  }

  /** Rendering a parsed path and parsing it again gives the same path. */
  lemma ParseFormat(p: PurePath)
    requires Valid(p)
    ensures ParsePath(Format(p)) == p
  {
    if p.root == "" && p.parts == [] {
      ParseDot();
    } else {
      var j := Join(p.parts, '/');
      var s := Format(p);
      assert s == p.root + j;
      JoinStart(p.parts);
      RootOfRendered(p.root, j);
      PartsAfterRoot(p.root, j);
      PartsOfJoin(p.parts);
      assert ParsePath(s) == PurePath(Root(s), Parts(Split(s, '/')));
    }
  }

  /** The parent directory of `dir/name` is `dir`. */
  lemma ParentOfChild(dir: PurePath, name: string)
    requires Valid(dir) && IsPart(name)
    ensures ParentDirectory(Format(PurePath(dir.root, dir.parts + [name]))) == Format(dir)
  {
    var child := PurePath(dir.root, dir.parts + [name]);
    ParseFormat(child);
    assert child.parts[..|child.parts| - 1] == dir.parts;
  }

  /** Three or more leading slashes count as one. */
  lemma TripleSlashIsRoot(s: string)
    requires s == [] || s[0] != '/'
    ensures ParsePath("///" + s) == ParsePath("/" + s)
  {
    var one := "/" + s;
    var two := "/" + one;
    var three := "/" + two;
    assert three == "///" + s;
    assert Root(three) == "/" && Root(one) == "/";
    SplitAfterSlash(two);
    SplitAfterSlash(one);
    assert Parts(Split(three, '/')) == Parts(Split(one, '/'));
  }
}
