/**
 The list of absolute URLs handed to the sitemap generator (src/sitemap.ts).

 The three fixed routes come first, then one route per markdown file found
 under the blog content directory, `/blog/<name of the file>`, and every route
 is prefixed with the site origin. The directory scan is not modelled: the
 matched file paths are a parameter, in the order the scan returned them.
 */
module Sitemap {

  /** The fixed routes, listed before any blog post. */
  const BasePages: seq<string> := ["/", "/blog", "/works"]

  /** What every blog-post route starts with. */
  const BlogPrefix: string := "/blog/"

  // ---------------------------------------------------------------------------
  // The name of a file, as the POSIX `path.parse(p).name` computes it
  // ---------------------------------------------------------------------------

  /** `p` without the run of '/' at its end; such separators are ignored when a path is parsed. */
  function TrimTrailingSlashes(p: string): (r: string)
    ensures |r| <= |p|
  {
    if p != [] && p[|p| - 1] == '/' then TrimTrailingSlashes(p[..|p| - 1]) else p
  }

  /** The index of the last occurrence of `c` in `s`, or -1 when there is none. */
  function LastIndexOf(s: string, c: char): (r: int)
    ensures -1 <= r < |s|
  {
    if s == [] then -1 else if s[|s| - 1] == c then |s| - 1 else LastIndexOf(s[..|s| - 1], c)
  }

  /** The last path component: what follows the last '/'. */
  function BaseName(p: string): (r: string)
    ensures |r| <= |p|
  {
    p[LastIndexOf(p, '/') + 1..]
  }

  /**
   The base name without its extension. The extension runs from the last '.'
   to the end, except that a base name whose last '.' is its first character
   (a dot-file such as `.md`) and the base name `..` have none.
   */
  function Stem(b: string): (r: string)
    ensures |r| <= |b|
  {
    var d := LastIndexOf(b, '.');
    if d <= 0 || b == ".." then b else b[..d]
  }

  /** The slug of a matched file: its base name without directories or final extension. */
  function Slug(path: string): (r: string)
  {
    Stem(BaseName(TrimTrailingSlashes(path)))
  }

  // ---------------------------------------------------------------------------
  // The URL list
  // ---------------------------------------------------------------------------

  /** The route of the blog post stored in `file`. */
  function BlogRoute(file: string): (r: string)
  {
    BlogPrefix + Slug(file)
  }

  /** One route per matched file, in the order the files were matched. */
  function BlogPages(files: seq<string>): (r: seq<string>)
  {
    seq(|files|, i requires 0 <= i < |files| => BlogRoute(files[i]))
  }

  /** Every route prefixed with the site origin, in the same order. */
  function WithOrigin(site: string, routes: seq<string>): (r: seq<string>)
  {
    seq(|routes|, i requires 0 <= i < |routes| => site + routes[i])
  }

  /** The sitemap URLs: the base routes, then the blog routes, all under `site`. */
  function Pages(site: string, files: seq<string>): (r: seq<string>)
    ensures |r| == |BasePages| + |files|
  {
    WithOrigin(site, BasePages + BlogPages(files))
  }

  // ---------------------------------------------------------------------------
  // Properties of the slug
  // ---------------------------------------------------------------------------

  /** Trimming removes a run of '/' from the end, and nothing else, and leaves no '/' at the end. */
  lemma {:induction false} TrimTrailingSlashesSpec(p: string)
    ensures TrimTrailingSlashes(p) == p[..|TrimTrailingSlashes(p)|]
    ensures TrimTrailingSlashes(p) == [] || TrimTrailingSlashes(p)[|TrimTrailingSlashes(p)| - 1] != '/'
    ensures forall i :: |TrimTrailingSlashes(p)| <= i < |p| ==> p[i] == '/'
  {
    if p != [] && p[|p| - 1] == '/' {
      var q := p[..|p| - 1];
      TrimTrailingSlashesSpec(q);
      assert q[..|TrimTrailingSlashes(q)|] == p[..|TrimTrailingSlashes(q)|];
    }
  }

  /** `LastIndexOf` finds an occurrence of `c` (when it does not answer -1) with none after it. */
  lemma {:induction false} LastIndexOfSpec(s: string, c: char)
    ensures LastIndexOf(s, c) >= 0 ==> s[LastIndexOf(s, c)] == c
    ensures forall i :: LastIndexOf(s, c) < i < |s| ==> s[i] != c
  {
    if s != [] && s[|s| - 1] != c {
      var q := s[..|s| - 1];
      LastIndexOfSpec(q, c);
      assert forall i :: 0 <= i < |q| ==> q[i] == s[i];
    }
  }

  /** No `c` follows the position `LastIndexOf` reports. */
  lemma LastIndexOfAfter(s: string, c: char, i: int)
    requires LastIndexOf(s, c) < i < |s|
    ensures s[i] != c
  {
    LastIndexOfSpec(s, c);
  }

  /** The base name is a suffix of the path and holds no '/'. */
  lemma BaseNameSpec(p: string)
    ensures BaseName(p) == p[|p| - |BaseName(p)|..]
    ensures forall i :: 0 <= i < |BaseName(p)| ==> BaseName(p)[i] != '/'
  {
    var d := LastIndexOf(p, '/');
    assert |BaseName(p)| == |p| - (d + 1);
    forall i | 0 <= i < |BaseName(p)| ensures BaseName(p)[i] != '/' {
      LastIndexOfAfter(p, '/', d + 1 + i);
    }
  }

  /** A slug holds no '/': every directory component is gone. */
  lemma SlugHasNoDirectory(path: string)
    ensures forall i :: 0 <= i < |Slug(path)| ==> Slug(path)[i] != '/'
  {
    var b := BaseName(TrimTrailingSlashes(path));
    BaseNameSpec(TrimTrailingSlashes(path));
    assert forall i :: 0 <= i < |Slug(path)| ==> Slug(path)[i] == b[i];
  }

  /** When `pre` ends with `c` (or is empty) and `post` holds no `c`, the last `c` of `pre + post` ends `pre`. */
  lemma LastIndexAtJoin(pre: string, post: string, c: char)
    requires pre == [] || pre[|pre| - 1] == c
    requires forall i :: 0 <= i < |post| ==> post[i] != c
    ensures LastIndexOf(pre + post, c) == |pre| - 1
  {
    var s := pre + post;
    LastIndexOfSpec(s, c);
    assert forall i :: |pre| <= i < |s| ==> s[i] == post[i - |pre|];
    assert pre != [] ==> s[|pre| - 1] == c;
  }

  /** After a separator (or at the start), a name without '/' is the base name. */
  lemma BaseNameAfterSeparator(dir: string, name: string)
    requires dir == [] || dir[|dir| - 1] == '/'
    requires forall i :: 0 <= i < |name| ==> name[i] != '/'
    ensures BaseName(dir + name) == name
  {
    LastIndexAtJoin(dir, name, '/');
    assert (dir + name)[|dir|..] == name;
  }

  /** A path that does not end with '/' has no trailing separators to trim. */
  lemma NoTrailingSlash(p: string)
    requires p != [] && p[|p| - 1] != '/'
    ensures TrimTrailingSlashes(p) == p
  {
  }

  /** `stem.ext` with no dot in `ext` loses exactly `.ext`. */
  lemma StemDropsExtension(stem: string, ext: string)
    requires stem != [] && ext != []
    requires forall i :: 0 <= i < |ext| ==> ext[i] != '.'
    ensures Stem(stem + "." + ext) == stem
  {
    var b := stem + "." + ext;
    assert b == (stem + ".") + ext;
    LastIndexAtJoin(stem + ".", ext, '.');
    assert |b| >= 3;
    assert b[..|stem|] == stem;
  }

  /**
   A file `dir/stem.ext` has slug `stem`: every directory is removed, and only
   the final extension, so that dots inside `stem` survive.
   */
  lemma SlugOfFile(dir: string, stem: string, ext: string)
    requires dir == [] || dir[|dir| - 1] == '/'
    requires stem != [] && forall i :: 0 <= i < |stem| ==> stem[i] != '/'
    requires ext != [] && forall i :: 0 <= i < |ext| ==> ext[i] != '/' && ext[i] != '.'
    ensures Slug(dir + stem + "." + ext) == stem
  {
    var b := stem + "." + ext;
    assert dir + stem + "." + ext == dir + b;
    assert (dir + b)[|dir + b| - 1] == ext[|ext| - 1];
    NoTrailingSlash(dir + b);
    assert forall i :: 0 <= i < |b| ==> b[i] != '/' by {
      assert forall i :: 0 <= i < |stem| ==> b[i] == stem[i];
      assert forall i :: |stem| < i < |b| ==> b[i] == ext[i - |stem| - 1];
    }
    BaseNameAfterSeparator(dir, b);
    StemDropsExtension(stem, ext);
  }

  /** The example of a nested file whose name holds a dot of its own. */
  lemma SlugKeepsInnerDots()
    ensures Slug("dir/sub/a.b.md") == "a.b"
  {
    SlugOfFile("dir/sub/", "a.b", "md");
    assert "dir/sub/" + "a.b" + "." + "md" == "dir/sub/a.b.md";
  }

  /** A markdown file `dir/stem.md`, the only kind the scan matches, has slug `stem`. */
  lemma SlugOfMarkdown(dir: string, stem: string)
    requires dir == [] || dir[|dir| - 1] == '/'
    requires stem != [] && forall i :: 0 <= i < |stem| ==> stem[i] != '/'
    ensures Slug(dir + stem + ".md") == stem
  {
    assert dir + stem + ".md" == dir + stem + "." + "md";
    SlugOfFile(dir, stem, "md");
  }

  /**
   A dot-file keeps its whole name: `.md` has no extension to drop. This is
   how the path is parsed; the scan itself skips dot-files, so such a path
   never reaches `Pages`.
   */
  lemma DotFileKeepsName(dir: string, ext: string)
    requires dir == [] || dir[|dir| - 1] == '/'
    requires forall i :: 0 <= i < |ext| ==> ext[i] != '/' && ext[i] != '.'
    ensures Slug(dir + "." + ext) == "." + ext
  {
    var b := "." + ext;
    assert dir + "." + ext == dir + b;
    assert (dir + b)[|dir + b| - 1] == b[|b| - 1];
    assert TrimTrailingSlashes(dir + b) == dir + b;
    forall i | 0 <= i < |b| ensures b[i] != '/' {
      if i > 0 { assert b[i] == ext[i - 1]; }
    }
    BaseNameAfterSeparator(dir, b);
    LastIndexAtJoin(".", ext, '.');
  }

  // ---------------------------------------------------------------------------
  // Properties of the URL list
  // ---------------------------------------------------------------------------

  /** Route number k of the list, before the origin is put in front. */
  lemma RouteAt(files: seq<string>, k: nat)
    requires k < 3 + |files|
    ensures k < 3 ==> (BasePages + BlogPages(files))[k] == BasePages[k]
    ensures k >= 3 ==> (BasePages + BlogPages(files))[k] == BlogRoute(files[k - 3])
  {
    var blog := BlogPages(files);
    assert |BasePages| == 3 && |blog| == |files|;
    if k >= 3 {
      assert (BasePages + blog)[k] == blog[k - 3];
    }
  }

  /** The list holds three more entries than there are matched files, the three base URLs first, in order. */
  lemma PagesStartWithBase(site: string, files: seq<string>)
    ensures |Pages(site, files)| == 3 + |files|
    ensures Pages(site, files)[..3] == [site + "/", site + "/blog", site + "/works"]
  {
    var r := Pages(site, files);
    RouteAt(files, 0);
    RouteAt(files, 1);
    RouteAt(files, 2);
    assert r[0] == site + "/" && r[1] == site + "/blog" && r[2] == site + "/works";
  }

  /** URL number 3 + i is the route of file number i under the origin, so the file order is kept. */
  lemma PagesPostAt(site: string, files: seq<string>, i: nat)
    requires i < |files|
    ensures Pages(site, files)[3 + i] == site + ("/blog/" + Slug(files[i]))
  {
    RouteAt(files, 3 + i);
  }

  /** The whole shape of the list, for every matched file at once. */
  lemma PagesShape(site: string, files: seq<string>)
    ensures |Pages(site, files)| == 3 + |files|
    ensures Pages(site, files)[..3] == [site + "/", site + "/blog", site + "/works"]
    ensures forall i :: 0 <= i < |files| ==> Pages(site, files)[3 + i] == site + ("/blog/" + Slug(files[i]))
  {
    PagesStartWithBase(site, files);
    forall i | 0 <= i < |files| ensures Pages(site, files)[3 + i] == site + ("/blog/" + Slug(files[i])) {
      PagesPostAt(site, files, i);
    }
  }

  /** Every URL starts with the site origin. */
  lemma PagesUnderOrigin(site: string, files: seq<string>)
    ensures forall k :: 0 <= k < |Pages(site, files)| ==> site <= Pages(site, files)[k]
  {
    var routes := BasePages + BlogPages(files);
    forall k | 0 <= k < |routes| ensures site <= Pages(site, files)[k] {
      assert (site + routes[k])[..|site|] == site;
    }
  }

  /** With no matched file the list is exactly the three base URLs. */
  lemma PagesWithoutPosts(site: string)
    ensures Pages(site, []) == [site + "/", site + "/blog", site + "/works"]
  {
    PagesShape(site, []);
  }

  /** Two matched files give the three base URLs and then one URL for each file, in order. */
  lemma PagesOfTwoFiles(site: string, f: string, g: string)
    ensures Pages(site, [f, g])
         == [site + "/", site + "/blog", site + "/works", site + ("/blog/" + Slug(f)), site + ("/blog/" + Slug(g))]
  {
    PagesStartWithBase(site, [f, g]);
    PagesPostAt(site, [f, g], 0);
    PagesPostAt(site, [f, g], 1);
    var r := Pages(site, [f, g]);
    var want := [site + "/", site + "/blog", site + "/works", site + ("/blog/" + Slug(f)), site + ("/blog/" + Slug(g))];
    assert r[..3] == want[..3];
    assert r[3] == want[3] && r[4] == want[4];
    assert |r| == |want|;
    forall i | 0 <= i < 5 ensures r[i] == want[i] {
      if i < 3 { assert r[i] == r[..3][i]; }
    }
  }

  /** The markdown files `a.md` and `b.md` in the blog directory give the base URLs, then `/blog/a` and `/blog/b`. */
  lemma PagesOfTwoPosts(site: string, dir: string, a: string, b: string)
    requires dir == [] || dir[|dir| - 1] == '/'
    requires a != [] && forall i :: 0 <= i < |a| ==> a[i] != '/'
    requires b != [] && forall i :: 0 <= i < |b| ==> b[i] != '/'
    ensures Pages(site, [dir + a + ".md", dir + b + ".md"])
         == [site + "/", site + "/blog", site + "/works", site + ("/blog/" + a), site + ("/blog/" + b)]
  {
    SlugOfMarkdown(dir, a);
    SlugOfMarkdown(dir, b);
    PagesOfTwoFiles(site, dir + a + ".md", dir + b + ".md");
  }

  /** A blog route starts with `/blog/` and is never one of the base routes (not even for a file named `blog.md`). */
  lemma BlogRouteIsNotBase(file: string)
    ensures BlogPrefix <= BlogRoute(file)
    ensures BlogRoute(file) !in BasePages
  {
    assert BlogRoute(file)[..|BlogPrefix|] == BlogPrefix;
    var r := BlogRoute(file);
    assert |r| >= 6 && r[1] == 'b';
  }

  /** Under one origin, two URLs are equal exactly when their routes are. */
  lemma OriginCancels(site: string, x: string, y: string)
    ensures site + x == site + y <==> x == y
  {
    if site + x == site + y {
      assert x == (site + x)[|site|..];
      assert y == (site + y)[|site|..];
    }
  }

  /** Two routes of the list are equal exactly when both are blog routes of files with the same slug. */
  lemma RoutesDuplicates(files: seq<string>, j: nat, k: nat)
    requires j < k < 3 + |files|
    ensures (BasePages + BlogPages(files))[j] == (BasePages + BlogPages(files))[k]
        <==> 3 <= j && Slug(files[j - 3]) == Slug(files[k - 3])
  {
    RouteAt(files, j);
    RouteAt(files, k);
    if k < 3 {
      assert BasePages[0] != BasePages[1] && BasePages[0] != BasePages[2] && BasePages[1] != BasePages[2];
    } else if j < 3 {
      BlogRouteIsNotBase(files[k - 3]);
    } else {
      OriginCancels(BlogPrefix, Slug(files[j - 3]), Slug(files[k - 3]));
    }
  }

  /**
   No de-duplication: two entries of the list are equal exactly when both are
   blog URLs and their files have the same slug.
   */
  lemma PagesDuplicates(site: string, files: seq<string>, j: nat, k: nat)
    requires j < k < 3 + |files|
    ensures Pages(site, files)[j] == Pages(site, files)[k]
        <==> 3 <= j && Slug(files[j - 3]) == Slug(files[k - 3])
  {
    var routes := BasePages + BlogPages(files);
    OriginCancels(site, routes[j], routes[k]);
    RoutesDuplicates(files, j, k);
  }

  /**
   Two posts with the same file name in different sub-directories (the scan
   descends into every sub-directory) give the same URL twice.
   */
  lemma SameNameTwice(site: string, dir1: string, dir2: string, stem: string)
    requires dir1 == [] || dir1[|dir1| - 1] == '/'
    requires dir2 == [] || dir2[|dir2| - 1] == '/'
    requires stem != [] && forall i :: 0 <= i < |stem| ==> stem[i] != '/'
    ensures |Pages(site, [dir1 + stem + ".md", dir2 + stem + ".md"])| == 5
    ensures Pages(site, [dir1 + stem + ".md", dir2 + stem + ".md"])[3]
         == Pages(site, [dir1 + stem + ".md", dir2 + stem + ".md"])[4]
         == site + ("/blog/" + stem)
  {
    SlugOfMarkdown(dir1, stem);
    SlugOfMarkdown(dir2, stem);
    PagesPostAt(site, [dir1 + stem + ".md", dir2 + stem + ".md"], 0);
    PagesPostAt(site, [dir1 + stem + ".md", dir2 + stem + ".md"], 1);
  }
}
