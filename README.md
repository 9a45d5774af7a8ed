# Sitemap URLs and content schemas of a personal site

This project models the two pieces of build-time logic of a small static
site (a blog plus a portfolio) and proves properties about them.

- **Sitemap URL builder** (`sitemap.dfy`, module `Sitemap`). The site
  hands a list of URLs to its sitemap generator. The list holds the three
  base routes `/`, `/blog` and `/works`, then one route `/blog/<slug>` per
  markdown file found under the blog content directory, and every route
  gets the site origin `SITE` in front. The slug is what the POSIX
  `path.parse(file).name` gives. Trailing `/` are ignored. The directories
  are dropped. Only the final extension is dropped, except that a dot-file
  such as `.md` and the name `..` keep their whole name. The directory
  scan is an input: `Pages(site, files)` takes the matched paths in the
  order the scan returned them.
- **Content schema validator** (`content.dfy`, module `Content`). Front
  matter is a map from field name to a `Value` (string, boolean, array,
  or anything else). `ValidateBlog` checks the blog schema: `title`,
  `date`, `tags`, `language` and `description`. `ValidateWork` checks the
  work schema, which adds `href` and `hasBlog`. Like the schema library
  the site uses, validation checks every field in schema order and
  reports one issue per problem. A missing field is `Required`. A value
  of the wrong kind is `InvalidType`. A language string other than `en`
  or `es` is `InvalidEnumValue`. A non-string tag gets an issue at its
  index. Unknown fields are dropped. An entry is accepted only when no
  issue arises. The `date` string goes through the host's date parser,
  which is the parameter `parseDate: string -> Date`.

### Behaviour worth knowing

- `title` and `description` accept any string, the empty one included.
- URLs are not de-duplicated: two `stem.md` files in different
  sub-directories give the same URL twice (`SameNameTwice`).
- A post named `blog.md` gets `/blog/blog`, and no blog route is ever a
  base route (`BlogRouteIsNotBase`).
- The scan pattern `**/*.md` descends into sub-directories.

## Model

| member | source | states |
|---|---|---|
| `Sitemap.Pages` | src/sitemap.ts:17 | the URL list has one entry per base route plus one per matched file |
| `Sitemap.TrimTrailingSlashesSpec` | src/sitemap.ts:9 | trimming removes only a run of '/' at the end of the path and leaves no '/' at its end |
| `Sitemap.LastIndexOfSpec` | src/sitemap.ts:9 | the position found holds the character searched for, and no occurrence follows it |
| `Sitemap.BaseNameSpec` | src/sitemap.ts:9 | the base name is a suffix of the path and holds no '/' |
| `Sitemap.SlugHasNoDirectory` | src/sitemap.ts:9 | a slug holds no '/', so every directory component is gone |
| `Sitemap.StemDropsExtension` | src/sitemap.ts:9 | `stem.ext` (no dot in `ext`) loses exactly `.ext` |
| `Sitemap.SlugOfFile` | src/sitemap.ts:9 | `dir/stem.ext` has slug `stem`: all directories and only the final extension are removed |
| `Sitemap.SlugKeepsInnerDots` | src/sitemap.ts:9 | `dir/sub/a.b.md` has slug `a.b` |
| `Sitemap.SlugOfMarkdown` | src/sitemap.ts:8-9 | a matched markdown file `dir/stem.md` has slug `stem` |
| `Sitemap.DotFileKeepsName` | src/sitemap.ts:9 | a dot-file `dir/.ext` keeps its whole name as slug (how the path is parsed; the scan itself skips dot-files) |
| `Sitemap.RouteAt` | src/sitemap.ts:6-10 | route k is base route k for k < 3, else the blog route of file k - 3 |
| `Sitemap.PagesStartWithBase` | src/sitemap.ts:6-17 | the list has 3 + number-of-files entries and starts with SITE+"/", SITE+"/blog", SITE+"/works" in that order |
| `Sitemap.PagesPostAt` | src/sitemap.ts:8-17 | URL 3 + i is SITE + ("/blog/" + slug of file i), so file order is kept |
| `Sitemap.PagesShape` | src/sitemap.ts:6-17 | the length, the base prefix and the URL of every file, all at once |
| `Sitemap.PagesUnderOrigin` | src/sitemap.ts:17 | every URL starts with SITE |
| `Sitemap.PagesWithoutPosts` | src/sitemap.ts:6-17 | with no matched file the list is exactly the three base URLs |
| `Sitemap.PagesOfTwoFiles` | src/sitemap.ts:6-17 | two matched files give the three base URLs and then one URL per file, in order |
| `Sitemap.PagesOfTwoPosts` | src/sitemap.ts:6-17 | files `a.md`, `b.md` give exactly [SITE+"/", SITE+"/blog", SITE+"/works", SITE+"/blog/a", SITE+"/blog/b"] |
| `Sitemap.BlogRouteIsNotBase` | src/sitemap.ts:6-9 | a blog route starts with "/blog/" and is never a base route |
| `Sitemap.OriginCancels` | src/sitemap.ts:17 | prefixing with SITE keeps distinct routes distinct and equal routes equal |
| `Sitemap.RoutesDuplicates` | src/sitemap.ts:6-10 | two routes are equal exactly when both are blog routes of files with the same slug |
| `Sitemap.PagesDuplicates` | src/sitemap.ts:6-17 | no de-duplication: two URLs are equal exactly when both are blog URLs of files with the same slug |
| `Sitemap.SameNameTwice` | src/sitemap.ts:8-10 | two `stem.md` files in different sub-directories give the same URL twice |
| `Content.CheckString` | src/content/config.ts:5 | a string field is accepted exactly when present as a string, with its value kept; absent it gives exactly [Required], present but not a string exactly [InvalidType], and InvalidType names no other field |
| `Content.CheckDate` | src/content/config.ts:6 | the date is accepted exactly when it is a string, and its value is `parseDate` of that string; absent gives exactly [Required], not a string exactly [InvalidType] |
| `Content.CheckElements` | src/content/config.ts:7 | the elements are accepted exactly when all are strings, kept in order; every issue is an InvalidType on a non-string element, at its index, and every non-string element has one |
| `Content.ElementIssuesInOrder` | src/content/config.ts:7 | the element issues come at strictly increasing indices, so with `CheckElements` there is exactly one issue per non-string element, in index order |
| `Content.CheckStringArray` | src/content/config.ts:7 | `tags` is accepted exactly when it is an array of strings, with the same length and order; absent gives exactly [Required], not an array exactly [InvalidType], and an array gets exactly one InvalidType issue per non-string element, at its index, in index order |
| `Content.CheckLanguage` | src/content/config.ts:8 | `language` is accepted exactly when it is "en" or "es", and the result's code is the string given; absent gives exactly [Required], another string exactly [InvalidEnumValue], a non-string exactly [InvalidType] |
| `Content.CheckBoolean` | src/content/config.ts:21 | `hasBlog` is accepted exactly when present as a boolean, with its value kept; absent gives exactly [Required], a non-boolean exactly [InvalidType] |
| `Content.ValidateBlog` | src/content/config.ts:3-11 | a rejected blog entry always carries at least one issue |
| `Content.ValidateWork` | src/content/config.ts:13-23 | a rejected work entry always carries at least one issue |
| `Content.BlogRules` | src/content/config.ts:4-10 | the blog rules field by field: three strings, an array of strings, a language code |
| `Content.BlogAccepts` | src/content/config.ts:4-10 | all or nothing: a blog entry is accepted exactly when all five fields obey their rules |
| `Content.BlogOutput` | src/content/config.ts:4-10 | an accepted entry holds the given strings, the parsed date, the tags in the same order and the language written |
| `Content.BlogIssues` | src/content/config.ts:4-10 | a rejection names exactly the fields that break their rule |
| `Content.BlogMissing` | src/content/config.ts:4-10 | a rejection reports a field as Required exactly when it is a blog field and absent |
| `Content.BlogWrongKind` | src/content/config.ts:4-10 | an entry reports InvalidType on a field exactly when it is a blog field present with a value of the wrong kind |
| `Content.BlogTagElement` | src/content/config.ts:7 | an entry reports InvalidType at index i of `tags` exactly when `tags` is an array whose element i is not a string |
| `Content.BlogLanguageEnum` | src/content/config.ts:8 | any language string other than "en" and "es" rejects the entry with InvalidEnumValue |
| `Content.BlogParseOnlyShapesDate` | src/content/config.ts:6 | the date parser decides neither acceptance nor issues, and affects only the `date` of the result |
| `Content.BlogIgnoresOtherFields` | src/content/config.ts:4-10 | front-matters that agree on the five blog fields validate the same way |
| `Content.WorkExtendsBlog` | src/content/config.ts:3-23 | work issues are the blog issues followed by those of `href` and `hasBlog`; work accepts exactly when blog accepts and both extras are right; the shared fields are equal |
| `Content.WorkRules` | src/content/config.ts:14-22 | the work rules are the blog rules plus `href` a string and `hasBlog` a boolean |
| `Content.WorkAccepts` | src/content/config.ts:14-22 | all or nothing: a work entry is accepted exactly when all seven fields obey their rules |
| `Content.WorkOutput` | src/content/config.ts:14-22 | an accepted work entry is also an accepted blog entry, with `href` and `hasBlog` as given |
| `Content.WorkIssues` | src/content/config.ts:14-22 | a rejection names exactly the work fields that break their rule |
| `Content.WorkMissing` | src/content/config.ts:14-22 | a rejection reports a field as Required exactly when it is a work field and absent |
| `Content.WorkWrongKind` | src/content/config.ts:14-22 | a work entry reports InvalidType on a field exactly when it is a work field present with a value of the wrong kind |
| `Content.WorkTagElement` | src/content/config.ts:17 | a work entry reports InvalidType at index i of `tags` exactly when `tags` is an array whose element i is not a string |
| `Content.WorkLanguageEnum` | src/content/config.ts:18 | any language string other than "en" and "es" rejects a work entry with InvalidEnumValue |
| `Content.WorkIgnoresOtherFields` | src/content/config.ts:14-22 | front-matters that agree on the seven work fields validate the same way |

## Left out

- The directory scan (src/sitemap.ts:1, 8) is I/O. The matched paths are a parameter. A failing scan, which aborts the build, is not modelled.
- The value of `SITE` comes from `src/constants`, which is not part of this model. It is a parameter.
- The commented-out sitemap for works (src/sitemap.ts:12-15) is dead code.
- `path.parse` is modelled with POSIX separators only. Windows paths (backslashes, drive letters) are not modelled.
- The host's date parser is a parameter, so no round trip of an ISO date string is stated.
- The schema library's messages and issue metadata (expected and received kinds) are not modelled, and neither is the YAML reader that produces front-matter values. Numbers, `null`, nested objects and YAML dates are all `Other`, so an unquoted YAML date is refused as `InvalidType`.
- The content loader's handling of the reserved `slug` key and of file loading is not modelled.
- astro.config.mjs is framework configuration with no logic of its own.
- Determinism has no lemma, because every member here is a Dafny function, which is deterministic by definition.
