/**
 Front-matter validation for the two content collections of the site
 (src/content/config.ts): `blog` posts and `work` (portfolio) entries.

 Each schema is an object schema: every listed field is required, unknown
 fields are dropped, and validation checks every field and reports one issue
 per problem, so that an entry is accepted only when no field has one. The
 `date` field is a string turned into a JavaScript `Date` by the host
 platform's parser, which is a parameter here.
 */
module Content {

  // ---------------------------------------------------------------------------
  // Data
  // ---------------------------------------------------------------------------

  /** A front-matter value as the YAML reader hands it over; numbers, null, objects and dates are `Other`. */
  datatype Value = Str(s: string) | Bool(b: bool) | Arr(items: seq<Value>) | Other

  /** The front-matter of one content file: field name to value. */
  type FrontMatter = map<string, Value>

  /** A JavaScript `Date`: milliseconds since the epoch, or the invalid date a failed parse yields. */
  datatype Date = Time(ms: int) | InvalidDate

  /** The languages a post may be written in. */
  datatype Language = En | Es

  /** Why a field was refused: absent, of the wrong kind, or a string outside the enumeration. */
  datatype Reason = Required | InvalidType | InvalidEnumValue

  /** One validation issue, on a field or on one element of an array field. */
  datatype Issue =
    | OnField(field: string, reason: Reason)
    | OnElement(field: string, index: nat, reason: Reason)

  /** The outcome of validating a field or an entry: a value, or every issue found. */
  datatype Result<T> = Ok(value: T) | Err(issues: seq<Issue>) {
    /** The issues, none when validation succeeded. */
    function Issues(): (r: seq<Issue>) {
      if Err? then issues else []
    }
  }

  /** A validated blog post. */
  datatype BlogEntry = BlogEntry(
    title: string, date: Date, tags: seq<string>, language: Language, description: string)

  /** A validated portfolio entry: the blog fields plus a link and whether a post goes with it. */
  datatype WorkEntry = WorkEntry(
    title: string, date: Date, tags: seq<string>, language: Language, description: string,
    href: string, hasBlog: bool)

  /** The fields of the blog schema. */
  const BlogFields: set<string> := {"title", "date", "tags", "language", "description"}

  /** The fields of the work schema. */
  const WorkFields: set<string> := BlogFields + {"href", "hasBlog"}

  /** The enumeration value that stands for `lang`. */
  function Code(lang: Language): (r: string) {
    match lang
    case En => "en"
    case Es => "es"
  }

  // ---------------------------------------------------------------------------
  // The rules, stated as predicates
  // ---------------------------------------------------------------------------

  /** `key` holds a string. */
  predicate IsText(fm: FrontMatter, key: string) {
    key in fm && fm[key].Str?
  }

  /** `key` holds an array whose every element is a string. */
  predicate IsTextList(fm: FrontMatter, key: string) {
    key in fm && fm[key].Arr? && forall i :: 0 <= i < |fm[key].items| ==> fm[key].items[i].Str?
  }

  /** `key` holds one of the strings "en" and "es". */
  predicate IsLanguageCode(fm: FrontMatter, key: string) {
    key in fm && (fm[key] == Str("en") || fm[key] == Str("es"))
  }

  /** `key` holds a boolean. */
  predicate IsFlag(fm: FrontMatter, key: string) {
    key in fm && fm[key].Bool?
  }

  /** The rule for field `key`, which is the same in both schemas. */
  predicate FieldOk(fm: FrontMatter, key: string) {
    if key == "tags" then IsTextList(fm, key)
    else if key == "language" then IsLanguageCode(fm, key)
    else if key == "hasBlog" then IsFlag(fm, key)
    else IsText(fm, key)
  }

  /** `key` is present, but holds a value of another kind than its rule asks for. */
  predicate WrongKind(fm: FrontMatter, key: string) {
    key in fm &&
    if key == "tags" then !fm[key].Arr?
    else if key == "hasBlog" then !fm[key].Bool?
    else !fm[key].Str?
  }

  /** Every field of `fields` obeys its rule. */
  predicate Conforms(fm: FrontMatter, fields: set<string>) {
    forall k :: k in fields ==> FieldOk(fm, k)
  }

  /** The fields of `fields` that break their rule. */
  function Failing(fm: FrontMatter, fields: set<string>): (r: set<string>) {
    set k | k in fields && !FieldOk(fm, k)
  }

  /** The fields that some issue of `issues` is about. */
  function FieldsNamed(issues: seq<Issue>): (r: set<string>) {
    set e | e in issues :: e.field
  }

  /** Two front-matters that agree on `keys`: the same keys present, with the same values. */
  predicate AgreeOn(fm1: FrontMatter, fm2: FrontMatter, keys: set<string>) {
    forall k :: k in keys ==> (k in fm1 <==> k in fm2) && (k in fm1 ==> fm1[k] == fm2[k])
  }

  // ---------------------------------------------------------------------------
  // Field validators
  // ---------------------------------------------------------------------------

  /**
   Issues on array elements at strictly increasing indices: at most one issue
   per element, in index order.
   */
  predicate AtIncreasingIndices(issues: seq<Issue>) {
    forall a, b :: 0 <= a < b < |issues| ==>
      issues[a].OnElement? && issues[b].OnElement? && issues[a].index < issues[b].index
  }

  /**
   `issues` are the element issues of the array `items` of field `key`: one
   `InvalidType` issue for each element that is not a string, at its index, in
   index order, and no other.
   */
  predicate ReportsElements(key: string, items: seq<Value>, issues: seq<Issue>) {
    (forall e :: e in issues ==>
       e.OnElement? && e.field == key && e.reason == InvalidType && e.index < |items| && !items[e.index].Str?)
    && (forall i :: 0 <= i < |items| && !items[i].Str? ==> OnElement(key, i, InvalidType) in issues)
    && AtIncreasingIndices(issues)
  }

  /** What every field validator promises about its issues. */
  predicate IssuesAbout<T>(r: Result<T>, fm: FrontMatter, key: string) {
    (r.Err? ==> |r.issues| > 0)
    && (forall e :: e in r.Issues() ==> e.field == key && (e.reason == Required <==> key !in fm))
    && (key !in fm ==> r.Issues() == [OnField(key, Required)])
  }

  /** A string field. */
  function CheckString(fm: FrontMatter, key: string): (r: Result<string>)
    ensures r.Ok? <==> IsText(fm, key)
    ensures r.Ok? ==> r.value == fm[key].s
    ensures IssuesAbout(r, fm, key)
    ensures key in fm && !fm[key].Str? ==> r.Issues() == [OnField(key, InvalidType)]
    ensures forall k :: OnField(k, InvalidType) in r.Issues() <==> k == key && key in fm && !fm[key].Str?
  {
    if key !in fm then Err([OnField(key, Required)])
    else match fm[key]
      case Str(s) => Ok(s)
      case _ => Err([OnField(key, InvalidType)])
  }

  /** A string field turned into a date by `parseDate`, which runs only on a string. */
  function CheckDate(fm: FrontMatter, key: string, parseDate: string -> Date): (r: Result<Date>)
    ensures r.Ok? <==> IsText(fm, key)
    ensures r.Ok? ==> r.value == parseDate(fm[key].s)
    ensures IssuesAbout(r, fm, key)
    ensures key in fm && !fm[key].Str? ==> r.Issues() == [OnField(key, InvalidType)]
    ensures forall k :: OnField(k, InvalidType) in r.Issues() <==> k == key && key in fm && !fm[key].Str?
  {
    match CheckString(fm, key)
    case Ok(s) => Ok(parseDate(s))
    case Err(issues) => Err(issues)
  }

  /**
   The elements of an array of strings: every element that is not a string
   gives an issue at its index, and the strings are kept in order.
   */
  function CheckElements(key: string, items: seq<Value>): (r: Result<seq<string>>)
    ensures r.Ok? <==> forall i :: 0 <= i < |items| ==> items[i].Str?
    ensures r.Ok? ==> |r.value| == |items| && forall i :: 0 <= i < |items| ==> r.value[i] == items[i].s
    ensures forall e :: e in r.Issues() ==>
              e.OnElement? && e.field == key && e.reason == InvalidType && e.index < |items| && !items[e.index].Str?
    ensures forall i :: 0 <= i < |items| && !items[i].Str? ==> OnElement(key, i, InvalidType) in r.Issues()
  {
    if items == [] then Ok([])
    else
      var n := |items| - 1;
      var init := CheckElements(key, items[..n]);
      var last := items[n];
      if init.Ok? && last.Str? then Ok(init.value + [last.s])
      else Err(init.Issues() + if last.Str? then [] else [OnElement(key, n, InvalidType)])
  }

  /**
   The element issues come in strictly increasing index order, so that, with
   the contract of `CheckElements`, there is exactly one issue per non-string
   element.
   */
  lemma {:induction false} ElementIssuesInOrder(key: string, items: seq<Value>)
    ensures AtIncreasingIndices(CheckElements(key, items).Issues())
  {
    if items != [] {
      var n := |items| - 1;
      ElementIssuesInOrder(key, items[..n]);
      var issues := CheckElements(key, items[..n]).Issues();
      var all := CheckElements(key, items).Issues();
      assert all == issues + if items[n].Str? then [] else [OnElement(key, n, InvalidType)];
      forall a, b | 0 <= a < b < |all|
        ensures all[a].OnElement? && all[b].OnElement? && all[a].index < all[b].index
      {
        assert all[a] == issues[a] && issues[a] in issues;
        if b < |issues| {
          assert all[b] == issues[b];
        }
      }
    }
  }

  /** An array-of-strings field. */
  function CheckStringArray(fm: FrontMatter, key: string): (r: Result<seq<string>>)
    ensures r.Ok? <==> IsTextList(fm, key)
    ensures r.Ok? ==> |r.value| == |fm[key].items| && forall i :: 0 <= i < |r.value| ==> r.value[i] == fm[key].items[i].s
    ensures IssuesAbout(r, fm, key)
    ensures key in fm && !fm[key].Arr? ==> r.Issues() == [OnField(key, InvalidType)]
    ensures forall k :: OnField(k, InvalidType) in r.Issues() <==> k == key && key in fm && !fm[key].Arr?
    ensures key in fm && fm[key].Arr? ==> ReportsElements(key, fm[key].items, r.Issues())
  {
    if key !in fm then Err([OnField(key, Required)])
    else match fm[key]
      case Arr(items) =>
        var r := CheckElements(key, items);
        assert r.Err? ==> exists i :: 0 <= i < |items| && !items[i].Str?;
        ElementIssuesInOrder(key, items);
        r
      case _ => Err([OnField(key, InvalidType)])
  }

  /** An enumeration field: a string that is one of the language codes. */
  function CheckLanguage(fm: FrontMatter, key: string): (r: Result<Language>)
    ensures r.Ok? <==> IsLanguageCode(fm, key)
    ensures r.Ok? ==> fm[key] == Str(Code(r.value))
    ensures IssuesAbout(r, fm, key)
    ensures key in fm && fm[key].Str? && !r.Ok? ==> r.issues == [OnField(key, InvalidEnumValue)]
    ensures key in fm && !fm[key].Str? ==> r.Issues() == [OnField(key, InvalidType)]
    ensures forall k :: OnField(k, InvalidType) in r.Issues() <==> k == key && key in fm && !fm[key].Str?
  {
    if key !in fm then Err([OnField(key, Required)])
    else match fm[key]
      case Str(s) =>
        if s == "en" then Ok(En)
        else if s == "es" then Ok(Es)
        else Err([OnField(key, InvalidEnumValue)])
      case _ => Err([OnField(key, InvalidType)])
  }

  /** A boolean field. */
  function CheckBoolean(fm: FrontMatter, key: string): (r: Result<bool>)
    ensures r.Ok? <==> IsFlag(fm, key)
    ensures r.Ok? ==> r.value == fm[key].b
    ensures IssuesAbout(r, fm, key)
    ensures key in fm && !fm[key].Bool? ==> r.Issues() == [OnField(key, InvalidType)]
    ensures forall k :: OnField(k, InvalidType) in r.Issues() <==> k == key && key in fm && !fm[key].Bool?
  {
    if key !in fm then Err([OnField(key, Required)])
    else match fm[key]
      case Bool(b) => Ok(b)
      case _ => Err([OnField(key, InvalidType)])
  }

  // ---------------------------------------------------------------------------
  // The two schemas
  // ---------------------------------------------------------------------------

  /** The blog schema: all five fields are checked, and their issues reported in schema order. */
  function ValidateBlog(fm: FrontMatter, parseDate: string -> Date): (r: Result<BlogEntry>)
    ensures r.Err? ==> |r.issues| > 0
  {
    var title := CheckString(fm, "title");
    var date := CheckDate(fm, "date", parseDate);
    var tags := CheckStringArray(fm, "tags");
    var language := CheckLanguage(fm, "language");
    var description := CheckString(fm, "description");
    if title.Ok? && date.Ok? && tags.Ok? && language.Ok? && description.Ok? then
      Ok(BlogEntry(title.value, date.value, tags.value, language.value, description.value))
    else
      Err(title.Issues() + date.Issues() + tags.Issues() + language.Issues() + description.Issues())
  }

  /** The work schema: the blog fields, then `href` and `hasBlog`. */
  function ValidateWork(fm: FrontMatter, parseDate: string -> Date): (r: Result<WorkEntry>)
    ensures r.Err? ==> |r.issues| > 0
  {
    var title := CheckString(fm, "title");
    var date := CheckDate(fm, "date", parseDate);
    var tags := CheckStringArray(fm, "tags");
    var language := CheckLanguage(fm, "language");
    var description := CheckString(fm, "description");
    var href := CheckString(fm, "href");
    var hasBlog := CheckBoolean(fm, "hasBlog");
    if title.Ok? && date.Ok? && tags.Ok? && language.Ok? && description.Ok? && href.Ok? && hasBlog.Ok? then
      Ok(WorkEntry(title.value, date.value, tags.value, language.value, description.value, href.value, hasBlog.value))
    else
      Err(title.Issues() + date.Issues() + tags.Issues() + language.Issues() + description.Issues()
          + href.Issues() + hasBlog.Issues())
  }

  /** The blog part of a work entry. */
  function AsBlog(w: WorkEntry): (r: BlogEntry) {
    BlogEntry(w.title, w.date, w.tags, w.language, w.description)
  }

  // ---------------------------------------------------------------------------
  // Properties of the blog schema
  // ---------------------------------------------------------------------------

  /** The blog rules, field by field. */
  lemma BlogRules(fm: FrontMatter)
    ensures Conforms(fm, BlogFields)
        <==> IsText(fm, "title") && IsText(fm, "date") && IsTextList(fm, "tags")
             && IsLanguageCode(fm, "language") && IsText(fm, "description")
  {
  }

  /**
   All or nothing: a blog entry is accepted exactly when each of its five
   fields is present and obeys its rule; one bad field rejects the entry.
   */
  lemma BlogAccepts(fm: FrontMatter, parseDate: string -> Date)
    ensures ValidateBlog(fm, parseDate).Ok? <==> Conforms(fm, BlogFields)
  {
    BlogRules(fm);
  }

  /**
   An accepted blog entry holds the front-matter's values: the strings as
   given, the date parsed from its string, the tags in the same order, and
   the language whose code was written.
   */
  lemma BlogOutput(fm: FrontMatter, parseDate: string -> Date)
    requires ValidateBlog(fm, parseDate).Ok?
    ensures var e := ValidateBlog(fm, parseDate).value;
      && e.title == fm["title"].s
      && e.date == parseDate(fm["date"].s)
      && |e.tags| == |fm["tags"].items|
      && (forall i :: 0 <= i < |e.tags| ==> Str(e.tags[i]) == fm["tags"].items[i])
      && fm["language"] == Str(Code(e.language))
      && e.description == fm["description"].s
  {
    var e := ValidateBlog(fm, parseDate).value;
    var items := fm["tags"].items;
    forall i | 0 <= i < |e.tags| ensures Str(e.tags[i]) == items[i] {
      assert items[i].Str?;
    }
  }

  lemma FieldsNamedConcat(a: seq<Issue>, b: seq<Issue>)
    ensures FieldsNamed(a + b) == FieldsNamed(a) + FieldsNamed(b)
  {
    forall k | k in FieldsNamed(a + b) ensures k in FieldsNamed(a) + FieldsNamed(b) {
      var e :| e in a + b && e.field == k;
      assert e in a || e in b;
    }
    forall k | k in FieldsNamed(a) + FieldsNamed(b) ensures k in FieldsNamed(a + b) {
      if k in FieldsNamed(a) {
        var e :| e in a && e.field == k;
        assert e in a + b;
      } else {
        var e :| e in b && e.field == k;
        assert e in a + b;
      }
    }
  }

  /** `{key}` when field `key` breaks its rule, nothing otherwise. */
  function FailingOne(fm: FrontMatter, key: string): (r: set<string>) {
    if FieldOk(fm, key) then {} else {key}
  }

  /** The issues of a field validator name that field exactly when it breaks its rule. */
  lemma NamedByField<T>(r: Result<T>, fm: FrontMatter, key: string)
    requires IssuesAbout(r, fm, key)
    requires r.Ok? <==> FieldOk(fm, key)
    ensures FieldsNamed(r.Issues()) == FailingOne(fm, key)
  {
    if r.Err? {
      assert r.issues[0] in r.Issues();
    }
  }

  /** The failing blog fields, one field at a time. */
  lemma FailingBlogFields(fm: FrontMatter)
    ensures Failing(fm, BlogFields)
         == FailingOne(fm, "title") + FailingOne(fm, "date") + FailingOne(fm, "tags")
            + FailingOne(fm, "language") + FailingOne(fm, "description")
  {
  }

  /** The blog issues are those of the five field validators, in schema order. */
  lemma BlogIssuesInOrder(fm: FrontMatter, parseDate: string -> Date)
    ensures ValidateBlog(fm, parseDate).Issues()
         == CheckString(fm, "title").Issues() + CheckDate(fm, "date", parseDate).Issues()
            + CheckStringArray(fm, "tags").Issues() + CheckLanguage(fm, "language").Issues()
            + CheckString(fm, "description").Issues()
  {
  }

  /** The blog validators, in schema order, with the rule each one checks. */
  lemma BlogParts(fm: FrontMatter, parseDate: string -> Date)
    ensures ValidateBlog(fm, parseDate).Issues()
         == CheckString(fm, "title").Issues() + CheckDate(fm, "date", parseDate).Issues()
            + CheckStringArray(fm, "tags").Issues() + CheckLanguage(fm, "language").Issues()
            + CheckString(fm, "description").Issues()
    ensures CheckString(fm, "title").Ok? <==> FieldOk(fm, "title")
    ensures CheckDate(fm, "date", parseDate).Ok? <==> FieldOk(fm, "date")
    ensures CheckStringArray(fm, "tags").Ok? <==> FieldOk(fm, "tags")
    ensures CheckLanguage(fm, "language").Ok? <==> FieldOk(fm, "language")
    ensures CheckString(fm, "description").Ok? <==> FieldOk(fm, "description")
  {
  }

  /**
   A rejected blog entry reports an issue for every field that breaks its
   rule and for no other field.
   */
  lemma BlogIssues(fm: FrontMatter, parseDate: string -> Date)
    requires ValidateBlog(fm, parseDate).Err?
    ensures FieldsNamed(ValidateBlog(fm, parseDate).issues) == Failing(fm, BlogFields)
  {
    var title := CheckString(fm, "title");
    var date := CheckDate(fm, "date", parseDate);
    var tags := CheckStringArray(fm, "tags");
    var language := CheckLanguage(fm, "language");
    var description := CheckString(fm, "description");
    BlogParts(fm, parseDate);
    NamedByField(title, fm, "title");
    NamedByField(date, fm, "date");
    NamedByField(tags, fm, "tags");
    NamedByField(language, fm, "language");
    NamedByField(description, fm, "description");
    FieldsNamedConcat(title.Issues(), date.Issues());
    FieldsNamedConcat(title.Issues() + date.Issues(), tags.Issues());
    FieldsNamedConcat(title.Issues() + date.Issues() + tags.Issues(), language.Issues());
    FieldsNamedConcat(title.Issues() + date.Issues() + tags.Issues() + language.Issues(), description.Issues());
    FailingBlogFields(fm);
  }

  /** A rejected blog entry reports a field as missing exactly when the field is absent. */
  lemma BlogMissing(fm: FrontMatter, parseDate: string -> Date, k: string)
    requires ValidateBlog(fm, parseDate).Err?
    ensures OnField(k, Required) in ValidateBlog(fm, parseDate).issues <==> k in BlogFields && k !in fm
  {
    var title := CheckString(fm, "title");
    var date := CheckDate(fm, "date", parseDate);
    var tags := CheckStringArray(fm, "tags");
    var language := CheckLanguage(fm, "language");
    var description := CheckString(fm, "description");
    var issues := ValidateBlog(fm, parseDate).issues;
    BlogParts(fm, parseDate);
    if k in BlogFields && k !in fm {
      if k == "title" { assert title.Issues()[0] == OnField(k, Required); }
      else if k == "date" { assert date.Issues()[0] == OnField(k, Required); }
      else if k == "tags" { assert tags.Issues()[0] == OnField(k, Required); }
      else if k == "language" { assert language.Issues()[0] == OnField(k, Required); }
      else { assert description.Issues()[0] == OnField(k, Required); }
    }
  }

  /**
   A language given as a string other than the two codes is refused as
   outside the enumeration, and the entry with it.
   */
  lemma BlogLanguageEnum(fm: FrontMatter, parseDate: string -> Date)
    requires "language" in fm && fm["language"].Str?
    requires fm["language"].s != "en" && fm["language"].s != "es"
    ensures ValidateBlog(fm, parseDate).Err?
    ensures OnField("language", InvalidEnumValue) in ValidateBlog(fm, parseDate).issues
  {
    BlogParts(fm, parseDate);
    assert CheckLanguage(fm, "language").Issues() == [OnField("language", InvalidEnumValue)];
  }

  /**
   The date parser decides neither acceptance nor the issues: a date that is
   not a string is refused before any parse, and on success only the `date`
   field depends on the parser.
   */
  lemma BlogParseOnlyShapesDate(fm: FrontMatter, parse1: string -> Date, parse2: string -> Date)
    ensures ValidateBlog(fm, parse1).Ok? == ValidateBlog(fm, parse2).Ok?
    ensures ValidateBlog(fm, parse1).Issues() == ValidateBlog(fm, parse2).Issues()
    ensures ValidateBlog(fm, parse1).Ok? ==>
              ValidateBlog(fm, parse1).value.(date := InvalidDate) == ValidateBlog(fm, parse2).value.(date := InvalidDate)
  {
    BlogParts(fm, parse1);
    BlogParts(fm, parse2);
  }

  /** The validators of one field give the same outcome on two front-matters that agree on it. */
  lemma FieldAgrees(fm1: FrontMatter, fm2: FrontMatter, key: string, parseDate: string -> Date)
    requires AgreeOn(fm1, fm2, {key})
    ensures CheckString(fm1, key) == CheckString(fm2, key)
    ensures CheckDate(fm1, key, parseDate) == CheckDate(fm2, key, parseDate)
    ensures CheckStringArray(fm1, key) == CheckStringArray(fm2, key)
    ensures CheckLanguage(fm1, key) == CheckLanguage(fm2, key)
    ensures CheckBoolean(fm1, key) == CheckBoolean(fm2, key)
  {
    assert key in {key};
  }

  /**
   A blog entry reports a field as of the wrong type exactly when it is a
   blog field present with a value of another kind than its rule asks for.
   */
  lemma BlogWrongKind(fm: FrontMatter, parseDate: string -> Date, k: string)
    ensures OnField(k, InvalidType) in ValidateBlog(fm, parseDate).Issues() <==> k in BlogFields && WrongKind(fm, k)
  {
    var title := CheckString(fm, "title").Issues();
    var date := CheckDate(fm, "date", parseDate).Issues();
    var tags := CheckStringArray(fm, "tags").Issues();
    var language := CheckLanguage(fm, "language").Issues();
    var description := CheckString(fm, "description").Issues();
    var x := OnField(k, InvalidType);
    BlogIssuesInOrder(fm, parseDate);
    assert x in ValidateBlog(fm, parseDate).Issues()
       <==> x in title || x in date || x in tags || x in language || x in description;
    WrongBlogField(fm, k);
  }

  /** A blog field of the wrong kind, one field at a time. */
  lemma WrongBlogField(fm: FrontMatter, k: string)
    ensures k in BlogFields && WrongKind(fm, k)
        <==> (k == "title" && "title" in fm && !fm["title"].Str?)
             || (k == "date" && "date" in fm && !fm["date"].Str?)
             || (k == "tags" && "tags" in fm && !fm["tags"].Arr?)
             || (k == "language" && "language" in fm && !fm["language"].Str?)
             || (k == "description" && "description" in fm && !fm["description"].Str?)
  {
  }

  /**
   A blog entry reports element `i` of `tags` exactly when `tags` is an array
   whose element `i` is not a string.
   */
  lemma BlogTagElement(fm: FrontMatter, parseDate: string -> Date, i: nat)
    ensures OnElement("tags", i, InvalidType) in ValidateBlog(fm, parseDate).Issues()
        <==> "tags" in fm && fm["tags"].Arr? && i < |fm["tags"].items| && !fm["tags"].items[i].Str?
  {
    BlogIssuesInOrder(fm, parseDate);
  }

  /** Fields outside the schema are ignored: only the five blog fields decide the outcome. */
  lemma BlogIgnoresOtherFields(fm1: FrontMatter, fm2: FrontMatter, parseDate: string -> Date)
    requires AgreeOn(fm1, fm2, BlogFields)
    ensures ValidateBlog(fm1, parseDate) == ValidateBlog(fm2, parseDate)
  {
    FieldAgrees(fm1, fm2, "title", parseDate);
    FieldAgrees(fm1, fm2, "date", parseDate);
    FieldAgrees(fm1, fm2, "tags", parseDate);
    FieldAgrees(fm1, fm2, "language", parseDate);
    FieldAgrees(fm1, fm2, "description", parseDate);
  }

  // ---------------------------------------------------------------------------
  // Properties of the work schema
  // ---------------------------------------------------------------------------

  /**
   The work schema is the blog schema with two more fields: its issues are
   the blog issues followed by those of `href` and `hasBlog`, it accepts
   exactly when the blog schema does and both extra fields are right, and an
   accepted work entry carries the blog entry the same front-matter gives.
   */
  lemma WorkExtendsBlog(fm: FrontMatter, parseDate: string -> Date)
    ensures ValidateWork(fm, parseDate).Issues()
         == ValidateBlog(fm, parseDate).Issues() + CheckString(fm, "href").Issues() + CheckBoolean(fm, "hasBlog").Issues()
    ensures ValidateWork(fm, parseDate).Ok?
        <==> ValidateBlog(fm, parseDate).Ok? && IsText(fm, "href") && IsFlag(fm, "hasBlog")
    ensures ValidateWork(fm, parseDate).Ok? ==>
              ValidateBlog(fm, parseDate).value == AsBlog(ValidateWork(fm, parseDate).value)
  {
    BlogParts(fm, parseDate);
  }

  /** The work rules: the blog rules plus `href` a string and `hasBlog` a boolean. */
  lemma WorkRules(fm: FrontMatter)
    ensures Conforms(fm, WorkFields) <==> Conforms(fm, BlogFields) && IsText(fm, "href") && IsFlag(fm, "hasBlog")
    ensures Failing(fm, WorkFields) == Failing(fm, BlogFields) + FailingOne(fm, "href") + FailingOne(fm, "hasBlog")
  {
  }

  /** All or nothing: a work entry is accepted exactly when each of its seven fields obeys its rule. */
  lemma WorkAccepts(fm: FrontMatter, parseDate: string -> Date)
    ensures ValidateWork(fm, parseDate).Ok? <==> Conforms(fm, WorkFields)
  {
    WorkExtendsBlog(fm, parseDate);
    BlogAccepts(fm, parseDate);
    WorkRules(fm);
  }

  /**
   An accepted work entry holds `href` and `hasBlog` as given, and its other
   fields are those of the blog entry, so they obey `BlogOutput`.
   */
  lemma WorkOutput(fm: FrontMatter, parseDate: string -> Date)
    requires ValidateWork(fm, parseDate).Ok?
    ensures ValidateBlog(fm, parseDate).Ok?
    ensures ValidateWork(fm, parseDate).value.href == fm["href"].s
    ensures ValidateWork(fm, parseDate).value.hasBlog == fm["hasBlog"].b
    ensures AsBlog(ValidateWork(fm, parseDate).value) == ValidateBlog(fm, parseDate).value
  {
    WorkExtendsBlog(fm, parseDate);
  }

  /**
   A rejected work entry reports an issue for every field that breaks its
   rule and for no other field.
   */
  lemma WorkIssues(fm: FrontMatter, parseDate: string -> Date)
    requires ValidateWork(fm, parseDate).Err?
    ensures FieldsNamed(ValidateWork(fm, parseDate).issues) == Failing(fm, WorkFields)
  {
    WorkExtendsBlog(fm, parseDate);
    WorkRules(fm);
    var blog := ValidateBlog(fm, parseDate);
    var href := CheckString(fm, "href");
    var hasBlog := CheckBoolean(fm, "hasBlog");
    if blog.Err? {
      BlogIssues(fm, parseDate);
    } else {
      BlogAccepts(fm, parseDate);
      assert Failing(fm, BlogFields) == {};
    }
    assert FieldsNamed(blog.Issues()) == Failing(fm, BlogFields);
    assert FieldOk(fm, "href") == IsText(fm, "href");
    assert FieldOk(fm, "hasBlog") == IsFlag(fm, "hasBlog");
    NamedByField(href, fm, "href");
    NamedByField(hasBlog, fm, "hasBlog");
    FieldsNamedConcat(blog.Issues(), href.Issues());
    FieldsNamedConcat(blog.Issues() + href.Issues(), hasBlog.Issues());
  }

  /** A rejected work entry reports a field as missing exactly when the field is absent. */
  lemma WorkMissing(fm: FrontMatter, parseDate: string -> Date, k: string)
    requires ValidateWork(fm, parseDate).Err?
    ensures OnField(k, Required) in ValidateWork(fm, parseDate).issues <==> k in WorkFields && k !in fm
  {
    WorkExtendsBlog(fm, parseDate);
    var blog := ValidateBlog(fm, parseDate);
    var href := CheckString(fm, "href");
    var hasBlog := CheckBoolean(fm, "hasBlog");
    var issues := ValidateWork(fm, parseDate).issues;
    if blog.Err? {
      BlogMissing(fm, parseDate, k);
    } else if k in BlogFields {
      BlogAccepts(fm, parseDate);
      assert FieldOk(fm, k);
    }
    if k == "href" && k !in fm { assert href.Issues()[0] == OnField(k, Required); }
    if k == "hasBlog" && k !in fm { assert hasBlog.Issues()[0] == OnField(k, Required); }
  }

  /** A language outside the enumeration rejects a work entry too. */
  lemma WorkLanguageEnum(fm: FrontMatter, parseDate: string -> Date)
    requires "language" in fm && fm["language"].Str?
    requires fm["language"].s != "en" && fm["language"].s != "es"
    ensures ValidateWork(fm, parseDate).Err?
    ensures OnField("language", InvalidEnumValue) in ValidateWork(fm, parseDate).issues
  {
    BlogLanguageEnum(fm, parseDate);
    WorkExtendsBlog(fm, parseDate);
  }

  /**
   A work entry reports a field as of the wrong type exactly when it is a
   work field present with a value of another kind than its rule asks for.
   */
  lemma WorkWrongKind(fm: FrontMatter, parseDate: string -> Date, k: string)
    ensures OnField(k, InvalidType) in ValidateWork(fm, parseDate).Issues() <==> k in WorkFields && WrongKind(fm, k)
  {
    WorkExtendsBlog(fm, parseDate);
    BlogWrongKind(fm, parseDate, k);
  }

  /**
   A work entry reports element `i` of `tags` exactly when `tags` is an array
   whose element `i` is not a string.
   */
  lemma WorkTagElement(fm: FrontMatter, parseDate: string -> Date, i: nat)
    ensures OnElement("tags", i, InvalidType) in ValidateWork(fm, parseDate).Issues()
        <==> "tags" in fm && fm["tags"].Arr? && i < |fm["tags"].items| && !fm["tags"].items[i].Str?
  {
    WorkExtendsBlog(fm, parseDate);
    BlogTagElement(fm, parseDate, i);
  }

  /** Fields outside the schema are ignored: only the seven work fields decide the outcome. */
  lemma WorkIgnoresOtherFields(fm1: FrontMatter, fm2: FrontMatter, parseDate: string -> Date)
    requires AgreeOn(fm1, fm2, WorkFields)
    ensures ValidateWork(fm1, parseDate) == ValidateWork(fm2, parseDate)
  {
    assert AgreeOn(fm1, fm2, BlogFields);
    BlogIgnoresOtherFields(fm1, fm2, parseDate);
    WorkExtendsBlog(fm1, parseDate);
    WorkExtendsBlog(fm2, parseDate);
    FieldAgrees(fm1, fm2, "href", parseDate);
    FieldAgrees(fm1, fm2, "hasBlog", parseDate);
  }
}
