/** The article catalogue of lib/articles.ts: a directory of `.mdx` files,
    each parsed into front matter and a body, served newest first, by slug,
    by tag overlap, by category and by tag. The file system and the
    front-matter parser are outside the model: the directory arrives as a
    sequence of already-parsed files. */
module Articles {
  import opened Wrappers
  import Seqs
  import StableSort

  /** The front-matter fields the catalogue reads; `None` is a missing key. */
  datatype FrontMatter = FrontMatter(
    title: Option<string>,
    description: Option<string>,
    publishedAt: Option<string>,
    author: Option<string>,
    category: Option<string>,
    tags: Option<seq<string>>)

  /** What the front-matter parser returns for one file. */
  datatype Source = Source(data: FrontMatter, content: string)

  /** One directory entry; `source` is `None` when reading or parsing it fails. */
  datatype File = File(name: string, source: Option<Source>)

  /** The articles directory, or a directory that cannot be listed. */
  datatype Directory = Listing(files: seq<File>) | Unreadable

  datatype Article = Article(
    slug: string,
    title: string,
    description: string,
    publishedAt: string,
    author: string,
    category: string,
    tags: seq<string>,
    readTime: int,
    content: string)

  /** Collaborators the catalogue calls but that are not modelled:
      `calculateReadTime`, and `new Date(s).getTime()` (`None` for NaN). */
  datatype Env = Env(readTime: string -> int, dateValue: string -> Option<int>)

  const Extension: string := ".mdx"

  // The default table applied to missing or falsy front-matter fields.
  const DefaultTitle: string := ""
  const DefaultDescription: string := ""
  const DefaultPublishedAt: string := ""
  const DefaultAuthor: string := "FoxGlove CPA"
  const DefaultCategory: string := "General"
  const DefaultTags: seq<string> := []

  /** The number of related articles returned when no limit is given. */
  const DefaultRelatedLimit: int := 3

  /** JavaScript's `v || d` for a string field: a missing field and the
      (falsy) empty string both give `d`. */
  function OrString(v: Option<string>, d: string): string {
    if v.Some? && v.value != "" then v.value else d
  }

  /** The field was taken from the front matter when present and non-empty,
      and is the default otherwise. */
  predicate Defaulted(v: Option<string>, d: string, out: string) {
    && (v.None? || v.value == "" ==> out == d)
    && (v.Some? && v.value != "" ==> out == v.value)
  }

  /** The record both constructors build from one parsed file. */
  function FromSource(slug: string, src: Source, env: Env): (a: Article)
    ensures a.slug == slug && a.content == src.content
    ensures a.readTime == env.readTime(src.content)
    ensures Defaulted(src.data.title, DefaultTitle, a.title)
    ensures Defaulted(src.data.description, DefaultDescription, a.description)
    ensures Defaulted(src.data.publishedAt, DefaultPublishedAt, a.publishedAt)
    ensures Defaulted(src.data.author, DefaultAuthor, a.author)
    ensures Defaulted(src.data.category, DefaultCategory, a.category)
    ensures a.tags == if src.data.tags.None? then DefaultTags else src.data.tags.value
  {
    Article(
      slug,
      OrString(src.data.title, DefaultTitle),
      OrString(src.data.description, DefaultDescription),
      OrString(src.data.publishedAt, DefaultPublishedAt),
      OrString(src.data.author, DefaultAuthor),
      OrString(src.data.category, DefaultCategory),
      src.data.tags.GetOr(DefaultTags),
      env.readTime(src.content),
      src.content)
  }

  /** A file with no front matter at all gets exactly the default table. */
  lemma EmptyFrontMatterDefaults(slug: string, content: string, env: Env)
    ensures var a := FromSource(slug, Source(FrontMatter(None, None, None, None, None, None), content), env);
      && a.title == "" && a.description == "" && a.publishedAt == ""
      && a.author == "FoxGlove CPA" && a.category == "General" && a.tags == []
  {
  }

  // ---------------------------------------------------------------- slugs

  /** `name.endsWith('.mdx')`. */
  predicate IsArticleFile(name: string) {
    |name| >= |Extension| && name[|name| - |Extension|..] == Extension
  }

  /** `name.replace(/\.mdx$/, '')`. */
  function SlugOf(name: string): (slug: string)
    ensures IsArticleFile(name) ==> slug + Extension == name
    ensures !IsArticleFile(name) ==> slug == name
  {
    if IsArticleFile(name) then
      assert name == name[..|name| - |Extension|] + name[|name| - |Extension|..];
      name[..|name| - |Extension|]
    else name
  }

  /** The file `getArticleBySlug(slug)` opens has the name whose slug is `slug`. */
  lemma SlugRoundTrip(slug: string)
    ensures IsArticleFile(slug + Extension)
    ensures SlugOf(slug + Extension) == slug
  {
    assert (slug + Extension)[|slug|..] == Extension;
    assert (slug + Extension)[..|slug|] == slug;
  }

  /** Two article files with the same slug have the same name. */
  lemma SlugInjective(n1: string, n2: string)
    requires IsArticleFile(n1) && IsArticleFile(n2) && SlugOf(n1) == SlugOf(n2)
    ensures n1 == n2
  {
  }

  // ---------------------------------------------------------------- listing

  /** The entries `getAllArticles` reads: those whose name ends in `.mdx`. */
  function ArticleFiles(files: seq<File>): (r: seq<File>)
    ensures forall f :: f in r <==> f in files && IsArticleFile(f.name)
  {
    Seqs.Filter(files, (f: File) => IsArticleFile(f.name))
  }

  /** The directory can be listed and every article file in it can be read
      and parsed; otherwise `getAllArticles` catches the error. */
  predicate Readable(dir: Directory) {
    dir.Listing? && forall f :: f in ArticleFiles(dir.files) ==> f.source.Some?
  }

  /** Builds one article per article file, in directory order. */
  function BuildAll(files: seq<File>, env: Env): (r: seq<Article>)
    requires forall f :: f in files ==> f.source.Some?
    ensures |r| == |files|
    ensures forall i :: 0 <= i < |files| ==>
      r[i] == FromSource(SlugOf(files[i].name), files[i].source.value, env)
  {
    if files == [] then []
    else [FromSource(SlugOf(files[0].name), files[0].source.value, env)] + BuildAll(files[1..], env)
  }

  /** The sort key of `getAllArticles`: the publication date, `None` when it is NaN. */
  function DateKey(env: Env): Article -> Option<int> {
    (a: Article) => env.dateValue(a.publishedAt)
  }

  /** `getAllArticles()`: one article per article file, newest first; any
      error gives the empty list. */
  function GetAllArticles(dir: Directory, env: Env): (r: seq<Article>)
    ensures !Readable(dir) ==> r == []
    ensures Readable(dir) ==> |r| == |ArticleFiles(dir.files)|
  {
    if !Readable(dir) then []
    else
      var built := BuildAll(ArticleFiles(dir.files), env);
      var r := StableSort.SortDesc(built, DateKey(env));
      assert |multiset(r)| == |multiset(built)|;
      r
  }

  /** A readable directory is listed as a permutation of its built article files. */
  lemma ListingPermutesFiles(dir: Directory, env: Env)
    requires Readable(dir)
    ensures multiset(GetAllArticles(dir, env)) == multiset(BuildAll(ArticleFiles(dir.files), env))
  {
  }

  /** Every listed article is built from one of the directory's `.mdx`
      files, under the slug of its file name. */
  lemma ListedArticleComesFromFile(dir: Directory, env: Env, a: Article)
    requires a in GetAllArticles(dir, env)
    ensures Readable(dir)
    ensures exists i :: (0 <= i < |dir.files| && IsArticleFile(dir.files[i].name)
      && dir.files[i].source.Some?
      && a == FromSource(SlugOf(dir.files[i].name), dir.files[i].source.value, env))
  {
    var files := ArticleFiles(dir.files);
    var built := BuildAll(files, env);
    ListingPermutesFiles(dir, env);
    assert a in multiset(GetAllArticles(dir, env));
    assert a in multiset(built);
    var k :| 0 <= k < |built| && built[k] == a;
    assert files[k] in files;
    var i :| 0 <= i < |dir.files| && dir.files[i] == files[k];
  }

  /** Every `.mdx` file of a readable directory is listed. */
  lemma ArticleFileIsListed(dir: Directory, env: Env, f: File)
    requires Readable(dir)
    requires f in dir.files && IsArticleFile(f.name)
    ensures f.source.Some?
    ensures FromSource(SlugOf(f.name), f.source.value, env) in GetAllArticles(dir, env)
  {
    var files := ArticleFiles(dir.files);
    var built := BuildAll(files, env);
    assert f in files;
    var i :| 0 <= i < |files| && files[i] == f;
    ListingPermutesFiles(dir, env);
    assert built[i] in multiset(built);
    assert built[i] in multiset(GetAllArticles(dir, env));
  }

  /** Every publication date parses to a number. */
  predicate AllDated(articles: seq<Article>, env: Env) {
    forall i :: 0 <= i < |articles| ==> env.dateValue(articles[i].publishedAt).Some?
  }

  /** When every date parses, the listing is newest first. */
  lemma NewestFirst(dir: Directory, env: Env)
    requires AllDated(GetAllArticles(dir, env), env)
    ensures var r := GetAllArticles(dir, env);
      forall i, j :: 0 <= i < j < |r| ==>
        env.dateValue(r[i].publishedAt).value >= env.dateValue(r[j].publishedAt).value
  {
    if Readable(dir) {
      var built := BuildAll(ArticleFiles(dir.files), env);
      var r := StableSort.SortDesc(built, DateKey(env));
      assert StableSort.AllKeyed(built, DateKey(env)) by {
        forall i | 0 <= i < |built| ensures DateKey(env)(built[i]).Some? {
          assert built[i] in multiset(r);
          var m :| 0 <= m < |r| && r[m] == built[i];
        }
      }
      StableSort.SortDescSorted(built, DateKey(env));
    }
  }

  /** Articles with the same date value keep the order of their files in the directory. */
  lemma SameDateKeepsDirectoryOrder(dir: Directory, env: Env, d: Option<int>)
    requires Readable(dir)
    ensures StableSort.WithKey(GetAllArticles(dir, env), DateKey(env), d)
         == StableSort.WithKey(BuildAll(ArticleFiles(dir.files), env), DateKey(env), d)
  {
    StableSort.SortDescStable(BuildAll(ArticleFiles(dir.files), env), DateKey(env), d);
  }

  // ---------------------------------------------------------------- by slug

  /** The index of the first entry named `name`, as the file system would open it. */
  function Lookup(files: seq<File>, name: string): (k: Option<nat>)
    ensures k.Some? ==> k.value < |files| && files[k.value].name == name
    ensures k.Some? ==> forall j :: 0 <= j < k.value ==> files[j].name != name
    ensures k.None? ==> forall i :: 0 <= i < |files| ==> files[i].name != name
  {
    if files == [] then None
    else if files[0].name == name then Some(0)
    else
      match Lookup(files[1..], name)
      case None => None
      case Some(k) => Some(k + 1)
  }

  /** `getArticleBySlug(slug)`: reads `<slug>.mdx`; `None` plays `null`, which
      is also the answer to every read or parse error. */
  function GetArticleBySlug(dir: Directory, env: Env, slug: string): (r: Option<Article>)
    ensures r.Some? ==> r.value.slug == slug
    ensures r.Some? <==> dir.Listing? && exists i :: (0 <= i < |dir.files|
      && dir.files[i].name == slug + Extension && dir.files[i].source.Some?
      && (forall j :: 0 <= j < i ==> dir.files[j].name != slug + Extension))
    ensures r.Some? ==> exists f :: (f in dir.files && f.name == slug + Extension
      && f.source.Some? && r.value == FromSource(slug, f.source.value, env))
  {
    if dir.Unreadable? then None
    else
      match Lookup(dir.files, slug + Extension)
      case None => None
      case Some(k) =>
        match dir.files[k].source
        case None => None
        case Some(src) => Some(FromSource(slug, src, env))
  }

  /** File names in a directory are distinct. */
  predicate UniqueNames(files: seq<File>) {
    forall i, j :: 0 <= i < j < |files| ==> files[i].name != files[j].name
  }

  /** In a directory with distinct names, the slug of an `.mdx` file finds that file. */
  lemma FileFoundBySlug(dir: Directory, env: Env, i: nat)
    requires dir.Listing? && UniqueNames(dir.files)
    requires i < |dir.files| && IsArticleFile(dir.files[i].name) && dir.files[i].source.Some?
    ensures GetArticleBySlug(dir, env, SlugOf(dir.files[i].name))
         == Some(FromSource(SlugOf(dir.files[i].name), dir.files[i].source.value, env))
  {
    var name := dir.files[i].name;
    assert SlugOf(name) + Extension == name;
    var k := Lookup(dir.files, name);
    assert k.Some? && k.value <= i;
    assert k.value == i;
  }

  /** The two constructors agree: in a directory with distinct names, every
      listed article is what `getArticleBySlug` returns for its slug. */
  lemma ListedArticleFoundBySlug(dir: Directory, env: Env, a: Article)
    requires dir.Listing? ==> UniqueNames(dir.files)
    requires a in GetAllArticles(dir, env)
    ensures GetArticleBySlug(dir, env, a.slug) == Some(a)
  {
    ListedArticleComesFromFile(dir, env, a);
    var i :| 0 <= i < |dir.files| && IsArticleFile(dir.files[i].name)
      && dir.files[i].source.Some?
      && a == FromSource(SlugOf(dir.files[i].name), dir.files[i].source.value, env);
    FileFoundBySlug(dir, env, i);
  }

  /** In a readable directory every article found by slug is also listed. */
  lemma FoundBySlugIsListed(dir: Directory, env: Env, slug: string)
    requires Readable(dir)
    requires GetArticleBySlug(dir, env, slug).Some?
    ensures GetArticleBySlug(dir, env, slug).value in GetAllArticles(dir, env)
  {
    var k := Lookup(dir.files, slug + Extension).value;
    SlugRoundTrip(slug);
    ArticleFileIsListed(dir, env, dir.files[k]);
  }

  // ---------------------------------------------------------------- related

  /** An article of `getRelatedArticles` with its `matchCount`. */
  datatype Ranked = Ranked(article: Article, matchCount: nat)

  /** `(tag) => tags.includes(tag)`. */
  function InQuery(query: seq<string>): string -> bool {
    (t: string) => t in query
  }

  /** `article.tags.filter((tag) => tags.includes(tag)).length`: entries of the
      article's own tags that occur in the query, duplicates counted. */
  function MatchCount(articleTags: seq<string>, query: seq<string>): (n: nat)
    ensures n <= |articleTags|
    ensures n > 0 <==> exists i :: 0 <= i < |articleTags| && articleTags[i] in query
    ensures n == |articleTags| <==> forall i :: 0 <= i < |articleTags| ==> articleTags[i] in query
  {
    var m := Seqs.Filter(articleTags, InQuery(query));
    assert |m| > 0 ==> m[0] in articleTags && m[0] in query by {
      if |m| > 0 {
        assert m[0] in m;
        assert InQuery(query)(m[0]);
      }
    }
    assert (exists i :: 0 <= i < |articleTags| && articleTags[i] in query) ==> |m| > 0 by {
      if i :| 0 <= i < |articleTags| && articleTags[i] in query {
        assert articleTags[i] in m;
      }
    }
    Seqs.FilterKeepsAll(articleTags, InQuery(query));
    |m|
  }

  /** Match counts add up over concatenated tag lists. */
  lemma MatchCountAppend(a: seq<string>, b: seq<string>, query: seq<string>)
    ensures MatchCount(a + b, query) == MatchCount(a, query) + MatchCount(b, query)
  {
    Seqs.FilterAppend(a, b, InQuery(query));
  }

  /** Duplicate tags are counted: this is not the size of a set intersection. */
  lemma DuplicateTagsCount()
    ensures MatchCount(["tax", "tax"], ["tax"]) == 2
  {
  }

  /** Each article of the listing paired with its match count. */
  function Rank(articles: seq<Article>, query: seq<string>): (r: seq<Ranked>)
    ensures |r| == |articles|
    ensures forall i :: 0 <= i < |r| ==>
      r[i] == Ranked(articles[i], MatchCount(articles[i].tags, query))
  {
    if articles == [] then []
    else [Ranked(articles[0], MatchCount(articles[0].tags, query))] + Rank(articles[1..], query)
  }

  /** The candidates of `getRelatedArticles`, in listing order. The source's
      two filters (not the current slug; `matchCount > 0`) are applied
      together: adding the count does not change the slug. */
  function Candidates(all: seq<Article>, currentSlug: string, query: seq<string>): (r: seq<Ranked>)
    ensures forall x :: x in r <==>
      x in Rank(all, query) && x.article.slug != currentSlug && x.matchCount > 0
  {
    Seqs.Filter(Rank(all, query), NotCurrentAndMatching(currentSlug))
  }

  /** `article.slug !== currentSlug` and `article.matchCount > 0`. */
  function NotCurrentAndMatching(currentSlug: string): Ranked -> bool {
    (r: Ranked) => r.article.slug != currentSlug && r.matchCount > 0
  }

  /** The sort key of `getRelatedArticles`. */
  const CountKey: Ranked -> Option<int> := (r: Ranked) => Some(r.matchCount)

  /** Where `slice(0, limit)` stops in a sequence of length `len`; a negative
      `limit` counts back from the end. */
  function SliceEnd(len: nat, limit: int): (e: nat)
    ensures e <= len
    ensures 0 <= limit ==> e == if limit < len then limit else len
    ensures limit < 0 ==> e == if len + limit > 0 then len + limit else 0
  {
    if limit < 0 then (if len + limit > 0 then len + limit else 0)
    else if limit < len then limit else len
  }

  /** The stable ranking of the candidates, before truncation. */
  function Ranking(all: seq<Article>, currentSlug: string, query: seq<string>): seq<Ranked> {
    StableSort.SortDesc(Candidates(all, currentSlug, query), CountKey)
  }

  /** The stable ranking holds exactly the candidates. */
  lemma RankingMembers(all: seq<Article>, currentSlug: string, query: seq<string>, x: Ranked)
    ensures x in Ranking(all, currentSlug, query) <==> x in Candidates(all, currentSlug, query)
  {
    var c := Candidates(all, currentSlug, query);
    var s := Ranking(all, currentSlug, query);
    assert x in s <==> x in multiset(s);
    assert x in c <==> x in multiset(c);
  }

  /** `x` is a listed article other than the current one, with its own
      positive match count. */
  predicate Qualifies(all: seq<Article>, currentSlug: string, query: seq<string>, x: Ranked) {
    && x.article in all && x.article.slug != currentSlug
    && x.matchCount == MatchCount(x.article.tags, query) && x.matchCount >= 1
  }

  /** Every candidate qualifies, and every qualifying pair is a candidate. */
  lemma CandidatesQualify(all: seq<Article>, currentSlug: string, query: seq<string>, x: Ranked)
    ensures x in Candidates(all, currentSlug, query) <==> Qualifies(all, currentSlug, query, x)
  {
    if x in Candidates(all, currentSlug, query) {
      assert x in Rank(all, query);
      assert NotCurrentAndMatching(currentSlug)(x);
    }
    if Qualifies(all, currentSlug, query, x) {
      var i :| 0 <= i < |all| && all[i] == x.article;
      assert Rank(all, query)[i] == x;
      assert NotCurrentAndMatching(currentSlug)(x);
    }
  }

  lemma RankingFacts(all: seq<Article>, currentSlug: string, query: seq<string>)
    ensures forall i :: 0 <= i < |Ranking(all, currentSlug, query)| ==>
      Qualifies(all, currentSlug, query, Ranking(all, currentSlug, query)[i])
    ensures forall i, j :: 0 <= i < j < |Ranking(all, currentSlug, query)| ==>
      Ranking(all, currentSlug, query)[i].matchCount >= Ranking(all, currentSlug, query)[j].matchCount
  {
    var c := Candidates(all, currentSlug, query);
    var s := Ranking(all, currentSlug, query);
    forall i | 0 <= i < |s| ensures Qualifies(all, currentSlug, query, s[i]) {
      RankingMembers(all, currentSlug, query, s[i]);
      CandidatesQualify(all, currentSlug, query, s[i]);
    }
    assert StableSort.AllKeyed(c, CountKey);
    StableSort.SortDescSorted(c, CountKey);
  }

  /** What every prefix of the ranking inherits from it. */
  lemma RankingPrefix(all: seq<Article>, currentSlug: string, query: seq<string>, e: nat)
    requires e <= |Ranking(all, currentSlug, query)|
    ensures var r := Ranking(all, currentSlug, query)[..e];
      && (forall i :: 0 <= i < |r| ==> Qualifies(all, currentSlug, query, r[i]))
      && (forall i, j :: 0 <= i < j < |r| ==> r[i].matchCount >= r[j].matchCount)
  {
    RankingFacts(all, currentSlug, query);
  }

  /** The related articles of a listing `all`: the stable ranking cut by
      `slice(0, limit)`. */
  function RelatedIn(all: seq<Article>, currentSlug: string, query: seq<string>, limit: int): (r: seq<Ranked>)
    ensures forall i :: 0 <= i < |r| ==> r[i].article.slug != currentSlug
    ensures forall i :: 0 <= i < |r| ==> r[i].matchCount >= 1
    ensures forall i :: 0 <= i < |r| ==> r[i].matchCount == MatchCount(r[i].article.tags, query)
    ensures forall i :: 0 <= i < |r| ==> r[i].article in all
    ensures 0 <= limit ==> |r| <= limit
    ensures forall i, j :: 0 <= i < j < |r| ==> r[i].matchCount >= r[j].matchCount
  {
    var s := Ranking(all, currentSlug, query);
    var e := SliceEnd(|s|, limit);
    RankingPrefix(all, currentSlug, query, e);
    s[..e]
  }

  /** `getRelatedArticles(currentSlug, tags, limit)`: the related articles of
      the current listing; the article page passes 3, which is also the default. */
  function GetRelatedArticles(dir: Directory, env: Env, currentSlug: string, query: seq<string>,
                              limit: int): (r: seq<Ranked>)
    ensures forall i :: 0 <= i < |r| ==>
      r[i].article in GetAllArticles(dir, env) && r[i].article.slug != currentSlug && r[i].matchCount >= 1
    ensures 0 <= limit ==> |r| <= limit
  {
    RelatedIn(GetAllArticles(dir, env), currentSlug, query, limit)
  }

  /** `getRelatedArticles(currentSlug, tags)` with the limit left out: the
      first three of the ranking, or all of it when it is shorter. */
  function GetRelatedArticlesDefault(dir: Directory, env: Env, currentSlug: string,
                                     query: seq<string>): (r: seq<Ranked>)
    ensures var s := Ranking(GetAllArticles(dir, env), currentSlug, query);
      && |r| == (if |s| < 3 then |s| else 3)
      && r == s[..|r|]
  {
    GetRelatedArticles(dir, env, currentSlug, query, DefaultRelatedLimit)
  }

  /** The result is a prefix of the stable ranking; equal counts keep the
      order of the candidates, which is listing order, so ties stay newest first. */
  lemma RelatedIsStablePrefix(all: seq<Article>, currentSlug: string, query: seq<string>,
                              limit: int, k: nat)
    ensures var s := Ranking(all, currentSlug, query);
      var r := RelatedIn(all, currentSlug, query, limit);
      && r == s[..|r|]
      && StableSort.WithKey(s, CountKey, Some(k))
         == StableSort.WithKey(Candidates(all, currentSlug, query), CountKey, Some(k))
      && Seqs.IsSubseq(Candidates(all, currentSlug, query), Rank(all, query))
  {
    StableSort.SortDescStable(Candidates(all, currentSlug, query), CountKey, Some(k));
    Seqs.FilterSubseq(Rank(all, query), NotCurrentAndMatching(currentSlug));
  }

  /** A qualifying article left out of the result matches no more tags than
      any article in it; if the result is shorter than `limit`, nothing
      qualifying was left out. */
  lemma RelatedIsTopRanked(all: seq<Article>, currentSlug: string, query: seq<string>,
                           limit: int, a: Article)
    requires a in all && a.slug != currentSlug
    requires MatchCount(a.tags, query) > 0
    ensures var r := RelatedIn(all, currentSlug, query, limit);
      Ranked(a, MatchCount(a.tags, query)) !in r ==>
        forall i :: 0 <= i < |r| ==> MatchCount(a.tags, query) <= r[i].matchCount
    ensures var r := RelatedIn(all, currentSlug, query, limit);
      |r| < limit ==> Ranked(a, MatchCount(a.tags, query)) in r
  {
    var s := Ranking(all, currentSlug, query);
    var r := RelatedIn(all, currentSlug, query, limit);
    RankingFacts(all, currentSlug, query);
    var x := Ranked(a, MatchCount(a.tags, query));
    CandidatesQualify(all, currentSlug, query, x);
    RankingMembers(all, currentSlug, query, x);
    var j :| 0 <= j < |s| && s[j] == x;
    assert r == s[..|r|];
    if j < |r| {
      assert r[j] == x;
    }
  }

  // ---------------------------------------------------------------- filters

  /** `(article) => article.category === category`. */
  function InCategory(category: string): Article -> bool {
    (a: Article) => a.category == category
  }

  /** `(article) => article.tags.includes(tag)`. */
  function HasTag(tag: string): Article -> bool {
    (a: Article) => tag in a.tags
  }

  /** The articles of a listing `all` with the given category, in listing order. */
  function ByCategory(all: seq<Article>, category: string): (r: seq<Article>)
    ensures forall a :: a in r <==> a in all && a.category == category
  {
    Seqs.Filter(all, InCategory(category))
  }

  /** The articles of a listing `all` carrying the given tag, in listing order. */
  function ByTag(all: seq<Article>, tag: string): (r: seq<Article>)
    ensures forall a :: a in r <==> a in all && tag in a.tags
  {
    Seqs.Filter(all, HasTag(tag))
  }

  /** `getArticlesByCategory(category)`: the listing filtered by category. */
  function GetArticlesByCategory(dir: Directory, env: Env, category: string): (r: seq<Article>)
    ensures forall a :: a in r <==> a in GetAllArticles(dir, env) && a.category == category
  {
    ByCategory(GetAllArticles(dir, env), category)
  }

  /** `getArticlesByTag(tag)`: the listing filtered by tag. */
  function GetArticlesByTag(dir: Directory, env: Env, tag: string): (r: seq<Article>)
    ensures forall a :: a in r <==> a in GetAllArticles(dir, env) && tag in a.tags
  {
    ByTag(GetAllArticles(dir, env), tag)
  }

  /** Both filters keep listing order and keep every copy of what they keep. */
  lemma FiltersPreserveListing(all: seq<Article>, category: string, tag: string, a: Article)
    ensures Seqs.IsSubseq(ByCategory(all, category), all)
    ensures Seqs.IsSubseq(ByTag(all, tag), all)
    ensures multiset(ByCategory(all, category))[a]
         == if a.category == category then multiset(all)[a] else 0
    ensures multiset(ByTag(all, tag))[a]
         == if tag in a.tags then multiset(all)[a] else 0
  {
    Seqs.FilterSubseq(all, InCategory(category));
    Seqs.FilterSubseq(all, HasTag(tag));
    Seqs.FilterMultiset(all, InCategory(category), a);
    Seqs.FilterMultiset(all, HasTag(tag), a);
  }

  /** The category of each listed article, in listing order. */
  function Categories(all: seq<Article>): (r: seq<string>)
    ensures |r| == |all| && forall i :: 0 <= i < |all| ==> r[i] == all[i].category
  {
    seq(|all|, i requires 0 <= i < |all| => all[i].category)
  }

  /** The tags of the listed articles, concatenated (`flatMap`). */
  function FlatTags(all: seq<Article>): (r: seq<string>)
    ensures forall t :: t in r <==> exists a :: a in all && t in a.tags
  {
    if all == [] then []
    else
      var rest := FlatTags(all[1..]);
      assert forall a :: a in all <==> a == all[0] || a in all[1..];
      all[0].tags + rest
  }

  /** `getAllCategories()`. */
  function GetAllCategories(dir: Directory, env: Env): (r: seq<string>)
    ensures Seqs.NoDup(r)
    ensures forall c :: c in r <==> exists a :: a in GetAllArticles(dir, env) && a.category == c
    ensures forall i, j :: 0 <= i < j < |r| ==>
      Seqs.FirstIndex(Categories(GetAllArticles(dir, env)), r[i])
        < Seqs.FirstIndex(Categories(GetAllArticles(dir, env)), r[j])
  {
    var all := GetAllArticles(dir, env);
    var cs := Categories(all);
    assert forall c :: c in cs <==> exists a :: a in all && a.category == c by {
      forall c ensures c in cs <==> exists a :: a in all && a.category == c {
        if c in cs {
          var i :| 0 <= i < |cs| && cs[i] == c;
          assert all[i] in all;
        }
      }
    }
    Seqs.Dedup(cs)
  }

  /** `getAllTags()`. */
  function GetAllTags(dir: Directory, env: Env): (r: seq<string>)
    ensures Seqs.NoDup(r)
    ensures forall t :: t in r <==> exists a :: a in GetAllArticles(dir, env) && t in a.tags
    ensures forall i, j :: 0 <= i < j < |r| ==>
      Seqs.FirstIndex(FlatTags(GetAllArticles(dir, env)), r[i])
        < Seqs.FirstIndex(FlatTags(GetAllArticles(dir, env)), r[j])
  {
    Seqs.Dedup(FlatTags(GetAllArticles(dir, env)))
  }

  // ---------------------------------------------------------------- example

  lemma ThreeElements<T>(s: seq<T>)
    requires |s| == 3
    ensures s == [s[0], s[1], s[2]]
  {
  }

  /** The file names of the three-article example. */
  lemma ExampleNames()
    ensures IsArticleFile("a.mdx") && SlugOf("a.mdx") == "a"
    ensures IsArticleFile("b.mdx") && SlugOf("b.mdx") == "b"
    ensures IsArticleFile("c.mdx") && SlugOf("c.mdx") == "c"
    ensures !IsArticleFile("notes.txt")
  {
    SlugRoundTrip("a");
    SlugRoundTrip("b");
    SlugRoundTrip("c");
    assert "a" + Extension == "a.mdx";
    assert "b" + Extension == "b.mdx";
    assert "c" + Extension == "c.mdx";
    assert "notes.txt"[5..] != Extension;
  }

  /** The match counts of the three-article example against A's tags. */
  lemma ExampleCounts()
    ensures MatchCount(["tax", "planning"], ["tax", "planning"]) == 2
    ensures MatchCount(["tax"], ["tax", "planning"]) == 1
    ensures MatchCount(["payroll"], ["tax", "planning"]) == 0
  {
    var p := InQuery(["tax", "planning"]);
    assert p("tax") && p("planning") && !p("payroll");
    assert Seqs.Filter(["planning"], p) == ["planning"] by {
      assert ["planning"][1..] == [];
    }
    assert Seqs.Filter(["tax", "planning"], p) == ["tax", "planning"] by {
      assert ["tax", "planning"][1..] == ["planning"];
    }
    assert Seqs.Filter(["tax"], p) == ["tax"] by {
      assert ["tax"][1..] == [];
    }
    assert Seqs.Filter(["payroll"], p) == [] by {
      assert ["payroll"][1..] == [];
    }
  }

  /** The article files of the three-article example. */
  lemma ExampleFiles(fa: File, fb: File, fc: File, fn: File)
    requires fa.name == "a.mdx" && fb.name == "b.mdx" && fc.name == "c.mdx"
    requires fn.name == "notes.txt"
    ensures ArticleFiles([fa, fb, fc, fn]) == [fa, fb, fc]
  {
    ExampleNames();
    var p := (f: File) => IsArticleFile(f.name);
    assert Seqs.Filter([fn], p) == [];
    assert Seqs.Filter([fc, fn], p) == [fc];
    assert Seqs.Filter([fb, fc, fn], p) == [fb, fc];
  }

  /** The listing of the three-article example: newest first. */
  lemma ExampleListing(env: Env, srcA: Source, srcB: Source, srcC: Source)
    requires env.dateValue("2024-03-01") == Some(3)
    requires env.dateValue("2024-02-01") == Some(2)
    requires env.dateValue("2024-01-01") == Some(1)
    requires srcA.data.publishedAt == Some("2024-03-01")
    requires srcB.data.publishedAt == Some("2024-01-01")
    requires srcC.data.publishedAt == Some("2024-02-01")
    ensures var dir := Listing([File("a.mdx", Some(srcA)), File("b.mdx", Some(srcB)),
                                File("c.mdx", Some(srcC)), File("notes.txt", None)]);
      GetAllArticles(dir, env)
      == [FromSource("a", srcA, env), FromSource("c", srcC, env), FromSource("b", srcB, env)]
  {
    var fa := File("a.mdx", Some(srcA));
    var fb := File("b.mdx", Some(srcB));
    var fc := File("c.mdx", Some(srcC));
    var fn := File("notes.txt", None);
    var dir := Listing([fa, fb, fc, fn]);
    ExampleNames();
    ExampleFiles(fa, fb, fc, fn);
    assert Readable(dir);
    var a := FromSource("a", srcA, env);
    var b := FromSource("b", srcB, env);
    var c := FromSource("c", srcC, env);
    var built := BuildAll([fa, fb, fc], env);
    assert built[0] == a && built[1] == b && built[2] == c;
    ThreeElements(built);
    assert a.publishedAt == "2024-03-01";
    assert b.publishedAt == "2024-01-01";
    assert c.publishedAt == "2024-02-01";
    StableSort.SortThreeExample(a, b, c, DateKey(env));
  }

  /** The related articles of the three-article example: of A's tags, B
      shares one and C none, so only B is related to A. */
  lemma ExampleRelated(a: Article, b: Article, c: Article)
    requires a.slug == "a" && a.tags == ["tax", "planning"]
    requires b.slug == "b" && b.tags == ["tax"]
    requires c.slug == "c" && c.tags == ["payroll"]
    ensures RelatedIn([a, c, b], "a", ["tax", "planning"], 2) == [Ranked(b, 1)]
  {
    var all := [a, c, b];
    var q := ["tax", "planning"];
    ExampleCounts();
    var ra := Ranked(a, 2);
    var rb := Ranked(b, 1);
    var rc := Ranked(c, 0);
    var ranked := Rank(all, q);
    assert |ranked| == 3;
    assert ranked[0] == ra && ranked[1] == rc && ranked[2] == rb;
    ThreeElements(ranked);
    var keep := NotCurrentAndMatching("a");
    assert !keep(ra) && !keep(rc) && keep(rb);
    assert Seqs.Filter([rb], keep) == [rb];
    assert Seqs.Filter([rc, rb], keep) == [rb];
    assert Seqs.Filter([ra, rc, rb], keep) == [rb];
    assert Candidates(all, "a", q) == [rb];
    assert Ranking(all, "a", q) == [rb];
  }

  /** Three articles: A (tax, planning; March), B (tax; January), C (payroll;
      February), next to a file that is not an article. The listing is A, C,
      B, and the only article related to A is B. */
  lemma ThreeArticleExample(env: Env, srcA: Source, srcB: Source, srcC: Source)
    requires env.dateValue("2024-03-01") == Some(3)
    requires env.dateValue("2024-02-01") == Some(2)
    requires env.dateValue("2024-01-01") == Some(1)
    requires srcA.data.publishedAt == Some("2024-03-01") && srcA.data.tags == Some(["tax", "planning"])
    requires srcB.data.publishedAt == Some("2024-01-01") && srcB.data.tags == Some(["tax"])
    requires srcC.data.publishedAt == Some("2024-02-01") && srcC.data.tags == Some(["payroll"])
    ensures var dir := Listing([File("a.mdx", Some(srcA)), File("b.mdx", Some(srcB)),
                                File("c.mdx", Some(srcC)), File("notes.txt", None)]);
      GetRelatedArticles(dir, env, "a", ["tax", "planning"], 2)
      == [Ranked(FromSource("b", srcB, env), 1)]
  {
    ExampleListing(env, srcA, srcB, srcC);
    ExampleRelated(FromSource("a", srcA, env), FromSource("b", srcB, env), FromSource("c", srcC, env));
  }
}
