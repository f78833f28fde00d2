# FoxGlove CPA site: article catalogue and form endpoints

This project models the logic of the FoxGlove CPA marketing site in Dafny and proves properties of it. The logic sits in two places.

- **The article catalogue** (`lib/articles.ts`). A directory of `.mdx` files becomes article records:
  - each missing or falsy front-matter field takes its fixed default;
  - the slug is the file name without `.mdx`;
  - the listing is sorted newest first, and any error gives an empty list;
  - articles are looked up by slug;
  - related articles are ranked by how many tags they share with the current article;
  - articles can be filtered by category or tag;
  - the category and tag lists are deduplicated in first-occurrence order.
- **Form validation and the two API routes** (`lib/schemas.ts`, `app/api/contact/route.ts`, `app/api/subscribe/route.ts`). The three zod schemas are written as data over a small model of the zod rules they use. Each route's `POST` handler is a pure function from the parsed body and the clock to a status and a JSON payload.

Modules:

- `Wrappers`: `Option`, which stands for `null` and `undefined`.
- `Seqs`: order-preserving filter, subsequence, first occurrence, and `Array.from(new Set(xs))`.
- `StableSort`: `Array.prototype.sort` with a comparator `key(b) - key(a)`. The sort is stable, as section 23.1.3.30 of ECMA-262 requires, and a NaN comparator result counts as +0.
- `Articles`: the catalogue. The directory is a sequence of already-parsed files.
- `Json`: parsed request bodies, and string length counted in UTF-16 code units.
- `Schemas`: the contact, newsletter and S-Corp calculator schemas.
- `Routes`: the contact and subscribe endpoints.

Things the catalogue calls but that are outside the model are parameters:

- The read-time calculation (`calculateReadTime`) and date parsing (`new Date(s).getTime()`) are the two fields of `Articles.Env`. A NaN date is `None`.
- Email syntax (`z.string().email()`) is an `isEmail` predicate parameter.
- `Date.now()` is the `now` parameter, in milliseconds.
- A body on which `request.json()` throws is `None`.

Two behaviours of the code are easy to misread:

- A filled honeypot or a failed validation gives status 500 from both routes, not a client error. The schema throws before the route's own honeypot check runs, and the catch block answers 500. So the routes' "Bot detected" 400 branch is dead code.
- An article's related-tag count is the number of entries in the article's own tag list that occur in the query. Duplicates count twice, so this is not the size of a set intersection.

## Model

| member | source | states |
|---|---|---|
| Articles.FromSource | lib/articles.ts:20-29 | The built article carries the given slug, the body, and the read time of the body. Each string field is taken from the front matter when present and non-empty, and is its default otherwise. Tags default to the empty list. |
| Articles.EmptyFrontMatterDefaults | lib/articles.ts:50-59 | A file with no front matter gets exactly the default table: title, description and publishedAt `''`, author `FoxGlove CPA`, category `General`, tags `[]`. |
| Articles.SlugOf | lib/articles.ts:15 | For a `.mdx` name, the slug followed by `.mdx` is the name again. Any other name is left unchanged. |
| Articles.SlugRoundTrip | lib/articles.ts:46 | `<slug>.mdx` is an article file, and its slug is `slug`. |
| Articles.SlugInjective | lib/articles.ts:15 | Two article files with the same slug have the same name. |
| Articles.ArticleFiles | lib/articles.ts:13 | Keeps exactly the entries whose name ends in `.mdx`. |
| Articles.BuildAll | lib/articles.ts:14-31 | Builds one article per file, in file order, from the file's slug and parsed source. |
| Articles.GetAllArticles | lib/articles.ts:9-42 | An unlistable directory, or an unreadable article file, gives `[]`. Otherwise there is one article per `.mdx` file. |
| Articles.ListingPermutesFiles | lib/articles.ts:12-35 | The listing is a permutation of the articles built from the `.mdx` files. |
| Articles.ListedArticleComesFromFile | lib/articles.ts:12-31 | Every listed article is built from some `.mdx` entry of the directory, under that entry's slug, and the directory was readable. |
| Articles.ArticleFileIsListed | lib/articles.ts:12-31 | In a readable directory, every `.mdx` entry's article is listed. |
| Articles.NewestFirst | lib/articles.ts:32-35 | When every publication date parses, the listing is non-increasing by date. |
| Articles.SameDateKeepsDirectoryOrder | lib/articles.ts:32-35 | Articles with equal date values appear in the listing in directory order (stability). |
| Articles.Lookup | lib/articles.ts:46-47 | Finds the first entry with the given name, or reports that no entry has it. |
| Articles.GetArticleBySlug | lib/articles.ts:44-65 | A found article has exactly the requested slug. It is found iff the directory has a readable `<slug>.mdx` entry. It is built from that entry with the same default table. |
| Articles.FileFoundBySlug | lib/articles.ts:44-60 | With distinct names, the slug of a readable `.mdx` entry finds the article built from that entry. |
| Articles.ListedArticleFoundBySlug | lib/articles.ts:44-65 | With distinct names, every listed article is exactly what lookup by its slug returns. |
| Articles.FoundBySlugIsListed | lib/articles.ts:44-65 | In a readable directory, every article found by slug is also in the listing. |
| Articles.MatchCount | lib/articles.ts:78-81 | The count is at most the number of the article's tags. It is positive iff some tag is in the query. It equals the tag count iff every tag is in the query. |
| Articles.MatchCountAppend | lib/articles.ts:78-81 | Counts add over concatenated tag lists. |
| Articles.DuplicateTagsCount | lib/articles.ts:78-81 | Tags `[tax, tax]` against the query `[tax]` count 2. |
| Articles.Rank | lib/articles.ts:77-83 | Pairs each listed article, in order, with its own match count. |
| Articles.Candidates | lib/articles.ts:75-84 | A ranked pair is a candidate iff it is in the ranked listing, its slug is not the current one, and its count is positive. The two filters are applied in one pass. |
| Articles.SliceEnd | lib/articles.ts:86 | `slice(0, limit)` stops at `min(limit, len)` for a non-negative limit. A negative limit counts back from the end and stops at 0 at the latest. |
| Articles.RankingMembers | lib/articles.ts:85 | The sorted ranking holds exactly the candidates. |
| Articles.CandidatesQualify | lib/articles.ts:75-84 | A ranked pair is a candidate iff its article is listed, it is not the current slug, and its count is its own match count and at least 1. |
| Articles.RankingFacts | lib/articles.ts:75-85 | Every ranked pair qualifies, and counts are non-increasing along the ranking. |
| Articles.RankingPrefix | lib/articles.ts:85-86 | Every prefix of the ranking qualifies and is non-increasing in count. |
| Articles.RelatedIn | lib/articles.ts:67-89 | No result has the current slug. Each result has count at least 1, equal to its own match count. Each result's article is listed. A non-negative limit bounds the length. Counts are non-increasing. |
| Articles.GetRelatedArticles | lib/articles.ts:67-89 | Every result comes from the current listing, does not have the current slug, and has a count of at least 1. A non-negative limit bounds the length. |
| Articles.GetRelatedArticlesDefault | lib/articles.ts:70 | With no limit, the result is the first `min(3, n)` entries of the ranking. |
| Articles.RelatedIsStablePrefix | lib/articles.ts:85-86 | The result is a prefix of the ranking. For each count, the pairs carrying it keep candidate order, which is listing order. The candidates are a subsequence of the ranked listing. |
| Articles.RelatedIsTopRanked | lib/articles.ts:84-86 | A qualifying article left out of the result matches no more tags than any result. If the result is shorter than the limit, every qualifying article is in it. |
| Articles.ByCategory | lib/articles.ts:91-94 | An article is in `getArticlesByCategory`'s result iff it is listed and has that category. |
| Articles.ByTag | lib/articles.ts:96-99 | An article is in `getArticlesByTag`'s result iff it is listed and carries that tag. |
| Articles.GetArticlesByCategory | lib/articles.ts:91-94 | An article is returned iff it is in the current listing and has that category. |
| Articles.GetArticlesByTag | lib/articles.ts:96-99 | An article is returned iff it is in the current listing and carries that tag. |
| Articles.FiltersPreserveListing | lib/articles.ts:91-99 | Both filters return subsequences of the listing. A matching article occurs as often as in the listing, and a non-matching one never. |
| Articles.Categories | lib/articles.ts:103 | One category per listed article, in listing order. |
| Articles.FlatTags | lib/articles.ts:109 | A tag is in the flattened list iff some listed article carries it. |
| Articles.GetAllCategories | lib/articles.ts:101-105 | No duplicates. A category is present iff some listed article has it. The order is by first occurrence in the listing. |
| Articles.GetAllTags | lib/articles.ts:107-111 | No duplicates. A tag is present iff some listed article carries it. The order is by first occurrence in the flattened tag list. |
| Articles.ExampleNames | lib/articles.ts:13-15 | `a.mdx`, `b.mdx` and `c.mdx` are articles with slugs `a`, `b` and `c`. `notes.txt` is not an article. |
| Articles.ExampleCounts | lib/articles.ts:78-81 | Against the query `[tax, planning]`, the tags `[tax, planning]`, `[tax]` and `[payroll]` count 2, 1 and 0. |
| Articles.ExampleFiles | lib/articles.ts:13 | Of `a.mdx`, `b.mdx`, `c.mdx` and `notes.txt`, the first three are read, in order. |
| Articles.ExampleListing | lib/articles.ts:9-37 | Articles dated March, January and February, in directory order a, b, c, are listed a, c, b. |
| Articles.ExampleRelated | lib/articles.ts:67-89 | In the listing a, c, b, the only article related to `a` with limit 2 is b, with count 1. |
| Articles.ThreeArticleExample | lib/articles.ts:67-89 | From the directory itself, the related articles of `a` with limit 2 are exactly b, with count 1. |
| Seqs.Filter | lib/articles.ts:93 | The result is no longer than the input. Every kept element passes. An element is kept iff it is in the input and passes. |
| Seqs.FilterSubseq | lib/articles.ts:98 | The filter's result is a subsequence of its input. |
| Seqs.FilterMultiset | lib/articles.ts:93 | A passing element keeps all its copies, and a failing one loses them all. |
| Seqs.FilterAppend | lib/articles.ts:78 | Filtering distributes over concatenation. |
| Seqs.FilterKeepsAll | lib/articles.ts:78-81 | The filter keeps the full length iff every element passes. |
| Seqs.FirstIndex | lib/articles.ts:103-104 | The index of the first occurrence of x, or the length when x is absent. |
| Seqs.FirstIndexPrefix | lib/articles.ts:109-110 | The first occurrence of an element of a prefix is at the same index in the whole sequence. |
| Seqs.Dedup | lib/articles.ts:103-104 | No duplicates, the same elements as the input, and the order of first occurrence. |
| StableSort.Insert | lib/articles.ts:32-35 | Inserting adds exactly one copy of the element. |
| StableSort.SortDesc | lib/articles.ts:32-35 | The sort is a permutation of its input. |
| StableSort.WithKey | lib/articles.ts:85 | An element is selected iff it is in the input and carries the given key. As a filter, it keeps input order and every copy (`Seqs.FilterSubseq`, `Seqs.FilterMultiset`). |
| StableSort.InsertSorted | lib/articles.ts:32-35 | Inserting a keyed element into a sorted keyed sequence keeps it sorted. |
| StableSort.SortDescSorted | lib/articles.ts:32-35 | When no key is NaN, the result is non-increasing by key. |
| StableSort.InsertWithKey | lib/articles.ts:85 | Among the elements carrying its key, the inserted element comes first, and the others keep their order. In the sort, these are the elements that followed it in the input. |
| StableSort.SortDescStable | lib/articles.ts:85 | For every key, the elements carrying it appear in the result exactly as in the input (stability). |
| StableSort.SortThreeExample | lib/articles.ts:32-35 | Keys 3, 1, 2 sort to the order first, third, second. |
| Json.Field | lib/schemas.ts:6 | A field is present iff the body is an object with that key, and then it is that key's value. |
| Json.Utf16Length | lib/schemas.ts:7 | The length is between the number of characters and twice that. It equals the number of characters iff no character lies outside the Basic Multilingual Plane. |
| Json.Utf16LengthChar | lib/schemas.ts:7 | One character is one code unit, or two when it lies outside the Basic Multilingual Plane. |
| Json.Utf16LengthAppend | lib/schemas.ts:7 | The length of a concatenation is the sum of the lengths. With `Json.Utf16LengthChar`, this fixes the length of every string. |
| Json.LetterAndEmojiLength | lib/schemas.ts:7 | `"a"` followed by one emoji has length 3. |
| Json.AstralCharCountsTwice | lib/schemas.ts:7 | One emoji has length 2. |
| Schemas.ParseContact | lib/schemas.ts:6-17 | An accepted body yields a record that meets the contact constraints and is exactly what the body holds. |
| Schemas.ContactParseExact | lib/schemas.ts:6-17 | A body parses to f iff it holds f's fields and f meets the constraints: name at least 2, email valid, business name at least 2, message at least 10, honeypot empty, timestamp absent or a number. |
| Schemas.ContactHoneypotMustBeEmpty | lib/schemas.ts:15 | A missing, non-string or non-empty honeypot is rejected. |
| Schemas.ContactTimestampIsOptionalNumber | lib/schemas.ts:16 | Removing the timestamp from an accepted body keeps it accepted. Replacing the timestamp keeps it accepted iff the new value is a number. |
| Schemas.EmojiNameIsLongEnough | lib/schemas.ts:7 | A name that is one emoji passes `min(2)`. |
| Schemas.ParseNewsletter | lib/schemas.ts:24-27 | An accepted body yields its valid email and an empty honeypot. |
| Schemas.NewsletterParseExact | lib/schemas.ts:24-27 | A body is accepted iff it is an object with a valid email string and an empty honeypot string. |
| Schemas.NewsletterHoneypotMustBeEmpty | lib/schemas.ts:26 | A missing, non-string or non-empty honeypot is rejected. |
| Schemas.NewsletterIgnoresTimestamp | lib/schemas.ts:24-27 | Whatever sits under `timestamp` does not change the result. |
| Schemas.ParseSCorp | lib/schemas.ts:34-39 | An accepted body yields a valid input record that is exactly what the body holds. |
| Schemas.SCorpParseExact | lib/schemas.ts:34-39 | A body parses to x iff it holds x's fields and x has revenue at least 0, one of the four structures, state WA or OR, and an owner salary that is absent or at least 0. |
| Routes.ContactPost | app/api/contact/route.ts:4-66 | 500 `Failed to submit form` iff the body is unparsable or fails the schema. 400 `Form submitted too quickly` iff it passes and the time trap fires. 200 `Form submitted successfully` iff it passes and the trap does not fire. |
| Routes.ContactNeverSaysBot | app/api/contact/route.ts:12-17 | No body ever gets the `Bot detected` answer. |
| Routes.ContactFilledHoneypotIs500 | app/api/contact/route.ts:58-64 | A non-empty honeypot string is answered 500 `Failed to submit form`. |
| Routes.ContactTimeTrap | app/api/contact/route.ts:20-28 | For a valid body, each of these gives 200: an absent timestamp, a timestamp of 0, and exactly 3000 ms elapsed. A non-zero future timestamp gives 400 `Form submitted too quickly`. |
| Routes.ContactSubmittedAfter | app/api/contact/route.ts:20-22 | A valid form sent 1200 ms after rendering gives 400, and one sent after 4000 ms gives 200. |
| Routes.SubscribePost | app/api/subscribe/route.ts:4-41 | The status is 200 or 500, never 400. It is 200 `Subscribed successfully` iff the body parses and passes the newsletter schema. Otherwise it is 500 `Failed to subscribe`. |
| Routes.SubscribeAcceptsExactly | app/api/subscribe/route.ts:9-32 | A body is subscribed iff it is an object with a valid email string and an empty honeypot string. There is no time trap. |

## Left out

- Reading the articles directory, reading each file, and parsing front matter with gray-matter are not modelled. The directory is a sequence of entries, each with an optional parsed source. `None` stands for a read or parse failure, and `Unreadable` stands for a failed listing.
- `calculateReadTime` and `new Date(s).getTime()` are collaborators outside the catalogue. They are the parameters in `Articles.Env`.
- Articles.NewestFirst: the date order is claimed only when every date parses. With a NaN date the comparator is inconsistent, and ECMA-262 leaves the resulting order to the implementation. The model's insertion sort is one permitted order.
- Articles.SameDateKeepsDirectoryOrder: the lemma holds for every directory, but when some date is NaN it describes only the model's insertion sort. The program's order is then up to the JavaScript engine, because the comparator is inconsistent. For directories whose dates all parse, it is the stability that ECMA-262 requires.
- Articles.GetArticleBySlug: the model finds `<slug>.mdx` among the directory's entries. A slug containing path separators, which would open a file elsewhere, is not modelled. An unlistable directory gives `None`.
- Front-matter values that are not strings, or in `tags` not a list of strings, are not modelled. The datatype holds only strings and string lists. A non-empty string is truthy, as in JavaScript.
- Articles.RelatedIn: `limit` is an integer. A fractional, NaN or infinite limit is not modelled.
- Articles.Candidates: the source's two filters, "not the current slug" and "at least one match", are merged into one. They are applied to the same element, and adding the count does not change the slug.
- Articles.FlatTags: only membership is stated. Its order is its definition, and GetAllTags states the first-occurrence order in terms of it.
- The email regular expression of `z.string().email()` is not modelled. It is the `isEmail` parameter.
- JSON numbers are finite reals. Floating-point rounding in `now - timestamp` is not modelled. Neither is the `Infinity` or `-Infinity` that `JSON.parse` makes of an overflowing literal such as `1e999`, which `z.number()` accepts. The time trap treats such a timestamp as it would a very large or very small number: `1e999` gives 400 and `-1e999` gives 200. The S-Corp schema accepts an infinite `revenue`.
- Strings containing an unpaired surrogate are not modelled. `JSON.parse` makes one of an escape such as `\ud800`, but a Dafny string holds Unicode scalar values only. zod counts each such surrogate as one code unit, so `"\ud800\ud800"` would pass `min(2)` and the honeypot `"\ud800"` would be rejected.
- `console.log` and `console.error` have no effect on any response, and are left out.
- Zod's error messages are not modelled. Only whether a body is accepted, and the record it yields, are.
- The React pages and components are not part of this model, including the client-side copy of the time trap. Neither are analytics, SEO data, the sitemap, the layout and the Tailwind configuration. They are UI state, browser globals or static data.
