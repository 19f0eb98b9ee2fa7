# Portfolio site logic in Dafny

A Dafny model of the logic behind a personal portfolio and blog site built with Next.js.
The site lists GitHub repositories as projects. It reads each repository's README
front matter, caches the project list, cycles between four pages with arrow buttons,
and serves a filtered, paginated blog read from Markdown files.

The model has one module per source file, plus shared helpers:

- `FrontMatter` (front_matter.dfy): the README front-matter extractor. Each regular
  expression is written out as a hand-made scanner that keeps the same
  leftmost/shortest choices and the same quirks:
  - `subtitle:` also matches `title:`;
  - an unquoted list item keeps its trailing text;
  - the region regex's `$` has no `m` flag.
  
  `FrontMatterExample` proves the extractor's result on one complete README.
- `GitHub` (github.ts): defaulting of the default branch, and the README branch fallback.
  The fallback is a loop, `FetchReadme`, proved against the specification function
  `Readme`. Also project aggregation with a stable sort, the featured filter, and the
  cached `GetProjects`.
- `Cache` (cache.ts): the TTL cache. It is a class with a map field, specified by the
  one-call function `CacheStep`.
- `Navigation` (NavigationButtons.tsx): the cyclic Previous/Next page arrows.
- `Blog` (blog.ts): posts from `.md` files, slugs, and the front-matter override. Also
  date-descending order, lookup by slug, and de-duplicated categories and tags.
- `BlogList` (BlogList.tsx): the search/selection filter, six posts per page, and the
  page-number state of the blog index.
- `Seqs` and `StableSort`: filter, de-duplication and the stable sort that stands for
  `Array.prototype.sort`, which section 22.1.3.27 of ECMA-262 (10th edition) requires
  to be stable.

Every I/O operation becomes a parameter:

- the GitHub API and raw-file fetches become `infoOf`, `readmeOf` and `fetch`;
- the repository listing becomes `Listing`;
- the directory listing becomes `files`;
- file reading and front-matter parsing become `read`;
- the clock becomes `now`;
- the cache producer becomes an `Outcome` value.

## Model

| member | source | states |
|---|---|---|
| FrontMatter.FindFrom | src/services/github.ts:55 | finds the leftmost occurrence of a pattern at or after a position; none earlier |
| FrontMatter.Contains | src/services/github.ts:62 | `includes` holds iff the pattern occurs at some index |
| FrontMatter.Block | src/services/github.ts:55-58 | absent iff no `---\n` … `\n---` match exists; otherwise the text between the leftmost opening and the first closing after it |
| FrontMatter.BlockHasNoClosing | src/services/github.ts:55-58 | the non-greedy capture never contains `\n---` |
| FrontMatter.BlockOfWrapped | src/services/github.ts:55-58 | wrapping a text free of `\n---` in the delimiters gives that text back as the block |
| FrontMatter.CaptureAt | src/services/github.ts:60-63 | a capture at one label is non-empty; a quoted one has no `"`; a digit one is all digits |
| FrontMatter.CaptureAtIsTheMatch | src/services/github.ts:60-63 | the scanner succeeds exactly when `label\s*"([^"]+)"` (or `label\s*(\d+)`) matches there, and returns the group |
| FrontMatter.FirstCapture | src/services/github.ts:60-63 | `match(...)?.[1]`: absent iff no label occurrence matches, else the group of the leftmost matching occurrence |
| FrontMatter.RegionEnd | src/services/github.ts:66 | the lazy group ends at the first `\n\w` or at the end of the block |
| FrontMatter.ListRegion | src/services/github.ts:66-72 | the list region exists iff the label occurs |
| FrontMatter.Lines | src/services/github.ts:67 | `split("\n")`: non-empty, newline-free parts whose join is the input |
| FrontMatter.LinesOfJoin | src/services/github.ts:67 | splitting the join of newline-free lines gives the lines back |
| FrontMatter.CaptureStart | src/services/github.ts:69 | where the item group starts for a given dash: after the spaces, past an opening quote, or on the last space; never on a quote |
| FrontMatter.CaptureStartIsGreatest | src/services/github.ts:69 | no match with that dash has its group start later than `CaptureStart`'s |
| FrontMatter.StripItem | src/services/github.ts:69 | `replace` of the item pattern: the line unchanged iff no match exists, otherwise strictly shorter |
| FrontMatter.StripItemIsPreferredMatch | src/services/github.ts:69 | the replaced match is the engine's: the same dash, then the greatest group start, group end and match end among the matches at the leftmost start |
| FrontMatterExample.ExampleTrailingSpaces | src/services/github.ts:69 | `  - Go  ` strips to `Go  `: the group keeps the trailing spaces |
| FrontMatter.FirstItemDash | src/services/github.ts:69 | the first dash where the item pattern matches; no earlier dash matches |
| FrontMatter.ItemMatchNotEarlier | src/services/github.ts:69 | no match of the item pattern starts before the one `StripItem` replaces |
| FrontMatter.StripItemSpanMatches | src/services/github.ts:69 | the span `StripItem` replaces is a match of `\s*-\s*"?([^"]+)"?\s*` |
| FrontMatter.ListItems | src/services/github.ts:67-69 | one item per line containing `-`, each being that line with its first match replaced by the group; never more items than lines |
| FrontMatter.ListField | src/services/github.ts:64-75 | `[]` when the label is absent, otherwise the items of its region |
| FrontMatter.DecimalValue | src/services/github.ts:63 | `parseInt` of a digit run: below 10 to the run's length |
| FrontMatter.DecimalLeadingZero | src/services/github.ts:63 | a leading zero does not change the value, so `order: 007` is 7 |
| FrontMatter.Parse | src/services/github.ts:59-76 | title/description quote-free and `""` iff no match; showcase iff `showcase: true` occurs; order 0 without a digit match; lists empty without their label |
| FrontMatter.Extract | src/services/github.ts:55-76 | absent iff the text has no block; otherwise the fields parsed from the first block |
| FrontMatterExample.ExampleMetadata | src/services/github.ts:55-76 | a README with title "Foo", `showcase: true`, `order: 2` and a two-item technologies list gives exactly `("Foo", "", true, 2, ["Go", "Rust"], [])` |
| FrontMatterExample.ExampleTechnologies | src/services/github.ts:64-69 | the technologies list of that example is `["Go", "Rust"]` |
| FrontMatterExample.ExampleGoItem | src/services/github.ts:69 | `  - "Go"` strips to `Go` |
| FrontMatterExample.ExampleDescription | src/services/github.ts:61 | with no description line the description capture is absent |
| GitHub.DefaultBranch | src/services/github.ts:16-26 | the repository's non-empty `default_branch`, else `main`, also when the lookup fails; never empty |
| GitHub.FallbackOrderShape | src/services/github.ts:32-49 | the default branch first, then `master`/`main`/`develop` without it: no branch twice, at most four |
| GitHub.Readme | src/services/github.ts:32-53 | the text of the first tried branch whose fetch is ok or rejected, if it is ok; absent iff every branch before it is non-ok (non-2xx) and it is not ok |
| GitHub.ReadmeDecidedAt | src/services/github.ts:38-51 | the outcome is decided by the first branch whose fetch is ok or rejected, not non-ok (non-2xx) |
| GitHub.ReadmeOfTried | src/services/github.ts:38-51 | a run that stops at the first fetch that is ok or rejected (or exhausts the list) determines `Readme` |
| GitHub.PendingIsFilter | src/services/github.ts:40-41 | the branches the loop does not skip are `branches` without the default |
| GitHub.TryBranches | src/services/github.ts:40-48 | the loop fetches a prefix of the non-default branches, all but the last non-ok, and stops early only on an answer that is not non-ok |
| GitHub.FetchReadme | src/services/github.ts:34-51 | the loop tries a prefix of the fallback order, all but the last non-ok (non-2xx), stopping early only on one that is ok or rejected, and its result equals `Readme` |
| GitHub.RepositoryMetadata | src/services/github.ts:28-83 | metadata present iff a README was fetched and has a block; then it is the parsed block |
| GitHub.WithMetadata | src/services/github.ts:92-97 | each repository keeps its fields and gets its own metadata |
| GitHub.Projects | src/services/github.ts:85-109 | `[]` when the listing fails; otherwise exactly the showcase repositories, sorted by `order`, equal orders in listing order |
| GitHub.ProjectsIndependentOfSortAlgorithm | src/services/github.ts:99-101 | any sorted stable reordering of the showcase list is the result, so the result does not depend on the stable sort used |
| GitHub.FeaturedProjects | src/services/github.ts:111-116 | the order-preserving subsequence with `1 <= order <= 3`; order 0 never featured |
| GitHub.FeaturedAreTopShowcase | src/services/github.ts:111-116 | featured projects are showcase projects, still sorted by order |
| GitHub.GetProjects | src/services/github.ts:85-109 | one cached call under key `projects` with the default TTL: the stored list on a hit, the computed list (stored) on a miss |
| GitHub.GetFeaturedProjects | src/services/github.ts:111-116 | the featured filter applied to the cached or freshly computed list; the cache becomes that of one `projects` step, as in `getProjects` |
| Cache.CacheStep | src/utils/cache.ts:3-18 | producer called iff no entry or `now - timestamp >= ttl`; hit returns stored data; on a value, stores `(data, now)` under the key only; a throw leaves the map unchanged |
| Cache.ValueIsStored | src/utils/cache.ts:15-17 | a returned value is the one stored under the key |
| Cache.RefreshThenHit | src/utils/cache.ts:8-16 | after a miss at `t`, a call at `t'` with `t' - t < ttl` returns the same value without calling the producer |
| Cache.ExpiredIsRefreshed | src/utils/cache.ts:11-16 | an entry exactly `ttl` old or older is recomputed and re-stamped with the call's start time |
| Cache.RejectionKeepsStore | src/utils/cache.ts:15-16 | a throwing producer leaves the map unchanged |
| Cache.NonPositiveTtlAlwaysCalls | src/utils/cache.ts:11 | with `ttl <= 0` and no entry from the future, every call runs the producer |
| Cache.TtlCache.GetCachedData | src/utils/cache.ts:3-18 | result, producer call and new map are those of `CacheStep` on the old map, default TTL 3,600,000 ms |
| Navigation.NextPage | src/app/components/NavigationButtons.tsx:16-23 | the following entry of the page order, wrapping to `/`; `/` for unknown paths; always a key of the page table |
| Navigation.PreviousPage | src/app/components/NavigationButtons.tsx:25-32 | the preceding entry, wrapping to `/contact`; `/contact` for unknown paths; always a key of the page table |
| Navigation.ArrowTable | src/app/components/NavigationButtons.tsx:14-32 | the concrete arrow targets of the four pages |
| Navigation.ArrowsAreInverse | src/app/components/NavigationButtons.tsx:16-32 | next and previous undo each other on every page |
| Navigation.NextCycles | src/app/components/NavigationButtons.tsx:14-23 | four nexts return to the page |
| Navigation.NeverToSelf | src/app/components/NavigationButtons.tsx:16-32 | no arrow points at the page it is on, for any path |
| Blog.PostFiles | src/utils/blog.ts:24-25 | exactly the entries ending in `.md`, in directory order |
| Blog.ReplaceFirst | src/utils/blog.ts:27 | only the first occurrence of the pattern is replaced |
| Blog.Slug | src/utils/blog.ts:27 | `file.replace(".md", "")`: unchanged without `.md`, otherwise exactly one `.md` removed |
| Blog.SlugOfPostFile | src/utils/blog.ts:27 | `name.md` has slug `name` when `name` has no `.md` inside |
| Blog.SlugRemovesFirstOccurrence | src/utils/blog.ts:27 | `x.mdy.md` has slug `xy.md` |
| Blog.MakePost | src/utils/blog.ts:32-36 | front-matter `slug`/`content` override the derived ones; other fields come from the front matter |
| Blog.Collect | src/utils/blog.ts:23-38 | one post per file, in order, each made from its own file |
| Blog.NewestFirstAgreesWithComparator | src/utils/blog.ts:40-42 | the sort key `NewestFirst` orders every pair as the comparator `b.date - a.date` does: before, tied, or after |
| Blog.AllPosts | src/utils/blog.ts:21-43 | absent iff some `.md` file fails to read; otherwise one post per `.md` file, newest first, equal dates in directory order |
| Blog.PostBySlug | src/utils/blog.ts:45-59 | null iff reading `slug.md` fails; otherwise the post with the front-matter override |
| Blog.ListedPostFoundBySlug | src/utils/blog.ts:21-59 | a listed post without a front-matter slug is found by its file slug |
| Blog.Categories | src/utils/blog.ts:61-65 | no duplicates; exactly the posts' categories |
| Blog.CategoriesInFirstAppearanceOrder | src/utils/blog.ts:61-65 | categories in order of first appearance |
| Blog.AllTagOccurrences | src/utils/blog.ts:69 | the flattened tag list holds exactly the tags of the posts |
| Blog.Tags | src/utils/blog.ts:67-71 | no duplicates; exactly the union of the posts' tags |
| Blog.TagsInFirstAppearanceOrder | src/utils/blog.ts:67-71 | tags in order of first appearance in the flattened list |
| BlogList.FilterPosts | src/app/blog/BlogList.tsx:23-34 | a post is kept iff all four tests pass; the result is an order-preserving subsequence |
| BlogList.NoFilterKeepsAll | src/app/blog/BlogList.tsx:23-34 | an empty query with nothing selected keeps every post |
| BlogList.Lower | src/app/blog/BlogList.tsx:26-27 | lower-casing maps each character and keeps the length |
| BlogList.TotalPages | src/app/blog/BlogList.tsx:43 | `ceil(n / 6)`: the pages hold n posts and one page fewer would not |
| BlogList.TotalPagesIsCeiling | src/app/blog/BlogList.tsx:43 | no smaller page count holds all posts |
| BlogList.SliceIndex | src/app/blog/BlogList.tsx:44-47 | a non-negative index is clamped to the length; a negative one counts from the end, clamped at 0 |
| BlogList.Slice | src/app/blog/BlogList.tsx:44-47 | `slice`: `max(end - start, 0)` elements, element j being element start + j of the list, with both ends read as `SliceIndex` reads them |
| BlogList.PagePosts | src/app/blog/BlogList.tsx:44-47 | a page shows at most six posts |
| BlogList.PageWindow | src/app/blog/BlogList.tsx:44-47 | page p shows indices `[(p-1)*6, p*6)` clipped to the list |
| BlogList.PageBeyondLastIsEmpty | src/app/blog/BlogList.tsx:43-47 | a current page past the last one, left behind by a narrower filter, shows nothing |
| BlogList.FirstPagesArePrefix | src/app/blog/BlogList.tsx:44-47 | pages 1..k together are the first `6k` posts |
| BlogList.PagesPartitionPosts | src/app/blog/BlogList.tsx:43-47 | pages 1..totalPages together are the filtered list |
| BlogList.Selection | src/app/blog/BlogList.tsx:79-105 | `value || null`: the empty choice clears the selection |
| BlogList.PreviousPageNumber | src/app/blog/BlogList.tsx:186 | one page back, never below 1 |
| BlogList.NextPageNumber | src/app/blog/BlogList.tsx:197 | one page on, never past the last page; from beyond it, the last page |
| BlogList.BlogListState.constructor | src/app/blog/BlogList.tsx:17-21 | empty query, nothing selected, page 1 |
| BlogList.BlogListState.SetSearchQuery | src/app/blog/BlogList.tsx:72 | only the query changes |
| BlogList.BlogListState.SelectCategory | src/app/blog/BlogList.tsx:79 | only the category changes |
| BlogList.BlogListState.SelectTag | src/app/blog/BlogList.tsx:92 | only the tag changes |
| BlogList.BlogListState.SelectLanguage | src/app/blog/BlogList.tsx:105 | only the language changes |
| BlogList.BlogListState.ClickPrevious | src/app/blog/BlogList.tsx:183-187 | with the controls shown and not on page 1, one page back; otherwise nothing; page stays at least 1 |
| BlogList.BlogListState.ClickNext | src/app/blog/BlogList.tsx:183-199 | with the controls shown and not on the last page, one page on (or back to the last page from beyond it); otherwise nothing; page stays at least 1 |
| StableSort.SortBy | src/services/github.ts:99-101 | sorted by key, a permutation, and stable |
| StableSort.SortedStableUnique | src/services/github.ts:99-101 | a sorted stable reordering is unique |
| StableSort.FilterSorted | src/services/github.ts:113-115 | filtering a sorted list keeps it sorted |
| Seqs.Filter | src/services/github.ts:100 | `filter`: exactly the elements passing the test, as a subsequence |
| Seqs.Dedup | src/utils/blog.ts:63-64 | `Array.from(new Set(...))`: distinct, the same elements, a subsequence |
| Seqs.DedupFirstOccurrenceOrder | src/utils/blog.ts:63-64 | the de-duplicated list keeps first-occurrence order |
| Seqs.IndexOf | src/app/components/NavigationButtons.tsx:17-19 | `indexOf`: the first index holding the value, -1 when absent |

## Left out

- Network I/O (GitHub API, raw README downloads, bearer token): these are oracle
  parameters. A response is `Ok(text)`, `NotOk` (not 2xx) or `Throws`. A throw aborts
  the metadata lookup, which then yields undefined.
- `Promise.all` fan-out and the unlocked cache (two concurrent misses both run the
  producer): the model is sequential.
- The cache store is typed by the value it holds, while the source keeps one untyped,
  process-wide dictionary. `Date.now()` is the `now` parameter.
- GitHub.DefaultBranch: the lookup's error, and a `default_branch` that is not a string,
  both become `InfoFailed`/`None`.
- FrontMatter.Parse: `order` is the decimal value of the digit run. `parseInt`'s loss of
  precision beyond 2^53 is not modelled.
- FrontMatter.Extract: no round trip from metadata through a written block back to the
  metadata is stated. The source has no serializer to pair it with. Values that contain
  a label text (`order:` inside a title), blank or dash-free items, and items with quotes
  or surrounding spaces do not come back unchanged. The model states each field's
  extraction and a worked example instead.
- `\s` is the ECMAScript white-space and line-terminator set by code point; `\w` and
  `\d` are ASCII. No general regular-expression engine is modelled, only the patterns
  used.
- BlogList.Lower: lower-cases ASCII letters only, where `toLowerCase` is full Unicode.
- Blog dates are integers. `new Date(...)` parsing, and the NaN comparisons that
  invalid dates would cause, are not modelled.
- The `fs` directory and file reads, `path.join`, and the gray-matter parser are the
  `files` and `read` parameters. Front-matter fields are assumed present and of the
  declared types, as the source's `as BlogPost` cast assumes.
- Blog.AllPosts: a read failure makes the whole result absent. The source rejects the
  promise and nothing catches it.
- Blog.AllCategories and Blog.AllTags only lift `Categories`/`Tags` over `AllPosts`.
- `console.error` logging, `process.env`, rendering, animations, scroll handling and
  styling.
- The button clicks model one click at a time. React's batching of several updaters in
  one render is not modelled.
