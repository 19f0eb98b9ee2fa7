/**
 * The blog index of `src/app/blog/BlogList.tsx`: the search and selection
 * filter, six posts to a page, and the Previous/Next page state.
 */
module BlogList {
  import opened Wrappers
  import opened Seqs
  import opened FrontMatter
  import opened Blog

  const PostsPerPage: int := 6

  // ---------------------------------------------------------------------------
  // The filter

  /** `toLowerCase` on the ASCII letters. */
  function LowerChar(c: char): char {
    if 'A' <= c <= 'Z' then (c as int - 'A' as int + 'a' as int) as char else c
  }

  function Lower(s: string): (r: string)
    ensures |r| == |s| && forall i :: 0 <= i < |s| ==> r[i] == LowerChar(s[i])
  {
    seq(|s|, i requires 0 <= i < |s| => LowerChar(s[i]))
  }

  /** `a.toLowerCase().includes(b.toLowerCase())` */
  predicate IncludesIgnoringCase(a: string, b: string) {
    Contains(Lower(a), Lower(b))
  }

  /** An unset selection (`null`, or the empty string) lets every post through. */
  predicate Unset(selection: Option<string>) {
    selection.None? || selection.value == ""
  }

  function LanguageCode(language: Language): string {
    match language
    case En => "en"
    case Tr => "tr"
  }

  /** The four tests of the filter callback. */
  predicate Matches(post: BlogPost, query: string, category: Option<string>, tag: Option<string>, language: Option<string>) {
    (IncludesIgnoringCase(post.title, query) || IncludesIgnoringCase(post.description, query))
    && (Unset(category) || post.category == category.value)
    && (Unset(tag) || tag.value in post.tags)
    && (Unset(language) || LanguageCode(post.language) == language.value)
  }

  function Matcher(query: string, category: Option<string>, tag: Option<string>, language: Option<string>): BlogPost -> bool {
    post => Matches(post, query, category, tag, language)
  }

  /** `filteredPosts`: the posts passing all four tests, in their original order. */
  function FilterPosts(posts: seq<BlogPost>, query: string, category: Option<string>, tag: Option<string>, language: Option<string>): (r: seq<BlogPost>)
    ensures forall p :: p in r <==> p in posts && Matches(p, query, category, tag, language)
    ensures Subsequence(r, posts)
  {
    Filter(posts, Matcher(query, category, tag, language))
  }

  lemma EmptyIsEverywhere(s: string)
    ensures Contains(s, "")
  {
    assert OccursAt(s, "", 0);
  }

  /** With an empty query and nothing selected every post is shown. */
  lemma NoFilterKeepsAll(posts: seq<BlogPost>)
    ensures FilterPosts(posts, "", None, None, None) == posts
  {
    forall p | p in posts ensures Matcher("", None, None, None)(p) {
      EmptyIsEverywhere(Lower(p.title));
      assert Lower("") == "";
    }
    FilterAll(posts, Matcher("", None, None, None));
  }

  // ---------------------------------------------------------------------------
  // Pages

  /** `Math.ceil(n / POSTS_PER_PAGE)` */
  function TotalPages(n: nat): (t: nat)
    ensures (t - 1) * PostsPerPage < n <= t * PostsPerPage || (n == 0 && t == 0)
  {
    (n + PostsPerPage - 1) / PostsPerPage
  }

  /** The least number of pages that holds `n` posts. */
  lemma TotalPagesIsCeiling(n: nat, t: nat)
    requires n <= t * PostsPerPage
    ensures TotalPages(n) <= t
  {
  }

  /** How `Array.prototype.slice` reads an index: negative ones count from the end, and both are clamped to the length. */
  function SliceIndex(i: int, len: nat): (k: nat)
    ensures k <= len
    ensures 0 <= i ==> k == Min(i, len)
    ensures i < 0 ==> k == Max(len + i, 0)
  {
    if i < 0 then (if len + i < 0 then 0 else len + i) else (if i < len then i else len)
  }

  /** `s.slice(start, end)` */
  function Slice<T>(s: seq<T>, start: int, end: int): (r: seq<T>)
    ensures var b, e := SliceIndex(start, |s|), SliceIndex(end, |s|);
      |r| == Max(e - b, 0) && forall j :: 0 <= j < |r| ==> r[j] == s[b + j]
  {
    var b, e := SliceIndex(start, |s|), SliceIndex(end, |s|);
    if b < e then s[b..e] else []
  }

  /** `currentPosts` */
  function PagePosts(filtered: seq<BlogPost>, page: int): (r: seq<BlogPost>)
    ensures |r| <= PostsPerPage
  {
    Slice(filtered, (page - 1) * PostsPerPage, page * PostsPerPage)
  }

  /** For a page from 1 on: the posts at indices `[(page - 1) * 6, page * 6)`, clipped to the list. */
  lemma PageWindow(filtered: seq<BlogPost>, page: int)
    requires page >= 1
    ensures var b := Min((page - 1) * PostsPerPage, |filtered|);
      PagePosts(filtered, page) == filtered[b..Min(page * PostsPerPage, |filtered|)]
  {
  }

  function Min(a: int, b: int): int {
    if a < b then a else b
  }

  /** A page past the last one is empty. */
  lemma PageBeyondLastIsEmpty(filtered: seq<BlogPost>, page: int)
    requires page > TotalPages(|filtered|)
    ensures PagePosts(filtered, page) == []
  {
  }

  /** Pages 1 to `k` laid end to end. */
  function FirstPages(filtered: seq<BlogPost>, k: nat): seq<BlogPost> {
    if k == 0 then [] else FirstPages(filtered, k - 1) + PagePosts(filtered, k)
  }

  lemma {:induction false} FirstPagesArePrefix(filtered: seq<BlogPost>, k: nat)
    ensures FirstPages(filtered, k) == filtered[..Min(k * PostsPerPage, |filtered|)]
  {
    if k > 0 {
      FirstPagesArePrefix(filtered, k - 1);
      PageWindow(filtered, k);
      var a, b := Min((k - 1) * PostsPerPage, |filtered|), Min(k * PostsPerPage, |filtered|);
      assert filtered[..a] + filtered[a..b] == filtered[..b];
    }
  }

  /** All the pages together show every filtered post once, in order. */
  lemma PagesPartitionPosts(filtered: seq<BlogPost>)
    ensures FirstPages(filtered, TotalPages(|filtered|)) == filtered
  {
    FirstPagesArePrefix(filtered, TotalPages(|filtered|));
    assert filtered[..|filtered|] == filtered;
  }

  // ---------------------------------------------------------------------------
  // The component state

  /** `e.target.value || null`: the empty choice ("All ...") clears the selection. */
  function Selection(value: string): (s: Option<string>)
    ensures s.None? <==> value == ""
    ensures s.Some? ==> s.value == value
  {
    if value == "" then None else Some(value)
  }

  /** The Previous updater `Math.max(prev - 1, 1)`: one page back, never below page 1. */
  function PreviousPageNumber(prev: int): (r: int)
    ensures r >= 1
    ensures prev > 1 ==> r == prev - 1
    ensures prev <= 1 ==> r == 1
  {
    Max(prev - 1, 1)
  }

  /** The Next updater `Math.min(prev + 1, totalPages)`: one page on, never past the last page. */
  function NextPageNumber(prev: int, totalPages: int): (r: int)
    ensures r <= totalPages
    ensures prev < totalPages ==> r == prev + 1
    ensures prev >= totalPages ==> r == totalPages
  {
    Min(prev + 1, totalPages)
  }

  class BlogListState {
    const initialPosts: seq<BlogPost>
    var searchQuery: string
    var selectedCategory: Option<string>
    var selectedTag: Option<string>
    var selectedLanguage: Option<string>
    var currentPage: int

    /** The page number never drops below 1. */
    predicate Valid()
      reads this
    {
      currentPage >= 1
    }

    constructor(posts: seq<BlogPost>)
      ensures Valid()
      ensures initialPosts == posts && searchQuery == "" && currentPage == 1
      ensures selectedCategory == None && selectedTag == None && selectedLanguage == None
    {
      initialPosts := posts;
      searchQuery := "";
      selectedCategory, selectedTag, selectedLanguage := None, None, None;
      currentPage := 1;
    }

    function Filtered(): seq<BlogPost>
      reads this
    {
      FilterPosts(initialPosts, searchQuery, selectedCategory, selectedTag, selectedLanguage)
    }

    function PageCount(): nat
      reads this
    {
      TotalPages(|Filtered()|)
    }

    function CurrentPosts(): seq<BlogPost>
      reads this
    {
      PagePosts(Filtered(), currentPage)
    }

    /** `totalPages > 1 && (...)`: the buttons exist only with more than one page. */
    predicate PaginationShown()
      reads this
    {
      PageCount() > 1
    }

    method SetSearchQuery(value: string)
      modifies this
      ensures searchQuery == value
      ensures selectedCategory == old(selectedCategory) && selectedTag == old(selectedTag)
      ensures selectedLanguage == old(selectedLanguage) && currentPage == old(currentPage)
    {
      searchQuery := value;
    }

    method SelectCategory(value: string)
      modifies this
      ensures selectedCategory == Selection(value)
      ensures searchQuery == old(searchQuery) && selectedTag == old(selectedTag)
      ensures selectedLanguage == old(selectedLanguage) && currentPage == old(currentPage)
    {
      selectedCategory := Selection(value);
    }

    method SelectTag(value: string)
      modifies this
      ensures selectedTag == Selection(value)
      ensures searchQuery == old(searchQuery) && selectedCategory == old(selectedCategory)
      ensures selectedLanguage == old(selectedLanguage) && currentPage == old(currentPage)
    {
      selectedTag := Selection(value);
    }

    method SelectLanguage(value: string)
      modifies this
      ensures selectedLanguage == Selection(value)
      ensures searchQuery == old(searchQuery) && selectedCategory == old(selectedCategory)
      ensures selectedTag == old(selectedTag) && currentPage == old(currentPage)
    {
      selectedLanguage := Selection(value);
    }

    /** A click on Previous: it exists only when pages are shown and is disabled on page 1. */
    method ClickPrevious()
      requires Valid()
      modifies this
      ensures Valid()
      ensures old(PaginationShown()) && old(currentPage) != 1 ==> currentPage == old(currentPage) - 1
      ensures !(old(PaginationShown()) && old(currentPage) != 1) ==> currentPage == old(currentPage)
      ensures searchQuery == old(searchQuery) && selectedCategory == old(selectedCategory)
      ensures selectedTag == old(selectedTag) && selectedLanguage == old(selectedLanguage)
    {
      if PaginationShown() && currentPage != 1 {
        currentPage := PreviousPageNumber(currentPage);
      }
    }

    /**
     * A click on Next: it exists only when pages are shown and is disabled on
     * the last page. From a page past the last one, which a narrower filter
     * leaves behind, it goes back to the last page.
     */
    method ClickNext()
      requires Valid()
      modifies this
      ensures Valid()
      ensures old(PaginationShown()) && old(currentPage) != old(PageCount()) ==>
        currentPage == (if old(currentPage) < old(PageCount()) then old(currentPage) + 1 else old(PageCount()))
      ensures !(old(PaginationShown()) && old(currentPage) != old(PageCount())) ==> currentPage == old(currentPage)
      ensures searchQuery == old(searchQuery) && selectedCategory == old(selectedCategory)
      ensures selectedTag == old(selectedTag) && selectedLanguage == old(selectedLanguage)
    {
      if PaginationShown() && currentPage != PageCount() {
        currentPage := NextPageNumber(currentPage, PageCount());
      }
    }
  }

  function Max(a: int, b: int): int {
    if a < b then b else a
  }
}
