/**
 * The post collection of `src/utils/blog.ts`. Directory listing, file
 * reading and the front-matter parser are outside the model: the directory
 * is a list of file names, and reading and parsing one file is a function
 * from its name to the parsed file, or to nothing when either step fails.
 */
module Blog {
  import opened Wrappers
  import opened Seqs
  import opened StableSort
  import opened FrontMatter

  datatype Language = En | Tr

  /** The front matter of one post file, as the parser returns it; `slug` and `content` are there only if the file sets them. */
  datatype PostData = PostData(
    slug: Option<string>,
    content: Option<string>,
    title: string,
    date: int,
    category: string,
    readTime: string,
    description: string,
    tags: seq<string>,
    language: Language)

  /** `matter(fileContent)`: the front matter and the body after it. */
  datatype ParsedFile = ParsedFile(data: PostData, content: string)

  /** A post. Its date is the time `new Date(date).getTime()` gives. */
  datatype BlogPost = BlogPost(
    slug: string,
    title: string,
    date: int,
    category: string,
    readTime: string,
    description: string,
    tags: seq<string>,
    content: string,
    language: Language)

  const Extension: string := ".md"

  /** `s.endsWith(suffix)` */
  predicate EndsWith(s: string, suffix: string) {
    |suffix| <= |s| && s[|s| - |suffix|..] == suffix
  }

  /** `s.replace(pat, replacement)` with a string pattern: only the first occurrence is replaced. */
  function ReplaceFirst(s: string, pat: string, replacement: string): (r: string)
    ensures !Contains(s, pat) ==> r == s
    ensures Contains(s, pat) ==> exists k: nat ::
      OccursAt(s, pat, k) && (forall j: nat :: j < k ==> !OccursAt(s, pat, j)) && r == s[..k] + replacement + s[k + |pat|..]
  {
    match FindFrom(s, pat, 0)
    case None => s
    case Some(k) => s[..k] + replacement + s[k + |pat|..]
  }

  /** `file.replace(".md", "")` */
  function Slug(file: string): (r: string)
    ensures !Contains(file, Extension) ==> r == file
    ensures Contains(file, Extension) ==> |r| + |Extension| == |file|
  {
    ReplaceFirst(file, Extension, "")
  }

  /** A file name without an earlier `.md` loses exactly its extension. */
  lemma SlugOfPostFile(base: string)
    requires !Contains(base, Extension)
    ensures Slug(base + Extension) == base
  {
    var s := base + Extension;
    OccursAfter(base, Extension, "");
    assert base + Extension + "" == s;
    forall k: nat | k < |base| ensures !OccursAt(s, Extension, k) {
      if k + |Extension| <= |base| {
        assert s[k..k + |Extension|] == base[k..k + |Extension|];
        assert !OccursAt(base, Extension, k);
      } else {
        // The window would reach into the extension, whose dot cannot stand for `m` or `d`.
        assert s[|base|] == '.';
        assert s[k..k + |Extension|][|base| - k] == '.';
      }
    }
    assert FindFrom(s, Extension, 0) == Some(|base|);
    assert s[..|base|] == base;
  }

  /** An earlier `.md` is the one removed: `x.mdy.md` gets the slug `xy.md`, so that post is not found again under its slug. */
  lemma SlugRemovesFirstOccurrence()
    ensures Slug("x.mdy.md") == "xy.md"
  {
    var s := "x.mdy.md";
    assert s[1..4] == Extension;
    assert s[0..3][0] == 'x' != Extension[0];
    assert FindFrom(s, Extension, 0) == Some(1);
    assert s[..1] + "" + s[4..] == "xy.md";
  }

  /** `{ slug, content, ...data }`: the front matter's own `slug` and `content`, when present, win. */
  function MakePost(slug: string, file: ParsedFile): (p: BlogPost)
    ensures p.slug == file.data.slug.GetOr(slug)
    ensures p.content == file.data.content.GetOr(file.content)
    ensures p.title == file.data.title && p.date == file.data.date && p.category == file.data.category
    ensures p.readTime == file.data.readTime && p.description == file.data.description
    ensures p.tags == file.data.tags && p.language == file.data.language
  {
    var d := file.data;
    BlogPost(d.slug.GetOr(slug), d.title, d.date, d.category, d.readTime, d.description, d.tags, d.content.GetOr(file.content), d.language)
  }

  predicate IsPostFile(file: string) {
    EndsWith(file, Extension)
  }

  /** The directory entries that become posts. */
  function PostFiles(files: seq<string>): (r: seq<string>)
    ensures forall f :: f in r <==> f in files && EndsWith(f, Extension)
    ensures Subsequence(r, files)
  {
    Filter(files, IsPostFile)
  }

  predicate AllReadable(files: seq<string>, read: string -> Option<ParsedFile>) {
    forall f :: f in files ==> read(f).Some?
  }

  /** One post per file, in directory order. */
  function Collect(files: seq<string>, read: string -> Option<ParsedFile>): (posts: seq<BlogPost>)
    requires AllReadable(files, read)
    ensures |posts| == |files|
    ensures forall i :: 0 <= i < |files| ==> posts[i] == MakePost(Slug(files[i]), read(files[i]).value)
  {
    seq(|files|, i requires 0 <= i < |files| => MakePost(Slug(files[i]), read(files[i]).value))
  }

  /** Newest first: the comparator `(a, b) => b.date - a.date` orders by the negated date. */
  function NewestFirst(p: BlogPost): int {
    -p.date
  }

  /** The comparator `(a, b) => b.date - a.date` itself. */
  function DateComparator(a: BlogPost, b: BlogPost): int {
    b.date - a.date
  }

  /** Sorting by `NewestFirst` is sorting with the comparator: it puts `a` first, keeps the pair, or puts `b` first exactly as the key does. */
  lemma NewestFirstAgreesWithComparator(a: BlogPost, b: BlogPost)
    ensures DateComparator(a, b) < 0 <==> NewestFirst(a) < NewestFirst(b)
    ensures DateComparator(a, b) == 0 <==> NewestFirst(a) == NewestFirst(b)
    ensures DateComparator(a, b) > 0 <==> NewestFirst(a) > NewestFirst(b)
  {
  }

  /**
   * `getAllPosts`: every `.md` file made into a post, newest first; nothing
   * when a file cannot be read or parsed, since that rejection is not caught.
   */
  function AllPosts(files: seq<string>, read: string -> Option<ParsedFile>): (r: Option<seq<BlogPost>>)
    ensures r.None? <==> exists f :: f in PostFiles(files) && read(f).None?
    ensures r.Some? ==> |r.value| == |PostFiles(files)|
    ensures r.Some? ==> forall i, j :: 0 <= i < j < |r.value| ==> r.value[i].date >= r.value[j].date
    ensures r.Some? ==> multiset(r.value) == multiset(Collect(PostFiles(files), read))
    ensures r.Some? ==> StableReorderingOf(r.value, Collect(PostFiles(files), read), NewestFirst)
  {
    var postFiles := PostFiles(files);
    if AllReadable(postFiles, read) then
      var posts := SortBy(Collect(postFiles, read), NewestFirst);
      assert |posts| == |multiset(posts)|;
      Some(posts)
    else None
  }

  /** `getPostBySlug`: the file `slug + ".md"`, made into a post; nothing when it cannot be read or parsed. */
  function PostBySlug(slug: string, read: string -> Option<ParsedFile>): (r: Option<BlogPost>)
    ensures r.None? <==> read(slug + Extension).None?
    ensures r.Some? ==> r.value == MakePost(slug, read(slug + Extension).value)
  {
    match read(slug + Extension)
    case None => None
    case Some(file) => Some(MakePost(slug, file))
  }

  /**
   * A listed post is found again under its slug when its file name holds no
   * earlier `.md` and its front matter does not set a slug of its own.
   */
  lemma ListedPostFoundBySlug(files: seq<string>, read: string -> Option<ParsedFile>, base: string)
    requires base + Extension in files && !Contains(base, Extension)
    requires AllPosts(files, read).Some?
    requires read(base + Extension).value.data.slug.None?
    ensures PostBySlug(base, read).Some?
    ensures PostBySlug(base, read).value in AllPosts(files, read).value
    ensures PostBySlug(base, read).value.slug == base
  {
    var f := base + Extension;
    var postFiles := PostFiles(files);
    assert EndsWith(f, Extension) by {
      assert f[|f| - |Extension|..] == Extension;
    }
    assert f in postFiles;
    var i :| 0 <= i < |postFiles| && postFiles[i] == f;
    SlugOfPostFile(base);
    var collected := Collect(postFiles, read);
    assert collected[i] == MakePost(base, read(f).value);
    assert collected[i] in multiset(collected);
  }

  /** `posts.map((post) => post.category)` */
  function CategoryOccurrences(posts: seq<BlogPost>): (cs: seq<string>)
    ensures |cs| == |posts|
    ensures forall i :: 0 <= i < |posts| ==> cs[i] == posts[i].category
  {
    seq(|posts|, i requires 0 <= i < |posts| => posts[i].category)
  }

  /** `Array.from(new Set(posts.map((post) => post.category)))`: the categories, each once. */
  function Categories(posts: seq<BlogPost>): (cs: seq<string>)
    ensures Distinct(cs)
    ensures forall c :: c in cs <==> exists p :: p in posts && p.category == c
  {
    var all := CategoryOccurrences(posts);
    assert forall c :: c in all <==> exists p :: p in posts && p.category == c by {
      forall c | c in all ensures exists p :: p in posts && p.category == c {
        var i :| 0 <= i < |all| && all[i] == c;
        assert posts[i] in posts;
      }
      forall c | exists p :: p in posts && p.category == c ensures c in all {
        var p :| p in posts && p.category == c;
        var i :| 0 <= i < |posts| && posts[i] == p;
        assert all[i] == c;
      }
    }
    Dedup(all)
  }

  /** A `Set` iterates in insertion order: categories come in the order of their first post. */
  lemma CategoriesInFirstAppearanceOrder(posts: seq<BlogPost>, i: nat, j: nat)
    requires i < j < |Categories(posts)|
    ensures IndexOf(CategoryOccurrences(posts), Categories(posts)[i]) < IndexOf(CategoryOccurrences(posts), Categories(posts)[j])
  {
    DedupFirstOccurrenceOrder(CategoryOccurrences(posts), i, j);
  }

  /** `posts.flatMap((post) => post.tags)` */
  function AllTagOccurrences(posts: seq<BlogPost>): (ts: seq<string>)
    ensures forall t :: t in ts <==> exists p :: p in posts && t in p.tags
  {
    if posts == [] then []
    else
      var rest := AllTagOccurrences(posts[1..]);
      assert forall p :: p in posts <==> p == posts[0] || p in posts[1..];
      posts[0].tags + rest
  }

  /** The tags of `posts`, each once, in order of first appearance in the flattened list. */
  function Tags(posts: seq<BlogPost>): (ts: seq<string>)
    ensures Distinct(ts)
    ensures forall t :: t in ts <==> exists p :: p in posts && t in p.tags
  {
    Dedup(AllTagOccurrences(posts))
  }

  /** Tags come in the order of their first occurrence in the flattened list. */
  lemma TagsInFirstAppearanceOrder(posts: seq<BlogPost>, i: nat, j: nat)
    requires i < j < |Tags(posts)|
    ensures IndexOf(AllTagOccurrences(posts), Tags(posts)[i]) < IndexOf(AllTagOccurrences(posts), Tags(posts)[j])
  {
    DedupFirstOccurrenceOrder(AllTagOccurrences(posts), i, j);
  }

  /** `getAllCategories` */
  function AllCategories(files: seq<string>, read: string -> Option<ParsedFile>): Option<seq<string>> {
    match AllPosts(files, read)
    case None => None
    case Some(posts) => Some(Categories(posts))
  }

  /** `getAllTags` */
  function AllTags(files: seq<string>, read: string -> Option<ParsedFile>): Option<seq<string>> {
    match AllPosts(files, read)
    case None => None
    case Some(posts) => Some(Tags(posts))
  }
}
