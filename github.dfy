/**
 * The repository service of `src/services/github.ts`: default-branch
 * resolution, the README fetch with its branch fallback, and the showcase
 * list built from every repository's README metadata.
 *
 * The network is a parameter. The repository API answer for one repository
 * is a `RepoInfo`; the raw-content server is a function from a branch name
 * to a `Response`; the listing of a user's repositories is a `Listing`.
 */
module GitHub {
  import opened Wrappers
  import opened Seqs
  import opened StableSort
  import opened FrontMatter
  import opened Cache

  // ---------------------------------------------------------------------------
  // getDefaultBranch

  /** The answer to `GET /repos/{user}/{repo}`: the request or its JSON failed, or a body that may carry `default_branch`. */
  datatype RepoInfo = InfoFailed | Info(defaultBranch: Option<string>)

  const FallbackBranch: string := "main"

  /** `repoInfo.default_branch || "main"`, and `"main"` when the request throws. */
  function DefaultBranch(info: RepoInfo): (b: string)
    ensures b != ""
    ensures info.Info? && info.defaultBranch.Some? && info.defaultBranch.value != "" ==> b == info.defaultBranch.value
    ensures !(info.Info? && info.defaultBranch.Some? && info.defaultBranch.value != "") ==> b == FallbackBranch
  {
    match info
    case Info(Some(b)) => if b != "" then b else FallbackBranch
    case _ => FallbackBranch
  }

  // ---------------------------------------------------------------------------
  // The README fetch with branch fallback

  /** A fetch of `README.md` on one branch: ok with its text, a non-ok status, or a rejected promise. */
  datatype Response = Ok(text: string) | NotOk | Throws

  /** The branches tried, in order, after the default branch fails. */
  const Branches: seq<string> := ["master", "main", "develop"]

  /** The order in which branches are fetched: the default branch, then the others of `branches`. */
  function FallbackOrder(defaultBranch: string, branches: seq<string>): seq<string> {
    [defaultBranch] + Filter(branches, Other(defaultBranch))
  }

  /** The default branch comes first, no branch is fetched twice, and at most four fetches happen. */
  lemma FallbackOrderShape(defaultBranch: string)
    ensures var order := FallbackOrder(defaultBranch, Branches);
      order[0] == defaultBranch
      && (forall b :: b in order <==> b == defaultBranch || b in Branches)
      && Distinct(order)
      && |order| <= 4
  {
    var rest := Filter(Branches, Other(defaultBranch));
    BranchesDistinct();
    FilterDistinct(Branches, Other(defaultBranch));
    assert defaultBranch !in rest;
    DistinctCons(defaultBranch, rest);
  }

  /** The branches the loop does not skip: `if (branch === defaultBranch) continue`. */
  function Other(defaultBranch: string): string -> bool {
    b => b != defaultBranch
  }

  lemma BranchesDistinct()
    ensures Distinct(Branches)
  {
    assert Branches[0] != Branches[1] && Branches[0] != Branches[2] && Branches[1] != Branches[2];
  }

  /** The text of the first ok response in `order`; a rejection ends the search with nothing. */
  function Readme(order: seq<string>, fetch: string -> Response): (r: Option<string>)
    ensures r.Some? ==> exists i :: 0 <= i < |order| && fetch(order[i]) == Ok(r.value) && AllNotOk(order, i, fetch)
    ensures r.None? ==> forall i :: 0 <= i < |order| && AllNotOk(order, i, fetch) ==> !fetch(order[i]).Ok?
  {
    if order == [] then None
    else match fetch(order[0])
      case Ok(t) => Some(t)
      case Throws => None
      case NotOk =>
        var r := Readme(order[1..], fetch);
        ReadmeShift(order, fetch, r);
        r
  }

  /** Every branch before position `i` answered with a non-ok status. */
  ghost predicate AllNotOk(order: seq<string>, i: int, fetch: string -> Response)
    requires 0 <= i <= |order|
  {
    forall j :: 0 <= j < i ==> fetch(order[j]) == NotOk
  }

  lemma ReadmeShift(order: seq<string>, fetch: string -> Response, r: Option<string>)
    requires order != [] && fetch(order[0]) == NotOk
    requires r.Some? ==> exists i :: 0 <= i < |order[1..]| && fetch(order[1..][i]) == Ok(r.value) && AllNotOk(order[1..], i, fetch)
    requires r.None? ==> forall i :: 0 <= i < |order[1..]| && AllNotOk(order[1..], i, fetch) ==> !fetch(order[1..][i]).Ok?
    ensures r.Some? ==> exists i :: 0 <= i < |order| && fetch(order[i]) == Ok(r.value) && AllNotOk(order, i, fetch)
    ensures r.None? ==> forall i :: 0 <= i < |order| && AllNotOk(order, i, fetch) ==> !fetch(order[i]).Ok?
  {
    if r.Some? {
      var i :| 0 <= i < |order[1..]| && fetch(order[1..][i]) == Ok(r.value) && AllNotOk(order[1..], i, fetch);
      assert fetch(order[i + 1]) == Ok(r.value);
      assert AllNotOk(order, i + 1, fetch) by {
        forall j | 0 <= j < i + 1 ensures fetch(order[j]) == NotOk {
          if j > 0 {
            assert order[j] == order[1..][j - 1];
          }
        }
      }
    } else {
      forall i | 0 <= i < |order| && AllNotOk(order, i, fetch) ensures !fetch(order[i]).Ok? {
        if i > 0 {
          assert order[i] == order[1..][i - 1];
          assert AllNotOk(order[1..], i - 1, fetch) by {
            forall j | 0 <= j < i - 1 ensures fetch(order[1..][j]) == NotOk {
              assert order[1..][j] == order[j + 1];
            }
          }
        }
      }
    }
  }

  /** The metadata of one repository: its README on the first branch that serves one, through the extractor. */
  function RepositoryMetadata(info: RepoInfo, fetch: string -> Response): (m: Option<ProjectMetadata>)
    ensures var readme := Readme(FallbackOrder(DefaultBranch(info), Branches), fetch);
      (m.Some? <==> readme.Some? && HasBlock(readme.value))
      && (m.Some? ==> m.value == Parse(Block(readme.value).value))
  {
    match Readme(FallbackOrder(DefaultBranch(info), Branches), fetch)
    case None => None
    case Some(text) => Extract(text)
  }

  /** Once a branch answers with anything but a non-ok status, the search result is decided by that answer. */
  lemma {:induction false} ReadmeDecidedAt(order: seq<string>, fetch: string -> Response, k: nat)
    requires k <= |order| && AllNotOk(order, k, fetch)
    requires k < |order| ==> fetch(order[k]) != NotOk
    ensures Readme(order, fetch) == if k < |order| && fetch(order[k]).Ok? then Some(fetch(order[k]).text) else None
  {
    if k > 0 {
      assert fetch(order[0]) == NotOk;
      assert AllNotOk(order[1..], k - 1, fetch) by {
        forall j | 0 <= j < k - 1 ensures fetch(order[1..][j]) == NotOk {
          assert order[1..][j] == order[j + 1];
        }
      }
      ReadmeDecidedAt(order[1..], fetch, k - 1);
      if k < |order| {
        assert order[1..][k - 1] == order[k];
      }
    }
  }

  /** A search that fetched the branches of `tried`, all non-ok but the last, had its result decided by the last one. */
  lemma ReadmeOfTried(order: seq<string>, tried: seq<string>, fetch: string -> Response)
    requires tried != [] && tried <= order
    requires forall j :: 0 <= j < |tried| - 1 ==> fetch(tried[j]) == NotOk
    requires fetch(tried[|tried| - 1]) == NotOk ==> tried == order
    ensures var last := fetch(tried[|tried| - 1]);
      Readme(order, fetch) == if last.Ok? then Some(last.text) else None
  {
    var k := |tried| - 1;
    assert AllNotOk(order, k, fetch) by {
      forall j | 0 <= j < k ensures fetch(order[j]) == NotOk {
        assert order[j] == tried[j];
      }
    }
    assert order[k] == tried[k];
    if fetch(tried[k]) == NotOk {
      ReadmeDecidedAt(order, fetch, |tried|);
    } else {
      ReadmeDecidedAt(order, fetch, k);
    }
  }

  /** The branches of `bs` still to be fetched when the default one has already been tried. */
  ghost function Pending(defaultBranch: string, bs: seq<string>): seq<string> {
    if bs == [] then []
    else (if bs[0] == defaultBranch then [] else [bs[0]]) + Pending(defaultBranch, bs[1..])
  }

  lemma {:induction false} PendingIsFilter(defaultBranch: string, bs: seq<string>)
    ensures Pending(defaultBranch, bs) == Filter(bs, Other(defaultBranch))
  {
    if bs != [] {
      PendingIsFilter(defaultBranch, bs[1..]);
    }
  }

  lemma PendingStep(defaultBranch: string, bs: seq<string>, i: nat)
    requires i < |bs|
    ensures Pending(defaultBranch, bs[i..]) == (if bs[i] == defaultBranch then [] else [bs[i]]) + Pending(defaultBranch, bs[i + 1..])
  {
    assert bs[i..][1..] == bs[i + 1..];
  }

  /**
   * The `for` loop over `branches` after the default branch answered with a
   * non-ok status: skip the default, fetch each other branch, and stop at the
   * first answer that is not a non-ok status. `tried` lists the branches
   * fetched, in order, and `response` is the last answer.
   */
  method TryBranches(defaultBranch: string, branches: seq<string>, fetch: string -> Response) returns (response: Response, tried: seq<string>)
    ensures tried <= Pending(defaultBranch, branches)
    ensures forall j :: 0 <= j < |tried| - 1 ==> fetch(tried[j]) == NotOk
    ensures tried == [] ==> response == NotOk
    ensures tried != [] ==> response == fetch(tried[|tried| - 1])
    ensures response == NotOk ==> tried == Pending(defaultBranch, branches)
  {
    response := NotOk;
    tried := [];
    var i := 0;
    assert branches[i..] == branches;
    while i < |branches|
      invariant 0 <= i <= |branches|
      invariant tried + Pending(defaultBranch, branches[i..]) == Pending(defaultBranch, branches)
      invariant forall j :: 0 <= j < |tried| ==> fetch(tried[j]) == NotOk
      invariant response == NotOk
    {
      var branch := branches[i];
      ghost var rest := Pending(defaultBranch, branches[i + 1..]);
      PendingStep(defaultBranch, branches, i);
      if branch == defaultBranch {
        i := i + 1;
        continue;
      }
      response := fetch(branch);
      assert (tried + [branch]) + rest == tried + ([branch] + rest);
      tried := tried + [branch];
      if !response.NotOk? {
        break;
      }
      i := i + 1;
    }
  }

  /**
   * The fetch part of `getRepositoryMetadata`: fetch the README on the default
   * branch and, if that is not ok, on each of `branches` other than the default
   * until one is ok. A rejected fetch ends the search. `tried` is the list of
   * branches fetched, in order.
   */
  method FetchReadme(defaultBranch: string, branches: seq<string>, fetch: string -> Response) returns (text: Option<string>, tried: seq<string>)
    ensures tried != [] && tried <= FallbackOrder(defaultBranch, branches)
    ensures forall i :: 0 <= i < |tried| - 1 ==> fetch(tried[i]) == NotOk
    ensures |tried| < |FallbackOrder(defaultBranch, branches)| ==> fetch(tried[|tried| - 1]) != NotOk
    ensures text == Readme(FallbackOrder(defaultBranch, branches), fetch)
  {
    var response := fetch(defaultBranch);
    tried := [defaultBranch];
    if response.NotOk? {
      var others;
      response, others := TryBranches(defaultBranch, branches, fetch);
      tried := tried + others;
    }
    PendingIsFilter(defaultBranch, branches);
    ReadmeOfTried(FallbackOrder(defaultBranch, branches), tried, fetch);
    text := if response.Ok? then Some(response.text) else None;
  }

  // ---------------------------------------------------------------------------
  // getProjects and getFeaturedProjects

  datatype Repository = Repository(
    name: string,
    description: string,
    htmlUrl: string,
    homepage: Option<string>,
    topics: Option<seq<string>>,
    metadata: Option<ProjectMetadata>)

  /** The answer to `GET /users/{user}/repos`: an array of repositories, or a failure (a rejected request, or a body `map` cannot be called on). */
  datatype Listing = ListingFailed | Listing(repos: seq<Repository>)

  /** `getRepositoryMetadata(repo.name)` for every repository, each one with its own answers from the network. */
  function MetadataOf(infoOf: string -> RepoInfo, readmeOf: string -> string -> Response): string -> Option<ProjectMetadata> {
    name => RepositoryMetadata(infoOf(name), readmeOf(name))
  }

  /** `{ ...repo, metadata }` for every repository: the metadata field is replaced and nothing else changes. */
  function WithMetadata(repos: seq<Repository>, metadataOf: string -> Option<ProjectMetadata>): (r: seq<Repository>)
    ensures |r| == |repos|
    ensures forall i :: 0 <= i < |r| ==> r[i] == repos[i].(metadata := metadataOf(repos[i].name))
  {
    seq(|repos|, i requires 0 <= i < |repos| => repos[i].(metadata := metadataOf(repos[i].name)))
  }

  /** `repo.metadata && repo.metadata.showcase` */
  predicate IsShowcase(r: Repository) {
    r.metadata.Some? && r.metadata.value.showcase
  }

  /** The sort key `a.metadata?.order || 0`. */
  function SortOrder(r: Repository): int {
    if r.metadata.Some? then r.metadata.value.order else 0
  }

  /** The showcase repositories with their metadata, in listing order. */
  function Showcase(listing: Listing, metadataOf: string -> Option<ProjectMetadata>): seq<Repository>
    requires listing.Listing?
  {
    Filter(WithMetadata(listing.repos, metadataOf), IsShowcase)
  }

  /**
   * The value `getProjects` computes: the showcase repositories sorted by
   * `order`, with ties in listing order; nothing when the listing fails.
   */
  function Projects(listing: Listing, metadataOf: string -> Option<ProjectMetadata>): (ps: seq<Repository>)
    ensures listing.ListingFailed? ==> ps == []
    ensures listing.Listing? ==> forall p :: p in ps <==> p in WithMetadata(listing.repos, metadataOf) && IsShowcase(p)
    ensures listing.Listing? ==> multiset(ps) == multiset(Showcase(listing, metadataOf))
    ensures SortedBy(ps, SortOrder)
    ensures listing.Listing? ==> StableReorderingOf(ps, Showcase(listing, metadataOf), SortOrder)
  {
    match listing
    case ListingFailed => []
    case Listing(_) =>
      var showcase := Showcase(listing, metadataOf);
      var ps := SortBy(showcase, SortOrder);
      assert forall p :: p in ps <==> p in multiset(ps);
      assert forall p :: p in showcase <==> p in multiset(showcase);
      ps
  }

  /** Whatever stable sort the engine uses, the result is this list. */
  lemma ProjectsIndependentOfSortAlgorithm(listing: Listing, metadataOf: string -> Option<ProjectMetadata>, r: seq<Repository>)
    requires listing.Listing?
    requires SortedBy(r, SortOrder) && StableReorderingOf(r, Showcase(listing, metadataOf), SortOrder)
    ensures r == Projects(listing, metadataOf)
  {
    SortedStableUnique(r, Showcase(listing, metadataOf), SortOrder);
  }

  /** `project.metadata?.order && project.metadata.order <= 3` */
  predicate IsFeatured(p: Repository) {
    p.metadata.Some? && p.metadata.value.order != 0 && p.metadata.value.order <= 3
  }

  /** The value `getFeaturedProjects` computes from the project list. */
  function FeaturedProjects(projects: seq<Repository>): (fs: seq<Repository>)
    ensures forall p :: p in fs <==> p in projects && p.metadata.Some? && 1 <= p.metadata.value.order <= 3
    ensures Subsequence(fs, projects)
  {
    Filter(projects, IsFeatured)
  }

  /** Featured projects are showcase projects ranked 1 to 3, in rank order. */
  lemma FeaturedAreTopShowcase(listing: Listing, metadataOf: string -> Option<ProjectMetadata>)
    ensures var fs := FeaturedProjects(Projects(listing, metadataOf));
      SortedBy(fs, SortOrder) && forall p :: p in fs ==> IsShowcase(p) && 1 <= SortOrder(p) <= 3
  {
    FilterSorted(Projects(listing, metadataOf), IsFeatured, SortOrder);
  }

  const ProjectsKey: string := "projects"

  /**
   * `getProjects`: the project list through the cache. The producer catches
   * every failure, so it always yields a value.
   */
  method GetProjects(cache: TtlCache<seq<Repository>>, listing: Listing, infoOf: string -> RepoInfo, readmeOf: string -> string -> Response, now: int)
    returns (projects: seq<Repository>)
    modifies cache
    ensures var computed := Projects(listing, MetadataOf(infoOf, readmeOf));
      var s := CacheStep(old(cache.entries), ProjectsKey, Value(computed), now, DefaultTtl);
      cache.entries == s.entries
      && (IsHit(old(cache.entries), ProjectsKey, now, DefaultTtl) ==> projects == old(cache.entries)[ProjectsKey].data)
      && (!IsHit(old(cache.entries), ProjectsKey, now, DefaultTtl) ==> projects == computed)
  {
    var r, _ := cache.GetCachedData(ProjectsKey, Value(Projects(listing, MetadataOf(infoOf, readmeOf))), now);
    projects := r.value;
  }

  /** `getFeaturedProjects`. */
  method GetFeaturedProjects(cache: TtlCache<seq<Repository>>, listing: Listing, infoOf: string -> RepoInfo, readmeOf: string -> string -> Response, now: int)
    returns (featured: seq<Repository>)
    modifies cache
    ensures !IsHit(old(cache.entries), ProjectsKey, now, DefaultTtl) ==>
      featured == FeaturedProjects(Projects(listing, MetadataOf(infoOf, readmeOf)))
    ensures IsHit(old(cache.entries), ProjectsKey, now, DefaultTtl) ==>
      featured == FeaturedProjects(old(cache.entries)[ProjectsKey].data)
    ensures cache.entries == CacheStep(old(cache.entries), ProjectsKey, Value(Projects(listing, MetadataOf(infoOf, readmeOf))), now, DefaultTtl).entries
  {
    var projects := GetProjects(cache, listing, infoOf, readmeOf, now);
    featured := FeaturedProjects(projects);
  }
}
