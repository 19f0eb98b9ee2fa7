/**
 * The page-to-page arrows of `src/app/components/NavigationButtons.tsx`:
 * the four top-level pages form a cycle, and a path outside it is treated
 * as if it came just before the first page.
 */
module Navigation {
  import opened Seqs

  /** The label shown under each arrow. */
  const Pages: map<string, string> := map["/" := "Home", "/projects" := "Projects", "/blog" := "Blog", "/contact" := "Contact"]

  const PageOrder: seq<string> := ["/", "/projects", "/blog", "/contact"]

  /** `getNextPage`: the page after the current one, wrapping round; the first page for an unknown path. */
  function NextPage(currentPath: string): (next: string)
    ensures next in PageOrder && next in Pages
    ensures currentPath !in PageOrder ==> next == PageOrder[0]
    ensures currentPath in PageOrder ==> next == PageOrder[(IndexOf(PageOrder, currentPath) + 1) % |PageOrder|]
  {
    var currentIndex := IndexOf(PageOrder, currentPath);
    OrderedPagesHaveLabels();
    assert currentIndex < |PageOrder| - 1 ==> (currentIndex + 1) % |PageOrder| == currentIndex + 1;
    if currentIndex < |PageOrder| - 1 then PageOrder[currentIndex + 1] else PageOrder[0]
  }

  /** `getPreviousPage`: the page before the current one, wrapping round; the last page for an unknown path. */
  function PreviousPage(currentPath: string): (prev: string)
    ensures prev in PageOrder && prev in Pages
    ensures currentPath !in PageOrder ==> prev == PageOrder[|PageOrder| - 1]
    ensures currentPath in PageOrder ==> prev == PageOrder[(IndexOf(PageOrder, currentPath) + |PageOrder| - 1) % |PageOrder|]
  {
    var currentIndex := IndexOf(PageOrder, currentPath);
    OrderedPagesHaveLabels();
    assert currentIndex > 0 ==> (currentIndex + |PageOrder| - 1) % |PageOrder| == currentIndex - 1;
    if currentIndex > 0 then PageOrder[currentIndex - 1] else PageOrder[|PageOrder| - 1]
  }

  lemma OrderedPagesHaveLabels()
    ensures forall p :: p in PageOrder ==> p in Pages
  {
  }

  lemma PageOrderDistinct()
    ensures Distinct(PageOrder)
  {
  }

  /** Each page's position in the order is where it stands. */
  lemma IndexOfPage(i: nat)
    requires i < |PageOrder|
    ensures IndexOf(PageOrder, PageOrder[i]) == i
  {
    PageOrderDistinct();
  }

  /** The arrows on each page. */
  lemma ArrowTable()
    ensures NextPage("/") == "/projects" && PreviousPage("/") == "/contact"
    ensures NextPage("/projects") == "/blog" && PreviousPage("/projects") == "/"
    ensures NextPage("/blog") == "/contact" && PreviousPage("/blog") == "/projects"
    ensures NextPage("/contact") == "/" && PreviousPage("/contact") == "/blog"
  {
    IndexOfPage(0);
    IndexOfPage(1);
    IndexOfPage(2);
    IndexOfPage(3);
  }

  /** The two arrows undo each other on every page. */
  lemma ArrowsAreInverse(p: string)
    requires p in PageOrder
    ensures PreviousPage(NextPage(p)) == p
    ensures NextPage(PreviousPage(p)) == p
  {
    ArrowTable();
    if p == "/" {
    } else if p == "/projects" {
    } else if p == "/blog" {
    } else {
      assert p == "/contact";
    }
  }

  /** Four steps forward come back to the page. */
  lemma NextCycles(p: string)
    requires p in PageOrder
    ensures NextPage(NextPage(NextPage(NextPage(p)))) == p
  {
    ArrowTable();
    if p == "/" {
    } else if p == "/projects" {
    } else if p == "/blog" {
    } else {
      assert p == "/contact";
    }
  }

  /** No arrow points at the page it is on. */
  lemma NeverToSelf(p: string)
    ensures NextPage(p) != p && PreviousPage(p) != p
  {
    ArrowTable();
  }
}
