/**
 The project catalog view: the active category filter and view mode, and
 everything derived from the read-only, ordered catalog of projects (the
 filtered, featured and regular subsets, the category and tag lists, lookup
 by id and free-text search).
 */
module Projects {
  import opened Sequences
  import opened Text

  type ProjectId = int

  /** A catalog entry; display-only metadata (images, links, write-ups) is omitted. */
  datatype Project = Project(
    id: ProjectId,
    title: string,
    summary: string,
    category: string,
    tags: seq<string>,
    featured: bool)

  /** The filter value that stands for "every category". */
  const AllCategories: string := "all"

  /** The view mode a fresh view starts in. */
  const DefaultViewMode: string := "grid"

  /** No two catalog entries share an id. */
  ghost predicate UniqueIds(catalog: seq<Project>)
  {
    forall i, j :: 0 <= i < j < |catalog| ==> catalog[i].id != catalog[j].id
  }

  /** The test `project => project.category === category`. */
  function InCategory(category: string): (test: Project -> bool)
    ensures forall p :: test(p) <==> p.category == category
  {
    (p: Project) => p.category == category
  }

  /**
   The projects shown for a category filter: the whole catalog for the
   sentinel "all", otherwise the projects of exactly that category in catalog
   order. A category no project has gives the empty sequence.
   */
  function ProjectsByCategory(catalog: seq<Project>, category: string): (r: seq<Project>)
    ensures category == AllCategories ==> r == catalog
    ensures category != AllCategories ==> IsSubseq(r, catalog)
    ensures category != AllCategories ==>
      forall p :: p in r <==> p in catalog && p.category == category
    ensures category != AllCategories ==>
      forall p :: multiset(r)[p] == if p.category == category then multiset(catalog)[p] else 0
  {
    if category == AllCategories then catalog
    else
      FilterIsSubseq(catalog, InCategory(category));
      Filter(catalog, InCategory(category))
  }

  predicate IsFeatured(p: Project) { p.featured }

  predicate IsRegular(p: Project) { !p.featured }

  /** The featured projects among `projects`, in their order. */
  function FeaturedProjects(projects: seq<Project>): (r: seq<Project>)
    ensures IsSubseq(r, projects)
    ensures forall p :: p in r <==> p in projects && p.featured
    ensures forall p :: multiset(r)[p] == if p.featured then multiset(projects)[p] else 0
  {
    FilterIsSubseq(projects, IsFeatured);
    Filter(projects, IsFeatured)
  }

  /** The projects among `projects` that are not featured, in their order. */
  function RegularProjects(projects: seq<Project>): (r: seq<Project>)
    ensures IsSubseq(r, projects)
    ensures forall p :: p in r <==> p in projects && !p.featured
    ensures forall p :: multiset(r)[p] == if !p.featured then multiset(projects)[p] else 0
  {
    FilterIsSubseq(projects, IsRegular);
    Filter(projects, IsRegular)
  }

  /**
   Featured and regular projects split their input: every occurrence lands
   in exactly one of the two, so their sizes add up to the input's.
   */
  lemma FeaturedRegularPartition(projects: seq<Project>)
    ensures multiset(FeaturedProjects(projects)) + multiset(RegularProjects(projects)) == multiset(projects)
    ensures |FeaturedProjects(projects)| + |RegularProjects(projects)| == |projects|
    ensures forall p :: p in FeaturedProjects(projects) ==> p !in RegularProjects(projects)
  {
    FilterComplement(projects, IsFeatured, IsRegular);
  }

  /**
   Lookup by id: the first project carrying `id`, or nothing when no project
   does (a stale id is not an error).
   */
  function ProjectById(catalog: seq<Project>, id: ProjectId): (r: Option<Project>)
    ensures r.None? <==> forall p :: p in catalog ==> p.id != id
    ensures r.Some? ==> exists i :: 0 <= i < |catalog| && catalog[i] == r.value && r.value.id == id &&
                                   (forall j :: 0 <= j < i ==> catalog[j].id != id)
  {
    Find(catalog, (p: Project) => p.id == id)
  }

  /** In a catalog with unique ids, looking up a project's id finds that project. */
  lemma ProjectByIdFindsEntry(catalog: seq<Project>, k: nat)
    requires UniqueIds(catalog)
    requires k < |catalog|
    ensures ProjectById(catalog, catalog[k].id) == Some(catalog[k])
  {
    var r := ProjectById(catalog, catalog[k].id);
    var i :| 0 <= i < |catalog| && catalog[i] == r.value && r.value.id == catalog[k].id &&
             (forall j :: 0 <= j < i ==> catalog[j].id != catalog[k].id);
    assert i == k;
  }

  /** `projects.map(project => project.category)`. */
  function CategoryList(catalog: seq<Project>): (r: seq<string>)
    ensures |r| == |catalog|
    ensures forall i :: 0 <= i < |catalog| ==> r[i] == catalog[i].category
    ensures forall c :: c in r <==> exists p :: p in catalog && p.category == c
  {
    seq(|catalog|, i requires 0 <= i < |catalog| => catalog[i].category)
  }

  /**
   The filter choices: the sentinel "all", then each category of the catalog
   once.
   */
  function Categories(catalog: seq<Project>): (r: seq<string>)
    ensures |r| >= 1 && r[0] == AllCategories
    ensures NoDuplicates(r[1..])
    ensures forall c :: c in r[1..] <==> exists p :: p in catalog && p.category == c
  {
    var names := CategoryList(catalog);
    assert forall p :: p in catalog ==> p.category in names;
    [AllCategories] + Dedup(names)
  }

  /** The categories after "all" are listed in the order of their first use in the catalog. */
  lemma CategoriesInFirstUseOrder(catalog: seq<Project>)
    ensures forall i, j :: 1 <= i < j < |Categories(catalog)| ==>
      FirstIndex(CategoryList(catalog), Categories(catalog)[i]) <
      FirstIndex(CategoryList(catalog), Categories(catalog)[j])
  {
    var names := CategoryList(catalog);
    DedupFirstOccurrenceOrder(names);
    assert Categories(catalog)[1..] == Dedup(names);
  }

  /** `projects.flatMap(project => project.tags)`: every tag of every project, in catalog order. */
  function TagList(catalog: seq<Project>): (r: seq<string>)
    ensures forall t :: t in r <==> exists p :: p in catalog && t in p.tags
  {
    if catalog == [] then []
    else
      assert forall p :: p in catalog ==> p == catalog[0] || p in catalog[1..];
      catalog[0].tags + TagList(catalog[1..])
  }

  /** Every tag used in the catalog, once each. */
  function AllTags(catalog: seq<Project>): (r: seq<string>)
    ensures NoDuplicates(r)
    ensures forall t :: t in r <==> exists p :: p in catalog && t in p.tags
  {
    Dedup(TagList(catalog))
  }

  /** The tags are listed in the order of their first use in the catalog. */
  lemma AllTagsInFirstUseOrder(catalog: seq<Project>)
    ensures forall i, j :: 0 <= i < j < |AllTags(catalog)| ==>
      FirstIndex(TagList(catalog), AllTags(catalog)[i]) <
      FirstIndex(TagList(catalog), AllTags(catalog)[j])
  {
    DedupFirstOccurrenceOrder(TagList(catalog));
  }

  /**
   What the search looks for: `term` inside the lower-cased title, summary,
   one of the tags, or category.
   */
  ghost predicate Mentions(p: Project, term: string)
  {
    || IsSubstring(term, ToLower(p.title))
    || IsSubstring(term, ToLower(p.summary))
    || (exists t :: t in p.tags && IsSubstring(term, ToLower(t)))
    || IsSubstring(term, ToLower(p.category))
  }

  /** The per-project search test, with `includes`. */
  function MatchesTerm(p: Project, term: string): (b: bool)
    ensures b <==> Mentions(p, term)
  {
    || Includes(ToLower(p.title), term)
    || Includes(ToLower(p.summary), term)
    || (exists t :: t in p.tags && Includes(ToLower(t), term))
    || Includes(ToLower(p.category), term)
  }

  /** The search term a query stands for: lower-cased, then trimmed. */
  function SearchTerm(query: string): (term: string)
    ensures term == [] <==> Trim(query) == []
    ensures forall k :: 0 <= k < |term| ==> !IsUpper(term[k])
    ensures term != [] ==> !IsWhitespace(term[0]) && !IsWhitespace(term[|term| - 1])
  {
    var lower := ToLower(query);
    var term := Trim(lower);
    TrimToLowerEmpty(query);
    TrimKeepsLowerCase(lower);
    term
  }

  /**
   Free-text search. A query that is empty or all whitespace returns the
   whole catalog; any other query returns, in catalog order, the projects
   that mention the lower-cased, trimmed query.
   */
  function SearchProjects(catalog: seq<Project>, query: string): (r: seq<Project>)
    ensures Trim(query) == [] ==> r == catalog
    ensures Trim(query) != [] ==> IsSubseq(r, catalog)
    ensures Trim(query) != [] ==>
      forall p :: p in r <==> p in catalog && Mentions(p, SearchTerm(query))
    ensures Trim(query) != [] ==>
      forall p :: multiset(r)[p] == if Mentions(p, SearchTerm(query)) then multiset(catalog)[p] else 0
  {
    if Trim(query) == [] then catalog
    else
      var term := SearchTerm(query);
      var matches := (p: Project) => MatchesTerm(p, term);
      FilterIsSubseq(catalog, matches);
      Filter(catalog, matches)
  }

  /** The search ignores the case of the query. */
  lemma SearchIgnoresQueryCase(catalog: seq<Project>, query: string)
    ensures SearchProjects(catalog, ToLower(query)) == SearchProjects(catalog, query)
  {
    TrimToLowerEmpty(query);
    ToLowerIdempotent(query);
    if Trim(query) != [] {
      assert SearchTerm(ToLower(query)) == SearchTerm(query);
    }
  }

  /**
   A worked case: with projects 1 (category A, featured), 2 (B, regular) and
   3 (A, regular), the filter A shows 1 and 3, of which 1 is featured and 3
   regular.
   */
  lemma ThreeProjectExample(p1: Project, p2: Project, p3: Project)
    requires p1.id == 1 && p1.category == "A" && p1.featured
    requires p2.id == 2 && p2.category == "B" && !p2.featured
    requires p3.id == 3 && p3.category == "A" && !p3.featured
    ensures ProjectsByCategory([p1, p2, p3], "A") == [p1, p3]
    ensures FeaturedProjects([p1, p3]) == [p1]
    ensures RegularProjects([p1, p3]) == [p3]
  {
    var catalog := [p1, p2, p3];
    assert catalog[1..] == [p2, p3] && [p2, p3][1..] == [p3] && [p3][1..] == [];
    assert Filter([p3], InCategory("A")) == [p3];
    assert Filter([p2, p3], InCategory("A")) == [p3];
    assert [p1, p3][1..] == [p3];
    assert Filter([p3], IsFeatured) == [];
    assert Filter([p3], IsRegular) == [p3];
  }

  /** In the same catalog, id 999 finds nothing. */
  lemma LookupExample(p1: Project, p2: Project, p3: Project)
    requires p1.id == 1 && p2.id == 2 && p3.id == 3
    ensures ProjectById([p1, p2, p3], 999) == None
  {
  }

  /**
   The view's state cells, `filter` and `viewMode`, over a fixed catalog, with
   the subsets and counts derived from them.
   */
  class ProjectsView {
    const catalog: seq<Project>
    var filter: string
    var viewMode: string

    constructor (catalog: seq<Project>)
      ensures this.catalog == catalog
      ensures filter == AllCategories && viewMode == DefaultViewMode
      ensures FilteredProjects() == catalog
    {
      this.catalog := catalog;
      filter := AllCategories;
      viewMode := DefaultViewMode;
    }

    /** The projects of the active category, or all of them. */
    function FilteredProjects(): (r: seq<Project>)
      reads this
      ensures filter == AllCategories ==> r == catalog
      ensures IsSubseq(r, catalog)
      ensures forall p :: p in r <==> p in catalog && (filter == AllCategories || p.category == filter)
    {
      IsSubseqRefl(catalog);
      ProjectsByCategory(catalog, filter)
    }

    /** The featured projects among the filtered ones. */
    function Featured(): (r: seq<Project>)
      reads this
      ensures IsSubseq(r, FilteredProjects())
      ensures forall p :: p in r <==> p in FilteredProjects() && p.featured
    {
      FeaturedProjects(FilteredProjects())
    }

    /** The projects among the filtered ones that are not featured. */
    function Regular(): (r: seq<Project>)
      reads this
      ensures IsSubseq(r, FilteredProjects())
      ensures forall p :: p in r <==> p in FilteredProjects() && !p.featured
    {
      RegularProjects(FilteredProjects())
    }

    /** The size of the whole catalog, whatever the filter. */
    function TotalProjects(): (n: nat)
      reads this
      ensures n == |catalog|
      ensures filter == AllCategories ==> n == |FilteredProjects()|
    {
      |catalog|
    }

    /** The number of filtered projects; never more than the catalog holds. */
    function FilteredCount(): (n: nat)
      reads this
      ensures n == |FilteredProjects()| <= TotalProjects()
      ensures filter == AllCategories ==> n == TotalProjects()
    {
      var f := FilteredProjects();
      assert filter != AllCategories ==> |f| == |multiset(f)| <= |multiset(catalog)| by {
        if filter != AllCategories {
          assert multiset(f) <= multiset(catalog);
        }
      }
      |f|
    }

    /** The number of featured projects; with the regular ones they make up the filtered count. */
    function FeaturedCount(): (n: nat)
      reads this
      ensures n == |Featured()|
      ensures n + |Regular()| == FilteredCount()
    {
      FeaturedRegularPartition(FilteredProjects());
      |Featured()|
    }

    /** Choosing a category (any string is accepted) re-derives the subsets from it. */
    method SetFilter(category: string)
      modifies this
      ensures filter == category && viewMode == old(viewMode)
      ensures FilteredProjects() == ProjectsByCategory(catalog, category)
    {
      filter := category;
    }

    /** The view mode is presentation only: no derived subset changes. */
    method SetViewMode(mode: string)
      modifies this
      ensures viewMode == mode && filter == old(filter)
      ensures FilteredProjects() == old(FilteredProjects())
      ensures Featured() == old(Featured()) && Regular() == old(Regular())
    {
      viewMode := mode;
    }
  }
}
