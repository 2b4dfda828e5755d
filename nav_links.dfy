/**
 * The desktop navigation (components/NavLinks.tsx): the route table and the rule
 * that decides which links are highlighted for the current pathname.
 */
module NavLinks {
  import opened Wrappers
  import opened Strings
  import opened Sequences

  datatype Route = Route(text: string, path: string)

  const Root := "/"

  const Routes: seq<Route> := [
    Route("Home", "/"),
    Route("Blogs", "/blogs"),
    Route("Snippets", "/snippets"),
    Route("About", "/about")
  ]

  /**
   * `isActive(path)`: the root route is active only on the root itself; any
   * other route is active when its path occurs anywhere in the pathname. The
   * pathname may be null (`None`), and then `pathname?.includes` is undefined.
   */
  predicate IsActive(pathname: Option<string>, path: string)
    ensures IsActive(pathname, path) <==>
      pathname.Some? &&
      if path == Root then pathname.value == Root else exists i :: OccursAt(pathname.value, path, i)
  {
    match pathname
    case None => false
    case Some(name) =>
      ContainsIff(name, path);
      if path == Root then name == path else Contains(name, path)
  }

  /** The four links in display order, each path absolute and only Home at the root. */
  lemma RoutesTable()
    ensures |Routes| == 4
    ensures Routes[0] == Route("Home", Root) && Routes[1] == Route("Blogs", "/blogs")
    ensures Routes[2] == Route("Snippets", "/snippets") && Routes[3] == Route("About", "/about")
    ensures forall k :: 0 <= k < |Routes| ==> StartsWith(Routes[k].path, Root)
    ensures forall k :: 0 < k < |Routes| ==> Routes[k].path != Root
  {
  }

  function ActiveRoutes(pathname: Option<string>): seq<Route>
  {
    Filter(Routes, (r: Route) => IsActive(pathname, r.path))
  }

  lemma RootActiveIffExact(pathname: Option<string>)
    ensures IsActive(pathname, Root) <==> pathname == Some(Root)
  {
  }

  lemma NullPathnameInactive(path: string)
    ensures !IsActive(None, path)
  {
  }

  /** A nested page keeps its section highlighted. */
  lemma SectionActiveOnSubpage()
    ensures IsActive(Some("/blogs/x"), "/blogs")
    ensures !IsActive(Some("/blogs/x"), Root)
  {
    assert StartsWith("/blogs/x", "/blogs");
  }

  lemma AboutMeMatches()
    ensures IsActive(Some("/blogs/about-me"), "/blogs")
    ensures IsActive(Some("/blogs/about-me"), "/about")
    ensures !IsActive(Some("/blogs/about-me"), "/snippets")
    ensures !IsActive(Some("/blogs/about-me"), Root)
  {
    var p := "/blogs/about-me";
    assert StartsWith(p, "/blogs");
    assert OccursAt(p, "/about", 6);
    ContainsIff(p, "/about");
    if Contains(p, "/snippets") {
      ContainsChars(p, "/snippets", 'n');
      assert false;
    }
  }

  /** The routes a pattern of matches selects from the table, in table order. */
  lemma SelectBlogsAndAbout(f: Route -> bool)
    requires !f(Routes[0]) && f(Routes[1]) && !f(Routes[2]) && f(Routes[3])
    ensures Filter(Routes, f) == [Routes[1], Routes[3]]
  {
    var home, blogs, snippets, about := Routes[0], Routes[1], Routes[2], Routes[3];
    calc {
      Filter(Routes, f);
      { assert Routes == [home, blogs] + [snippets] + [about];
        FilterAround([home, blogs], snippets, [about], f); }
      Filter([home, blogs], f) + Filter([about], f);
      { assert [home, blogs] == [home] + [blogs] + [];
        FilterAround([home], blogs, [], f);
        FilterSingleton(home, f);
        FilterSingleton(about, f); }
      [blogs, about];
    }
  }

  /** Substring matching can highlight two routes at once. */
  lemma TwoRoutesActive()
    ensures ActiveRoutes(Some("/blogs/about-me")) == [Routes[1], Routes[3]]
  {
    AboutMeMatches();
    SelectBlogsAndAbout((r: Route) => IsActive(Some("/blogs/about-me"), r.path));
  }
}
