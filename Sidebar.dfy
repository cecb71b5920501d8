/** The sidebar navigation: its routes and which of them is highlighted
    for the current path. */
module Sidebar {
  import opened Seqs
  import opened Text

  datatype Route = Route(title: string, href: string)

  /** The routes the sidebar lists (the commented-out ones are not). */
  const Routes: seq<Route> := [Route("Встречи", "/meetings"), Route("Оплата", "/payments")]

  /** A route is highlighted when the path is its `href` or lies below it. */
  predicate IsActive(pathname: string, href: string) {
    pathname == href || StartsWith(pathname, href + "/")
  }

  /** The same rule stated as a prefix with a boundary: the path starts with
      `href`, and ends there or continues with a slash. */
  lemma IsActiveAtBoundary(pathname: string, href: string)
    ensures IsActive(pathname, href) <==>
      StartsWith(pathname, href) && (|pathname| == |href| || pathname[|href|] == '/')
  {
    if StartsWith(pathname, href) && |pathname| > |href| && pathname[|href|] == '/' {
      assert pathname[..|href| + 1] == pathname[..|href|] + [pathname[|href|]];
    }
    if StartsWith(pathname, href + "/") {
      assert pathname[..|href|] == (href + "/")[..|href|];
    }
  }

  /** Any path below a route highlights it. */
  lemma SubPathActivates(href: string, rest: string)
    ensures IsActive(href + "/" + rest, href)
  {
    assert (href + "/" + rest)[..|href| + 1] == href + "/";
  }

  /** A path that merely extends the name of a route does not highlight it. */
  lemma SiblingPrefixDoesNotActivate(href: string, c: char, rest: string)
    requires c != '/'
    ensures !IsActive(href + [c] + rest, href)
  {
    IsActiveAtBoundary(href + [c] + rest, href);
    assert (href + [c] + rest)[|href|] == c;
  }

  /** `/meetings/42` highlights the meetings route, `/meetingsX` does not. */
  lemma MeetingsExamples()
    ensures IsActive("/meetings/42", "/meetings")
    ensures !IsActive("/meetingsX", "/meetings")
  {
    SubPathActivates("/meetings", "42");
    assert "/meetings" + "/" + "42" == "/meetings/42";
    SiblingPrefixDoesNotActivate("/meetings", 'X', "");
    assert "/meetings" + ['X'] + "" == "/meetingsX";
  }

  /** The routes highlighted for a path. */
  function ActiveRoutes(pathname: string): seq<Route> {
    Filter(Routes, (r: Route) => IsActive(pathname, r.href))
  }

  /** Whatever the path, at most one route of the sidebar is highlighted. */
  lemma AtMostOneActive(pathname: string)
    ensures |ActiveRoutes(pathname)| <= 1
  {
    var p := (r: Route) => IsActive(pathname, r.href);
    IsActiveAtBoundary(pathname, "/meetings");
    IsActiveAtBoundary(pathname, "/payments");
    assert Routes[1..][1..] == [];
  }
}
