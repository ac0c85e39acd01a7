/** The Finder sidebar's highlighting of the entry for the current route. */
module FinderSidebar {
  import opened Text

  /** The entry for `to` is highlighted on its own route and, unless it is the root, on every route it prefixes. */
  predicate IsActivePath(pathname: string, to: string) {
    pathname == to || (to != "/" && IsPrefix(to, pathname))
  }

  /** An entry is highlighted on its own route. */
  lemma ActiveOnOwnRoute(to: string)
    ensures IsActivePath(to, to)
  {
  }

  /**
   * Any other entry is highlighted exactly on the routes that start with its target, and the
   * test is on raw characters, not path segments.
   */
  lemma NonRootMatchesPrefix(pathname: string, to: string)
    requires to != "/"
    ensures IsActivePath(pathname, to) <==> IsPrefix(to, pathname)
  {
  }

  /** The root entry is highlighted on "/" alone, not on every route that starts with a slash. */
  lemma RootMatchesOnlyRoot(pathname: string)
    ensures IsActivePath(pathname, "/") <==> pathname == "/"
  {
  }

  /** When the route neither equals the target nor (off the root) starts with it, the entry is plain. */
  lemma InactiveOtherwise(pathname: string, to: string)
    requires pathname != to
    requires to == "/" || !IsPrefix(to, pathname)
    ensures !IsActivePath(pathname, to)
  {
  }

  /** The prefix test is not segment-aware: "/foo" is highlighted on "/foobar". */
  lemma PrefixIsNotSegmentAware()
    ensures IsActivePath("/foobar", "/foo")
    ensures IsActivePath("/finder-interface/documents/reports", "/finder-interface/documents")
    ensures !IsActivePath("/finder-interface", "/finder-interface/documents")
  {
    assert "/foobar"[..4] == "/foo";
    assert "/finder-interface/documents/reports"[..27] == "/finder-interface/documents";
  }
}
