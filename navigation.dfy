/** The navigation bar's active-link rule. */
module Navigation {
  import opened Text

  /** The bar's links, in order. */
  const NavItems: seq<string> := ["/", "/articles", "/contact", "/admin"]

  /** `isActive(href)` at the current location: the root link matches only
      the root itself; any other link matches every location it prefixes. */
  predicate IsActive(href: string, location: string) {
    (href == "/" && location == "/") || (href != "/" && StartsWith(location, href))
  }

  /** The root link is active exactly at "/", and never elsewhere. */
  lemma RootActive(location: string)
    ensures IsActive("/", location) <==> location == "/"
  {
  }

  /** A non-root link is active exactly at the locations that extend it. */
  lemma PrefixActive(href: string, location: string)
    requires href != "/"
    ensures IsActive(href, location) <==> exists rest :: location == href + rest
  {
    if IsActive(href, location) {
      assert location == href + location[|href|..];
    }
    if exists rest :: location == href + rest {
      var rest :| location == href + rest;
      assert location[..|href|] == href;
    }
  }

  /** The test is a bare prefix test: sub-pages match, and so does a longer
      path sharing the prefix. */
  lemma PrefixExamples()
    ensures IsActive("/articles", "/articles/5")
    ensures IsActive("/admin", "/administrator")
    ensures !IsActive("/articles", "/")
  {
    assert "/articles/5"[..9] == "/articles";
    assert "/administrator"[..6] == "/admin";
  }

  /** At any location at most one of the bar's links is active. */
  lemma AtMostOneActive(location: string, i: int, j: int)
    requires 0 <= i < j < |NavItems|
    ensures !(IsActive(NavItems[i], location) && IsActive(NavItems[j], location))
  {
    var a, b := NavItems[i], NavItems[j];
    if IsActive(b, location) {
      assert location[..|b|] == b;
      assert location != "/" && location[1] == b[1] && location[2] == b[2];
      assert a == "/" || a[1] != b[1] || a[2] != b[2];
    }
  }
}
