/**
  * The app's navigation bars: the bottom bar's cart badge and selected tab
  * (client/src/app/layout/BottomNav.tsx) and the top bar's child-page
  * detection and title (client/src/app/layout/TopNavBar.tsx).
  */
module Navigation {
  import opened Wrappers
  import opened Text

  /** The tab values of `navItems`, in order. */
  const NavValues: seq<string> := ["/", "/favorites", "/cart", "/account"]

  /** The cart badge: nothing for an empty cart, the count up to 9, then "9+". */
  function BadgeText(count: int): (r: Option<string>)
    ensures r.None? <==> count <= 0
    ensures count > 9 ==> r == Some("9+")
    ensures 0 < count <= 9 ==> r.Some? && |r.value| == 1
  {
    if count <= 0 then None
    else if count > 9 then Some("9+")
    else Some(NatText(count))
  }

  /** A badge showing a single digit shows the count itself. */
  lemma BadgeReadsBack(count: int)
    requires 0 < count <= 9
    ensures NatValue(BadgeText(count).value) == count
    ensures BadgeText(count).value != "9+"
  {
    NatTextRoundTrip(count);
  }

  /** `currentValue`: the tab whose value is the path, else the home tab. */
  function CurrentValue(pathname: string): (r: string)
    ensures r in NavValues
    ensures pathname in NavValues <==> r == pathname
    ensures pathname !in NavValues ==> r == "/"
  {
    if pathname in NavValues then pathname else "/"
  }

  /** `isChildPage`: the path mentions "/products"; such a path always has a last segment to name it. */
  predicate IsChildPage(pathname: string)
    ensures IsChildPage(pathname) ==> LastSegment(pathname).Some?
  {
    if Contains(pathname, "/products") then ChildPageHasSegment(pathname); true else false
  }

  /** Piece `i` is non-empty and every piece after it is empty. */
  predicate LastAt(parts: seq<string>, i: int)
  {
    0 <= i < |parts| && parts[i] != "" && forall j :: i < j < |parts| ==> parts[j] == ""
  }

  /** `s` is the last non-empty piece. */
  ghost predicate IsLastNonEmpty(parts: seq<string>, s: string)
  {
    exists i :: LastAt(parts, i) && parts[i] == s
  }

  /** The last non-empty piece. */
  function LastNonEmpty(parts: seq<string>): (r: Option<string>)
    ensures r.None? <==> forall i :: 0 <= i < |parts| ==> parts[i] == ""
    ensures r.Some? ==> r.value != "" && r.value in parts
    ensures r.Some? ==> IsLastNonEmpty(parts, r.value)
    decreases |parts|
  {
    if |parts| == 0 then None
    else if parts[|parts| - 1] != "" then
      assert LastAt(parts, |parts| - 1);
      Some(parts[|parts| - 1])
    else
      var init := parts[..|parts| - 1];
      assert forall i :: 0 <= i < |init| ==> init[i] == parts[i];
      var r := LastNonEmpty(init);
      LastStaysLast(parts, r);
      r
  }

  /** The last non-empty piece before a trailing empty piece is still the last one. */
  lemma LastStaysLast(parts: seq<string>, r: Option<string>)
    requires |parts| > 0 && parts[|parts| - 1] == ""
    requires r.Some? ==> IsLastNonEmpty(parts[..|parts| - 1], r.value)
    ensures r.Some? ==> IsLastNonEmpty(parts, r.value)
  {
    if r.Some? {
      var init := parts[..|parts| - 1];
      var i :| LastAt(init, i) && init[i] == r.value;
      assert LastAt(parts, i);
    }
  }

  /** `pathname.split('/').filter(Boolean)` and its last element. */
  function LastSegment(pathname: string): (r: Option<string>)
    ensures r.Some? ==> r.value != "" && '/' !in r.value
    ensures r.Some? ==> IsLastNonEmpty(Split(pathname, '/'), r.value)
  {
    LastNonEmpty(Split(pathname, '/'))
  }

  /** A trailing slash does not change the last segment. */
  lemma TrailingSlashSameSegment(pathname: string)
    ensures LastSegment(pathname + "/") == LastSegment(pathname)
  {
    SplitTrailingSep(pathname, '/');
    var parts := Split(pathname, '/');
    assert (parts + [""])[..|parts|] == parts;
  }

  /** Joining empty pieces gives only separators. */
  lemma {:induction false} JoinOfEmpties(parts: seq<string>, sep: char)
    requires forall i :: 0 <= i < |parts| ==> parts[i] == ""
    ensures forall k :: 0 <= k < |Join(parts, [sep])| ==> Join(parts, [sep])[k] == sep
    decreases |parts|
  {
    if |parts| > 1 {
      JoinOfEmpties(parts[1..], sep);
      assert Join(parts, [sep]) == [sep] + Join(parts[1..], [sep]);
    }
  }

  /** A child page always has a segment to name it. */
  lemma ChildPageHasSegment(pathname: string)
    requires Contains(pathname, "/products")
    ensures LastSegment(pathname).Some?
  {
    var i :| 0 <= i <= |pathname| && OccursAt(pathname, "/products", i);
    assert |"/products"| == 9;
    assert pathname[i..i + 9] == "/products";
    assert pathname[i + 1] == 'p';
    if LastSegment(pathname).None? {
      JoinSplit(pathname, '/');
      JoinOfEmpties(Split(pathname, '/'), '/');
      assert false;
    }
  }

  const HomeTitle := "NeoWasl"

  /** `pageTitle`: the decoded last segment on a child page, the store's name elsewhere. `decode` stands for `decodeURIComponent`. */
  function PageTitle(pathname: string, decode: string -> string): (r: string)
    ensures !IsChildPage(pathname) ==> r == HomeTitle
    ensures IsChildPage(pathname) ==> LastSegment(pathname).Some? && r == decode(LastSegment(pathname).value)
    ensures IsChildPage(pathname) ==> exists s :: IsLastNonEmpty(Split(pathname, '/'), s) && r == decode(s)
  {
    if IsChildPage(pathname) then
      ChildPageHasSegment(pathname);
      decode(LastSegment(pathname).value)
    else HomeTitle
  }

  /** A trailing slash changes neither the kind of page nor its title. */
  lemma TrailingSlashSameTitle(pathname: string, decode: string -> string)
    ensures IsChildPage(pathname + "/") <==> IsChildPage(pathname)
    ensures PageTitle(pathname + "/", decode) == PageTitle(pathname, decode)
  {
    var p := pathname + "/";
    assert |"/products"| == 9;
    if IsChildPage(p) {
      var i :| 0 <= i <= |p| && OccursAt(p, "/products", i);
      assert p[i..i + 9] == "/products";
      assert p[i + 8] == 's';
      assert i + 9 <= |pathname|;
      assert pathname[i..i + 9] == p[i..i + 9];
      assert OccursAt(pathname, "/products", i);
    }
    if IsChildPage(pathname) {
      var i :| 0 <= i <= |pathname| && OccursAt(pathname, "/products", i);
      assert p[i..i + 9] == pathname[i..i + 9];
      assert OccursAt(p, "/products", i);
    }
    TrailingSlashSameSegment(pathname);
  }

  /** Clicking the title: home on a top-level page, nothing on a child page. */
  function TitleClick(pathname: string): (r: Option<string>)
    ensures r.Some? <==> !IsChildPage(pathname)
    ensures r.Some? ==> r.value == "/"
  {
    if IsChildPage(pathname) then None else Some("/")
  }
}
