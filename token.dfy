/**
  getTokenFromUrl: the access token comes from a `/f/<token>` path, else
  from the `token` query parameter, else it is the empty string.
 */
module UrlToken {
  import opened Wrappers
  import opened JsText

  /** `.filter(Boolean)` on strings: the non-empty pieces, in order. */
  function NonEmpty(parts: seq<string>): (r: seq<string>)
    ensures forall k :: 0 <= k < |r| ==> r[k] != ""
    ensures forall x :: x in r <==> x in parts && x != ""
    ensures |r| <= |parts|
    decreases |parts|
  {
    if parts == [] then []
    else (if parts[0] == "" then [] else [parts[0]]) + NonEmpty(parts[1..])
  }

  /** `pathname.split("/").filter(Boolean)`: the non-empty path segments. */
  function PathParts(pathname: string): (r: seq<string>)
    ensures forall k :: 0 <= k < |r| ==> r[k] != "" && '/' !in r[k]
  {
    var pieces := Split(pathname, '/');
    var r := NonEmpty(pieces);
    assert forall k :: 0 <= k < |r| ==> r[k] in pieces;
    r
  }

  /** The path has the form `/f/<token>...`: a first segment `f` and a second, non-empty segment. */
  predicate PathHasToken(pathname: string): (b: bool)
    ensures b ==> |PathParts(pathname)| >= 2 && PathParts(pathname)[1] != "" && '/' !in PathParts(pathname)[1]
  {
    var parts := PathParts(pathname);
    |parts| >= 2 && parts[0] == "f"
  }

  /**
    `fromPath || fromQuery || ""`, with `queryToken` the value of
    `URLSearchParams.get("token")` (None for `null`).
   */
  function TokenFromUrl(pathname: string, queryToken: Option<string>): (t: string)
    ensures PathHasToken(pathname) ==> t == PathParts(pathname)[1]
    ensures !PathHasToken(pathname) && queryToken.Some? ==> t == queryToken.value
    ensures t == "" <==> !PathHasToken(pathname) && (queryToken.None? || queryToken.value == "")
  {
    var parts := PathParts(pathname);
    var fromPath := if |parts| >= 2 && parts[0] == "f" && parts[1] != "" then Some(parts[1]) else None;
    if fromPath.Some? && fromPath.value != "" then fromPath.value
    else if queryToken.Some? && queryToken.value != "" then queryToken.value
    else ""
  }

  /** `filter(Boolean)` works piece by piece: it keeps the order and drops exactly the empty pieces. */
  lemma {:induction false} NonEmptyAppend(a: seq<string>, b: seq<string>)
    ensures NonEmpty(a + b) == NonEmpty(a) + NonEmpty(b)
    decreases |a|
  {
    if a == [] {
      assert a + b == b;
    } else {
      assert (a + b)[1..] == a[1..] + b;
      NonEmptyAppend(a[1..], b);
    }
  }

  /** `filter(Boolean)` on a single piece. */
  lemma NonEmptyOne(x: string)
    ensures NonEmpty([x]) == if x == "" then [] else [x]
  {
    assert [x][1..] == [];
  }

  /** The segments of `a/b` are those of `a` followed by those of `b`. */
  lemma PathPartsAppend(a: string, b: string)
    ensures PathParts(a + "/" + b) == PathParts(a) + PathParts(b)
  {
    SplitAt(a, b, '/');
    NonEmptyAppend(Split(a, '/'), Split(b, '/'));
  }

  /** A non-empty text without `/` is one segment; the empty path has none. */
  lemma PathPartsSegment(seg: string)
    requires '/' !in seg
    ensures PathParts(seg) == if seg == "" then [] else [seg]
  {
    SplitJoin([seg], '/');
    NonEmptyOne(seg);
  }

  /**
    A `/f/<t>/<rest>` path yields `t`, whatever follows it and whatever
    the query says.
   */
  lemma PathTokenWithRest(t: string, rest: string, queryToken: Option<string>)
    requires t != "" && '/' !in t
    ensures TokenFromUrl("/f/" + t + "/" + rest, queryToken) == t
  {
    var tail := t + "/" + rest;
    var afterF := "f" + "/" + tail;
    var path := "/f/" + t + "/" + rest;
    assert path == "" + "/" + afterF;
    PathPartsSegment(t);
    PathPartsAppend(t, rest);
    assert PathParts(tail) == [t] + PathParts(rest);
    PathPartsSegment("f");
    PathPartsAppend("f", tail);
    assert PathParts(afterF) == ["f", t] + PathParts(rest);
    PathPartsSegment("");
    PathPartsAppend("", afterF);
    assert PathParts(path) == ["f", t] + PathParts(rest);
  }

  /** `/f/<t>` splits into "", "f" and `t`. */
  lemma SplitPathForm(t: string)
    requires t != "" && '/' !in t
    ensures Split("/f/" + t, '/') == ["", "f", t]
  {
    var pieces := ["", "f", t];
    assert pieces[1..] == ["f", t] && pieces[1..][1..] == [t];
    assert Join(pieces[1..], '/') == "f/" + t;
    assert Join(pieces, '/') == "/f/" + t;
    SplitJoin(pieces, '/');
  }

  /** A `/f/<t>` path yields `t`, whatever the query says. */
  lemma PathTokenWins(t: string, queryToken: Option<string>)
    requires t != "" && '/' !in t
    ensures TokenFromUrl("/f/" + t, queryToken) == t
  {
    var path := "/f/" + t;
    assert path == "" + "/" + ("f" + "/" + t);
    PathPartsAppend("", "f" + "/" + t);
    PathPartsAppend("f", t);
    PathPartsSegment("");
    PathPartsSegment("f");
    PathPartsSegment(t);
    assert PathParts(path) == ["f", t];
  }

  /** Empty segments do not count: `//f//<t>` is still the path form. */
  lemma EmptySegmentsSkipped(t: string, queryToken: Option<string>)
    requires t != "" && '/' !in t
    ensures TokenFromUrl("//f//" + t, queryToken) == t
  {
    var path := "//f//" + t;
    assert path == "" + "/" + ("" + "/" + ("f" + "/" + ("" + "/" + t)));
    PathPartsAppend("", "" + "/" + ("f" + "/" + ("" + "/" + t)));
    PathPartsAppend("", "f" + "/" + ("" + "/" + t));
    PathPartsAppend("f", "" + "/" + t);
    PathPartsAppend("", t);
    PathPartsSegment("");
    PathPartsSegment("f");
    PathPartsSegment(t);
    assert PathParts(path) == ["f", t];
  }

  /** Without the path form, a present query value is the token, empty or not. */
  lemma QueryFallback(pathname: string, q: string)
    requires !PathHasToken(pathname)
    ensures TokenFromUrl(pathname, Some(q)) == q
    ensures TokenFromUrl(pathname, None) == ""
  {
  }
}
