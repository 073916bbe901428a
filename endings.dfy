/**
 * Ending rules (background.js `applyMatch` and `removeEndings`): a rule `$marker` cuts the
 * path at the last occurrence of `marker`. It only acts on a URL without a query, for a
 * rule written `$$marker`, or on a path holding `/dp/` (Amazon product pages).
 */
module Endings {
  import opened JsString
  import opened Urls

  /** `marker.substring(1)` when the marker starts with `$`. */
  function DropDollar(m: string): string {
    if IndexOfChar(m, '$') == 0 then Substring(m, 1, |m|) else m
  }

  /** The marker with up to two leading `$` removed, as `applyMatch` checks it twice. */
  function Marker(m: string): string {
    DropDollar(DropDollar(m))
  }

  /** The marker is the rule without its first two characters when both are `$`, without
      its first when only that one is, and the rule itself otherwise. */
  lemma MarkerCases(m: string)
    ensures |m| >= 2 && m[0] == '$' && m[1] == '$' ==> Marker(m) == m[2..]
    ensures |m| >= 1 && m[0] == '$' && !(|m| >= 2 && m[1] == '$') ==> Marker(m) == m[1..]
    ensures !(|m| >= 1 && m[0] == '$') ==> Marker(m) == m
  {
    if |m| >= 1 && m[0] == '$' {
      assert DropDollar(m) == m[1..];
      if |m| >= 2 && m[1] == '$' {
        assert m[1..][0] == '$';
        assert m[1..][1..] == m[2..];
      } else if |m| >= 2 {
        assert m[1..][0] != '$';
      }
    }
  }

  /** The step acts without a query, for a `$$` rule, or on an Amazon product path. */
  predicate Acts(m: string, isSearch: bool, path: string) {
    !isSearch || Substring(m, 1, 2) == "$" || Contains(path, "/dp/")
  }

  /** `applyMatch` */
  function ApplyMatch(m: string, isSearch: bool, path: string): (r: string)
    ensures StartsWith(path, r)
  {
    if Acts(m, isSearch, path) then
      var startIndexAsEnd := LastIndexOf(path, Marker(m));
      if startIndexAsEnd > -1 then Substring(path, 0, startIndexAsEnd) else path
    else path
  }

  /** When the step acts and the marker occurs, the path is cut right where its last
      occurrence starts; otherwise the path is left as it is. */
  lemma ApplyMatchCuts(m: string, isSearch: bool, path: string)
    ensures var r := ApplyMatch(m, isSearch, path);
      var mk := Marker(m);
      && (!Acts(m, isSearch, path) ==> r == path)
      && (Acts(m, isSearch, path) && (forall j :: 0 <= j ==> !OccursAt(path, mk, j)) ==> r == path)
      && (Acts(m, isSearch, path) && (exists j :: OccursAt(path, mk, j)) ==>
            OccursAt(path, mk, |r|) && forall j :: |r| < j ==> !OccursAt(path, mk, j))
  {
    var mk := Marker(m);
    var i := LastIndexOf(path, mk);
    if Acts(m, isSearch, path) && i > -1 {
      assert ApplyMatch(m, isSearch, path) == path[..i];
    }
  }

  /** `substr(1, 1) == "$"` holds exactly when the second character is `$`. */
  lemma SecondDollar(m: string)
    ensures Substring(m, 1, 2) == "$" <==> |m| >= 2 && m[1] == '$'
  {
    if |m| >= 2 {
      assert Substring(m, 1, 2) == [m[1]];
    }
  }

  /** The ending loop of `removeEndings` over the first `|endingParams|` rules. */
  function EndingsApplied(path: string, isSearch: bool, endingParams: seq<string>): (r: string)
    decreases |endingParams|
    ensures StartsWith(path, r)
  {
    if endingParams == [] then path
    else
      var before := EndingsApplied(path, isSearch, endingParams[..|endingParams| - 1]);
      var r := ApplyMatch(endingParams[|endingParams| - 1], isSearch, before);
      assert path[..|r|] == before[..|r|];
      r
  }

  /** `removeEndings` on values: a changed path also clears the query. */
  function RemoveEndingsValue(u: UrlValue, endingParams: seq<string>): UrlValue {
    var isSearch := SearchGetter(u.search) != "";
    var path := EndingsApplied(u.pathname, isSearch, endingParams);
    if u.pathname != path then SearchSet(u.(pathname := path), "") else u
  }

  /** The path only gets shorter; the query is cleared exactly when it did, and nothing else
      changes. */
  lemma RemoveEndingsEffect(u: UrlValue, endingParams: seq<string>)
    ensures var r := RemoveEndingsValue(u, endingParams);
      && StartsWith(u.pathname, r.pathname)
      && (r.pathname == u.pathname ==> r == u)
      && (r.pathname != u.pathname ==> r.search == "" && r.params == [])
      && r.scheme == u.scheme && r.hostname == u.hostname && r.hash == u.hash
  {
  }

  /** The ending loop of `removeEndings`. */
  method ApplyEndings(pathname: string, isSearch: bool, endingParams: seq<string>) returns (path: string)
    ensures path == EndingsApplied(pathname, isSearch, endingParams)
  {
    path := pathname;
    var i := 0;
    while i < |endingParams|
      invariant i <= |endingParams|
      invariant path == EndingsApplied(pathname, isSearch, endingParams[..i])
    {
      assert endingParams[..i + 1][..i] == endingParams[..i];
      path := ApplyMatch(endingParams[i], isSearch, path);
      i := i + 1;
    }
    assert endingParams[..i] == endingParams;
  }

  /** `removeEndings` */
  method RemoveEndings(url: Url, endingParams: seq<string>)
    modifies url
    ensures url.Value() == RemoveEndingsValue(old(url.Value()), endingParams)
  {
    var isSearch := SearchGetter(url.search) != "";
    var path := ApplyEndings(url.pathname, isSearch, endingParams);
    if url.pathname != path {
      url.pathname := path;
      url.SetSearch("");
    }
  }
}
