/**
 * Rewriting a URL (background.js `getWildcardParam`, `deleteWildcardParam`, `buildURL`,
 * `applyMatch`, `removeEndings` and the exact-name deletion loop of `cleanURL`).
 *
 * Every operation that changes a URL is a method on the `Url` object, specified by a
 * function on `UrlValue`; the properties are proved about those functions.
 */
module Rewrite {
  import opened JsString
  import opened Query
  import opened Urls

  /** The names of a query, in order, repeats included (a snapshot of `searchParams.keys()`). */
  function Keys(q: seq<Pair>): seq<string> {
    seq(|q|, j requires 0 <= j < |q| => q[j].0)
  }

  /** A selected name of the snapshot is the name of some pair. */
  lemma SelectedPair(q: seq<Pair>, t: NameTest, k: string) returns (j: nat)
    requires k in Selected(Keys(q), t)
    ensures j < |q| && q[j].0 == k && Selects(t, k)
  {
    var ks := Keys(q);
    j :| 0 <= j < |ks| && ks[j] == k;
  }

  predicate HasKeyIn(q: seq<Pair>, ks: set<string>) {
    exists j :: 0 <= j < |q| && q[j].0 in ks
  }

  predicate HasKeyWithPrefix(q: seq<Pair>, pre: string) {
    exists j :: 0 <= j < |q| && StartsWith(q[j].0, pre)
  }

  /** Every pair named in `ks` deleted; the text is rewritten only when one was there. */
  function DeletedKeys(u: UrlValue, ks: set<string>): (r: UrlValue)
    ensures forall p :: p in r.params <==> p in u.params && p.0 !in ks
    ensures forall p :: multiset(r.params)[p] == if p.0 in ks then 0 else multiset(u.params)[p]
    ensures r.(search := u.search, params := u.params) == u
    ensures !HasKeyIn(u.params, ks) ==> r == u
    ensures HasKeyIn(u.params, ks) ==> r.search == Search(r.params)
    ensures Sublist(r.params, u.params)
  {
    if HasKeyIn(u.params, ks) then Reserialised(u, WithoutKeys(u.params, ks))
    else
      SublistRefl(u.params);
      u
  }

  /** Every pair whose name starts with `pre` deleted (the intent of `deleteWildcardParam`). */
  function DeletedPrefix(u: UrlValue, pre: string): (r: UrlValue)
    ensures forall p :: p in r.params <==> p in u.params && !StartsWith(p.0, pre)
    ensures forall p :: multiset(r.params)[p] == if StartsWith(p.0, pre) then 0 else multiset(u.params)[p]
    ensures Sublist(r.params, u.params)
    ensures r.(search := u.search, params := u.params) == u
    ensures !HasKeyWithPrefix(u.params, pre) ==> r == u
    ensures HasKeyWithPrefix(u.params, pre) ==> r.search == Search(r.params)
  {
    if HasKeyWithPrefix(u.params, pre) then Reserialised(u, WithoutPrefix(u.params, pre))
    else
      SublistRefl(u.params);
      u
  }

  /** `deleteWildcardParam` as written: pairs are deleted while the live list is walked. */
  function LiveDeleted(u: UrlValue, pre: string): (r: UrlValue)
    ensures Sublist(r.params, u.params)
    ensures r.(search := u.search, params := u.params) == u
  {
    var q := LiveSweep(u.params, pre, 0);
    if q == u.params then u else Reserialised(u, q)
  }

  /** The live deletion only removes pairs whose name starts with `pre`, keeps every copy of
      every other pair, and changes the URL exactly when some name starts with `pre`; a
      changed URL has its query text rewritten. */
  lemma LiveDeletedEffect(u: UrlValue, pre: string)
    ensures var r := LiveDeleted(u, pre);
      && (forall p :: p in r.params ==> p in u.params)
      && (forall p :: p in u.params && !StartsWith(p.0, pre) ==> p in r.params)
      && (forall p: Pair :: !StartsWith(p.0, pre) ==> multiset(r.params)[p] == multiset(u.params)[p])
      && (r.params == u.params <==> !HasKeyWithPrefix(u.params, pre))
      && (!HasKeyWithPrefix(u.params, pre) ==> r == u)
      && (HasKeyWithPrefix(u.params, pre) ==> r.search == Search(r.params))
  {
    var r := LiveDeleted(u, pre);
    LiveSweepChanges(u.params, pre);
    forall p | p in r.params
      ensures p in u.params
    {
      SublistMembers(r.params, u.params, p);
    }
    forall p: Pair | !StartsWith(p.0, pre)
      ensures multiset(r.params)[p] == multiset(u.params)[p]
      ensures p in u.params ==> p in r.params
    {
      LiveSweepKeeps(u.params, pre, 0, p);
    }
  }

  // ---------------------------------------------------------------------------------------
  // Wildcard parameters

  /** `getWildcardParam`: the text before a single trailing `*`, else "". */
  function GetWildcardParam(param: string): string {
    var wildcardIndex := IndexOfChar(param, '*');
    if wildcardIndex < 0 || wildcardIndex != |param| - 1 then ""
    else Substring(param, 0, wildcardIndex)
  }

  /** A rule is a wildcard exactly when its only `*` is its last character and something
      comes before it; the wildcard is then the rule without that `*`. */
  lemma GetWildcardParamSpec(param: string)
    ensures var r := GetWildcardParam(param);
      && (r != "" <==> |param| >= 2 && param[|param| - 1] == '*' && '*' !in param[..|param| - 1])
      && (r != "" ==> param == r + "*")
  {
    var wildcardIndex := IndexOfChar(param, '*');
    if wildcardIndex >= 0 && wildcardIndex == |param| - 1 {
      assert param == param[..wildcardIndex] + "*";
    }
  }

  lemma WithoutKeyLive(q: seq<Pair>, i: nat)
    requires i < |q|
    ensures |WithoutKey(q, q[i].0)| < |q|
  {
    SublistLength(WithoutKey(q, q[i].0), q);
  }

  /** One more deletion extends the set of deleted names. */
  lemma DeleteOneMore(u0: UrlValue, deleted: set<string>, key: string)
    ensures Deleted(Reserialised(u0, WithoutKeys(u0.params, deleted)), key)
            == Reserialised(u0, WithoutKeys(u0.params, deleted + {key}))
    ensures Deleted(u0, key) == Reserialised(u0, WithoutKeys(u0.params, {key}))
  {
    WithoutKeysThenKey(u0.params, deleted, key);
  }

  // ---------------------------------------------------------------------------------------
  // Deleting over a snapshot of the names

  /** Which names a deletion loop deletes. */
  datatype NameTest = StartingWith(pre: string) | OneOf(names: seq<string>)

  predicate Selects(t: NameTest, k: string) {
    match t
    case StartingWith(pre) => StartsWith(k, pre)
    case OneOf(names) => k in names
  }

  function Selected(ks: seq<string>, t: NameTest): set<string> {
    set k | k in ks && Selects(t, k)
  }

  /** The URL after `delete(k)` for every selected name `k` of the snapshot `ks`, in order. */
  function SnapshotDeleted(u0: UrlValue, ks: seq<string>, t: NameTest): UrlValue
    decreases |ks|
  {
    if ks == [] then u0
    else
      var s := SnapshotDeleted(u0, ks[..|ks| - 1], t);
      var k := ks[|ks| - 1];
      if Selects(t, k) then Deleted(s, k) else s
  }

  lemma SelectedAt(ks: seq<string>, t: NameTest, j: nat)
    requires j < |ks|
    ensures ks[j] in Selected(ks, t) <==> Selects(t, ks[j])
  {
    assert ks[j] in ks;
  }

  lemma SelectedSnoc(init: seq<string>, k: string, t: NameTest)
    ensures Selects(t, k) ==> Selected(init + [k], t) == Selected(init, t) + {k}
    ensures !Selects(t, k) ==> Selected(init + [k], t) == Selected(init, t)
  {
    assert forall x :: x in init + [k] <==> x in init || x == k;
  }

  /** Deleting name by name is deleting the selected names at once, and the text is only
      rewritten when something was selected. */
  lemma {:induction false} SnapshotDeletedAll(u0: UrlValue, ks: seq<string>, t: NameTest)
    ensures Selected(ks, t) == {} ==> SnapshotDeleted(u0, ks, t) == u0
    ensures Selected(ks, t) != {} ==> SnapshotDeleted(u0, ks, t) == Reserialised(u0, WithoutKeys(u0.params, Selected(ks, t)))
    decreases |ks|
  {
    if ks != [] {
      var init := ks[..|ks| - 1];
      var k := ks[|ks| - 1];
      var before := Selected(init, t);
      SnapshotDeletedAll(u0, init, t);
      assert ks == init + [k];
      SelectedSnoc(init, k, t);
      if Selects(t, k) {
        DeleteOneMore(u0, before, k);
        if before == {} {
          assert Selected(ks, t) == {k};
        }
      }
    }
  }

  /** The loop shared by the exact-name deletion of `cleanURL` and the corrected wildcard
      deletion: the names are read first, then the selected ones are deleted. */
  method DeleteSelected(url: Url, t: NameTest)
    modifies url
    ensures url.Value() == SnapshotDeleted(old(url.Value()), Keys(old(url.params)), t)
  {
    ghost var u0 := url.Value();
    var keys := Keys(url.params);
    var i := 0;
    while i < |keys|
      invariant i <= |keys|
      invariant url.Value() == SnapshotDeleted(u0, keys[..i], t)
    {
      DeleteIfSelected(url, keys[i], t);
      SnapshotDeletedNext(u0, keys, i, t);
      i := i + 1;
    }
    assert keys[..i] == keys;
  }

  /** The body of the deletion loop: one name of the snapshot. */
  method DeleteIfSelected(url: Url, k: string, t: NameTest)
    modifies url
    ensures url.Value() == if Selects(t, k) then Deleted(old(url.Value()), k) else old(url.Value())
  {
    if Selects(t, k) {
      url.Delete(k);
    }
  }

  /** One more name of the snapshot: deleted when selected, skipped otherwise. */
  lemma SnapshotDeletedNext(u0: UrlValue, keys: seq<string>, i: nat, t: NameTest)
    requires i < |keys|
    ensures SnapshotDeleted(u0, keys[..i + 1], t) ==
              var s := SnapshotDeleted(u0, keys[..i], t);
              if Selects(t, keys[i]) then Deleted(s, keys[i]) else s
  {
    assert keys[..i + 1][..i] == keys[..i];
  }

  /** The corrected `deleteWildcardParam`: the names are snapshotted before deleting, as
      `cleanURL` does for exact names. */
  method DeleteWildcardParamCorrected(url: Url, pre: string)
    modifies url
    ensures url.Value() == DeletedPrefix(old(url.Value()), pre)
  {
    ghost var u0 := url.Value();
    DeleteSelected(url, StartingWith(pre));
    SnapshotDeletedPrefix(u0, pre);
  }

  /** Deleting over the snapshot every name starting with `pre` is `DeletedPrefix`. */
  lemma SnapshotDeletedPrefix(u0: UrlValue, pre: string)
    ensures SnapshotDeleted(u0, Keys(u0.params), StartingWith(pre)) == DeletedPrefix(u0, pre)
  {
    var ks := Keys(u0.params);
    var sel := Selected(ks, StartingWith(pre));
    SnapshotDeletedAll(u0, ks, StartingWith(pre));
    forall j | 0 <= j < |u0.params|
      ensures u0.params[j].0 in sel <==> StartsWith(u0.params[j].0, pre)
    {
      SelectedAt(ks, StartingWith(pre), j);
    }
    if sel != {} {
      var k :| k in sel;
      var j := SelectedPair(u0.params, StartingWith(pre), k);
      assert StartsWith(u0.params[j].0, pre);
      WithoutKeysIsWithoutPrefix(u0.params, sel, pre);
    }
  }

  /** `deleteWildcardParam`: `keys()` is a live iterator over the list it deletes from, so
      a pair that moves into an already visited position is never looked at. */
  method DeleteWildcardParam(url: Url, pre: string)
    modifies url
    ensures url.Value() == LiveDeleted(old(url.Value()), pre)
  {
    ghost var u0 := url.Value();
    var i := 0;
    while i < |url.params|
      invariant LiveSweep(url.params, pre, i) == LiveSweep(u0.params, pre, 0)
      invariant url.Value() == u0 || (url.Value() == Reserialised(u0, url.params) && |url.params| < |u0.params|)
      decreases |url.params| - i
    {
      var key := url.params[i].0;
      if StartsWith(key, pre) {
        WithoutKeyLive(url.params, i);
        url.Delete(key);
      }
      i := i + 1;
    }
  }

  /** The exact-name loop of `cleanURL`: the names are read from a copy of the URL, and each
      one that is blocked is deleted from the URL itself. */
  method DeleteBlockedParams(url: Url, blocked: seq<string>)
    modifies url
    ensures url.Value() == DeletedKeys(old(url.Value()), set b | b in blocked)
  {
    ghost var u0 := url.Value();
    DeleteSelected(url, OneOf(blocked));
    SnapshotDeletedKeys(u0, blocked);
  }

  /** Deleting over the snapshot every name in `blocked` is `DeletedKeys`. */
  lemma SnapshotDeletedKeys(u0: UrlValue, blocked: seq<string>)
    ensures SnapshotDeleted(u0, Keys(u0.params), OneOf(blocked)) == DeletedKeys(u0, set b | b in blocked)
  {
    var ks := Keys(u0.params);
    var sel := Selected(ks, OneOf(blocked));
    var names := set b | b in blocked;
    SnapshotDeletedAll(u0, ks, OneOf(blocked));
    forall j | 0 <= j < |u0.params|
      ensures u0.params[j].0 in sel <==> u0.params[j].0 in names
    {
      SelectedAt(ks, OneOf(blocked), j);
    }
    if sel != {} {
      var k :| k in sel;
      var j := SelectedPair(u0.params, OneOf(blocked), k);
      assert u0.params[j].0 in names;
      assert HasKeyIn(u0.params, names);
      WithoutKeysAgree(u0.params, sel, names);
      assert DeletedKeys(u0, names) == Reserialised(u0, WithoutKeys(u0.params, names));
    } else {
      assert !HasKeyIn(u0.params, names);
    }
  }

  // ---------------------------------------------------------------------------------------
  // buildURL

  /** The effect of one blocked parameter on the main query: a wildcard `name*` runs
      `deleteWildcardParam` with `name`; any other rule leaves the query to `cleanURL`. */
  function WildcardStep(u: UrlValue, blockedParam: string): UrlValue {
    var wildcardParam := GetWildcardParam(blockedParam);
    if wildcardParam != "" then LiveDeleted(u, wildcardParam) else u
  }

  /** The wildcard loop of `buildURL` over the first `|blocked|` rules. */
  function Wildcards(u: UrlValue, blocked: seq<string>): UrlValue
    decreases |blocked|
  {
    if blocked == [] then u
    else WildcardStep(Wildcards(u, blocked[..|blocked| - 1]), blocked[|blocked| - 1])
  }

  /** The wildcard rule `rule` covers the name. */
  predicate Covers(rule: string, name: string) {
    GetWildcardParam(rule) != "" && StartsWith(name, GetWildcardParam(rule))
  }

  /** Some wildcard rule among `blocked` covers the name. */
  predicate WildcardCovers(blocked: seq<string>, name: string)
    decreases |blocked|
  {
    blocked != [] && (WildcardCovers(blocked[..|blocked| - 1], name) || Covers(blocked[|blocked| - 1], name))
  }

  /** One wildcard rule only removes pairs it covers, keeps every copy of the others, and
      leaves the query as it is exactly when it covers none of its names. */
  lemma WildcardStepEffect(u: UrlValue, rule: string)
    ensures var r := WildcardStep(u, rule);
      && Sublist(r.params, u.params)
      && (forall p :: p in u.params && !Covers(rule, p.0) ==> p in r.params)
      && (forall p: Pair :: !Covers(rule, p.0) ==> multiset(r.params)[p] == multiset(u.params)[p])
      && (r.params == u.params <==> forall j :: 0 <= j < |u.params| ==> !Covers(rule, u.params[j].0))
      && r.(search := u.search, params := u.params) == u
      && (r == u || r.search == Search(r.params))
  {
    var wildcardParam := GetWildcardParam(rule);
    if wildcardParam != "" {
      LiveDeletedEffect(u, wildcardParam);
    } else {
      SublistRefl(u.params);
    }
  }

  /** The wildcard loop only removes pairs some wildcard rule covers, keeps every copy of
      every pair no wildcard rule covers, and changes nothing but the query. */
  lemma {:induction false} WildcardsEffect(u: UrlValue, blocked: seq<string>)
    ensures var w := Wildcards(u, blocked);
      && Sublist(w.params, u.params)
      && (forall p :: p in w.params ==> p in u.params)
      && (forall p :: p in u.params && !WildcardCovers(blocked, p.0) ==> p in w.params)
      && (forall p: Pair :: !WildcardCovers(blocked, p.0) ==> multiset(w.params)[p] == multiset(u.params)[p])
      && w.(search := u.search, params := u.params) == u
      && (w == u || w.search == Search(w.params))
    decreases |blocked|
  {
    var w := Wildcards(u, blocked);
    if blocked == [] {
      SublistRefl(u.params);
    } else {
      var init := blocked[..|blocked| - 1];
      WildcardsEffect(u, init);
      var prev := Wildcards(u, init);
      WildcardStepEffect(prev, blocked[|blocked| - 1]);
      SublistTrans(w.params, prev.params, u.params);
    }
    forall p | p in w.params
      ensures p in u.params
    {
      SublistMembers(w.params, u.params, p);
    }
  }

  /** The wildcard loop leaves the query as it is exactly when no wildcard rule covers any
      of its names. */
  lemma {:induction false} WildcardsUnchanged(u: UrlValue, blocked: seq<string>)
    ensures Wildcards(u, blocked).params == u.params <==>
              forall j :: 0 <= j < |u.params| ==> !WildcardCovers(blocked, u.params[j].0)
    decreases |blocked|
  {
    if blocked != [] {
      var init := blocked[..|blocked| - 1];
      var rule := blocked[|blocked| - 1];
      WildcardsUnchanged(u, init);
      WildcardsEffect(u, init);
      var prev := Wildcards(u, init);
      var w := Wildcards(u, blocked);
      WildcardStepEffect(prev, rule);
      if w.params == u.params {
        SublistLength(w.params, prev.params);
        SublistLength(prev.params, u.params);
      }
    }
  }

  // ---------------------------------------------------------------------------------------
  // The wildcard loop as it is evidently intended

  function IntendedWildcards(u: UrlValue, blocked: seq<string>): UrlValue
    decreases |blocked|
  {
    if blocked == [] then u
    else
      var prev := IntendedWildcards(u, blocked[..|blocked| - 1]);
      var wildcardParam := GetWildcardParam(blocked[|blocked| - 1]);
      if wildcardParam != "" then DeletedPrefix(prev, wildcardParam) else prev
  }

  /** With the corrected deletion, the wildcard loop keeps exactly the pairs no wildcard
      rule covers, each as often as before, and changes nothing but the query. */
  lemma {:induction false} IntendedWildcardsEffect(u: UrlValue, blocked: seq<string>)
    ensures var w := IntendedWildcards(u, blocked);
      && (forall p :: p in w.params <==> p in u.params && !WildcardCovers(blocked, p.0))
      && (forall p :: multiset(w.params)[p] == if WildcardCovers(blocked, p.0) then 0 else multiset(u.params)[p])
      && Sublist(w.params, u.params)
      && w.(search := u.search, params := u.params) == u
    decreases |blocked|
  {
    if blocked == [] {
      SublistRefl(u.params);
    } else {
      var init := blocked[..|blocked| - 1];
      IntendedWildcardsEffect(u, init);
      var prev := IntendedWildcards(u, init);
      SublistRefl(prev.params);
      SublistTrans(IntendedWildcards(u, blocked).params, prev.params, u.params);
    }
  }

  /** On `?utm_source=a&utm_medium=b` the rule `utm_*` leaves `utm_medium=b` in place,
      while the intended loop removes both pairs. */
  lemma WildcardsSkip(u: UrlValue)
    requires u.params == [("utm_source", "a"), ("utm_medium", "b")]
    ensures Wildcards(u, ["utm_*"]).params == [("utm_medium", "b")]
    ensures IntendedWildcards(u, ["utm_*"]).params == []
  {
    UtmWildcard();
    assert ["utm_*"][..0] == [];
    assert Wildcards(u, ["utm_*"]) == LiveDeleted(u, "utm_");
    LiveSweepSkips();
    var w := IntendedWildcards(u, ["utm_*"]);
    assert w == DeletedPrefix(u, "utm_");
    assert HasKeyWithPrefix(u.params, "utm_") by {
      assert StartsWith(u.params[0].0, "utm_");
    }
    assert w.params == WithoutPrefix(u.params, "utm_");
  }

  /** A second pass of the rule `utm_*` removes the pair the first pass skipped. */
  lemma WildcardsAgain(u: UrlValue)
    requires u.params == [("utm_medium", "b")]
    ensures Wildcards(u, ["utm_*"]).params == []
  {
    UtmWildcard();
    assert ["utm_*"][..0] == [];
    assert Wildcards(u, ["utm_*"]) == LiveDeleted(u, "utm_");
    LiveSweepSkips();
  }

  /** `utm_*` is a wildcard rule with the prefix `utm_`. */
  lemma UtmWildcard()
    ensures GetWildcardParam("utm_*") == "utm_"
  {
    var rule := "utm_*";
    assert IndexOfChar(rule, '*') == 4 by {
      assert rule[4] == '*' && '*' !in rule[..4];
    }
  }

  /** A hash rule that empties the fragment: the fragment itself, `#*` or `#?*`. */
  predicate Clears(hashParam: string, hash: string) {
    hashParam == hash || hashParam == "#*" || hashParam == "#?*"
  }

  /** The effect of one `#?name` hash rule on the fragment read as a query: a wildcard
      runs `deleteWildcardParam`, then the exact name is deleted. Other hash rules do
      nothing. */
  function HashStep(h: UrlValue, hashParam: string): UrlValue {
    if StartsWith(hashParam, "#?") then
      var specialHashParam := ReplaceFirst(hashParam, "#?", "");
      var wildcardParam := GetWildcardParam(specialHashParam);
      var h1 := if wildcardParam != "" then LiveDeleted(h, wildcardParam) else h;
      Deleted(h1, specialHashParam)
    else h
  }

  function HashSteps(h: UrlValue, hashParams: seq<string>): UrlValue
    decreases |hashParams|
  {
    if hashParams == [] then h
    else HashStep(HashSteps(h, hashParams[..|hashParams| - 1]), hashParams[|hashParams| - 1])
  }

  /** `hashUrl`: a copy of the URL whose query is its fragment and which has no fragment. */
  function FragmentAsQuery(u: UrlValue): UrlValue {
    HashSet(SearchSet(u, ReplaceFirst(HashGetter(u.hash), "#", "")), "")
  }

  /** `buildURL` on values. */
  function BuildUrlValue(u: UrlValue, blockedParams: seq<string>, hashParams: seq<string>): UrlValue {
    if |blockedParams| == 0 && |hashParams| == 0 then u
    else
      var u1 := Wildcards(u, blockedParams);
      if exists k :: 0 <= k < |hashParams| && Clears(hashParams[k], HashGetter(u1.hash)) then HashSet(u1, "")
      else FragmentRewritten(u1, hashParams)
  }

  /** The end of `buildURL`: the fragment, read as a query, goes through the `#?` rules, and
      is written back only when its serialisation got shorter. */
  function FragmentRewritten(u1: UrlValue, hashParams: seq<string>): UrlValue {
    var h0 := FragmentAsQuery(u1);
    var h := HashSteps(h0, hashParams);
    if |Href(h0)| > |Href(h)| then
      var newHash := ReplaceFirst(SearchGetter(h.search), "?", "");
      HashSet(u1, if newHash != "" then "#" + newHash else "")
    else u1
  }

  /** One blocked rule of the wildcard loop of `buildURL`. */
  method DeleteWildcard(url: Url, blockedParam: string)
    modifies url
    ensures url.Value() == WildcardStep(old(url.Value()), blockedParam)
  {
    var wildcardParam := GetWildcardParam(blockedParam);
    if wildcardParam != "" {
      DeleteWildcardParam(url, wildcardParam);
    }
  }

  /** The wildcard loop of `buildURL`. */
  method DeleteWildcards(url: Url, blockedParams: seq<string>)
    modifies url
    ensures url.Value() == Wildcards(old(url.Value()), blockedParams)
  {
    ghost var u0 := url.Value();
    var i := 0;
    while i < |blockedParams|
      invariant i <= |blockedParams|
      invariant url.Value() == Wildcards(u0, blockedParams[..i])
    {
      assert blockedParams[..i + 1][..i] == blockedParams[..i];
      DeleteWildcard(url, blockedParams[i]);
      i := i + 1;
    }
    assert blockedParams[..i] == blockedParams;
  }

  /** One `#?` rule applied to the fragment copy. */
  method ApplyHashParam(hashUrl: Url, hashParam: string)
    modifies hashUrl
    ensures hashUrl.Value() == HashStep(old(hashUrl.Value()), hashParam)
  {
    if StartsWith(hashParam, "#?") {
      var specialHashParam := ReplaceFirst(hashParam, "#?", "");
      var wildcardParam := GetWildcardParam(specialHashParam);
      if wildcardParam != "" {
        DeleteWildcardParam(hashUrl, wildcardParam);
      }
      hashUrl.Delete(specialHashParam);
    }
  }

  /** The hash loop of `buildURL`: a clearing rule empties the URL's fragment and stops the
      loop; `#?` rules delete from the fragment copy `hashUrl`. */
  method ApplyHashParams(url: Url, hashUrl: Url, hashParams: seq<string>) returns (cleared: bool)
    requires url != hashUrl
    modifies url, hashUrl
    ensures cleared <==> exists k :: 0 <= k < |hashParams| && Clears(hashParams[k], HashGetter(old(url.hash)))
    ensures cleared ==> url.Value() == HashSet(old(url.Value()), "")
    ensures !cleared ==> url.Value() == old(url.Value())
    ensures !cleared ==> hashUrl.Value() == HashSteps(old(hashUrl.Value()), hashParams)
  {
    ghost var u1 := url.Value();
    ghost var h0 := hashUrl.Value();
    var j := 0;
    while j < |hashParams|
      invariant j <= |hashParams|
      invariant url.Value() == u1
      invariant forall k :: 0 <= k < j ==> !Clears(hashParams[k], HashGetter(u1.hash))
      invariant hashUrl.Value() == HashSteps(h0, hashParams[..j])
    {
      assert hashParams[..j + 1][..j] == hashParams[..j];
      var hashParam := hashParams[j];
      if hashParam == HashGetter(url.hash) || hashParam == "#*" || hashParam == "#?*" {
        url.SetHash("");
        return true;
      }
      ApplyHashParam(hashUrl, hashParam);
      j := j + 1;
    }
    assert hashParams[..j] == hashParams;
    return false;
  }

  /** `buildURL` */
  method BuildUrl(url: Url, blockedParams: seq<string>, hashParams: seq<string>)
    modifies url
    ensures url.Value() == BuildUrlValue(old(url.Value()), blockedParams, hashParams)
  {
    if |blockedParams| == 0 && |hashParams| == 0 {
      return;
    }
    DeleteWildcards(url, blockedParams);
    var hashUrl := new Url(url.Value());
    hashUrl.SetSearch(ReplaceFirst(HashGetter(hashUrl.hash), "#", ""));
    hashUrl.SetHash("");
    var searchParamsBefore := Href(hashUrl.Value());
    var cleared := ApplyHashParams(url, hashUrl, hashParams);
    if cleared {
      return;
    }
    if |searchParamsBefore| > |Href(hashUrl.Value())| {
      var newHash := ReplaceFirst(SearchGetter(hashUrl.search), "?", "");
      url.SetHash(if newHash != "" then "#" + newHash else "");
    }
  }

  // ---------------------------------------------------------------------------------------
  // What buildURL does

  /** The hash rule `rule` deletes fragment pairs with this name: `#?name` deletes `name`,
      and `#?prefix*` also the names starting with `prefix`. */
  predicate HashRuleRemoves(rule: string, name: string) {
    StartsWith(rule, "#?") && (name == ReplaceFirst(rule, "#?", "") || Covers(ReplaceFirst(rule, "#?", ""), name))
  }

  predicate HashRemoves(hashParams: seq<string>, name: string)
    decreases |hashParams|
  {
    hashParams != [] &&
    (HashRemoves(hashParams[..|hashParams| - 1], name) || HashRuleRemoves(hashParams[|hashParams| - 1], name))
  }

  /** One `#?` rule only removes pairs it names or covers, keeps the others, and leaves
      the pairs as they are exactly when it names or covers none of them. */
  lemma HashStepEffect(h: UrlValue, rule: string)
    ensures var r := HashStep(h, rule);
      && Sublist(r.params, h.params)
      && (forall p :: p in h.params && !HashRuleRemoves(rule, p.0) ==> p in r.params)
      && (forall p: Pair :: !HashRuleRemoves(rule, p.0) ==> multiset(r.params)[p] == multiset(h.params)[p])
      && (r.params == h.params <==> forall j :: 0 <= j < |h.params| ==> !HashRuleRemoves(rule, h.params[j].0))
      && r.(search := h.search, params := h.params) == h
      && (r == h || r.search == Search(r.params))
  {
    if StartsWith(rule, "#?") {
      var special := ReplaceFirst(rule, "#?", "");
      NameRuleStep(h, special, GetWildcardParam(special));
    } else {
      SublistRefl(h.params);
    }
  }

  /** The body of a `#?` rule: the wildcard deletion, if any, then the exact name. */
  lemma NameRuleStep(h: UrlValue, special: string, wildcardParam: string)
    ensures var h1 := if wildcardParam != "" then LiveDeleted(h, wildcardParam) else h;
      var r := Deleted(h1, special);
      && Sublist(r.params, h.params)
      && (forall p :: p in h.params && p.0 != special && !(wildcardParam != "" && StartsWith(p.0, wildcardParam)) ==> p in r.params)
      && (forall p: Pair :: p.0 != special && !(wildcardParam != "" && StartsWith(p.0, wildcardParam)) ==>
            multiset(r.params)[p] == multiset(h.params)[p])
      && (r.params == h.params <==>
            forall j :: 0 <= j < |h.params| ==> h.params[j].0 != special && !(wildcardParam != "" && StartsWith(h.params[j].0, wildcardParam)))
      && r.(search := h.search, params := h.params) == h
      && r.search == Search(r.params)
  {
    var h1 := if wildcardParam != "" then LiveDeleted(h, wildcardParam) else h;
    var r := Deleted(h1, special);
    if wildcardParam != "" {
      LiveDeletedEffect(h, wildcardParam);
    } else {
      SublistRefl(h.params);
    }
    SublistTrans(r.params, h1.params, h.params);
    if r.params == h.params {
      SublistLength(r.params, h1.params);
      SublistLength(h1.params, h.params);
      forall j | 0 <= j < |h.params|
        ensures h.params[j].0 != special
      {
        if h.params[j].0 == special {
          WithoutKeyLive(h1.params, j);
        }
      }
    } else if forall j :: 0 <= j < |h.params| ==> h.params[j].0 != special && !(wildcardParam != "" && StartsWith(h.params[j].0, wildcardParam)) {
      assert h1.params == h.params;
      WithoutKeysNone(h1.params, {special});
    }
  }

  /** The hash rules only remove fragment pairs some rule names or covers, keep every pair
      no rule deletes, and keep all of them exactly when no rule deletes any; only the
      query of the copy changes. */
  lemma HashStepsEffect(h0: UrlValue, hashParams: seq<string>)
    ensures var h := HashSteps(h0, hashParams);
      && (forall p :: p in h.params ==> p in h0.params)
      && (forall p :: p in h0.params && !HashRemoves(hashParams, p.0) ==> p in h.params)
      && (forall p: Pair :: !HashRemoves(hashParams, p.0) ==> multiset(h.params)[p] == multiset(h0.params)[p])
      && Sublist(h.params, h0.params)
      && h.(search := h0.search, params := h0.params) == h0
      && (h == h0 || h.search == Search(h.params))
      && (h.params == h0.params <==> forall j :: 0 <= j < |h0.params| ==> !HashRemoves(hashParams, h0.params[j].0))
  {
    HashStepsKeeps(h0, hashParams);
    HashStepsUnchanged(h0, hashParams);
    var h := HashSteps(h0, hashParams);
    forall p | p in h.params
      ensures p in h0.params
    {
      SublistMembers(h.params, h0.params, p);
    }
  }

  lemma {:induction false} HashStepsKeeps(h0: UrlValue, hashParams: seq<string>)
    ensures var h := HashSteps(h0, hashParams);
      && (forall p :: p in h0.params && !HashRemoves(hashParams, p.0) ==> p in h.params)
      && (forall p: Pair :: !HashRemoves(hashParams, p.0) ==> multiset(h.params)[p] == multiset(h0.params)[p])
      && Sublist(h.params, h0.params)
      && h.(search := h0.search, params := h0.params) == h0
      && (h == h0 || h.search == Search(h.params))
    decreases |hashParams|
  {
    if hashParams == [] {
      SublistRefl(h0.params);
    } else {
      var init := hashParams[..|hashParams| - 1];
      HashStepsKeeps(h0, init);
      var prev := HashSteps(h0, init);
      HashStepEffect(prev, hashParams[|hashParams| - 1]);
      SublistTrans(HashSteps(h0, hashParams).params, prev.params, h0.params);
    }
  }

  lemma {:induction false} HashStepsUnchanged(h0: UrlValue, hashParams: seq<string>)
    ensures HashSteps(h0, hashParams).params == h0.params <==>
              forall j :: 0 <= j < |h0.params| ==> !HashRemoves(hashParams, h0.params[j].0)
    decreases |hashParams|
  {
    if hashParams != [] {
      var init := hashParams[..|hashParams| - 1];
      HashStepsUnchanged(h0, init);
      HashStepsKeeps(h0, init);
      var prev := HashSteps(h0, init);
      var h := HashSteps(h0, hashParams);
      HashStepEffect(prev, hashParams[|hashParams| - 1]);
      if h.params == h0.params {
        SublistLength(h.params, prev.params);
        SublistLength(prev.params, h0.params);
      }
    }
  }

  /** The fragment text as the `search` setter sees it: without its `#` and one `?`. */
  function FragmentText(hash: string): string {
    var s := ReplaceFirst(HashGetter(hash), "#", "");
    if s != "" && s[0] == '?' then s[1..] else s
  }

  /** The pairs the fragment holds when read as a query. */
  function FragmentPairs(hash: string): seq<Pair> {
    ParseQuery(FragmentText(hash))
  }

  /** A fragment spelled the way a query is serialised, with at least one pair. */
  predicate CanonicalFragment(hash: string) {
    FragmentPairs(hash) != [] && FragmentText(hash) == Join(Texts(FragmentPairs(hash)), "&")
  }

  lemma FragmentAsQueryShape(u: UrlValue)
    requires u.hash == "" || u.hash[0] == '#'
    requires CanonicalFragment(u.hash)
    ensures var h0 := FragmentAsQuery(u);
      && h0.params == FragmentPairs(u.hash)
      && |Href(h0)| == |u.scheme| + 2 + |u.hostname| + |u.pathname| + Weight(FragmentPairs(u.hash))
      && Weight(FragmentPairs(u.hash)) < |u.hash| + 1
  {
    var fq := FragmentPairs(u.hash);
    JoinTextsLength(fq);
    var x := HashGetter(u.hash);
    assert ParseQuery("") == [];
    assert IndexOf("", "#") == -1;
    assert x != "";
    assert x == u.hash;
    ReplaceFirstAtStart(x, "#", "");
  }

  /** The fragment written from the kept pairs: none left gives no fragment, otherwise
      `#` and their serialisation, which reads back as the kept pairs. */
  lemma NewFragment(u1: UrlValue, kept: seq<Pair>)
    requires Plain(kept)
    ensures var newHash := ReplaceFirst(SearchGetter(Search(kept)), "?", "");
      var r := HashSet(u1, if newHash != "" then "#" + newHash else "");
      && (kept == [] ==> r.hash == "")
      && (kept != [] ==> r.hash != "" && |r.hash| == Weight(kept) && ParseQuery(r.hash[1..]) == kept)
  {
    if kept == [] {
      assert IndexOf("", "?") == -1;
    } else {
      var text := Join(Texts(kept), "&");
      JoinTextsLength(kept);
      assert Search(kept) == "?" + text && text != "";
      assert SearchGetter(Search(kept)) == Search(kept);
      ReplaceFirstAtStart(Search(kept), "?", "");
      assert ReplaceFirst(Search(kept), "?", "") == text;
      assert ("#" + text)[0] == '#' && ("#" + text)[1..] == text;
      ParseSerialised(kept);
    }
  }

  /** Apart from the wildcard deletions, `buildURL` only ever changes the fragment. */
  lemma BuildUrlHashOnly(u: UrlValue, blockedParams: seq<string>, hashParams: seq<string>)
    ensures var r := BuildUrlValue(u, blockedParams, hashParams);
      && (|blockedParams| == 0 && |hashParams| == 0 ==> r == u)
      && (|blockedParams| > 0 || |hashParams| > 0 ==> r.(hash := u.hash) == Wildcards(u, blockedParams).(hash := u.hash))
  {
    if |blockedParams| > 0 || |hashParams| > 0 {
      var u1 := Wildcards(u, blockedParams);
      var r := BuildUrlValue(u, blockedParams, hashParams);
      if exists k :: 0 <= k < |hashParams| && Clears(hashParams[k], HashGetter(u1.hash)) {
        assert r == HashSet(u1, "");
      } else {
        assert r == FragmentRewritten(u1, hashParams);
        assert r.(hash := u1.hash) == u1;
      }
    }
  }

  /** `buildURL` leaves the scheme, host and path alone, keeps only query pairs it had and
      every pair no wildcard rule covers, and returns the URL untouched when it has no rules
      at all. */
  lemma BuildUrlQuery(u: UrlValue, blockedParams: seq<string>, hashParams: seq<string>)
    ensures var r := BuildUrlValue(u, blockedParams, hashParams);
      && r.scheme == u.scheme && r.hostname == u.hostname && r.pathname == u.pathname
      && Sublist(r.params, u.params)
      && (forall p :: p in r.params ==> p in u.params)
      && (forall p :: p in u.params && !WildcardCovers(blockedParams, p.0) ==> p in r.params)
      && (forall p: Pair :: !WildcardCovers(blockedParams, p.0) ==> multiset(r.params)[p] == multiset(u.params)[p])
      && (|blockedParams| == 0 && |hashParams| == 0 ==> r == u)
  {
    WildcardsEffect(u, blockedParams);
    BuildUrlHashOnly(u, blockedParams, hashParams);
  }

  /** A clearing hash rule removes the fragment; the query deletions stay. */
  lemma BuildUrlClears(u: UrlValue, blockedParams: seq<string>, hashParams: seq<string>)
    requires exists k :: 0 <= k < |hashParams| && Clears(hashParams[k], HashGetter(u.hash))
    ensures BuildUrlValue(u, blockedParams, hashParams).hash == ""
    ensures BuildUrlValue(u, blockedParams, hashParams).params == Wildcards(u, blockedParams).params
  {
    WildcardsEffect(u, blockedParams);
  }

  /** For a fragment spelled like a serialised query, the fragment changes exactly when a
      `#?` rule deletes one of its pairs, and then it reads back as the pairs that remain. */
  lemma FragmentRewrittenEffect(u1: UrlValue, hashParams: seq<string>)
    requires u1.hash == "" || u1.hash[0] == '#'
    requires CanonicalFragment(u1.hash)
    ensures var r := FragmentRewritten(u1, hashParams);
      var fq := FragmentPairs(u1.hash);
      && (r.hash == u1.hash <==> forall j :: 0 <= j < |fq| ==> !HashRemoves(hashParams, fq[j].0))
      && (r.hash != u1.hash && r.hash != "" ==> r.hash[0] == '#' && Sublist(ParseQuery(r.hash[1..]), fq))
      && (r.hash != u1.hash && r.hash != "" ==>
            forall p :: p in fq && !HashRemoves(hashParams, p.0) ==> p in ParseQuery(r.hash[1..]))
      && (r.hash != u1.hash && r.hash != "" ==>
            forall p: Pair :: !HashRemoves(hashParams, p.0) ==> multiset(ParseQuery(r.hash[1..]))[p] == multiset(fq)[p])
      && (r.hash == "" ==> forall j :: 0 <= j < |fq| ==> HashRemoves(hashParams, fq[j].0))
  {
    var fq := FragmentPairs(u1.hash);
    var h0 := FragmentAsQuery(u1);
    var h := HashSteps(h0, hashParams);
    FragmentShrinks(u1, hashParams);
    var r := FragmentRewritten(u1, hashParams);
    if h.params == fq {
      assert r == u1;
    } else {
      var newHash := ReplaceFirst(SearchGetter(h.search), "?", "");
      assert r == HashSet(u1, if newHash != "" then "#" + newHash else "");
      NewFragment(u1, h.params);
      if h.params == [] {
        assert r.hash == "" && u1.hash != "";
        forall j | 0 <= j < |fq|
          ensures HashRemoves(hashParams, fq[j].0)
        {
          assert fq[j] in fq;
        }
      } else {
        assert |r.hash| < |u1.hash|;
      }
    }
  }

  /** The fragment pairs run through the `#?` rules: the serialisation gets shorter exactly
      when some pair is deleted, that is, when a rule deletes one of the fragment's names. */
  lemma FragmentShrinks(u1: UrlValue, hashParams: seq<string>)
    requires u1.hash == "" || u1.hash[0] == '#'
    requires CanonicalFragment(u1.hash)
    ensures var fq := FragmentPairs(u1.hash);
      var h0 := FragmentAsQuery(u1);
      var h := HashSteps(h0, hashParams);
      && u1.hash != "" && h.search == Search(h.params)
      && Plain(h.params) && Sublist(h.params, fq)
      && (forall p :: p in fq && !HashRemoves(hashParams, p.0) ==> p in h.params)
      && (forall p: Pair :: !HashRemoves(hashParams, p.0) ==> multiset(h.params)[p] == multiset(fq)[p])
      && (|Href(h0)| > |Href(h)| <==> h.params != fq)
      && (h.params != fq ==> Weight(h.params) < |u1.hash|)
      && (h.params == fq <==> forall j :: 0 <= j < |fq| ==> !HashRemoves(hashParams, fq[j].0))
  {
    var fq := FragmentPairs(u1.hash);
    var h0 := FragmentAsQuery(u1);
    FragmentAsQueryShape(u1);
    var h := HashSteps(h0, hashParams);
    HashStepsEffect(h0, hashParams);
    ParseQueryPlain(FragmentText(u1.hash));
    PlainSublist(h.params, fq);
    SublistWeight(h.params, fq);
    SearchLength(h.params);
  }

  /** Without a clearing rule, and for a fragment spelled like a serialised query,
      `buildURL` changes the fragment exactly when a `#?` rule deletes one of its pairs;
      the new fragment reads back as the pairs that remain, and is absent when none do. */
  lemma BuildUrlFragment(u: UrlValue, blockedParams: seq<string>, hashParams: seq<string>)
    requires u.hash == "" || u.hash[0] == '#'
    requires CanonicalFragment(u.hash)
    requires forall k :: 0 <= k < |hashParams| ==> !Clears(hashParams[k], HashGetter(u.hash))
    ensures var r := BuildUrlValue(u, blockedParams, hashParams);
      var fq := FragmentPairs(u.hash);
      && (r.hash == u.hash <==> forall j :: 0 <= j < |fq| ==> !HashRemoves(hashParams, fq[j].0))
      && (r.hash != u.hash && r.hash != "" ==> r.hash[0] == '#' && Sublist(ParseQuery(r.hash[1..]), fq))
      && (r.hash != u.hash && r.hash != "" ==>
            forall p :: p in fq && !HashRemoves(hashParams, p.0) ==> p in ParseQuery(r.hash[1..]))
      && (r.hash != u.hash && r.hash != "" ==>
            forall p: Pair :: !HashRemoves(hashParams, p.0) ==> multiset(ParseQuery(r.hash[1..]))[p] == multiset(fq)[p])
      && (r.hash == "" ==> forall j :: 0 <= j < |fq| ==> HashRemoves(hashParams, fq[j].0))
  {
    if |blockedParams| > 0 || |hashParams| > 0 {
      var u1 := Wildcards(u, blockedParams);
      BuildUrlRewritesFragment(u, blockedParams, hashParams);
      FragmentRewrittenEffect(u1, hashParams);
    }
  }

  lemma BuildUrlRewritesFragment(u: UrlValue, blockedParams: seq<string>, hashParams: seq<string>)
    requires |blockedParams| > 0 || |hashParams| > 0
    requires forall k :: 0 <= k < |hashParams| ==> !Clears(hashParams[k], HashGetter(u.hash))
    ensures Wildcards(u, blockedParams).hash == u.hash
    ensures BuildUrlValue(u, blockedParams, hashParams) == FragmentRewritten(Wildcards(u, blockedParams), hashParams)
  {
    WildcardsEffect(u, blockedParams);
  }
}
