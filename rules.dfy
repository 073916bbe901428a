/**
 * Rule matching and classification (background.js, `getParameterForDomainUrl`,
 * `removeFromArray` and the rule loop of `cleanURL`).
 *
 * A rule is `key` or `key@domain`, where `domain` may carry a leading `*.` (compare with the
 * root domain) or a trailing `.*` (compare with the domain minus its suffix). A matching
 * rule yields its key; the key's first character says what kind of parameter it is.
 */
module Rules {
  import opened JsString
  import opened Query

  /** The one-off workaround for `gws_rd=cr` on Google (issue 76 of the extension). */
  predicate GwsException(rule: string, rootDomain: string, query: seq<Pair>) {
    rule == "gws_rd@google.*" && rootDomain == "google.com" && Get(query, "gws_rd") == Some("cr")
  }

  /** `getParameterForDomainUrl`: the rule's key when it applies to this domain, else "". */
  function MatchRule(rule: string, domain: string, rootDomain: string, domainMinusSuffix: string,
                     query: seq<Pair>): (r: string)
    ensures '@' !in rule ==> r == rule
    ensures '@' in rule ==> r == "" || r == rule[..IndexOfChar(rule, '@')]
    ensures GwsException(rule, rootDomain, query) ==> r == ""
  {
    if '@' !in rule then rule
    else if GwsException(rule, rootDomain, query) then ""
    else
      var at := IndexOfChar(rule, '@');
      MatchDomain(rule[..at], rule[at + 1..], domain, rootDomain, domainMinusSuffix)
  }

  /** The domain checks of `getParameterForDomainUrl`, in their order; each check that
      recognises its wildcard strips it from the pattern the later checks see. The `.*` and
      the `*.` are removed where they first occur, as `String.replace` does. */
  function MatchDomain(keyValue: string, keyDomain: string, domain: string, rootDomain: string,
                       domainMinusSuffix: string): (r: string)
    ensures r == "" || r == keyValue
  {
    var keyDomain1 := WithoutRootWildcard(keyDomain);
    if StartsWith(keyDomain, "*.") && rootDomain == keyDomain1 then keyValue
    else
      var keyDomain2 := WithoutSuffixWildcard(keyDomain1);
      if EndsWith(keyDomain1, ".*") && domainMinusSuffix == keyDomain2 then keyValue
      else
        var doubleWild := StartsWith(keyDomain2, "*.") && EndsWith(keyDomain2, ".*");
        var keyDomain3 := if doubleWild then ReplaceFirst(ReplaceFirst(keyDomain2, "*.", ""), ".*", "")
                          else keyDomain2;
        if doubleWild && rootDomain == keyDomain3 && domainMinusSuffix == keyDomain3 then keyValue
        else if domain == keyDomain3 then keyValue
        else ""
  }

  /** The pattern after the root-wildcard check: its first `*.` removed when it starts with one. */
  function WithoutRootWildcard(keyDomain: string): string {
    if StartsWith(keyDomain, "*.") then ReplaceFirst(keyDomain, "*.", "") else keyDomain
  }

  /** The pattern after the suffix-wildcard check: its first `.*` removed when it ends with one. */
  function WithoutSuffixWildcard(keyDomain: string): string {
    if EndsWith(keyDomain, ".*") then ReplaceFirst(keyDomain, ".*", "") else keyDomain
  }

  lemma SplitAtFirstAt(k: string, d: string)
    requires '@' !in k
    ensures var rule := k + "@" + d;
      '@' in rule && IndexOfChar(rule, '@') == |k| && rule[..|k|] == k && rule[|k| + 1..] == d
  {
    var rule := k + "@" + d;
    assert rule[|k|] == '@';
    assert rule[..|k|] == k;
  }

  lemma NoStar(x: string)
    requires '*' !in x
    ensures !StartsWith(x, "*.") && !EndsWith(x, ".*")
  {
    if |x| >= 2 {
      assert x[..2][0] == x[0] != '*';
      assert x[|x| - 2..][1] == x[|x| - 1] != '*';
    }
  }

  lemma DropTrailingWildcard(x: string)
    requires '*' !in x
    ensures EndsWith(x + ".*", ".*") && ReplaceFirst(x + ".*", ".*", "") == x
  {
    var s := x + ".*";
    assert s[|x|..] == ".*";
    assert OccursAt(s, ".*", |x|);
    forall j | 0 <= j < |x|
      ensures !OccursAt(s, ".*", j)
    {
      assert s[j + 1] != '*' by {
        if j + 1 < |x| {
          assert s[j + 1] == x[j + 1];
        }
      }
      assert s[j..j + 2][1] == s[j + 1];
    }
    assert IndexOf(s, ".*") == |x|;
    assert s[..|x|] == x;
  }

  lemma DropLeadingWildcard(x: string)
    ensures StartsWith("*." + x, "*.") && ReplaceFirst("*." + x, "*.", "") == x
  {
    ReplaceFirstAtStart("*." + x, "*.", "");
    assert ("*." + x)[2..] == x;
  }

  /** Only the rule `gws_rd@google.*` itself can be the Google workaround. */
  lemma NotGws(k: string, d: string, rootDomain: string, query: seq<Pair>)
    requires '@' !in k && d != "google.*"
    ensures !GwsException(k + "@" + d, rootDomain, query)
  {
    SplitAtFirstAt(k, d);
    var g := "gws_rd@google.*";
    assert g[6] == '@';
    assert '@' !in g[..6];
    assert IndexOfChar(g, '@') == 6;
    assert g[7..] == "google.*";
  }

  /** Outside the Google workaround, a `key@domain` rule is decided by its domain checks. */
  lemma MatchByDomain(k: string, d: string, domain: string, rootDomain: string,
                      domainMinusSuffix: string, query: seq<Pair>)
    requires '@' !in k && !GwsException(k + "@" + d, rootDomain, query)
    ensures MatchRule(k + "@" + d, domain, rootDomain, domainMinusSuffix, query)
            == MatchDomain(k, d, domain, rootDomain, domainMinusSuffix)
  {
    SplitAtFirstAt(k, d);
  }

  /** A rule without wildcards applies exactly on its own domain. */
  lemma MatchPlainDomain(k: string, d: string, domain: string, rootDomain: string,
                         domainMinusSuffix: string, query: seq<Pair>)
    requires '@' !in k && '*' !in d
    ensures MatchRule(k + "@" + d, domain, rootDomain, domainMinusSuffix, query)
            == if domain == d then k else ""
  {
    assert "google.*"[7] == '*';
    NotGws(k, d, rootDomain, query);
    MatchByDomain(k, d, domain, rootDomain, domainMinusSuffix, query);
    NoStar(d);
  }

  lemma DomainRootWildcard(k: string, x: string, domain: string, rootDomain: string, domainMinusSuffix: string)
    requires '*' !in x
    ensures MatchDomain(k, "*." + x, domain, rootDomain, domainMinusSuffix)
            == if rootDomain == x || domain == x then k else ""
  {
    DropLeadingWildcard(x);
    NoStar(x);
  }

  /** `*.X` applies when the root domain is `X`; failing that, the pattern is compared with
      the domain itself as `X`. */
  lemma MatchRootWildcard(k: string, x: string, domain: string, rootDomain: string,
                          domainMinusSuffix: string, query: seq<Pair>)
    requires '@' !in k && '*' !in x
    ensures MatchRule(k + "@*." + x, domain, rootDomain, domainMinusSuffix, query)
            == if rootDomain == x || domain == x then k else ""
  {
    assert k + "@*." + x == k + "@" + ("*." + x);
    assert ("*." + x)[0] == '*' != "google.*"[0];
    NotGws(k, "*." + x, rootDomain, query);
    MatchByDomain(k, "*." + x, domain, rootDomain, domainMinusSuffix, query);
    DomainRootWildcard(k, x, domain, rootDomain, domainMinusSuffix);
  }

  lemma DomainSuffixWildcard(k: string, x: string, domain: string, rootDomain: string, domainMinusSuffix: string)
    requires '*' !in x
    ensures MatchDomain(k, x + ".*", domain, rootDomain, domainMinusSuffix)
            == if domainMinusSuffix == x || domain == x then k else ""
  {
    DropTrailingWildcard(x);
    NoStar(x);
    if |x + ".*"| >= 2 {
      assert (x + ".*")[..2][0] == (x + ".*")[0] != '*' by {
        if |x| > 0 {
          assert (x + ".*")[0] == x[0];
        }
      }
    }
    assert !StartsWith(x + ".*", "*.");
  }

  /** `X.*` applies when the domain minus its suffix is `X`; failing that, the pattern is
      compared with the domain itself as `X` (unless the Google workaround applies). */
  lemma MatchSuffixWildcard(k: string, x: string, domain: string, rootDomain: string,
                            domainMinusSuffix: string, query: seq<Pair>)
    requires '@' !in k && '*' !in x
    ensures var rule := k + "@" + x + ".*";
      MatchRule(rule, domain, rootDomain, domainMinusSuffix, query)
      == if GwsException(rule, rootDomain, query) then ""
         else if domainMinusSuffix == x || domain == x then k else ""
  {
    var rule := k + "@" + x + ".*";
    assert rule == k + "@" + (x + ".*");
    if !GwsException(rule, rootDomain, query) {
      MatchByDomain(k, x + ".*", domain, rootDomain, domainMinusSuffix, query);
      DomainSuffixWildcard(k, x, domain, rootDomain, domainMinusSuffix);
    }
  }

  lemma DomainDoubleWildcard(k: string, x: string, domain: string, rootDomain: string, domainMinusSuffix: string)
    requires '*' !in x
    ensures MatchDomain(k, "*." + (x + ".*"), domain, rootDomain, domainMinusSuffix)
            == if rootDomain == x + ".*" || domainMinusSuffix == x || domain == x then k else ""
  {
    DropLeadingWildcard(x + ".*");
    DropTrailingWildcard(x);
    NoStar(x);
  }

  /** `*.X.*` applies as soon as the domain minus its suffix is `X`: the second check already
      sees `X`, so the double-wildcard check of the source is never reached for such a
      pattern. */
  lemma MatchDoubleWildcard(k: string, x: string, domain: string, rootDomain: string,
                            domainMinusSuffix: string, query: seq<Pair>)
    requires '@' !in k && '*' !in x
    ensures MatchRule(k + "@*." + x + ".*", domain, rootDomain, domainMinusSuffix, query)
            == if rootDomain == x + ".*" || domainMinusSuffix == x || domain == x then k else ""
  {
    assert k + "@*." + x + ".*" == k + "@" + ("*." + (x + ".*"));
    assert ("*." + (x + ".*"))[0] == '*' != "google.*"[0];
    NotGws(k, "*." + (x + ".*"), rootDomain, query);
    MatchByDomain(k, "*." + (x + ".*"), domain, rootDomain, domainMinusSuffix, query);
    DomainDoubleWildcard(k, x, domain, rootDomain, domainMinusSuffix);
  }

  // ---------------------------------------------------------------------------------------
  // The effective rule list

  /** The entries of `s` that are not in `drop`, in their order (`Array.filter`). */
  function Keep(s: seq<string>, drop: seq<string>): (r: seq<string>)
    ensures Sublist(r, s)
    ensures forall x :: x in r <==> x in s && x !in drop
    ensures forall x :: multiset(r)[x] == if x in drop then 0 else multiset(s)[x]
  {
    if s == [] then []
    else
      var rest := Keep(s[1..], drop);
      assert s == [s[0]] + s[1..];
      if s[0] in drop then rest
      else
        assert ([s[0]] + rest)[1..] == rest;
        [s[0]] + rest
  }

  /** The default rules that the user has not overridden, then the user's own rules. */
  function EffectiveRules(defaults: seq<string>, overrides: seq<string>, user: seq<string>): (r: seq<string>)
    ensures |r| >= |user| && r[|r| - |user|..] == user
    ensures Sublist(r[..|r| - |user|], defaults)
    ensures forall x :: x in r[..|r| - |user|] <==> x in defaults && x !in overrides
    ensures forall x :: multiset(r[..|r| - |user|])[x] == if x in overrides then 0 else multiset(defaults)[x]
  {
    var kept := Keep(defaults, overrides);
    assert (kept + user)[..|kept|] == kept;
    kept + user
  }

  // ---------------------------------------------------------------------------------------
  // Classification

  datatype Category = HashParam | EndingParam | ExcludeParam | BlockedParam

  /** The list a match goes to, by its first character. */
  function CategoryOf(m: string): Category {
    if StartsWith(m, "#") then HashParam
    else if StartsWith(m, "$") then EndingParam
    else if StartsWith(m, "!") then ExcludeParam
    else BlockedParam
  }

  /** The non-empty results of matching every rule, in rule order. */
  function Matches(rules: seq<string>, domain: string, rootDomain: string, domainMinusSuffix: string,
                   query: seq<Pair>): (ms: seq<string>)
    ensures forall j :: 0 <= j < |ms| ==> ms[j] != ""
  {
    if rules == [] then []
    else
      var m := MatchRule(rules[|rules| - 1], domain, rootDomain, domainMinusSuffix, query);
      Matches(rules[..|rules| - 1], domain, rootDomain, domainMinusSuffix, query) + (if m == "" then [] else [m])
  }

  /** The matches of one category, in their order. */
  function OfCategory(ms: seq<string>, c: Category): (r: seq<string>)
    ensures Sublist(r, ms)
    ensures forall x :: x in r <==> x in ms && CategoryOf(x) == c
  {
    if ms == [] then []
    else
      var rest := OfCategory(ms[1..], c);
      assert ms == [ms[0]] + ms[1..];
      if CategoryOf(ms[0]) == c then
        assert ([ms[0]] + rest)[1..] == rest;
        [ms[0]] + rest
      else rest
  }

  lemma {:induction false} OfCategorySnoc(ms: seq<string>, m: string, c: Category)
    ensures OfCategory(ms + [m], c) == OfCategory(ms, c) + (if CategoryOf(m) == c then [m] else [])
  {
    if ms == [] {
      assert [m][1..] == [];
    } else {
      assert (ms + [m])[1..] == ms[1..] + [m];
      OfCategorySnoc(ms[1..], m, c);
    }
  }

  /** Every match lands in exactly one of the four lists. */
  lemma CategoriesPartition(ms: seq<string>)
    ensures multiset(OfCategory(ms, HashParam)) + multiset(OfCategory(ms, EndingParam))
          + multiset(OfCategory(ms, ExcludeParam)) + multiset(OfCategory(ms, BlockedParam))
          == multiset(ms)
  {
    var all := multiset(OfCategory(ms, HashParam)) + multiset(OfCategory(ms, EndingParam))
             + multiset(OfCategory(ms, ExcludeParam)) + multiset(OfCategory(ms, BlockedParam));
    forall x
      ensures all[x] == multiset(ms)[x]
    {
      OfCategoryCount(ms, HashParam, x);
      OfCategoryCount(ms, EndingParam, x);
      OfCategoryCount(ms, ExcludeParam, x);
      OfCategoryCount(ms, BlockedParam, x);
    }
  }

  /** A category's list holds each match of that category as often as the matches do, and
      nothing else. */
  lemma {:induction false} OfCategoryCount(ms: seq<string>, c: Category, x: string)
    ensures multiset(OfCategory(ms, c))[x] == if CategoryOf(x) == c then multiset(ms)[x] else 0
  {
    if ms != [] {
      OfCategoryCount(ms[1..], c, x);
      assert ms == [ms[0]] + ms[1..];
      if CategoryOf(ms[0]) == c {
        assert OfCategory(ms, c) == [ms[0]] + OfCategory(ms[1..], c);
      }
    }
  }

  /** The four lists hold the matches `ms` of their category, in order. */
  predicate Classified(ms: seq<string>, blockedParams: seq<string>, hashParams: seq<string>,
                       endingParams: seq<string>, excludeParams: seq<string>) {
    && blockedParams == OfCategory(ms, BlockedParam)
    && hashParams == OfCategory(ms, HashParam)
    && endingParams == OfCategory(ms, EndingParam)
    && excludeParams == OfCategory(ms, ExcludeParam)
  }

  /** One match of the rule loop of `cleanURL`, pushed by its first character. */
  method PushMatch(ghost ms: seq<string>, m: string, blocked0: seq<string>, hash0: seq<string>,
                   ending0: seq<string>, exclude0: seq<string>)
    returns (blockedParams: seq<string>, hashParams: seq<string>, endingParams: seq<string>,
             excludeParams: seq<string>)
    requires Classified(ms, blocked0, hash0, ending0, exclude0)
    ensures Classified(ms + [m], blockedParams, hashParams, endingParams, excludeParams)
  {
    OfCategorySnoc(ms, m, HashParam);
    OfCategorySnoc(ms, m, EndingParam);
    OfCategorySnoc(ms, m, ExcludeParam);
    OfCategorySnoc(ms, m, BlockedParam);
    blockedParams, hashParams, endingParams, excludeParams := blocked0, hash0, ending0, exclude0;
    if StartsWith(m, "#") {
      hashParams := hashParams + [m];
    } else if StartsWith(m, "$") {
      endingParams := endingParams + [m];
    } else if StartsWith(m, "!") {
      excludeParams := excludeParams + [m];
    } else {
      blockedParams := blockedParams + [m];
    }
  }

  /** The rule loop of `cleanURL`: every non-empty match is pushed onto the list of its
      category, in rule order. */
  method ClassifyMatches(rules: seq<string>, domain: string, rootDomain: string, domainMinusSuffix: string,
                         query: seq<Pair>)
    returns (blockedParams: seq<string>, hashParams: seq<string>, endingParams: seq<string>,
             excludeParams: seq<string>)
    ensures var ms := Matches(rules, domain, rootDomain, domainMinusSuffix, query);
      && blockedParams == OfCategory(ms, BlockedParam)
      && hashParams == OfCategory(ms, HashParam)
      && endingParams == OfCategory(ms, EndingParam)
      && excludeParams == OfCategory(ms, ExcludeParam)
  {
    blockedParams, hashParams, endingParams, excludeParams := [], [], [], [];
    ghost var ms: seq<string> := [];
    var i := 0;
    while i < |rules|
      invariant 0 <= i <= |rules|
      invariant ms == Matches(rules[..i], domain, rootDomain, domainMinusSuffix, query)
      invariant Classified(ms, blockedParams, hashParams, endingParams, excludeParams)
    {
      var m := MatchRule(rules[i], domain, rootDomain, domainMinusSuffix, query);
      assert rules[..i + 1][..i] == rules[..i];
      if m != "" {
        blockedParams, hashParams, endingParams, excludeParams :=
          PushMatch(ms, m, blockedParams, hashParams, endingParams, excludeParams);
        ms := ms + [m];
      }
      i := i + 1;
    }
    assert rules[..i] == rules;
  }

  // ---------------------------------------------------------------------------------------
  // Excludes

  /** `array.indexOf(x)` */
  function IndexOfEntry(s: seq<string>, x: string): (r: int)
    ensures -1 <= r < |s|
    ensures r == -1 <==> x !in s
    ensures r >= 0 ==> s[r] == x && x !in s[..r]
  {
    if s == [] then -1
    else if s[0] == x then 0
    else
      var k := IndexOfEntry(s[1..], x);
      assert s == [s[0]] + s[1..];
      if k < 0 then -1
      else
        assert s[..k + 1] == [s[0]] + s[1..][..k];
        k + 1
  }

  /** `removeFromArray`: the first entry equal to `x` is spliced out; nothing else changes. */
  function RemoveFromArray(s: seq<string>, x: string): seq<string> {
    var i := IndexOfEntry(s, x);
    if i < 0 then s else s[..i] + s[i + 1..]
  }

  /** Without `x` the list is unchanged; otherwise the first `x` is cut out, so one copy of
      it is gone. */
  lemma RemoveFromArraySpec(s: seq<string>, x: string)
    ensures var r := RemoveFromArray(s, x);
      && (x !in s ==> r == s)
      && (x in s ==> exists i :: 0 <= i < |s| && s[i] == x && x !in s[..i] && r == s[..i] + s[i + 1..])
      && multiset(r) == multiset(s) - multiset{x}
  {
    var i := IndexOfEntry(s, x);
    if i >= 0 {
      assert s == s[..i] + [s[i]] + s[i + 1..];
    }
  }

  lemma {:induction false} SublistDropOne(s: seq<string>, i: nat)
    requires i < |s|
    ensures Sublist(s[..i] + s[i + 1..], s)
  {
    if i == 0 {
      SublistRefl(s[1..]);
      assert s[..0] + s[1..] == s[1..];
    } else {
      SublistDropOne(s[1..], i - 1);
      var t := s[..i] + s[i + 1..];
      assert t[0] == s[0];
      assert t[1..] == s[1..][..i - 1] + s[1..][i..];
    }
  }

  lemma RemoveFromArraySublist(s: seq<string>, x: string)
    ensures Sublist(RemoveFromArray(s, x), s)
  {
    var i := IndexOfEntry(s, x);
    if i < 0 {
      SublistRefl(s);
    } else {
      SublistDropOne(s, i);
    }
  }

  /** The name an exclude `!name` protects: its first `!` removed. */
  function ExcludedName(e: string): string {
    ReplaceFirst(e, "!", "")
  }

  /** The blocked list after every exclude, in order, has removed its name once. */
  function ExcludeAll(blocked: seq<string>, excludes: seq<string>): seq<string> {
    if excludes == [] then blocked
    else RemoveFromArray(ExcludeAll(blocked, excludes[..|excludes| - 1]), ExcludedName(excludes[|excludes| - 1]))
  }

  function ExcludedNames(excludes: seq<string>): (r: seq<string>)
    ensures |r| == |excludes|
    ensures forall j :: 0 <= j < |excludes| ==> r[j] == ExcludedName(excludes[j])
  {
    if excludes == [] then [] else ExcludedNames(excludes[..|excludes| - 1]) + [ExcludedName(excludes[|excludes| - 1])]
  }

  lemma MultisetMinusTwice(a: multiset<string>, b: multiset<string>, c: multiset<string>)
    ensures (a - b) - c == a - (b + c)
  {
    assert forall e :: ((a - b) - c)[e] == (a - (b + c))[e];
  }

  /** Excludes take away one copy of each excluded name (when there is one) and keep the order
      of what stays. */
  lemma {:induction false} ExcludeAllEffect(blocked: seq<string>, excludes: seq<string>)
    ensures multiset(ExcludeAll(blocked, excludes)) == multiset(blocked) - multiset(ExcludedNames(excludes))
    ensures Sublist(ExcludeAll(blocked, excludes), blocked)
  {
    if excludes == [] {
      SublistRefl(blocked);
    } else {
      var init := excludes[..|excludes| - 1];
      ExcludeAllEffect(blocked, init);
      var x := ExcludedName(excludes[|excludes| - 1]);
      RemoveFromArraySublist(ExcludeAll(blocked, init), x);
      RemoveFromArraySpec(ExcludeAll(blocked, init), x);
      SublistTrans(ExcludeAll(blocked, excludes), ExcludeAll(blocked, init), blocked);
      assert ExcludedNames(excludes) == ExcludedNames(init) + [x];
      MultisetMinusTwice(multiset(blocked), multiset(ExcludedNames(init)), multiset{x});
    }
  }

  /** The exclude loop of `cleanURL`. */
  method ApplyExcludes(blocked: seq<string>, excludes: seq<string>) returns (r: seq<string>)
    ensures r == ExcludeAll(blocked, excludes)
  {
    r := blocked;
    var i := 0;
    while i < |excludes|
      invariant 0 <= i <= |excludes|
      invariant r == ExcludeAll(blocked, excludes[..i])
    {
      assert excludes[..i + 1][..i] == excludes[..i];
      r := RemoveFromArray(r, ExcludedName(excludes[i]));
      i := i + 1;
    }
    assert excludes[..i] == excludes;
  }
}
