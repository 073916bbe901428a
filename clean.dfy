/**
 * The request handler `cleanURL` (background.js): it decides whether a request is
 * redirected to a cleaned URL. The settings the extension loads at start-up are a `Config`
 * value; the one piece of state the handler keeps between requests is the
 * addons.mozilla.org slot `globalNeatURL`, a field of `Cleaner`.
 */
module Clean {
  import opened JsString
  import opened Query
  import opened Domain
  import opened Rules
  import opened Urls
  import opened Rewrite
  import opened Endings

  datatype Config = Config(enabled: bool, defaults: seq<string>, overrides: seq<string>,
                           user: seq<string>, blacklist: seq<string>, suffixes: seq<string>)

  /** `undefined` (the request goes on) or `{redirectUrl: ...}`. */
  datatype Outcome = NoRedirect | Redirect(redirectUrl: string)

  const AddonsHost := "addons.mozilla.org"
  const MainFrame := "main_frame"

  /** The raw host ends with one of the blacklisted domains. */
  predicate Blacklisted(host: string, blacklist: seq<string>) {
    exists k :: 0 <= k < |blacklist| && EndsWith(host, blacklist[k])
  }

  /** The blacklist loop of `cleanURL`. */
  method IsBlacklisted(host: string, blacklist: seq<string>) returns (b: bool)
    ensures b <==> Blacklisted(host, blacklist)
  {
    var i := 0;
    while i < |blacklist|
      invariant i <= |blacklist|
      invariant forall k :: 0 <= k < i ==> !EndsWith(host, blacklist[k])
    {
      if EndsWith(host, blacklist[i]) {
        return true;
      }
      i := i + 1;
    }
    return false;
  }

  /** The rule lists `cleanURL` works with for this URL. */
  datatype RuleLists = RuleLists(blocked: seq<string>, hash: seq<string>, ending: seq<string>)

  function RuleListsFor(cfg: Config, u: UrlValue): RuleLists {
    var domain := StripWww(u.hostname);
    var ms := Matches(EffectiveRules(cfg.defaults, cfg.overrides, cfg.user), domain,
                      RootDomain(domain, cfg.suffixes), DomainMinusSuffix(domain, cfg.suffixes), u.params);
    RuleLists(ExcludeAll(OfCategory(ms, BlockedParam), OfCategory(ms, ExcludeParam)),
              OfCategory(ms, HashParam), OfCategory(ms, EndingParam))
  }

  /** The rule part of `cleanURL`: the effective rules are matched against the host, sorted
      by kind, and the excludes are taken out of the blocked list. */
  method ComputeRuleLists(cfg: Config, u: UrlValue) returns (lists: RuleLists)
    ensures lists == RuleListsFor(cfg, u)
  {
    var domain := StripWww(u.hostname);
    var rootDomain := RootDomain(domain, cfg.suffixes);
    var domainMinusSuffix := DomainMinusSuffix(domain, cfg.suffixes);
    var allBlockedParams := EffectiveRules(cfg.defaults, cfg.overrides, cfg.user);
    var blockedParams, hashParams, endingParams, excludeParams :=
      ClassifyMatches(allBlockedParams, domain, rootDomain, domainMinusSuffix, u.params);
    blockedParams := ApplyExcludes(blockedParams, excludeParams);
    lists := RuleLists(blockedParams, hashParams, endingParams);
  }

  /** The exact-name deletion, `buildURL` and `removeEndings`, in this order. */
  function Rewritten(u: UrlValue, lists: RuleLists): UrlValue {
    var u2 := DeletedKeys(u, set b | b in lists.blocked);
    RemoveEndingsValue(BuildUrlValue(u2, lists.blocked, lists.hash), lists.ending)
  }

  method ApplyRuleLists(url: Url, lists: RuleLists)
    modifies url
    ensures url.Value() == Rewritten(old(url.Value()), lists)
  {
    DeleteBlockedParams(url, lists.blocked);
    BuildUrl(url, lists.blocked, lists.hash);
    RemoveEndings(url, lists.ending);
  }

  /** The rewritten URL keeps the scheme and host and a prefix of the path, and keeps only
      query pairs it had, in their order, none with a blocked name. When the path is left
      alone, every pair whose name no rule blocks or covers is still there; a pair a
      wildcard covers may survive, as the wildcard sweep skips the pair after each hit. */
  lemma RewrittenEffect(u: UrlValue, lists: RuleLists)
    ensures var r := Rewritten(u, lists);
      && r.scheme == u.scheme && r.hostname == u.hostname
      && StartsWith(u.pathname, r.pathname)
      && Sublist(r.params, u.params)
      && (forall p :: p in r.params ==> p in u.params && p.0 !in lists.blocked)
      && (r.pathname == u.pathname ==>
            forall p :: p in u.params && p.0 !in lists.blocked && !WildcardCovers(lists.blocked, p.0) ==> p in r.params)
      && (r.pathname == u.pathname ==>
            forall p: Pair :: p.0 !in lists.blocked && !WildcardCovers(lists.blocked, p.0) ==>
              multiset(r.params)[p] == multiset(u.params)[p])
  {
    var u2 := DeletedKeys(u, set b | b in lists.blocked);
    var u3 := BuildUrlValue(u2, lists.blocked, lists.hash);
    BuildUrlQuery(u2, lists.blocked, lists.hash);
    SublistTrans(u3.params, u2.params, u.params);
    RemoveEndingsEffect(u3, lists.ending);
    var r := Rewritten(u, lists);
    if r.pathname == u3.pathname {
      assert r == u3;
    } else {
      assert r.params == [];
    }
  }

  /** With the one rule `rule` and no pair named after it, the rewrite only runs the
      wildcard loop on the query. */
  lemma RewrittenWildcardOnly(u: UrlValue, rule: string)
    requires forall j :: 0 <= j < |u.params| ==> u.params[j].0 != rule
    ensures Rewritten(u, RuleLists([rule], [], [])).params == Wildcards(u, [rule]).params
  {
    var blocked := [rule];
    var names := set b | b in blocked;
    assert names == {rule};
    assert !HasKeyIn(u.params, names);
    var u3 := BuildUrlValue(u, blocked, []);
    BuildUrlHashOnly(u, blocked, []);
    RemoveEndingsEffect(u3, []);
    assert RemoveEndingsValue(u3, []) == u3;
  }

  /** The skip reaches the redirect: with the one rule `utm_*`, the query
      `utm_source=a&utm_medium=b` comes out as `utm_medium=b`. */
  lemma RewrittenSkips(u: UrlValue)
    requires u.params == [("utm_source", "a"), ("utm_medium", "b")]
    ensures Rewritten(u, RuleLists(["utm_*"], [], [])).params == [("utm_medium", "b")]
  {
    assert forall j :: 0 <= j < |u.params| ==> u.params[j].0 != "utm_*" by {
      assert u.params[0].0 != "utm_*" && u.params[1].0 != "utm_*";
    }
    RewrittenWildcardOnly(u, "utm_*");
    WildcardsSkip(u);
  }

  /** Because of the skip, rewriting is not idempotent: the rewritten URL of
      `utm_source=a&utm_medium=b` under `utm_*` is rewritten again, to an empty query, so
      the next request for it would be redirected once more. */
  lemma RewrittenNotIdempotent(u: UrlValue)
    requires u.params == [("utm_source", "a"), ("utm_medium", "b")]
    ensures var lists := RuleLists(["utm_*"], [], []);
      && Rewritten(u, lists).params == [("utm_medium", "b")]
      && Rewritten(Rewritten(u, lists), lists).params == []
      && Rewritten(Rewritten(u, lists), lists) != Rewritten(u, lists)
  {
    var lists := RuleLists(["utm_*"], [], []);
    RewrittenSkips(u);
    var r1 := Rewritten(u, lists);
    RewrittenWildcardOnly(r1, "utm_*");
    WildcardsAgain(r1);
  }

  /** The URL `cleanURL` redirects to. */
  function Lean(cfg: Config, u: UrlValue): UrlValue {
    Rewritten(u, RuleListsFor(cfg, u))
  }

  lemma LeanHost(cfg: Config, u: UrlValue)
    ensures Lean(cfg, u).hostname == u.hostname
  {
    RewrittenEffect(u, RuleListsFor(cfg, u));
  }

  /** The end of `cleanURL` once the lean URL is known: no change is no redirect, and on
      addons.mozilla.org only a top-level navigation to a target not already pending is
      redirected. */
  function Decision(href: string, lean: UrlValue, requestType: string, pending: string): Outcome {
    if href == Href(lean) then NoRedirect
    else if lean.hostname == AddonsHost && (requestType != MainFrame || pending == Href(lean)) then NoRedirect
    else Redirect(Href(lean))
  }

  /** What `cleanURL` returns, given the slot `pending` as it is when the request comes. */
  function CleanSpec(cfg: Config, u: UrlValue, requestType: string, pending: string): Outcome {
    if !cfg.enabled || Blacklisted(u.hostname, cfg.blacklist) then NoRedirect
    else Decision(Href(u), Lean(cfg, u), requestType, pending)
  }

  /** The slot after the request: a redirect to addons.mozilla.org records its target. */
  function PendingAfter(cfg: Config, u: UrlValue, requestType: string, pending: string): string {
    var outcome := CleanSpec(cfg, u, requestType, pending);
    if outcome.Redirect? && Lean(cfg, u).hostname == AddonsHost then outcome.redirectUrl else pending
  }

  /** A disabled extension or a blacklisted host never redirects; a redirect always goes to
      the cleaned URL, which differs from the requested one; and for any other host than
      addons.mozilla.org a change is always a redirect. */
  lemma CleanOutcome(cfg: Config, u: UrlValue, requestType: string, pending: string)
    ensures var outcome := CleanSpec(cfg, u, requestType, pending);
      && (!cfg.enabled || Blacklisted(u.hostname, cfg.blacklist) ==> outcome == NoRedirect)
      && (outcome.Redirect? ==> outcome.redirectUrl == Href(Lean(cfg, u)) && outcome.redirectUrl != Href(u))
      && (cfg.enabled && !Blacklisted(u.hostname, cfg.blacklist) && u.hostname != AddonsHost ==>
            outcome == if Href(Lean(cfg, u)) == Href(u) then NoRedirect else Redirect(Href(Lean(cfg, u))))
  {
    if cfg.enabled && !Blacklisted(u.hostname, cfg.blacklist) {
      var lean := Lean(cfg, u);
      LeanHost(cfg, u);
      assert CleanSpec(cfg, u, requestType, pending) == Decision(Href(u), lean, requestType, pending);
    }
  }

  /** On addons.mozilla.org only a top-level navigation to a target not already pending is
      redirected, and the redirect fills the slot, so the same request a second time is not. */
  lemma AddonsOnce(cfg: Config, u: UrlValue, requestType: string, pending: string)
    requires u.hostname == AddonsHost
    ensures CleanSpec(cfg, u, requestType, pending).Redirect? ==> requestType == MainFrame
    ensures CleanSpec(cfg, u, requestType, pending).Redirect? ==>
              CleanSpec(cfg, u, requestType, PendingAfter(cfg, u, requestType, pending)) == NoRedirect
  {
    if CleanSpec(cfg, u, requestType, pending).Redirect? {
      var lean := Lean(cfg, u);
      LeanHost(cfg, u);
      assert CleanSpec(cfg, u, requestType, pending) == Decision(Href(u), lean, requestType, pending);
      assert PendingAfter(cfg, u, requestType, pending) == Href(lean);
      assert CleanSpec(cfg, u, requestType, Href(lean)) == Decision(Href(u), lean, requestType, Href(lean));
    }
  }

  class Cleaner {
    /** `globalNeatURL`: the cleaned addons.mozilla.org URL waiting to be applied. */
    var pending: string

    constructor ()
      ensures pending == ""
    {
      pending := "";
    }

    /** `cleanURL` */
    method CleanUrl(cfg: Config, u: UrlValue, requestType: string) returns (outcome: Outcome)
      modifies this
      ensures outcome == CleanSpec(cfg, u, requestType, old(pending))
      ensures pending == PendingAfter(cfg, u, requestType, old(pending))
    {
      if !cfg.enabled {
        return NoRedirect;
      }
      var blacklisted := IsBlacklisted(u.hostname, cfg.blacklist);
      if blacklisted {
        return NoRedirect;
      }
      var url := new Url(u);
      var lists := ComputeRuleLists(cfg, u);
      ApplyRuleLists(url, lists);
      assert url.Value() == Lean(cfg, u);

      outcome := Respond(Href(u), url, requestType);
    }

    /** The redirect decision and the addons.mozilla.org slot. */
    method Respond(href: string, leanUrl: Url, requestType: string) returns (outcome: Outcome)
      modifies this
      ensures outcome == Decision(href, leanUrl.Value(), requestType, old(pending))
      ensures pending == if outcome.Redirect? && leanUrl.hostname == AddonsHost then outcome.redirectUrl
                         else old(pending)
    {
      var leanHref := Href(leanUrl.Value());
      if href == leanHref {
        return NoRedirect;
      }
      if leanUrl.hostname == AddonsHost {
        if requestType != MainFrame {
          return NoRedirect;
        }
        if pending == leanHref {
          return NoRedirect;
        }
        pending := leanHref;
      }
      return Redirect(leanHref);
    }
  }
}
