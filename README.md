# Neat URL: the request-cleaning engine

Neat URL is a browser extension. It removes tracking parameters from URLs before the
browser loads them. This project models in Dafny the part of `background.js` that decides,
for one request:

- which rules apply to the host: the `key@domain` rule syntax, with its root-domain and
  suffix wildcards, matched against the host with `www.` dropped, its root domain and the
  host without its public suffix;
- how the matching rules are sorted by their first character into blocked parameters, `#`
  fragment rules, `$` path endings and `!` excludes, and how an exclude takes one copy of a
  name off the blocked list;
- how the URL is rewritten:
  - exact-name query deletion;
  - `buildURL` with its wildcard rules, its fragment rules and its "only when shorter"
    guard;
  - `removeEndings`;
- what `cleanURL` returns: nothing when the extension is off, the host is blacklisted or
  nothing changed; otherwise a redirect. On addons.mozilla.org the redirect is also gated
  by the slot that remembers the pending target;
- the settings text handling: `valueOrDefaultArray`, and the pruning of user rules that
  duplicate default rules.

## Modules

- `JsString` (strings.dfy): the JavaScript string built-ins the code uses, with their
  clamping and "first occurrence only" behaviour written out.
- `Query` (query.dfy) models a query as a list of name/value pairs. It provides:
  - the filters that `URLSearchParams.delete` performs;
  - the `name=value&...` serialiser and its parser;
  - the live-iterator sweep.
- `Urls` (url.dfy): a URL value and the mutable `Url` object. The object keeps its query
  twice, as text and as a pair list, the way the WHATWG URL standard does. Its `search`
  and `hash` setters and `searchParams.delete` follow that standard's update steps.
- `Domain` (domain.dfy): `www.` stripping, `getRootDomain`, `getDomainMinusSuffix`. The
  suffix list is a parameter.
- `Rules` (rules.dfy): `getParameterForDomainUrl`, the effective rule list, the
  classification loop, `removeFromArray` and the exclude loop.
- `Rewrite` (rewrite.dfy): the exact-name deletion loop, `getWildcardParam`,
  `deleteWildcardParam` as written and corrected, and `buildURL`.
- `Endings` (endings.dfy): `applyMatch` and `removeEndings`.
- `Settings` (settings.dfy): `valueOrDefaultArray` and the list logic of
  `deleteDefaultParametersFromBlockedParameters`.
- `Clean` (clean.dfy): `cleanURL`. The settings it reads are a `Config` value. The
  addons.mozilla.org slot `globalNeatURL` is the field of the class `Cleaner`.

`deleteWildcardParam` deletes while it walks the live `keys()` iterator, so it skips the
pair after each one it deletes (see "## Findings"). The rewriting pipeline models that code
as written. The deletion it evidently intends is kept beside it, under its own names, with
its own lemmas.

## Model

| member | source | states |
|---|---|---|
| Domain.StripWww | background.js:483 | the result is a suffix of the host; it is shorter exactly when the host starts with `www.` in any letter case, and then by exactly those four characters |
| Domain.RootDomainCases | background.js:431-465 | at most two labels: the domain itself; the second-to-last label has at most three characters and its two-label suffix is listed: the last three labels; otherwise the last two labels |
| Domain.RootDomainIsSuffix | background.js:431-465 | the root domain is always a suffix of the domain |
| Domain.RootDomainLabels | background.js:441-462 | the root domain keeps all labels of a domain with at most two, three labels for a listed two-label suffix, and two otherwise |
| Domain.DomainMinusSuffix | background.js:408-427 | the result is always a prefix of the domain |
| Domain.DomainMinusSuffixCases | background.js:408-427 | when the text after the first dot is listed, the result is the text before the first dot (empty without a dot); otherwise the cut is at the last dot, or at the dot before it when the label between them has at most two characters |
| Domain.ExtensionAfterFirstDot | background.js:410 | `substring(indexOf(".") + 1)` is the text after the first dot, or the whole domain without a dot |
| Domain.PreviousDot | background.js:419-420 | `lastIndexOf(".", last - 1)` with its negative start clamped: the previous dot before the last one, or 0 when the only dot is the first character |
| Rules.MatchRule | background.js:275-326 | a rule without `@` is returned verbatim; with `@` the result is "" or exactly the text before the first `@`; the Google `gws_rd` workaround gives "" |
| Rules.MatchDomain | background.js:289-325 | the domain checks give "" or the rule's key |
| Rules.NotGws | background.js:281 | only the rule `gws_rd@google.*` itself can trigger the Google workaround |
| Rules.MatchByDomain | background.js:276-287 | outside the workaround, a `key@domain` rule is decided by the domain checks on its key and pattern |
| Rules.MatchPlainDomain | background.js:275-326 | a pattern without `*` applies exactly when the domain equals it |
| Rules.MatchRootWildcard | background.js:290-322 | `*.X` applies when the root domain is X and, failing that, when the domain itself is X |
| Rules.MatchSuffixWildcard | background.js:299-322 | `X.*` applies when the domain minus suffix is X and, failing that, when the domain is X; the Google rule is the one exception |
| Rules.MatchDoubleWildcard | background.js:289-325 | `*.X.*` with X free of `*` applies when the root domain is `X.*`, the domain minus suffix is X, or the domain is X, so the double-wildcard block is never what decides |
| Rules.Keep | background.js:496 | the filter keeps, in order, exactly the entries not in the drop list, each as often as before |
| Rules.EffectiveRules | background.js:496-497 | the user's rules come last, unchanged; before them come, in order and each as often as before, exactly the defaults that are not overridden |
| Rules.OfCategory | background.js:499-525 | a category's list is an ordered sub-list of the matches holding exactly the matches of that category |
| Rules.OfCategorySnoc | background.js:503-524 | one more match extends only the list of its own category |
| Rules.CategoriesPartition | background.js:499-525 | the four lists together hold every match exactly as often as the matches do |
| Rules.OfCategoryCount | background.js:499-525 | a list counts each match of its category as often as the matches do, and others not at all |
| Rules.PushMatch | background.js:501-524 | one step of the rule loop keeps the four lists equal to the classified matches seen so far |
| Rules.ClassifyMatches | background.js:499-525 | the loop leaves in each list exactly the non-empty matches of its leading character, in rule order |
| Rules.IndexOfEntry | background.js:230 | `indexOf` gives -1 exactly when the entry is absent, and otherwise its first position |
| Rules.RemoveFromArraySpec | background.js:229-236 | an absent entry leaves the list unchanged; otherwise exactly its first occurrence is cut out, so one copy leaves the multiset |
| Rules.RemoveFromArraySublist | background.js:229-236 | the result is an ordered sub-list of the input |
| Rules.ExcludedNames | background.js:528 | each exclude protects its name without the first `!` |
| Rules.ExcludeAllEffect | background.js:527-529 | after the excludes the blocked list has lost one copy of each excluded name, when there is one, and keeps its order |
| Rules.ApplyExcludes | background.js:527-529 | the exclude loop computes the list `ExcludeAll` describes |
| Query.WithoutKeys | background.js:534-541 | keeps, in order, exactly the pairs whose name is not deleted, each as often as before |
| Query.WithoutPrefix | background.js:395-406 | keeps, in order, exactly the pairs whose name does not start with the prefix, each as often as before |
| Query.WithoutKeysIsWithoutPrefix | background.js:395-406 | deleting exactly the names that start with a prefix is the prefix filter |
| Query.WithoutKeysThenKey | background.js:535-540 | deleting one more name extends the deleted set by that name |
| Query.WithoutKeysNone | background.js:539 | deleting names no pair has leaves the list as it is |
| Query.Get | background.js:281 | `searchParams.get` is absent exactly when no pair has the name, and otherwise the value of the first pair with that name |
| Query.SearchLength | background.js:377 | the serialised query is as long as the sum over its pairs of name and value length plus two |
| Query.SublistWeight | background.js:377 | leaving pairs out never lengthens the serialisation, and only leaving none out keeps its length |
| Query.ParseSerialised | background.js:343-378 | a serialised query whose names hold no `=` or `&` and whose values hold no `&` reads back as the same pairs |
| Query.LiveSweep | background.js:395-406 | deleting while walking the live list keeps an ordered sub-list |
| Query.LiveSweepKeeps | background.js:395-406 | the live sweep keeps every copy of every pair whose name does not start with the prefix |
| Query.LiveSweepUnchanged | background.js:395-406 | a sweep from a position after which no name has the prefix changes nothing |
| Query.LiveSweepShrinks | background.js:395-406 | a sweep that reaches a pair whose name has the prefix leaves a strictly shorter list |
| Query.LiveSweepChanges | background.js:395-406 | the live sweep leaves the list as it is exactly when no pair's name has the prefix |
| Query.LiveSweepSkips | background.js:395-406 | on `utm_source=a&utm_medium=b` with prefix `utm_` the live sweep keeps `utm_medium=b`, while the intended filter removes both |
| Urls.Deleted | background.js:539 | `searchParams.delete` keeps, in order, exactly the pairs with another name, each as often as before, always rewrites the query text from the list, and changes nothing else |
| Urls.SearchSet | background.js:344 | the `search` setter: "" gives no query, otherwise the query text is `?` and the value without one leading `?`; text and list stay in step and nothing but the query changes |
| Urls.HashSet | background.js:345 | the `hash` setter: "" removes the fragment, a value starting with `#` is taken verbatim, and nothing but the fragment changes |
| Urls.ReserialisedValid | background.js:539 | a list of parsed pairs written back parses back to itself |
| Urls.DeletedValid | background.js:539 | deleting keeps the list and the text in step |
| Urls.Url.constructor | background.js:343 | `new URL(...)` of an already parsed value copies it |
| Urls.Url.Delete | background.js:539 | `searchParams.delete(k)` on the object is `Deleted` on its value |
| Urls.Url.SetSearch | background.js:344 | assigning `search` on the object is `SearchSet` on its value |
| Urls.Url.SetHash | background.js:345 | assigning `hash` on the object is `HashSet` on its value |
| Rewrite.DeletedKeys | background.js:534-541 | exactly the pairs with a blocked name go, the rest keep their order and their counts, nothing but the query changes; without a blocked name in the query the URL is untouched, otherwise the text is rewritten |
| Rewrite.SnapshotDeletedAll | background.js:534-541 | deleting name by name over a snapshot of the names is deleting all selected names at once, and nothing changes when none was selected |
| Rewrite.SnapshotDeletedKeys | background.js:534-541 | deleting over the snapshot of names every name on the blocked list is `DeletedKeys` |
| Rewrite.DeleteSelected | background.js:534-541 | the deletion loop over a snapshot of the names computes `SnapshotDeleted` |
| Rewrite.DeleteBlockedParams | background.js:534-541 | the exact-name loop of `cleanURL` leaves the URL `DeletedKeys` describes |
| Rewrite.GetWildcardParamSpec | background.js:385-393 | a non-empty result `r` exactly when the rule's only `*` is its last character, and then the rule is `r*` |
| Rewrite.DeletedPrefix | background.js:395-406 | the intended wildcard deletion removes exactly the pairs whose name has the prefix, keeps the order and counts of the others, and changes nothing else; without such a pair the URL is untouched |
| Rewrite.LiveDeleted | background.js:395-406 | the wildcard deletion as written keeps an ordered sub-list and changes nothing but the query |
| Rewrite.LiveDeletedEffect | background.js:395-406 | the wildcard deletion as written removes only pairs whose name has the prefix and keeps every copy of every other pair; it leaves the list as it is exactly when no pair has the prefix, and then the URL is untouched |
| Rewrite.DeleteWildcardParam | background.js:395-406 | `deleteWildcardParam` as written, deleting while it walks the live `keys()`, leaves the URL `LiveDeleted` describes |
| Rewrite.DeleteWildcardParamCorrected | background.js:395-406 | the corrected deletion, over a snapshot of the names as at background.js:535, leaves the URL `DeletedPrefix` describes |
| Rewrite.SnapshotDeletedPrefix | background.js:395-406 | deleting over the snapshot of names every name with the prefix is `DeletedPrefix` |
| Rewrite.WildcardsEffect | background.js:335-340 | the wildcard loop keeps an ordered sub-list of the query pairs that holds every copy of every pair no wildcard rule covers, and changes nothing but the query |
| Rewrite.WildcardStepEffect | background.js:335-340 | one blocked rule removes only pairs it covers, keeps every copy of the others, leaves the pairs as they are exactly when it covers none of them, and changes nothing but the query |
| Rewrite.WildcardsUnchanged | background.js:335-340 | the wildcard loop leaves the pairs as they are exactly when no wildcard rule covers any of them |
| Rewrite.IntendedWildcardsEffect | background.js:335-340 | with the corrected deletion the loop would keep, in order and with their counts, exactly the pairs no wildcard rule covers |
| Rewrite.WildcardsSkip | background.js:335-340 | on `utm_source=a&utm_medium=b` the rule `utm_*` leaves `utm_medium=b`, while the corrected loop leaves no pair |
| Rewrite.WildcardsAgain | background.js:335-340 | a second pass of `utm_*` over the `utm_medium=b` the first pass left removes it |
| Rewrite.DeleteWildcard | background.js:338-339 | one blocked rule of the wildcard loop: a wildcard rule runs `deleteWildcardParam` as written, any other rule does nothing |
| Rewrite.DeleteWildcards | background.js:335-340 | the wildcard loop computes `Wildcards` |
| Rewrite.ApplyHashParam | background.js:360-371 | one `#?` rule on the fragment copy: a wildcard runs `deleteWildcardParam` as written, then the exact name is deleted |
| Rewrite.ApplyHashParams | background.js:349-372 | the loop stops with the fragment emptied exactly when some rule clears it, and otherwise leaves the URL alone and runs every rule on the copy |
| Rewrite.HashStepsEffect | background.js:349-372 | the `#?` rules keep an ordered sub-list of the fragment pairs holding every copy of every pair no rule names or covers, and keep all of them exactly when no rule names or covers any |
| Rewrite.HashStepEffect | background.js:360-371 | one `#?` rule removes only pairs it names or covers, keeps every copy of the others, and leaves the pairs as they are exactly when it names or covers none of them |
| Rewrite.NameRuleStep | background.js:365-370 | the wildcard deletion as written and then the exact-name deletion keep every copy of every pair with neither the name nor the prefix, and leave the pairs as they are exactly when none has either |
| Rewrite.HashStepsKeeps | background.js:349-372 | every copy of every fragment pair no rule names or covers survives all the rules, in order |
| Rewrite.HashStepsUnchanged | background.js:349-372 | the rules leave the fragment pairs as they are exactly when no rule names or covers any of them |
| Rewrite.FragmentAsQueryShape | background.js:343-347 | for a fragment spelled like a serialised query, the copy's query holds the fragment's pairs, and its `href` length is known from their weight |
| Rewrite.NewFragment | background.js:378-379 | no kept pair gives no fragment; otherwise the new fragment is `#` plus the serialised pairs and reads back as them |
| Rewrite.BuildUrl | background.js:329-383 | `buildURL` on the object is `BuildUrlValue` on its value; its wildcard deletions are `deleteWildcardParam` as written |
| Rewrite.BuildUrlHashOnly | background.js:329-383 | no rules at all return the URL unchanged; otherwise only the wildcard deletions and the fragment differ |
| Rewrite.BuildUrlQuery | background.js:329-340 | scheme, host and path stay; the query keeps an ordered sub-list of its pairs holding every copy of every pair no wildcard rule covers |
| Rewrite.BuildUrlClears | background.js:351-353 | a rule equal to the fragment, `#*` or `#?*` empties the fragment and keeps the query deletions |
| Rewrite.FragmentShrinks | background.js:343-377 | for a fragment spelled like a serialised query, the copy's `href` gets strictly shorter exactly when some fragment pair was deleted, which is exactly when a `#?` rule names or covers one of them; every copy of every pair no rule deletes stays |
| Rewrite.FragmentRewrittenEffect | background.js:343-380 | for a fragment spelled like a serialised query, the fragment changes exactly when a rule names or covers one of its pairs; a new fragment reads back as an ordered sub-list of its pairs holding every copy of every pair no rule deletes; no fragment left means every pair was deleted |
| Rewrite.BuildUrlFragment | background.js:329-383 | without a clearing rule, and for a fragment spelled like a serialised query, `buildURL` changes the fragment exactly as `FragmentRewrittenEffect` says, counts included |
| Endings.MarkerCases | background.js:261-262 | up to two leading `$` are dropped from the rule |
| Endings.SecondDollar | background.js:255-259 | `substr(1, 1) == "$"` exactly when the second character is `$` |
| Endings.ApplyMatch | background.js:254-273 | `applyMatch` returns a prefix of the path |
| Endings.ApplyMatchCuts | background.js:254-273 | a step that does not act, or whose marker does not occur, leaves the path; otherwise the path is cut where the last occurrence starts |
| Endings.EndingsApplied | background.js:243-245 | all ending rules together leave a prefix of the path |
| Endings.ApplyEndings | background.js:243-245 | the ending loop computes `EndingsApplied` |
| Endings.RemoveEndingsEffect | background.js:239-252 | the path only gets shorter; the query is cleared exactly when it did; scheme, host and fragment stay |
| Endings.RemoveEndings | background.js:239-252 | `removeEndings` on the object is `RemoveEndingsValue` on its value |
| Settings.Without | background.js:50 | the text holds no removed character |
| Settings.JoinSplitEmpty | background.js:50 | splitting on a character and joining with "" drops every occurrence of that character |
| Settings.ValueOrDefaultArray | background.js:47-51 | records only the guard at background.js:48: a missing or empty text gives the default; what a stored text gives is stated by `Settings.ValueOrDefaultArrayEntries` |
| Settings.ValueOrDefaultArrayEntries | background.js:47-51 | a non-empty text gives at least one entry, no entry holds a space or a comma, and the entries joined with `,` are the text without spaces |
| Settings.WithoutPrefixed | background.js:207 | the filter keeps, in order, exactly the entries without the prefix, each as often as before |
| Settings.PruneStepEffect | background.js:204-218 | one default rule keeps an ordered sub-list, and after a wildcard default no entry has its prefix |
| Settings.PruneStepCount | background.js:204-218 | a wildcard default drops every entry with its prefix and keeps the count of every other entry, then one copy of the default goes; a plain default removes exactly one copy of itself |
| Settings.PruneStepCountOf | background.js:204-218 | an entry the default's wildcard does not cover loses one copy exactly when it is the default and is present |
| Settings.PrunedEffect | background.js:199-220 | all default rules together keep an ordered sub-list, no entry has the prefix of any wildcard default, and an entry no wildcard default covers loses one copy per default equal to it |
| Settings.PrunedOrder | background.js:199-220 | the fold keeps an ordered sub-list without entries that have the prefix of a wildcard default |
| Settings.PrunedCount | background.js:199-220 | the count of an entry no wildcard default covers drops by the number of defaults equal to it, down to zero |
| Settings.PruneOne | background.js:204-218 | one default rule; the change flag is set exactly when the list got shorter |
| Settings.PruneBlocked | background.js:195-221 | with equal versions nothing changes; otherwise the list is `Pruned`, and the change flag is set exactly when the list changed |
| Clean.IsBlacklisted | background.js:476-481 | the blacklist loop answers true exactly when the raw host ends with some blacklisted entry |
| Clean.ComputeRuleLists | background.js:483-529 | the rule part of `cleanURL` computes the effective rules matched on the host, classified, with excludes applied |
| Clean.ApplyRuleLists | background.js:534-546 | the three rewriting steps in order, with the wildcard deletion as written, leave the URL `Rewritten` describes |
| Clean.RewrittenEffect | background.js:534-546 | scheme and host stay, the path keeps a prefix, the query keeps an ordered sub-list without blocked names; while the path stays, every copy of every pair neither blocked nor covered by a wildcard rule is kept |
| Clean.RewrittenSkips | background.js:534-546 | with the one rule `utm_*`, the query `utm_source=a&utm_medium=b` comes out as `utm_medium=b` |
| Clean.RewrittenWildcardOnly | background.js:534-546 | with one rule and no pair named after it, the rewritten query is the wildcard loop's |
| Clean.RewrittenNotIdempotent | background.js:534-546 | rewriting is not idempotent as written: the rewritten `utm_medium=b` is rewritten again to an empty query, so the next request for it would be redirected once more |
| Clean.LeanHost | background.js:545-546 | the cleaned URL has the request's host |
| Clean.CleanOutcome | background.js:468-593 | off or blacklisted gives no redirect; a redirect always goes to the cleaned URL, which differs from the request; off addons.mozilla.org a changed URL always redirects |
| Clean.AddonsOnce | background.js:555-593 | on addons.mozilla.org only a top-level navigation is redirected, and the slot it fills stops the same request from redirecting again |
| Clean.Cleaner.constructor | background.js:18 | the slot starts empty |
| Clean.Cleaner.CleanUrl | background.js:468-594 | `cleanURL`, with the wildcard deletion as written, returns `CleanSpec` and leaves the slot `PendingAfter` says |
| Clean.Cleaner.Respond | background.js:549-593 | an unchanged URL gives no redirect; on addons.mozilla.org a request that is not a top-level navigation, or whose target is already pending, gives none either; otherwise a redirect, and on addons.mozilla.org the slot records its target |

## Left out

- Start-up and settings plumbing: the `browser.storage` reads and writes, the fetch of the
  JSON rule files and the suffix list, listener registration, the `valueOrDefault` helper
  for non-list settings, and the storage writes of
  `deleteDefaultParametersFromBlockedParameters`. This is asynchronous I/O. The stored
  values are parameters and results instead.
- The browser UI: the toolbar icon, the badge counter, context menus, notifications and
  logging. None of it affects what a request returns.
- The addons.mozilla.org retarget: the timers, the tab query and update, and the later
  reset of the slot. They are driven by time and tabs. The model keeps the slot write and
  its effect on what the next request returns.
- WHATWG URL parsing: percent-encoding, `+` decoding, ports, credentials and host
  normalisation. A URL arrives already parsed. `new URL(href)` of an existing URL is
  modelled as a copy of its value.
- Percent-encoding in the serialiser: names and values are written as they are.
- The null checks of `getRootDomain` and `cleanURL` (background.js:432, 487): the values
  they test are never null once the host is a string.
- The regular expression of `replace(/^www\./i, '')` is modelled directly by its effect.
  Letter case is compared only for `w`/`W`; there is no general case folding.
- `Endings.RemoveEndings`: assigns the cut path verbatim. The browser's `pathname` setter
  (background.js:248) parses the new path again: an empty path becomes `/` and dot
  segments are resolved. The model does not do that.
- `RemoveFromArray`: modelled on values. The source splices the array in place, but every
  caller reassigns its result, so no aliasing is observable.
- The suffix list is a parameter, not the global the extension loads at start-up.
- `Rewrite.BuildUrlFragment`: its characterisation covers only fragments spelled like a
  serialised query (`#name=value&...`). Other fragments are still rewritten by
  `BuildUrlValue`, but no lemma states when their serialisation gets shorter.
- `Rewrite.FragmentRewrittenEffect`: the same scope. For a fragment such as `#a=1&&b=2`
  the `delete` at background.js:370 writes the query back as `?a=1&b=2`, which is shorter
  although nothing was deleted, so background.js:377 rewrites the fragment anyway. No
  lemma describes that case.
- `Rewrite.FragmentShrinks`: the same scope, for the same reason.
- `Rewrite.FragmentAsQueryShape`: the same scope; only for such a fragment is the copy's
  `href` length given by the weight of its pairs.
- `Rules.MatchDoubleWildcard`: covers `*.X.*` with X free of `*`. For other patterns the
  double-wildcard block is still modelled in `Rules.MatchDomain`, but no lemma describes
  them.

## Findings

| source | as written | input that shows it | evidently intended | confidence | as-written member | corrected member |
|---|---|---|---|---|---|---|
| background.js:395-406 | `deleteWildcardParam` deletes from `url.searchParams` while it iterates the live `keys()`. That iterator walks the list by position, so the pair right after a deleted one moves into the visited slot and is skipped. The `#?` wildcard rules at background.js:367 use the same function, so `#utm_source=x&utm_medium=y` with `#?utm_*` keeps `utm_medium=y`. A rewritten URL can therefore be rewritten again, so rewriting is not idempotent. | query `utm_source=a&utm_medium=b` with the blocked rule `utm_*`: `utm_medium=b` survives | delete every pair whose name starts with the prefix, as the exact-name loop at background.js:534-541 does by iterating a copy | not executed | Query.LiveSweepSkips, Rewrite.DeleteWildcardParam, Rewrite.WildcardsSkip, Clean.RewrittenSkips, Clean.RewrittenNotIdempotent | Rewrite.DeleteWildcardParamCorrected, Rewrite.IntendedWildcardsEffect |
