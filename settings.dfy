/**
 * Settings text handling (background.js `valueOrDefaultArray` inside `init`, and the list
 * filtering of `deleteDefaultParametersFromBlockedParameters`). Reading and writing
 * `browser.storage` is not modelled: stored values are parameters and results.
 */
module Settings {
  import opened JsString
  import opened Query
  import opened Rules

  /** The text with every occurrence of `c` left out. */
  function Without(s: string, c: char): (r: string)
    ensures c !in r
  {
    if s == [] then [] else (if s[0] == c then [] else [s[0]]) + Without(s[1..], c)
  }

  /** Joining the pieces of a split with nothing in between drops the separators. */
  lemma {:induction false} JoinSplitEmpty(s: string, c: char)
    ensures Join(Split(s, c), "") == Without(s, c)
  {
    if s != [] {
      JoinSplitEmpty(s[1..], c);
      var rest := Split(s[1..], c);
      if s[0] == c {
        assert Split(s, c) == [""] + rest && (["" ] + rest)[1..] == rest;
      } else {
        var r := Split(s, c);
        assert r == [[s[0]] + rest[0]] + rest[1..];
        if |rest| > 1 {
          assert r[1..] == rest[1..];
          assert Join(rest, "") == rest[0] + "" + Join(rest[1..], "");
        }
      }
    }
  }

  /** `valueOrDefaultArray`: a missing or empty stored text gives the default; otherwise
      the text loses its spaces and is split on `,`. */
  function ValueOrDefaultArray(value: Option<string>, defaultValue: seq<string>): (r: seq<string>)
    ensures value == None || value == Some("") ==> r == defaultValue
  {
    if value == None || value == Some("") then defaultValue
    else Split(Join(Split(value.value, ' '), ""), ',')
  }

  /** A stored list has at least one entry, no entry holds a space or a comma, and joining
      the entries with `,` gives the stored text without its spaces. */
  lemma ValueOrDefaultArrayEntries(text: string, defaultValue: seq<string>)
    requires text != ""
    ensures var r := ValueOrDefaultArray(Some(text), defaultValue);
      && |r| >= 1
      && (forall k :: 0 <= k < |r| ==> ' ' !in r[k] && ',' !in r[k])
      && Join(r, ",") == Without(text, ' ')
  {
    JoinSplitEmpty(text, ' ');
    var t := Without(text, ' ');
    JoinSplit(t, ',');
    var r := Split(t, ',');
    forall k | 0 <= k < |r|
      ensures ' ' !in r[k]
    {
      JoinPiece(r, ",", k, ' ');
    }
  }

  /** A character of a piece is a character of the join. */
  lemma {:induction false} JoinPiece(ls: seq<string>, sep: string, k: nat, c: char)
    requires k < |ls|
    ensures c in ls[k] ==> c in Join(ls, sep)
  {
    if k > 0 {
      JoinPiece(ls[1..], sep, k - 1, c);
    }
  }

  // ---------------------------------------------------------------------------------------
  // Removing defaults from the user's list

  /** `list.filter((blocked) => !blocked.startsWith(pre))` */
  function WithoutPrefixed(s: seq<string>, pre: string): (r: seq<string>)
    ensures Sublist(r, s)
    ensures forall x :: x in r <==> x in s && !StartsWith(x, pre)
    ensures forall x :: multiset(r)[x] == if StartsWith(x, pre) then 0 else multiset(s)[x]
  {
    if s == [] then []
    else
      var rest := WithoutPrefixed(s[1..], pre);
      assert s == [s[0]] + s[1..];
      if StartsWith(s[0], pre) then rest
      else
        assert ([s[0]] + rest)[1..] == rest;
        [s[0]] + rest
  }

  /** The version the upgrade compares with: the source overwrites the stored one by it. */
  const OldVersion := "1.0.0"

  /** One default rule: a wildcard `x_*` removes the user's rules starting with `x_`, and
      one copy of the default itself is removed. */
  function PruneStep(blocked: seq<string>, defaultParam: string): seq<string> {
    var filtered := if EndsWith(defaultParam, "_*") then WithoutPrefixed(blocked, WildcardPrefix(defaultParam))
                    else blocked;
    if defaultParam in filtered then RemoveFromArray(filtered, defaultParam) else filtered
  }

  function Pruned(blocked: seq<string>, defaultParams: seq<string>): seq<string>
    decreases |defaultParams|
  {
    if defaultParams == [] then blocked
    else PruneStep(Pruned(blocked, defaultParams[..|defaultParams| - 1]), defaultParams[|defaultParams| - 1])
  }

  /** The prefix a wildcard default removes. */
  function WildcardPrefix(defaultParam: string): string {
    ReplaceFirst(defaultParam, "_*", "_")
  }

  /** Pruning keeps the order of what stays and drops every rule starting with the prefix of
      a wildcard default; a rule no wildcard default covers loses one copy per default equal
      to it and keeps the others. */
  lemma PrunedEffect(blocked: seq<string>, defaultParams: seq<string>)
    ensures Sublist(Pruned(blocked, defaultParams), blocked)
    ensures forall k, x :: 0 <= k < |defaultParams| && EndsWith(defaultParams[k], "_*") && x in Pruned(blocked, defaultParams)
              ==> !StartsWith(x, WildcardPrefix(defaultParams[k]))
    ensures forall x :: (forall k :: 0 <= k < |defaultParams| && EndsWith(defaultParams[k], "_*") ==> !StartsWith(x, WildcardPrefix(defaultParams[k])))
              ==> multiset(Pruned(blocked, defaultParams))[x] == (multiset(blocked) - multiset(defaultParams))[x]
  {
    PrunedOrder(blocked, defaultParams);
    forall x | forall k :: 0 <= k < |defaultParams| && EndsWith(defaultParams[k], "_*") ==> !StartsWith(x, WildcardPrefix(defaultParams[k]))
      ensures multiset(Pruned(blocked, defaultParams))[x] == (multiset(blocked) - multiset(defaultParams))[x]
    {
      PrunedCount(blocked, defaultParams, x);
    }
  }

  /** The order and the wildcard part of `PrunedEffect`. */
  lemma {:induction false} PrunedOrder(blocked: seq<string>, defaultParams: seq<string>)
    ensures Sublist(Pruned(blocked, defaultParams), blocked)
    ensures forall k, x :: 0 <= k < |defaultParams| && EndsWith(defaultParams[k], "_*") && x in Pruned(blocked, defaultParams)
              ==> !StartsWith(x, WildcardPrefix(defaultParams[k]))
    decreases |defaultParams|
  {
    if defaultParams == [] {
      SublistRefl(blocked);
    } else {
      var init := defaultParams[..|defaultParams| - 1];
      var d := defaultParams[|defaultParams| - 1];
      PrunedOrder(blocked, init);
      var prev := Pruned(blocked, init);
      var r := Pruned(blocked, defaultParams);
      PruneStepEffect(prev, d);
      SublistTrans(r, prev, blocked);
      forall k, x | 0 <= k < |defaultParams| && EndsWith(defaultParams[k], "_*") && x in r
        ensures !StartsWith(x, WildcardPrefix(defaultParams[k]))
      {
        if k < |init| {
          assert defaultParams[k] == init[k];
        }
      }
    }
  }

  /** The count of one rule that no wildcard default covers. */
  lemma {:induction false} PrunedCount(blocked: seq<string>, defaultParams: seq<string>, x: string)
    requires forall k :: 0 <= k < |defaultParams| && EndsWith(defaultParams[k], "_*") ==> !StartsWith(x, WildcardPrefix(defaultParams[k]))
    ensures multiset(Pruned(blocked, defaultParams))[x] == (multiset(blocked) - multiset(defaultParams))[x]
    decreases |defaultParams|
  {
    if defaultParams != [] {
      var init := defaultParams[..|defaultParams| - 1];
      var d := defaultParams[|defaultParams| - 1];
      forall k | 0 <= k < |init| && EndsWith(init[k], "_*")
        ensures !StartsWith(x, WildcardPrefix(init[k]))
      {
        assert init[k] == defaultParams[k];
      }
      PrunedCount(blocked, init, x);
      var prev := Pruned(blocked, init);
      assert Pruned(blocked, defaultParams) == PruneStep(prev, d);
      PruneStepCountOf(prev, d, x);
      assert defaultParams == init + [d];
      assert multiset(defaultParams)[x] == multiset(init)[x] + multiset{d}[x];
    }
  }

  /** One default rule keeps the order of what stays, and after a wildcard default no rule
      starts with its prefix. */
  lemma PruneStepEffect(blocked: seq<string>, d: string)
    ensures Sublist(PruneStep(blocked, d), blocked)
    ensures forall x :: x in PruneStep(blocked, d) ==>
              x in blocked && (EndsWith(d, "_*") ==> !StartsWith(x, WildcardPrefix(d)))
  {
    var filtered := if EndsWith(d, "_*") then WithoutPrefixed(blocked, WildcardPrefix(d)) else blocked;
    SublistRefl(blocked);
    RemoveFromArraySublist(filtered, d);
    SublistRefl(filtered);
    var r := PruneStep(blocked, d);
    SublistTrans(r, filtered, blocked);
    forall x | x in r
      ensures x in filtered
    {
      SublistMembers(r, filtered, x);
    }
  }

  /** One default rule and the counts: a wildcard default drops every rule starting with
      its prefix and keeps the count of every other rule; then one copy of the default
      itself goes. */
  lemma PruneStepCount(blocked: seq<string>, d: string)
    ensures forall x :: multiset(PruneStep(blocked, d))[x] ==
              var c := if EndsWith(d, "_*") && StartsWith(x, WildcardPrefix(d)) then 0 else multiset(blocked)[x];
              if x == d && c > 0 then c - 1 else c
    ensures !EndsWith(d, "_*") ==> multiset(PruneStep(blocked, d)) == multiset(blocked) - multiset{d}
  {
    var filtered := if EndsWith(d, "_*") then WithoutPrefixed(blocked, WildcardPrefix(d)) else blocked;
    RemoveFromArraySpec(filtered, d);
    assert PruneStep(blocked, d) == RemoveFromArray(filtered, d);
  }

  /** The count of one rule that a wildcard default does not cover. */
  lemma PruneStepCountOf(blocked: seq<string>, d: string, x: string)
    requires EndsWith(d, "_*") ==> !StartsWith(x, WildcardPrefix(d))
    ensures multiset(PruneStep(blocked, d))[x] == (multiset(blocked) - multiset{d})[x]
  {
    var filtered := if EndsWith(d, "_*") then WithoutPrefixed(blocked, WildcardPrefix(d)) else blocked;
    RemoveFromArraySpec(filtered, d);
    assert PruneStep(blocked, d) == RemoveFromArray(filtered, d);
    assert multiset(filtered)[x] == multiset(blocked)[x];
  }

  /** One default rule of `deleteDefaultParametersFromBlockedParameters`; `changed` says
      whether the list got shorter. */
  method PruneOne(blocked: seq<string>, defaultParam: string) returns (result: seq<string>, changed: bool)
    ensures result == PruneStep(blocked, defaultParam)
    ensures Sublist(result, blocked)
    ensures changed <==> |result| < |blocked|
  {
    result, changed := blocked, false;
    if EndsWith(defaultParam, "_*") {
      var paramToFind := ReplaceFirst(defaultParam, "_*", "_");
      var lengthBefore := |result|;
      result := WithoutPrefixed(result, paramToFind);
      var lengthAfter := |result|;
      SublistLength(result, blocked);
      if lengthAfter != lengthBefore {
        changed := true;
      }
    } else {
      SublistRefl(result);
    }
    ghost var filtered := result;
    if defaultParam in result {
      result := RemoveFromArray(result, defaultParam);
      RemoveFromArraySpec(filtered, defaultParam);
      changed := true;
      assert |multiset(result)| < |multiset(filtered)|;
    }
    RemoveFromArraySublist(filtered, defaultParam);
    SublistRefl(filtered);
    SublistTrans(result, filtered, blocked);
    SublistLength(result, filtered);
    SublistLength(filtered, blocked);
  }

  /** The rule loop of `deleteDefaultParametersFromBlockedParameters`; `changes` says whether
      the list has to be stored again. */
  method PruneBlocked(blocked: seq<string>, defaultParams: seq<string>, newVersion: string)
    returns (result: seq<string>, changes: bool)
    ensures OldVersion == newVersion ==> result == blocked && !changes
    ensures OldVersion != newVersion ==> result == Pruned(blocked, defaultParams)
    ensures changes <==> result != blocked
  {
    var oldVersion := OldVersion;
    result, changes := blocked, false;
    if oldVersion != newVersion {
      SublistRefl(blocked);
      var i := 0;
      while i < |defaultParams|
        invariant i <= |defaultParams|
        invariant result == Pruned(blocked, defaultParams[..i])
        invariant Sublist(result, blocked)
        invariant changes <==> |result| < |blocked|
      {
        assert defaultParams[..i + 1][..i] == defaultParams[..i];
        ghost var before := result;
        var changed;
        result, changed := PruneOne(result, defaultParams[i]);
        if changed {
          changes := true;
        }
        SublistTrans(result, before, blocked);
        SublistLength(result, before);
        SublistLength(before, blocked);
        i := i + 1;
      }
      assert defaultParams[..i] == defaultParams;
      SublistLength(result, blocked);
    }
  }
}
