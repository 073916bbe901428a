/**
 * Query strings as the URL cleaner sees them through `URLSearchParams`: an ordered list of
 * name/value pairs in which a name may repeat. `delete(name)` removes every pair with that
 * name, and serialising writes every pair as `name=value`, joined by `&`.
 */
module Query {
  import opened JsString

  datatype Option<T> = None | Some(value: T)

  type Pair = (string, string)

  /** `a` is `b` with some of its elements left out, the rest in their order. */
  predicate Sublist<T(==)>(a: seq<T>, b: seq<T>)
    decreases |b|
  {
    if a == [] then true
    else if b == [] then false
    else (a[0] == b[0] && Sublist(a[1..], b[1..])) || Sublist(a, b[1..])
  }

  lemma {:induction false} SublistRefl<T>(a: seq<T>)
    ensures Sublist(a, a)
  {
    if a != [] {
      SublistRefl(a[1..]);
    }
  }

  lemma {:induction false} SublistTrans<T>(a: seq<T>, b: seq<T>, c: seq<T>)
    requires Sublist(a, b) && Sublist(b, c)
    ensures Sublist(a, c)
    decreases |c|
  {
    if a != [] && c != [] {
      if b[0] == c[0] && Sublist(b[1..], c[1..]) {
        if a[0] == b[0] && Sublist(a[1..], b[1..]) {
          SublistTrans(a[1..], b[1..], c[1..]);
        } else {
          SublistTrans(a, b[1..], c[1..]);
        }
      } else {
        SublistTrans(a, b, c[1..]);
      }
    }
  }

  lemma {:induction false} SublistMembers<T>(a: seq<T>, b: seq<T>, x: T)
    requires Sublist(a, b) && x in a
    ensures x in b
    decreases |b|
  {
    if a[0] == b[0] && Sublist(a[1..], b[1..]) {
      if x != a[0] {
        SublistMembers(a[1..], b[1..], x);
      }
    } else {
      SublistMembers(a, b[1..], x);
    }
  }

  /** A sub-list is no longer than the list, and only the list itself is as long. */
  lemma {:induction false} SublistLength<T>(a: seq<T>, b: seq<T>)
    requires Sublist(a, b)
    ensures |a| <= |b|
    ensures |a| == |b| ==> a == b
    decreases |b|
  {
    if a != [] {
      if a[0] == b[0] && Sublist(a[1..], b[1..]) {
        SublistLength(a[1..], b[1..]);
        assert a == [a[0]] + a[1..];
        assert b == [b[0]] + b[1..];
      } else {
        SublistLength(a, b[1..]);
      }
    }
  }

  /** The pairs whose name is not in `ks`, in their order: `delete` of every name in `ks`. */
  function WithoutKeys(q: seq<Pair>, ks: set<string>): (r: seq<Pair>)
    ensures Sublist(r, q) && |r| <= |q|
    ensures forall p :: p in r <==> p in q && p.0 !in ks
    ensures forall p :: multiset(r)[p] == if p.0 in ks then 0 else multiset(q)[p]
  {
    if q == [] then []
    else
      var rest := WithoutKeys(q[1..], ks);
      assert q == [q[0]] + q[1..];
      if q[0].0 in ks then rest
      else
        assert ([q[0]] + rest)[1..] == rest;
        [q[0]] + rest
  }

  /** `searchParams.delete(k)` */
  function WithoutKey(q: seq<Pair>, k: string): (r: seq<Pair>) {
    WithoutKeys(q, {k})
  }

  /** The pairs whose name does not start with `pre`, in their order. */
  function WithoutPrefix(q: seq<Pair>, pre: string): (r: seq<Pair>)
    ensures Sublist(r, q)
    ensures forall p :: p in r <==> p in q && !StartsWith(p.0, pre)
    ensures forall p :: multiset(r)[p] == if StartsWith(p.0, pre) then 0 else multiset(q)[p]
  {
    if q == [] then []
    else
      var rest := WithoutPrefix(q[1..], pre);
      assert q == [q[0]] + q[1..];
      if StartsWith(q[0].0, pre) then rest
      else
        assert ([q[0]] + rest)[1..] == rest;
        [q[0]] + rest
  }

  /** Filtering by names only looks at the names the list holds. */
  lemma {:induction false} WithoutKeysAgree(q: seq<Pair>, a: set<string>, b: set<string>)
    requires forall j :: 0 <= j < |q| ==> (q[j].0 in a <==> q[j].0 in b)
    ensures WithoutKeys(q, a) == WithoutKeys(q, b)
  {
    if q != [] {
      WithoutKeysAgree(q[1..], a, b);
    }
  }

  /** Removing names the list does not hold leaves it as it is. */
  lemma {:induction false} WithoutKeysNone(q: seq<Pair>, ks: set<string>)
    requires forall j :: 0 <= j < |q| ==> q[j].0 !in ks
    ensures WithoutKeys(q, ks) == q
  {
    if q != [] {
      WithoutKeysNone(q[1..], ks);
    }
  }

  /** Removing the names in `a` and then the name `k` removes the names in `a + {k}`. */
  lemma {:induction false} WithoutKeysThenKey(q: seq<Pair>, a: set<string>, k: string)
    ensures WithoutKey(WithoutKeys(q, a), k) == WithoutKeys(q, a + {k})
  {
    if q != [] {
      WithoutKeysThenKey(q[1..], a, k);
    }
  }

  /** Removing a set of names that are exactly the names starting with `pre` is `WithoutPrefix`. */
  lemma {:induction false} WithoutKeysIsWithoutPrefix(q: seq<Pair>, a: set<string>, pre: string)
    requires forall j :: 0 <= j < |q| ==> (q[j].0 in a <==> StartsWith(q[j].0, pre))
    ensures WithoutKeys(q, a) == WithoutPrefix(q, pre)
  {
    if q != [] {
      WithoutKeysIsWithoutPrefix(q[1..], a, pre);
    }
  }

  /** `searchParams.get(k)`: the value of the first pair named `k`. */
  function Get(q: seq<Pair>, k: string): (r: Option<string>)
    ensures r.None? <==> forall j :: 0 <= j < |q| ==> q[j].0 != k
    ensures r.Some? ==> exists j :: 0 <= j < |q| && q[j] == (k, r.value) && forall i :: 0 <= i < j ==> q[i].0 != k
  {
    if q == [] then None
    else if q[0].0 == k then
      assert q[0] == (k, q[0].1);
      Some(q[0].1)
    else
      var r := Get(q[1..], k);
      assert forall j :: 0 < j < |q| ==> q[j] == q[1..][j - 1];
      if r.Some? then
        var j :| 0 <= j < |q[1..]| && q[1..][j] == (k, r.value) && forall i :: 0 <= i < j ==> q[1..][i].0 != k;
        assert q[j + 1] == (k, r.value) && forall i :: 0 <= i < j + 1 ==> q[i].0 != k;
        r
      else r
  }

  // ---------------------------------------------------------------------------------------
  // Serialisation and parsing

  function PairText(p: Pair): string {
    p.0 + "=" + p.1
  }

  function Texts(q: seq<Pair>): (r: seq<string>)
    ensures |r| == |q|
    ensures forall j :: 0 <= j < |q| ==> r[j] == PairText(q[j])
  {
    if q == [] then [] else [PairText(q[0])] + Texts(q[1..])
  }

  /** `url.search`: empty for no pairs, otherwise `?name=value&...`. */
  function Search(q: seq<Pair>): string {
    if q == [] then "" else "?" + Join(Texts(q), "&")
  }

  /** The length every pair adds to a serialisation: its separator, its `=`, name and value. */
  function Weight(q: seq<Pair>): nat {
    if q == [] then 0 else 2 + |q[0].0| + |q[0].1| + Weight(q[1..])
  }

  lemma {:induction false} JoinTextsLength(q: seq<Pair>)
    requires q != []
    ensures |Join(Texts(q), "&")| + 1 == Weight(q)
  {
    if |q| > 1 {
      JoinTextsLength(q[1..]);
      assert Texts(q)[1..] == Texts(q[1..]);
    }
  }

  /** The serialised length of a query is the sum of its pairs' weights. */
  lemma SearchLength(q: seq<Pair>)
    ensures |Search(q)| == Weight(q)
  {
    if q != [] {
      JoinTextsLength(q);
    }
  }

  /** Leaving pairs out of a query makes it strictly shorter, and only leaving none out does not. */
  lemma {:induction false} SublistWeight(a: seq<Pair>, b: seq<Pair>)
    requires Sublist(a, b)
    ensures Weight(a) <= Weight(b)
    ensures Weight(a) == Weight(b) ==> a == b
    decreases |b|
  {
    if a != [] {
      if a[0] == b[0] && Sublist(a[1..], b[1..]) {
        SublistWeight(a[1..], b[1..]);
        assert a == [a[0]] + a[1..];
        assert b == [b[0]] + b[1..];
      } else {
        SublistWeight(a, b[1..]);
      }
    } else if b != [] {
      assert Weight(b) >= 2;
    }
  }

  /** One `name=value` piece; a piece without `=` has an empty value. */
  function ParsePair(piece: string): Pair {
    var i := IndexOfChar(piece, '=');
    if i < 0 then (piece, "") else (piece[..i], piece[i + 1..])
  }

  function ParsePieces(pieces: seq<string>): seq<Pair> {
    if pieces == [] then []
    else if pieces[0] == "" then ParsePieces(pieces[1..])
    else [ParsePair(pieces[0])] + ParsePieces(pieces[1..])
  }

  /** Reading a text as a query: split on `&`, skip empty pieces, split each at its first `=`. */
  function ParseQuery(text: string): seq<Pair> {
    ParsePieces(Split(text, '&'))
  }

  lemma {:induction false} ParsePiecesTexts(q: seq<Pair>)
    requires forall j :: 0 <= j < |q| ==> '=' !in q[j].0
    ensures ParsePieces(Texts(q)) == q
  {
    if q != [] {
      ParsePiecesTexts(q[1..]);
      ParsePairText(q[0]);
      var ts := Texts(q);
      assert ts[1..] == Texts(q[1..]);
      assert ParsePieces(ts) == [ParsePair(ts[0])] + ParsePieces(ts[1..]);
      assert q == [q[0]] + q[1..];
    }
  }

  lemma ParsePairText(p: Pair)
    requires '=' !in p.0
    ensures PairText(p) != "" && ParsePair(PairText(p)) == p
  {
    var t := PairText(p);
    assert t[|p.0|] == '=';
    assert t[..|p.0|] == p.0;
    assert IndexOfChar(t, '=') == |p.0|;
  }

  /** Re-reading a serialised query gives back its pairs when names hold no `=` or `&` and
      values hold no `&`. */
  lemma ParseSerialised(q: seq<Pair>)
    requires forall j :: 0 <= j < |q| ==> '=' !in q[j].0 && '&' !in q[j].0 && '&' !in q[j].1
    ensures q != [] ==> ParseQuery(Search(q)[1..]) == q
  {
    if q != [] {
      var ts := Texts(q);
      forall k | 0 <= k < |ts|
        ensures '&' !in ts[k]
      {
        assert ts[k] == q[k].0 + "=" + q[k].1;
      }
      assert Search(q)[1..] == Join(ts, "&");
      SplitJoin(ts, '&');
      ParsePiecesTexts(q);
    }
  }

  // ---------------------------------------------------------------------------------------
  // Deleting while iterating the live list

  /**
   * What `for (key of url.searchParams.keys()) if (key.startsWith(pre)) url.searchParams.delete(key)`
   * does: the iterator walks the live list by position, so once a pair is deleted the pairs
   * after it move one place forward and the one right after it is never visited.
   */
  function LiveSweep(q: seq<Pair>, pre: string, i: nat): (r: seq<Pair>)
    decreases |q| - i
    ensures Sublist(r, q)
  {
    if i >= |q| then
      SublistRefl(q);
      q
    else
      var k := q[i].0;
      if StartsWith(k, pre) then
        var r := LiveSweep(WithoutKey(q, k), pre, i + 1);
        SublistTrans(r, WithoutKey(q, k), q);
        r
      else LiveSweep(q, pre, i + 1)
  }

  /** The sweep keeps every copy of a pair whose name does not start with `pre`. */
  lemma {:induction false} LiveSweepKeeps(q: seq<Pair>, pre: string, i: nat, p: Pair)
    requires !StartsWith(p.0, pre)
    ensures multiset(LiveSweep(q, pre, i))[p] == multiset(q)[p]
    ensures p in q ==> p in LiveSweep(q, pre, i)
    decreases |q| - i
  {
    if i < |q| {
      var k := q[i].0;
      if StartsWith(k, pre) {
        LiveSweepKeeps(WithoutKey(q, k), pre, i + 1, p);
      } else {
        LiveSweepKeeps(q, pre, i + 1, p);
      }
    }
  }

  /** A sweep from position `i` on that meets no matching name leaves the list alone. */
  lemma {:induction false} LiveSweepUnchanged(q: seq<Pair>, pre: string, i: nat)
    requires forall j :: i <= j < |q| ==> !StartsWith(q[j].0, pre)
    ensures LiveSweep(q, pre, i) == q
    decreases |q| - i
  {
    if i < |q| {
      LiveSweepUnchanged(q, pre, i + 1);
    }
  }

  /** A sweep from position `i` on that has a matching name ahead deletes something: the
      first such name is visited before any deletion can move it. */
  lemma {:induction false} LiveSweepShrinks(q: seq<Pair>, pre: string, i: nat, j: nat)
    requires i <= j < |q| && StartsWith(q[j].0, pre)
    ensures |LiveSweep(q, pre, i)| < |q|
    decreases |q| - i
  {
    var k := q[i].0;
    if StartsWith(k, pre) {
      var q1 := WithoutKey(q, k);
      var r := LiveSweep(q1, pre, i + 1);
      SublistLength(r, q1);
      SublistLength(q1, q);
      assert q[i] in q && q[i] !in q1;
      assert LiveSweep(q, pre, i) == r;
    } else {
      LiveSweepShrinks(q, pre, i + 1, j);
    }
  }

  /** The sweep changes the list exactly when some name in it starts with `pre`. */
  lemma LiveSweepChanges(q: seq<Pair>, pre: string)
    ensures LiveSweep(q, pre, 0) == q <==> forall j :: 0 <= j < |q| ==> !StartsWith(q[j].0, pre)
  {
    if forall j :: 0 <= j < |q| ==> !StartsWith(q[j].0, pre) {
      LiveSweepUnchanged(q, pre, 0);
    } else {
      var j :| 0 <= j < |q| && StartsWith(q[j].0, pre);
      LiveSweepShrinks(q, pre, 0, j);
    }
  }

  /** Two consecutive matching names: the second survives the sweep. */
  lemma LiveSweepSkips()
    ensures LiveSweep([("utm_source", "a"), ("utm_medium", "b")], "utm_", 0) == [("utm_medium", "b")]
    ensures WithoutPrefix([("utm_source", "a"), ("utm_medium", "b")], "utm_") == []
    ensures LiveSweep([("utm_medium", "b")], "utm_", 0) == []
  {
    var q: seq<Pair> := [("utm_source", "a"), ("utm_medium", "b")];
    assert StartsWith(q[0].0, "utm_");
    assert StartsWith(q[1].0, "utm_");
    var q1 := WithoutKey(q, "utm_source");
    assert q[1..] == [("utm_medium", "b")];
    assert q1 == [("utm_medium", "b")];
    assert LiveSweep(q1, "utm_", 1) == q1;
    assert StartsWith(q1[0].0, "utm_");
    assert WithoutKey(q1, "utm_medium") == [];
  }
}
