/**
 * The JavaScript string built-ins the URL cleaner relies on, with JavaScript's own edge
 * cases: `indexOf` answers -1 when nothing is found, `lastIndexOf` clamps a negative start
 * position to 0, `substring` clamps both bounds and swaps them when they are reversed,
 * `replace` with a string pattern replaces only the first occurrence, and `split` always
 * yields at least one piece.
 */
module JsString {

  /** `s.startsWith(p)` */
  predicate StartsWith(s: string, p: string) {
    |p| <= |s| && s[..|p|] == p
  }

  /** `s.endsWith(p)` */
  predicate EndsWith(s: string, p: string) {
    |p| <= |s| && s[|s| - |p|..] == p
  }

  /** `p` occurs in `s` starting at index `i`. */
  predicate OccursAt(s: string, p: string, i: int) {
    0 <= i && i + |p| <= |s| && s[i..i + |p|] == p
  }

  /** The first occurrence of `p` in `s` at or after `i`, or -1. */
  function IndexOfFrom(s: string, p: string, i: nat): (r: int)
    decreases |s| - i
    ensures r == -1 || (i <= r && OccursAt(s, p, r))
    ensures forall j :: i <= j && (r == -1 || j < r) ==> !OccursAt(s, p, j)
  {
    if i + |p| > |s| then -1
    else if s[i..i + |p|] == p then i
    else IndexOfFrom(s, p, i + 1)
  }

  /** `s.indexOf(p)` */
  function IndexOf(s: string, p: string): (r: int)
    ensures r == -1 || OccursAt(s, p, r)
    ensures forall j :: 0 <= j && (r == -1 || j < r) ==> !OccursAt(s, p, j)
  {
    IndexOfFrom(s, p, 0)
  }

  /** `s.includes(p)` */
  predicate Contains(s: string, p: string) {
    IndexOf(s, p) >= 0
  }

  /** The last occurrence of `p` in `s` that starts at or before `i`, or -1. */
  function LastIndexOfAtMost(s: string, p: string, i: int): (r: int)
    decreases i
    ensures r == -1 || (0 <= r <= i && OccursAt(s, p, r))
    ensures forall j :: r < j <= i ==> !OccursAt(s, p, j)
  {
    if i < 0 then -1
    else if OccursAt(s, p, i) then i
    else LastIndexOfAtMost(s, p, i - 1)
  }

  /** `s.lastIndexOf(p)` */
  function LastIndexOf(s: string, p: string): (r: int)
    ensures r == -1 || OccursAt(s, p, r)
    ensures forall j :: r < j ==> !OccursAt(s, p, j)
  {
    LastIndexOfAtMost(s, p, |s|)
  }

  /** `s.indexOf(c)` for a one-character pattern. */
  function IndexOfChar(s: string, c: char): (r: int)
    ensures -1 <= r < |s|
    ensures r == -1 <==> c !in s
    ensures r >= 0 ==> s[r] == c && c !in s[..r]
  {
    if s == [] then -1
    else if s[0] == c then 0
    else
      var k := IndexOfChar(s[1..], c);
      assert s == [s[0]] + s[1..];
      if k < 0 then -1
      else
        assert s[..k + 1] == [s[0]] + s[1..][..k];
        k + 1
  }

  /** The last index `j <= i` with `s[j] == c`, or -1. */
  function LastIndexOfCharAtMost(s: string, c: char, i: int): (r: int)
    decreases i
    ensures -1 <= r < |s|
    ensures r == -1 || (r <= i && s[r] == c)
    ensures forall j :: r < j <= i && j < |s| ==> s[j] != c
  {
    if i < 0 || |s| == 0 then -1
    else if i >= |s| then LastIndexOfCharAtMost(s, c, |s| - 1)
    else if s[i] == c then i
    else LastIndexOfCharAtMost(s, c, i - 1)
  }

  /** `s.lastIndexOf(c, from)`: a negative `from` is clamped to 0. */
  function LastIndexOfCharFrom(s: string, c: char, from: int): int {
    LastIndexOfCharAtMost(s, c, if from < 0 then 0 else from)
  }

  /** `s.lastIndexOf(c)` */
  function LastIndexOfChar(s: string, c: char): (r: int)
    ensures -1 <= r < |s|
    ensures r == -1 <==> c !in s
    ensures r >= 0 ==> s[r] == c && c !in s[r + 1..]
  {
    LastIndexOfCharAtMost(s, c, |s|)
  }

  function Clamp(x: int, n: nat): (r: nat)
    ensures r <= n
  {
    if x < 0 then 0 else if x > n then n else x
  }

  /** `s.substring(start, end)`: bounds are clamped to `[0, |s|]` and swapped when reversed. */
  function Substring(s: string, start: int, end: int): (r: string)
    ensures start <= 0 ==> r == s[..Clamp(end, |s|)]
    ensures end >= |s| && 0 <= start ==> r == s[Clamp(start, |s|)..]
  {
    var a, b := Clamp(start, |s|), Clamp(end, |s|);
    if a <= b then s[a..b] else s[b..a]
  }

  /** `s.replace(p, rep)` with a string pattern: only the first occurrence is replaced. */
  function ReplaceFirst(s: string, p: string, rep: string): (r: string)
    ensures IndexOf(s, p) == -1 ==> r == s
  {
    var i := IndexOf(s, p);
    if i < 0 then s else s[..i] + rep + s[i + |p|..]
  }

  /** When `s` starts with `p`, the first occurrence of `p` is the prefix itself. */
  lemma ReplaceFirstAtStart(s: string, p: string, rep: string)
    requires StartsWith(s, p)
    ensures ReplaceFirst(s, p, rep) == rep + s[|p|..]
  {
    assert OccursAt(s, p, 0);
  }

  /** `s.split(c)`: the pieces between the occurrences of `c`; never empty. */
  function Split(s: string, c: char): (r: seq<string>)
    ensures |r| >= 1
    ensures forall k :: 0 <= k < |r| ==> c !in r[k]
  {
    if s == [] then [""]
    else
      var rest := Split(s[1..], c);
      if s[0] == c then [""] + rest
      else [[s[0]] + rest[0]] + rest[1..]
  }

  /** `ls.join(sep)` */
  function Join(ls: seq<string>, sep: string): string {
    if ls == [] then ""
    else if |ls| == 1 then ls[0]
    else ls[0] + sep + Join(ls[1..], sep)
  }

  /** Splitting and joining with the same character gives back the text. */
  lemma {:induction false} JoinSplit(s: string, c: char)
    ensures Join(Split(s, c), [c]) == s
  {
    if s != [] {
      var rest := Split(s[1..], c);
      JoinSplit(s[1..], c);
      if s[0] == c {
        assert Split(s, c) == [""] + rest;
        assert Split(s, c)[1..] == rest;
      } else {
        var r := Split(s, c);
        assert r == [[s[0]] + rest[0]] + rest[1..];
        if |rest| == 1 {
          assert r == [[s[0]] + rest[0]];
        } else {
          assert r[1..] == rest[1..];
          assert Join(rest, [c]) == rest[0] + [c] + Join(rest[1..], [c]);
        }
      }
      assert s == [s[0]] + s[1..];
    }
  }

  lemma {:induction false} SplitNoSeparator(x: string, c: char)
    requires c !in x
    ensures Split(x, c) == [x]
  {
    if x != [] {
      SplitNoSeparator(x[1..], c);
      assert x == [x[0]] + x[1..];
    }
  }

  lemma {:induction false} SplitConcat(x: string, y: string, c: char)
    requires c !in x
    ensures Split(x + [c] + y, c) == [x] + Split(y, c)
  {
    var s := x + [c] + y;
    if x == [] {
      assert s[0] == c && s[1..] == y;
    } else {
      assert s[0] == x[0] && s[1..] == x[1..] + [c] + y;
      SplitConcat(x[1..], y, c);
      assert x == [x[0]] + x[1..];
    }
  }

  /** Joining pieces that do not hold `c` and splitting on `c` gives back the pieces. */
  lemma {:induction false} SplitJoin(ls: seq<string>, c: char)
    requires |ls| >= 1
    requires forall k :: 0 <= k < |ls| ==> c !in ls[k]
    ensures Split(Join(ls, [c]), c) == ls
  {
    if |ls| == 1 {
      SplitNoSeparator(ls[0], c);
    } else {
      SplitJoin(ls[1..], c);
      SplitConcat(ls[0], Join(ls[1..], [c]), c);
      assert ls == [ls[0]] + ls[1..];
    }
  }

  /** A join splits at any inner piece boundary. */
  lemma {:induction false} JoinAt(ls: seq<string>, sep: string, k: nat)
    requires 0 < k < |ls|
    ensures Join(ls, sep) == Join(ls[..k], sep) + sep + Join(ls[k..], sep)
  {
    if k > 1 {
      JoinAt(ls[1..], sep, k - 1);
      assert ls[1..][..k - 1] == ls[..k][1..];
      assert ls[1..][k - 1..] == ls[k..];
    }
  }

  lemma {:induction false} JoinNoChar(ls: seq<string>, sep: string, c: char)
    requires c !in sep
    requires forall k :: 0 <= k < |ls| ==> c !in ls[k]
    ensures c !in Join(ls, sep)
  {
    if |ls| > 1 {
      JoinNoChar(ls[1..], sep, c);
    }
  }
}
