/**
 * The URL object the cleaner rewrites. A URL keeps its query twice, as the WHATWG URL
 * standard does: as the text that `href` shows, and as the name/value list of its
 * `searchParams`. Deleting from the list writes the list back as text, so a query that
 * was never touched keeps its original spelling, and one that was touched is spelled
 * `name=value&...`.
 */
module Urls {
  import opened JsString
  import opened Query

  /** `search` is "" (no query) or `?text`; `hash` is "" (no fragment) or `#text`. */
  datatype UrlValue = UrlValue(scheme: string, hostname: string, pathname: string,
                               search: string, params: seq<Pair>, hash: string)

  /** `url.href` */
  function Href(u: UrlValue): string {
    u.scheme + "//" + u.hostname + u.pathname + u.search + u.hash
  }

  /** The query text without its `?`. */
  function QueryText(search: string): string {
    if search == "" then "" else search[1..]
  }

  /** The `url.search` getter: an empty query reads as "". */
  function SearchGetter(search: string): string {
    if search == "?" then "" else search
  }

  /** The `url.hash` getter: an empty fragment reads as "". */
  function HashGetter(hash: string): string {
    if hash == "#" then "" else hash
  }

  /** The list really is the parse of the text (what `new URL` establishes). */
  predicate Valid(u: UrlValue) {
    (u.search == "" || u.search[0] == '?') && u.params == ParseQuery(QueryText(u.search))
  }

  /** The update steps of `URLSearchParams`: the list is written back as the query text. */
  function Reserialised(u: UrlValue, q: seq<Pair>): UrlValue {
    u.(params := q, search := Search(q))
  }

  /** `url.searchParams.delete(k)` */
  function Deleted(u: UrlValue, k: string): (r: UrlValue)
    ensures forall p :: p in r.params <==> p in u.params && p.0 != k
    ensures forall p :: multiset(r.params)[p] == if p.0 == k then 0 else multiset(u.params)[p]
    ensures Sublist(r.params, u.params)
    ensures r.(search := u.search, params := u.params) == u && r.search == Search(r.params)
  {
    Reserialised(u, WithoutKey(u.params, k))
  }

  /** The `url.search` setter: "" removes the query, otherwise one leading `?` is dropped
      and the rest is parsed. */
  function SearchSet(u: UrlValue, v: string): (r: UrlValue)
    ensures v == "" ==> r.search == ""
    ensures v != "" ==> r.search == "?" + (if v[0] == '?' then v[1..] else v)
    ensures Valid(r)
    ensures r.(search := u.search, params := u.params) == u
  {
    if v == "" then
      assert ParseQuery("") == [];
      u.(search := "", params := [])
    else
      var t := if v[0] == '?' then v[1..] else v;
      assert QueryText("?" + t) == t;
      u.(search := "?" + t, params := ParseQuery(t))
  }

  /** The `url.hash` setter: "" removes the fragment, otherwise one leading `#` is dropped. */
  function HashSet(u: UrlValue, v: string): (r: UrlValue)
    ensures v == "" ==> r.hash == ""
    ensures v != "" && v[0] == '#' ==> r.hash == v
    ensures r.(hash := u.hash) == u
  {
    if v == "" then u.(hash := "")
    else u.(hash := "#" + if v[0] == '#' then v[1..] else v)
  }

  // ---------------------------------------------------------------------------------------
  // A parsed list spells back to itself

  /** Names in a parsed list hold no `=` or `&`, values no `&`. */
  predicate Plain(q: seq<Pair>) {
    forall j :: 0 <= j < |q| ==> '=' !in q[j].0 && '&' !in q[j].0 && '&' !in q[j].1
  }

  lemma ParsePairPlain(piece: string)
    requires '&' !in piece
    ensures var p := ParsePair(piece); '=' !in p.0 && '&' !in p.0 && '&' !in p.1
  {
    var i := IndexOfChar(piece, '=');
    if i >= 0 {
      assert forall c :: c in piece[..i] ==> c in piece;
      assert forall c :: c in piece[i + 1..] ==> c in piece;
    }
  }

  lemma {:induction false} ParsePiecesPlain(pieces: seq<string>)
    requires forall k :: 0 <= k < |pieces| ==> '&' !in pieces[k]
    ensures Plain(ParsePieces(pieces))
  {
    if pieces != [] {
      ParsePiecesPlain(pieces[1..]);
      if pieces[0] != "" {
        ParsePairPlain(pieces[0]);
        var rest := ParsePieces(pieces[1..]);
        var q := [ParsePair(pieces[0])] + rest;
        assert forall j :: 0 < j < |q| ==> q[j] == rest[j - 1];
      }
    }
  }

  lemma ParseQueryPlain(text: string)
    ensures Plain(ParseQuery(text))
  {
    ParsePiecesPlain(Split(text, '&'));
  }

  lemma PlainSublist(a: seq<Pair>, b: seq<Pair>)
    requires Sublist(a, b) && Plain(b)
    ensures Plain(a)
  {
    forall j | 0 <= j < |a|
      ensures '=' !in a[j].0 && '&' !in a[j].0 && '&' !in a[j].1
    {
      SublistMembers(a, b, a[j]);
    }
  }

  /** Writing a parsed list back and reading it again gives the same list. */
  lemma ReserialisedValid(u: UrlValue, q: seq<Pair>)
    requires Plain(q)
    ensures Valid(Reserialised(u, q))
  {
    if q == [] {
      assert ParseQuery("") == [];
    } else {
      ParseSerialised(q);
    }
  }

  /** Deleting keeps the list and the text in step. */
  lemma DeletedValid(u: UrlValue, k: string)
    requires Valid(u)
    ensures Valid(Deleted(u, k))
  {
    ParseQueryPlain(QueryText(u.search));
    PlainSublist(WithoutKey(u.params, k), u.params);
    ReserialisedValid(u, WithoutKey(u.params, k));
  }

  // ---------------------------------------------------------------------------------------
  // The mutable URL object

  class Url {
    var scheme: string
    var hostname: string
    var pathname: string
    var search: string
    var params: seq<Pair>
    var hash: string

    /** `new URL(...)`, from an already parsed value. */
    constructor (v: UrlValue)
      ensures Value() == v
    {
      scheme, hostname, pathname := v.scheme, v.hostname, v.pathname;
      search, params, hash := v.search, v.params, v.hash;
    }

    function Value(): UrlValue
      reads this
    {
      UrlValue(scheme, hostname, pathname, search, params, hash)
    }

    /** `searchParams.delete(k)` */
    method Delete(k: string)
      modifies this
      ensures Value() == Deleted(old(Value()), k)
    {
      params := WithoutKey(params, k);
      search := Search(params);
    }

    /** `this.search = v` */
    method SetSearch(v: string)
      modifies this
      ensures Value() == SearchSet(old(Value()), v)
    {
      if v == "" {
        search, params := "", [];
      } else {
        var t := if v[0] == '?' then v[1..] else v;
        search, params := "?" + t, ParseQuery(t);
      }
    }

    /** `this.hash = v` */
    method SetHash(v: string)
      modifies this
      ensures Value() == HashSet(old(Value()), v)
    {
      if v == "" {
        hash := "";
      } else {
        hash := "#" + if v[0] == '#' then v[1..] else v;
      }
    }
  }
}
