/**
 * Hostname decomposition (background.js, `getRootDomain`, `getDomainMinusSuffix` and the
 * `www.` stripping in `cleanURL`). The table of two-label public suffixes (`co.uk`, ...) is
 * a parameter instead of the global list that the extension fetches at start-up.
 */
module Domain {
  import opened JsString

  predicate IsW(c: char) {
    c == 'w' || c == 'W'
  }

  /** The host starts with `www.`, in any letter case. */
  predicate WwwPrefixed(host: string) {
    |host| >= 4 && IsW(host[0]) && IsW(host[1]) && IsW(host[2]) && host[3] == '.'
  }

  /** `hostname.replace(/^www\./i, '')`: the result is a suffix of the host, and it is
      shorter, by exactly four characters, when the host starts with `www.`. */
  function StripWww(host: string): (r: string)
    ensures EndsWith(host, r)
    ensures |r| < |host| <==> WwwPrefixed(host)
    ensures |r| < |host| ==> |r| == |host| - 4
  {
    if WwwPrefixed(host) then host[4..] else host
  }

  /** `getRootDomain`: the registrable domain, by a heuristic over the last labels. */
  function RootDomain(domain: string, suffixes: seq<string>): string {
    var labels := Split(domain, '.');
    var n := |labels|;
    if n > 2 then
      if |labels[n - 2]| <= 3 then
        var toCheck := labels[n - 2] + "." + labels[n - 1];
        if toCheck in suffixes then labels[n - 3] + "." + labels[n - 2] + "." + labels[n - 1]
        else labels[n - 2] + "." + labels[n - 1]
      else labels[n - 2] + "." + labels[n - 1]
    else domain
  }

  /** A domain of at most two labels is its own root; otherwise the root is the last three
      labels exactly when the second-to-last label is at most three characters long and
      forms a listed suffix with the last one, and the last two labels in every other case. */
  lemma RootDomainCases(domain: string, suffixes: seq<string>)
    ensures var labels := Split(domain, '.');
      var n := |labels|;
      var r := RootDomain(domain, suffixes);
      var listed := n > 2 && |labels[n - 2]| <= 3 && labels[n - 2] + "." + labels[n - 1] in suffixes;
      && (n <= 2 ==> r == domain)
      && (listed ==> r == Join(labels[n - 3..], "."))
      && (n > 2 && !listed ==> r == Join(labels[n - 2..], "."))
  {
    var labels := Split(domain, '.');
    var n := |labels|;
    if n > 2 {
      LastLabelsJoin(labels);
    }
  }

  lemma LastLabelsJoin(labels: seq<string>)
    requires |labels| > 2
    ensures var n := |labels|;
      && Join(labels[n - 2..], ".") == labels[n - 2] + "." + labels[n - 1]
      && Join(labels[n - 3..], ".") == labels[n - 3] + "." + labels[n - 2] + "." + labels[n - 1]
  {
    var n := |labels|;
    assert labels[n - 2..][1..] == labels[n - 1..];
    assert labels[n - 3..][1..] == labels[n - 2..];
  }

  /** The root domain is always a suffix of the domain. */
  lemma RootDomainIsSuffix(domain: string, suffixes: seq<string>)
    ensures EndsWith(domain, RootDomain(domain, suffixes))
  {
    var labels := Split(domain, '.');
    var n := |labels|;
    RootDomainCases(domain, suffixes);
    if n > 2 {
      var k := if |labels[n - 2]| <= 3 && labels[n - 2] + "." + labels[n - 1] in suffixes then n - 3 else n - 2;
      JoinSplit(domain, '.');
      if k > 0 {
        JoinAt(labels, ".", k);
      } else {
        assert labels[k..] == labels;
      }
    }
  }

  /** The root domain has two labels, or three when a listed two-label suffix applies; a
      domain of at most two labels keeps its own count. */
  lemma RootDomainLabels(domain: string, suffixes: seq<string>)
    ensures var labels := Split(domain, '.');
      var n := |labels|;
      var m := |Split(RootDomain(domain, suffixes), '.')|;
      && (n <= 2 ==> m == n)
      && (n > 2 && |labels[n - 2]| <= 3 && labels[n - 2] + "." + labels[n - 1] in suffixes ==> m == 3)
      && (n > 2 && !(|labels[n - 2]| <= 3 && labels[n - 2] + "." + labels[n - 1] in suffixes) ==> m == 2)
  {
    var labels := Split(domain, '.');
    var n := |labels|;
    RootDomainCases(domain, suffixes);
    if n > 2 {
      if |labels[n - 2]| <= 3 && labels[n - 2] + "." + labels[n - 1] in suffixes {
        SplitJoin(labels[n - 3..], '.');
      } else {
        SplitJoin(labels[n - 2..], '.');
      }
    }
  }

  /** `getDomainMinusSuffix`: the domain without its public suffix. */
  function DomainMinusSuffix(domain: string, suffixes: seq<string>): (r: string)
    ensures StartsWith(domain, r)
  {
    var dot := IndexOfChar(domain, '.');
    var extension := Extension(domain);
    var beforeExtension := Substring(domain, 0, dot);
    if extension in suffixes then beforeExtension
    else Substring(domain, 0, FallbackCut(domain))
  }

  /** `domain.substring(domain.indexOf(".") + 1)` */
  function Extension(domain: string): string {
    Substring(domain, IndexOfChar(domain, '.') + 1, |domain|)
  }

  /** Where `getDomainMinusSuffix` cuts a domain whose extension is not a listed suffix. */
  function FallbackCut(domain: string): int {
    var last := LastIndexOfChar(domain, '.');
    var previous := LastIndexOfCharFrom(domain, '.', last - 1);
    if last - previous < 4 then previous else last
  }

  /** The text after the first dot (the whole domain when it has no dot). */
  function AfterFirstDot(domain: string): string {
    var dot := IndexOfChar(domain, '.');
    domain[dot + 1..]
  }

  /** When the text after the first dot is a listed suffix, the result is the text before
      the first dot. Otherwise the domain is cut at its last dot, or at the dot before that
      (the start, when there is none) when the label between the two is at most two
      characters long; a domain without a dot gives the empty text. */
  lemma DomainMinusSuffixCases(domain: string, suffixes: seq<string>)
    ensures var r := DomainMinusSuffix(domain, suffixes);
      var dot := IndexOfChar(domain, '.');
      var last := LastIndexOfChar(domain, '.');
      var previous := LastIndexOfCharAtMost(domain, '.', last - 1);
      var fallback := AfterFirstDot(domain) !in suffixes && '.' in domain;
      && (AfterFirstDot(domain) in suffixes ==> r == if dot < 0 then "" else domain[..dot])
      && (AfterFirstDot(domain) !in suffixes && '.' !in domain ==> r == "")
      && (fallback && last - previous - 1 <= 2 ==> r == domain[..if previous < 0 then 0 else previous])
      && (fallback && last - previous - 1 > 2 ==> r == domain[..last])
  {
    if AfterFirstDot(domain) in suffixes {
      MinusSuffixListed(domain, suffixes);
    } else {
      MinusSuffixCut(domain, suffixes);
      FallbackCutCases(domain);
    }
  }

  lemma ExtensionAfterFirstDot(domain: string)
    ensures Extension(domain) == AfterFirstDot(domain)
  {
  }

  lemma MinusSuffixListed(domain: string, suffixes: seq<string>)
    requires AfterFirstDot(domain) in suffixes
    ensures var dot := IndexOfChar(domain, '.');
      DomainMinusSuffix(domain, suffixes) == if dot < 0 then "" else domain[..dot]
  {
    ExtensionAfterFirstDot(domain);
  }

  lemma MinusSuffixCut(domain: string, suffixes: seq<string>)
    requires AfterFirstDot(domain) !in suffixes
    ensures DomainMinusSuffix(domain, suffixes) == Substring(domain, 0, FallbackCut(domain))
  {
    ExtensionAfterFirstDot(domain);
  }

  lemma FallbackCutCases(domain: string)
    ensures var last := LastIndexOfChar(domain, '.');
      var previous := LastIndexOfCharAtMost(domain, '.', last - 1);
      var from := if last == 0 then 0 else previous;
      FallbackCut(domain) == if last - from < 4 then from else last
  {
    PreviousDot(domain);
  }

  /** `lastIndexOf(".", last - 1)` clamps a negative start, so a domain starting with its only
      dot finds that dot again. */
  lemma PreviousDot(domain: string)
    ensures var last := LastIndexOfChar(domain, '.');
      LastIndexOfCharFrom(domain, '.', last - 1)
        == if last == 0 then 0 else LastIndexOfCharAtMost(domain, '.', last - 1)
  {
  }
}
