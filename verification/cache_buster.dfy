/**
 * `addCacheBuster`: a URL with a timestamp, a random part and the interface
 * language appended as query parameters. The clock, the random number's
 * base-36 text and the language are parameters.
 */
module CacheBuster {
  import opened Strings

  /** How often `c` occurs in `s`. */
  function CountOf(s: string, c: char): (n: nat)
    ensures n <= |s|
    ensures n == 0 <==> c !in s
  {
    if s == [] then 0 else (if s[0] == c then 1 else 0) + CountOf(s[1..], c)
  }

  lemma {:induction false} CountOfAppend(a: string, b: string, c: char)
    ensures CountOf(a + b, c) == CountOf(a, c) + CountOf(b, c)
    decreases |a|
  {
    if a == [] {
      assert a + b == b;
    } else {
      assert (a + b)[1..] == a[1..] + b;
      CountOfAppend(a[1..], b, c);
    }
  }

  /**
   * `Math.random().toString(36).substring(2, 15)`: the text after "0." and at
   * most 13 characters of it; `substring` clamps both ends to the length.
   */
  function RandomPart(base36: string): (r: string)
    ensures |r| <= 13
    ensures |base36| >= 15 ==> r == base36[2..15]
    ensures 2 <= |base36| < 15 ==> r == base36[2..]
    ensures |base36| < 2 ==> r == ""
    ensures forall i :: 0 <= i < |r| ==> r[i] in base36
  {
    if |base36| < 2 then "" else if |base36| < 15 then base36[2..] else base36[2..15]
  }

  /** "&" when the URL already has a query, else "?". */
  function Separator(url: string): (r: string)
    ensures r == "&" <==> '?' in url
    ensures r == "?" <==> '?' !in url
  {
    if '?' in url then "&" else "?"
  }

  /** The appended parameters: `_=<timestamp>_<random>&lang=<lang>`. */
  function Suffix(timestamp: nat, random: string, lang: string): string {
    "_=" + NatToString(timestamp) + "_" + random + ("&lang=" + lang)
  }

  function AddCacheBuster(url: string, timestamp: nat, base36: string, lang: string): (r: string)
    ensures StartsWith(r, url)
    ensures r[|url|..] == Separator(url) + Suffix(timestamp, RandomPart(base36), lang)
    ensures EndsWith(r, "&lang=" + lang)
  {
    var head := "_=" + NatToString(timestamp) + "_" + RandomPart(base36);
    var tail := Separator(url) + Suffix(timestamp, RandomPart(base36), lang);
    AppendStartsWith(url, tail);
    LangLast(url, Separator(url), head, "&lang=" + lang);
    url + tail
  }

  lemma LangLast(url: string, sep: string, head: string, lang: string)
    ensures EndsWith(url + (sep + (head + lang)), lang)
  {
    assert url + (sep + (head + lang)) == (url + sep + head) + lang;
    AppendEndsWith(url + sep + head, lang);
  }

  lemma CountOfDigits(s: string)
    requires AllDigits(s)
    ensures CountOf(s, '?') == 0
  {
    forall i | 0 <= i < |s|
      ensures s[i] != '?'
    {
      assert IsDigit(s[i]);
    }
  }

  /**
   * The result carries exactly one query: it has as many "?" as the URL had,
   * or exactly one if the URL had none (the random part and the language,
   * base-36 text and a language tag, contain no "?").
   */
  lemma OneQuery(url: string, timestamp: nat, base36: string, lang: string)
    requires '?' !in base36 && '?' !in lang
    ensures CountOf(AddCacheBuster(url, timestamp, base36, lang), '?') == (if '?' in url then CountOf(url, '?') else 1)
  {
    var sep := Separator(url);
    var suffix := Suffix(timestamp, RandomPart(base36), lang);
    assert AddCacheBuster(url, timestamp, base36, lang) == url + (sep + suffix);
    SuffixHasNoQuery(timestamp, RandomPart(base36), lang);
    SeparatorCount(url);
    CountOfAppend(sep, suffix, '?');
    CountOfAppend(url, sep + suffix, '?');
  }

  lemma SeparatorCount(url: string)
    ensures CountOf(Separator(url), '?') == (if '?' in url then 0 else 1)
    ensures '?' !in url ==> CountOf(url, '?') == 0
  {
    assert CountOf("&", '?') == 0 && CountOf("?", '?') == 1;
  }

  lemma SuffixHasNoQuery(timestamp: nat, random: string, lang: string)
    requires '?' !in random && '?' !in lang
    ensures CountOf(Suffix(timestamp, random, lang), '?') == 0
  {
    var ts := NatToString(timestamp);
    CountOfDigits(ts);
    var x1 := "_=" + ts;
    var x2 := x1 + "_";
    var x3 := x2 + random;
    CountOfAppend("_=", ts, '?');
    CountOfAppend(x1, "_", '?');
    CountOfAppend(x2, random, '?');
    CountOfAppend("&lang=", lang, '?');
    CountOfAppend(x3, "&lang=" + lang, '?');
  }
}
