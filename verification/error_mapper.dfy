/**
 * The backend-error classifier: an ordered table of case-insensitive
 * patterns, each with an i18n key, searched first to last. The first rule
 * whose pattern matches the raw message gives the key; no match gives none.
 */
module ErrorMapper {
  import opened Wrappers
  import opened Strings

  /**
   * The two pattern shapes the table uses, over lower-case text:
   *  - `Has(alts)`: one of `alts` occurs somewhere, as `/(a|b)/i` finds it;
   *  - `Then(firsts, seconds)`: one of `firsts` occurs, and one of `seconds`
   *    occurs after it on the same line, as `/(a|b).*(c|d)/i` finds it
   *    (`.` does not match a line terminator).
   */
  datatype Pattern = Has(alts: seq<string>) | Then(firsts: seq<string>, seconds: seq<string>)

  datatype Rule = Rule(pattern: Pattern, key: string)

  const Webdav: seq<string> := ["webdav;"]
  const S3: seq<string> := ["aws_s3:", "minio:", "cloudflare_r2:"]
  const Oss: seq<string> := ["oss:"]
  const NoSuchHost: seq<string> := ["no such host"]
  const ConnectionRefused: seq<string> := ["connection refused"]
  const Timeout: seq<string> := ["timeout", "deadline exceeded"]

  /** The common head of the WebDAV keys. */
  const WebdavKey := "error.storage.webdav."

  /** The rule table, most specific first; patterns are written in lower case. */
  const Rules: seq<Rule> := [
    Rule(Then(Webdav, ["401", "unauthorized"]), WebdavKey + "unauthorized"),
    Rule(Then(Webdav, ["403", "forbidden"]), WebdavKey + "forbidden"),
    Rule(Then(Webdav, ["404", "not found"]), WebdavKey + "notFound"),
    Rule(Then(Webdav, ["405", "method not allowed"]), WebdavKey + "methodNotAllowed"),
    Rule(Then(Webdav, NoSuchHost), WebdavKey + "unreachable"),
    Rule(Then(Webdav, ConnectionRefused), WebdavKey + "connectionRefused"),
    Rule(Then(Webdav, Timeout), WebdavKey + "timeout"),
    Rule(Has(Webdav), WebdavKey + "generic"),
    Rule(Then(S3, ["nosuchbucket"]), "error.storage.s3.noSuchBucket"),
    Rule(Then(S3, ["accessdenied"]), "error.storage.s3.accessDenied"),
    Rule(Then(S3, NoSuchHost), "error.storage.s3.unreachable"),
    Rule(Then(S3, Timeout), "error.storage.s3.timeout"),
    Rule(Then(Oss, ["nosuchbucket"]), "error.storage.oss.noSuchBucket"),
    Rule(Then(Oss, ["accessdenied"]), "error.storage.oss.accessDenied"),
    Rule(Then(Oss, NoSuchHost), "error.storage.oss.unreachable"),
    Rule(Has(["no permission to upload"]), "error.storage.local.noPermission"),
    Rule(Has(["failed to create the save-fileurl directory"]), "error.storage.local.createDirFailed"),
    Rule(Has(["permission denied"]), "error.storage.local.permissionDenied"),
    Rule(Has(["partial failure:"]), "error.backup.partialFailure"),
    Rule(Has(["upload failed:"]), "error.backup.uploadFailed"),
    Rule(Has(["failed to open backup file:"]), "error.backup.openFileFailed"),
    Rule(Has(["note vault does not exist"]), "error.backup.vaultNotExist"),
    Rule(Has(NoSuchHost), "error.network.unreachable"),
    Rule(Has(ConnectionRefused), "error.network.connectionRefused"),
    Rule(Has(Timeout), "error.network.timeout")
  ]

  // ---------------------------------------------------------------------------
  // Matching

  /** The characters `.` does not match: LF, CR, LS and PS. */
  predicate IsLineTerminator(c: char) {
    c == '\n' || c == '\r' || c == '\U{2028}' || c == '\U{2029}'
  }

  /** One of `alts` is a prefix of `s`. */
  predicate PrefixAny(s: string, alts: seq<string>)
    decreases |alts|
  {
    |alts| > 0 && (StartsWith(s, alts[0]) || PrefixAny(s, alts[1..]))
  }

  /** One of `alts` occurs somewhere in `s`. */
  predicate HasAny(s: string, alts: seq<string>)
    decreases |s|
  {
    PrefixAny(s, alts) || (s != [] && HasAny(s[1..], alts))
  }

  /** One of `alts` occurs in `s` before its first line terminator. */
  predicate SameLineAny(s: string, alts: seq<string>)
    decreases |s|
  {
    PrefixAny(s, alts) || (s != [] && !IsLineTerminator(s[0]) && SameLineAny(s[1..], alts))
  }

  /** `s` starts with one of `firsts`, and one of `seconds` follows on the same line. */
  predicate FirstThen(s: string, firsts: seq<string>, seconds: seq<string>)
    decreases |firsts|
  {
    |firsts| > 0 &&
    ((StartsWith(s, firsts[0]) && SameLineAny(s[|firsts[0]|..], seconds)) || FirstThen(s, firsts[1..], seconds))
  }

  predicate ThenAny(s: string, firsts: seq<string>, seconds: seq<string>)
    decreases |s|
  {
    FirstThen(s, firsts, seconds) || (s != [] && ThenAny(s[1..], firsts, seconds))
  }

  /** Whether a pattern matches a message that is already in lower case. */
  predicate Matches(p: Pattern, lower: string) {
    match p
    case Has(alts) => HasAny(lower, alts)
    case Then(firsts, seconds) => ThenAny(lower, firsts, seconds)
  }

  /** The index of the first rule that matches, and no earlier rule matches. */
  function FirstIndex(rules: seq<Rule>, lower: string): (r: Option<nat>)
    ensures r.Some? ==> r.value < |rules| && Matches(rules[r.value].pattern, lower)
    ensures r.Some? ==> forall j :: 0 <= j < r.value ==> !Matches(rules[j].pattern, lower)
    ensures r.None? <==> forall j :: 0 <= j < |rules| ==> !Matches(rules[j].pattern, lower)
    decreases |rules|
  {
    if rules == [] then None
    else if Matches(rules[0].pattern, lower) then Some(0)
    else
      match FirstIndex(rules[1..], lower)
      case None => None
      case Some(k) => Some(k + 1)
  }

  /** The key for a raw message: none for the empty message, else the first matching rule's key. */
  function Classify(raw: string): Option<string> {
    if raw == "" then None else KeyOf(Rules, Lower(raw))
  }

  /** The key of the first rule of `rules` that matches. */
  function KeyOf(rules: seq<Rule>, lower: string): Option<string> {
    match FirstIndex(rules, lower)
    case None => None
    case Some(k) => Some(rules[k].key)
  }

  /** The rule loop: the index of the first rule whose pattern matches, found by walking the table. */
  method FindFirst(rules: seq<Rule>, lower: string) returns (r: Option<nat>)
    ensures r == FirstIndex(rules, lower)
  {
    for i := 0 to |rules|
      invariant forall j :: 0 <= j < i ==> !Matches(rules[j].pattern, lower)
    {
      if Matches(rules[i].pattern, lower) {
        FirstIndexUnique(rules, lower, i);
        return Some(i);
      }
    }
    return None;
  }

  /** A matching rule with no matching rule before it is the first match. */
  lemma FirstIndexUnique(rules: seq<Rule>, lower: string, i: nat)
    requires i < |rules| && Matches(rules[i].pattern, lower)
    requires forall j :: 0 <= j < i ==> !Matches(rules[j].pattern, lower)
    ensures FirstIndex(rules, lower) == Some(i)
  {
  }

  /** `mapError`: null for an empty message, else the key of the first matching rule. */
  method MapError(raw: string) returns (r: Option<string>)
    ensures r == Classify(raw)
  {
    if raw == "" {
      return None;
    }
    var k := FindFirst(Rules, Lower(raw));
    if k.Some? {
      return Some(Rules[k.value].key);
    }
    return None;
  }

  // ---------------------------------------------------------------------------
  // Properties of the table

  /** The result is a key of the table, taken from a rule that matches with none matching before it. */
  lemma ClassifyIsFirstMatch(raw: string)
    ensures Classify(raw).Some? ==>
      exists k :: 0 <= k < |Rules| && Rules[k].key == Classify(raw).value && Matches(Rules[k].pattern, Lower(raw)) &&
        forall j :: 0 <= j < k ==> !Matches(Rules[j].pattern, Lower(raw))
    ensures Classify(raw).None? <==> raw == "" || forall j :: 0 <= j < |Rules| ==> !Matches(Rules[j].pattern, Lower(raw))
  {
    if raw != "" && FirstIndex(Rules, Lower(raw)).Some? {
      var k := FirstIndex(Rules, Lower(raw)).value;
      assert Rules[k].key == Classify(raw).value;
    }
  }

  /** Letter case never matters. */
  lemma ClassifyIgnoresCase(raw: string)
    ensures Classify(Lower(raw)) == Classify(raw)
  {
    LowerIdempotent(raw);
  }

  lemma {:induction false} PrefixAnySingle(s: string, a: string)
    ensures PrefixAny(s, [a]) == StartsWith(s, a)
  {
    assert [a][1..] == [];
  }

  lemma {:induction false} HasAnySingle(s: string, a: string)
    ensures HasAny(s, [a]) <==> ContainsRec(s, a)
    decreases |s|
  {
    PrefixAnySingle(s, a);
    if s != [] {
      HasAnySingle(s[1..], a);
    }
  }

  lemma WebdavKeys(k: nat)
    requires k <= 7
    ensures StartsWith(Rules[k].key, WebdavKey)
  {
    if k < 4 {
      WebdavStatusKeys(k);
    } else {
      WebdavNetworkKeys(k);
    }
  }

  /** The keys of the four status-code rules. */
  lemma WebdavStatusKeys(k: nat)
    requires k < 4
    ensures StartsWith(Rules[k].key, WebdavKey)
  {
    if k == 0 {
      WebdavPrefix("unauthorized");
    } else if k == 1 {
      WebdavPrefix("forbidden");
    } else if k == 2 {
      WebdavPrefix("notFound");
    } else {
      WebdavPrefix("methodNotAllowed");
    }
  }

  /** The keys of the three network rules and of the catch-all. */
  lemma WebdavNetworkKeys(k: nat)
    requires 4 <= k <= 7
    ensures StartsWith(Rules[k].key, WebdavKey)
  {
    if k == 4 {
      WebdavPrefix("unreachable");
    } else if k == 5 {
      WebdavPrefix("connectionRefused");
    } else if k == 6 {
      WebdavPrefix("timeout");
    } else {
      WebdavPrefix("generic");
    }
  }

  lemma WebdavPrefix(tail: string)
    ensures StartsWith(WebdavKey + tail, WebdavKey)
  {
    assert (WebdavKey + tail)[..|WebdavKey|] == WebdavKey;
  }

  /**
   * Any message containing `webdav;`, in any letter case, gets a WebDAV key:
   * the WebDAV catch-all comes before every backup and network rule.
   */
  lemma WebdavAlwaysWebdav(raw: string)
    requires Contains(Lower(raw), "webdav;")
    ensures Classify(raw).Some? && StartsWith(Classify(raw).value, WebdavKey)
  {
    var lower := Lower(raw);
    ContainsRecIff(lower, "webdav;");
    HasAnySingle(lower, "webdav;");
    assert Matches(Rules[7].pattern, lower);
    assert raw != "";
    var k := FirstIndex(Rules, lower).value;
    assert k <= 7;
    WebdavKeys(k);
  }

  lemma {:induction false} PrefixAnyExists(s: string, alts: seq<string>)
    ensures PrefixAny(s, alts) <==> exists k :: 0 <= k < |alts| && StartsWith(s, alts[k])
    decreases |alts|
  {
    if alts != [] {
      PrefixAnyExists(s, alts[1..]);
      if exists k :: 0 <= k < |alts| && StartsWith(s, alts[k]) {
        var k :| 0 <= k < |alts| && StartsWith(s, alts[k]);
        if k > 0 {
          assert alts[1..][k - 1] == alts[k];
        }
      }
      if PrefixAny(s, alts[1..]) {
        var k :| 0 <= k < |alts[1..]| && StartsWith(s, alts[1..][k]);
        assert alts[k + 1] == alts[1..][k];
      }
    }
  }

  lemma {:induction false} FirstThenPrefix(s: string, firsts: seq<string>, seconds: seq<string>)
    ensures FirstThen(s, firsts, seconds) ==> PrefixAny(s, firsts)
    decreases |firsts|
  {
    if firsts != [] {
      FirstThenPrefix(s, firsts[1..], seconds);
    }
  }

  /** A `Then` pattern can only match where its first part occurs. */
  lemma {:induction false} ThenAnyHasFirst(s: string, firsts: seq<string>, seconds: seq<string>)
    ensures ThenAny(s, firsts, seconds) ==> HasAny(s, firsts)
    decreases |s|
  {
    FirstThenPrefix(s, firsts, seconds);
    if s != [] {
      ThenAnyHasFirst(s[1..], firsts, seconds);
    }
  }

  /** A text without the first character of `a` does not contain `a`. */
  lemma {:induction false} FirstCharAbsent(t: string, a: string)
    requires a != [] && a[0] !in t
    ensures !ContainsRec(t, a)
    decreases |t|
  {
    if t != [] {
      FirstCharAbsent(t[1..], a);
    }
  }

  /** No alternative starts with a line terminator (none of the table's does). */
  predicate StartsOnLine(alts: seq<string>) {
    forall k :: 0 <= k < |alts| ==> alts[k] != [] && !IsLineTerminator(alts[k][0])
  }

  /** What follows a line break is never on the same line. */
  lemma AfterBreak(t: string, alts: seq<string>)
    requires t != [] && IsLineTerminator(t[0]) && StartsOnLine(alts)
    ensures !SameLineAny(t, alts)
  {
    PrefixAnyExists(t, alts);
  }

  lemma WebdavThenBreak(s: string, seconds: seq<string>)
    requires s == "webdav;\n401" && StartsOnLine(seconds)
    ensures !ThenAny(s, Webdav, seconds)
  {
    AfterBreak(s[7..], seconds);
    assert !FirstThen(s, Webdav, seconds) by {
      assert Webdav[1..] == [];
      assert s[|Webdav[0]|..] == s[7..];
    }
    assert !HasAny(s[1..], Webdav) by {
      assert 'w' !in s[1..];
      HasAnySingle(s[1..], "webdav;");
      FirstCharAbsent(s[1..], "webdav;");
    }
    ThenAnyHasFirst(s[1..], Webdav, seconds);
  }

  /** The first seven rules all look for `webdav;` and then, on the same line, some word. */
  lemma WebdavRuleShapes(j: nat)
    requires j < 7
    ensures Rules[j].pattern.Then? && Rules[j].pattern.firsts == Webdav
    ensures StartsOnLine(Rules[j].pattern.seconds)
  {
  }

  /** None of the seven specific WebDAV rules sees a code that is on the next line. */
  lemma WebdavSpecificRulesFail(s: string)
    requires s == "webdav;\n401"
    ensures forall j :: 0 <= j < 7 ==> !Matches(Rules[j].pattern, s)
  {
    forall j | 0 <= j < 7
      ensures !Matches(Rules[j].pattern, s)
    {
      WebdavRuleShapes(j);
      WebdavThenBreak(s, Rules[j].pattern.seconds);
    }
  }

  /** A status code on the same line as `webdav;` is recognised ... */
  lemma WebdavSameLine(s: string)
    requires s == "webdav; 401"
    ensures Classify(s) == Some(WebdavKey + "unauthorized")
  {
    assert Lower(s) == s by {
      LowerNoUpper(s);
    }
    assert Matches(Rules[0].pattern, s) by {
      assert SameLineAny(s[7..], ["401", "unauthorized"]);
      assert FirstThen(s, Webdav, ["401", "unauthorized"]);
    }
    FirstIndexUnique(Rules, s, 0);
  }

  /** ... but not one on the next line: `.*` stops at the line break, and only the catch-all applies. */
  lemma WebdavNextLine(s: string)
    requires s == "webdav;\n401"
    ensures Classify(s) == Some(WebdavKey + "generic")
  {
    assert Lower(s) == s by {
      LowerNoUpper(s);
    }
    WebdavSpecificRulesFail(s);
    assert Matches(Rules[7].pattern, s) by {
      assert PrefixAny(s, Webdav);
    }
    FirstIndexUnique(Rules, s, 7);
  }

  lemma {:induction false} SameLineHasAny(s: string, alts: seq<string>)
    ensures SameLineAny(s, alts) ==> HasAny(s, alts)
    decreases |s|
  {
    if s != [] {
      SameLineHasAny(s[1..], alts);
    }
  }

  lemma {:induction false} HasAnySuffix(s: string, k: nat, alts: seq<string>)
    requires k <= |s|
    ensures HasAny(s[k..], alts) ==> HasAny(s, alts)
    decreases k
  {
    if k > 0 {
      assert s[1..][k - 1..] == s[k..];
      HasAnySuffix(s[1..], k - 1, alts);
    }
  }

  lemma {:induction false} FirstThenSecond(s: string, firsts: seq<string>, seconds: seq<string>)
    ensures FirstThen(s, firsts, seconds) ==> HasAny(s, seconds)
    decreases |firsts|
  {
    if firsts != [] {
      if StartsWith(s, firsts[0]) {
        SameLineHasAny(s[|firsts[0]|..], seconds);
        HasAnySuffix(s, |firsts[0]|, seconds);
      }
      FirstThenSecond(s, firsts[1..], seconds);
    }
  }

  /** A `Then` pattern can only match where its second part occurs too. */
  lemma {:induction false} ThenAnyHasSecond(s: string, firsts: seq<string>, seconds: seq<string>)
    ensures ThenAny(s, firsts, seconds) ==> HasAny(s, seconds)
    decreases |s|
  {
    FirstThenSecond(s, firsts, seconds);
    if s != [] {
      ThenAnyHasSecond(s[1..], firsts, seconds);
      HasAnySuffix(s, 1, seconds);
    }
  }

  /** When the first `n` rules all fail, the search goes on in the rest of the table. */
  lemma {:induction false} FirstIndexSkip(rules: seq<Rule>, lower: string, n: nat)
    requires n <= |rules|
    requires forall j :: 0 <= j < n ==> !Matches(rules[j].pattern, lower)
    ensures FirstIndex(rules, lower) == ShiftIndex(FirstIndex(rules[n..], lower), n)
    decreases n
  {
    if n == 0 {
      assert rules[n..] == rules;
      ShiftZero(FirstIndex(rules, lower));
    } else {
      var tail := rules[1..];
      assert tail[n - 1..] == rules[n..];
      TailFails(rules, lower, n);
      FirstIndexSkip(tail, lower, n - 1);
      FirstIndexStep(rules, lower);
      ShiftTwice(FirstIndex(rules[n..], lower), n - 1, 1);
    }
  }

  lemma TailFails(rules: seq<Rule>, lower: string, n: nat)
    requires 0 < n <= |rules|
    requires forall j :: 0 <= j < n ==> !Matches(rules[j].pattern, lower)
    ensures forall j :: 0 <= j < n - 1 ==> !Matches(rules[1..][j].pattern, lower)
  {
    assert forall j :: 0 <= j < n - 1 ==> rules[1..][j] == rules[j + 1];
  }

  lemma FirstIndexStep(rules: seq<Rule>, lower: string)
    requires rules != [] && !Matches(rules[0].pattern, lower)
    ensures FirstIndex(rules, lower) == ShiftIndex(FirstIndex(rules[1..], lower), 1)
  {
  }

  lemma ShiftZero(i: Option<nat>)
    ensures ShiftIndex(i, 0) == i
  {
  }

  function ShiftIndex(i: Option<nat>, n: nat): Option<nat> {
    match i
    case None => None
    case Some(k) => Some(k + n)
  }

  lemma ShiftTwice(i: Option<nat>, a: nat, b: nat)
    ensures ShiftIndex(ShiftIndex(i, a), b) == ShiftIndex(i, a + b)
  {
  }

  /** The WebDAV group and the four S3 rules, all in front of the OSS rules. */
  lemma S3RulesShapes()
    ensures forall j :: 0 <= j < 7 ==> Rules[j].pattern.Then? && Rules[j].pattern.firsts == Webdav
    ensures Rules[7].pattern == Has(Webdav)
    ensures Rules[8].pattern == Then(S3, ["nosuchbucket"])
    ensures Rules[9].pattern == Then(S3, ["accessdenied"])
    ensures Rules[10].pattern == Then(S3, NoSuchHost)
    ensures Rules[11].pattern == Then(S3, Timeout)
  {
  }

  /**
   * The S3 group has no catch-all: a message without `webdav;` that names
   * no missing bucket, denied access, unknown host or timeout is classified
   * by the rules after the S3 group alone (OSS, local, backup, network),
   * or gets no key, whatever S3 prefix it carries.
   */
  lemma S3FallsThrough(raw: string)
    requires raw != ""
    requires !HasAny(Lower(raw), Webdav)
    requires !HasAny(Lower(raw), ["nosuchbucket"]) && !HasAny(Lower(raw), ["accessdenied"])
    requires !HasAny(Lower(raw), NoSuchHost) && !HasAny(Lower(raw), Timeout)
    ensures Classify(raw) == KeyOf(Rules[12..], Lower(raw))
  {
    var t := Lower(raw);
    forall j | 0 <= j < 12
      ensures !Matches(Rules[j].pattern, t)
    {
      EarlyRuleFails(t, j);
    }
    FirstIndexSkip(Rules, t, 12);
    KeyOfSkip(Rules, t, 12);
  }

  lemma EarlyRuleFails(t: string, j: nat)
    requires j < 12
    requires !HasAny(t, Webdav)
    requires !HasAny(t, ["nosuchbucket"]) && !HasAny(t, ["accessdenied"])
    requires !HasAny(t, NoSuchHost) && !HasAny(t, Timeout)
    ensures !Matches(Rules[j].pattern, t)
  {
    S3RulesShapes();
    var p := Rules[j].pattern;
    if p.Then? {
      ThenAnyHasFirst(t, p.firsts, p.seconds);
      ThenAnyHasSecond(t, p.firsts, p.seconds);
    }
  }

  lemma KeyOfSkip(rules: seq<Rule>, lower: string, n: nat)
    requires n <= |rules|
    requires FirstIndex(rules, lower) == ShiftIndex(FirstIndex(rules[n..], lower), n)
    ensures KeyOf(rules, lower) == KeyOf(rules[n..], lower)
  {
  }
}
