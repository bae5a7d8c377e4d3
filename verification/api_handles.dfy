/**
 * The backup and Git history requests of the API hooks: the success code
 * ranges, the history URLs and headers, and how a server answer becomes the
 * `{ list, total }` handed to the caller, a dialog or a toast. The fetch
 * itself is a parameter: it was rejected, answered with a non-2xx status, or
 * answered with a parsed JSON body.
 */
module ApiHandles {
  import opened Wrappers
  import opened Strings
  import Percent
  import CacheBuster

  // ---------------------------------------------------------------------------
  // Success codes

  /** The backup hooks accept `0 < code < 100`. */
  predicate BackupSuccess(code: int) {
    code < 100 && code > 0
  }

  /** The Git hooks accept `0 < code <= 200`. */
  predicate GitSuccess(code: int) {
    code > 0 && code <= 200
  }

  /** Every backup success is a Git success; codes 100 to 200 are successes only for Git. */
  lemma SuccessRangesDiffer(code: int)
    ensures BackupSuccess(code) ==> GitSuccess(code)
    ensures GitSuccess(code) && !BackupSuccess(code) <==> 100 <= code <= 200
  {
  }

  // ---------------------------------------------------------------------------
  // What a request can end in

  /**
   * A thrown value: an `Error` object with its `name` ("Error", "TypeError"
   * for a failed fetch, "SyntaxError" for a body that is not JSON, ...) and
   * its `message`, or anything else already turned into text.
   */
  datatype Thrown = ErrorObject(name: string, message: string) | NonError(text: string)

  /** What `throw new Error(m)` throws. */
  function PlainError(m: string): Thrown {
    ErrorObject("Error", m)
  }

  /**
   * `String(error)`, that is `Error.prototype.toString` for an `Error`: the
   * name and the message joined by ": ", or whichever of the two is not empty.
   */
  function ThrownText(e: Thrown): (r: string)
    ensures e.ErrorObject? && e.name != "" && e.message != "" ==> r == e.name + ": " + e.message
    ensures e.ErrorObject? && e.message == "" ==> r == e.name
    ensures e.ErrorObject? && e.name == "" ==> r == e.message
    ensures e.NonError? ==> r == e.text
  {
    match e
    case ErrorObject(n, m) => if n == "" then m else if m == "" then n else n + ": " + m
    case NonError(t) => t
  }

  /** A failed fetch reads "TypeError: Failed to fetch", not "Error: Failed to fetch". */
  lemma FetchFailureText()
    ensures ThrownText(ErrorObject("TypeError", "Failed to fetch")) == "TypeError: Failed to fetch"
    ensures ThrownText(PlainError(NetworkNotOk)) == "Error: " + NetworkNotOk
  {
  }

  /** A JavaScript string field that may be missing; a missing one is rendered "undefined". */
  function FieldText(s: Option<string>): (r: string)
    ensures s.Some? ==> r == s.value
    ensures s.None? ==> r == "undefined"
  {
    if s.Some? then s.value else "undefined"
  }

  /** The three ways a fetch ends. */
  datatype Fetched<R> = Rejected(error: Thrown) | NotOk(status: int) | Body(res: R)

  // ---------------------------------------------------------------------------
  // Backup history

  /**
   * The shapes of `res.data` the backup history handler tells apart: a falsy
   * or list-less value, an array, or an object with a `list` (its
   * `pager.totalRows` and `total` possibly missing).
   */
  datatype HistoryData<T> =
    | NoList
    | ArrayData(items: seq<T>)
    | ListObject(list: seq<T>, pagerTotalRows: Option<int>, total: Option<int>)

  datatype BackupResponse<T> = BackupResponse(
    code: int,
    message: Option<string>,
    details: Option<string>,
    data: HistoryData<T>,
    total: Option<int>)

  /** What the caller sees: the callback called, nothing at all, or an error dialog. */
  datatype Delivery<T> = Delivered(list: seq<T>, total: int) | Nothing | Dialog(text: string)

  const BackupHistoryFailed := "获取备份历史失败: "
  const NetworkNotOk := "Network response was not ok"

  /** The `{ list, total }` a successful answer becomes. */
  function NormaliseBackupHistory<T>(res: BackupResponse<T>): (r: (seq<T>, int))
    ensures res.data.ArrayData? ==> r == (res.data.items, res.total.GetOr(-1))
    ensures res.data.ListObject? && res.data.pagerTotalRows.Some? ==> r == (res.data.list, res.data.pagerTotalRows.value)
    ensures res.data.ListObject? && res.data.pagerTotalRows.None? ==> r == (res.data.list, res.data.total.GetOr(0))
    ensures res.data.NoList? ==> r == ([], 0)
  {
    match res.data
    case ArrayData(items) => (items, res.total.GetOr(-1))
    case ListObject(list, rows, total) => (list, if rows.Some? then rows.value else total.GetOr(0))
    case NoList => ([], 0)
  }

  /** The sentinel -1 ("total unknown") arises only from an array without a total, or from the server itself. */
  lemma UnknownTotalOrigin<T>(res: BackupResponse<T>)
    requires NormaliseBackupHistory(res).1 == -1
    ensures
      (res.data.ArrayData? && (res.total.None? || res.total == Some(-1))) ||
      (res.data.ListObject? && (res.data.pagerTotalRows == Some(-1) || (res.data.pagerTotalRows.None? && res.data.total == Some(-1))))
  {
  }

  /** `handleBackupHistory`: the outcome of one call, given whether a callback was passed. */
  function BackupHistoryOutcome<T>(fetched: Fetched<BackupResponse<T>>, hasCallback: bool): (r: Delivery<T>)
    ensures fetched.Rejected? ==> r == Dialog(BackupHistoryFailed + ThrownText(fetched.error))
    ensures fetched.NotOk? ==> r == Dialog(BackupHistoryFailed + "Error: " + NetworkNotOk)
    ensures fetched.Body? && !BackupSuccess(fetched.res.code) ==>
      r == Dialog(FieldText(fetched.res.message) + ": " + FieldText(fetched.res.details))
    ensures fetched.Body? && BackupSuccess(fetched.res.code) && !hasCallback ==> r == Nothing
    ensures fetched.Body? && BackupSuccess(fetched.res.code) && hasCallback ==>
      r == Delivered(NormaliseBackupHistory(fetched.res).0, NormaliseBackupHistory(fetched.res).1)
  {
    match fetched
    case Rejected(e) => Dialog(BackupHistoryFailed + ThrownText(e))
    case NotOk(_) => Dialog(BackupHistoryFailed + "Error: " + NetworkNotOk)
    case Body(res) =>
      if BackupSuccess(res.code) then
        if hasCallback then
          var n := NormaliseBackupHistory(res);
          Delivered(n.0, n.1)
        else Nothing
      else Dialog(FieldText(res.message) + ": " + FieldText(res.details))
  }

  /** The callback only decides whether a success is delivered: errors are reported the same way either way. */
  lemma CallbackOnlyGatesDelivery<T>(fetched: Fetched<BackupResponse<T>>)
    ensures BackupHistoryOutcome(fetched, false).Dialog? <==> BackupHistoryOutcome(fetched, true).Dialog?
    ensures BackupHistoryOutcome(fetched, false).Dialog? ==> BackupHistoryOutcome(fetched, false) == BackupHistoryOutcome(fetched, true)
    ensures BackupHistoryOutcome(fetched, false).Nothing? <==> BackupHistoryOutcome(fetched, true).Delivered?
    ensures !BackupHistoryOutcome(fetched, false).Delivered?
  {
  }

  /** The query of the backup history URL: page, page size and configuration id, in that order. */
  function BackupHistoryQueryText(page: int, pageSize: int, configId: int): (q: string)
    ensures StartsWith(q, "page=" + IntToString(page) + "&pageSize=")
    ensures EndsWith(q, "&configId=" + IntToString(configId))
  {
    var head := "page=" + IntToString(page) + "&pageSize=";
    var tail := "&configId=" + IntToString(configId);
    head + IntToString(pageSize) + tail
  }

  function BackupHistoryUrl(apiUrl: string, page: int, pageSize: int, configId: int): string {
    apiUrl + "/api/backup/historys?" + BackupHistoryQueryText(page, pageSize, configId)
  }

  /** A non-2xx answer is reported as the rejection its thrown `Error` would be. */
  lemma NotOkIsRejection<T>(status: int, hasCallback: bool)
    ensures BackupHistoryOutcome<T>(NotOk(status), hasCallback) == BackupHistoryOutcome<T>(Rejected(PlainError(NetworkNotOk)), hasCallback)
  {
    Concat3(BackupHistoryFailed, "Error: ", NetworkNotOk);
  }

  /** The history URL already has a query, so the cache buster continues it with "&". */
  lemma BackupHistoryUrlBusted(apiUrl: string, page: int, pageSize: int, configId: int)
    ensures CacheBuster.Separator(BackupHistoryUrl(apiUrl, page, pageSize, configId)) == "&"
  {
    var p := apiUrl + "/api/backup/historys?";
    var u := BackupHistoryUrl(apiUrl, page, pageSize, configId);
    assert u[|p| - 1] == p[|p| - 1] == '?';
  }

  /** For non-negative numbers the query is what `URLSearchParams` would produce from the three pairs. */
  lemma BackupHistoryQuery(page: nat, pageSize: nat, configId: nat)
    ensures BackupHistoryQueryText(page, pageSize, configId) ==
      Percent.Serialize([("page", NatToString(page)), ("pageSize", NatToString(pageSize)), ("configId", NatToString(configId))])
  {
    var a, b, c := NatToString(page), NatToString(pageSize), NatToString(configId);
    PieceOfDigits("page", a);
    PieceOfDigits("pageSize", b);
    PieceOfDigits("configId", c);
    SerializeThree(("page", a), ("pageSize", b), ("configId", c));
    QueryShape(a, b, c);
  }

  lemma SerializeThree(p0: (string, string), p1: (string, string), p2: (string, string))
    ensures Percent.Serialize([p0, p1, p2]) == Percent.Piece(p0) + "&" + (Percent.Piece(p1) + "&" + Percent.Piece(p2))
  {
    assert [p0, p1, p2][1..] == [p1, p2];
    assert [p1, p2][1..] == [p2];
    assert Percent.Serialize([p2]) == Percent.Piece(p2);
    assert Percent.Serialize([p1, p2]) == Percent.Piece(p1) + "&" + Percent.Serialize([p2]);
  }

  lemma QueryShape(a: string, b: string, c: string)
    ensures ("page=" + a + "&pageSize=") + b + ("&configId=" + c) ==
      ("page" + "=" + a) + "&" + (("pageSize" + "=" + b) + "&" + ("configId" + "=" + c))
  {
    assert "&pageSize=" == "&" + ("pageSize" + "=");
    assert "&configId=" == "&" + ("configId" + "=");
    assert "page=" == "page" + "=";
  }

  lemma Concat3(x: string, y: string, z: string)
    ensures x + y + z == x + (y + z)
  {
  }

  lemma PieceOfDigits(name: string, digits: string)
    requires name in {"page", "pageSize", "configId"} && AllDigits(digits)
    ensures Percent.Piece((name, digits)) == name + "=" + digits
  {
    DigitsEncodeThemselves(digits);
    Percent.FormKeepsAlnumDot(name);
  }

  lemma DigitsEncodeThemselves(s: string)
    requires AllDigits(s)
    ensures Percent.Encode(Percent.Form, s) == s
  {
    forall i | 0 <= i < |s|
      ensures Percent.IsAsciiAlnum(s[i] as int) || s[i] == '.'
    {
      assert IsDigit(s[i]);
    }
    Percent.FormKeepsAlnumDot(s);
  }

  // ---------------------------------------------------------------------------
  // Git history

  /** `res.data` of a Git history answer: missing, or an object whose `list` and `total` may be missing. */
  datatype GitHistoryData<T> = GitHistoryData(list: Option<seq<T>>, total: Option<int>)

  datatype GitResponse<T> = GitResponse(code: int, message: Option<string>, data: Option<GitHistoryData<T>>)

  /** What the caller sees: the callback called, or an error toast. */
  datatype GitDelivery<T> = GitDelivered(list: seq<T>, total: int) | Toast(text: string)

  /** `list: res.data?.list || []` and `total: res.data?.total ?? -1`. */
  function GitHistoryOf<T>(data: Option<GitHistoryData<T>>): (r: (seq<T>, int))
    ensures data.Some? && data.value.list.Some? ==> r.0 == data.value.list.value
    ensures data.None? || data.value.list.None? ==> r.0 == []
    ensures data.Some? && data.value.total.Some? ==> r.1 == data.value.total.value
    ensures data.None? || data.value.total.None? ==> r.1 == -1
  {
    match data
    case None => ([], -1)
    case Some(d) => (d.list.GetOr([]), d.total.GetOr(-1))
  }

  /** `res.message || fallback`: the server's message unless it is missing or empty. */
  function MessageOr(message: Option<string>, fallback: string): (r: string)
    ensures message.Some? && message.value != "" ==> r == message.value
    ensures message.None? || message.value == "" ==> r == fallback
  {
    if message.Some? && message.value != "" then message.value else fallback
  }

  /**
   * `handleGitSyncHistories`: `fallback` is the translated "api.git.history.error".
   * A non-2xx answer throws an `Error` carrying it, which the catch shows.
   */
  function GitHistoryOutcome<T>(fetched: Fetched<GitResponse<T>>, fallback: string): (r: GitDelivery<T>)
    ensures fetched.Rejected? && fetched.error.ErrorObject? ==> r == Toast(fetched.error.message)
    ensures fetched.Rejected? && fetched.error.NonError? ==> r == Toast(fallback)
    ensures fetched.NotOk? ==> r == Toast(fallback)
    ensures fetched.Body? && GitSuccess(fetched.res.code) ==>
      r == GitDelivered(GitHistoryOf(fetched.res.data).0, GitHistoryOf(fetched.res.data).1)
    ensures fetched.Body? && !GitSuccess(fetched.res.code) ==> r == Toast(MessageOr(fetched.res.message, fallback))
  {
    match fetched
    case Rejected(e) => Toast(if e.ErrorObject? then e.message else fallback)
    case NotOk(_) => Toast(fallback)
    case Body(res) =>
      if GitSuccess(res.code) then
        var h := GitHistoryOf(res.data);
        GitDelivered(h.0, h.1)
      else Toast(MessageOr(res.message, fallback))
  }

  /** A code of 150 with no data is an empty Git page of unknown size, but a failure for the backup hooks. */
  lemma Code150<T>(git: GitResponse<T>, backup: BackupResponse<T>)
    requires git.code == 150 && git.data.None? && backup.code == 150
    ensures GitHistoryOutcome(Body(git), "") == GitDelivered([], -1)
    ensures BackupHistoryOutcome(Body(backup), true).Dialog?
  {
  }

  /** The Git history query: page and pageSize always, configId only when given. */
  function GitHistoryParams(page: int, pageSize: int, configId: Option<int>): (r: seq<(string, string)>)
    ensures |r| == (if configId.Some? then 3 else 2)
    ensures r[0] == ("page", IntToString(page)) && r[1] == ("pageSize", IntToString(pageSize))
    ensures configId.Some? ==> r[2] == ("configId", IntToString(configId.value))
  {
    [("page", IntToString(page)), ("pageSize", IntToString(pageSize))] +
    (if configId.Some? then [("configId", IntToString(configId.value))] else [])
  }

  function GitHistoryUrl(apiUrl: string, page: int, pageSize: int, configId: Option<int>): string {
    apiUrl + "/api/git-sync/histories?" + Percent.Serialize(GitHistoryParams(page, pageSize, configId))
  }

  /** The server reads back exactly the parameters sent, and configId among them only when it was given. */
  lemma GitHistoryQueryReadsBack(page: int, pageSize: int, configId: Option<int>)
    ensures Percent.Parse(Percent.Serialize(GitHistoryParams(page, pageSize, configId))) == Some(GitHistoryParams(page, pageSize, configId))
    ensures (exists k :: 0 <= k < |GitHistoryParams(page, pageSize, configId)| && GitHistoryParams(page, pageSize, configId)[k].0 == "configId")
      <==> configId.Some?
  {
    Percent.SerializeParseRoundTrip(GitHistoryParams(page, pageSize, configId));
    ConfigIdSentWhenGiven(GitHistoryParams(page, pageSize, configId), configId.Some?);
  }

  lemma ConfigIdSentWhenGiven(ps: seq<(string, string)>, given: bool)
    requires |ps| == (if given then 3 else 2) && ps[0].0 == "page" && ps[1].0 == "pageSize"
    requires given ==> ps[2].0 == "configId"
    ensures (exists k :: 0 <= k < |ps| && ps[k].0 == "configId") <==> given
  {
    if given {
      assert ps[2].0 == "configId";
    } else {
      assert forall k :: 0 <= k < |ps| ==> ps[k].0 == "page" || ps[k].0 == "pageSize";
    }
  }

  // ---------------------------------------------------------------------------
  // Headers

  /**
   * `getHeaders(contentType)` of the Git hook. The token comes from local
   * storage unchecked, so a missing one is sent as "Bearer null".
   */
  function GitHeaders(token: Option<string>, origin: string, lang: string, contentType: bool): (h: map<string, string>)
    ensures h.Keys == {"Authorization", "Domain", "Lang"} + (if contentType then {"Content-Type"} else {})
    ensures h["Authorization"] == "Bearer " + (if token.Some? then token.value else "null")
    ensures h["Domain"] == origin && h["Lang"] == lang
    ensures contentType ==> h["Content-Type"] == "application/json"
  {
    var base := map["Authorization" := "Bearer " + (if token.Some? then token.value else "null"), "Domain" := origin, "Lang" := lang];
    if contentType then base["Content-Type" := "application/json"] else base
  }

  /** The headers the backup hook writes out inline. */
  function BackupHeaders(token: Option<string>, origin: string, lang: string): map<string, string> {
    map["Content-Type" := "application/json",
        "Authorization" := "Bearer " + (if token.Some? then token.value else "null"),
        "Domain" := origin,
        "Lang" := lang]
  }

  /** The backup hook's inline headers are the Git hook's headers with a content type; the bodyless history request drops it. */
  lemma HeadersAgree(token: Option<string>, origin: string, lang: string)
    ensures BackupHeaders(token, origin, lang) == GitHeaders(token, origin, lang, true)
    ensures "Content-Type" !in GitHeaders(token, origin, lang, false)
  {
  }
}
