/**
 * `useUpdateCheck`: the version request's guard, how its answer becomes an
 * `UpdateCheckResult` or an error message, and the hook's three state
 * variables around the awaited call. The server decides whether a version is
 * new; nothing here compares versions.
 */
module UpdateCheck {
  import opened Wrappers
  import opened Strings
  import opened ApiHandles

  /** The `data` of a version answer; every field may be missing. */
  datatype Release = Release(
    versionIsNew: Option<bool>,
    versionNewName: Option<string>,
    version: Option<string>,
    gitTag: Option<string>,
    versionNewLink: Option<string>,
    versionNewChangelog: Option<string>,
    versionNewChangelogContent: Option<string>,
    buildTime: Option<string>)

  /** The parsed body; a missing `code` is `None`, and every comparison with it is false. */
  datatype VersionResponse = VersionResponse(code: Option<int>, message: Option<string>, data: Option<Release>)

  datatype UpdateCheckResult = UpdateCheckResult(
    hasUpdate: bool,
    latestVersion: Option<string>,
    releaseUrl: Option<string>,
    releaseNotes: Option<string>,
    releaseNotesContent: Option<string>,
    publishedAt: Option<string>)

  const VersionUnknown := "Current version is unknown"
  const NoVersionInfo := "Failed to get version info"
  const CheckFailed := "Failed to check for updates"

  /** `a || b` on optional strings: `a` unless it is missing or empty. */
  function OrElse(a: Option<string>, b: Option<string>): (r: Option<string>)
    ensures a.Some? && a.value != "" ==> r == a
    ensures a.None? || a.value == "" ==> r == b
  {
    if a.Some? && a.value != "" then a else b
  }

  /**
   * The result built from a release: an update exactly when the server says
   * the version is new; the latest version is the new version's name when
   * there is one, else the running version, with the git tag standing in for
   * an empty or missing name; the other fields are copied.
   */
  function Derive(release: Release): (r: UpdateCheckResult)
    ensures r.hasUpdate <==> release.versionIsNew == Some(true)
    ensures r.latestVersion == OrElse(if r.hasUpdate then release.versionNewName else release.version, release.gitTag)
    ensures r.releaseUrl == release.versionNewLink && r.publishedAt == release.buildTime
    ensures r.releaseNotes == release.versionNewChangelog && r.releaseNotesContent == release.versionNewChangelogContent
  {
    var isNew := release.versionIsNew == Some(true);
    UpdateCheckResult(
      isNew,
      OrElse(if isNew then release.versionNewName else release.version, release.gitTag),
      release.versionNewLink,
      release.versionNewChangelog,
      release.versionNewChangelogContent,
      release.buildTime)
  }

  /**
   * A version answer is a failure when its code is at most 0 or at least
   * 100, or it has no data; a body without a code passes the code tests.
   */
  predicate VersionFailure(res: VersionResponse) {
    (res.code.Some? && (res.code.value >= 100 || res.code.value <= 0)) || res.data.None?
  }

  /** A body with data but no code is taken as an answer. */
  lemma MissingCodeAccepted(data: Release, message: Option<string>)
    ensures CheckOutcome(Body(VersionResponse(None, message, Some(data)))) == Ok(Derive(data))
  {
  }

  /** The result of one request, or the message the hook's `error` then holds. */
  function CheckOutcome(fetched: Fetched<VersionResponse>): (r: Result<UpdateCheckResult, string>)
    ensures r.Ok? <==> fetched.Body? && !VersionFailure(fetched.res)
    ensures r.Ok? ==> r.value == Derive(fetched.res.data.value)
    ensures fetched.NotOk? ==> r == Err("GitHub API error: " + IntToString(fetched.status))
    ensures fetched.Body? && VersionFailure(fetched.res) ==> r == Err(MessageOr(fetched.res.message, NoVersionInfo))
    ensures fetched.Rejected? && fetched.error.ErrorObject? ==> r == Err(fetched.error.message)
    ensures fetched.Rejected? && fetched.error.NonError? ==> r == Err(CheckFailed)
  {
    match fetched
    case Rejected(e) => Err(if e.ErrorObject? then e.message else CheckFailed)
    case NotOk(status) => Err("GitHub API error: " + IntToString(status))
    case Body(res) =>
      if VersionFailure(res) then Err(MessageOr(res.message, NoVersionInfo))
      else Ok(Derive(res.data.value))
  }

  /** A failure always leaves a message: the fallback texts are not empty. */
  lemma FailureHasMessage(fetched: Fetched<VersionResponse>)
    requires CheckOutcome(fetched).Err? && (fetched.Rejected? ==> fetched.error.NonError? || fetched.error.message != "")
    ensures CheckOutcome(fetched).error != ""
  {
  }

  /** The hook's state. `requests` counts the version requests sent. */
  class Checker {
    var isChecking: bool
    var error: Option<string>
    var updateResult: Option<UpdateCheckResult>
    var requests: nat

    constructor ()
      ensures !isChecking && error.None? && updateResult.None? && requests == 0
    {
      isChecking := false;
      error := None;
      updateResult := None;
      requests := 0;
    }

    /**
     * `checkUpdate(currentVersion)` with the request's outcome as a
     * parameter. An empty version sets the error and sends nothing; otherwise
     * one request is sent, exactly one of the result and the error is set,
     * and `isChecking` is false again at the end.
     */
    method CheckUpdate(currentVersion: string, fetched: Fetched<VersionResponse>) returns (r: Option<UpdateCheckResult>)
      modifies this
      ensures currentVersion == "" ==>
        r.None? && error == Some(VersionUnknown) && requests == old(requests) &&
        isChecking == old(isChecking) && updateResult == old(updateResult)
      ensures currentVersion != "" ==> !isChecking && requests == old(requests) + 1
      ensures currentVersion != "" && CheckOutcome(fetched).Ok? ==>
        r == Some(CheckOutcome(fetched).value) && updateResult == r && error.None?
      ensures currentVersion != "" && CheckOutcome(fetched).Err? ==>
        r.None? && error == Some(CheckOutcome(fetched).error) && updateResult == old(updateResult)
    {
      if currentVersion == "" {
        error := Some(VersionUnknown);
        return None;
      }
      isChecking := true;
      error := None;
      requests := requests + 1;
      var outcome := CheckOutcome(fetched);
      if outcome.Ok? {
        updateResult := Some(outcome.value);
        r := Some(outcome.value);
      } else {
        error := Some(outcome.error);
        r := None;
      }
      isChecking := false;
    }
  }

  /** After any call past the guard, the error is set exactly when no result was returned. */
  method CheckOnce(checker: Checker, currentVersion: string, fetched: Fetched<VersionResponse>) returns (r: Option<UpdateCheckResult>)
    requires currentVersion != ""
    modifies checker
    ensures checker.error.Some? <==> r.None?
    ensures !checker.isChecking
  {
    r := checker.CheckUpdate(currentVersion, fetched);
  }
}
