/**
 * The Git sync configuration form: the values a new or edited configuration
 * starts from, the repository check ("validate") with its guard and request,
 * and the busy flags that disable the buttons.
 */
module GitConfigForm {
  import opened Wrappers

  /** A saved configuration as the server returns it. */
  datatype GitSyncConfig = GitSyncConfig(
    id: int,
    vault: string,
    repoUrl: string,
    branch: string,
    username: string,
    password: string,
    delay: int,
    retentionDays: Option<int>,
    isEnabled: bool)

  /** The form values; a field the form has not been given is `None`. */
  datatype GitSyncValues = GitSyncValues(
    id: Option<int>,
    vault: Option<string>,
    repoUrl: Option<string>,
    branch: Option<string>,
    username: Option<string>,
    password: Option<string>,
    delay: Option<int>,
    retentionDays: Option<int>,
    isEnabled: Option<bool>)

  /**
   * `defaultValues`: an edit copies the saved fields, retention days falling
   * back to 30 only when missing; a new configuration starts enabled on
   * branch "main" with a delay of 10 and 30 retention days, and nothing else.
   */
  function Defaults(config: Option<GitSyncConfig>): (v: GitSyncValues)
    ensures config.Some? ==>
      var c := config.value;
      v.id == Some(c.id) && v.vault == Some(c.vault) && v.repoUrl == Some(c.repoUrl) &&
      v.branch == Some(c.branch) && v.username == Some(c.username) && v.password == Some(c.password) &&
      v.delay == Some(c.delay) && v.isEnabled == Some(c.isEnabled) &&
      v.retentionDays == Some(c.retentionDays.GetOr(30))
    ensures config.None? ==>
      v.isEnabled == Some(true) && v.branch == Some("main") && v.delay == Some(10) && v.retentionDays == Some(30) &&
      v.id.None? && v.vault.None? && v.repoUrl.None? && v.username.None? && v.password.None?
  {
    match config
    case Some(c) =>
      GitSyncValues(Some(c.id), Some(c.vault), Some(c.repoUrl), Some(c.branch), Some(c.username),
        Some(c.password), Some(c.delay), Some(c.retentionDays.GetOr(30)), Some(c.isEnabled))
    case None =>
      GitSyncValues(None, None, None, Some("main"), None, None, Some(10), Some(30), Some(true))
  }

  /** A saved retention of 0 or -1 is kept: only a missing one becomes 30. */
  lemma SavedRetentionKept(c: GitSyncConfig)
    requires c.retentionDays.Some?
    ensures Defaults(Some(c)).retentionDays == c.retentionDays
  {
  }

  /** What the repository check sends: the URL, branch and credentials only. */
  datatype ValidateRequest = ValidateRequest(
    repoUrl: string,
    branch: Option<string>,
    username: Option<string>,
    password: Option<string>)

  /** The check does nothing without a repository URL; otherwise it sends those four fields. */
  function ValidateRequestOf(v: GitSyncValues): (r: Option<ValidateRequest>)
    ensures r.None? <==> v.repoUrl.None? || v.repoUrl.value == ""
    ensures r.Some? ==>
      Some(r.value.repoUrl) == v.repoUrl && r.value.branch == v.branch &&
      r.value.username == v.username && r.value.password == v.password
  {
    if v.repoUrl.None? || v.repoUrl.value == "" then None
    else Some(ValidateRequest(v.repoUrl.value, v.branch, v.username, v.password))
  }

  /** The check's request does not depend on the vault, the delay, the retention, the flag or the id. */
  lemma ValidateIgnoresOtherFields(a: GitSyncValues, b: GitSyncValues)
    requires a.repoUrl == b.repoUrl && a.branch == b.branch && a.username == b.username && a.password == b.password
    ensures ValidateRequestOf(a) == ValidateRequestOf(b)
  {
  }

  /**
   * What awaiting the check's handler does: `Undefined` when the hook does
   * not provide it (calling it throws a TypeError), otherwise whether the
   * promise it returns resolves or rejects.
   */
  datatype Handler = Undefined | Resolves | Rejects

  /** `useGitHandle()` as written returns no `handleGitSyncValidate`. */
  const HookValidateHandler := Undefined

  /**
   * One click on "validate", as an outcome: the request handed to the
   * handler, whether the click's promise ends by throwing, and whether the
   * form is still marked as validating afterwards.
   */
  datatype ClickOutcome = ClickOutcome(sent: Option<ValidateRequest>, threw: bool, stillValidating: bool)

  /**
   * The click handler as written: no URL, nothing happens; otherwise
   * `setIsValidating(true)`, the awaited call, and `setIsValidating(false)`
   * only when that call returned normally (there is no try/finally).
   */
  function ClickAsWritten(values: GitSyncValues, handler: Handler): (o: ClickOutcome)
    ensures o.sent == (if handler.Undefined? then None else ValidateRequestOf(values))
    ensures o.threw <==> ValidateRequestOf(values).Some? && !handler.Resolves?
    ensures o.stillValidating <==> o.threw
  {
    var request := ValidateRequestOf(values);
    if request.None? then ClickOutcome(None, false, false)
    else if handler.Undefined? then ClickOutcome(None, true, true)
    else ClickOutcome(request, handler.Rejects?, handler.Rejects?)
  }

  /** The intended handler: the flag is cleared in a `finally`, whatever the call does. */
  function ClickWithFinally(values: GitSyncValues, handler: Handler): (o: ClickOutcome)
    ensures !o.stillValidating
    ensures o.sent == ClickAsWritten(values, handler).sent && o.threw == ClickAsWritten(values, handler).threw
  {
    var o := ClickAsWritten(values, handler);
    ClickOutcome(o.sent, o.threw, false)
  }

  /**
   * With the hook as written, a click with a URL sends no request and leaves
   * the form validating; with the `finally` the same click leaves it free.
   */
  lemma MissingHandlerLocksForm(values: GitSyncValues)
    requires values.repoUrl.Some? && values.repoUrl.value != ""
    ensures ClickAsWritten(values, HookValidateHandler) == ClickOutcome(None, true, true)
    ensures ClickWithFinally(values, HookValidateHandler) == ClickOutcome(None, true, false)
  {
  }

  /** The busy flags of the open form. */
  class Form {
    var isSubmitting: bool
    var isValidating: bool
    var showPassword: bool

    /** Cancel, validate and save are all disabled while saving or checking. */
    predicate ButtonsDisabled()
      reads this
    {
      isSubmitting || isValidating
    }

    constructor ()
      ensures !isSubmitting && !isValidating && !showPassword
    {
      isSubmitting := false;
      isValidating := false;
      showPassword := false;
    }

    /**
     * A click on "validate" as written, step by step. A disabled button
     * takes no click. Returns the request handed to the handler and whether
     * the click's promise rejected.
     */
    method ClickValidate(values: GitSyncValues, handler: Handler) returns (sent: Option<ValidateRequest>, threw: bool)
      modifies this
      ensures old(ButtonsDisabled()) ==> sent.None? && !threw && isValidating == old(isValidating)
      ensures !old(ButtonsDisabled()) ==>
        ClickOutcome(sent, threw, isValidating) == ClickAsWritten(values, handler)
      ensures isSubmitting == old(isSubmitting) && showPassword == old(showPassword)
    {
      sent, threw := None, false;
      if ButtonsDisabled() {
        return;
      }
      if values.repoUrl.None? || values.repoUrl.value == "" {
        return;
      }
      isValidating := true;
      if handler.Undefined? {
        threw := true;
        return;
      }
      sent := Some(ValidateRequest(values.repoUrl.value, values.branch, values.username, values.password));
      if handler.Rejects? {
        threw := true;
        return;
      }
      isValidating := false;
    }

    /** The same click with `setIsValidating(false)` in a `finally`. */
    method ClickValidateWithFinally(values: GitSyncValues, handler: Handler) returns (sent: Option<ValidateRequest>, threw: bool)
      modifies this
      ensures old(ButtonsDisabled()) ==> sent.None? && !threw && isValidating == old(isValidating)
      ensures !old(ButtonsDisabled()) ==>
        ClickOutcome(sent, threw, isValidating) == ClickWithFinally(values, handler)
      ensures isSubmitting == old(isSubmitting) && showPassword == old(showPassword)
    {
      sent, threw := None, false;
      if ButtonsDisabled() {
        return;
      }
      if values.repoUrl.None? || values.repoUrl.value == "" {
        return;
      }
      isValidating := true;
      if !handler.Undefined? {
        sent := Some(ValidateRequest(values.repoUrl.value, values.branch, values.username, values.password));
      }
      threw := !handler.Resolves?;
      isValidating := false;
    }

    /** The eye button shows or hides the password. */
    method TogglePassword()
      modifies this
      ensures showPassword == !old(showPassword)
      ensures isSubmitting == old(isSubmitting) && isValidating == old(isValidating)
    {
      showPassword := !showPassword;
    }
  }

  /**
   * As written: once a URL is entered, the first click disables the buttons
   * for good; a second click is not taken and still nothing was sent.
   */
  method ValidateRoundAsWritten(form: Form, values: GitSyncValues) returns (first: Option<ValidateRequest>, second: Option<ValidateRequest>)
    requires !form.ButtonsDisabled() && ValidateRequestOf(values).Some?
    modifies form
    ensures first.None? && second.None?
    ensures form.ButtonsDisabled()
  {
    var threw;
    first, threw := form.ClickValidate(values, HookValidateHandler);
    second, threw := form.ClickValidate(values, HookValidateHandler);
  }

  /** With the `finally`, the buttons are enabled again after a click, whatever the handler does. */
  method ValidateRound(form: Form, values: GitSyncValues, handler: Handler)
    requires !form.ButtonsDisabled()
    modifies form
    ensures !form.ButtonsDisabled()
  {
    var sent, threw := form.ClickValidateWithFinally(values, handler);
  }
}
