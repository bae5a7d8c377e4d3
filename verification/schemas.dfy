/**
 * The form schemas: backup configuration, Git sync configuration, login,
 * registration, password change, storage and vault. Each is the object of
 * its field checks (and, for backup and registration, one refinement);
 * whether a string is a URL or an e-mail address is outside the model and
 * comes in as a flag.
 */
module Schemas {
  import opened Wrappers
  import opened Strings
  import opened Zod
  import BackupForm

  // ---------------------------------------------------------------------------
  // Backup configuration

  datatype BackupInput = BackupInput(
    vault: Value,
    backupType: Value,
    cronStrategy: Value,
    cronExpression: Value,
    storageIds: Value,
    isEnabled: Value,
    retentionDays: Value)

  /** The fields' checks, before the refinement. */
  function BackupFields(x: BackupInput): Outcome {
    Also(Also(Also(Also(Also(Also(StringMin("vault", x.vault, 1, true),
      Enum("type", x.backupType, {"full", "incremental", "sync"})),
      Enum("cronStrategy", x.cronStrategy, {"daily", "weekly", "monthly", "custom"})),
      OptionalString("cronExpression", x.cronExpression)),
      StringMin("storageIds", x.storageIds, 1, true)),
      BooleanOrAbsent("isEnabled", x.isEnabled)),
      NumberMin("retentionDays", x.retentionDays, 1, true))
  }

  /** `backupConfigSchema`: the custom strategy needs a non-empty expression, reported on it. */
  function BackupSchema(x: BackupInput): Outcome {
    Refine(BackupFields(x), !(x.cronStrategy == Str("custom") && !Truthy(x.cronExpression)), "cronExpression")
  }

  /** What the backup schema accepts, field by field. */
  lemma BackupSchemaAccepts(x: BackupInput)
    ensures Passed(BackupSchema(x)) <==>
      x.vault.Str? && x.vault.s != "" &&
      x.backupType in {Str("full"), Str("incremental"), Str("sync")} &&
      x.cronStrategy in {Str("daily"), Str("weekly"), Str("monthly"), Str("custom")} &&
      (x.cronExpression.Str? || x.cronExpression.Absent?) &&
      x.storageIds.Str? && x.storageIds.s != "" &&
      (x.isEnabled.Bool? || x.isEnabled.Absent?) &&
      (x.retentionDays.Absent? || (x.retentionDays.Num? && x.retentionDays.n >= 1)) &&
      (x.cronStrategy == Str("custom") ==> x.cronExpression.Str? && x.cronExpression.s != "")
  {
    var fields := BackupFields(x);
    assert fields.aborted ==> !Passed(fields) by {
      assert Sound(fields);
    }
    if x.vault.Str? {
      Utf16Empty(x.vault.s);
    }
    if x.storageIds.Str? {
      Utf16Empty(x.storageIds.s);
    }
  }

  /** Length at least 1 in UTF-16 code units is non-emptiness. */
  lemma Utf16Empty(s: string)
    ensures Utf16Length(s) >= 1 <==> s != ""
  {
  }

  /**
   * A custom strategy without an expression is rejected with exactly one
   * issue, on the expression, when everything else is in order; the other
   * strategies accept a missing expression.
   */
  lemma CustomCronNeedsExpression(x: BackupInput)
    requires Passed(BackupFields(x))
    ensures x.cronStrategy == Str("custom") && !Truthy(x.cronExpression) ==> BackupSchema(x).issues == ["cronExpression"]
    ensures x.cronStrategy != Str("custom") ==> Passed(BackupSchema(x))
  {
  }

  /**
   * The refinement does not run when a field aborts: with no type chosen, a
   * custom strategy without an expression draws no issue on the expression.
   */
  lemma RefinementSkippedOnAbort(x: BackupInput)
    requires x.backupType.Absent? && x.cronStrategy == Str("custom") && x.cronExpression.Absent?
    ensures !Passed(BackupSchema(x))
    ensures "cronExpression" !in BackupSchema(x).issues
  {
    assert BackupFields(x).aborted;
  }

  /** The storage field the form writes, even for an empty selection ("[]"), passes its check. */
  lemma SelectionPassesStorageIds(ids: seq<int>)
    ensures Passed(StringMin("storageIds", Str(BackupForm.Json(ids)), 1, true))
  {
    Utf16Empty(BackupForm.Json(ids));
  }

  /** The parsed `isEnabled`: true when absent. */
  function BackupEnabled(x: BackupInput): (b: bool)
    requires Passed(BackupSchema(x))
    ensures x.isEnabled.Absent? ==> b
    ensures x.isEnabled.Bool? ==> b == x.isEnabled.b
  {
    BackupSchemaAccepts(x);
    if x.isEnabled.Absent? then true else x.isEnabled.b
  }

  // ---------------------------------------------------------------------------
  // Git sync configuration

  datatype GitSyncInput = GitSyncInput(
    id: Value,
    vault: Value,
    repoUrl: Value,
    branch: Value,
    username: Value,
    password: Value,
    delay: Value,
    retentionDays: Value,
    isEnabled: Value)

  /** `createGitSyncSchema`; `repoUrlIsUrl` says whether the URL check holds for the repository URL. */
  function GitSyncSchema(x: GitSyncInput, repoUrlIsUrl: bool): Outcome {
    Also(Also(Also(Also(Also(Also(Also(Also(OptionalNumber("id", x.id),
      StringMin("vault", x.vault, 1, true)),
      StringMin("repoUrl", x.repoUrl, 1, repoUrlIsUrl)),
      StringMin("branch", x.branch, 1, true)),
      OptionalString("username", x.username)),
      OptionalString("password", x.password)),
      NumberMin("delay", x.delay, 0, false)),
      NumberMin("retentionDays", x.retentionDays, -1, true)),
      BooleanOrAbsent("isEnabled", x.isEnabled))
  }

  /** What the Git sync schema accepts, field by field. */
  lemma GitSyncSchemaAccepts(x: GitSyncInput, repoUrlIsUrl: bool)
    ensures Passed(GitSyncSchema(x, repoUrlIsUrl)) <==>
      (x.id.Num? || x.id.Absent?) &&
      x.vault.Str? && x.vault.s != "" &&
      x.repoUrl.Str? && x.repoUrl.s != "" && repoUrlIsUrl &&
      x.branch.Str? && x.branch.s != "" &&
      (x.username.Str? || x.username.Absent?) && (x.password.Str? || x.password.Absent?) &&
      x.delay.Num? && x.delay.n >= 0 &&
      (x.retentionDays.Absent? || (x.retentionDays.Num? && x.retentionDays.n >= -1)) &&
      (x.isEnabled.Bool? || x.isEnabled.Absent?)
  {
    if x.vault.Str? {
      Utf16Empty(x.vault.s);
    }
    if x.repoUrl.Str? {
      Utf16Empty(x.repoUrl.s);
    }
    if x.branch.Str? {
      Utf16Empty(x.branch.s);
    }
  }

  /** An empty repository URL fails both of its checks: two issues on `repoUrl`. */
  lemma EmptyRepoUrlTwoIssues()
    ensures StringMin("repoUrl", Str(""), 1, false).issues == ["repoUrl", "repoUrl"]
  {
  }

  /** The parsed retention days: 0 when absent (the schema's default, not the form's 30). */
  function GitRetentionDays(x: GitSyncInput, repoUrlIsUrl: bool): (d: int)
    requires Passed(GitSyncSchema(x, repoUrlIsUrl))
    ensures d >= -1
    ensures x.retentionDays.Absent? ==> d == 0
  {
    GitSyncSchemaAccepts(x, repoUrlIsUrl);
    if x.retentionDays.Absent? then 0 else x.retentionDays.n
  }

  // ---------------------------------------------------------------------------
  // Login, registration and password change

  datatype LoginInput = LoginInput(credentials: Value, password: Value, remember: Value)

  /** `createLoginSchema`: `remember` is coerced, so it never fails. */
  function LoginSchema(x: LoginInput): Outcome {
    Also(StringMin("credentials", x.credentials, 1, true),
      StringMin("password", x.password, 6, true))
  }

  /**
   * Login needs any credentials and a password of six UTF-16 code units:
   * six characters always do, and fewer than three never do.
   */
  lemma LoginSchemaAccepts(x: LoginInput)
    ensures Passed(LoginSchema(x)) <==>
      x.credentials.Str? && x.credentials.s != "" && x.password.Str? && Utf16Length(x.password.s) >= 6
    ensures x.password.Str? && |x.password.s| >= 6 && x.credentials.Str? && x.credentials.s != "" ==> Passed(LoginSchema(x))
    ensures Passed(LoginSchema(x)) ==> |x.password.s| >= 3
  {
    if x.credentials.Str? {
      Utf16Empty(x.credentials.s);
    }
  }

  /** The parsed `remember`: the truthiness of what was sent, false when nothing was. */
  function Remember(x: LoginInput): (b: bool)
    ensures x.remember.Absent? ==> !b
    ensures x.remember.Bool? ==> b == x.remember.b
    ensures x.remember.Str? ==> (b <==> x.remember.s != "")
  {
    if x.remember.Absent? then false else Truthy(x.remember)
  }

  datatype RegisterInput = RegisterInput(username: Value, email: Value, password: Value, confirmPassword: Value)

  /** `createRegisterSchema`; `emailValid` says whether the e-mail check holds. */
  function RegisterSchema(x: RegisterInput, emailValid: bool): Outcome {
    var fields := Also(Also(Also(StringMin("username", x.username, 3, true),
      StringMin("email", x.email, 0, emailValid)),
      StringMin("password", x.password, 6, true)),
      StringMin("confirmPassword", x.confirmPassword, 6, true));
    Refine(fields, x.password == x.confirmPassword, "confirmPassword")
  }

  /** What registration accepts: lengths, a valid e-mail and matching passwords. */
  lemma RegisterSchemaAccepts(x: RegisterInput, emailValid: bool)
    ensures Passed(RegisterSchema(x, emailValid)) <==>
      x.username.Str? && Utf16Length(x.username.s) >= 3 &&
      x.email.Str? && emailValid &&
      x.password.Str? && Utf16Length(x.password.s) >= 6 &&
      x.confirmPassword.Str? && Utf16Length(x.confirmPassword.s) >= 6 &&
      x.password == x.confirmPassword
  {
    var fields := Also(Also(Also(StringMin("username", x.username, 3, true),
      StringMin("email", x.email, 0, emailValid)),
      StringMin("password", x.password, 6, true)),
      StringMin("confirmPassword", x.confirmPassword, 6, true));
    assert Sound(fields);
  }

  /** Two well-formed but different passwords are reported on the confirmation field. */
  lemma MismatchReportedOnConfirmation(x: RegisterInput, emailValid: bool)
    requires x.username.Str? && x.email.Str? && x.password.Str? && x.confirmPassword.Str?
    requires x.password != x.confirmPassword
    ensures !Passed(RegisterSchema(x, emailValid))
    ensures "confirmPassword" in RegisterSchema(x, emailValid).issues
  {
    var o := RegisterSchema(x, emailValid);
    assert o.issues[|o.issues| - 1] == "confirmPassword";
  }

  datatype ChangePasswordInput = ChangePasswordInput(oldPassword: Value, password: Value, confirmPassword: Value)

  /** `changePasswdSchema`: three optional strings, nothing more. */
  function ChangePasswordSchema(x: ChangePasswordInput): Outcome {
    Also(Also(OptionalString("oldPassword", x.oldPassword),
      OptionalString("password", x.password)),
      OptionalString("confirmPassword", x.confirmPassword))
  }

  /** Any mix of present and absent strings is accepted, matching or not. */
  lemma ChangePasswordAcceptsStrings(x: ChangePasswordInput)
    ensures Passed(ChangePasswordSchema(x)) <==>
      (x.oldPassword.Str? || x.oldPassword.Absent?) &&
      (x.password.Str? || x.password.Absent?) &&
      (x.confirmPassword.Str? || x.confirmPassword.Absent?)
  {
  }

  // ---------------------------------------------------------------------------
  // Storage and vault

  datatype StorageInput = StorageInput(
    storageType: Value,
    endpoint: Value,
    region: Value,
    accountId: Value,
    bucketName: Value,
    accessKeyId: Value,
    accessKeySecret: Value,
    user: Value,
    password: Value,
    customPath: Value,
    accessUrlPrefix: Value,
    isEnabled: Value)

  /** `createStorageSchema`; `types` is the list of storage types the server declares. */
  function StorageSchema(x: StorageInput, types: set<string>): Outcome {
    Also(Also(Also(Also(Also(Also(Also(Also(Also(Also(Also(Enum("type", x.storageType, types),
      OptionalString("endpoint", x.endpoint)),
      OptionalString("region", x.region)),
      OptionalString("accountId", x.accountId)),
      OptionalString("bucketName", x.bucketName)),
      OptionalString("accessKeyId", x.accessKeyId)),
      OptionalString("accessKeySecret", x.accessKeySecret)),
      OptionalString("user", x.user)),
      OptionalString("password", x.password)),
      OptionalString("customPath", x.customPath)),
      StringMin("accessUrlPrefix", x.accessUrlPrefix, 1, true)),
      if x.isEnabled.Bool? || x.isEnabled.Num? || x.isEnabled.Absent? then Clean() else Abort("isEnabled"))
  }

  /** The text fields of a storage that may be left out. */
  predicate OptionalTextsPresentOrAbsent(x: StorageInput) {
    (x.endpoint.Str? || x.endpoint.Absent?) && (x.region.Str? || x.region.Absent?) &&
    (x.accountId.Str? || x.accountId.Absent?) && (x.bucketName.Str? || x.bucketName.Absent?) &&
    (x.accessKeyId.Str? || x.accessKeyId.Absent?) && (x.accessKeySecret.Str? || x.accessKeySecret.Absent?) &&
    (x.user.Str? || x.user.Absent?) && (x.password.Str? || x.password.Absent?) &&
    (x.customPath.Str? || x.customPath.Absent?)
  }

  /** A storage needs a declared type and a URL prefix; the rest is free. */
  lemma StorageSchemaAccepts(x: StorageInput, types: set<string>)
    ensures Passed(StorageSchema(x, types)) <==>
      x.storageType.Str? && x.storageType.s in types &&
      OptionalTextsPresentOrAbsent(x) &&
      x.accessUrlPrefix.Str? && x.accessUrlPrefix.s != "" &&
      (x.isEnabled.Bool? || x.isEnabled.Num? || x.isEnabled.Absent?)
  {
    if x.accessUrlPrefix.Str? {
      Utf16Empty(x.accessUrlPrefix.s);
    }
  }

  /**
   * The parsed `isEnabled`: the truthiness of a boolean or number, and still
   * absent when absent (the outer `.optional()` passes `undefined` through
   * before the default can apply).
   */
  function StorageEnabled(v: Value): (r: Option<bool>)
    ensures v.Absent? ==> r.None?
    ensures v.Num? ==> r == Some(v.n != 0)
    ensures v.Bool? ==> r == Some(v.b)
  {
    if v.Absent? then None else Some(Truthy(v))
  }

  datatype VaultInput = VaultInput(vault: Value)

  /** `createVaultSchema`. */
  function VaultSchema(x: VaultInput): Outcome {
    StringMin("vault", x.vault, 1, true)
  }

  /** Any non-empty name passes, blank ones and long ones included; the empty name does not. */
  lemma VaultSchemaAccepts(x: VaultInput)
    ensures Passed(VaultSchema(x)) <==> x.vault.Str? && x.vault.s != ""
    ensures Passed(VaultSchema(VaultInput(Str(" "))))
  {
    if x.vault.Str? {
      Utf16Empty(x.vault.s);
    }
    Utf16Empty(" ");
  }
}
