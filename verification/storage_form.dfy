/**
 * The storage configuration form: which inputs each storage type shows, the
 * values a new or edited storage starts from, and the id an edit carries
 * into the request. The chosen type is `None` until the user picks one on a
 * new storage.
 */
module StorageForm {
  import opened Wrappers
  import opened Zod

  /** The inputs whose presence depends on the storage type, and the two that are always there. */
  datatype Field =
    | Endpoint | Region | AccountId | WebdavUser | WebdavPassword
    | BucketName | AccessKeyId | AccessKeySecret | CustomPath | AccessUrlPrefix

  /** The three endpoint inputs differ in label and hint; at most one shows. */
  datatype EndpointInput = OssEndpoint | WebdavUrl | MinioEndpoint

  function EndpointFor(t: Option<string>): (e: Option<EndpointInput>)
    ensures e == Some(OssEndpoint) <==> t == Some("oss")
    ensures e == Some(WebdavUrl) <==> t == Some("webdav")
    ensures e == Some(MinioEndpoint) <==> t == Some("minio")
  {
    if t == Some("oss") then Some(OssEndpoint)
    else if t == Some("webdav") then Some(WebdavUrl)
    else if t == Some("minio") then Some(MinioEndpoint)
    else None
  }

  /** The form's conditions, one per input block. */
  predicate Visible(t: Option<string>, f: Field) {
    match f
    case Endpoint => EndpointFor(t).Some?
    case Region => t == Some("s3") || t == Some("minio")
    case AccountId => t == Some("r2")
    case WebdavUser => t == Some("webdav")
    case WebdavPassword => t == Some("webdav")
    case BucketName => t != Some("localfs") && t != Some("webdav") && t != None
    case AccessKeyId => t != Some("localfs") && t != Some("webdav")
    case AccessKeySecret => t != Some("localfs") && t != Some("webdav")
    case CustomPath => true
    case AccessUrlPrefix => true
  }

  /** The inputs each storage type shows, listed type by type. */
  function FieldsFor(t: Option<string>): set<Field> {
    var always := {CustomPath, AccessUrlPrefix};
    var keys := {AccessKeyId, AccessKeySecret};
    match t
    case None => keys + always
    case Some(name) =>
      if name == "localfs" then always
      else if name == "webdav" then {Endpoint, WebdavUser, WebdavPassword} + always
      else if name == "oss" then {Endpoint, BucketName} + keys + always
      else if name == "s3" then {Region, BucketName} + keys + always
      else if name == "minio" then {Endpoint, Region, BucketName} + keys + always
      else if name == "r2" then {AccountId, BucketName} + keys + always
      else {BucketName} + keys + always
  }

  /** The form's per-block conditions agree with the type-by-type table. */
  lemma VisibleMatchesTable(t: Option<string>, f: Field)
    ensures Visible(t, f) <==> f in FieldsFor(t)
  {
  }

  /**
   * Access keys show even before a type is chosen, the bucket only after;
   * local storage shows nothing but the path and the prefix.
   */
  lemma NotableRows(f: Field)
    ensures Visible(None, AccessKeyId) && !Visible(None, BucketName)
    ensures Visible(Some("localfs"), f) <==> f == CustomPath || f == AccessUrlPrefix
    ensures Visible(Some("webdav"), f) ==> !Visible(Some("s3"), f) || f == CustomPath || f == AccessUrlPrefix
  {
    VisibleMatchesTable(None, AccessKeyId);
    VisibleMatchesTable(None, BucketName);
    VisibleMatchesTable(Some("localfs"), f);
    VisibleMatchesTable(Some("webdav"), f);
    VisibleMatchesTable(Some("s3"), f);
  }

  // ---------------------------------------------------------------------------
  // The form's values

  /** The values the form holds for the fields the model follows. */
  datatype StorageValues = StorageValues(id: Option<int>, storageType: Option<string>, isEnabled: Value)

  /** A new storage starts enabled and with nothing else set. */
  const NewStorage := StorageValues(None, None, Bool(true))

  /** `defaultChecked` of the enabled box: the truthiness of the saved flag, or checked when new. */
  function EnabledChecked(config: Option<StorageValues>): (b: bool)
    ensures config.None? ==> b
    ensures config.Some? ==> (b <==> Truthy(config.value.isEnabled))
  {
    if config.None? then true else Truthy(config.value.isEnabled)
  }

  /** `onFormSubmit`: on edit the submitted data takes the saved id; nothing else changes. */
  function SubmitData(config: Option<StorageValues>, data: StorageValues): (r: StorageValues)
    ensures config.None? ==> r == data
    ensures config.Some? ==> r.id == config.value.id
    ensures r.storageType == data.storageType && r.isEnabled == data.isEnabled
  {
    if config.Some? then data.(id := config.value.id) else data
  }

  /** The open form: the saved storage (if editing), the type state and the form values. */
  class Form {
    const config: Option<StorageValues>
    var storageType: Option<string>
    var values: StorageValues

    /** The type the inputs follow is the type in the form values. */
    ghost predicate Valid()
      reads this
    {
      storageType == values.storageType
    }

    /** `defaultValues: config || { isEnabled: true }`, and the type state from the saved type. */
    constructor (config: Option<StorageValues>)
      ensures Valid() && this.config == config
      ensures config.Some? ==> values == config.value
      ensures config.None? ==> values == NewStorage && storageType.None?
    {
      this.config := config;
      values := config.GetOr(NewStorage);
      storageType := config.GetOr(NewStorage).storageType;
    }

    /** Picking a type sets both the form value and the type state. */
    method SelectType(t: string)
      modifies this
      ensures Valid() && storageType == Some(t)
      ensures values == old(values).(storageType := Some(t))
    {
      values := values.(storageType := Some(t));
      storageType := Some(t);
    }

    /** The enabled box writes `Boolean(checked)`. */
    method SetEnabled(checked: bool)
      requires Valid()
      modifies this
      ensures Valid() && values == old(values).(isEnabled := Bool(checked))
      ensures storageType == old(storageType)
    {
      values := values.(isEnabled := Bool(checked));
    }

    /** Whether an input shows now. */
    predicate Shows(f: Field)
      reads this
    {
      Visible(storageType, f)
    }
  }
}
