/**
 * The backup configuration form: which storages can be chosen, which of a
 * saved configuration's storages start selected, the selection toggle that
 * keeps the `storageIds` field in step as a JSON array, the default values,
 * the fields each backup type shows, and the request sent on submit.
 */
module BackupForm {
  import opened Wrappers
  import opened Strings
  import opened Seqs
  import opened StorageConfigs

  // ---------------------------------------------------------------------------
  // Storages on offer and the initial selection

  /** `storages.filter(s => s.isEnabled)`. */
  function ActiveStorages(storages: seq<StorageConfig>): seq<StorageConfig> {
    Filter(storages, (s: StorageConfig) => s.isEnabled)
  }

  /** The storages on offer are exactly the enabled ones, in their original order. */
  lemma ActiveStoragesExact(storages: seq<StorageConfig>)
    ensures forall k :: 0 <= k < |ActiveStorages(storages)| ==> ActiveStorages(storages)[k].isEnabled
    ensures forall k :: 0 <= k < |storages| && storages[k].isEnabled ==> storages[k] in ActiveStorages(storages)
    ensures Subsequence(ActiveStorages(storages), storages)
  {
    FilterSubsequence(storages, (s: StorageConfig) => s.isEnabled);
  }

  /** Some active storage has this numeric id. */
  predicate Offered(active: seq<StorageConfig>, id: int) {
    exists k :: 0 <= k < |active| && active[k].id == Some(id)
  }

  /** The parsed ids of a saved configuration that name an offered storage, in their order. */
  function KeepOffered(parsed: seq<int>, active: seq<StorageConfig>): seq<int> {
    Filter(parsed, (id: int) => Offered(active, id))
  }

  /**
   * `initialStorageIds`: empty when the configuration is new or its
   * `storageIds` is empty, else the ids `JSON.parse` reads from it that name
   * an active storage. Parsing is outside the model: `parsed` is what
   * `JSON.parse` returns for that text.
   */
  function InitialIds(storageIds: Option<string>, parsed: seq<int>, storages: seq<StorageConfig>): (r: seq<int>)
    ensures storageIds.None? || storageIds.value == "" ==> r == []
    ensures forall k :: 0 <= k < |r| ==> r[k] in parsed && Offered(ActiveStorages(storages), r[k])
  {
    if storageIds.None? || storageIds.value == "" then []
    else KeepOffered(parsed, ActiveStorages(storages))
  }

  /** A saved id survives exactly when an enabled storage carries it. */
  lemma InitialIdsKeepEnabled(storageIds: string, parsed: seq<int>, storages: seq<StorageConfig>, id: int)
    requires storageIds != "" && id in parsed
    ensures id in InitialIds(Some(storageIds), parsed, storages) <==>
      exists k :: 0 <= k < |storages| && storages[k].isEnabled && storages[k].id == Some(id)
    ensures Subsequence(InitialIds(Some(storageIds), parsed, storages), parsed)
  {
    var active := ActiveStorages(storages);
    FilterSubsequence(parsed, (id: int) => Offered(active, id));
    ActiveStoragesExact(storages);
    if exists k :: 0 <= k < |storages| && storages[k].isEnabled && storages[k].id == Some(id) {
      var k :| 0 <= k < |storages| && storages[k].isEnabled && storages[k].id == Some(id);
      var j :| 0 <= j < |active| && active[j] == storages[k];
      assert Offered(active, id);
      var p :| 0 <= p < |parsed| && parsed[p] == id;
      assert parsed[p] in KeepOffered(parsed, active);
    }
    if id in InitialIds(Some(storageIds), parsed, storages) {
      assert Offered(active, id);
      var j :| 0 <= j < |active| && active[j].id == Some(id);
      assert active[j] in storages;
    }
  }

  // ---------------------------------------------------------------------------
  // The selection toggle

  /** `ids.filter(i => i !== id)`. */
  function Without(ids: seq<int>, id: int): (r: seq<int>)
    ensures |r| <= |ids|
    decreases |ids|
  {
    if ids == [] then []
    else (if ids[0] == id then [] else [ids[0]]) + Without(ids[1..], id)
  }

  /** The id is gone and every other id is kept. */
  lemma {:induction false} WithoutMembers(ids: seq<int>, id: int)
    ensures id !in Without(ids, id)
    ensures forall x :: x != id ==> (x in Without(ids, id) <==> x in ids)
    decreases |ids|
  {
    if ids != [] {
      WithoutMembers(ids[1..], id);
      assert ids == [ids[0]] + ids[1..];
    }
  }

  lemma {:induction false} WithoutAppend(a: seq<int>, b: seq<int>, id: int)
    ensures Without(a + b, id) == Without(a, id) + Without(b, id)
    decreases |a|
  {
    if a == [] {
      assert a + b == b;
    } else {
      var h := if a[0] == id then [] else [a[0]];
      var x, y := Without(a[1..], id), Without(b, id);
      assert (a + b)[0] == a[0] && (a + b)[1..] == a[1..] + b;
      WithoutAppend(a[1..], b, id);
      assert Without(a + b, id) == h + (x + y);
      assert Without(a, id) == h + x;
      assert h + (x + y) == (h + x) + y;
    }
  }

  /** Removing an id that is not there changes nothing. */
  lemma {:induction false} WithoutAbsent(ids: seq<int>, id: int)
    requires id !in ids
    ensures Without(ids, id) == ids
    decreases |ids|
  {
    if ids != [] {
      WithoutAbsent(ids[1..], id);
      assert ids == [ids[0]] + ids[1..];
    }
  }

  /** `toggleStorage`'s new list: every occurrence removed if present, else appended. */
  function Toggle(ids: seq<int>, id: int): (r: seq<int>)
    ensures id in r <==> id !in ids
    ensures forall x :: x != id ==> (x in r <==> x in ids)
  {
    if id in ids then
      WithoutMembers(ids, id);
      Without(ids, id)
    else ids + [id]
  }

  /** The other ids keep their relative order: only `id` moves. */
  lemma ToggleKeepsOthers(ids: seq<int>, id: int)
    ensures Without(Toggle(ids, id), id) == Without(ids, id)
  {
    if id in ids {
      WithoutMembers(ids, id);
      WithoutAbsent(Without(ids, id), id);
    } else {
      WithoutAppend(ids, [id], id);
      assert Without([id], id) == [];
    }
  }

  /** Toggling an id that is not selected twice restores the list exactly. */
  lemma ToggleTwiceAbsent(ids: seq<int>, id: int)
    requires id !in ids
    ensures Toggle(Toggle(ids, id), id) == ids
  {
    WithoutAppend(ids, [id], id);
    assert Without([id], id) == [];
    WithoutAbsent(ids, id);
  }

  /** Toggling a selected id twice moves it, once, to the end. */
  lemma ToggleTwicePresent(ids: seq<int>, id: int)
    requires id in ids
    ensures Toggle(Toggle(ids, id), id) == Without(ids, id) + [id]
  {
    WithoutMembers(ids, id);
  }

  // ---------------------------------------------------------------------------
  // The `storageIds` field: `JSON.stringify` of the selection

  /** The decimal numerals of the ids, as `JSON.stringify` writes them. */
  function Numerals(ids: seq<int>): (r: seq<string>)
    ensures |r| == |ids|
    ensures forall k :: 0 <= k < |r| ==> r[k] == IntToString(ids[k])
  {
    seq(|ids|, k requires 0 <= k < |ids| => IntToString(ids[k]))
  }

  /** `JSON.stringify(ids)` for an array of integers. */
  function Json(ids: seq<int>): (r: string)
    ensures |r| >= 2 && r[0] == '[' && r[|r| - 1] == ']'
  {
    "[" + (if ids == [] then "" else Join(Numerals(ids), ',')) + "]"
  }

  /** A numeral as `JSON.parse` reads an integer: an optional minus sign, then digits. */
  function ParseInt(s: string): Option<int> {
    if s != [] && s[0] == '-' && |s| >= 2 && AllDigits(s[1..]) then Some(0 - DigitsValue(s[1..]))
    else if s != [] && AllDigits(s) then Some(DigitsValue(s))
    else None
  }

  function ParseInts(pieces: seq<string>): Option<seq<int>>
    decreases |pieces|
  {
    if pieces == [] then Some([])
    else match (ParseInt(pieces[0]), ParseInts(pieces[1..]))
      case (Some(x), Some(rest)) => Some([x] + rest)
      case _ => None
  }

  /** Reads back an array of integers written as `Json` writes it. */
  function ParseJson(s: string): Option<seq<int>> {
    if |s| < 2 || s[0] != '[' || s[|s| - 1] != ']' then None
    else if s == "[]" then Some([])
    else ParseInts(Split(s[1..|s| - 1], ','))
  }

  lemma IntRoundTrip(i: int)
    ensures ParseInt(IntToString(i)) == Some(i)
  {
    if i < 0 {
      NegativeParses(-i);
    } else {
      NonNegativeParses(i);
    }
  }

  lemma NegativeParses(n: nat)
    requires n > 0
    ensures ParseInt("-" + NatToString(n)) == Some(-(n as int))
  {
    var s := "-" + NatToString(n);
    assert s[0] == '-' && s[1..] == NatToString(n);
    NatToStringRoundTrip(n);
  }

  lemma NonNegativeParses(n: nat)
    ensures ParseInt(NatToString(n)) == Some(n)
  {
    var s := NatToString(n);
    assert IsDigit(s[0]);
    NatToStringRoundTrip(n);
  }

  lemma {:induction false} ParseNumerals(ids: seq<int>)
    ensures ParseInts(Numerals(ids)) == Some(ids)
    decreases |ids|
  {
    if ids != [] {
      var t := ids[1..];
      ParseNumerals(t);
      NumeralsCons(ids);
      IntRoundTrip(ids[0]);
      ParseIntsCons(IntToString(ids[0]), Numerals(t), ids[0], t);
      assert [ids[0]] + t == ids;
    }
  }

  lemma {:induction false} NumeralsCons(ids: seq<int>)
    requires ids != []
    ensures Numerals(ids) == [IntToString(ids[0])] + Numerals(ids[1..])
  {
  }

  lemma {:induction false} ParseIntsCons(a: string, rest: seq<string>, x: int, xs: seq<int>)
    requires ParseInt(a) == Some(x) && ParseInts(rest) == Some(xs)
    ensures ParseInts([a] + rest) == Some([x] + xs)
  {
    assert ([a] + rest)[0] == a && ([a] + rest)[1..] == rest;
  }

  /** The field always holds the JSON of a list that reads back as the selection. */
  lemma JsonRoundTrip(ids: seq<int>)
    ensures ParseJson(Json(ids)) == Some(ids)
  {
    var s := Json(ids);
    if ids != [] {
      var numerals := Numerals(ids);
      forall k | 0 <= k < |numerals|
        ensures ',' !in numerals[k]
      {
        assert forall m :: 0 <= m < |numerals[k]| ==> IsDigit(numerals[k][m]) || numerals[k][m] == '-';
      }
      JoinSplit(numerals, ',');
      var body := Join(numerals, ',');
      assert s[1..|s| - 1] == body;
      assert s != "[]" by {
        assert |body| >= |numerals[0]| >= 1 by {
          JoinLength(numerals, ',');
        }
      }
      ParseNumerals(ids);
    }
  }

  lemma {:induction false} JoinLength(parts: seq<string>, sep: char)
    requires |parts| >= 1
    ensures |Join(parts, sep)| >= |parts[0]|
    decreases |parts|
  {
    if |parts| > 1 {
      JoinLength(parts[1..], sep);
    }
  }

  /** Only the empty selection is written as "[]". */
  lemma JsonEmpty(ids: seq<int>)
    ensures Json(ids) == "[]" <==> ids == []
  {
    if ids != [] {
      JsonRoundTrip(ids);
      assert ParseJson("[]") == Some([]);
    }
  }

  // ---------------------------------------------------------------------------
  // The selection as the form keeps it

  /** The checked storages and the hidden `storageIds` field of an open form. */
  class Selection {
    var selected: seq<int>
    var storageIds: string

    /** The field always holds the JSON of the checked ids. */
    ghost predicate Valid()
      reads this
    {
      storageIds == Json(selected)
    }

    /** The form opens with the initial ids checked and their JSON in the field. */
    constructor (configIds: Option<string>, parsed: seq<int>, storages: seq<StorageConfig>)
      ensures Valid() && selected == InitialIds(configIds, parsed, storages)
    {
      selected := InitialIds(configIds, parsed, storages);
      storageIds := Json(InitialIds(configIds, parsed, storages));
    }

    /** A checkbox click: the selection is toggled and the field rewritten from it. */
    method ToggleStorage(id: int)
      modifies this
      ensures selected == Toggle(old(selected), id)
      ensures Valid()
    {
      var newIds := if id in selected then Without(selected, id) else selected + [id];
      selected := newIds;
      storageIds := Json(newIds);
    }

    /** Whether a storage's checkbox shows as checked. */
    function Checked(id: int): bool
      reads this
    {
      id in selected
    }
  }

  // ---------------------------------------------------------------------------
  // Defaults, visible fields and the request

  /** The fields of a saved backup configuration the form reads; absent ones are `None`. */
  datatype BackupConfig = BackupConfig(
    id: Option<int>,
    vault: Option<string>,
    backupType: Option<string>,
    cronStrategy: Option<string>,
    cronExpression: Option<string>,
    storageIds: Option<string>,
    isEnabled: Option<bool>,
    retentionDays: Option<int>)

  /** The values the form holds and submits. */
  datatype FormData = FormData(
    vault: string,
    backupType: Option<string>,
    cronStrategy: string,
    cronExpression: string,
    storageIds: string,
    isEnabled: bool,
    retentionDays: int)

  /** `value || fallback` for an optional string: empty counts as missing. */
  function OrString(value: Option<string>, fallback: string): (r: string)
    ensures value.Some? && value.value != "" ==> r == value.value
    ensures value.None? || value.value == "" ==> r == fallback
  {
    if value.None? || value.value == "" then fallback else value.value
  }

  /** A field of a configuration that may be absent. */
  function Field<T>(config: Option<BackupConfig>, get: BackupConfig -> Option<T>): Option<T> {
    if config.None? then None else get(config.value)
  }

  /**
   * `defaultValues`: vault, strategy and expression fall back when missing or
   * empty (`||`); enabled and retention days only when missing (`??`); the
   * storage field is the JSON of the initial selection.
   */
  function Defaults(config: Option<BackupConfig>, initial: seq<int>): (d: FormData)
    ensures d.storageIds == Json(initial)
    ensures config.None? ==>
      d == FormData("", None, "daily", "0 0 * * *", Json(initial), true, 30)
    ensures config.Some? ==>
      d.vault == OrString(config.value.vault, "") &&
      d.backupType == config.value.backupType &&
      d.cronStrategy == OrString(config.value.cronStrategy, "daily") &&
      d.cronExpression == OrString(config.value.cronExpression, "0 0 * * *") &&
      d.isEnabled == config.value.isEnabled.GetOr(true) &&
      d.retentionDays == config.value.retentionDays.GetOr(30)
  {
    FormData(
      OrString(Field(config, (c: BackupConfig) => c.vault), ""),
      Field(config, (c: BackupConfig) => c.backupType),
      OrString(Field(config, (c: BackupConfig) => c.cronStrategy), "daily"),
      OrString(Field(config, (c: BackupConfig) => c.cronExpression), "0 0 * * *"),
      Json(initial),
      Field(config, (c: BackupConfig) => c.isEnabled).GetOr(true),
      Field(config, (c: BackupConfig) => c.retentionDays).GetOr(30))
  }

  /**
   * The two fallbacks differ on falsy values that are present: an empty
   * strategy becomes "daily", but a saved `false` and a saved 0 are kept.
   */
  lemma DefaultsKeepFalsyNumbers(config: BackupConfig, initial: seq<int>)
    requires config.cronStrategy == Some("") && config.isEnabled == Some(false) && config.retentionDays == Some(0)
    ensures Defaults(Some(config), initial).cronStrategy == "daily"
    ensures !Defaults(Some(config), initial).isEnabled
    ensures Defaults(Some(config), initial).retentionDays == 0
  {
  }

  /** The schedule fields show only for full and incremental backups. */
  predicate ShowsSchedule(backupType: Option<string>) {
    backupType == Some("full") || backupType == Some("incremental")
  }

  /** Retention days show for full, incremental and sync. */
  predicate ShowsRetention(backupType: Option<string>) {
    ShowsSchedule(backupType) || backupType == Some("sync")
  }

  /** The cron expression can be edited only under the custom strategy. */
  predicate CronEditable(cronStrategy: string) {
    cronStrategy == "custom"
  }

  /** The retention label: the sync wording for sync, the backup wording for full and incremental. */
  function RetentionLabel(backupType: Option<string>): (key: string)
    requires ShowsRetention(backupType)
    ensures key == "ui.backup.retentionDays.sync" <==> backupType == Some("sync")
    ensures key == "ui.backup.retentionDays.backup" <==> ShowsSchedule(backupType)
  {
    if backupType == Some("sync") then "ui.backup.retentionDays.sync"
    else if ShowsSchedule(backupType) then "ui.backup.retentionDays.backup"
    else "ui.backup.retentionDays"
  }

  /** Sync shows retention but no schedule; before a type is chosen neither shows. */
  lemma VisibilityTable(backupType: Option<string>)
    ensures ShowsSchedule(backupType) ==> ShowsRetention(backupType)
    ensures ShowsRetention(backupType) && !ShowsSchedule(backupType) <==> backupType == Some("sync")
    ensures backupType.None? ==> !ShowsRetention(backupType)
  {
  }

  /** What `handleBackupConfigUpdate` receives: the form data and the configuration's id. */
  datatype BackupRequest = BackupRequest(data: FormData, id: Option<int>)

  function SubmitRequest(data: FormData, config: Option<BackupConfig>): (r: BackupRequest)
    ensures r.data == data
    ensures config.None? ==> r.id.None?
    ensures config.Some? ==> r.id == config.value.id
  {
    BackupRequest(data, Field(config, (c: BackupConfig) => c.id))
  }
}
