/**
 * The Git automation page: the list of sync configurations on the left and
 * the global run history on the right. The history pager is
 * `Paging.HistoryPager` with kind `GitHistory` (its refresh button is
 * `Reset`, its reload after "run now" is `ReloadAfterExecute`), durations
 * come from `Duration` and status icons from `GitHistoryDialog.ViewOf`.
 */
module GitAutomation {
  import opened Wrappers
  import opened Strings
  import opened Seqs
  import GitHistoryDialog

  /** The fields of a sync configuration the page decides on. */
  datatype GitConfig = GitConfig(id: int, vault: string, lastStatus: Option<int>, lastMessage: string)

  /** `configs.find(c => c.id === id)`, as a position. */
  function FindConfig(configs: seq<GitConfig>, id: int): Option<nat> {
    FirstWhere(configs, (c: GitConfig) => c.id == id)
  }

  /**
   * `getVaultName`: the vault of the first configuration with that id, kept
   * even when empty (the fallback uses `??`), else "#<id>".
   */
  function VaultName(configs: seq<GitConfig>, id: int): (r: string)
    ensures (exists k :: 0 <= k < |configs| && configs[k].id == id) ==>
      r == configs[FindConfig(configs, id).value].vault
    ensures (forall k :: 0 <= k < |configs| ==> configs[k].id != id) ==> r == "#" + IntToString(id)
  {
    match FindConfig(configs, id)
    case Some(k) => configs[k].vault
    case None => "#" + IntToString(id)
  }

  /** A configuration with an empty vault name still shows it: the id fallback is only for unknown ids. */
  lemma EmptyVaultKept(configs: seq<GitConfig>, k: nat)
    requires k < |configs| && configs[k].vault == ""
    requires forall j :: 0 <= j < k ==> configs[j].id != configs[k].id
    ensures VaultName(configs, configs[k].id) == ""
  {
    var id := configs[k].id;
    FirstWhereIs(configs, (c: GitConfig) => c.id == id, k);
  }

  /** A configuration's failure message shows only for a non-empty message with last status 3 (failed). */
  predicate ShowsFailure(c: GitConfig) {
    c.lastMessage != "" && c.lastStatus == Some(3)
  }

  /** A shown failure message is exactly a failed run's message, and its icon is the failed one. */
  lemma FailureShownOnlyWhenFailed(c: GitConfig)
    ensures ShowsFailure(c) <==>
      c.lastStatus.Some? && GitHistoryDialog.ViewOf(c.lastStatus.value) == GitHistoryDialog.Failed && c.lastMessage != ""
  {
  }

  /** The status label of a configuration: a missing last status reads as 0. */
  function ConfigStatusKey(c: GitConfig): (k: string)
    ensures c.lastStatus.None? ==> k == GitHistoryDialog.StatusKey(0)
    ensures c.lastStatus.Some? ==> k == GitHistoryDialog.StatusKey(c.lastStatus.value)
  {
    GitHistoryDialog.StatusKey(c.lastStatus.GetOr(0))
  }

  /** What a list area shows: a spinner, the rows, or the empty placeholder. */
  datatype ListArea = Spinner | Rows | Placeholder

  /**
   * Both lists show their rows whenever they have any, the spinner only while
   * loading with nothing to show yet, and the placeholder otherwise.
   */
  function AreaOf(loading: bool, count: nat): (a: ListArea)
    ensures a == Rows <==> count > 0
    ensures a == Spinner <==> loading && count == 0
    ensures a == Placeholder <==> !loading && count == 0
  {
    if loading && count == 0 then Spinner else if count > 0 then Rows else Placeholder
  }
}
