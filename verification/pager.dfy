/**
 * Paging of the history lists: the Git history dialog and the global Git
 * history panel (ten rows a page, a total that is at least one page), and
 * the backup history dialog (five rows a page, a plain ceiling). Both
 * accept a total of -1 from the server, meaning "unknown", and then page
 * by whether the last page came back full. The dialogs render the pager
 * below the list whatever it holds; the global panel renders it only next
 * to rows (`Placement`).
 */
module Paging {
  import opened Wrappers

  /** `Math.ceil(t / n)` for a positive page size. */
  function CeilDiv(t: int, n: int): (r: int)
    requires n > 0
    ensures n * (r - 1) < t <= n * r
  {
    var q := (t + n - 1) / n;
    assert t + n - 1 == n * q + (t + n - 1) % n;
    q
  }

  /** The two lists differ in page size and in what counts as a known total. */
  datatype Kind = GitHistory | BackupHistory

  function PageSize(kind: Kind): (n: int)
    ensures n > 0
  {
    match kind
    case GitHistory => 10
    case BackupHistory => 5
  }

  /**
   * `totalPages`: for the Git lists the ceiling of `total / 10` when the
   * total is positive and 1 otherwise; for the backup list the plain
   * ceiling of `total / 5`, which is 0 for a total of 0 or -1.
   */
  function TotalPages(kind: Kind, total: int): (r: int)
    ensures kind.GitHistory? ==> r >= 1
    ensures kind.GitHistory? && total <= 0 ==> r == 1
    ensures kind.GitHistory? && total > 0 ==> 10 * (r - 1) < total <= 10 * r
    ensures kind.BackupHistory? ==> 5 * (r - 1) < total <= 5 * r
  {
    match kind
    case GitHistory => if total > 0 then CeilDiv(total, 10) else 1
    case BackupHistory => CeilDiv(total, 5)
  }

  /**
   * Whether the page counter shows "page / pages" and the total count: the
   * Git lists trust a positive total, the backup list any total but -1.
   */
  predicate KnownTotal(kind: Kind, total: int) {
    match kind
    case GitHistory => total > 0
    case BackupHistory => total != -1
  }

  /** The pager shows when there is more than one page, or the total is unknown and there may be more. */
  predicate PagerShown(kind: Kind, total: int, rows: int, page: int) {
    TotalPages(kind, total) > 1 || (total == -1 && (rows == PageSize(kind) || page > 1))
  }

  /**
   * Where the pager sits: below the list in the two history dialogs, inside
   * the branch that renders rows in the global Git history panel.
   */
  datatype Placement = BelowList | WithRows

  /** The pager is on screen when its condition holds and, for the panel, there are rows. */
  predicate PagerVisible(placement: Placement, kind: Kind, total: int, rows: int, page: int) {
    PagerShown(kind, total, rows, page) && (placement.BelowList? || rows > 0)
  }

  /**
   * A later page that comes back empty with an unknown total keeps the
   * dialog's pager, so "previous" can be pressed; the global panel shows
   * only its placeholder, without a pager.
   */
  lemma EmptyLaterPage(page: int)
    requires page > 1
    ensures PagerVisible(BelowList, GitHistory, -1, 0, page)
    ensures !PagerVisible(WithRows, GitHistory, -1, 0, page)
  {
  }

  /** With rows on screen the two placements agree. */
  lemma PlacementsAgreeWithRows(kind: Kind, total: int, rows: int, page: int)
    requires rows > 0
    ensures PagerVisible(BelowList, kind, total, rows, page) <==> PagerVisible(WithRows, kind, total, rows, page)
  {
  }

  predicate PrevDisabled(page: int, loading: bool) {
    page <= 1 || loading
  }

  predicate NextDisabled(kind: Kind, total: int, rows: int, page: int, loading: bool) {
    (if KnownTotal(kind, total) then page >= TotalPages(kind, total) else rows < PageSize(kind)) || loading
  }

  /** The text between the two buttons. */
  datatype Counter = OfPages(page: int, pages: int) | PageOnly(page: int)

  function PageCounter(kind: Kind, total: int, page: int): (c: Counter)
    ensures c.page == page
    ensures c.OfPages? <==> KnownTotal(kind, total)
  {
    if KnownTotal(kind, total) then OfPages(page, TotalPages(kind, total)) else PageOnly(page)
  }

  // ---------------------------------------------------------------------------
  // What the predicates mean

  /**
   * With a known total, "next" is enabled exactly when rows remain after the
   * current page, and then the next page is still within the page count.
   */
  lemma NextEnabledIffMoreRows(kind: Kind, total: int, rows: int, page: int, loading: bool)
    requires KnownTotal(kind, total) && page >= 1
    ensures !NextDisabled(kind, total, rows, page, loading) <==> !loading && PageSize(kind) * page < total
    ensures !NextDisabled(kind, total, rows, page, loading) ==> page + 1 <= TotalPages(kind, total)
  {
    var n, p := PageSize(kind), TotalPages(kind, total);
    assert n * (p - 1) < total <= n * p;
    if page < p {
      assert n * page <= n * (p - 1);
    }
    if n * page < total {
      assert n * page < n * p;
    }
  }

  /** With an unknown total, "next" is enabled exactly when the last page came back full. */
  lemma NextWithUnknownTotal(kind: Kind, rows: int, page: int, loading: bool)
    ensures !NextDisabled(kind, -1, rows, page, loading) <==> !loading && rows >= PageSize(kind)
  {
  }

  /** With a known positive total the pager shows exactly when the rows do not fit one page. */
  lemma PagerShownIffSeveralPages(kind: Kind, total: int, rows: int, page: int)
    requires total > 0
    ensures PagerShown(kind, total, rows, page) <==> total > PageSize(kind)
  {
    var p := TotalPages(kind, total);
    assert PageSize(kind) * (p - 1) < total <= PageSize(kind) * p;
  }

  /** An empty backup history (total 0) has no pages and shows no pager; "next" stays disabled. */
  lemma BackupEmptyHistory(rows: int, page: int, loading: bool)
    requires page >= 1
    ensures TotalPages(BackupHistory, 0) == 0
    ensures !PagerShown(BackupHistory, 0, rows, page)
    ensures NextDisabled(BackupHistory, 0, rows, page, loading)
  {
  }

  /** A Git total of 0 also shows no pager, but falls back to the row count for "next". */
  lemma GitEmptyHistory(rows: int, page: int, loading: bool)
    ensures TotalPages(GitHistory, 0) == 1
    ensures !PagerShown(GitHistory, 0, rows, page)
    ensures !NextDisabled(GitHistory, 0, rows, page, loading) <==> !loading && rows >= 10
  {
  }

  // ---------------------------------------------------------------------------
  // The pager state

  /**
   * The state a history list keeps: the current page, the last total and
   * rows the server returned, and whether a load is in flight. `requested`
   * is the page whose rows are (being) shown.
   */
  class HistoryPager<Row> {
    const kind: Kind
    var page: int
    var total: int
    var history: seq<Row>
    var loading: bool
    var requested: int

    /** The counter and the rows agree, and the page is never below 1. */
    ghost predicate Valid()
      reads this
    {
      page >= 1 && requested == page
    }

    /** The initial state: page 1, total 0, no rows, not loading. */
    constructor (kind: Kind)
      ensures Valid()
      ensures this.kind == kind && page == 1 && total == 0 && history == [] && !loading
    {
      this.kind := kind;
      page := 1;
      total := 0;
      history := [];
      loading := false;
      requested := 1;
    }

    /**
     * Opening a dialog, or the refresh button of the global list: back to
     * page 1, and page 1 is loaded.
     */
    method Reset() returns (load: int)
      modifies this
      ensures Valid() && page == 1 && load == 1 && loading
      ensures total == old(total) && history == old(history)
    {
      page := 1;
      requested := 1;
      loading := true;
      load := 1;
    }

    /** The previous button, which is only enabled when it can be pressed. */
    method Previous() returns (load: int)
      requires Valid() && !PrevDisabled(page, loading)
      modifies this
      ensures Valid() && page == old(page) - 1 && load == page && loading
      ensures total == old(total) && history == old(history)
    {
      page := page - 1;
      requested := page;
      loading := true;
      load := page;
    }

    /** The next button; with a known total it never goes past the last page. */
    method Next() returns (load: int)
      requires Valid() && !NextDisabled(kind, total, |history|, page, loading)
      modifies this
      ensures Valid() && page == old(page) + 1 && load == page && loading
      ensures KnownTotal(kind, total) ==> page <= TotalPages(kind, total)
      ensures total == old(total) && history == old(history)
    {
      if KnownTotal(kind, total) {
        NextEnabledIffMoreRows(kind, total, |history|, page, loading);
      }
      page := page + 1;
      requested := page;
      loading := true;
      load := page;
    }

    /**
     * The Git panel's reload after a successful "run now", as written: page 1
     * is loaded but the counter keeps its page, so from any later page the
     * counter and the rows disagree. `Reset` is what it evidently means.
     */
    method ReloadAfterExecute() returns (load: int)
      requires Valid()
      modifies this
      ensures load == 1 && requested == 1 && loading
      ensures page == old(page) && total == old(total) && history == old(history)
      ensures Valid() <==> old(page) == 1
    {
      requested := 1;
      loading := true;
      load := 1;
    }

    /**
     * The end of a load: the rows and total are replaced only when the
     * request succeeded (the callback is not called otherwise), and the
     * loading flag is cleared either way.
     */
    method Loaded(response: Option<(seq<Row>, int)>)
      requires Valid()
      modifies this
      ensures Valid() && !loading && page == old(page)
      ensures response.Some? ==> history == response.value.0 && total == response.value.1
      ensures response.None? ==> history == old(history) && total == old(total)
    {
      if response.Some? {
        history := response.value.0;
        total := response.value.1;
      }
      loading := false;
    }
  }
}
