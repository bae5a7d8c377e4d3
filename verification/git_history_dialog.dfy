/**
 * The Git sync history dialog: a table of runs, optionally filtered to one
 * configuration. Its paging is in `Paging` (kind `GitHistory`) and its
 * duration column in `Duration`; here are the status display, the columns
 * and the text cells.
 */
module GitHistoryDialog {
  import opened Wrappers
  import opened Strings

  /**
   * How a run status is shown: 1 running, 2 succeeded, 3 failed; every other
   * value (0 idle, 4 shut down, anything unknown) shows as idle. The same
   * choice picks the icon and the badge colour.
   */
  datatype StatusView = Running | Succeeded | Failed | Idle

  function ViewOf(status: int): (v: StatusView)
    ensures v == Running <==> status == 1
    ensures v == Succeeded <==> status == 2
    ensures v == Failed <==> status == 3
    ensures v == Idle <==> status !in {1, 2, 3}
  {
    if status == 1 then Running
    else if status == 2 then Succeeded
    else if status == 3 then Failed
    else Idle
  }

  /** Only the three known live states are told apart; the rest share one view. */
  lemma ViewDistinguishesKnownStates(a: int, b: int)
    requires ViewOf(a) == ViewOf(b) && a != b
    ensures a !in {1, 2, 3} && b !in {1, 2, 3}
  {
  }

  /** The translation key of a status label. */
  function StatusKey(status: int): (k: string)
    ensures StartsWith(k, "ui.git.status.")
  {
    "ui.git.status." + IntToString(status)
  }

  /**
   * The header cells: the run id, then the configuration id only when the
   * dialog is not filtered to one configuration, then start time, duration,
   * status and message.
   */
  function Headers(configId: Option<int>): (h: seq<string>)
    ensures |h| >= 5 && h[0] == "ID" && h[|h| - 1] == "ui.git.history.message"
    ensures "ui.git.history.configId" in h <==> configId.None?
  {
    ["ID"] + (if configId.None? then ["ui.git.history.configId"] else [])
    + ["ui.git.history.startTime", "ui.git.history.duration", "ui.git.history.status", "ui.git.history.message"]
  }

  /** The `colSpan` of the loading and empty rows. */
  function ColumnCount(configId: Option<int>): int {
    if configId.None? then 6 else 5
  }

  /** The placeholder rows span exactly the header: 6 columns unfiltered, 5 filtered. */
  lemma PlaceholderSpansHeader(configId: Option<int>)
    ensures ColumnCount(configId) == |Headers(configId)|
    ensures ColumnCount(configId) == (if configId.None? then 6 else 5)
  {
  }

  /** The dialog title: the translated title, followed by " #<id>" when filtered. */
  function Title(title: string, configId: Option<int>): (r: string)
    ensures StartsWith(r, title)
    ensures configId.None? <==> r == title
  {
    if configId.Some? then title + " #" + IntToString(configId.value) else title
  }

  /** A text cell that shows "-" in place of an empty value (`value || "-"`). */
  function OrDash(value: string): (r: string)
    ensures r != ""
    ensures value != "" ==> r == value
  {
    if value == "" then "-" else value
  }
}
