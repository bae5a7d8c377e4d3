/**
 * The server overview card: which view it shows, the uptime as hours,
 * minutes and seconds, the heap bar's width and the memory bar's colour.
 * The system information is a parameter.
 */
module Overview {
  import opened Wrappers

  // ---------------------------------------------------------------------------
  // Which view

  datatype View<T> = Spinner | ErrorView | Details(info: T)

  /** A spinner while loading with nothing to show, an error view when nothing arrived, else the details. */
  function ViewFor<T>(isLoading: bool, systemInfo: Option<T>): (r: View<T>)
    ensures r.Spinner? <==> isLoading && systemInfo.None?
    ensures r.ErrorView? <==> !isLoading && systemInfo.None?
    ensures r.Details? <==> systemInfo.Some?
    ensures r.Details? ==> r.info == systemInfo.value
  {
    if isLoading && systemInfo.None? then Spinner
    else if systemInfo.None? then ErrorView
    else Details(systemInfo.value)
  }

  // ---------------------------------------------------------------------------
  // Uptime

  /** JavaScript's `%`: the remainder takes the sign of the dividend. */
  function JsRem(a: int, b: int): (r: int)
    requires b > 0
    ensures -b < r < b
    ensures a >= 0 ==> 0 <= r
    ensures a < 0 ==> r <= 0
  {
    if a >= 0 then a % b else -((-a) % b)
  }

  /**
   * `Math.floor(u / 3600)`, `Math.floor((u % 3600) / 60)`, `Math.floor(u % 60)`
   * for a whole number of seconds (Dafny's `/` by a positive divisor is the floor).
   */
  function Uptime(u: int): (hms: (int, int, int)) {
    (u / 3600, JsRem(u, 3600) / 60, JsRem(u, 60))
  }

  /** A division by 60 with remainder `t` in range determines `u % 60`. */
  lemma RemainderUnique(u: int, q: int, t: int)
    requires u == 60 * q + t && 0 <= t < 60
    ensures u % 60 == t && u / 60 == q
  {
  }

  /** For whole non-negative seconds the three parts give the uptime back, with minutes and seconds below 60. */
  lemma UptimeDecomposes(u: nat)
    ensures 3600 * Uptime(u).0 + 60 * Uptime(u).1 + Uptime(u).2 == u
    ensures 0 <= Uptime(u).1 < 60 && 0 <= Uptime(u).2 < 60
    ensures 0 <= Uptime(u).0
  {
    var h, r := u / 3600, u % 3600;
    var m, t := r / 60, r % 60;
    assert u == 3600 * h + r;
    assert r == 60 * m + t;
    assert u == 60 * (60 * h + m) + t;
    RemainderUnique(u, 60 * h + m, t);
  }

  // ---------------------------------------------------------------------------
  // The bars

  /**
   * `Math.min(100, memAlloc / memSys * 100)`: `None` stands for NaN, which
   * 0 / 0 gives and `Math.min` passes on; x / 0 for x > 0 is Infinity, so 100.
   */
  function HeapWidth(memAlloc: nat, memSys: nat): (r: Option<real>)
    ensures r.None? <==> memAlloc == 0 && memSys == 0
    ensures r.Some? ==> 0.0 <= r.value <= 100.0
    ensures memSys == 0 && memAlloc > 0 ==> r == Some(100.0)
    ensures memSys > 0 && memAlloc <= memSys ==> r == Some(memAlloc as real / memSys as real * 100.0)
    ensures memSys > 0 && memAlloc > memSys ==> r == Some(100.0)
  {
    if memSys == 0 then
      if memAlloc == 0 then None else Some(100.0)
    else
      var w := memAlloc as real / memSys as real * 100.0;
      Some(if w < 100.0 then w else 100.0)
  }

  datatype BarColor = Destructive | Orange | Primary

  /** Above 85% destructive, above 65% up to 85% orange, otherwise primary. */
  function MemoryBarColor(usedPercent: real): (r: BarColor)
    ensures r == Destructive <==> usedPercent > 85.0
    ensures r == Orange <==> 65.0 < usedPercent <= 85.0
    ensures r == Primary <==> usedPercent <= 65.0
  {
    if usedPercent > 85.0 then Destructive
    else if usedPercent > 65.0 then Orange
    else Primary
  }

  /** The colour never gets milder as usage grows. */
  lemma ColorMonotone(p: real, q: real)
    requires p <= q
    ensures Severity(MemoryBarColor(p)) <= Severity(MemoryBarColor(q))
  {
  }

  function Severity(c: BarColor): nat {
    match c
    case Primary => 0
    case Orange => 1
    case Destructive => 2
  }
}
