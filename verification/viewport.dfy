/**
 * The responsive breakpoint (ZeTable.tsx, lines 42 and 61-71). The resize
 * subscription itself is browser plumbing; what remains is the width test and
 * the rule that every measurement overwrites the previous flag.
 */
module Viewport {

  /** Widths up to and including this many pixels count as mobile. */
  const MobileBreakpoint: int := 992

  /** `window.innerWidth <= 992`. */
  predicate IsMobile(width: int)
  {
    width <= MobileBreakpoint
  }

  /**
   * The `isMobile` flag after `handleResize` has run once per width in
   * `widths` (the call at mount, then one per resize event), starting from `flag`.
   */
  function AfterMeasurements(flag: bool, widths: seq<int>): bool
    decreases |widths|
  {
    if |widths| == 0 then flag else AfterMeasurements(IsMobile(widths[0]), widths[1..])
  }

  /** The breakpoint is inclusive: 992 pixels is mobile, 993 is not. */
  lemma BreakpointIsInclusive()
    ensures IsMobile(992)
    ensures !IsMobile(993)
  {
  }

  /** Narrowing the viewport never leaves mobile mode. */
  lemma MobileIsDownwardClosed(narrow: int, wide: int)
    requires narrow <= wide
    ensures IsMobile(wide) ==> IsMobile(narrow)
  {
  }

  /**
   * Only the latest measurement matters: before any measurement the flag keeps
   * its initial value, afterwards it is the breakpoint test of the last width.
   */
  lemma {:induction false} LatestMeasurementWins(flag: bool, widths: seq<int>)
    ensures |widths| == 0 ==> AfterMeasurements(flag, widths) == flag
    ensures |widths| > 0 ==> AfterMeasurements(flag, widths) == IsMobile(widths[|widths| - 1])
    decreases |widths|
  {
    if |widths| > 0 {
      LatestMeasurementWins(IsMobile(widths[0]), widths[1..]);
      if |widths| > 1 {
        assert widths[1..][|widths[1..]| - 1] == widths[|widths| - 1];
      }
    }
  }
}
