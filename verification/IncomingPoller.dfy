/** The poller of one address as the background script runs it: a tick reads the stored cursors, scans ahead and
    back, and writes the cursors once at the end. It is the tick of module BlockScanner. */
module IncomingPoller {
  import opened BlockScan
  import Steps = BlockScanner
  import opened Wrappers

  class Poller {
    const win: Steps.Window
    var forward: Option<int>
    var backfillCursor: Option<int>
    var backfillTarget: Option<int>
    ghost var anchor: int
    ghost var seen: set<int>

    ghost function View(): Steps.World
      reads this
    {
      Steps.World(Steps.Cursors(forward, backfillCursor, backfillTarget), anchor, seen)
    }

    ghost predicate Valid()
      reads this
    {
      Steps.WindowOk(win) && Steps.NoGapAhead(View())
    }

    constructor (blockTime: real, interval: real)
      requires 0.0 < interval <= 2.0 * Steps.LOOKBACK_SEC
      ensures Valid() && win == Steps.ScanWindow(blockTime, interval)
      ensures View() == Steps.World(Steps.Cursors(None, None, None), 0, {})
    {
      Steps.WindowKeepsUp(blockTime, interval);
      win := Steps.ScanWindow(blockTime, interval);
      forward, backfillCursor, backfillTarget, anchor, seen := None, None, None, 0, {};
    }

    /** Re-anchor stale or missing cursors. */
    method Anchor(latest: int)
      modifies this
      ensures Steps.Cursors(forward, backfillCursor, backfillTarget) == Steps.Anchored(old(View()).cursors, latest, win)
      ensures anchor ==
          if old(forward).None? || Steps.Stale(old(View()).cursors, latest, win) then forward.value else old(anchor)
      ensures seen == old(seen)
    {
      if forward.Some? && forward.value < latest - 2 * win.lookback {
        forward, backfillCursor, backfillTarget := None, None, None;
      }
      if forward.None? {
        forward := Some(Steps.Max(0, latest - win.maxBlocks));
        backfillCursor, backfillTarget := forward, Some(Steps.Max(0, latest - win.lookback));
        anchor := forward.value;
      } else if backfillCursor.None? || backfillTarget.None? {
        backfillCursor, backfillTarget := forward, Some(Steps.Max(0, latest - win.lookback));
      }
    }

    /** Scan the slice below the backfill cursor and move the cursor down. */
    method FillBack(node: Node) returns (s: Scan)
      requires Steps.WindowOk(win) && Steps.Backfills(View().cursors)
      modifies this`backfillCursor, this`seen
      ensures var c := old(View()).cursors;
              && ScanOk(s, Steps.BackfillStart(c, win), c.backfill.value)
              && backfillCursor == Some(Steps.NextBackfill(c, win, s)) && seen == old(seen) + s.fetched
    {
      var stop := backfillCursor.value;
      var start := Steps.Max(backfillTarget.value, stop - win.maxBlocks + 1);
      s := ScanIncoming(node, start, stop);
      var next := start - 1;
      if s.throttled {
        next := stop;
      } else if s.highest < stop {
        next := s.highest;
      }
      backfillCursor := Some(Steps.Max(backfillTarget.value - 1, next));
      seen := seen + s.fetched;
    }

    method Poll(latest: int, node: Node) returns (ahead: Scan, back: Scan)
      requires Valid()
      modifies this
      ensures Valid() && Steps.ScansOk(old(View()), latest, win, ahead, back)
      ensures View() == Steps.Tick(old(View()), latest, win, ahead, back)
    {
      hide Steps.Stale, Steps.Anchored, Steps.NoGapAhead;
      ghost var before := View();
      Anchor(latest);
      ghost var c := Steps.Anchored(before.cursors, latest, win);
      ahead, back := Scan({}, 0, false), Scan({}, 0, false);
      if forward.value < latest {
        var start := forward.value + 1;
        var stop := Steps.Min(latest, start + win.maxBlocks - 1);
        ahead := ScanIncoming(node, start, stop);
        if ahead.highest >= start {
          forward := Some(ahead.highest);
        }
        seen := seen + ahead.fetched;
      }
      if !ahead.throttled && backfillCursor.value > backfillTarget.value {
        back := FillBack(node);
      }
      assert Steps.ScansOk(before, latest, win, ahead, back);
      assert View() == Steps.Tick(before, latest, win, ahead, back);
      Steps.TickLeavesNoGap(before, latest, win, ahead, back);
    }
  }
}
