/** The incoming-transfer scanner: a checkpoint that moves forward with the head, and a cursor that walks back
    into older history, both kept in storage between ticks. */
module BlockScanner {
  import opened BlockScan
  import opened Wrappers

  // ---------------------------------------------------------------- the window

  const LOOKBACK_SEC: real := 3600.0
  const SAFETY: int := 2
  const MAX_BLOCKS_PER_POLL: int := 1000
  const MAX_LOOKBACK_BLOCKS: int := 2000
  const MIN_BLOCKS_PER_POLL: int := 50

  datatype Window = Window(maxBlocks: int, lookback: int, produced: int, keepsUp: bool)

  function Ceil(x: real): int { -((-x).Floor) }

  function Min(a: int, b: int): int { if a <= b then a else b }

  function Max(a: int, b: int): int { if a >= b then a else b }

  function ScanWindow(blockTime: real, interval: real): Window {
    var bt := if blockTime > 0.0 then blockTime else 12.0;
    var produced := Ceil(interval / bt);
    var maxBlocks := Min(MAX_BLOCKS_PER_POLL, Max(MIN_BLOCKS_PER_POLL, produced * SAFETY));
    Window(maxBlocks, Min(MAX_LOOKBACK_BLOCKS, Ceil(LOOKBACK_SEC / bt)), produced, maxBlocks >= produced)
  }

  predicate WindowOk(win: Window) {
    && MIN_BLOCKS_PER_POLL <= win.maxBlocks <= MAX_BLOCKS_PER_POLL
    && 1 <= win.lookback <= MAX_LOOKBACK_BLOCKS
    && (win.keepsUp <==> win.produced <= MAX_BLOCKS_PER_POLL)
    && (win.keepsUp ==> win.produced <= win.maxBlocks && win.produced <= 2 * win.lookback)
  }

  /** The window keeps up exactly while a poll interval produces at most 1000 blocks; it then covers them all,
      and an on-time tick never looks stale. */
  lemma WindowKeepsUp(blockTime: real, interval: real)
    requires 0.0 < interval <= 2.0 * LOOKBACK_SEC
    ensures WindowOk(ScanWindow(blockTime, interval))
  {
    var bt := if blockTime > 0.0 then blockTime else 12.0;
    var x, y := interval / bt, LOOKBACK_SEC / bt;
    assert y > 0.0;
    DivideBoth(interval, 2.0 * LOOKBACK_SEC, bt);
    assert 2.0 * LOOKBACK_SEC / bt == 2.0 * y;
    CeilOfDouble(x, y);
  }

  /** Unless they are capped, the window holds twice the blocks of an interval and the lookback an hour of them. */
  lemma WindowIsTimely(blockTime: real, interval: real)
    requires blockTime > 0.0 && interval > 0.0
    ensures var win := ScanWindow(blockTime, interval);
            && interval <= win.produced as real * blockTime < interval + blockTime
            && (win.maxBlocks == 1000 || win.maxBlocks >= 2 * win.produced)
            && (win.maxBlocks == 50 || win.maxBlocks <= 2 * win.produced)
            && (win.lookback == 2000
                || 3600.0 <= win.lookback as real * blockTime < 3600.0 + blockTime)
  {
    CeilTimes(interval, blockTime);
    CeilTimes(3600.0, blockTime);
  }

  lemma CeilTimes(x: real, step: real)
    requires step > 0.0
    ensures x <= Ceil(x / step) as real * step < x + step
  {
    CeilScaled(x, x / step, step);
  }

  lemma CeilScaled(x: real, q: real, step: real)
    requires step > 0.0 && q * step == x
    ensures x <= Ceil(q) as real * step < x + step
  {
    var n := Ceil(q) as real;
    assert q <= n < q + 1.0;
    Scaled(q, n, step);
    Scaled(n, q + 1.0, step);
    assert (q + 1.0) * step == x + step;
  }

  lemma Scaled(a: real, b: real, step: real)
    requires a <= b && step > 0.0
    ensures a * step <= b * step && (a < b ==> a * step < b * step)
  {
    assert (b - a) * step >= 0.0 && (a < b ==> (b - a) * step > 0.0);
  }

  lemma DivideBoth(a: real, b: real, c: real)
    requires a <= b && c > 0.0
    ensures a / c <= b / c
  {
  }

  lemma CeilOfDouble(x: real, y: real)
    requires x <= 2.0 * y && y > 0.0
    ensures Ceil(x) <= 2 * Ceil(y) && Ceil(y) >= 1
  {
    assert Ceil(y) as real >= y;
    assert Ceil(x) as real < x + 1.0;
  }

  // ---------------------------------------------------------------- one tick

  datatype Cursors = Cursors(forward: Option<int>, backfill: Option<int>, target: Option<int>)

  /** The stored cursors; where the checkpoint was last anchored; every block ever handed over. */
  datatype World = World(cursors: Cursors, anchor: int, seen: set<int>)

  predicate Stale(c: Cursors, latest: int, win: Window) {
    c.forward.Some? && c.forward.value < latest - 2 * win.lookback
  }

  /** The cursors a tick starts from: re-anchored at the head when there are none or they are stale. */
  function Anchored(c: Cursors, latest: int, win: Window): (r: Cursors)
    ensures r.forward.Some? && r.backfill.Some? && r.target.Some?
  {
    var target := Max(0, latest - win.lookback);
    if c.forward.None? || Stale(c, latest, win) then
      var forward := Max(0, latest - win.maxBlocks);
      Cursors(Some(forward), Some(forward), Some(target))
    else if c.backfill.None? || c.target.None? then Cursors(c.forward, c.forward, Some(target))
    else c
  }

  function ForwardStop(c: Cursors, latest: int, win: Window): int
    requires c.forward.Some?
  {
    Min(latest, c.forward.value + win.maxBlocks)
  }

  function BackfillStart(c: Cursors, win: Window): int
    requires c.backfill.Some? && c.target.Some?
  {
    Max(c.target.value, c.backfill.value - win.maxBlocks + 1)
  }

  predicate Backfills(c: Cursors) {
    c.backfill.Some? && c.target.Some? && c.backfill.value > c.target.value
  }

  /** The backward scan is left out while the forward scan is being limited. */
  predicate Fills(c: Cursors, latest: int, ahead: Scan)
    requires c.forward.Some?
  {
    !(c.forward.value < latest && ahead.throttled) && Backfills(c)
  }

  /** Where the backfill cursor goes after the slice `[start, cursor]` was scanned. */
  function NextBackfill(c: Cursors, win: Window, s: Scan): int
    requires Backfills(c)
  {
    var next := if s.throttled then c.backfill.value
                else if s.highest < c.backfill.value then s.highest
                else BackfillStart(c, win) - 1;
    Max(c.target.value - 1, next)
  }

  /** One tick of the poller, given how its two scans went. */
  function Tick(w: World, latest: int, win: Window, ahead: Scan, back: Scan): World {
    var c := Anchored(w.cursors, latest, win);
    var anchor := if w.cursors.forward.None? || Stale(w.cursors, latest, win) then c.forward.value else w.anchor;
    var advances := c.forward.value < latest;
    var forward := if advances && ahead.highest >= c.forward.value + 1 then ahead.highest else c.forward.value;
    var fills := Fills(c, latest, ahead);
    World(Cursors(Some(forward), if fills then Some(NextBackfill(c, win, back)) else c.backfill, c.target), anchor,
          w.seen + (if advances then ahead.fetched else {}) + (if fills then back.fetched else {}))
  }

  /** The scans of a tick went as scans go, possibly with failures. */
  ghost predicate ScansOk(w: World, latest: int, win: Window, ahead: Scan, back: Scan) {
    var c := Anchored(w.cursors, latest, win);
    && (c.forward.value < latest ==> ScanOk(ahead, c.forward.value + 1, ForwardStop(c, latest, win)))
    && (Fills(c, latest, ahead) ==> ScanOk(back, BackfillStart(c, win), c.backfill.value))
  }

  datatype Event = Polled(latest: int, ahead: Scan, back: Scan)

  ghost predicate IsRun(w: World, win: Window, events: seq<Event>) {
    if |events| == 0 then true
    else
      var e := events[|events| - 1];
      IsRun(w, win, events[..|events| - 1]) &&
          ScansOk(Run(w, win, events[..|events| - 1]), e.latest, win, e.ahead, e.back)
  }

  function Run(w: World, win: Window, events: seq<Event>): World {
    if |events| == 0 then w
    else
      var e := events[|events| - 1];
      Tick(Run(w, win, events[..|events| - 1]), e.latest, win, e.ahead, e.back)
  }

  // ---------------------------------------------------------------- the checkpoint never passes a gap

  predicate NoGapAhead(w: World) {
    w.cursors.forward.Some? ==>
        w.anchor <= w.cursors.forward.value && forall b :: w.anchor < b <= w.cursors.forward.value ==> b in w.seen
  }

  lemma TickLeavesNoGap(w: World, latest: int, win: Window, ahead: Scan, back: Scan)
    requires NoGapAhead(w) && ScansOk(w, latest, win, ahead, back)
    ensures NoGapAhead(Tick(w, latest, win, ahead, back))
  {
    hide ForwardStop, BackfillStart, NextBackfill, Max, Min;
  }

  /** In every run, whatever fetches fail, every block between the last anchor and the checkpoint was handed
      over. A poll that ends in an error writes nothing and is no event of the run. */
  lemma {:induction false} CheckpointNeverPassesGap(start: Cursors, win: Window, events: seq<Event>)
    requires var w := World(start, if start.forward.Some? then start.forward.value else 0, {}); IsRun(w, win, events)
    ensures var w := World(start, if start.forward.Some? then start.forward.value else 0,
        {}); NoGapAhead(Run(w, win, events))
  {
    hide Tick, ScansOk;
    if |events| > 0 {
      var w := World(start, if start.forward.Some? then start.forward.value else 0, {});
      var e := events[|events| - 1];
      CheckpointNeverPassesGap(start, win, events[..|events| - 1]);
      TickLeavesNoGap(Run(w, win, events[..|events| - 1]), e.latest, win, e.ahead, e.back);
    }
  }

  // ---------------------------------------------------------------- failure-free, on-time runs

  /** Nothing failed in this tick. */
  ghost predicate FlawlessTick(w: World, latest: int, win: Window, ahead: Scan, back: Scan) {
    var c := Anchored(w.cursors, latest, win);
    && ScansOk(w, latest, win, ahead, back)
    && (c.forward.value < latest ==> Flawless(ahead, ForwardStop(c, latest, win)))
    && (Fills(c, latest, ahead) ==> Flawless(back, c.backfill.value))
  }

  /** Every block between the backfill cursor and the checkpoint was handed over. */
  predicate NoGapBehind(w: World) {
    && w.cursors.forward.Some? && w.cursors.backfill.Some? && w.cursors.target.Some?
    && w.cursors.backfill.value <= w.cursors.forward.value
    && forall b :: w.cursors.backfill.value < b <= w.cursors.forward.value ==> b in w.seen
  }

  /** A flawless tick on time brings the checkpoint to the head without re-anchoring, and moves the backfill
      cursor down by a full window, or to the end of its walk. */
  lemma OnTimeTick(w: World, latest: int, win: Window, ahead: Scan, back: Scan)
    requires WindowOk(win) && win.keepsUp && NoGapBehind(w) && FlawlessTick(w, latest, win, ahead, back)
    requires w.cursors.forward.value <= latest <= w.cursors.forward.value + win.produced
    ensures var w' := Tick(w, latest, win, ahead, back);
            && w'.cursors.forward == Some(latest) && w'.anchor == w.anchor && w'.cursors.target == w.cursors.target
            && !Stale(w.cursors, latest, win) && NoGapBehind(w')
            && (Backfills(w.cursors) ==>
                  && w'.cursors.backfill.value < w.cursors.backfill.value
                  && (w'.cursors.backfill.value == w.cursors.backfill.value - win.maxBlocks || !Backfills(w'.cursors)))
            && (!Backfills(w.cursors) ==> w'.cursors.backfill == w.cursors.backfill)
  {
  }

  function LastHead(first: int, events: seq<Event>): int {
    if |events| == 0 then first else events[|events| - 1].latest
  }

  /** The heads of a run on time: each at most one interval's blocks after the one before. */
  predicate OnTime(first: int, win: Window, events: seq<Event>) {
    if |events| == 0 then true
    else
      var before := LastHead(first, events[..|events| - 1]);
      OnTime(first, win, events[..|events| - 1]) && before <= events[|events| - 1].latest <= before + win.produced
  }

  ghost predicate FlawlessRun(w: World, win: Window, events: seq<Event>) {
    if |events| == 0 then true
    else
      var e := events[|events| - 1];
      FlawlessRun(w, win, events[..|events| - 1]) &&
          FlawlessTick(Run(w, win, events[..|events| - 1]), e.latest, win, e.ahead, e.back)
  }

  /** In a failure-free run on time the checkpoint is the head after every tick, nothing is ever re-anchored,
      and the backfill cursor has gone down by a full window per tick until its walk was over. */
  lemma {:induction false} OnTimeRun(w: World, win: Window, events: seq<Event>)
    requires WindowOk(win) && win.keepsUp && NoGapBehind(w)
    requires OnTime(w.cursors.forward.value, win, events) && FlawlessRun(w, win, events)
    ensures var w' := Run(w, win, events);
            && NoGapBehind(w') && w'.cursors.forward == Some(LastHead(w.cursors.forward.value, events))
            && w'.anchor == w.anchor && w'.cursors.target == w.cursors.target
            && (Backfills(w'.cursors) ==>
                w'.cursors.backfill.value + |events| * win.maxBlocks == w.cursors.backfill.value)
  {
    hide Tick, FlawlessTick, WindowOk, Stale, NoGapBehind;
    NoGapMeansCursors(w);
    if |events| > 0 {
      var n := |events| - 1;
      var e, before := events[n], Run(w, win, events[..n]);
      OnTimeRun(w, win, events[..n]);
      OnTimeTick(before, e.latest, win, e.ahead, e.back);
      NoGapMeansCursors(before);
      NoGapMeansCursors(Run(w, win, events));
      assert n * win.maxBlocks + win.maxBlocks == |events| * win.maxBlocks;
    }
  }

  lemma NoGapMeansCursors(w: World)
    requires NoGapBehind(w)
    ensures w.cursors.forward.Some? && w.cursors.backfill.Some? && w.cursors.target.Some?
  {
  }

  /** After enough such ticks every block above the backfill target, up to the head, was handed over. */
  lemma BackfillCompletes(w: World, win: Window, events: seq<Event>)
    requires WindowOk(win) && win.keepsUp && NoGapBehind(w)
    requires OnTime(w.cursors.forward.value, win, events) && FlawlessRun(w, win, events)
    requires w.cursors.backfill.value - w.cursors.target.value <= |events| * win.maxBlocks
    ensures var w' := Run(w, win, events);
            forall b :: w.cursors.target.value < b <= LastHead(w.cursors.forward.value, events) ==> b in w'.seen
  {
    hide Run, FlawlessRun, OnTime;
    OnTimeRun(w, win, events);
  }

  /** The first tick of a new wallet, when nothing fails, is one from which such a run can start. */
  lemma FirstTick(latest: int, win: Window, ahead: Scan, back: Scan, target: int)
    requires WindowOk(win) && latest >= 0
    requires var w := World(Cursors(None, None, None), 0, {}); FlawlessTick(w, latest, win, ahead, back)
    ensures var w := Tick(World(Cursors(None, None, None), 0, {}), latest, win, ahead, back);
            NoGapBehind(w) && w.cursors.forward == Some(latest) &&
                w.cursors.target == Some(Max(0, latest - win.lookback))
  {
  }

  // ---------------------------------------------------------------- when a fetch fails while filling back

  /** A backfill tick leaves no hole above the new cursor exactly when it was throttled, and so did not move,
      or the whole slice was handed over. Otherwise the cursor goes down past the missing block. */
  lemma BackfillLeavesNoHoleWhen(c: Cursors, win: Window, s: Scan)
    requires Backfills(c) && ScanOk(s, BackfillStart(c, win), c.backfill.value) && Maximal(s, c.backfill.value)
    ensures (forall b :: NextBackfill(c, win, s) < b <= c.backfill.value ==> b in s.fetched)
            <==> s.throttled || s.highest == c.backfill.value
  {
    if !s.throttled && s.highest < c.backfill.value {
      assert NextBackfill(c, win, s) < s.highest + 1 <= c.backfill.value;
    }
  }

  /** One block of a slice that is not handed over, and the cursor goes below it. */
  lemma HoleIsPassedOver(win: Window)
    requires WindowOk(win)
    ensures var c := Cursors(Some(20), Some(10), Some(0));
            var s := Scan({0, 1, 2, 3, 4, 6, 7, 8, 9, 10}, 4, false);
            && ScanOk(s, BackfillStart(c, win), c.backfill.value) && Maximal(s, c.backfill.value)
            && NextBackfill(c, win, s) == 4 && 5 !in s.fetched
  {
  }

  /** The blocks a tick asks the node for. */
  predicate Requests(c: Cursors, latest: int, win: Window, ahead: Scan, b: int)
    requires c.forward.Some?
  {
    || (c.forward.value < b <= ForwardStop(c, latest, win) && c.forward.value < latest)
    || (Fills(c, latest, ahead) && BackfillStart(c, win) <= b <= c.backfill.value)
  }

  /** The block lies between the backfill cursor and the checkpoint, where neither scan looks. */
  predicate PassedOver(w: World, b: int) {
    && w.cursors.forward.Some? && w.cursors.backfill.Some? && w.cursors.target.Some?
    && w.cursors.backfill.value < b <= w.cursors.forward.value
  }

  predicate NeverStale(w: World, win: Window, events: seq<Event>) {
    if |events| == 0 then true
    else
      var before := events[..|events| - 1];
      NeverStale(w, win, before) && !Stale(Run(w, win, before).cursors, events[|events| - 1].latest, win)
  }

  lemma TickPassesOver(w: World, latest: int, win: Window, ahead: Scan, back: Scan, b: int)
    requires WindowOk(win) && PassedOver(w, b) && !Stale(w.cursors, latest, win) && ScansOk(w, latest, win, ahead, back)
    ensures !Requests(Anchored(w.cursors, latest, win), latest, win, ahead, b)
    ensures PassedOver(Tick(w, latest, win, ahead, back), b)
  {
  }

  /** A block that was passed over is not asked for again by any later tick until a re-anchor, whatever is
      handed over meanwhile. */
  lemma {:induction false} PassedOverStaysOut(w: World, win: Window, events: seq<Event>, latest: int, ahead: Scan,
      back: Scan, b: int)
    requires WindowOk(win) && PassedOver(w, b) && IsRun(w, win, events) && NeverStale(w, win, events)
    requires !Stale(Run(w, win, events).cursors, latest, win) && ScansOk(Run(w, win, events), latest, win, ahead, back)
    ensures var w' := Run(w, win, events);
            PassedOver(w', b) && !Requests(Anchored(w'.cursors, latest, win), latest, win, ahead, b)
  {
    hide Tick, ScansOk, Stale, Anchored, Requests, PassedOver, WindowOk;
    if |events| > 0 {
      var e, before := events[|events| - 1], events[..|events| - 1];
      PassedOverStaysOut(w, win, before, e.latest, e.ahead, e.back, b);
      TickPassesOver(Run(w, win, before), e.latest, win, e.ahead, e.back, b);
    }
    TickPassesOver(Run(w, win, events), latest, win, ahead, back, b);
  }

  // ---------------------------------------------------------------- falling behind

  /** A tick that finds its checkpoint more than two lookbacks behind the head starts over near the head, as a new
      wallet does, and any other keeps its checkpoint: it is the only way in which the anchor moves. */
  lemma StartsOverExactlyWhen(c: Cursors, latest: int, win: Window)
    requires WindowOk(win) && c.forward.Some? && c.backfill.Some? && c.target.Some?
    ensures var a := Anchored(c, latest, win);
            if c.forward.value < latest - 2 * win.lookback then a == Anchored(Cursors(None, None, None), latest, win)
            else a == c
    ensures var anew := Anchored(Cursors(None, None, None), latest, win);
            && anew.forward == anew.backfill && anew.forward.value >= 0 && anew.target.value >= 0
            && (latest >= win.maxBlocks ==> latest - anew.forward.value == win.maxBlocks)
            && (latest >= win.lookback ==> latest - anew.target.value == win.lookback)
  {
  }
}
