/** The active paint scheduler: the boosted invalidate loop behind a resize, and the paints dropped at one. */
module PaintScheduler {
  const BOOST_MULTIPLIER: int := 2
  const INVALIDATE_TICK_LIMIT: int := 1000
  const SKIP_PAINTS_AFTER_RESIZE: int := 1

  /** The scheduler's atomics, and of its browser: whether it is alive, the configured frame rate and the
      rate last applied. */
  datatype Paint = Paint(
    savedFrameRate: int,
    resizeGen: nat,
    running: bool,
    stop: bool,
    tickCount: int,
    lastPaintGen: nat,
    paintsSinceResize: int,
    pumpPaintCount: int,
    lastSkipReset: int,
    alive: bool,
    frameRate: int,
    applied: int)

  // ---- What each task does ----

  function RateSet(s: Paint, hz: int): Paint {
    if hz <= 0 || !s.alive then s else s.(applied := hz)
  }

  function RefreshSet(s: Paint, target: int): Paint {
    var t := s.(frameRate := target);
    if t.savedFrameRate == 0 then RateSet(t, target) else t.(savedFrameRate := target)
  }

  function Resized(s: Paint): Paint {
    var t := s.(resizeGen := s.resizeGen + 1, stop := false);
    if s.running then t else t.(running := true, tickCount := 0)
  }

  /** Whether a resize posts a kick. */
  predicate ResizeKicks(s: Paint) { !s.running }

  /** A browser arrives, at the rate its creation asked for; unless the process shuts down, that is a resize. */
  function Arrived(s: Paint, rate: int, shuttingDown: bool): Paint {
    var t := s.(alive := true, applied := rate);
    if shuttingDown then t else Resized(t)
  }

  function Ticked(s: Paint): Paint {
    var t := s.(tickCount := s.tickCount + 1, stop := s.stop || s.tickCount + 1 > INVALIDATE_TICK_LIMIT);
    if t.stop then
      var u := t.(savedFrameRate := 0);
      (if u.alive && t.savedFrameRate > 0 then RateSet(u, t.savedFrameRate) else u).(running := false)
    else if t.frameRate <= 0 then t.(running := false)
    else t
  }

  function Boosted(s: Paint): Paint {
    if s.alive && s.frameRate > 0 && s.savedFrameRate == 0
    then RateSet(s.(savedFrameRate := s.frameRate), s.frameRate * BOOST_MULTIPLIER)
    else s
  }

  function Kicked(s: Paint): Paint { Ticked(Boosted(s)) }

  /** A tick goes on, and posts the next one, exactly when it does not end the loop. */
  predicate TickPosts(s: Paint) {
    !(s.stop || s.tickCount + 1 > INVALIDATE_TICK_LIMIT) && s.frameRate > 0
  }

  predicate Resets(s: Paint, now: int, period: int) {
    s.resizeGen != s.lastPaintGen && now - s.lastSkipReset >= period
  }

  /** The counters as the paint finds them, before it is counted. */
  function Noticed(s: Paint, now: int, period: int): Paint {
    var t := s.(lastPaintGen := s.resizeGen);
    if Resets(s, now, period)
    then t.(lastSkipReset := now, pumpPaintCount := if s.frameRate > 0 then 1 + s.frameRate else 0, paintsSinceResize := 0)
    else t
  }

  /** The paint that the stop signal waits for. */
  predicate PumpsOut(s: Paint, now: int, period: int) {
    var t := Noticed(s, now, period);
    t.pumpPaintCount > 0 && t.paintsSinceResize + 1 == t.pumpPaintCount
  }

  function Painted(s: Paint, now: int, period: int): Paint {
    var t := Noticed(s, now, period);
    t.(paintsSinceResize := t.paintsSinceResize + 1, stop := t.stop || PumpsOut(s, now, period))
  }

  predicate Presents(s: Paint, now: int, period: int) {
    Noticed(s, now, period).paintsSinceResize + 1 > SKIP_PAINTS_AFTER_RESIZE
  }

  class ActivePaintScheduler {
    var savedFrameRate: int
    var resizeGen: nat
    var running: bool
    var stop: bool
    var tickCount: int
    var lastPaintGen: nat
    var paintsSinceResize: int
    var pumpPaintCount: int
    var lastSkipReset: int
    var alive: bool
    var frameRate: int
    var applied: int

    function State(): Paint
      reads this
    {
      Paint(savedFrameRate, resizeGen, running, stop, tickCount, lastPaintGen, paintsSinceResize, pumpPaintCount,
            lastSkipReset, alive, frameRate, applied)
    }

    constructor ()
      ensures State() == Initial()
    {
      savedFrameRate, resizeGen, running, stop, tickCount := 0, 0, false, false, 0;
      lastPaintGen, paintsSinceResize, pumpPaintCount, lastSkipReset := 0, SKIP_PAINTS_AFTER_RESIZE, 0, 0;
      alive, frameRate, applied := false, 0, 0;
    }

    method SetFrameRate(hz: int)
      modifies this`applied
      ensures State() == RateSet(old(State()), hz)
    {
      if hz <= 0 || !alive {
        return;
      }
      applied := hz;
    }

    method ApplySetRefresh(target: int)
      modifies this
      ensures State() == RefreshSet(old(State()), target)
    {
      frameRate := target;
      if savedFrameRate == 0 {
        SetFrameRate(target);
      } else {
        savedFrameRate := target;
      }
    }

    /** Tells whether a kick was posted. */
    method DuringResize() returns (posted: bool)
      modifies this
      ensures State() == Resized(old(State())) && posted == ResizeKicks(old(State()))
    {
      resizeGen := resizeGen + 1;
      stop := false;
      if running {
        return false;
      }
      running := true;
      tickCount := 0;
      posted := true;
    }

    /** Tells whether a kick was posted. */
    method AfterCreated(rate: int, shuttingDown: bool) returns (posted: bool)
      modifies this
      ensures State() == Arrived(old(State()), rate, shuttingDown)
      ensures posted == (!shuttingDown && ResizeKicks(old(State())))
    {
      alive := true;
      applied := rate;
      if shuttingDown {
        return false;
      }
      posted := DuringResize();
    }

    method BeforeClose()
      modifies this
      ensures State() == old(State()).(alive := false, stop := true)
    {
      alive := false;
      stop := true;
    }

    method KickTask() returns (posted: bool)
      modifies this
      ensures State() == Kicked(old(State())) && posted == TickPosts(Boosted(old(State())))
    {
      var fps := frameRate;
      if alive && fps > 0 && savedFrameRate == 0 {
        savedFrameRate := fps;
        SetFrameRate(fps * BOOST_MULTIPLIER);
      }
      posted := TickTask();
    }

    /** Tells whether the next tick was posted. */
    method TickTask() returns (posted: bool)
      modifies this
      ensures State() == Ticked(old(State())) && posted == TickPosts(old(State()))
    {
      tickCount := tickCount + 1;
      if tickCount > INVALIDATE_TICK_LIMIT {
        stop := true;
      }
      if stop {
        var saved := savedFrameRate;
        savedFrameRate := 0;
        if alive && saved > 0 {
          SetFrameRate(saved);
        }
        running := false;
        return false;
      }
      if frameRate <= 0 {
        running := false;
        return false;
      }
      posted := true;
    }

    method ShouldPresentPaint(now: int, period: int) returns (present: bool, signal: bool)
      modifies this
      ensures State() == Painted(old(State()), now, period)
      ensures present == Presents(old(State()), now, period)
      ensures signal == PumpsOut(old(State()), now, period)
    {
      if resizeGen != lastPaintGen {
        lastPaintGen := resizeGen;
        if now - lastSkipReset >= period {
          lastSkipReset := now;
          pumpPaintCount := if frameRate > 0 then 1 + frameRate else 0;
          paintsSinceResize := 0;
        }
      }
      paintsSinceResize := paintsSinceResize + 1;
      var count := paintsSinceResize;
      present := count > SKIP_PAINTS_AFTER_RESIZE;
      signal := pumpPaintCount > 0 && count == pumpPaintCount;
      if signal {
        stop := true;
      }
    }
  }

  function Initial(): Paint {
    Paint(0, 0, false, false, 0, 0, SKIP_PAINTS_AFTER_RESIZE, 0, 0, false, 0, 0)
  }

  // ---- Runs ----

  datatype Drop = Drop(at: int, period: int)

  /** The scheduler, the tasks it has outstanding, the paints it dropped and the stop signals it sent; whether
      the process shuts down, and whether it did when the browser arrived. */
  datatype World = World(
    paint: Paint,
    kicks: nat,
    ticks: nat,
    drops: seq<Drop>,
    signals: nat,
    shuttingDown: bool,
    lateBrowser: bool)

  datatype Event =
    | Create(rate: int)
    | Refresh(target: int)
    | Resize
    | Close
    | ShutDown
    | Kick
    | Tick
    | PaintArrives(now: int, period: int)

  function Start(): World { World(Initial(), 0, 0, [], 0, false, false) }

  /** Rates asked for are positive, a live browser is resized, tasks run only when posted. The rate a browser
      was asked for need not be the configured one: that may have changed before it arrives. */
  predicate Enabled(w: World, e: Event) {
    match e
    case Create(rate) => !w.paint.alive && rate > 0
    case Refresh(target) => target > 0
    case Resize => w.paint.alive
    case Kick => w.kicks > 0
    case Tick => w.ticks > 0
    case _ => true
  }

  function Next(w: World, e: Event): World
    requires Enabled(w, e)
  {
    var s := w.paint;
    match e
    case Create(rate) =>
      w.(paint := Arrived(s, rate, w.shuttingDown),
         kicks := w.kicks + if !w.shuttingDown && ResizeKicks(s) then 1 else 0,
         lateBrowser := w.shuttingDown)
    case Refresh(target) => w.(paint := RefreshSet(s, target))
    case Resize => w.(paint := Resized(s), kicks := w.kicks + if ResizeKicks(s) then 1 else 0)
    case Close => w.(paint := s.(alive := false, stop := true))
    case ShutDown => w.(shuttingDown := true)
    case Kick => w.(paint := Kicked(s), kicks := w.kicks - 1, ticks := w.ticks + if TickPosts(Boosted(s)) then 1 else 0)
    case Tick => w.(paint := Ticked(s), ticks := w.ticks - 1 + if TickPosts(s) then 1 else 0)
    case PaintArrives(now, period) =>
      w.(paint := Painted(s, now, period),
         drops := if Presents(s, now, period) then w.drops else w.drops + [Drop(now, period)],
         signals := w.signals + if PumpsOut(s, now, period) then 1 else 0)
  }

  ghost predicate StepAt(worlds: seq<World>, events: seq<Event>, i: int)
    requires 0 <= i < |events| && |worlds| == |events| + 1
  {
    Enabled(worlds[i], events[i]) && worlds[i + 1] == Next(worlds[i], events[i])
  }

  ghost predicate IsRun(worlds: seq<World>, events: seq<Event>) {
    && |worlds| == |events| + 1 && worlds[0] == Start()
    && forall i :: 0 <= i < |events| ==> StepAt(worlds, events, i)
  }

  // ---- The invalidate loop ----

  ghost predicate LoopInv(w: World) {
    var s := w.paint;
    && w.kicks + w.ticks == (if s.running then 1 else 0)
    && (s.running ==> 0 <= s.tickCount <= INVALIDATE_TICK_LIMIT)
    && (w.ticks == 1 <==> s.savedFrameRate != 0)
    && (s.savedFrameRate != 0 ==> s.savedFrameRate == s.frameRate)
    && (s.running && !s.alive ==> s.stop)
    && s.frameRate >= 0
    && (s.alive && !s.running && !w.lateBrowser && s.frameRate > 0 ==> s.applied == s.frameRate)
  }

  ghost predicate PaintInv(w: World) {
    var s := w.paint;
    && s.paintsSinceResize >= SKIP_PAINTS_AFTER_RESIZE
    && |w.drops| <= s.lastPaintGen <= s.resizeGen
    && (w.drops != [] ==> s.lastSkipReset == w.drops[|w.drops| - 1].at)
    && (forall i :: 0 < i < |w.drops| ==> w.drops[i].at - w.drops[i - 1].at >= w.drops[i].period)
    && w.signals + (if s.pumpPaintCount > 0 && s.paintsSinceResize < s.pumpPaintCount then 1 else 0) <= |w.drops|
  }

  lemma NextKeepsLoopInv(w: World, e: Event)
    requires LoopInv(w) && Enabled(w, e)
    ensures LoopInv(Next(w, e))
  {
  }

  lemma NextKeepsPaintInv(w: World, e: Event)
    requires PaintInv(w) && Enabled(w, e)
    ensures PaintInv(Next(w, e))
  {
  }

  lemma {:induction false} RunKeepsInv(worlds: seq<World>, events: seq<Event>, i: nat)
    requires IsRun(worlds, events) && i < |worlds|
    ensures LoopInv(worlds[i]) && PaintInv(worlds[i])
  {
    if i > 0 {
      RunKeepsInv(worlds, events, i - 1);
      assert StepAt(worlds, events, i - 1);
      NextKeepsLoopInv(worlds[i - 1], events[i - 1]);
      NextKeepsPaintInv(worlds[i - 1], events[i - 1]);
    }
  }

  /** In every run, the loop is marked running exactly while one of its tasks is outstanding; when it is not,
      no rate is saved, and a live browser has the rate configured last, whatever rate it was created with,
      unless it arrived when the process was already shutting down. */
  lemma LoopLeavesNothingBehind(worlds: seq<World>, events: seq<Event>, i: nat)
    requires IsRun(worlds, events) && i < |worlds|
    ensures var w := worlds[i];
      && (w.paint.running <==> w.kicks + w.ticks == 1)
      && (!w.paint.running ==> w.kicks + w.ticks == 0 && w.paint.savedFrameRate == 0)
      && (!w.paint.running && w.paint.alive && !w.lateBrowser && w.paint.frameRate > 0 ==>
            w.paint.applied == w.paint.frameRate)
  {
    RunKeepsInv(worlds, events, i);
  }

  // ---- Browsers that arrive while the process shuts down ----

  /** No other browser comes and this one does not go, from event `c` on, with which it arrived. */
  ghost predicate SameBrowser(events: seq<Event>, c: nat, i: nat)
    requires c < i <= |events|
  {
    events[c].Create? && forall k :: c < k < i ==> !events[k].Create? && !events[k].Close?
  }

  /** A boost was on when the browser arrived, or a rate was configured or a loop started since. */
  ghost predicate RateTouched(worlds: seq<World>, events: seq<Event>, c: nat, i: nat)
    requires c < i <= |events| && |worlds| == |events| + 1
  {
    worlds[c].paint.savedFrameRate != 0 || exists k :: c < k < i && (events[k].Refresh? || events[k].Kick?)
  }

  /** The browser has the configured rate, or is to get it at the end of the loop. */
  predicate InLine(s: Paint) {
    s.alive && (s.frameRate > 0 ==> s.savedFrameRate != 0 || s.applied == s.frameRate)
  }

  lemma StepKeepsInLine(w: World, e: Event)
    requires LoopInv(w) && Enabled(w, e) && w.paint.alive && !e.Create? && !e.Close?
    ensures Next(w, e).paint.alive
    ensures InLine(w.paint) || e.Refresh? || (e.Kick? && w.paint.frameRate > 0) ==> InLine(Next(w, e).paint)
    ensures !e.Refresh? && !e.Kick? && w.ticks == 0 ==>
      && Next(w, e).paint.savedFrameRate == w.paint.savedFrameRate
      && Next(w, e).paint.applied == w.paint.applied && Next(w, e).paint.frameRate == w.paint.frameRate
  {
  }

  lemma {:induction false} RateSinceArrival(worlds: seq<World>, events: seq<Event>, c: nat, i: nat)
    requires IsRun(worlds, events) && c < i <= |events| && SameBrowser(events, c, i)
    ensures var s, at := worlds[i].paint, worlds[c].paint;
      && s.alive
      && (RateTouched(worlds, events, c, i) ==> InLine(s))
      && (!RateTouched(worlds, events, c, i) ==>
            s.savedFrameRate == 0 && s.applied == events[c].rate && s.frameRate == at.frameRate)
  {
    RunKeepsInv(worlds, events, i - 1);
    assert StepAt(worlds, events, i - 1);
    if c < i - 1 {
      RateSinceArrival(worlds, events, c, i - 1);
      StepKeepsInLine(worlds[i - 1], events[i - 1]);
    }
  }

  /** With no loop running, a live browser has the configured rate exactly if it was created with it, or a
      boost was on when it arrived, or a rate was configured or a loop started since. */
  lemma RateIsConfiguredIff(worlds: seq<World>, events: seq<Event>, c: nat, i: nat)
    requires IsRun(worlds, events) && c < i <= |events| && SameBrowser(events, c, i)
    requires !worlds[i].paint.running && worlds[i].paint.frameRate > 0
    ensures worlds[i].paint.applied == worlds[i].paint.frameRate <==>
            RateTouched(worlds, events, c, i) || events[c].rate == worlds[c].paint.frameRate
  {
    RunKeepsInv(worlds, events, i);
    RateSinceArrival(worlds, events, c, i);
  }

  /** A browser that arrives during the shutdown keeps the rate it was asked for. */
  lemma LateBrowserKeepsItsRate()
    ensures var w0 := Start();
      var w1 := Next(w0, Refresh(60));
      var w2 := Next(w1, ShutDown);
      var w3 := Next(w2, Create(30));
      w3.paint.alive && !w3.paint.running && w3.paint.applied == 30 && w3.paint.frameRate == 60
  {
  }

  // ---- Loops end ----

  predicate IsLoopTask(e: Event) { e.Kick? || e.Tick? }

  function LoopTasks(events: seq<Event>): nat {
    if events == [] then 0 else LoopTasks(events[..|events| - 1]) + if IsLoopTask(events[|events| - 1]) then 1 else 0
  }

  lemma TaskCounts(w: World, e: Event)
    requires LoopInv(w) && Enabled(w, e) && w.paint.running && Next(w, e).paint.running
    ensures Next(w, e).paint.tickCount == w.paint.tickCount + if IsLoopTask(e) then 1 else 0
  {
  }

  lemma RunTaskCounts(worlds: seq<World>, events: seq<Event>, i: nat)
    requires IsRun(worlds, events) && i < |events| && worlds[i].paint.running && worlds[i + 1].paint.running
    ensures worlds[i + 1].paint.tickCount == worlds[i].paint.tickCount + if IsLoopTask(events[i]) then 1 else 0
  {
    RunKeepsInv(worlds, events, i);
    assert StepAt(worlds, events, i);
    TaskCounts(worlds[i], events[i]);
  }

  lemma LoopTasksNext(events: seq<Event>, from: nat, to: nat)
    requires from < to <= |events|
    ensures LoopTasks(events[from..to]) == LoopTasks(events[from..to - 1]) + if IsLoopTask(events[to - 1]) then 1 else 0
  {
    assert events[from..to][..to - 1 - from] == events[from..to - 1];
  }

  /** While a loop goes on, every task of it is counted, whatever resizes come between. */
  lemma {:induction false} LoopTasksAreCounted(worlds: seq<World>, events: seq<Event>, from: nat, to: nat)
    requires IsRun(worlds, events) && from <= to < |worlds|
    requires forall i :: from <= i <= to ==> worlds[i].paint.running
    ensures worlds[to].paint.tickCount == worlds[from].paint.tickCount + LoopTasks(events[from..to])
  {
    if from < to {
      LoopTasksAreCounted(worlds, events, from, to - 1);
      RunTaskCounts(worlds, events, to - 1);
      LoopTasksNext(events, from, to);
    }
  }

  /** A loop ends: no run holds more than a thousand tasks of a loop that still goes on. */
  lemma LoopEnds(worlds: seq<World>, events: seq<Event>, from: nat, to: nat)
    requires IsRun(worlds, events) && from <= to < |worlds|
    requires LoopTasks(events[from..to]) > INVALIDATE_TICK_LIMIT
    ensures exists i :: from <= i <= to && !worlds[i].paint.running
  {
    RunKeepsInv(worlds, events, from);
    RunKeepsInv(worlds, events, to);
    if forall i :: from <= i <= to ==> worlds[i].paint.running {
      LoopTasksAreCounted(worlds, events, from, to);
    }
  }

  // ---- Dropped paints ----

  /** A paint is dropped exactly when it resets the counter. */
  lemma DropIffReset(worlds: seq<World>, events: seq<Event>, i: nat, now: int, period: int)
    requires IsRun(worlds, events) && i < |worlds|
    ensures Presents(worlds[i].paint, now, period) <==> !Resets(worlds[i].paint, now, period)
  {
    RunKeepsInv(worlds, events, i);
  }

  lemma {:induction false} DropsApart(drops: seq<Drop>, period: nat, i: nat, j: nat)
    requires i <= j < |drops|
    requires forall k :: 0 < k < |drops| ==> drops[k].at - drops[k - 1].at >= drops[k].period
    requires forall k :: i < k <= j ==> drops[k].period >= period
    ensures drops[j].at - drops[i].at >= (j - i) * period
  {
    if i < j {
      DropsApart(drops, period, i, j - 1);
      assert (j - i) * period == (j - 1 - i) * period + period;
    }
  }

  /** Drops are at least a period apart, so a window whose drops but the first saw a period of at least
      `period` holds at most as many as those fit in it, and one more; and there are never more drops than
      resizes. */
  lemma DropRate(worlds: seq<World>, events: seq<Event>, n: nat, period: nat, i: nat, j: nat, window: nat)
    requires IsRun(worlds, events) && n < |worlds| && period > 0
    requires i <= j < |worlds[n].drops|
    requires forall k :: i < k <= j ==> worlds[n].drops[k].period >= period
    requires worlds[n].drops[j].at - worlds[n].drops[i].at <= window
    ensures j - i + 1 <= window / period + 1
    ensures |worlds[n].drops| <= worlds[n].paint.resizeGen
  {
    RunKeepsInv(worlds, events, n);
    DropsApart(worlds[n].drops, period, i, j);
    QuotientAtLeast(window, period, j - i);
  }

  lemma QuotientAtLeast(a: nat, b: nat, k: nat)
    requires b > 0 && k * b <= a
    ensures k <= a / b
  {
    AtLeastTimes(k, a / b, b);
  }

  lemma {:induction false} AtLeastTimes(k: nat, q: nat, b: nat)
    ensures k > q ==> k * b >= q * b + b
  {
    if k > q {
      AtLeastTimes(k - 1, q, b);
      assert k * b == (k - 1) * b + b;
    }
  }

  // ---- The stop signal ----

  /** The stop signal is sent at most once for each reset. */
  lemma SignalsPerReset(worlds: seq<World>, events: seq<Event>, n: nat)
    requires IsRun(worlds, events) && n < |worlds|
    ensures worlds[n].signals <= |worlds[n].drops|
  {
    RunKeepsInv(worlds, events, n);
  }

  // ---- What the events alone say ----

  ghost predicate ShutDownBefore(events: seq<Event>, n: nat)
    requires n <= |events|
  {
    exists k :: 0 <= k < n && events[k].ShutDown?
  }

  /** The window is resized, or a browser arrives outside the shutdown, which counts as a resize. */
  ghost predicate ResizeAt(events: seq<Event>, k: nat)
    requires k < |events|
  {
    events[k].Resize? || (events[k].Create? && !ShutDownBefore(events, k))
  }

  ghost predicate ResizedSincePaint(events: seq<Event>, n: nat)
    requires n <= |events|
  {
    exists r :: 0 <= r < n && ResizeAt(events, r) && forall k :: r < k < n ==> !events[k].PaintArrives?
  }

  /** The paint is the first behind a resize and comes at least its period after the paint dropped last. */
  ghost predicate DropAt(events: seq<Event>, n: nat)
    requires n < |events|
    decreases n, 1
  {
    events[n].PaintArrives? && ResizedSincePaint(events, n) && events[n].now - LastDrop(events, n) >= events[n].period
  }

  /** When the last paint was dropped, 0 if none was. */
  ghost function LastDrop(events: seq<Event>, n: nat): int
    requires n <= |events|
    decreases n, 0
  {
    if n == 0 then 0 else if DropAt(events, n - 1) then events[n - 1].now else LastDrop(events, n - 1)
  }

  ghost function Drops(events: seq<Event>, n: nat): seq<Drop>
    requires n <= |events|
  {
    if n == 0 then []
    else Drops(events, n - 1) + if DropAt(events, n - 1) then [Drop(events[n - 1].now, events[n - 1].period)] else []
  }

  lemma ResizedNext(events: seq<Event>, n: nat)
    requires n < |events|
    ensures ResizedSincePaint(events, n + 1) <==>
      ResizeAt(events, n) || (ResizedSincePaint(events, n) && !events[n].PaintArrives?)
  {
    if ResizedSincePaint(events, n + 1) {
      var r :| 0 <= r < n + 1 && ResizeAt(events, r) && forall k :: r < k < n + 1 ==> !events[k].PaintArrives?;
    }
  }

  /** The scheduler's generations and times are what the events say. */
  ghost predicate PaintsAgree(w: World, events: seq<Event>, n: nat)
    requires n <= |events|
  {
    && (w.shuttingDown <==> ShutDownBefore(events, n))
    && (w.paint.resizeGen != w.paint.lastPaintGen <==> ResizedSincePaint(events, n))
    && w.paint.lastSkipReset == LastDrop(events, n)
    && w.drops == Drops(events, n)
  }

  lemma PaintAgrees(w: World, events: seq<Event>, n: nat)
    requires n < |events| && PaintInv(w) && PaintsAgree(w, events, n) && events[n].PaintArrives?
    ensures PaintsAgree(Next(w, events[n]), events, n + 1)
  {
    var now, period := events[n].now, events[n].period;
    assert Resets(w.paint, now, period) <==> DropAt(events, n);
    assert Presents(w.paint, now, period) <==> !DropAt(events, n);
    ResizedNext(events, n);
  }

  predicate SamePaints(s: Paint, r: Paint) {
    r.resizeGen == s.resizeGen && r.lastPaintGen == s.lastPaintGen && r.lastSkipReset == s.lastSkipReset
  }

  lemma TasksKeepPaints(s: Paint)
    ensures SamePaints(s, Ticked(s)) && SamePaints(s, Kicked(s))
  {
    assert SamePaints(s, Boosted(s));
  }

  /** What events other than paints do to what paints look at. */
  lemma OtherStep(w: World, e: Event)
    requires Enabled(w, e) && !e.PaintArrives?
    ensures var r := Next(w, e);
      && r.drops == w.drops && r.shuttingDown == (w.shuttingDown || e.ShutDown?)
      && (if e.Resize? || (e.Create? && !w.shuttingDown)
          then SamePaints(w.paint.(resizeGen := w.paint.resizeGen + 1), r.paint)
          else SamePaints(w.paint, r.paint))
  {
    if IsLoopTask(e) {
      TasksKeepPaints(w.paint);
    }
  }

  lemma OtherAgrees(w: World, events: seq<Event>, n: nat)
    requires n < |events| && PaintInv(w) && PaintsAgree(w, events, n) && !events[n].PaintArrives? && Enabled(w, events[n])
    ensures PaintsAgree(Next(w, events[n]), events, n + 1)
  {
    OtherStep(w, events[n]);
    ResizedNext(events, n);
    assert !DropAt(events, n);
    assert ShutDownBefore(events, n + 1) <==> ShutDownBefore(events, n) || events[n].ShutDown?;
  }

  lemma {:induction false} RunPaintsAgree(worlds: seq<World>, events: seq<Event>, n: nat)
    requires IsRun(worlds, events) && n < |worlds|
    ensures PaintsAgree(worlds[n], events, n)
  {
    if n > 0 {
      RunPaintsAgree(worlds, events, n - 1);
      RunKeepsInv(worlds, events, n - 1);
      assert StepAt(worlds, events, n - 1);
      if events[n - 1].PaintArrives? {
        PaintAgrees(worlds[n - 1], events, n - 1);
      } else {
        OtherAgrees(worlds[n - 1], events, n - 1);
      }
    }
  }

  /** In every run a paint is dropped exactly if a resize came since the paint before and the paint comes at least
      its period after the last one dropped; so were all paints dropped, in order. */
  lemma DroppedIff(worlds: seq<World>, events: seq<Event>, n: nat)
    requires IsRun(worlds, events) && n < |events| && events[n].PaintArrives?
    ensures Presents(worlds[n].paint, events[n].now, events[n].period) <==> !DropAt(events, n)
    ensures worlds[n].drops == Drops(events, n)
  {
    RunPaintsAgree(worlds, events, n);
    DropIffReset(worlds, events, n, events[n].now, events[n].period);
  }

  /** The rate configured last, 0 if none was. */
  function RateAt(events: seq<Event>, n: nat): int
    requires n <= |events|
  {
    if n == 0 then 0 else if events[n - 1].Refresh? then events[n - 1].target else RateAt(events, n - 1)
  }

  /** Paints since the last drop, that one included. */
  ghost function PaintsSinceDrop(events: seq<Event>, n: nat): nat
    requires n <= |events|
  {
    if n == 0 then 0
    else if DropAt(events, n - 1) then 1
    else PaintsSinceDrop(events, n - 1) + if events[n - 1].PaintArrives? then 1 else 0
  }

  /** The rate configured at the last drop, 0 if there was none. */
  ghost function RateAtDrop(events: seq<Event>, n: nat): int
    requires n <= |events|
  {
    if n == 0 then 0 else if DropAt(events, n - 1) then RateAt(events, n - 1) else RateAtDrop(events, n - 1)
  }

  /** The paint that sends the stop signal: as many paints came since the drop as the rate was then. */
  ghost predicate SignalAt(events: seq<Event>, n: nat)
    requires n < |events|
  {
    && events[n].PaintArrives? && !DropAt(events, n)
    && RateAtDrop(events, n) > 0 && PaintsSinceDrop(events, n) == RateAtDrop(events, n)
  }

  /** The browser closed or the signal was sent, and no resize came since. */
  ghost predicate Stopped(events: seq<Event>, n: nat)
    requires n <= |events|
  {
    exists k :: 0 <= k < n && (events[k].Close? || SignalAt(events, k)) && forall r :: k < r < n ==> !ResizeAt(events, r)
  }

  lemma StoppedNext(events: seq<Event>, n: nat)
    requires n < |events|
    ensures Stopped(events, n + 1) <==>
      events[n].Close? || SignalAt(events, n) || (Stopped(events, n) && !ResizeAt(events, n))
  {
    if Stopped(events, n + 1) {
      var k :| 0 <= k < n + 1 && (events[k].Close? || SignalAt(events, k)) && forall r :: k < r < n + 1 ==> !ResizeAt(events, r);
    }
  }

  /** A task of the loop that runs at `n` goes on: no stop since the last resize, a rate is configured, and the
      loop has not had all its tasks. */
  ghost predicate GoesOn(events: seq<Event>, n: nat)
    requires n <= |events|
    decreases n, 1
  {
    !Stopped(events, n) && RateAt(events, n) > 0 && TasksOfLoop(events, n) < INVALIDATE_TICK_LIMIT
  }

  /** A resize starts a loop, and a task that does not go on ends it. */
  ghost predicate Looping(events: seq<Event>, n: nat)
    requires n <= |events|
    decreases n, 0
  {
    n > 0 && (ResizeAt(events, n - 1) || (Looping(events, n - 1) && (IsLoopTask(events[n - 1]) ==> GoesOn(events, n - 1))))
  }

  /** The tasks that the loop running at `n` has had. */
  ghost function TasksOfLoop(events: seq<Event>, n: nat): nat
    requires n <= |events|
    decreases n, 0
  {
    if n == 0 || !Looping(events, n - 1) then 0
    else TasksOfLoop(events, n - 1) + if IsLoopTask(events[n - 1]) then 1 else 0
  }

  ghost predicate CountsAgree(w: World, events: seq<Event>, n: nat)
    requires n <= |events|
  {
    && w.paint.frameRate == RateAt(events, n) >= 0
    && w.paint.pumpPaintCount == (if RateAtDrop(events, n) > 0 then 1 + RateAtDrop(events, n) else 0)
    && (RateAtDrop(events, n) > 0 ==> w.paint.paintsSinceResize == PaintsSinceDrop(events, n))
  }

  ghost predicate LoopAgrees(w: World, events: seq<Event>, n: nat)
    requires n <= |events|
  {
    && (w.paint.running <==> Looping(events, n))
    && (w.paint.running ==> w.paint.tickCount == TasksOfLoop(events, n))
    && (w.paint.running ==> (w.paint.stop <==> Stopped(events, n)))
  }

  lemma CounterStep(w: World, e: Event)
    requires Enabled(w, e)
    ensures e.PaintArrives? && Resets(w.paint, e.now, e.period) ==>
      && Next(w, e).paint.paintsSinceResize == 1
      && Next(w, e).paint.pumpPaintCount == if w.paint.frameRate > 0 then 1 + w.paint.frameRate else 0
    ensures !(e.PaintArrives? && Resets(w.paint, e.now, e.period)) ==>
      && Next(w, e).paint.paintsSinceResize == w.paint.paintsSinceResize + (if e.PaintArrives? then 1 else 0)
      && Next(w, e).paint.pumpPaintCount == w.paint.pumpPaintCount
  {
  }

  lemma RateAgrees(w: World, events: seq<Event>, n: nat)
    requires n < |events| && w.paint.frameRate == RateAt(events, n) >= 0 && Enabled(w, events[n])
    ensures Next(w, events[n]).paint.frameRate == RateAt(events, n + 1) >= 0
  {
  }

  lemma CountsAgreeNext(w: World, events: seq<Event>, n: nat)
    requires n < |events| && PaintsAgree(w, events, n) && CountsAgree(w, events, n) && Enabled(w, events[n])
    ensures CountsAgree(Next(w, events[n]), events, n + 1)
  {
    var e := events[n];
    assert DropAt(events, n) <==> e.PaintArrives? && Resets(w.paint, e.now, e.period);
    RateAgrees(w, events, n);
    CounterStep(w, e);
    CountersNext(w.paint, Next(w, e).paint, events, n);
  }

  lemma CountersNext(s: Paint, r: Paint, events: seq<Event>, n: nat)
    requires n < |events| && s.frameRate == RateAt(events, n)
    requires s.pumpPaintCount == if RateAtDrop(events, n) > 0 then 1 + RateAtDrop(events, n) else 0
    requires RateAtDrop(events, n) > 0 ==> s.paintsSinceResize == PaintsSinceDrop(events, n)
    requires if DropAt(events, n)
      then r.paintsSinceResize == 1 && r.pumpPaintCount == if s.frameRate > 0 then 1 + s.frameRate else 0
      else && r.paintsSinceResize == s.paintsSinceResize + (if events[n].PaintArrives? then 1 else 0)
           && r.pumpPaintCount == s.pumpPaintCount
    ensures r.pumpPaintCount == if RateAtDrop(events, n + 1) > 0 then 1 + RateAtDrop(events, n + 1) else 0
    ensures RateAtDrop(events, n + 1) > 0 ==> r.paintsSinceResize == PaintsSinceDrop(events, n + 1)
  {
  }

  lemma PumpsOutIff(w: World, events: seq<Event>, n: nat)
    requires n < |events| && PaintsAgree(w, events, n) && CountsAgree(w, events, n) && events[n].PaintArrives?
    ensures PumpsOut(w.paint, events[n].now, events[n].period) <==> SignalAt(events, n)
  {
    assert Resets(w.paint, events[n].now, events[n].period) <==> DropAt(events, n);
  }

  lemma TaskAgrees(w: World, events: seq<Event>, n: nat)
    requires n < |events| && LoopInv(w) && CountsAgree(w, events, n) && LoopAgrees(w, events, n)
    requires IsLoopTask(events[n]) && Enabled(w, events[n])
    ensures LoopAgrees(Next(w, events[n]), events, n + 1)
    ensures Next(w, events[n]).paint.running <==> GoesOn(events, n)
  {
    StoppedNext(events, n);
  }

  lemma ResizeAgrees(w: World, events: seq<Event>, n: nat)
    requires n < |events| && PaintsAgree(w, events, n) && LoopAgrees(w, events, n) && Enabled(w, events[n])
    requires events[n].Resize? || events[n].Create?
    ensures LoopAgrees(Next(w, events[n]), events, n + 1)
  {
    StoppedNext(events, n);
  }

  lemma RestAgrees(w: World, events: seq<Event>, n: nat)
    requires n < |events| && PaintsAgree(w, events, n) && CountsAgree(w, events, n) && LoopAgrees(w, events, n)
    requires !IsLoopTask(events[n]) && !events[n].Resize? && !events[n].Create? && Enabled(w, events[n])
    ensures LoopAgrees(Next(w, events[n]), events, n + 1)
  {
    StoppedNext(events, n);
    if events[n].PaintArrives? {
      PumpsOutIff(w, events, n);
    }
  }

  lemma {:induction false} RunAgrees(worlds: seq<World>, events: seq<Event>, n: nat)
    requires IsRun(worlds, events) && n < |worlds|
    ensures PaintsAgree(worlds[n], events, n) && CountsAgree(worlds[n], events, n) && LoopAgrees(worlds[n], events, n)
  {
    RunPaintsAgree(worlds, events, n);
    if n > 0 {
      RunAgrees(worlds, events, n - 1);
      RunKeepsInv(worlds, events, n - 1);
      assert StepAt(worlds, events, n - 1);
      var w, e := worlds[n - 1], events[n - 1];
      CountsAgreeNext(w, events, n - 1);
      if IsLoopTask(e) {
        TaskAgrees(w, events, n - 1);
      } else if e.Resize? || e.Create? {
        ResizeAgrees(w, events, n - 1);
      } else {
        RestAgrees(w, events, n - 1);
      }
    }
  }

  /** In every run the stop signal goes out exactly with the paint that the events name. */
  lemma SignalledIff(worlds: seq<World>, events: seq<Event>, n: nat)
    requires IsRun(worlds, events) && n < |events| && events[n].PaintArrives?
    ensures PumpsOut(worlds[n].paint, events[n].now, events[n].period) <==> SignalAt(events, n)
  {
    RunAgrees(worlds, events, n);
    PumpsOutIff(worlds[n], events, n);
  }

  /** In every run a task of the loop posts the next one exactly if it goes on, as the events say it. */
  lemma TaskPostsIff(worlds: seq<World>, events: seq<Event>, n: nat)
    requires IsRun(worlds, events) && n < |events| && IsLoopTask(events[n])
    ensures worlds[n + 1].ticks == (if GoesOn(events, n) then 1 else 0)
    ensures worlds[n].paint.running && (worlds[n + 1].paint.running <==> GoesOn(events, n))
  {
    RunAgrees(worlds, events, n);
    RunKeepsInv(worlds, events, n);
    assert StepAt(worlds, events, n);
    TaskAgrees(worlds[n], events, n);
  }

  lemma BoostStep(w: World, e: Event, rate: int)
    requires LoopInv(w) && Enabled(w, e) && !e.Create?
    requires w.ticks == 1 && w.paint.applied == rate && Next(w, e).paint.running
    ensures Next(w, e).ticks == 1 && Next(w, e).paint.applied == rate
  {
  }

  lemma KickBoosts(w: World)
    requires LoopInv(w) && w.kicks > 0 && w.paint.alive && w.paint.frameRate > 0
    ensures Next(w, Kick).paint.running ==>
      Next(w, Kick).ticks == 1 && Next(w, Kick).paint.applied == w.paint.frameRate * BOOST_MULTIPLIER
  {
  }

  /** From its kick on, for as long as the loop runs, the browser has twice the rate configured at the kick,
      whatever rate is configured meanwhile. */
  lemma {:induction false} BoostHolds(worlds: seq<World>, events: seq<Event>, kick: nat, n: nat)
    requires IsRun(worlds, events) && kick < n < |worlds|
    requires events[kick].Kick? && worlds[kick].paint.alive && RateAt(events, kick) > 0
    requires forall i :: kick < i < n ==> !events[i].Create?
    requires forall i :: kick < i <= n ==> Looping(events, i)
    ensures worlds[n].ticks == 1 && worlds[n].paint.applied == RateAt(events, kick) * BOOST_MULTIPLIER
  {
    RunAgrees(worlds, events, n - 1);
    RunAgrees(worlds, events, n);
    RunKeepsInv(worlds, events, n - 1);
    assert StepAt(worlds, events, n - 1);
    if n - 1 == kick {
      KickBoosts(worlds[kick]);
    } else {
      BoostHolds(worlds, events, kick, n - 1);
      BoostStep(worlds[n - 1], events[n - 1], RateAt(events, kick) * BOOST_MULTIPLIER);
    }
  }
}
