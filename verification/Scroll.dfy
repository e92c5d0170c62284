/** The coalescing scroll accumulator, over exact numbers. */
module Scroll {
  import opened Options
  import opened Sequences

  const PIXELS_PER_TICK: real := 40.0
  const DRAIN: real := 0.45

  /** Rounding half away from zero, and the saturating conversion of the result to 32 bits. */
  function Round(r: real): int {
    if r >= 0.0 then (r + 0.5).Floor else -(0.5 - r).Floor
  }

  function ToI32(n: int): int {
    if n < -0x8000_0000 then -0x8000_0000 else if n > 0x7FFF_FFFF then 0x7FFF_FFFF else n
  }

  function Abs(r: real): real { if r < 0.0 then -r else r }

  // ---- One axis ----

  /** The whole pixels one flush takes from an axis. */
  function Chunk(a: real, precise: bool): int {
    if precise then ToI32(Round(a))
    else
      var n := ToI32(Round(a * DRAIN));
      if n == 0 && Abs(a) >= 1.0 then (if a > 0.0 then 1 else -1) else n
  }

  /** What the flush leaves on the axis. */
  function Rest(a: real, precise: bool): real {
    var r := a - Chunk(a, precise) as real;
    if !precise && Abs(r) < 0.5 then 0.0 else r
  }

  // ---- The accumulator ----

  datatype Scroll = Scroll(ax: real, ay: real, x: int, y: int, mods: nat, precise: bool, pending: bool, flushScheduled: bool)

  datatype ScrollFlush = ScrollFlush(x: int, y: int, dx: int, dy: int, mods: nat, precise: bool)

  datatype Wheel = Wheel(x: int, y: int, mods: nat, precise: bool, dx: real, dy: real)

  function Scale(w: Wheel): real { if w.precise then 1.0 else PIXELS_PER_TICK }

  function Accumulated(s: Scroll, w: Wheel): Scroll {
    Scroll(s.ax + w.dx * Scale(w), s.ay + w.dy * Scale(w), w.x, w.y, w.mods, w.precise, true, true)
  }

  function Flushed(s: Scroll): Scroll {
    if !s.pending then s.(flushScheduled := false)
    else
      var ax, ay := Rest(s.ax, s.precise), Rest(s.ay, s.precise);
      s.(ax := ax, ay := ay, pending := ax != 0.0 || ay != 0.0, flushScheduled := false)
  }

  function FlushEvent(s: Scroll): Option<ScrollFlush> {
    if !s.pending then None
    else
      var dx, dy := Chunk(s.ax, s.precise), Chunk(s.ay, s.precise);
      if dx == 0 && dy == 0 then None else Some(ScrollFlush(s.x, s.y, dx, dy, s.mods, s.precise))
  }

  class ScrollAccum {
    var ax: real
    var ay: real
    var x: int
    var y: int
    var mods: nat
    var precise: bool
    var pending: bool
    var flushScheduled: bool

    function State(): Scroll
      reads this
    {
      Scroll(ax, ay, x, y, mods, precise, pending, flushScheduled)
    }

    constructor ()
      ensures State() == Idle()
    {
      ax, ay, x, y, mods := 0.0, 0.0, 0, 0, 0;
      precise, pending, flushScheduled := false, false, false;
    }

    /** Tells whether a flush must be scheduled. */
    method Accumulate(w: Wheel) returns (schedule: bool)
      modifies this
      ensures State() == Accumulated(old(State()), w)
      ensures schedule == !old(flushScheduled)
    {
      x, y, mods, precise := w.x, w.y, w.mods, w.precise;
      if precise {
        ax := ax + w.dx;
        ay := ay + w.dy;
      } else {
        ax := ax + w.dx * PIXELS_PER_TICK;
        ay := ay + w.dy * PIXELS_PER_TICK;
      }
      pending := true;
      if flushScheduled {
        schedule := false;
      } else {
        flushScheduled := true;
        schedule := true;
      }
    }

    method Flush() returns (event: Option<ScrollFlush>)
      modifies this
      ensures State() == Flushed(old(State()))
      ensures event == FlushEvent(old(State()))
    {
      flushScheduled := false;
      if !pending {
        return None;
      }
      var dx, dy;
      if precise {
        dx := ToI32(Round(ax));
        dy := ToI32(Round(ay));
        ax := ax - dx as real;
        ay := ay - dy as real;
      } else {
        dx := ToI32(Round(ax * DRAIN));
        dy := ToI32(Round(ay * DRAIN));
        if dx == 0 && Abs(ax) >= 1.0 {
          dx := if ax > 0.0 then 1 else -1;
        }
        if dy == 0 && Abs(ay) >= 1.0 {
          dy := if ay > 0.0 then 1 else -1;
        }
        assert dx == Chunk(ax, false) && dy == Chunk(ay, false);
        ax := ax - dx as real;
        ay := ay - dy as real;
        if Abs(ax) < 0.5 {
          ax := 0.0;
        }
        if Abs(ay) < 0.5 {
          ay := 0.0;
        }
      }
      assert dx == Chunk(old(ax), precise) && ax == Rest(old(ax), precise);
      assert dy == Chunk(old(ay), precise) && ay == Rest(old(ay), precise);
      pending := ax != 0.0 || ay != 0.0;
      if dx == 0 && dy == 0 {
        return None;
      }
      event := Some(ScrollFlush(x, y, dx, dy, mods, precise));
    }
  }

  function Idle(): Scroll { Scroll(0.0, 0.0, 0, 0, 0, false, false, false) }

  // ---- One flush of one axis ----

  lemma RoundIsNear(r: real)
    ensures Abs(r - Round(r) as real) <= 0.5
    ensures r >= 0.0 ==> Round(r) >= 0
    ensures r <= 0.0 ==> Round(r) <= 0
  {
  }

  /** A number rounds to the nearest integer, from half-way between two to the one farther from zero. */
  lemma RoundIs(r: real, n: int)
    ensures Round(r) == n <==>
      if n > 0 then n as real - 0.5 <= r < n as real + 0.5
      else if n < 0 then n as real - 0.5 < r <= n as real + 0.5
      else -0.5 < r < 0.5
  {
  }

  /** A precise chunk is the whole number nearest to what the axis holds; a line chunk is the one nearest to 45
      percent of it, but a whole pixel at least from one pixel on. Either is a 32-bit number. */
  lemma ChunkIs(a: real, precise: bool)
    ensures var part := if precise then a else 0.45 * a;
      && Chunk(a, precise) == (
           if part >= 2147483647.5 then 2147483647 else if part <= -2147483648.5 then -2147483648
           else if !precise && -0.5 < part < 0.5 && a >= 1.0 then 1
           else if !precise && -0.5 < part < 0.5 && a <= -1.0 then -1
           else Round(part))
  {
  }

  /** Nothing vanishes in precise mode; in line mode less than half a pixel does, and only with the last of it. */
  lemma FlushConserves(a: real, precise: bool)
    ensures var discarded := a - Chunk(a, precise) as real - Rest(a, precise);
      && (precise ==> discarded == 0.0)
      && Abs(discarded) < 0.5
      && (discarded != 0.0 ==> Rest(a, precise) == 0.0)
  {
  }

  /** Half a pixel around what a 32-bit number holds: values that rounding and conversion keep to half a pixel. */
  predicate NearI32(r: real) { -2147483648.5 <= r <= 2147483647.5 }

  /** Precise mode keeps at most half a pixel, exactly where the conversion does not cut the chunk off. */
  lemma PreciseRest(a: real)
    ensures Abs(Rest(a, true)) <= 0.5 <==> NearI32(a)
  {
    RoundIsNear(a);
  }

  /** Line mode never overshoots, and takes at least one pixel while there is one. */
  lemma LineRest(a: real)
    ensures a >= 0.0 ==> Rest(a, false) >= 0.0
    ensures a <= 0.0 ==> Rest(a, false) <= 0.0
    ensures Abs(a) >= 1.0 ==> Abs(Rest(a, false)) <= Abs(a) - 1.0
    ensures 0.5 <= Abs(a) < 1.0 ==> Rest(a, false) == a && Chunk(a, false) == 0
    ensures Abs(a) < 0.5 ==> Rest(a, false) == 0.0 && Chunk(a, false) == 0
  {
    RoundIsNear(a * DRAIN);
  }

  /** Line mode takes 45 percent, up to half a pixel, exactly where the conversion does not cut the chunk off. */
  lemma LineDecay(a: real)
    ensures Abs(Rest(a, false)) <= 0.55 * Abs(a) + 0.5 <==> NearI32(a * DRAIN)
  {
    RoundIsNear(a * DRAIN);
  }

  /** What one flush empties: whole pixels in precise mode, but in line mode nothing from a pixel and a half up. */
  predicate Empties(a: real, precise: bool) {
    if precise then a == a.Floor as real && NearI32(a) else Abs(a) < 0.5 || 1.0 <= Abs(a) < 1.5
  }

  lemma LineRestIsZeroIff(a: real)
    ensures Rest(a, false) == 0.0 <==> Empties(a, false)
  {
    RoundIsNear(a * DRAIN);
  }

  lemma PreciseRestIsZeroIff(a: real)
    ensures Rest(a, true) == 0.0 <==> Empties(a, true)
  {
    var whole := a.Floor;
    if a == whole as real {
      assert Round(a) == whole;
    }
  }

  lemma RestIsZeroIff(a: real, precise: bool)
    ensures Rest(a, precise) == 0.0 <==> Empties(a, precise)
  {
    LineRestIsZeroIff(a);
    PreciseRestIsZeroIff(a);
  }

  // ---- Repeated line-mode flushes of one axis ----

  /** What is left after `k` flushes. */
  function AfterFlushes(a: real, k: nat): real {
    if k == 0 then a else Rest(AfterFlushes(a, k - 1), false)
  }

  /** The whole pixels emitted by them. */
  function EmittedBy(a: real, k: nat): int {
    if k == 0 then 0 else EmittedBy(a, k - 1) + Chunk(AfterFlushes(a, k - 1), false)
  }

  lemma {:induction false} FlushesShrink(a: real, k: nat)
    ensures Abs(AfterFlushes(a, k)) <= Abs(a)
    ensures a >= 0.0 ==> AfterFlushes(a, k) >= 0.0
    ensures a <= 0.0 ==> AfterFlushes(a, k) <= 0.0
    ensures Abs(AfterFlushes(a, k)) < 1.0 || Abs(AfterFlushes(a, k)) <= Abs(a) - k as real
  {
    if k > 0 {
      FlushesShrink(a, k - 1);
      LineRest(AfterFlushes(a, k - 1));
    }
  }

  /** After as many flushes as there are whole pixels, less than one pixel is left, and it stays as it is. */
  lemma FlushesSettle(a: real, k: nat)
    requires k >= Abs(a).Floor
    ensures Abs(AfterFlushes(a, k)) < 1.0
    ensures k > Abs(a).Floor ==> AfterFlushes(a, k + 1) == AfterFlushes(a, k)
  {
    FlushesShrink(a, k);
    LineRest(AfterFlushes(a, k));
    if k > 0 {
      FlushesShrink(a, k - 1);
      LineRest(AfterFlushes(a, k - 1));
    }
  }

  function Geometric(a: real, k: nat): real {
    if k == 0 then a else 0.55 * Geometric(a, k - 1)
  }

  /** The decay is geometric, from values whose first chunk is not cut off. */
  lemma {:induction false} FlushesDecay(a: real, k: nat)
    requires NearI32(a * DRAIN)
    ensures 9.0 * Abs(AfterFlushes(a, k)) <= 9.0 * Geometric(Abs(a), k) + 10.0
  {
    if k > 0 {
      FlushesDecay(a, k - 1);
      FlushesShrink(a, k - 1);
      LineDecay(AfterFlushes(a, k - 1));
    }
  }

  lemma WholeRest(n: int)
    ensures Rest(n as real, false) == (n - Chunk(n as real, false)) as real
  {
    var chunk := Chunk(n as real, false);
    assert n as real - chunk as real == (n - chunk) as real;
  }

  lemma {:induction false} WholePixelsStayWhole(n: int, k: nat)
    ensures AfterFlushes(n as real, k) == (n - EmittedBy(n as real, k)) as real
  {
    if k > 0 {
      WholePixelsStayWhole(n, k - 1);
      WholeRest(n - EmittedBy(n as real, k - 1));
    }
  }

  /** From whole pixels nothing is left and every pixel was emitted, after as many flushes as there are pixels. */
  lemma WholePixelsAreEmitted(n: int, k: nat)
    requires n <= k && -n <= k
    ensures AfterFlushes(n as real, k) == 0.0 && EmittedBy(n as real, k) == n
  {
    WholePixelsStayWhole(n, k);
    FlushesSettle(n as real, k);
    var left := n - EmittedBy(n as real, k);
    assert Abs(left as real) < 1.0;
  }

  // ---- Runs of wheel events and flushes ----

  datatype Event = Accumulate(wheel: Wheel) | Flush

  function Run(events: seq<Event>): Scroll {
    if events == [] then Idle()
    else
      var before := Run(events[..|events| - 1]);
      match events[|events| - 1]
      case Accumulate(w) => Accumulated(before, w)
      case Flush => Flushed(before)
  }

  function Input(events: seq<Event>): (real, real) {
    if events == [] then (0.0, 0.0)
    else
      var before := Input(events[..|events| - 1]);
      match events[|events| - 1]
      case Accumulate(w) => (before.0 + w.dx * Scale(w), before.1 + w.dy * Scale(w))
      case Flush => before
  }

  /** The sum of the chunks handed to the browser. */
  function Output(events: seq<Event>): (int, int) {
    if events == [] then (0, 0)
    else
      var before := Output(events[..|events| - 1]);
      if events[|events| - 1].Flush? then Plus(before, FlushEvent(Run(events[..|events| - 1]))) else before
  }

  /** Half a pixel for every line-mode flush. */
  function LossBound(events: seq<Event>): real {
    if events == [] then 0.0
    else
      var before := events[..|events| - 1];
      LossBound(before) + if events[|events| - 1].Flush? && !Run(before).precise then 0.5 else 0.0
  }

  lemma AxisFlushKeeps(input: real, output: int, a: real, precise: bool, lost: real)
    requires Abs(input - output as real - a) <= lost
    ensures Abs(input - (output + Chunk(a, precise)) as real - Rest(a, precise)) <= lost + if precise then 0.0 else 0.5
  {
    FlushConserves(a, precise);
    var chunk := Chunk(a, precise);
    assert (output + chunk) as real == output as real + chunk as real;
  }

  /** Input less output less what is left is at most `lost`, on both axes. */
  predicate Balanced(input: (real, real), output: (int, int), s: Scroll, lost: real) {
    && Abs(input.0 - output.0 as real - s.ax) <= lost
    && Abs(input.1 - output.1 as real - s.ay) <= lost
    && (!s.pending ==> s.ax == 0.0 && s.ay == 0.0)
  }

  function Plus(output: (int, int), event: Option<ScrollFlush>): (int, int) {
    match event
    case Some(e) => (output.0 + e.dx, output.1 + e.dy)
    case None => output
  }

  lemma FlushAddsChunks(s: Scroll, output: (int, int))
    requires !s.pending ==> s.ax == 0.0 && s.ay == 0.0
    ensures Plus(output, FlushEvent(s)) == (output.0 + Chunk(s.ax, s.precise), output.1 + Chunk(s.ay, s.precise))
    ensures Flushed(s).ax == Rest(s.ax, s.precise) && Flushed(s).ay == Rest(s.ay, s.precise)
  {
  }

  lemma FlushKeepsBalance(input: (real, real), output: (int, int), s: Scroll, lost: real)
    requires Balanced(input, output, s, lost)
    ensures Balanced(input, Plus(output, FlushEvent(s)), Flushed(s), lost + if s.precise then 0.0 else 0.5)
  {
    FlushAddsChunks(s, output);
    AxisFlushKeeps(input.0, output.0, s.ax, s.precise, lost);
    AxisFlushKeeps(input.1, output.1, s.ay, s.precise, lost);
  }

  lemma AccumulateKeepsBalance(input: (real, real), output: (int, int), s: Scroll, lost: real, w: Wheel)
    requires Balanced(input, output, s, lost)
    ensures Balanced((input.0 + w.dx * Scale(w), input.1 + w.dy * Scale(w)), output, Accumulated(s, w), lost)
  {
  }

  /** What went in is what came out, what is left, and at most half a pixel per line-mode flush;
      nothing at all is lost where every flush was precise. */
  lemma {:induction false} RunConserves(events: seq<Event>)
    ensures Balanced(Input(events), Output(events), Run(events), LossBound(events))
  {
    if events != [] {
      var before := events[..|events| - 1];
      RunConserves(before);
      match events[|events| - 1] {
        case Accumulate(w) => AccumulateKeepsBalance(Input(before), Output(before), Run(before), LossBound(before), w);
        case Flush => FlushKeepsBalance(Input(before), Output(before), Run(before), LossBound(before));
      }
    }
  }

  /** Flushes outstanding if each `true` of `accumulate` schedules one and each flush uses one up. */
  function Outstanding(events: seq<Event>): int {
    if events == [] then 0
    else
      var before := events[..|events| - 1];
      match events[|events| - 1]
      case Accumulate(_) => Outstanding(before) + if Run(before).flushScheduled then 0 else 1
      case Flush => Outstanding(before) - 1
  }

  predicate FlushesAreScheduled(events: seq<Event>) {
    events == [] ||
    (FlushesAreScheduled(events[..|events| - 1]) && (events[|events| - 1].Flush? ==> Outstanding(events[..|events| - 1]) > 0))
  }

  /** At most one flush is ever outstanding, and exactly one while something waits unflushed since the last. */
  lemma {:induction false} OneFlushPerBurst(events: seq<Event>)
    requires FlushesAreScheduled(events)
    ensures Outstanding(events) == if Run(events).flushScheduled then 1 else 0
  {
    if events != [] {
      OneFlushPerBurst(events[..|events| - 1]);
    }
  }

  // ---- What a flush reports ----

  function LastWheel(events: seq<Event>): Option<Wheel> {
    if events == [] then None
    else match events[|events| - 1]
      case Accumulate(w) => Some(w)
      case Flush => LastWheel(events[..|events| - 1])
  }

  /** The accumulator is in the mode of the last wheel event, and remembers where it was and its modifiers. */
  lemma {:induction false} RunRemembersLastWheel(events: seq<Event>)
    ensures match LastWheel(events)
      case Some(w) => Run(events).x == w.x && Run(events).y == w.y && Run(events).mods == w.mods && Run(events).precise == w.precise
      case None => Run(events) == Idle()
  {
    if events != [] {
      RunRemembersLastWheel(events[..|events| - 1]);
    }
  }

  /** A flush reports position, modifiers and mode of the last wheel event, and what it takes of both axes; it
      reports nothing exactly if it takes nothing. */
  lemma FlushReports(events: seq<Event>)
    ensures var r := Run(events);
      match FlushEvent(r)
      case None => Chunk(r.ax, r.precise) == 0 && Chunk(r.ay, r.precise) == 0
      case Some(e) =>
        && LastWheel(events).Some?
        && (var w := LastWheel(events).value; e.x == w.x && e.y == w.y && e.mods == w.mods && e.precise == w.precise)
        && e.dx == Chunk(r.ax, e.precise) && e.dy == Chunk(r.ay, e.precise) && (e.dx != 0 || e.dy != 0)
  {
    RunRemembersLastWheel(events);
    NothingPendingIsZero(events);
  }

  // ---- Flushes in a row ----

  function Flushes(k: nat): seq<Event> {
    if k == 0 then [] else Flushes(k - 1) + [Flush]
  }

  lemma RunSnoc(events: seq<Event>)
    ensures Run(events + [Flush]) == Flushed(Run(events))
    ensures Output(events + [Flush]) == Plus(Output(events), FlushEvent(Run(events)))
  {
    assert (events + [Flush])[..|events|] == events;
  }

  lemma NothingPendingIsZero(events: seq<Event>)
    ensures !Run(events).pending ==> Run(events).ax == 0.0 && Run(events).ay == 0.0
  {
    RunConserves(events);
  }

  /** The accumulator, and what it has emitted, after `k` flushes in a row. */
  function FlushedTimes(s: Scroll, out: (int, int), k: nat): (Scroll, (int, int)) {
    if k == 0 then (s, out)
    else
      var (before, got) := FlushedTimes(s, out, k - 1);
      (Flushed(before), Plus(got, FlushEvent(before)))
  }

  lemma {:induction false} RunOfFlushes(events: seq<Event>, k: nat)
    ensures (Run(events + Flushes(k)), Output(events + Flushes(k))) == FlushedTimes(Run(events), Output(events), k)
  {
    if k == 0 {
      assert events + [] == events;
    } else {
      RunOfFlushes(events, k - 1);
      RunSnoc(events + Flushes(k - 1));
      ConcatAssociates(events, Flushes(k - 1), [Flush]);
    }
  }

  /** State `r` and output `got` are those of `k` line-mode flushes of each axis from state `s` and output `out`. */
  ghost predicate AxesFlushed(s: Scroll, out: (int, int), k: nat, end: (Scroll, (int, int))) {
    && !end.0.precise && (!end.0.pending ==> end.0.ax == 0.0 && end.0.ay == 0.0)
    && AxisFlushed(s.ax, out.0, k, end.0.ax, end.1.0)
    && AxisFlushed(s.ay, out.1, k, end.0.ay, end.1.1)
  }

  ghost predicate AxisFlushed(a: real, out: int, k: nat, rest: real, emitted: int) {
    rest == AfterFlushes(a, k) && emitted == out + EmittedBy(a, k)
  }

  lemma AxisFlushedOnce(a: real, out: int, k: nat, rest: real, emitted: int)
    requires AxisFlushed(a, out, k, rest, emitted)
    ensures AxisFlushed(a, out, k + 1, Rest(rest, false), emitted + Chunk(rest, false))
  {
  }

  lemma AxesFlushedOnce(s: Scroll, out: (int, int), k: nat, end: (Scroll, (int, int)))
    requires AxesFlushed(s, out, k, end)
    ensures AxesFlushed(s, out, k + 1, (Flushed(end.0), Plus(end.1, FlushEvent(end.0))))
  {
    FlushAddsChunks(end.0, end.1);
    AxisFlushedOnce(s.ax, out.0, k, end.0.ax, end.1.0);
    AxisFlushedOnce(s.ay, out.1, k, end.0.ay, end.1.1);
  }

  lemma {:induction false} FlushesOfAxes(s: Scroll, out: (int, int), k: nat)
    requires AxesFlushed(s, out, 0, (s, out))
    ensures AxesFlushed(s, out, k, FlushedTimes(s, out, k))
  {
    if k > 0 {
      FlushesOfAxes(s, out, k - 1);
      AxesFlushedOnce(s, out, k - 1, FlushedTimes(s, out, k - 1));
    }
  }

  lemma NoFlushesOfAxes(events: seq<Event>)
    requires !Run(events).precise
    ensures AxesFlushed(Run(events), Output(events), 0, (Run(events), Output(events)))
  {
    NothingPendingIsZero(events);
  }

  /** In line mode, a run that goes on with `k` flushes flushes each axis `k` times and emits what those do. */
  lemma FlushesInARow(events: seq<Event>, k: nat)
    requires !Run(events).precise
    ensures AxesFlushed(Run(events), Output(events), k, (Run(events + Flushes(k)), Output(events + Flushes(k))))
  {
    NoFlushesOfAxes(events);
    RunOfFlushes(events, k);
    FlushesOfAxes(Run(events), Output(events), k);
  }

  /** Flushed often enough in a row, the accumulator keeps less than a pixel of each axis, which further flushes
      leave. */
  lemma FlushesInARowSettle(events: seq<Event>, k: nat)
    requires !Run(events).precise && k > Abs(Run(events).ax).Floor && k > Abs(Run(events).ay).Floor
    ensures var r := Run(events + Flushes(k)); Abs(r.ax) < 1.0 && Abs(r.ay) < 1.0
    ensures Run(events + Flushes(k + 1)).ax == Run(events + Flushes(k)).ax
    ensures Run(events + Flushes(k + 1)).ay == Run(events + Flushes(k)).ay
  {
    FlushesInARow(events, k);
    FlushesInARow(events, k + 1);
    FlushesSettle(Run(events).ax, k);
    FlushesSettle(Run(events).ay, k);
  }

  /** Flushed in a row, each axis decays geometrically. */
  lemma FlushesInARowDecay(events: seq<Event>, k: nat)
    requires !Run(events).precise && NearI32(Run(events).ax * DRAIN) && NearI32(Run(events).ay * DRAIN)
    ensures var s, r := Run(events), Run(events + Flushes(k));
      && 9.0 * Abs(r.ax) <= 9.0 * Geometric(Abs(s.ax), k) + 10.0
      && 9.0 * Abs(r.ay) <= 9.0 * Geometric(Abs(s.ay), k) + 10.0
  {
    FlushesInARow(events, k);
    FlushesDecay(Run(events).ax, k);
    FlushesDecay(Run(events).ay, k);
  }

  lemma WholeAxisFlushed(a: real, out: int, n: int, k: nat, rest: real, emitted: int)
    requires AxisFlushed(a, out, k, rest, emitted) && a == n as real && n <= k && -n <= k
    ensures rest == 0.0 && emitted == out + n
  {
    WholePixelsAreEmitted(n, k);
  }

  lemma WholeAxesFlushed(s: Scroll, out: (int, int), m: int, n: int, k: nat, end: (Scroll, (int, int)))
    requires AxesFlushed(s, out, k, end) && s.ax == m as real && s.ay == n as real
    requires m <= k && -m <= k && n <= k && -n <= k
    ensures end.0.ax == 0.0 && end.0.ay == 0.0 && end.1 == (out.0 + m, out.1 + n)
  {
    WholeAxisFlushed(s.ax, out.0, m, k, end.0.ax, end.1.0);
    WholeAxisFlushed(s.ay, out.1, n, k, end.0.ay, end.1.1);
  }

  /** Flushed in a row, whole pixels are emitted to the last one. */
  lemma FlushesInARowEmitAll(events: seq<Event>, m: int, n: int, k: nat)
    requires !Run(events).precise && Run(events).ax == m as real && Run(events).ay == n as real
    requires m <= k && -m <= k && n <= k && -n <= k
    ensures Run(events + Flushes(k)).ax == 0.0 && Run(events + Flushes(k)).ay == 0.0
    ensures Output(events + Flushes(k)) == (Output(events).0 + m, Output(events).1 + n)
  {
    FlushesInARow(events, k);
    var end := (Run(events + Flushes(k)), Output(events + Flushes(k)));
    WholeAxesFlushed(Run(events), Output(events), m, n, k, end);
  }

  // ---- Scheduled runs: no flush without a wheel event ----

  function Wheels(events: seq<Event>): nat {
    if events == [] then 0 else Wheels(events[..|events| - 1]) + if events[|events| - 1].Accumulate? then 1 else 0
  }

  /** A scheduled run has no more flushes than wheel events and no two flushes in a row: only a wheel event
      schedules a flush. */
  lemma {:induction false} NoMoreFlushesThanWheels(events: seq<Event>)
    requires FlushesAreScheduled(events)
    ensures |events| - Wheels(events) + Outstanding(events) <= Wheels(events)
    ensures Outstanding(events) >= 0
    ensures |events| >= 2 && events[|events| - 1].Flush? ==> events[|events| - 2].Accumulate?
  {
    OneFlushPerBurst(events);
    if events != [] {
      var before := events[..|events| - 1];
      NoMoreFlushesThanWheels(before);
      OneFlushPerBurst(before);
    }
  }

  /** Nothing outstanding: what the last flush found and did not empty stays, until the wheel turns again. */
  lemma ScheduledRunIsEmptyIff(events: seq<Event>)
    requires FlushesAreScheduled(events) && Outstanding(events) == 0 && events != []
    ensures events[|events| - 1].Flush?
    ensures var found := Run(events[..|events| - 1]);
      Run(events).ax == 0.0 && Run(events).ay == 0.0 <==> Empties(found.ax, found.precise) && Empties(found.ay, found.precise)
  {
    var before := events[..|events| - 1];
    var found := Run(before);
    OneFlushPerBurst(events);
    NothingPendingIsZero(before);
    FlushAddsChunks(found, (0, 0));
    RestIsZeroIff(found.ax, found.precise);
    RestIsZeroIff(found.ay, found.precise);
  }

  /** A flush that finds whole lines empties nothing. */
  lemma WholeLinesLinger(n: int)
    requires n != 0
    ensures Rest(n as real * PIXELS_PER_TICK, false) != 0.0
  {
    LineRestIsZeroIff(n as real * PIXELS_PER_TICK);
  }

  const ONE_LINE: seq<Event> := [Accumulate(Wheel(0, 0, 0, false, 0.0, 1.0)), Flush]

  /** One line down and the flush it schedules: 18 of its 40 pixels are emitted, 22 stay with no flush to come. */
  lemma OneLineIsNotEmitted()
    ensures FlushesAreScheduled(ONE_LINE) && Outstanding(ONE_LINE) == 0
    ensures Input(ONE_LINE) == (0.0, 40.0) && Output(ONE_LINE) == (0, 18)
    ensures Run(ONE_LINE).pending && Run(ONE_LINE).ay == 22.0
  {
    var wheel: Event := ONE_LINE[0];
    assert ONE_LINE[..1] == [wheel];
    assert [wheel][..0] == [];
    assert Run([wheel]) == Accumulated(Idle(), wheel.wheel);
    assert Run([wheel]).ay == 40.0 && Run([wheel]).ax == 0.0;
    assert Round(40.0 * DRAIN) == 18 && Round(0.0 * DRAIN) == 0;
    assert Chunk(40.0, false) == 18 && Chunk(0.0, false) == 0;
    assert ONE_LINE[1] == Flush;
    assert FlushesAreScheduled([wheel]);
    assert !Run([]).flushScheduled && Outstanding([]) == 0;
    assert Outstanding([wheel]) == 1;
  }
}
