/** The layer registry: layers, the focus stack over them, and the cursor router behind them. */
module Browsers {
  import opened Options
  import opened Sequences
  import opened SinkRouting

  /** A layer's address. The allocator may hand out the address of a freed layer again. */
  type Layer = nat

  /** `handles` is the write-once cursor handle inside each layer, `focused` the layers told they have focus. */
  datatype Registry<T> = Registry(
    layers: seq<Layer>,
    stack: seq<Layer>,
    handles: map<Layer, Handle>,
    focused: set<Layer>,
    router: RouterState<T>)

  function Top(stack: seq<Layer>): (top: Option<Layer>)
    ensures top.Some? ==> top.value in stack
  {
    if stack == [] then None else Some(stack[|stack| - 1])
  }

  function HandleOf(handles: map<Layer, Handle>, layer: Option<Layer>): Option<Handle> {
    if layer.Some? && layer.value in handles then Some(handles[layer.value]) else None
  }

  function Created<T>(s: Registry<T>, layer: Layer): Registry<T> {
    s.(layers := s.layers + [layer],
       handles := s.handles[layer := s.router.next],
       router := Added(s.router, Level(None)))
  }

  function Activated<T>(s: Registry<T>, layer: Option<Layer>): Registry<T> {
    var prev := Top(s.stack);
    if prev == layer then s
    else
      var unfocused := if prev.Some? then s.focused - {prev.value} else s.focused;
      match layer
      case None => s.(focused := unfocused)
      case Some(l) =>
        s.(stack := Without(s.stack, l) + [l],
           router := if l in s.handles then Selected(s.router, s.handles[l]) else s.router,
           focused := unfocused + {l})
  }

  function Freed<T>(s: Registry<T>, layer: Layer, shuttingDown: bool): Registry<T> {
    var wasTop := Top(s.stack) == Some(layer);
    var stack := Without(s.stack, layer);
    var newTop := Top(stack);
    var refocused := if wasTop && newTop.Some? && !shuttingDown then {newTop.value} else {};
    Registry(
      Without(s.layers, layer),
      stack,
      s.handles - {layer},
      s.focused - {layer} + refocused,
      if layer in s.handles then Removed(s.router, s.handles[layer], HandleOf(s.handles, newTop)) else s.router)
  }

  class Browsers<T> {
    var layers: seq<Layer>
    var stack: seq<Layer>
    var handles: map<Layer, Handle>
    var focused: set<Layer>
    const router: Router<T>

    function State(): Registry<T>
      reads this, router
    {
      Registry(layers, stack, handles, focused, router.State())
    }

    constructor ()
      ensures State() == Registry([], [], map[], {}, Empty()) && fresh(router)
    {
      layers, stack, handles, focused := [], [], map[], {};
      router := new Router<T>();
    }

    /** `layer` is the fresh allocation, null if it failed. */
    method Create(layer: Option<Layer>) returns (created: Option<Layer>)
      requires layer.Some? ==> layer.value !in layers
      modifies this, router
      ensures created == layer
      ensures State() == if layer.Some? then Created(old(State()), layer.value) else old(State())
    {
      if layer.None? {
        return None;
      }
      layers := layers + [layer.value];
      var handle := router.AddLevel();
      handles := handles[layer.value := handle];
      return layer;
    }

    method SetActive(layer: Option<Layer>)
      requires layer.Some? ==> layer.value in layers
      modifies this, router
      ensures State() == Activated(old(State()), layer)
    {
      var prev := Top(stack);
      if prev == layer {
        return;
      }
      if layer.Some? {
        stack := Without(stack, layer.value);
        stack := stack + [layer.value];
        var handle := HandleOf(handles, layer);
        if handle.Some? {
          router.Select(handle.value);
        }
      }
      if prev.Some? {
        focused := focused - {prev.value};
      }
      if layer.Some? {
        focused := focused + {layer.value};
      }
    }

    method Remove(layer: Option<Layer>, shuttingDown: bool)
      requires layer.Some? ==> layer.value in layers
      requires Distinct(layers)
      modifies this, router
      ensures State() == if layer.Some? then Freed(old(State()), layer.value, shuttingDown) else old(State())
    {
      if layer.None? {
        return;
      }
      var wasTop := Top(stack) == layer;
      stack := Without(stack, layer.value);
      var newTop := Top(stack);
      var gone := HandleOf(handles, layer);
      if gone.Some? {
        router.Remove(gone.value, HandleOf(handles, newTop));
      }
      var idx := IndexOf(layers, layer.value);
      RemoveAtIsWithout(layers, layer.value, idx);
      layers := layers[..idx] + layers[idx + 1..];
      handles := handles - {layer.value};
      focused := focused - {layer.value};
      if wasTop && newTop.Some? && !shuttingDown {
        focused := focused + {newTop.value};
      }
    }

    method RouteCursor(handle: Handle, shape: T)
      modifies router
      ensures State() == old(State()).(router := Emitted(old(State()).router, handle, shape))
    {
      router.Emit(handle, shape);
    }
  }

  function IndexOf(s: seq<Layer>, layer: Layer): (idx: nat)
    requires layer in s
    ensures idx < |s| && s[idx] == layer && layer !in s[..idx]
  {
    if s[0] == layer then 0 else IndexOf(s[1..], layer) + 1
  }

  lemma WithoutAbsent(s: seq<Layer>, layer: Layer)
    requires layer !in s
    ensures Without(s, layer) == s
  {
  }

  lemma {:induction false} RemoveAtIsWithout(s: seq<Layer>, layer: Layer, idx: nat)
    requires Distinct(s) && idx < |s| && s[idx] == layer
    ensures s[..idx] + s[idx + 1..] == Without(s, layer)
  {
    if idx == 0 {
      WithoutAbsent(s[1..], layer);
    } else {
      RemoveAtIsWithout(s[1..], layer, idx - 1);
      assert s[..idx] + s[idx + 1..] == [s[0]] + (s[1..][..idx - 1] + s[1..][idx..]);
    }
  }

  lemma ConsDistinct(x: Layer, s: seq<Layer>)
    requires Distinct(s) && x !in s
    ensures Distinct([x] + s)
  {
  }

  lemma SnocDistinct(s: seq<Layer>, x: Layer)
    requires Distinct(s) && x !in s
    ensures Distinct(s + [x])
  {
  }

  lemma {:induction false} WithoutDistinct(s: seq<Layer>, layer: Layer)
    requires Distinct(s)
    ensures Distinct(Without(s, layer))
  {
    if s != [] {
      var rest := s[1..];
      assert forall i :: 0 <= i < |rest| ==> rest[i] == s[i + 1];
      WithoutDistinct(rest, layer);
      assert s[0] !in rest;
      ConsDistinct(s[0], Without(rest, layer));
    }
  }

  /** Removing a layer that is not on top leaves the top alone. */
  lemma {:induction false} WithoutKeepsTop(s: seq<Layer>, layer: Layer)
    requires s != [] && s[|s| - 1] != layer
    ensures Top(Without(s, layer)) == Top(s)
  {
    if |s| > 1 {
      WithoutKeepsTop(s[1..], layer);
    }
  }

  // ---- Histories ----

  datatype Op<T> =
    | Create(layer: Layer)
    | SetActive(active: Option<Layer>)
    | Remove(layer: Layer, shuttingDown: bool)
    | RouteCursor(handle: Handle, shape: T)

  /** Calls pass live layers, and an allocation is not at a live address. */
  predicate Legal<T>(s: Registry<T>, op: Op<T>) {
    match op
    case Create(layer) => layer !in s.layers
    case SetActive(active) => active.Some? ==> active.value in s.layers
    case Remove(layer, _) => layer in s.layers
    case RouteCursor(_, _) => true
  }

  function Step<T>(s: Registry<T>, op: Op<T>): Registry<T> {
    match op
    case Create(layer) => Created(s, layer)
    case SetActive(active) => Activated(s, active)
    case Remove(layer, shuttingDown) => Freed(s, layer, shuttingDown)
    case RouteCursor(handle, shape) => s.(router := Emitted(s.router, handle, shape))
  }

  function History<T>(ops: seq<Op<T>>): Registry<T> {
    if ops == [] then Registry([], [], map[], {}, Empty())
    else Step(History(ops[..|ops| - 1]), ops[|ops| - 1])
  }

  predicate AllLegal<T>(ops: seq<Op<T>>) {
    ops == [] || (AllLegal(ops[..|ops| - 1]) && Legal(History(ops[..|ops| - 1]), ops[|ops| - 1]))
  }

  /** The lists hold no layer twice, and only live layers have a place in the focus history. */
  ghost predicate ListsOk<T>(s: Registry<T>) {
    Distinct(s.layers) && Distinct(s.stack) && forall l :: l in s.stack ==> l in s.layers
  }

  /** Exactly the live layers have a handle, each its own. */
  ghost predicate HandlesOk<T>(s: Registry<T>) {
    && (forall l :: l in s.handles <==> l in s.layers)
    && (forall l, m :: l in s.handles && m in s.handles && l != m ==> s.handles[l] != s.handles[m])
  }

  /** The router's producers are exactly the live layers' handles, all of them levels. */
  ghost predicate ProducersOk<T>(s: Registry<T>) {
    && (forall l :: l in s.handles ==> s.handles[l] in s.router.producers)
    && (forall h :: h in s.router.producers ==> s.router.producers[h].Level? && exists l :: l in s.handles && s.handles[l] == h)
  }

  /** The router's choice is the handle of the focus stack's top, and nobody else has focus. */
  ghost predicate TopOk<T>(s: Registry<T>) {
    && s.router.current == HandleOf(s.handles, Top(s.stack))
    && s.focused <= (match Top(s.stack) case None => {} case Some(l) => {l})
  }

  ghost predicate Consistent<T>(s: Registry<T>) {
    ListsOk(s) && HandlesOk(s) && ProducersOk(s) && TopOk(s) && RouterInv(s.router)
  }

  lemma CreateConsistent<T>(s: Registry<T>, layer: Layer)
    requires Consistent(s) && layer !in s.layers
    ensures Consistent(Created(s, layer))
  {
    var r := Created(s, layer);
    ApplyKeepsRouterInv(s.router, AddLevel);
    SnocDistinct(s.layers, layer);
    forall h | h in r.router.producers
      ensures r.router.producers[h].Level? && exists l :: l in r.handles && r.handles[l] == h
    {
      if h == s.router.next {
        assert r.handles[layer] == h;
      } else {
        var l :| l in s.handles && s.handles[l] == h;
        assert r.handles[l] == h;
      }
    }
  }

  lemma ActivateConsistent<T>(s: Registry<T>, layer: Option<Layer>)
    requires Consistent(s) && (layer.Some? ==> layer.value in s.layers)
    ensures Consistent(Activated(s, layer))
  {
    if layer.Some? && Top(s.stack) != layer {
      WithoutDistinct(s.stack, layer.value);
      SnocDistinct(Without(s.stack, layer.value), layer.value);
      ApplyKeepsRouterInv(s.router, Select(s.handles[layer.value]));
    }
  }

  lemma FreeListsOk<T>(s: Registry<T>, layer: Layer, shuttingDown: bool)
    requires Consistent(s) && layer in s.layers
    ensures ListsOk(Freed(s, layer, shuttingDown)) && HandlesOk(Freed(s, layer, shuttingDown))
  {
    WithoutDistinct(s.stack, layer);
    WithoutDistinct(s.layers, layer);
  }

  lemma FreeProducersOk<T>(s: Registry<T>, layer: Layer, shuttingDown: bool)
    requires Consistent(s) && layer in s.layers
    ensures ProducersOk(Freed(s, layer, shuttingDown))
  {
    var r := Freed(s, layer, shuttingDown);
    RemovedProducers(s.router, s.handles[layer], HandleOf(s.handles, Top(r.stack)));
    forall h | h in r.router.producers
      ensures r.router.producers[h].Level? && exists l :: l in r.handles && r.handles[l] == h
    {
      var l :| l in s.handles && s.handles[l] == h;
      assert r.handles[l] == h;
    }
  }

  lemma FreeOfTop<T>(s: Registry<T>, layer: Layer, shuttingDown: bool)
    requires Consistent(s) && layer in s.layers && Top(s.stack) == Some(layer)
    ensures TopOk(Freed(s, layer, shuttingDown))
  {
    var newTop := Top(Without(s.stack, layer));
    assert newTop.Some? ==> newTop.value in s.handles && newTop.value != layer;
  }

  lemma FreeBelowTop<T>(s: Registry<T>, layer: Layer, shuttingDown: bool)
    requires Consistent(s) && layer in s.layers && Top(s.stack) != Some(layer)
    ensures TopOk(Freed(s, layer, shuttingDown))
  {
    if s.stack != [] {
      WithoutKeepsTop(s.stack, layer);
    }
  }

  lemma FreeTopOk<T>(s: Registry<T>, layer: Layer, shuttingDown: bool)
    requires Consistent(s) && layer in s.layers
    ensures TopOk(Freed(s, layer, shuttingDown))
  {
    if Top(s.stack) == Some(layer) {
      FreeOfTop(s, layer, shuttingDown);
    } else {
      FreeBelowTop(s, layer, shuttingDown);
    }
  }

  lemma FreeConsistent<T>(s: Registry<T>, layer: Layer, shuttingDown: bool)
    requires Consistent(s) && layer in s.layers
    ensures Consistent(Freed(s, layer, shuttingDown))
  {
    FreeListsOk(s, layer, shuttingDown);
    FreeProducersOk(s, layer, shuttingDown);
    FreeTopOk(s, layer, shuttingDown);
    var fallback := HandleOf(s.handles, Top(Without(s.stack, layer)));
    ApplyKeepsRouterInv(s.router, SinkRouting.Remove(s.handles[layer], fallback));
  }

  lemma RouteConsistent<T>(s: Registry<T>, handle: Handle, shape: T)
    requires Consistent(s)
    ensures Consistent(s.(router := Emitted(s.router, handle, shape)))
  {
    ApplyKeepsRouterInv(s.router, Emit(handle, shape));
  }

  /** After any history of calls on live layers, layers, focus stack and cursor router agree. */
  lemma {:induction false} HistoryConsistent<T>(ops: seq<Op<T>>)
    requires AllLegal(ops)
    ensures Consistent(History(ops))
  {
    if ops != [] {
      var before := ops[..|ops| - 1];
      HistoryConsistent(before);
      var s := History(before);
      match ops[|ops| - 1] {
        case Create(layer) => CreateConsistent(s, layer);
        case SetActive(active) => ActivateConsistent(s, active);
        case Remove(layer, shuttingDown) => FreeConsistent(s, layer, shuttingDown);
        case RouteCursor(handle, shape) => RouteConsistent(s, handle, shape);
      }
    }
  }

  /** The router is on the top layer's level, and if that layer ever asked for a shape, the last shape
      delivered is the last one it asked for. */
  ghost predicate ShowsCursorOf<T>(s: Registry<T>, top: Layer) {
    && top in s.handles && s.handles[top] in s.router.producers
    && s.router.current == Some(s.handles[top])
    && match s.router.producers[s.handles[top]]
       case Level(Some(shape)) => s.router.out != [] && s.router.out[|s.router.out| - 1] == shape
       case Level(None) => true
       case Stream => false
  }

  /** In every state a history leads to, the cursor shown is the top layer's. */
  lemma ConsistentShowsCursor<T>(s: Registry<T>)
    requires Consistent(s)
    ensures s.stack != [] ==> ShowsCursorOf(s, s.stack[|s.stack| - 1])
  {
    if s.stack != [] {
      var top := s.stack[|s.stack| - 1];
      assert top in s.stack && Top(s.stack) == Some(top);
      assert s.router.producers[s.handles[top]].Level?;
    }
  }

  // ---- The router's history ----

  /** The call a step makes on the router, if any. */
  function RouterCalls<T>(s: Registry<T>, op: Op<T>): seq<SinkRouting.Op<T>> {
    match op
    case Create(_) => [AddLevel]
    case SetActive(active) =>
      if active.None? || Top(s.stack) == active || active.value !in s.handles then []
      else [Select(s.handles[active.value])]
    case Remove(layer, _) =>
      if layer !in s.handles then []
      else [SinkRouting.Remove(s.handles[layer], HandleOf(s.handles, Top(Without(s.stack, layer))))]
    case RouteCursor(handle, shape) => [Emit(handle, shape)]
  }

  function RouterHistory<T>(ops: seq<Op<T>>): seq<SinkRouting.Op<T>> {
    if ops == [] then []
    else RouterHistory(ops[..|ops| - 1]) + RouterCalls(History(ops[..|ops| - 1]), ops[|ops| - 1])
  }

  lemma StepCallsRouter<T>(s: Registry<T>, op: Op<T>)
    ensures |RouterCalls(s, op)| <= 1
    ensures Step(s, op).router ==
            if RouterCalls(s, op) == [] then s.router else Apply(s.router, RouterCalls(s, op)[0])
  {
  }

  lemma RunAppends<T>(calls: seq<SinkRouting.Op<T>>, more: seq<SinkRouting.Op<T>>)
    requires |more| <= 1
    ensures Run(calls + more) == if more == [] then Run(calls) else Apply(Run(calls), more[0])
  {
    if more == [] {
      assert calls + more == calls;
    } else {
      assert (calls + more)[..|calls|] == calls;
    }
  }

  lemma {:induction false} RouterIsRun<T>(ops: seq<Op<T>>)
    ensures History(ops).router == Run(RouterHistory(ops))
  {
    if ops != [] {
      var before, op := ops[..|ops| - 1], ops[|ops| - 1];
      RouterIsRun(before);
      StepCallsRouter(History(before), op);
      RunAppends(RouterHistory(before), RouterCalls(History(before), op));
    }
  }

  /** The last shape asked for under `handle` since it was handed out. */
  function LastAsked<T>(ops: seq<Op<T>>, handle: Handle): Option<T> {
    if ops == [] then None
    else
      var before, op := ops[..|ops| - 1], ops[|ops| - 1];
      if op.RouteCursor? && op.handle == handle && handle < History(before).router.next then Some(op.shape)
      else LastAsked(before, handle)
  }

  lemma LastEmitAppends<T>(calls: seq<SinkRouting.Op<T>>, more: seq<SinkRouting.Op<T>>, h: Handle)
    requires |more| <= 1
    ensures LastEmit(calls + more, h) ==
            if more != [] && more[0].Emit? && more[0].handle == h && h < AddsIn(calls) then Some(more[0].value)
            else LastEmit(calls, h)
  {
    if more == [] {
      assert calls + more == calls;
    } else {
      assert (calls + more)[..|calls|] == calls;
    }
  }

  lemma {:induction false} LastEmitIsLastAsked<T>(ops: seq<Op<T>>, handle: Handle)
    ensures LastEmit(RouterHistory(ops), handle) == LastAsked(ops, handle)
  {
    if ops != [] {
      var before, op := ops[..|ops| - 1], ops[|ops| - 1];
      LastEmitIsLastAsked(before, handle);
      RouterIsRun(before);
      RunAgrees(RouterHistory(before));
      LastEmitAppends(RouterHistory(before), RouterCalls(History(before), op), handle);
    }
  }

  /** A live layer's level holds the last shape the layer asked for. */
  lemma LevelHoldsLastAsked<T>(ops: seq<Op<T>>, layer: Layer)
    requires AllLegal(ops) && layer in History(ops).handles
    ensures var s := History(ops);
      s.handles[layer] in s.router.producers
      && s.router.producers[s.handles[layer]] == Level(LastAsked(ops, s.handles[layer]))
  {
    var s, calls := History(ops), RouterHistory(ops);
    var handle := s.handles[layer];
    HistoryConsistent(ops);
    RouterIsRun(ops);
    RunAgrees(calls);
    assert AgreesOn(Run(calls), calls, handle);
    LastEmitIsLastAsked(ops, handle);
    assert s.router.producers[handle].Level?;
  }

  /** After any history of calls on live layers: if the layer on top ever asked for a shape, the last shape
      delivered is the last one it asked for; and all that was delivered is told by the calls made. */
  lemma HistoryShowsCursor<T>(ops: seq<Op<T>>)
    requires AllLegal(ops)
    ensures var s := History(ops);
      s.stack != [] ==>
        var top := s.stack[|s.stack| - 1];
        && top in s.handles && s.router.current == Some(s.handles[top])
        && match LastAsked(ops, s.handles[top])
           case Some(shape) => s.router.out != [] && s.router.out[|s.router.out| - 1] == shape
           case None => true
    ensures History(ops).router.out == Deliveries(RouterHistory(ops))
  {
    var s := History(ops);
    HistoryConsistent(ops);
    RouterIsRun(ops);
    RunAgrees(RouterHistory(ops));
    if s.stack != [] {
      var top := s.stack[|s.stack| - 1];
      assert top in s.stack && Top(s.stack) == Some(top);
      LevelHoldsLastAsked(ops, top);
      ConsistentShowsCursor(s);
    }
  }

  // ---- The order of the stack and of the layers ----

  /** The latest activation of the layer since it was last removed, or -1. */
  function ActivatedAt<T>(ops: seq<Op<T>>, layer: Layer): (at: int)
    ensures at < |ops|
  {
    if ops == [] then -1
    else
      var before, last := ops[..|ops| - 1], ops[|ops| - 1];
      if last == SetActive(Some(layer)) then |before|
      else if last.Remove? && last.layer == layer then -1
      else ActivatedAt(before, layer)
  }

  /** The creation of the layer, if it was not removed since, or -1. */
  function CreatedAt<T>(ops: seq<Op<T>>, layer: Layer): (at: int)
    ensures at < |ops|
  {
    if ops == [] then -1
    else
      var before, last := ops[..|ops| - 1], ops[|ops| - 1];
      if last == Create(layer) then |before|
      else if last.Remove? && last.layer == layer then -1
      else CreatedAt(before, layer)
  }

  function Activations<T>(ops: seq<Op<T>>): Layer -> int { (l: Layer) => ActivatedAt(ops, l) }

  function Creations<T>(ops: seq<Op<T>>): Layer -> int { (l: Layer) => CreatedAt(ops, l) }

  ghost predicate Ascending(s: seq<Layer>, place: Layer -> int) {
    forall i, j :: 0 <= i < j < |s| ==> place(s[i]) < place(s[j])
  }

  /** The list holds the layers that have a place, in the order of their places. */
  ghost predicate ListedBy(s: seq<Layer>, place: Layer -> int) {
    (forall l :: l in s <==> place(l) >= 0) && Ascending(s, place)
  }

  lemma ConsAscending(x: Layer, s: seq<Layer>, place: Layer -> int)
    requires Ascending(s, place) && forall l :: l in s ==> place(x) < place(l)
    ensures Ascending([x] + s, place)
  {
  }

  lemma {:induction false} WithoutKeepsOrder(s: seq<Layer>, layer: Layer, place: Layer -> int)
    requires Ascending(s, place)
    ensures Ascending(Without(s, layer), place)
  {
    if s != [] {
      var rest := s[1..];
      assert forall i :: 0 <= i < |rest| ==> rest[i] == s[i + 1];
      WithoutKeepsOrder(rest, layer, place);
      assert forall l :: l in rest ==> place(s[0]) < place(l);
      ConsAscending(s[0], Without(rest, layer), place);
    }
  }

  /** The place of `layer` alone has changed: it is gone, or behind all others. */
  ghost predicate Unplaced(layer: Layer, was: Layer -> int, now: Layer -> int) {
    now(layer) < 0 && forall l :: l != layer ==> now(l) == was(l)
  }

  ghost predicate PlacedLast(layer: Layer, was: Layer -> int, now: Layer -> int) {
    now(layer) >= 0 && forall l :: l != layer ==> now(l) == was(l) < now(layer)
  }

  lemma RemovalKeepsListed(s: seq<Layer>, layer: Layer, was: Layer -> int, now: Layer -> int)
    requires ListedBy(s, was) && Unplaced(layer, was, now)
    ensures ListedBy(Without(s, layer), now)
  {
    WithoutKeepsOrder(s, layer, was);
    var r := Without(s, layer);
    assert forall i :: 0 <= i < |r| ==> r[i] in r;
  }

  lemma AppendKeepsListed(s: seq<Layer>, layer: Layer, was: Layer -> int, now: Layer -> int)
    requires ListedBy(s, was) && PlacedLast(layer, was, now)
    ensures ListedBy(Without(s, layer) + [layer], now)
  {
    WithoutKeepsOrder(s, layer, was);
    var r := Without(s, layer);
    assert forall i :: 0 <= i < |r| ==> r[i] in r;
  }

  lemma TopStaysListed(s: seq<Layer>, layer: Layer, was: Layer -> int, now: Layer -> int)
    requires ListedBy(s, was) && s != [] && s[|s| - 1] == layer && PlacedLast(layer, was, now)
    ensures ListedBy(s, now)
  {
  }

  lemma StackStaysListed<T>(s: Registry<T>, op: Op<T>, was: Layer -> int, now: Layer -> int)
    requires ListedBy(s.stack, was)
    requires match op
      case SetActive(Some(l)) => PlacedLast(l, was, now)
      case Remove(l, _) => Unplaced(l, was, now)
      case _ => forall l :: now(l) == was(l)
    ensures ListedBy(Step(s, op).stack, now)
  {
    match op {
      case SetActive(Some(l)) =>
        if Top(s.stack) == Some(l) {
          TopStaysListed(s.stack, l, was, now);
        } else {
          AppendKeepsListed(s.stack, l, was, now);
        }
      case Remove(l, _) => RemovalKeepsListed(s.stack, l, was, now);
      case _ =>
    }
  }

  lemma LayersStayListed<T>(s: Registry<T>, op: Op<T>, was: Layer -> int, now: Layer -> int)
    requires Legal(s, op) && ListedBy(s.layers, was)
    requires match op
      case Create(l) => PlacedLast(l, was, now)
      case Remove(l, _) => Unplaced(l, was, now)
      case _ => forall l :: now(l) == was(l)
    ensures ListedBy(Step(s, op).layers, now)
  {
    match op {
      case Create(l) =>
        WithoutAbsent(s.layers, l);
        AppendKeepsListed(s.layers, l, was, now);
      case Remove(l, _) => RemovalKeepsListed(s.layers, l, was, now);
      case _ =>
    }
  }

  /** After any history the focus stack holds the layers activated since they were last removed, in the order of
      their latest activations: this is the order in which they regain focus. */
  lemma {:induction false} StackIsByActivation<T>(ops: seq<Op<T>>)
    ensures ListedBy(History(ops).stack, Activations(ops))
  {
    if ops != [] {
      var before := ops[..|ops| - 1];
      StackIsByActivation(before);
      StackStaysListed(History(before), ops[|ops| - 1], Activations(before), Activations(ops));
    }
  }

  /** And the layers are those created and not removed since, in the order of their creation. */
  lemma {:induction false} LayersAreByCreation<T>(ops: seq<Op<T>>)
    requires AllLegal(ops)
    ensures ListedBy(History(ops).layers, Creations(ops))
  {
    if ops != [] {
      var before := ops[..|ops| - 1];
      LayersAreByCreation(before);
      LayersStayListed(History(before), ops[|ops| - 1], Creations(before), Creations(ops));
    }
  }

  // ---- Who has focus ----

  /** A call after which the layer on top need not have focus: activating no layer, or losing the top
      while the process shuts down. */
  ghost predicate DropsFocus<T>(s: Registry<T>, op: Op<T>) {
    match op
    case SetActive(None) => s.stack != []
    case Remove(layer, shuttingDown) => shuttingDown && Top(s.stack) == Some(layer) && |s.stack| > 1
    case _ => false
  }

  predicate TopFocused<T>(s: Registry<T>) {
    s.focused == match Top(s.stack) case None => {} case Some(l) => {l}
  }

  lemma WithoutLast(s: seq<Layer>)
    requires Distinct(s) && s != []
    ensures Without(s, s[|s| - 1]) == s[..|s| - 1]
  {
    RemoveAtIsWithout(s, s[|s| - 1], |s| - 1);
  }

  /** A call that moves the focus to the layer it puts or leaves on top. */
  ghost predicate GivesFocus<T>(s: Registry<T>, op: Op<T>) {
    match op
    case SetActive(Some(l)) => Top(s.stack) != Some(l)
    case Remove(layer, shuttingDown) => !shuttingDown && Top(s.stack) == Some(layer) && |s.stack| > 1
    case _ => false
  }

  lemma FreeTopFocus<T>(s: Registry<T>, layer: Layer, shuttingDown: bool)
    requires Consistent(s) && Top(s.stack) == Some(layer)
    ensures var r := Freed(s, layer, shuttingDown);
      TopFocused(r) <==> r.stack == [] || GivesFocus(s, Op.Remove(layer, shuttingDown))
  {
    WithoutLast(s.stack);
    assert s.focused - {layer} == {};
  }

  lemma FreeBelowFocus<T>(s: Registry<T>, layer: Layer, shuttingDown: bool)
    requires Consistent(s) && s.stack != [] && Top(s.stack) != Some(layer)
    ensures TopFocused(Freed(s, layer, shuttingDown)) <==> TopFocused(s)
  {
    WithoutKeepsTop(s.stack, layer);
  }

  /** What one call does to the focus of the top, from any consistent state. */
  lemma FocusAfterStepIff<T>(s: Registry<T>, op: Op<T>)
    requires Consistent(s)
    ensures var r := Step(s, op);
      TopFocused(r) <==> r.stack == [] || GivesFocus(s, op) || (TopFocused(s) && !DropsFocus(s, op))
    ensures s.stack == [] ==> Step(s, op).stack == [] || GivesFocus(s, op)
  {
    if op.Remove? && s.stack != [] {
      if Top(s.stack) == Some(op.layer) {
        FreeTopFocus(s, op.layer, op.shuttingDown);
      } else {
        FreeBelowFocus(s, op.layer, op.shuttingDown);
      }
    }
  }

  /** From a state in which the top has focus, a call leaves the top with focus exactly when it does not drop it. */
  lemma FocusKeptIff<T>(s: Registry<T>, op: Op<T>)
    requires Consistent(s) && Legal(s, op) && TopFocused(s)
    ensures TopFocused(Step(s, op)) <==> !DropsFocus(s, op)
  {
    FocusAfterStepIff(s, op);
    if op.Remove? && Top(s.stack) == Some(op.layer) {
      WithoutLast(s.stack);
    }
  }

  /** Activating a layer gives it focus, unless it was on top already: then it has what it had. */
  lemma ActivationFocusesIff<T>(s: Registry<T>, layer: Layer)
    requires Consistent(s)
    ensures TopFocused(Activated(s, Some(layer))) <==> Top(s.stack) != Some(layer) || TopFocused(s)
  {
  }

  /** After activating no layer, activating the layer still on top does not give it its focus back. */
  lemma ReactivationDoesNotRefocus<T>(s: Registry<T>)
    requires Consistent(s) && s.stack != []
    ensures var r := Activated(s, None);
      r.stack == s.stack && r.focused == {} && Activated(r, Top(s.stack)) == r
  {
  }

  ghost predicate GivesAt<T>(ops: seq<Op<T>>, k: nat) {
    k < |ops| && GivesFocus(History(ops[..k]), ops[k])
  }

  ghost predicate DropsAt<T>(ops: seq<Op<T>>, k: nat) {
    k < |ops| && DropsFocus(History(ops[..k]), ops[k])
  }

  /** Call `i` gave the focus to the top and no later call dropped it. */
  ghost predicate FocusGivenAt<T>(ops: seq<Op<T>>, i: nat) {
    GivesAt(ops, i) && forall k :: i < k < |ops| ==> !DropsAt(ops, k)
  }

  ghost predicate FocusGiven<T>(ops: seq<Op<T>>) {
    exists i: nat :: FocusGivenAt(ops, i)
  }

  lemma SameBefore<T>(ops: seq<Op<T>>, k: nat)
    requires k + 1 < |ops|
    ensures var before := ops[..|ops| - 1];
      (GivesAt(before, k) <==> GivesAt(ops, k)) && (DropsAt(before, k) <==> DropsAt(ops, k))
  {
    assert ops[..|ops| - 1][..k] == ops[..k];
  }

  lemma FocusGivenBefore<T>(ops: seq<Op<T>>, i: nat)
    requires i + 1 < |ops|
    ensures var before := ops[..|ops| - 1];
      FocusGivenAt(ops, i) <==> FocusGivenAt(before, i) && !DropsAt(ops, |ops| - 1)
  {
    var before := ops[..|ops| - 1];
    SameBefore(ops, i);
    forall k: nat | k < |before|
      ensures DropsAt(before, k) <==> DropsAt(ops, k)
    {
      SameBefore(ops, k);
    }
  }

  lemma FocusGivenSnoc<T>(ops: seq<Op<T>>)
    requires ops != []
    ensures var before, last := ops[..|ops| - 1], ops[|ops| - 1];
      FocusGiven(ops) <==>
        GivesFocus(History(before), last) || (FocusGiven(before) && !DropsFocus(History(before), last))
  {
    var before, last := ops[..|ops| - 1], ops[|ops| - 1];
    assert FocusGivenAt(ops, |before|) <==> GivesFocus(History(before), last);
    if i: nat :| FocusGivenAt(ops, i) && i < |before| {
      FocusGivenBefore(ops, i);
    }
    if i: nat :| FocusGivenAt(before, i) {
      FocusGivenBefore(ops, i);
    }
  }

  /** After any history the top of the focus stack has focus exactly if a call gave it and none dropped it since. */
  lemma {:induction false} TopFocusedIff<T>(ops: seq<Op<T>>)
    requires AllLegal(ops)
    ensures TopFocused(History(ops)) <==> History(ops).stack == [] || FocusGiven(ops)
  {
    if ops != [] {
      var before := ops[..|ops| - 1];
      HistoryConsistent(before);
      TopFocusedIff(before);
      FocusAfterStepIff(History(before), ops[|ops| - 1]);
      FocusGivenSnoc(ops);
    }
  }
}
