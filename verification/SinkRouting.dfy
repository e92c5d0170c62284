/** Exclusive sink routing: many producers, one output, one producer selected at a time. */
module SinkRouting {
  import opened Options

  /** A producer's identity. Handles are handed out from a counter, so none is ever used twice. */
  type Handle = nat

  datatype Kind<T> = Stream | Level(last: Option<T>)

  datatype RouterState<T> = RouterState(out: seq<T>, current: Option<Handle>, producers: map<Handle, Kind<T>>, next: Handle)

  function Added<T>(s: RouterState<T>, kind: Kind<T>): RouterState<T> {
    s.(producers := s.producers[s.next := kind], next := s.next + 1)
  }

  function Selected<T>(s: RouterState<T>, next: Handle): RouterState<T> {
    if next !in s.producers then s
    else match s.producers[next]
      case Level(Some(value)) => s.(current := Some(next), out := s.out + [value])
      case _ => s.(current := Some(next))
  }

  function Removed<T>(s: RouterState<T>, gone: Handle, fallback: Option<Handle>): RouterState<T> {
    var rest := s.(producers := s.producers - {gone});
    if s.current != Some(gone) then rest
    else match fallback
      case None => rest.(current := None)
      case Some(fb) => Selected(rest.(current := None), fb)
  }

  lemma RemovedProducers<T>(s: RouterState<T>, gone: Handle, fallback: Option<Handle>)
    ensures Removed(s, gone, fallback).producers == s.producers - {gone}
  {
  }

  function Emitted<T>(s: RouterState<T>, who: Handle, value: T): RouterState<T> {
    var recorded := if who in s.producers && s.producers[who].Level?
      then s.(producers := s.producers[who := Level(Some(value))])
      else s;
    if s.current == Some(who) then recorded.(out := s.out + [value]) else recorded
  }

  class Router<T> {
    var out: seq<T>
    var current: Option<Handle>
    var producers: map<Handle, Kind<T>>
    var next: Handle

    function State(): RouterState<T>
      reads this
    {
      RouterState(out, current, producers, next)
    }

    constructor ()
      ensures State() == RouterState([], None, map[], 0)
    {
      out, current, producers, next := [], None, map[], 0;
    }

    method Insert(kind: Kind<T>) returns (handle: Handle)
      modifies this
      ensures handle == old(next) && State() == Added(old(State()), kind)
    {
      handle := next;
      producers := producers[handle := kind];
      next := next + 1;
    }

    method AddStream() returns (handle: Handle)
      modifies this
      ensures handle == old(next) && State() == Added(old(State()), Stream)
    {
      handle := Insert(Stream);
    }

    method AddLevel() returns (handle: Handle)
      modifies this
      ensures handle == old(next) && State() == Added(old(State()), Level(None))
    {
      handle := Insert(Level(None));
    }

    method Select(handle: Handle)
      modifies this
      ensures State() == Selected(old(State()), handle)
    {
      if handle !in producers {
        return;
      }
      current := Some(handle);
      match producers[handle] {
        case Level(Some(value)) => out := out + [value];
        case _ =>
      }
    }

    method Remove(gone: Handle, fallback: Option<Handle>)
      modifies this
      ensures State() == Removed(old(State()), gone, fallback)
    {
      var wasCurrent := current == Some(gone);
      producers := producers - {gone};
      if wasCurrent {
        current := None;
        match fallback {
          case Some(fb) => Select(fb);
          case None =>
        }
      }
    }

    method Emit(who: Handle, value: T)
      modifies this
      ensures State() == Emitted(old(State()), who, value)
    {
      var isCurrent := current == Some(who);
      if who in producers && producers[who].Level? {
        producers := producers[who := Level(Some(value))];
      }
      if isCurrent {
        out := out + [value];
      }
    }
  }

  // ---- Histories ----

  datatype Op<T> =
    | AddStream
    | AddLevel
    | Select(handle: Handle)
    | Remove(handle: Handle, fallback: Option<Handle>)
    | Emit(handle: Handle, value: T)

  function Empty<T>(): RouterState<T> { RouterState([], None, map[], 0) }

  function Apply<T>(s: RouterState<T>, op: Op<T>): RouterState<T> {
    match op
    case AddStream => Added(s, Stream)
    case AddLevel => Added(s, Level(None))
    case Select(h) => Selected(s, h)
    case Remove(h, fallback) => Removed(s, h, fallback)
    case Emit(h, value) => Emitted(s, h, value)
  }

  function Run<T>(ops: seq<Op<T>>): RouterState<T> {
    if ops == [] then Empty() else Apply(Run(ops[..|ops| - 1]), ops[|ops| - 1])
  }

  // ---- What a history means, without a router ----

  function AddsIn<T>(ops: seq<Op<T>>): nat {
    if ops == [] then 0
    else AddsIn(ops[..|ops| - 1]) + if ops[|ops| - 1].AddStream? || ops[|ops| - 1].AddLevel? then 1 else 0
  }

  /** The position of the add that handed out `h`, if any. */
  ghost predicate AddedAt<T>(ops: seq<Op<T>>, h: Handle, i: nat) {
    i < |ops| && (ops[i].AddStream? || ops[i].AddLevel?) && AddsIn(ops[..i]) == h
  }

  /** `h` was handed out and has not been removed since. */
  ghost predicate IsLive<T>(ops: seq<Op<T>>, h: Handle) {
    exists i: nat :: AddedAt(ops, h, i) && forall k :: i < k < |ops| && ops[k].Remove? ==> ops[k].handle != h
  }

  ghost predicate IsLevel<T>(ops: seq<Op<T>>, h: Handle) {
    exists i: nat :: AddedAt(ops, h, i) && ops[i].AddLevel?
  }

  /** The value of the last emit by `h` since it was handed out. */
  function LastEmit<T>(ops: seq<Op<T>>, h: Handle): Option<T> {
    if ops == [] then None
    else
      var before, op := ops[..|ops| - 1], ops[|ops| - 1];
      if op.Emit? && op.handle == h && h < AddsIn(before) then Some(op.value) else LastEmit(before, h)
  }

  ghost function LevelValue<T>(ops: seq<Op<T>>, h: Handle): Option<T> {
    if IsLevel(ops, h) then LastEmit(ops, h) else None
  }

  /** The producer a history leaves selected: the last live one selected or promoted, if it was not removed. */
  ghost function Choice<T>(ops: seq<Op<T>>): Option<Handle> {
    if ops == [] then None
    else
      var before, op := ops[..|ops| - 1], ops[|ops| - 1];
      match op
      case Select(h) => if IsLive(before, h) then Some(h) else Choice(before)
      case Remove(h, fallback) =>
        if Choice(before) != Some(h) then Choice(before)
        else if fallback.Some? && IsLive(ops, fallback.value) then fallback
        else None
      case _ => Choice(before)
  }

  /** What the last operation of a non-empty history adds to the output. */
  ghost function Delivery<T>(ops: seq<Op<T>>): seq<T>
    requires ops != []
  {
    var before, op := ops[..|ops| - 1], ops[|ops| - 1];
    match op
    case Emit(h, value) => if Choice(before) == Some(h) then [value] else []
    case Select(h) => if IsLive(before, h) then Replay(before, h) else []
    case Remove(h, fallback) => if Choice(before) == Some(h) && Choice(ops).Some? then Replay(before, Choice(ops).value) else []
    case _ => []
  }

  ghost function Replay<T>(ops: seq<Op<T>>, h: Handle): seq<T> {
    match LevelValue(ops, h)
    case Some(value) => [value]
    case None => []
  }

  ghost function Deliveries<T>(ops: seq<Op<T>>): seq<T> {
    if ops == [] then [] else Deliveries(ops[..|ops| - 1]) + Delivery(ops)
  }

  // ---- The router agrees with the history ----

  lemma {:induction false} AddsGrow<T>(ops: seq<Op<T>>, i: nat)
    requires i <= |ops|
    ensures AddsIn(ops[..i]) <= AddsIn(ops)
    ensures i < |ops| && (ops[i].AddStream? || ops[i].AddLevel?) ==> AddsIn(ops[..i]) < AddsIn(ops)
  {
    if i == |ops| {
      assert ops[..i] == ops;
    } else {
      var before := ops[..|ops| - 1];
      assert before[..i] == ops[..i];
      AddsGrow(before, i);
    }
  }

  lemma AddedAtExtends<T>(ops: seq<Op<T>>, op: Op<T>, h: Handle, i: nat)
    ensures i < |ops| ==> AddedAt(ops + [op], h, i) == AddedAt(ops, h, i)
    ensures i >= |ops| ==> AddedAt(ops + [op], h, i) == (i == |ops| && (op.AddStream? || op.AddLevel?) && h == AddsIn(ops))
    ensures AddedAt(ops, h, i) ==> h < AddsIn(ops)
  {
    if i < |ops| {
      assert (ops + [op])[..i] == ops[..i];
      AddsGrow(ops, i);
    } else {
      assert (ops + [op])[..|ops|] == ops;
    }
  }

  lemma LiveExtends<T>(ops: seq<Op<T>>, op: Op<T>, h: Handle)
    ensures IsLive(ops + [op], h) <==>
      ((op.AddStream? || op.AddLevel?) && h == AddsIn(ops)) || (IsLive(ops, h) && !(op.Remove? && op.handle == h))
  {
    var all := ops + [op];
    forall i: nat
      ensures i < |ops| ==> AddedAt(all, h, i) == AddedAt(ops, h, i)
      ensures i >= |ops| ==> AddedAt(all, h, i) == (i == |ops| && (op.AddStream? || op.AddLevel?) && h == AddsIn(ops))
    {
      AddedAtExtends(ops, op, h, i);
    }
    if IsLive(ops, h) && !(op.Remove? && op.handle == h) {
      var i: nat :| AddedAt(ops, h, i) && forall k :: i < k < |ops| && ops[k].Remove? ==> ops[k].handle != h;
      assert AddedAt(all, h, i);
    }
    if (op.AddStream? || op.AddLevel?) && h == AddsIn(ops) {
      assert AddedAt(all, h, |ops|);
    }
    if IsLive(all, h) {
      var i: nat :| AddedAt(all, h, i) && forall k :: i < k < |all| && all[k].Remove? ==> all[k].handle != h;
      if i < |ops| {
        assert all[|ops|] == op;
        forall k | i < k < |ops| && ops[k].Remove?
          ensures ops[k].handle != h
        {
          assert all[k] == ops[k];
        }
        assert AddedAt(ops, h, i);
      }
    }
  }

  lemma LevelExtends<T>(ops: seq<Op<T>>, op: Op<T>, h: Handle)
    ensures IsLevel(ops + [op], h) <==> IsLevel(ops, h) || (op.AddLevel? && h == AddsIn(ops))
    ensures IsLevel(ops, h) ==> h < AddsIn(ops)
  {
    var all := ops + [op];
    forall i: nat
      ensures i < |ops| ==> AddedAt(all, h, i) == AddedAt(ops, h, i)
      ensures i >= |ops| ==> AddedAt(all, h, i) == (i == |ops| && (op.AddStream? || op.AddLevel?) && h == AddsIn(ops))
      ensures AddedAt(ops, h, i) ==> h < AddsIn(ops)
    {
      AddedAtExtends(ops, op, h, i);
    }
    if IsLevel(ops, h) {
      var i: nat :| AddedAt(ops, h, i) && ops[i].AddLevel?;
      assert AddedAt(all, h, i);
    }
    if op.AddLevel? && h == AddsIn(ops) {
      assert AddedAt(all, h, |ops|);
    }
    if IsLevel(all, h) {
      var i: nat :| AddedAt(all, h, i) && all[i].AddLevel?;
      if i < |ops| {
        assert AddedAt(ops, h, i) && ops[i].AddLevel?;
      }
    }
  }

  lemma LiveWasAdded<T>(ops: seq<Op<T>>, h: Handle)
    requires IsLive(ops, h)
    ensures h < AddsIn(ops)
  {
    var i: nat :| AddedAt(ops, h, i) && forall k :: i < k < |ops| && ops[k].Remove? ==> ops[k].handle != h;
    AddsGrow(ops, i);
  }

  lemma NoEmitBeforeAdd<T>(ops: seq<Op<T>>, h: Handle)
    requires h >= AddsIn(ops)
    ensures LastEmit(ops, h).None?
  {
  }

  ghost predicate AgreesOn<T>(s: RouterState<T>, ops: seq<Op<T>>, h: Handle) {
    && (h in s.producers <==> IsLive(ops, h))
    && (h in s.producers ==> s.producers[h] == if IsLevel(ops, h) then Level(LastEmit(ops, h)) else Stream)
  }

  ghost predicate Agrees<T>(s: RouterState<T>, ops: seq<Op<T>>) {
    && s.next == AddsIn(ops)
    && (forall h: Handle :: AgreesOn(s, ops, h))
    && s.current == Choice(ops)
    && s.out == Deliveries(ops)
    && (s.current.Some? ==> s.current.value in s.producers)
  }

  lemma ProducersAgree<T>(s: RouterState<T>, ops: seq<Op<T>>, op: Op<T>, h: Handle)
    requires Agrees(s, ops)
    ensures AgreesOn(Apply(s, op), ops + [op], h)
  {
    assert (ops + [op])[..|ops|] == ops;
    assert AgreesOn(s, ops, h);
    LiveExtends(ops, op, h);
    LevelExtends(ops, op, h);
    if h >= AddsIn(ops) {
      NoEmitBeforeAdd(ops, h);
    }
    if IsLive(ops, h) {
      LiveWasAdded(ops, h);
    }
  }

  lemma AllProducersAgree<T>(s: RouterState<T>, ops: seq<Op<T>>, op: Op<T>)
    requires Agrees(s, ops)
    ensures forall h: Handle :: AgreesOn(Apply(s, op), ops + [op], h)
  {
    forall h: Handle
      ensures AgreesOn(Apply(s, op), ops + [op], h)
    {
      ProducersAgree(s, ops, op, h);
    }
  }

  lemma StepAgrees<T>(s: RouterState<T>, ops: seq<Op<T>>, op: Op<T>)
    requires Agrees(s, ops)
    ensures Agrees(Apply(s, op), ops + [op])
  {
    var r, all := Apply(s, op), ops + [op];
    AllProducersAgree(s, ops, op);
    assert all[..|ops|] == ops;
    match op {
      case Select(h) =>
        assert AgreesOn(s, ops, h);
      case Remove(h, fallback) =>
        if fallback.Some? {
          assert AgreesOn(s, ops, fallback.value);
          assert AgreesOn(r, all, fallback.value);
        }
      case _ =>
    }
  }

  /** After any history, the producers, the selection and the whole output are what the history says. */
  lemma {:induction false} RunAgrees<T>(ops: seq<Op<T>>)
    ensures Agrees(Run(ops), ops)
  {
    if ops != [] {
      var before, op := ops[..|ops| - 1], ops[|ops| - 1];
      RunAgrees(before);
      StepAgrees(Run(before), before, op);
      assert before + [op] == ops;
    }
  }

  // ---- Baselines ----

  /** The output's last value is the selected level's value. */
  ghost predicate Baseline<T>(s: RouterState<T>) {
    s.current.Some? && s.current.value in s.producers && s.producers[s.current.value].Level?
    && s.producers[s.current.value].last.Some?
    ==> s.out != [] && s.out[|s.out| - 1] == s.producers[s.current.value].last.value
  }

  ghost predicate RouterInv<T>(s: RouterState<T>) {
    && (forall h :: h in s.producers ==> h < s.next)
    && (s.current.Some? ==> s.current.value in s.producers)
    && Baseline(s)
  }

  lemma ApplyKeepsRouterInv<T>(s: RouterState<T>, op: Op<T>)
    requires RouterInv(s)
    ensures RouterInv(Apply(s, op))
  {
  }

  /** Whenever a level with a value is selected, that value was delivered last. */
  lemma {:induction false} RunKeepsBaseline<T>(ops: seq<Op<T>>)
    ensures RouterInv(Run(ops))
  {
    if ops != [] {
      RunKeepsBaseline(ops[..|ops| - 1]);
      ApplyKeepsRouterInv(Run(ops[..|ops| - 1]), ops[|ops| - 1]);
    }
  }

  // ---- Removed producers ----

  /** The operation is made on behalf of a handle that is not registered. */
  predicate Stale<T>(s: RouterState<T>, op: Op<T>) {
    (op.Select? || op.Remove? || op.Emit?) && op.handle !in s.producers
  }

  lemma StaleIsNoOp<T>(s: RouterState<T>, op: Op<T>)
    requires RouterInv(s) && Stale(s, op)
    ensures Apply(s, op) == s
  {
    assert op.Remove? ==> s.producers - {op.handle} == s.producers;
  }

  lemma RemovedStays<T>(s: RouterState<T>, op: Op<T>, h: Handle)
    requires h < s.next && h !in s.producers
    ensures h < Apply(s, op).next && h !in Apply(s, op).producers
  {
  }

  /** A handle handed out and removed in the first n operations stays removed, whatever follows. */
  lemma {:induction false} RemovedStaysRemoved<T>(ops: seq<Op<T>>, n: nat, h: Handle)
    requires n <= |ops| && h < Run(ops[..n]).next && h !in Run(ops[..n]).producers
    ensures h < Run(ops).next && h !in Run(ops).producers
    decreases |ops|
  {
    if n == |ops| {
      assert ops[..n] == ops;
    } else {
      var before := ops[..|ops| - 1];
      assert before[..n] == ops[..n];
      RemovedStaysRemoved(before, n, h);
      RemovedStays(Run(before), ops[|ops| - 1], h);
    }
  }

  /** The history without the operations made on behalf of removed handles. */
  function Effective<T>(ops: seq<Op<T>>): seq<Op<T>> {
    if ops == [] then []
    else
      var before, op := ops[..|ops| - 1], ops[|ops| - 1];
      Effective(before) + if Stale(Run(before), op) then [] else [op]
  }

  /** Dropping them all changes neither the router nor a single delivered value. */
  lemma {:induction false} StaleOpsDoNotMatter<T>(ops: seq<Op<T>>)
    ensures Run(Effective(ops)) == Run(ops)
  {
    if ops != [] {
      var before, op := ops[..|ops| - 1], ops[|ops| - 1];
      StaleOpsDoNotMatter(before);
      RunKeepsBaseline(before);
      if Stale(Run(before), op) {
        StaleIsNoOp(Run(before), op);
        assert Effective(ops) == Effective(before);
      } else {
        assert Effective(ops)[..|Effective(ops)| - 1] == Effective(before);
      }
    }
  }
}
