/** The registry of surfaces: what is live, the stacking order, and the main surface. */
module SurfaceStacks {
  import opened Options
  import opened Sequences

  /** A surface handle. */
  type Handle = nat

  datatype Registry = Registry(live: seq<Handle>, stack: seq<Handle>, main: Option<Handle>)

  const EMPTY: Registry := Registry([], [], None)

  function First(s: seq<Handle>): Option<Handle> {
    if s == [] then None else Some(s[0])
  }

  /** Removing keeps the first entry, unless it is the one removed. */
  lemma {:induction false} WithoutKeepsFirst(s: seq<Handle>, h: Handle)
    requires s != [] && s[0] != h
    ensures First(Without(s, h)) == Some(s[0])
  {
  }

  datatype Op =
    | AddLive(h: Handle)
    | Remove(h: Handle)
    | ReplaceStack(ordered: seq<Handle>)
    | ClearStack
    | PushStack(h: Handle)
    | SetMainToStackFirst
    | TakeLive
    | TakeStack

  function Applied(r: Registry, op: Op): Registry {
    match op
    case AddLive(h) => r.(live := r.live + [h], main := if r.main.None? then Some(h) else r.main)
    case Remove(h) =>
      var live, stack := Without(r.live, h), Without(r.stack, h);
      Registry(live, stack, if r.main == Some(h) then First(stack + live) else r.main)
    case ReplaceStack(ordered) => r.(stack := ordered, main := First(ordered))
    case ClearStack => r.(stack := [])
    case PushStack(h) => r.(stack := r.stack + [h])
    case SetMainToStackFirst => r.(main := First(r.stack + if r.main.Some? then [r.main.value] else []))
    case TakeLive => EMPTY
    case TakeStack => r.(stack := [], main := None)
  }

  class SurfaceStack {
    var live: seq<Handle>
    var stack: seq<Handle>
    var main: Option<Handle>

    function View(): Registry
      reads this
    {
      Registry(live, stack, main)
    }

    constructor ()
      ensures View() == EMPTY
    {
      live, stack, main := [], [], None;
    }

    method AddLive(h: Handle)
      modifies this
      ensures View() == Applied(old(View()), Op.AddLive(h))
    {
      live := live + [h];
      if main.None? {
        main := Some(h);
      }
    }

    method Remove(h: Handle)
      modifies this
      ensures View() == Applied(old(View()), Op.Remove(h))
      ensures h !in live && h !in stack && main != Some(h)
    {
      live := Without(live, h);
      stack := Without(stack, h);
      if main == Some(h) {
        main := if First(stack).Some? then First(stack) else First(live);
      }
    }

    method ReplaceStack(ordered: seq<Handle>)
      modifies this
      ensures View() == Applied(old(View()), Op.ReplaceStack(ordered))
    {
      stack := [];
      stack := stack + ordered;
      main := First(stack);
    }

    method ClearStack()
      modifies this
      ensures View() == Applied(old(View()), Op.ClearStack)
    {
      stack := [];
    }

    method PushStack(h: Handle)
      modifies this
      ensures View() == Applied(old(View()), Op.PushStack(h))
    {
      stack := stack + [h];
    }

    method SetMainToStackFirst()
      modifies this
      ensures View() == Applied(old(View()), Op.SetMainToStackFirst)
    {
      if stack != [] {
        main := Some(stack[0]);
      }
    }

    predicate IsMain(h: Handle)
      reads this
    {
      main == Some(h)
    }

    method TakeLive() returns (taken: seq<Handle>)
      modifies this
      ensures View() == Applied(old(View()), Op.TakeLive) && taken == old(live)
    {
      stack := [];
      main := None;
      taken := live;
      live := [];
    }

    method TakeStack() returns (taken: seq<Handle>)
      modifies this
      ensures View() == Applied(old(View()), Op.TakeStack) && taken == old(stack)
    {
      main := None;
      taken := stack;
      stack := [];
    }
  }

  function After(ops: seq<Op>): Registry {
    if ops == [] then EMPTY else Applied(After(ops[..|ops| - 1]), ops[|ops| - 1])
  }

  // ---- macOS ----

  predicate MacOp(op: Op) {
    op.ReplaceStack? || op.Remove? || op.TakeStack?
  }

  ghost predicate MacRun(ops: seq<Op>) {
    forall k :: 0 <= k < |ops| ==> MacOp(ops[k])
  }

  /** On macOS the main surface is always the bottom of the stack. */
  lemma {:induction false} MacMainIsBottom(ops: seq<Op>)
    requires MacRun(ops)
    ensures After(ops).live == [] && After(ops).main == First(After(ops).stack)
  {
    if ops != [] {
      var r := After(ops[..|ops| - 1]);
      var op := ops[|ops| - 1];
      MacMainIsBottom(ops[..|ops| - 1]);
      assert MacOp(op);
      if op.Remove? {
        assert Without(r.stack, op.h) + Without([], op.h) == Without(r.stack, op.h);
        if r.stack != [] && r.stack[0] != op.h {
          WithoutKeepsFirst(r.stack, op.h);
        }
      }
    }
  }

  // ---- Windows ----

  predicate WindowsOp(op: Op) {
    op.AddLive? || op.Remove? || op.ClearStack? || op.PushStack? || op.SetMainToStackFirst? || op.TakeLive?
  }

  /** A Windows run that re-parents only live surfaces. */
  ghost predicate WindowsRun(ops: seq<Op>) {
    forall k :: 0 <= k < |ops| ==> WindowsOp(ops[k]) && (ops[k].PushStack? ==> ops[k].h in After(ops[..k]).live)
  }

  ghost predicate WindowsInv(r: Registry) {
    && (forall h :: h in r.stack ==> h in r.live)
    && (r.main.Some? ==> r.main.value in r.live)
    && (r.main.None? ==> r.live == [])
  }

  lemma WindowsStep(r: Registry, op: Op)
    requires WindowsInv(r) && WindowsOp(op) && (op.PushStack? ==> op.h in r.live)
    ensures WindowsInv(Applied(r, op))
  {
    match op
    case SetMainToStackFirst =>
      assert r.stack != [] ==> r.stack[0] in r.stack;
    case _ =>
  }

  /** The main surface is live, and there is one whenever any surface is live. */
  lemma {:induction false} WindowsMainIsLive(ops: seq<Op>)
    requires WindowsRun(ops)
    ensures WindowsInv(After(ops))
    ensures After(ops).main.Some? <==> After(ops).live != []
  {
    if ops != [] {
      var before := ops[..|ops| - 1];
      assert forall k :: 0 <= k < |before| ==> before[k] == ops[k] && before[..k] == ops[..k];
      WindowsMainIsLive(before);
      WindowsStep(After(before), ops[|ops| - 1]);
    }
  }

  /** A surface is live exactly if it was added and neither it was removed nor all were taken since. */
  ghost predicate AddedAndKept(ops: seq<Op>, i: nat, h: Handle) {
    && i < |ops| && ops[i] == AddLive(h)
    && forall k :: i < k < |ops| ==> ops[k] != Remove(h) && !ops[k].TakeLive?
  }

  lemma {:induction false} LiveIff(ops: seq<Op>, h: Handle)
    ensures h in After(ops).live <==> exists i :: AddedAndKept(ops, i, h)
  {
    if ops != [] {
      var before, last := ops[..|ops| - 1], ops[|ops| - 1];
      LiveIff(before, h);
      assert forall k :: 0 <= k < |before| ==> before[k] == ops[k];
      if i: nat :| AddedAndKept(before, i, h) && last != Remove(h) && !last.TakeLive? {
        assert AddedAndKept(ops, i, h);
      }
      if last == AddLive(h) {
        assert AddedAndKept(ops, |before|, h);
      }
      if i: nat :| AddedAndKept(ops, i, h) {
        assert i < |before| ==> AddedAndKept(before, i, h);
      }
    }
  }

  function Pushes(handles: seq<Handle>): seq<Op> {
    if handles == [] then [] else Pushes(handles[..|handles| - 1]) + [PushStack(handles[|handles| - 1])]
  }

  lemma {:induction false} PushesStack(ops: seq<Op>, handles: seq<Handle>)
    ensures After(ops + Pushes(handles)) == After(ops).(stack := After(ops).stack + handles)
  {
    if handles == [] {
      assert ops + [] == ops;
      assert After(ops).stack + [] == After(ops).stack;
    } else {
      var front, last := handles[..|handles| - 1], handles[|handles| - 1];
      PushesStack(ops, front);
      ConcatAssociates(ops, Pushes(front), [PushStack(last)]);
      AfterSnoc(ops + Pushes(front), PushStack(last));
      ConcatAssociates(After(ops).stack, front, [last]);
      assert front + [last] == handles;
    }
  }

  lemma AfterSnoc(ops: seq<Op>, op: Op)
    ensures After(ops + [op]) == Applied(After(ops), op)
  {
    assert (ops + [op])[..|ops|] == ops;
  }

  /** A whole restack leaves exactly the handles pushed, in order, with the bottom one main; an empty restack
      leaves main as it was. */
  lemma Restack(ops: seq<Op>, handles: seq<Handle>)
    ensures var r := After(ops + [ClearStack] + Pushes(handles) + [SetMainToStackFirst]);
      && r.live == After(ops).live && r.stack == handles
      && r.main == if handles == [] then After(ops).main else Some(handles[0])
  {
    AfterSnoc(ops, ClearStack);
    PushesStack(ops + [ClearStack], handles);
    AfterSnoc(ops + [ClearStack] + Pushes(handles), SetMainToStackFirst);
    assert [] + handles == handles;
  }

  function Restacked(ops: seq<Op>, handles: seq<Handle>): Registry {
    After(ops + [ClearStack] + Pushes(handles) + [SetMainToStackFirst])
  }

  /** From a state that keeps the invariant a restack keeps it exactly if every handle pushed is live. */
  lemma RestackKeepsInvIff(ops: seq<Op>, handles: seq<Handle>)
    requires WindowsInv(After(ops))
    ensures WindowsInv(Restacked(ops, handles)) <==> forall h :: h in handles ==> h in After(ops).live
  {
    Restack(ops, handles);
  }

  /** The main surface is still live after a restack exactly if the bottom handle pushed, if any, is live. */
  lemma RestackKeepsMainLiveIff(ops: seq<Op>, handles: seq<Handle>)
    requires WindowsInv(After(ops))
    ensures var r := Restacked(ops, handles);
      (r.main.Some? ==> r.main.value in r.live) <==> handles == [] || handles[0] in After(ops).live
  {
    Restack(ops, handles);
  }

  /** A dead handle at the bottom of a restack becomes main. */
  lemma DeadBottomBecomesMain(ops: seq<Op>, handles: seq<Handle>)
    requires handles != [] && handles[0] !in After(ops).live
    ensures var r := Restacked(ops, handles); r.main == Some(handles[0]) && r.main.value !in r.live
  {
    Restack(ops, handles);
  }

  // ---- The lists and the main surface after any run ----

  datatype List = Live | Stacked

  function Brings(op: Op, list: List): seq<Handle> {
    match (op, list)
    case (AddLive(h), Live) => [h]
    case (PushStack(h), Stacked) => [h]
    case (ReplaceStack(ordered), Stacked) => ordered
    case _ => []
  }

  predicate Empties(op: Op, list: List) {
    op.TakeLive? || (list.Stacked? && (op.ClearStack? || op.ReplaceStack? || op.TakeStack?))
  }

  /** What operation i brought under the handle is still there: since then neither the surface was removed nor
      the list emptied. */
  ghost predicate StillThere(ops: seq<Op>, i: nat, h: Handle, list: List) {
    forall k :: i < k < |ops| ==> ops[k] != Remove(h) && !Empties(ops[k], list)
  }

  ghost function Left(ops: seq<Op>, i: nat, brought: seq<Handle>, list: List): seq<Handle> {
    if brought == [] then []
    else (if StillThere(ops, i, brought[0], list) then [brought[0]] else []) + Left(ops, i, brought[1..], list)
  }

  /** What is left of all that the first `n` operations brought, in order. */
  ghost function Holdings(ops: seq<Op>, n: nat, list: List): seq<Handle>
    requires n <= |ops|
  {
    if n == 0 then [] else Holdings(ops, n - 1, list) + Left(ops, n - 1, Brings(ops[n - 1], list), list)
  }

  /** What one more operation leaves of a list. */
  function Reduced(s: seq<Handle>, op: Op, list: List): seq<Handle> {
    if Empties(op, list) then [] else if op.Remove? then Without(s, op.h) else s
  }

  lemma ReducedConcat(a: seq<Handle>, b: seq<Handle>, op: Op, list: List)
    ensures Reduced(a + b, op, list) == Reduced(a, op, list) + Reduced(b, op, list)
  {
    if op.Remove? {
      WithoutConcat(a, b, op.h);
    }
  }

  lemma StillThereExtends(ops: seq<Op>, op: Op, i: nat, h: Handle, list: List)
    requires i < |ops|
    ensures StillThere(ops + [op], i, h, list) <==> StillThere(ops, i, h, list) && op != Remove(h) && !Empties(op, list)
  {
    var all := ops + [op];
    assert all[|ops|] == op;
    assert forall k :: i < k < |ops| ==> all[k] == ops[k];
  }

  lemma {:induction false} LeftExtends(ops: seq<Op>, op: Op, i: nat, brought: seq<Handle>, list: List)
    requires i < |ops|
    ensures Left(ops + [op], i, brought, list) == Reduced(Left(ops, i, brought, list), op, list)
  {
    if brought != [] {
      StillThereExtends(ops, op, i, brought[0], list);
      LeftExtends(ops, op, i, brought[1..], list);
      var first := if StillThere(ops, i, brought[0], list) then [brought[0]] else [];
      ReducedConcat(first, Left(ops, i, brought[1..], list), op, list);
    }
  }

  lemma SumReduces(a: seq<Handle>, b: seq<Handle>, c: seq<Handle>, d: seq<Handle>, op: Op, list: List)
    requires c == Reduced(a, op, list) && d == Reduced(b, op, list)
    ensures c + d == Reduced(a + b, op, list)
  {
    ReducedConcat(a, b, op, list);
  }

  lemma HoldingsStep(ops: seq<Op>, n: nat, list: List)
    requires 0 < n <= |ops|
    ensures Holdings(ops, n, list) == Holdings(ops, n - 1, list) + Left(ops, n - 1, Brings(ops[n - 1], list), list)
  {
  }

  lemma {:induction false} HoldingsExtend(ops: seq<Op>, op: Op, n: nat, list: List)
    requires n <= |ops|
    ensures Holdings(ops + [op], n, list) == Reduced(Holdings(ops, n, list), op, list)
  {
    if n > 0 {
      HoldingsExtend(ops, op, n - 1, list);
      var brought := Brings(ops[n - 1], list);
      assert (ops + [op])[n - 1] == ops[n - 1];
      LeftExtends(ops, op, n - 1, brought, list);
      var left, more := Left(ops, n - 1, brought, list), Left(ops + [op], n - 1, brought, list);
      SumReduces(Holdings(ops, n - 1, list), left, Holdings(ops + [op], n - 1, list), more, op, list);
      HoldingsStep(ops, n, list);
      HoldingsStep(ops + [op], n, list);
    }
  }

  lemma {:induction false} AllLeft(ops: seq<Op>, i: nat, brought: seq<Handle>, list: List)
    requires i + 1 == |ops|
    ensures Left(ops, i, brought, list) == brought
  {
    if brought != [] {
      AllLeft(ops, i, brought[1..], list);
    }
  }

  lemma HoldingsSnoc(ops: seq<Op>, op: Op, list: List)
    ensures Holdings(ops + [op], |ops| + 1, list) == Reduced(Holdings(ops, |ops|, list), op, list) + Brings(op, list)
  {
    HoldingsExtend(ops, op, |ops|, list);
    AllLeft(ops + [op], |ops|, Brings(op, list), list);
  }

  lemma AppliedLists(r: Registry, op: Op)
    ensures Applied(r, op).live == Reduced(r.live, op, Live) + Brings(op, Live)
    ensures Applied(r, op).stack == Reduced(r.stack, op, Stacked) + Brings(op, Stacked)
  {
  }

  /** After any run live surfaces and stack are what is left of what was brought, in the order it came. */
  lemma {:induction false} ListsAreHoldings(ops: seq<Op>)
    ensures After(ops).live == Holdings(ops, |ops|, Live) && After(ops).stack == Holdings(ops, |ops|, Stacked)
  {
    if ops != [] {
      var before, op := ops[..|ops| - 1], ops[|ops| - 1];
      ListsAreHoldings(before);
      assert before + [op] == ops;
      AppliedLists(After(before), op);
      HoldingsSnoc(before, op, Live);
      HoldingsSnoc(before, op, Stacked);
    }
  }

  /** Where the main surface is removed the bottom of the stack that is left becomes main, or, with nothing
      stacked, the live surface added first; any other removal leaves main as it was. */
  lemma RemovalPromotes(ops: seq<Op>, h: Handle)
    ensures var all := ops + [Remove(h)];
      var stack, live := Holdings(all, |all|, Stacked), Holdings(all, |all|, Live);
      After(all).main ==
        if After(ops).main != Some(h) then After(ops).main
        else if stack != [] then Some(stack[0])
        else if live != [] then Some(live[0])
        else None
  {
    ListsAreHoldings(ops + [Remove(h)]);
    AfterSnoc(ops, Remove(h));
  }

  predicate MovesMain(op: Op, main: Handle) {
    op == Remove(main) || op.ReplaceStack? || op.SetMainToStackFirst? || op.TakeLive? || op.TakeStack?
  }

  /** A main surface stays main until it is removed, a new order names another, or all are taken: no surface that
      is added later replaces it. */
  lemma {:induction false} MainStays(ops: seq<Op>, from: nat, main: Handle)
    requires from <= |ops| && After(ops[..from]).main == Some(main)
    requires forall k :: from <= k < |ops| ==> !MovesMain(ops[k], main)
    ensures After(ops).main == Some(main)
  {
    if from == |ops| {
      assert ops[..from] == ops;
    } else {
      var before := ops[..|ops| - 1];
      assert before[..from] == ops[..from];
      MainStays(before, from, main);
      assert !MovesMain(ops[|ops| - 1], main);
    }
  }
}
