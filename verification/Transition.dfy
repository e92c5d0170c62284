/** The gate that holds back main-surface frames while a window is being resized (the entry points of Windows,
    and of X11, which begins a transition whether or not one is in progress). */
module Transition {
  import opened Options

  datatype Size = Size(width: int, height: int)
  {
    predicate Positive() { width > 0 && height > 0 }
  }

  datatype Decision = Reject | EndTransitionThenPresent | Present

  datatype Gate = Gate(inTransition: bool, expected: Option<Size>, captured: Option<Size>)

  const IDLE: Gate := Gate(false, None, None)

  // ---- The gate in place ----

  /** `Begin` is the begin that an unfinished transition ignores, `Capture` the one that it does not. */
  datatype Op =
    | Begin(size: Size)
    | Capture(size: Size)
    | End
    | SetExpected(size: Size)
    | NoteWindow(size: Size, force: bool)
    | Frame(size: Size)

  /** Whether an operation ends a transition that captured `captured`. */
  predicate Closes(op: Op, captured: Option<Size>) {
    match op
    case Begin(_) => false
    case Capture(_) => false
    case End => true
    case SetExpected(_) => false
    case NoteWindow(size, force) => size.Positive() && (force || captured != Some(size))
    case Frame(size) => size.Positive() && captured != Some(size)
  }

  function Applied(g: Gate, op: Op): Gate {
    if op.Capture? then Gate(true, g.expected, Some(op.size))
    else if g.inTransition then
      if Closes(op, g.captured) then IDLE
      else if op.SetExpected? && g.captured != Some(op.size) then g.(expected := Some(op.size))
      else g
    else
      match op
      case Begin(size) => Gate(true, g.expected, Some(size))
      case SetExpected(size) => g.(expected := Some(size))
      case End => IDLE
      case _ => g
  }

  class TransitionGate {
    var inTransition: bool
    var expected: Option<Size>
    var captured: Option<Size>

    function View(): Gate
      reads this
    {
      Gate(inTransition, expected, captured)
    }

    constructor ()
      ensures View() == IDLE
    {
      inTransition, expected, captured := false, None, None;
    }

    method BeginCapturing(size: Size)
      modifies this
      ensures View() == Applied(old(View()), Capture(size))
    {
      inTransition := true;
      captured := Some(size);
    }

    method BeginCapturingIfIdle(size: Size) returns (began: bool)
      modifies this
      ensures View() == Applied(old(View()), Begin(size)) && (began <==> !old(inTransition))
    {
      if inTransition {
        return false;
      }
      BeginCapturing(size);
      began := true;
    }

    method End()
      modifies this
      ensures View() == IDLE == Applied(old(View()), Op.End)
    {
      inTransition, expected, captured := false, None, None;
    }

    method SetExpected(size: Size)
      modifies this
      ensures View() == Applied(old(View()), Op.SetExpected(size))
    {
      if inTransition && captured == Some(size) {
        return;
      }
      expected := Some(size);
    }

    method NoteWindowSize(size: Size, forceEnd: bool) returns (ended: bool)
      modifies this
      ensures View() == Applied(old(View()), NoteWindow(size, forceEnd))
      ensures ended <==> old(inTransition) && !inTransition
    {
      if !inTransition || size.width <= 0 || size.height <= 0 {
        return false;
      }
      if forceEnd || captured != Some(size) {
        End();
        return true;
      }
      ended := false;
    }

    method MainPresentDecision(frame: Size) returns (decision: Decision)
      modifies this
      ensures View() == Applied(old(View()), Frame(frame)) && decision == Decided(old(View()), frame)
    {
      if !inTransition {
        return Present;
      }
      if frame.width <= 0 || frame.height <= 0 || captured == Some(frame) {
        return Reject;
      }
      End();
      decision := EndTransitionThenPresent;
    }
  }

  /** What is done with a frame: presented as it is, rejected, or presented as the first of the new size. */
  function Decided(g: Gate, frame: Size): Decision {
    if !g.inTransition then Present
    else if Closes(Frame(frame), g.captured) then EndTransitionThenPresent
    else Reject
  }

  // ---- Runs ----

  function After(ops: seq<Op>): Gate {
    if ops == [] then IDLE else Applied(After(ops[..|ops| - 1]), ops[|ops| - 1])
  }

  predicate IsBegin(op: Op) { op.Begin? || op.Capture? }

  /** Begins of a transition, from the idle gate. */
  function Begins(ops: seq<Op>): nat {
    if ops == [] then 0
    else
      var before := ops[..|ops| - 1];
      Begins(before) + if IsBegin(ops[|ops| - 1]) && !After(before).inTransition then 1 else 0
  }

  /** Operations that ended a transition. */
  function Ends(ops: seq<Op>): nat {
    if ops == [] then 0
    else
      var before := ops[..|ops| - 1];
      Ends(before) + if After(before).inTransition && !After(ops).inTransition then 1 else 0
  }

  /** Begins and ends alternate. */
  lemma {:induction false} BeginsBalanceEnds(ops: seq<Op>)
    ensures Begins(ops) - Ends(ops) == if After(ops).inTransition then 1 else 0
  {
    if ops != [] {
      BeginsBalanceEnds(ops[..|ops| - 1]);
    }
  }

  /** Operation b sets the captured size: a begin in the idle gate, or one that does not ask. */
  ghost predicate Captures(ops: seq<Op>, b: nat)
    requires b < |ops|
  {
    ops[b].Capture? || (ops[b].Begin? && !After(ops[..b]).inTransition)
  }

  /** The operation leaves a transition that captured `size` as it is: begins that ask and expected sizes do, a
      frame or window size only if it is empty or the one captured, and a forced window size never. */
  predicate Spares(op: Op, size: Size) {
    match op
    case Begin(_) => true
    case Capture(_) => false
    case End => false
    case SetExpected(_) => true
    case NoteWindow(s, force) => s.width <= 0 || s.height <= 0 || (s == size && !force)
    case Frame(s) => s.width <= 0 || s.height <= 0 || s == size
  }

  /** Operation b captured the size of the transition in progress: all since spare it. */
  ghost predicate OpenSince(ops: seq<Op>, b: nat) {
    && b < |ops| && Captures(ops, b)
    && forall k :: b < k < |ops| ==> Spares(ops[k], ops[b].size)
  }

  lemma OpenExtends(ops: seq<Op>, b: nat)
    requires ops != [] && OpenSince(ops[..|ops| - 1], b)
    requires Spares(ops[|ops| - 1], ops[b].size)
    ensures OpenSince(ops, b)
  {
    assert ops[..|ops| - 1][..b] == ops[..b];
    assert forall k :: b < k < |ops| - 1 ==> ops[..|ops| - 1][k] == ops[k];
  }

  /** The size captured is that of the begin, from the begin on, and nothing else is ever captured. */
  lemma {:induction false} OpenedAt(ops: seq<Op>) returns (b: nat)
    ensures After(ops).inTransition ==> OpenSince(ops, b) && After(ops).captured == Some(ops[b].size)
    ensures !After(ops).inTransition ==> After(ops).captured == None
  {
    b := 0;
    if ops != [] {
      var before := ops[..|ops| - 1];
      b := OpenedAt(before);
      if ops[|before|].Capture? || !After(before).inTransition {
        b := |before|;
      } else if After(ops).inTransition {
        assert ops[b] == before[b];
        OpenExtends(ops, b);
      }
    }
  }

  lemma {:induction false} OpenHolds(ops: seq<Op>, b: nat)
    requires OpenSince(ops, b)
    ensures After(ops).inTransition && After(ops).captured == Some(ops[b].size)
  {
    var before := ops[..|ops| - 1];
    if b < |before| {
      assert before[..b] == ops[..b];
      assert forall k :: b < k < |before| ==> before[k] == ops[k];
      OpenHolds(before, b);
    } else {
      assert before == ops[..b];
    }
  }

  /** In transition exactly from a begin until an operation closes it; a captured size exists exactly then. */
  lemma InTransitionIff(ops: seq<Op>)
    ensures After(ops).inTransition <==> exists b :: OpenSince(ops, b)
    ensures After(ops).inTransition <==> After(ops).captured.Some?
  {
    var b := OpenedAt(ops);
    if c :| OpenSince(ops, c) {
      OpenHolds(ops, c);
    }
  }

  /** The captured size changes only where an operation captures anew, on Windows never within a transition. */
  lemma CapturedIsKept(ops: seq<Op>, b: nat, n: nat)
    requires OpenSince(ops, b) && b < n <= |ops|
    ensures OpenSince(ops[..n], b) && After(ops[..n]).inTransition
    ensures After(ops[..n]).captured == After(ops).captured == Some(ops[b].size)
  {
    assert ops[..n][..b] == ops[..b];
    assert forall k :: b < k < n ==> ops[..n][k] == ops[k];
    OpenHolds(ops[..n], b);
    OpenHolds(ops, b);
  }

  /** A frame that arrives during a transition is let through exactly if it is positive and not of the size
      captured at the begin; and then the transition is over. */
  lemma FrameDuringTransition(ops: seq<Op>, b: nat, frame: Size)
    requires OpenSince(ops, b)
    ensures Decided(After(ops), frame) != Present
    ensures Decided(After(ops), frame) == EndTransitionThenPresent <==> frame.Positive() && frame != ops[b].size
    ensures After(ops + [Frame(frame)]) == if Decided(After(ops), frame).Reject? then After(ops) else IDLE
  {
    OpenHolds(ops, b);
    assert (ops + [Frame(frame)])[..|ops|] == ops;
  }

  /** Without a transition every frame is presented as it is, and no frame is during one. */
  lemma PresentedAsIsIff(ops: seq<Op>, frame: Size)
    ensures Decided(After(ops), frame) == Present <==> forall b: nat :: !OpenSince(ops, b)
    ensures (forall b: nat :: !OpenSince(ops, b)) ==> After(ops + [Frame(frame)]) == After(ops)
  {
    InTransitionIff(ops);
    assert (ops + [Frame(frame)])[..|ops|] == ops;
  }

  /** The gate never strands: whatever came before, one positive frame of a size other than the captured one is
      presented and leaves the gate idle. */
  lemma NewSizeRecovers(ops: seq<Op>, frame: Size)
    requires frame.Positive() && After(ops).captured != Some(frame)
    ensures !Decided(After(ops), frame).Reject? && !After(ops + [Frame(frame)]).inTransition
  {
    InTransitionIff(ops);
    assert (ops + [Frame(frame)])[..|ops|] == ops;
  }

  // ---- Beginning anew within a transition ----

  /** What a frame then meets is the size captured last: a late frame of the size captured first ends the
      transition exactly if the begin that captured last captured another size. */
  lemma FrameOfFirstSizeIff(ops: seq<Op>, first: nat, b: nat)
    requires first <= b && OpenSince(ops, b) && IsBegin(ops[first]) && ops[first].size.Positive()
    ensures Decided(After(ops), ops[first].size) == EndTransitionThenPresent <==> ops[b].size != ops[first].size
  {
    FrameDuringTransition(ops, b, ops[first].size);
  }

  /** The Windows begin never does that, so there such a frame is always rejected. */
  lemma WindowsRejectsFirstSize(ops: seq<Op>, first: nat, b: nat)
    requires first <= b && OpenSince(ops, b) && ops[first].Begin? && ops[first].size.Positive()
    requires forall k :: 0 <= k < |ops| ==> !ops[k].Capture?
    requires forall n :: first < n <= b ==> After(ops[..n]).inTransition
    ensures b == first && Decided(After(ops), ops[first].size) == Reject
  {
    FrameDuringTransition(ops, b, ops[first].size);
  }

  /** The operations of a window resized through the sizes given, one after another: each resize captures the
      size before it and expects the size after it. */
  function Resizes(sizes: seq<Size>): seq<Op> {
    if |sizes| < 2 then []
    else Resizes(sizes[..|sizes| - 1]) + [Capture(sizes[|sizes| - 2]), SetExpected(sizes[|sizes| - 1])]
  }

  /** Whatever came before, other resizes and frames included, the last resize alone arms the gate. */
  lemma ResizeArms(ops: seq<Op>, was: Size, now: Size)
    requires was != now
    ensures After(ops + [Capture(was), SetExpected(now)]) == Gate(true, Some(now), Some(was))
  {
    var all := ops + [Capture(was), SetExpected(now)];
    assert all[..|all| - 1] == ops + [Capture(was)];
    assert (ops + [Capture(was)])[..|ops|] == ops;
  }

  lemma ResizesArm(ops: seq<Op>, sizes: seq<Size>)
    requires |sizes| >= 2 && sizes[|sizes| - 2] != sizes[|sizes| - 1]
    ensures After(ops + Resizes(sizes)) == Gate(true, Some(sizes[|sizes| - 1]), Some(sizes[|sizes| - 2]))
  {
    var front := Resizes(sizes[..|sizes| - 1]);
    var last := [Capture(sizes[|sizes| - 2]), SetExpected(sizes[|sizes| - 1])];
    ResizeArms(ops + front, sizes[|sizes| - 2], sizes[|sizes| - 1]);
    assert ops + (front + last) == (ops + front) + last;
  }

  /** After a series of resizes a positive frame is dropped exactly if it has the size before the last one. */
  lemma ResizesDropIff(ops: seq<Op>, sizes: seq<Size>, frame: Size)
    requires |sizes| >= 2 && sizes[|sizes| - 2] != sizes[|sizes| - 1] && frame.Positive()
    ensures Decided(After(ops + Resizes(sizes)), frame) == Reject <==> frame == sizes[|sizes| - 2]
    ensures Decided(After(ops + Resizes(sizes)), frame) == EndTransitionThenPresent <==> frame != sizes[|sizes| - 2]
  {
    ResizesArm(ops, sizes);
  }

  /** The gate drops exactly the stale ones among frames of the sizes passed through, if and only if every size
      before the last two is one of those: certainly after one resize, not after two to sizes all different. */
  lemma StaleFramesDroppedIff(ops: seq<Op>, sizes: seq<Size>)
    requires |sizes| >= 2 && sizes[|sizes| - 2] != sizes[|sizes| - 1]
    requires forall i :: 0 <= i < |sizes| ==> sizes[i].Positive()
    ensures var was, now := sizes[|sizes| - 2], sizes[|sizes| - 1];
      (forall i :: 0 <= i < |sizes| ==> (Decided(After(ops + Resizes(sizes)), sizes[i]) == Reject <==> sizes[i] != now))
      <==> (forall i :: 0 <= i < |sizes| ==> sizes[i] == was || sizes[i] == now)
  {
    forall i | 0 <= i < |sizes|
      ensures Decided(After(ops + Resizes(sizes)), sizes[i]) == Reject <==> sizes[i] == sizes[|sizes| - 2]
    {
      ResizesDropIff(ops, sizes, sizes[i]);
    }
  }

  /** Two resizes, the second begun before a frame of the first came: a frame of the first size is presented. */
  lemma LateFrameIsPresented(a: Size, b: Size, c: Size)
    requires a.Positive() && a != b && b != c
    ensures Decided(After(Resizes([a, b, c])), a) == EndTransitionThenPresent
  {
    ResizesDropIff([], [a, b, c], a);
    assert [] + Resizes([a, b, c]) == Resizes([a, b, c]);
  }

  // ---- The expected size ----

  lemma AfterThree(a: Op, b: Op, c: Op)
    ensures After([a, b, c]) == Applied(Applied(Applied(IDLE, a), b), c)
  {
    assert [a][..0] == [];
    assert After([a]) == Applied(IDLE, a);
    assert [a, b][..1] == [a];
    assert After([a, b]) == Applied(Applied(IDLE, a), b);
    assert [a, b, c][..2] == [a, b];
  }

  /** Arming the gate on the captured size is ruled out while transitioning; but a begin within a transition
      can capture the size that is armed, as the X11 `begin_transition` does behind a resize. The gate then
      rejects the size it waits for, and lets the first one through. */
  lemma ExpectedCanBeCaptured(a: Size, b: Size)
    requires a.Positive() && a != b
    ensures var g := After([Capture(a), SetExpected(b), Capture(b)]);
      && g.inTransition && g.expected == g.captured == Some(b)
      && Decided(g, b) == Reject && Decided(g, a) == EndTransitionThenPresent
  {
    AfterThree(Capture(a), SetExpected(b), Capture(b));
  }

  ghost predicate NoOtherArmed(ops: seq<Op>, b: nat)
    requires b < |ops| && IsBegin(ops[b])
  {
    forall k :: b < k < |ops| && ops[k].SetExpected? ==> ops[k].size == ops[b].size
  }

  /** The expected size equals the captured one exactly if it was armed before the begin that captured it, and
      no other was armed since. */
  lemma {:induction false} ExpectedIsCapturedIff(ops: seq<Op>, b: nat)
    requires OpenSince(ops, b)
    ensures After(ops).expected == Some(ops[b].size) <==>
            After(ops[..b]).expected == Some(ops[b].size) && NoOtherArmed(ops, b)
  {
    var before, last := ops[..|ops| - 1], ops[|ops| - 1];
    if b < |before| {
      CapturedIsKept(ops, b, |before|);
      assert ops[..|before|] == before;
      assert before[..b] == ops[..b] && before[b] == ops[b];
      ExpectedIsCapturedIff(before, b);
      assert forall k :: b < k < |before| ==> before[k] == ops[k];
      assert NoOtherArmed(ops, b) <==> NoOtherArmed(before, b) && (last.SetExpected? ==> last.size == ops[b].size);
    } else {
      assert before == ops[..b];
    }
  }

  /** A transition is in progress that captured the size. */
  ghost predicate Capturing(ops: seq<Op>, size: Size) {
    exists b: nat :: OpenSince(ops, b) && ops[b].size == size
  }

  lemma CapturingIff(ops: seq<Op>, size: Size)
    ensures Capturing(ops, size) <==> After(ops).captured == Some(size)
  {
    var b := OpenedAt(ops);
    if c: nat :| OpenSince(ops, c) && ops[c].size == size {
      OpenHolds(ops, c);
    }
  }

  /** Operation k arms the gate: its size is not the one captured. */
  ghost predicate Arms(ops: seq<Op>, k: nat)
    requires k < |ops|
  {
    ops[k].SetExpected? && !Capturing(ops[..k], ops[k].size)
  }

  /** Operation k ends a transition, or ends nothing outright. */
  ghost predicate Disarms(ops: seq<Op>, k: nat)
    requires k < |ops|
  {
    ops[k].End? || (!ops[k].Capture? && exists size :: Capturing(ops[..k], size) && !Spares(ops[k], size))
  }

  ghost predicate ArmedAt(ops: seq<Op>, a: nat) {
    a < |ops| && Arms(ops, a) && forall k :: a < k < |ops| ==> !Arms(ops, k) && !Disarms(ops, k)
  }

  lemma ExpectedStep(ops: seq<Op>)
    requires ops != []
    ensures var before, last := ops[..|ops| - 1], |ops| - 1;
      After(ops).expected ==
        if Arms(ops, last) then Some(ops[last].size) else if Disarms(ops, last) then None else After(before).expected
  {
    var before, op := ops[..|ops| - 1], ops[|ops| - 1];
    InTransitionIff(before);
    forall size ensures Capturing(before, size) <==> After(before).captured == Some(size) {
      CapturingIff(before, size);
    }
  }

  lemma ArmedAtExtends(ops: seq<Op>, a: nat)
    requires a + 1 < |ops|
    ensures var last := |ops| - 1;
      ArmedAt(ops, a) <==> ArmedAt(ops[..last], a) && !Arms(ops, last) && !Disarms(ops, last)
  {
    var before := ops[..|ops| - 1];
    forall k: nat | k < |before|
      ensures (Arms(before, k) <==> Arms(ops, k)) && (Disarms(before, k) <==> Disarms(ops, k))
    {
      assert before[..k] == ops[..k];
    }
  }

  /** After any run the expected size is that of the last operation that armed the gate, unless an end came since. */
  lemma {:induction false} ExpectedIff(ops: seq<Op>, size: Size)
    ensures After(ops).expected == Some(size) <==> exists a: nat :: ArmedAt(ops, a) && ops[a].size == size
  {
    if ops != [] {
      var before, last := ops[..|ops| - 1], |ops| - 1;
      ExpectedIff(before, size);
      ExpectedStep(ops);
      if a: nat :| ArmedAt(ops, a) && ops[a].size == size && a < last {
        ArmedAtExtends(ops, a);
      }
      if a: nat :| ArmedAt(before, a) && before[a].size == size {
        ArmedAtExtends(ops, a);
      }
      assert ArmedAt(ops, last) <==> Arms(ops, last);
    }
  }
}
