/** The control-plane thread: its message queue, its wake event and the lifecycle it drives. */
module Manager {
  import opened Sequences

  datatype Msg = SetVisible(visible: bool) | Suspend | Resume | Shutdown

  datatype Lifecycle = Running | Hidden | Suspended | ShuttingDown

  /** Hide and show every browser; run the shutdown drain. */
  datatype Effect = Hide | Show | RunShutdown

  // ---- The lifecycle ----

  function Moved(state: Lifecycle, msg: Msg): Lifecycle {
    match (state, msg)
    case (ShuttingDown, _) => ShuttingDown
    case (_, Shutdown) => ShuttingDown
    case (Running, SetVisible(false)) => Hidden
    case (Hidden, SetVisible(true)) => Running
    case (Running, Suspend) => Suspended
    case (Hidden, Suspend) => Suspended
    case (Suspended, Resume) => Running
    case _ => state
  }

  function EffectsOf(state: Lifecycle, msg: Msg): seq<Effect> {
    match (state, msg)
    case (ShuttingDown, _) => []
    case (_, Shutdown) => [RunShutdown]
    case (Running, SetVisible(false)) => [Hide]
    case (Hidden, SetVisible(true)) => [Show]
    case (Running, Suspend) => [Hide]
    case (Suspended, Resume) => [Show]
    case _ => []
  }

  method Transition(state: Lifecycle, msg: Msg, done: seq<Effect>) returns (next: Lifecycle, effects: seq<Effect>)
    ensures next == Moved(state, msg)
    ensures effects == done + EffectsOf(state, msg)
  {
    effects := done;
    if state.ShuttingDown? {
      next := ShuttingDown;
    } else if msg.Shutdown? {
      effects := effects + [RunShutdown];
      next := ShuttingDown;
    } else if state.Running? && msg == SetVisible(false) {
      effects := effects + [Hide];
      next := Hidden;
    } else if state.Hidden? && msg == SetVisible(true) {
      effects := effects + [Show];
      next := Running;
    } else if (state.Running? || state.Hidden?) && msg.Suspend? {
      if state.Running? {
        effects := effects + [Hide];
      }
      next := Suspended;
    } else if state.Suspended? && msg.Resume? {
      effects := effects + [Show];
      next := Running;
    } else {
      next := state;
    }
  }

  /** The state after a batch; what follows a shutdown is not looked at. */
  function MovedAll(state: Lifecycle, work: seq<Msg>): Lifecycle
    decreases |work|
  {
    if work == [] || state.ShuttingDown? then state else MovedAll(Moved(state, work[0]), work[1..])
  }

  function AllEffects(state: Lifecycle, work: seq<Msg>): seq<Effect>
    decreases |work|
  {
    if work == [] || state.ShuttingDown? then [] else EffectsOf(state, work[0]) + AllEffects(Moved(state, work[0]), work[1..])
  }

  /** One batch of the manager's loop; `exit` tells that the loop returns. */
  method HandleBatch(state: Lifecycle, work: seq<Msg>, done: seq<Effect>)
    returns (next: Lifecycle, effects: seq<Effect>, exit: bool)
    requires !state.ShuttingDown?
    ensures next == MovedAll(state, work) && effects == done + AllEffects(state, work)
    ensures exit <==> next.ShuttingDown?
  {
    next, effects := state, done;
    for i := 0 to |work|
      invariant !next.ShuttingDown?
      invariant MovedAll(next, work[i..]) == MovedAll(state, work)
      invariant effects + AllEffects(next, work[i..]) == done + AllEffects(state, work)
    {
      assert work[i..][1..] == work[i + 1..];
      ghost var rest := AllEffects(Moved(next, work[i]), work[i + 1..]);
      assert effects + (EffectsOf(next, work[i]) + rest) == (effects + EffectsOf(next, work[i])) + rest;
      next, effects := Transition(next, work[i], effects);
      if next.ShuttingDown? {
        return next, effects, true;
      }
    }
    exit := false;
  }

  // ---- The threads ----

  datatype Sender = Idle | Pushed

  datatype Signaller = NotCalled | Flagged | Signalled

  datatype Loop = AtWait | AtDrain | AtTake | Handling(work: seq<Msg>) | Exited

  /** `enqueued` and `handled` record what went into the queue and what was handled, in order. */
  datatype State = State(
    queue: seq<Msg>,
    wake: bool,
    flag: bool,
    senders: seq<Sender>,
    signaller: Signaller,
    loop: Loop,
    life: Lifecycle,
    enqueued: seq<Msg>,
    handled: seq<Msg>,
    effects: seq<Effect>)

  datatype Step =
    | Push(t: nat, msg: Msg)
    | Signal(t: nat)
    | RaiseFlag
    | NotifyShutdown
    | Wait
    | DrainWake
    | Take
    | Handle
  {
    predicate Internal() { !Push? && !RaiseFlag? }
  }

  function Initial(senders: nat): State {
    State([], false, false, seq(senders, _ => Idle), NotCalled, AtWait, Running, [], [], [])
  }

  predicate Enabled(s: State, step: Step) {
    match step
    case Push(t, _) => t < |s.senders| && s.senders[t].Idle?
    case Signal(t) => t < |s.senders| && s.senders[t].Pushed?
    case RaiseFlag => s.signaller.NotCalled?
    case NotifyShutdown => s.signaller.Flagged?
    case Wait => s.loop.AtWait? && s.wake
    case DrainWake => s.loop.AtDrain?
    case Take => s.loop.AtTake?
    case Handle => s.loop.Handling?
  }

  function Apply(s: State, step: Step): State
    requires Enabled(s, step)
  {
    match step
    case Push(t, msg) => s.(queue := s.queue + [msg], enqueued := s.enqueued + [msg], senders := s.senders[t := Pushed])
    case Signal(t) => s.(wake := true, senders := s.senders[t := Idle])
    case RaiseFlag => s.(flag := true, signaller := Flagged)
    case NotifyShutdown => s.(wake := true, signaller := Signalled)
    case Wait => s.(loop := AtDrain)
    case DrainWake => s.(wake := false, loop := AtTake)
    case Take =>
      var extra := if s.flag && !s.life.ShuttingDown? then [Shutdown] else [];
      s.(queue := [], enqueued := s.enqueued + extra, loop := Handling(s.queue + extra))
    case Handle =>
      if s.loop.work == [] then s.(loop := AtWait)
      else
        var msg := s.loop.work[0];
        var next := Moved(s.life, msg);
        s.(life := next, effects := s.effects + EffectsOf(s.life, msg), handled := s.handled + [msg],
           loop := if next.ShuttingDown? then Exited else Handling(s.loop.work[1..]))
  }

  ghost predicate IsRun(states: seq<State>, steps: seq<Step>) {
    && |states| == |steps| + 1
    && (exists n :: states[0] == Initial(n))
    && forall i :: 0 <= i < |steps| ==> StepAt(states, steps, i)
  }

  ghost predicate StepAt(states: seq<State>, steps: seq<Step>, i: nat)
    requires |states| == |steps| + 1 && i < |steps|
  {
    Enabled(states[i], steps[i]) && states[i + 1] == Apply(states[i], steps[i])
  }

  // ---- Invariants ----

  ghost predicate SignalUnderway(s: State) {
    s.wake || s.signaller.Flagged? || exists t :: 0 <= t < |s.senders| && s.senders[t].Pushed?
  }

  /** No lost wakeup: with something to do and neither before its drain nor its take, the loop has a wakeup
      signalled or on its way. */
  ghost predicate WakeInv(s: State) {
    && (s.loop.AtWait? && (s.queue != [] || s.flag) ==> SignalUnderway(s))
    && (s.loop.Handling? && (s.queue != [] || (s.flag && Shutdown !in s.loop.work)) ==> SignalUnderway(s))
    && (s.flag <==> !s.signaller.NotCalled?)
  }

  /** The queue hands messages on in the order they came. */
  ghost predicate FifoInv(s: State) {
    && (s.loop.Handling? ==> s.enqueued == s.handled + s.loop.work + s.queue)
    && (!s.loop.Handling? && !s.loop.Exited? ==> s.enqueued == s.handled + s.queue)
    && s.handled <= s.enqueued
  }

  /** Whether the browsers are hidden after the effects. */
  function HiddenAfter(effects: seq<Effect>): bool {
    if effects == [] then false
    else match effects[|effects| - 1]
      case Hide => true
      case Show => false
      case RunShutdown => HiddenAfter(effects[..|effects| - 1])
  }

  /** Hides and shows alternate, beginning with a hide, and nothing follows a shutdown. */
  predicate WellOrdered(effects: seq<Effect>) {
    if effects == [] then true
    else
      var before := effects[..|effects| - 1];
      && WellOrdered(before)
      && RunShutdown !in before
      && match effects[|effects| - 1]
         case Hide => !HiddenAfter(before)
         case Show => HiddenAfter(before)
         case RunShutdown => true
  }

  ghost predicate EffectInv(s: State) {
    && WellOrdered(s.effects)
    && (RunShutdown in s.effects <==> s.life.ShuttingDown?)
    && (s.life.ShuttingDown? <==> s.loop.Exited?)
    && (!s.life.ShuttingDown? ==> (HiddenAfter(s.effects) <==> s.life.Hidden? || s.life.Suspended?))
  }

  ghost predicate Inv(s: State) {
    WakeInv(s) && FifoInv(s) && EffectInv(s)
  }

  lemma StepKeepsWake(s: State, step: Step)
    requires Inv(s) && Enabled(s, step)
    ensures WakeInv(Apply(s, step))
  {
    var r := Apply(s, step);
    if step.Push? {
      assert r.senders[step.t].Pushed?;
    }
    if !s.wake && !s.signaller.Flagged? && SignalUnderway(s) && !step.Signal? {
      var t :| 0 <= t < |s.senders| && s.senders[t].Pushed?;
      assert r.senders[t].Pushed?;
    }
    if step.Handle? && s.loop.work != [] {
      assert forall m :: m in s.loop.work ==> m == s.loop.work[0] || m in s.loop.work[1..];
    }
  }

  lemma HeadMoves(a: seq<Msg>, work: seq<Msg>)
    requires work != []
    ensures (a + [work[0]]) + work[1..] == a + work
  {
  }

  lemma StepKeepsFifo(s: State, step: Step)
    requires Inv(s) && Enabled(s, step)
    ensures FifoInv(Apply(s, step))
  {
    match step {
      case Push(_, msg) =>
        ConcatAssociates(if s.loop.Handling? then s.handled + s.loop.work else s.handled, s.queue, [msg]);
      case Take =>
        ConcatAssociates(s.handled, s.queue, if s.flag then [Shutdown] else []);
      case Handle =>
        if s.loop.work != [] {
          HeadMoves(s.handled, s.loop.work);
        }
      case _ =>
    }
  }

  lemma EffectAdded(effects: seq<Effect>, e: Effect)
    requires WellOrdered(effects) && RunShutdown !in effects
    requires match e case Hide => !HiddenAfter(effects) case Show => HiddenAfter(effects) case RunShutdown => true
    ensures WellOrdered(effects + [e])
    ensures HiddenAfter(effects + [e]) <==> e.Hide? || (e.RunShutdown? && HiddenAfter(effects))
    ensures RunShutdown in effects + [e] <==> e.RunShutdown?
  {
    assert (effects + [e])[..|effects|] == effects;
  }

  lemma EffectsKeepOrder(life: Lifecycle, effects: seq<Effect>, msg: Msg)
    requires !life.ShuttingDown? && WellOrdered(effects) && RunShutdown !in effects
    requires HiddenAfter(effects) <==> life.Hidden? || life.Suspended?
    ensures var next, all := Moved(life, msg), effects + EffectsOf(life, msg);
      && WellOrdered(all)
      && (RunShutdown in all <==> next.ShuttingDown?)
      && (!next.ShuttingDown? ==> (HiddenAfter(all) <==> next.Hidden? || next.Suspended?))
  {
    var made := EffectsOf(life, msg);
    if made == [] {
      assert effects + made == effects;
    } else {
      EffectAdded(effects, made[0]);
      assert made == [made[0]];
    }
  }

  lemma StepKeepsEffects(s: State, step: Step)
    requires Inv(s) && Enabled(s, step)
    ensures EffectInv(Apply(s, step))
  {
    if step.Handle? && s.loop.work != [] {
      EffectsKeepOrder(s.life, s.effects, s.loop.work[0]);
    }
  }

  lemma {:induction false} RunKeepsInv(states: seq<State>, steps: seq<Step>, i: nat)
    requires IsRun(states, steps) && i < |states|
    ensures Inv(states[i])
  {
    if i > 0 {
      RunKeepsInv(states, steps, i - 1);
      assert StepAt(states, steps, i - 1);
      StepKeepsWake(states[i - 1], steps[i - 1]);
      StepKeepsFifo(states[i - 1], steps[i - 1]);
      StepKeepsEffects(states[i - 1], steps[i - 1]);
    }
  }

  /** The messages sent in the first `i` steps, and the shutdown that a take adds behind the raised flag. */
  ghost function Sent(steps: seq<Step>, i: nat): seq<Msg>
    requires i <= |steps|
  {
    if i == 0 then []
    else match steps[i - 1]
      case Push(_, msg) => Sent(steps, i - 1) + [msg]
      case Take => Sent(steps, i - 1) + if FlagRaised(steps, i - 1) then [Shutdown] else []
      case _ => Sent(steps, i - 1)
  }

  ghost predicate FlagRaised(steps: seq<Step>, i: nat)
    requires i <= |steps|
  {
    exists k :: 0 <= k < i && steps[k].RaiseFlag?
  }

  lemma {:induction false} FlagIsRaised(states: seq<State>, steps: seq<Step>, i: nat)
    requires IsRun(states, steps) && i < |states|
    ensures states[i].flag <==> FlagRaised(steps, i)
  {
    if i > 0 {
      assert StepAt(states, steps, i - 1);
      FlagIsRaised(states, steps, i - 1);
    }
  }

  lemma TakeAdds(s: State)
    requires Inv(s) && Enabled(s, Take)
    ensures Apply(s, Take).enqueued == s.enqueued + if s.flag then [Shutdown] else []
  {
  }

  /** In every run what went into the queue is what was sent. */
  lemma {:induction false} EnqueuedIsSent(states: seq<State>, steps: seq<Step>, i: nat)
    requires IsRun(states, steps) && i < |states|
    ensures states[i].enqueued == Sent(steps, i)
  {
    if i > 0 {
      EnqueuedIsSent(states, steps, i - 1);
      RunKeepsInv(states, steps, i - 1);
      FlagIsRaised(states, steps, i - 1);
      assert StepAt(states, steps, i - 1);
      if steps[i - 1].Take? {
        TakeAdds(states[i - 1]);
      }
    }
  }

  /** In every run: hides and shows alternate, the browsers are hidden exactly while the process is hidden or
      suspended, the shutdown runs at most once and last, messages are handled in the order they were
      sent, and no wakeup is lost. */
  lemma RunBehaves(states: seq<State>, steps: seq<Step>, i: nat)
    requires IsRun(states, steps) && i < |states|
    ensures WellOrdered(states[i].effects) && WakeInv(states[i]) && states[i].handled <= Sent(steps, i)
    ensures !states[i].life.ShuttingDown? ==>
      (HiddenAfter(states[i].effects) <==> states[i].life.Hidden? || states[i].life.Suspended?)
    ensures states[i].loop.Exited? <==> RunShutdown in states[i].effects
  {
    RunKeepsInv(states, steps, i);
    EnqueuedIsSent(states, steps, i);
  }

  /** Once the loop has returned nothing more is handled and nothing more is done. */
  lemma {:induction false} ExitedIsFinal(states: seq<State>, steps: seq<Step>, i: nat, j: nat)
    requires IsRun(states, steps) && i <= j < |states| && states[i].loop.Exited?
    ensures states[j].loop.Exited? && states[j].handled == states[i].handled
    ensures states[j].effects == states[i].effects && states[j].life == states[i].life
  {
    if i < j {
      ExitedIsFinal(states, steps, i, j - 1);
      assert StepAt(states, steps, j - 1);
    }
  }

  // ---- Every run settles ----

  ghost predicate Quiet(s: State) {
    && (forall t :: 0 <= t < |s.senders| ==> s.senders[t].Idle?)
    && !s.signaller.Flagged?
    && (s.loop.Exited? || (s.loop.AtWait? && !s.wake))
  }

  lemma SomeStepEnabled(s: State) returns (step: Step)
    requires !Quiet(s)
    ensures step.Internal() && Enabled(s, step)
  {
    if t :| 0 <= t < |s.senders| && !s.senders[t].Idle? {
      step := Signal(t);
    } else if s.signaller.Flagged? {
      step := NotifyShutdown;
    } else {
      step := match s.loop {
        case AtWait => Wait
        case AtDrain => DrainWake
        case AtTake => Take
        case Handling(_) => Handle
      };
    }
  }

  function SendersWork(senders: seq<Sender>): nat {
    if senders == [] then 0 else (if senders[0].Pushed? then 8 else 0) + SendersWork(senders[1..])
  }

  function LoopWork(loop: Loop): nat {
    match loop
    case AtWait => 3
    case AtDrain => 2
    case AtTake => 8
    case Handling(work) => 4 + 2 * |work|
    case Exited => 0
  }

  function Work(s: State): nat {
    SendersWork(s.senders) + (if s.signaller.Flagged? then 8 else 0) + (if s.wake then 7 else 0) + LoopWork(s.loop) + 2 * |s.queue|
  }

  lemma {:induction false} SendersWorkAt(senders: seq<Sender>, t: nat)
    requires t < |senders| && senders[t].Pushed?
    ensures SendersWork(senders[t := Idle]) == SendersWork(senders) - 8
  {
    if t == 0 {
      assert senders[t := Idle][1..] == senders[1..];
    } else {
      assert senders[t := Idle][1..] == senders[1..][t - 1 := Idle];
      SendersWorkAt(senders[1..], t - 1);
    }
  }

  lemma StepDoesWork(s: State, step: Step)
    requires Enabled(s, step) && step.Internal()
    requires s.loop.AtDrain? ==> s.wake
    ensures Work(Apply(s, step)) < Work(s)
  {
    if step.Signal? {
      SendersWorkAt(s.senders, step.t);
    }
  }

  lemma {:induction false} DrainFindsWake(states: seq<State>, steps: seq<Step>, i: nat)
    requires IsRun(states, steps) && i < |states|
    ensures states[i].loop.AtDrain? ==> states[i].wake
  {
    if i > 0 {
      DrainFindsWake(states, steps, i - 1);
      assert StepAt(states, steps, i - 1);
    }
  }

  /** Without new messages or a new shutdown request a run takes at most `Work` steps. */
  lemma {:induction false} RunSettles(states: seq<State>, steps: seq<Step>, from: nat, i: nat)
    requires IsRun(states, steps) && from <= i < |states|
    requires forall k :: from <= k < i ==> steps[k].Internal()
    ensures i - from + Work(states[i]) <= Work(states[from])
  {
    if from < i {
      RunSettles(states, steps, from, i - 1);
      DrainFindsWake(states, steps, i - 1);
      assert StepAt(states, steps, i - 1);
      StepDoesWork(states[i - 1], steps[i - 1]);
    }
  }

  /** Where a run can go no further, every message sent has been handled, or a shutdown has run; it has if one
      was requested. */
  lemma StuckRunIsDone(states: seq<State>, steps: seq<Step>, i: nat)
    requires IsRun(states, steps) && i < |states|
    requires forall step: Step :: step.Internal() ==> !Enabled(states[i], step)
    ensures states[i].handled == Sent(steps, i) || RunShutdown in states[i].effects
    ensures FlagRaised(steps, i) || Shutdown in states[i].handled ==> RunShutdown in states[i].effects
  {
    var s := states[i];
    RunKeepsInv(states, steps, i);
    EnqueuedIsSent(states, steps, i);
    FlagIsRaised(states, steps, i);
    LifeIsHistory(states, steps, i);
    ShutsDownIff(s.handled);
    if !Quiet(s) {
      var step := SomeStepEnabled(s);
    }
    assert !s.loop.Exited? ==> !SignalUnderway(s);
  }

  // ---- What the state remembers ----

  /** A suspend not yet answered by a resume. */
  ghost predicate Unanswered(msgs: seq<Msg>) {
    exists i :: 0 <= i < |msgs| && msgs[i].Suspend? && forall k :: i < k < |msgs| ==> !msgs[k].Resume?
  }

  function After(msgs: seq<Msg>): Lifecycle {
    if msgs == [] then Running else Moved(After(msgs[..|msgs| - 1]), msgs[|msgs| - 1])
  }

  lemma UnansweredExtends(msgs: seq<Msg>, msg: Msg)
    ensures Unanswered(msgs + [msg]) <==> msg.Suspend? || (Unanswered(msgs) && !msg.Resume?)
  {
    var all := msgs + [msg];
    if msg.Suspend? {
      assert all[|msgs|].Suspend?;
    }
    if Unanswered(msgs) && !msg.Resume? {
      var i :| 0 <= i < |msgs| && msgs[i].Suspend? && forall k :: i < k < |msgs| ==> !msgs[k].Resume?;
      assert all[i].Suspend? && forall k :: i < k < |all| ==> !all[k].Resume?;
    }
    if Unanswered(all) {
      var i :| 0 <= i < |all| && all[i].Suspend? && forall k :: i < k < |all| ==> !all[k].Resume?;
      if i < |msgs| {
        assert all[|msgs|] == msg;
        assert forall k :: i < k < |msgs| ==> msgs[k] == all[k];
        assert msgs[i].Suspend?;
      }
    }
  }

  /** Until a shutdown, the process is suspended exactly while a suspend is unanswered, whatever visibility
      events came between. */
  lemma {:induction false} SuspendedIffUnanswered(msgs: seq<Msg>)
    requires Shutdown !in msgs
    ensures !After(msgs).ShuttingDown?
    ensures After(msgs).Suspended? <==> Unanswered(msgs)
  {
    if msgs != [] {
      var before := msgs[..|msgs| - 1];
      SuspendedIffUnanswered(before);
      UnansweredExtends(before, msgs[|msgs| - 1]);
      assert before + [msgs[|msgs| - 1]] == msgs;
    }
  }

  /** Message i hid the process, which was not suspended then, and nothing since showed or suspended it. */
  ghost predicate HiddenAt(msgs: seq<Msg>, i: nat) {
    && i < |msgs| && msgs[i] == SetVisible(false) && !Unanswered(msgs[..i])
    && forall k :: i < k < |msgs| ==> msgs[k] != SetVisible(true) && !msgs[k].Suspend?
  }

  lemma HiddenAtExtends(msgs: seq<Msg>, msg: Msg, i: nat)
    requires i < |msgs|
    ensures HiddenAt(msgs + [msg], i) <==> HiddenAt(msgs, i) && msg != SetVisible(true) && !msg.Suspend?
  {
    var all := msgs + [msg];
    assert all[..i] == msgs[..i];
    assert forall k :: i < k < |msgs| ==> all[k] == msgs[k];
    assert all[|msgs|] == msg;
  }

  /** Until a shutdown, the process is hidden exactly if a message hid it while it was not suspended and no
      message since showed or suspended it; a resume does not show a process that was not suspended. */
  lemma {:induction false} HiddenIff(msgs: seq<Msg>)
    requires Shutdown !in msgs
    ensures After(msgs).Hidden? <==> exists i: nat :: HiddenAt(msgs, i)
  {
    if msgs != [] {
      var before, last := msgs[..|msgs| - 1], msgs[|msgs| - 1];
      assert before + [last] == msgs;
      HiddenIff(before);
      SuspendedIffUnanswered(before);
      forall i: nat | i < |before|
        ensures HiddenAt(msgs, i) <==> HiddenAt(before, i) && last != SetVisible(true) && !last.Suspend?
      {
        HiddenAtExtends(before, last, i);
      }
      if last == SetVisible(false) && !Unanswered(before) {
        assert HiddenAt(msgs, |before|);
      }
      if i: nat :| HiddenAt(before, i) && last != SetVisible(true) && !last.Suspend? {
        assert HiddenAt(msgs, i);
      }
    }
  }

  /** A shutdown is final: it was among the messages exactly if the process is shutting down. */
  lemma {:induction false} ShutsDownIff(msgs: seq<Msg>)
    ensures After(msgs).ShuttingDown? <==> Shutdown in msgs
  {
    if msgs != [] {
      var before, last := msgs[..|msgs| - 1], msgs[|msgs| - 1];
      ShutsDownIff(before);
      assert msgs == before + [last];
    }
  }

  lemma AfterSnoc(msgs: seq<Msg>, msg: Msg)
    ensures After(msgs + [msg]) == Moved(After(msgs), msg)
  {
    assert (msgs + [msg])[..|msgs|] == msgs;
  }

  /** How the queue is cut into batches does not matter. */
  lemma {:induction false} BatchContinues(msgs: seq<Msg>, work: seq<Msg>)
    ensures After(msgs + work) == MovedAll(After(msgs), work)
    decreases |work|
  {
    if work == [] {
      assert msgs + work == msgs;
    } else {
      AfterSnoc(msgs, work[0]);
      BatchContinues(msgs + [work[0]], work[1..]);
      assert msgs + work == (msgs + [work[0]]) + work[1..];
      if After(msgs).ShuttingDown? {
        ShutsDownIff(msgs);
        ShutsDownIff(msgs + work);
      }
    }
  }

  /** In every run the lifecycle state is the one the messages handled lead to. */
  lemma {:induction false} LifeIsHistory(states: seq<State>, steps: seq<Step>, i: nat)
    requires IsRun(states, steps) && i < |states|
    ensures states[i].life == After(states[i].handled)
  {
    if i > 0 {
      LifeIsHistory(states, steps, i - 1);
      assert StepAt(states, steps, i - 1);
      var s := states[i - 1];
      if steps[i - 1].Handle? && s.loop.work != [] {
        AfterSnoc(s.handled, s.loop.work[0]);
      }
    }
  }

  /** In every run the lifecycle state is told by the messages handled: shut down, suspended, hidden or running. */
  lemma RunLifeIs(states: seq<State>, steps: seq<Step>, i: nat)
    requires IsRun(states, steps) && i < |states|
    ensures states[i].life.ShuttingDown? <==> Shutdown in states[i].handled
    ensures !states[i].life.ShuttingDown? ==> (states[i].life.Suspended? <==> Unanswered(states[i].handled))
    ensures !states[i].life.ShuttingDown? ==> (states[i].life.Hidden? <==> exists j: nat :: HiddenAt(states[i].handled, j))
  {
    LifeIsHistory(states, steps, i);
    ShutsDownIff(states[i].handled);
    if Shutdown !in states[i].handled {
      SuspendedIffUnanswered(states[i].handled);
      HiddenIff(states[i].handled);
    }
  }

  // ---- What is done to the browsers ----

  /** The process is hidden or suspended, as the messages tell it. */
  ghost predicate OutOfSight(msgs: seq<Msg>) {
    Unanswered(msgs) || exists j: nat :: HiddenAt(msgs, j)
  }

  /** A hide or show where the messages take the process out of sight or back, and the shutdown at the first
      message that asks for it. */
  ghost function Changes(msgs: seq<Msg>): seq<Effect> {
    if msgs == [] then []
    else
      var before := msgs[..|msgs| - 1];
      Changes(before) +
        if Shutdown in before then []
        else if msgs[|msgs| - 1].Shutdown? then [RunShutdown]
        else if OutOfSight(before) == OutOfSight(msgs) then []
        else if OutOfSight(msgs) then [Hide]
        else [Show]
  }

  lemma OutOfSightIff(msgs: seq<Msg>)
    requires Shutdown !in msgs
    ensures !After(msgs).ShuttingDown?
    ensures OutOfSight(msgs) <==> After(msgs).Hidden? || After(msgs).Suspended?
  {
    SuspendedIffUnanswered(msgs);
    HiddenIff(msgs);
  }

  lemma ChangesSnoc(msgs: seq<Msg>, msg: Msg)
    ensures Changes(msgs + [msg]) == Changes(msgs) + EffectsOf(After(msgs), msg)
  {
    var all := msgs + [msg];
    assert all[..|msgs|] == msgs;
    AfterSnoc(msgs, msg);
    ShutsDownIff(msgs);
    if Shutdown !in msgs {
      OutOfSightIff(msgs);
      if !msg.Shutdown? {
        OutOfSightIff(all);
      }
    }
  }

  lemma AllEffectsStep(state: Lifecycle, work: seq<Msg>)
    requires work != []
    ensures AllEffects(state, work) == EffectsOf(state, work[0]) + AllEffects(Moved(state, work[0]), work[1..])
  {
  }

  lemma EffectsJoin(before: seq<Effect>, first: seq<Effect>, rest: seq<Effect>, all: seq<Effect>)
    requires all == first + rest
    ensures (before + first) + rest == before + all
  {
  }

  /** A batch does to the browsers what its messages change, however the queue is cut. */
  lemma {:induction false} BatchEffects(msgs: seq<Msg>, work: seq<Msg>)
    ensures Changes(msgs + work) == Changes(msgs) + AllEffects(After(msgs), work)
    decreases |work|
  {
    if work == [] {
      assert msgs + work == msgs;
    } else {
      AfterSnoc(msgs, work[0]);
      ChangesSnoc(msgs, work[0]);
      BatchEffects(msgs + [work[0]], work[1..]);
      ConcatAssociates(msgs, [work[0]], work[1..]);
      assert [work[0]] + work[1..] == work;
      var first, rest := EffectsOf(After(msgs), work[0]), AllEffects(Moved(After(msgs), work[0]), work[1..]);
      AllEffectsStep(After(msgs), work);
      EffectsJoin(Changes(msgs), first, rest, AllEffects(After(msgs), work));
    }
  }

  lemma StepEffects(s: State, step: Step)
    requires Enabled(s, step)
    ensures var r := Apply(s, step);
      if step.Handle? && s.loop.work != []
      then r.handled == s.handled + [s.loop.work[0]] && r.effects == s.effects + EffectsOf(s.life, s.loop.work[0])
      else r.handled == s.handled && r.effects == s.effects
  {
  }

  /** In every run the browsers are hidden and shown exactly where the messages handled change what they say,
      and not once more. */
  lemma {:induction false} EffectsAreChanges(states: seq<State>, steps: seq<Step>, i: nat)
    requires IsRun(states, steps) && i < |states|
    ensures states[i].effects == Changes(states[i].handled)
  {
    if i > 0 {
      EffectsAreChanges(states, steps, i - 1);
      LifeIsHistory(states, steps, i - 1);
      assert StepAt(states, steps, i - 1);
      var s := states[i - 1];
      StepEffects(s, steps[i - 1]);
      if steps[i - 1].Handle? && s.loop.work != [] {
        ChangesSnoc(s.handled, s.loop.work[0]);
      }
    }
  }
}
