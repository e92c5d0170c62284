/** The background settings writer: posters, one worker and the shutdown call, step by step. */
module SaveWorker {
  import opened Options

  // ---- The part guarded by the `pending` mutex ----

  datatype PendingState<T> = PendingState(data: Option<T>, stop: bool, started: bool)

  /** The worker's locked section: take a snapshot, sleep on the condition variable, or leave. */
  datatype Verdict<T> = Take(snap: T) | Sleep | Leave

  function Posted<T>(p: PendingState<T>, snap: T): PendingState<T> {
    if p.stop then p else p.(data := Some(snap), started := true)
  }

  function WorkerVerdict<T>(p: PendingState<T>): Verdict<T> {
    match p.data
    case Some(snap) => Take(snap)
    case None => if p.stop then Leave else Sleep
  }

  class Pending<T> {
    var data: Option<T>
    var stop: bool
    var started: bool

    function State(): PendingState<T>
      reads this
    {
      PendingState(data, stop, started)
    }

    constructor ()
      ensures State() == PendingState(None, false, false)
    {
      data, stop, started := None, false, false;
    }

    /** The section of `settings_save_async`. */
    method Post(snap: T) returns (accepted: bool, needSpawn: bool)
      modifies this
      ensures State() == Posted(old(State()), snap)
      ensures accepted == !old(stop)
      ensures needSpawn == (accepted && !old(started))
    {
      if stop {
        return false, false;
      }
      data := Some(snap);
      if started {
        needSpawn := false;
      } else {
        started := true;
        needSpawn := true;
      }
      accepted := true;
    }

    /** One evaluation of the worker's wait condition, and the take behind it. */
    method Poll() returns (verdict: Verdict<T>)
      modifies this
      ensures verdict == WorkerVerdict(old(State()))
      ensures State() == old(State()).(data := None)
    {
      if data.None? && !stop {
        return Sleep;
      }
      match data {
        case Some(snap) =>
          data := None;
          verdict := Take(snap);
        case None =>
          verdict := Leave;
      }
    }

    /** The section of the shutdown call; only the first call goes on. */
    method Stop() returns (first: bool)
      modifies this
      ensures first == !old(stop)
      ensures State() == old(State()).(stop := true)
    {
      if stop {
        return false;
      }
      stop := true;
      first := true;
    }
  }

  // ---- The whole protocol ----

  /** Where a caller of `settings_save_async` stands. `Holds`, `Spawning` and `Unlocking` own the handle lock. */
  datatype Poster<T> = Idle | Wants(snap: T) | Holds(snap: T) | Spawning | Unlocking | Notifying

  datatype Worker<T> = NotSpawned | Checking | Waiting | Saving(snap: T) | Exited

  /** Where the shutdown call that stops the writer stands; calls that find no writer return at once. */
  datatype Closer = NotStopping | Signalling | Taking | Joining | Closed

  /** `created` is the writer itself: the first save creates it. */
  datatype State<T> = State(
    created: bool,
    posters: seq<Poster<T>>,
    worker: Worker<T>,
    closer: Closer,
    pending: PendingState<T>,
    lockHolder: Option<nat>,
    handle: bool,
    accepted: seq<T>,
    written: seq<T>)

  datatype Step<T> =
    | Call(t: nat, snap: T)
    | Lock(t: nat)
    | Accept(t: nat)
    | Spawn(t: nat)
    | Unlock(t: nat)
    | Notify(t: nat)
    | Check
    | Save
    | Close
    | CloserNotify
    | CloserTake
    | CloserJoin
  {
    /** Steps that carry on what was begun, as opposed to beginning a call. */
    predicate Internal() { !Call? && !Close? }
  }

  function Initial<T>(posters: nat): State<T> {
    State(false, seq(posters, _ => Idle), NotSpawned, NotStopping, PendingState(None, false, false), None, false, [], [])
  }

  predicate Enabled<T>(s: State<T>, step: Step<T>) {
    match step
    case Call(t, _) => t < |s.posters| && s.posters[t].Idle?
    case Lock(t) => t < |s.posters| && s.posters[t].Wants? && s.lockHolder.None?
    case Accept(t) => t < |s.posters| && s.posters[t].Holds?
    case Spawn(t) => t < |s.posters| && s.posters[t].Spawning?
    case Unlock(t) => t < |s.posters| && s.posters[t].Unlocking?
    case Notify(t) => t < |s.posters| && s.posters[t].Notifying?
    case Check => s.worker.Checking?
    case Save => s.worker.Saving?
    case Close => s.closer.NotStopping?
    case CloserNotify => s.closer.Signalling?
    case CloserTake => s.closer.Taking? && s.lockHolder.None?
    case CloserJoin => s.closer.Joining? && s.worker.Exited?
  }

  /** `notify_one`: the worker is the only thread that ever waits. */
  function Woken<T>(worker: Worker<T>): Worker<T> {
    if worker.Waiting? then Checking else worker
  }

  function Apply<T>(s: State<T>, step: Step<T>): State<T>
    requires Enabled(s, step)
  {
    match step
    case Call(t, snap) => s.(created := true, posters := s.posters[t := Wants(snap)])
    case Lock(t) => s.(posters := s.posters[t := Holds(s.posters[t].snap)], lockHolder := Some(t))
    case Accept(t) =>
      if s.pending.stop then
        s.(posters := s.posters[t := Idle], lockHolder := None)
      else
        var snap := s.posters[t].snap;
        s.(posters := s.posters[t := if s.pending.started then Unlocking else Spawning],
           pending := Posted(s.pending, snap),
           accepted := s.accepted + [snap])
    case Spawn(t) => s.(posters := s.posters[t := Unlocking], worker := Checking, handle := true)
    case Unlock(t) => s.(posters := s.posters[t := Notifying], lockHolder := None)
    case Notify(t) => s.(posters := s.posters[t := Idle], worker := Woken(s.worker))
    case Check =>
      s.(worker := match WorkerVerdict(s.pending) {
           case Take(snap) => Saving(snap)
           case Sleep => Waiting
           case Leave => Exited
         },
         pending := s.pending.(data := None))
    case Save => s.(worker := Checking, written := s.written + [s.worker.snap])
    case Close => if s.created then s.(closer := Signalling, pending := s.pending.(stop := true)) else s
    case CloserNotify => s.(closer := Taking, worker := Woken(s.worker))
    case CloserTake => s.(closer := if s.handle then Joining else Closed, handle := false)
    case CloserJoin => s.(closer := Closed)
  }

  /** A finite run: every interleaving of the threads' steps is one. */
  ghost predicate IsRun<T>(states: seq<State<T>>, steps: seq<Step<T>>) {
    && |states| == |steps| + 1
    && (exists n :: states[0] == Initial(n))
    && forall i :: 0 <= i < |steps| ==> StepAt(states, steps, i)
  }

  ghost predicate StepAt<T>(states: seq<State<T>>, steps: seq<Step<T>>, i: nat)
    requires |states| == |steps| + 1 && i < |steps|
  {
    Enabled(states[i], steps[i]) && states[i + 1] == Apply(states[i], steps[i])
  }

  // ---- The invariant ----

  predicate OwnsLock<T>(p: Poster<T>) { p.Holds? || p.Spawning? || p.Unlocking? }

  ghost predicate LockInv<T>(s: State<T>) {
    && (forall t :: 0 <= t < |s.posters| ==> (OwnsLock(s.posters[t]) <==> s.lockHolder == Some(t)))
    && (s.lockHolder.Some? ==> s.lockHolder.value < |s.posters|)
  }

  ghost predicate SpawnInv<T>(s: State<T>) {
    && (s.worker.NotSpawned? <==>
        !s.pending.started
        || (s.lockHolder.Some? && s.lockHolder.value < |s.posters| && s.posters[s.lockHolder.value].Spawning?))
    && (forall t :: 0 <= t < |s.posters| && s.posters[t].Spawning? ==> s.pending.started)
    && (s.handle <==> !s.worker.NotSpawned? && !s.closer.Joining? && !s.closer.Closed?)
    && (s.pending.started <==> s.accepted != [])
  }

  /** Everything handed to the writer so far. */
  function Handed<T>(s: State<T>): seq<T> {
    s.written + if s.worker.Saving? then [s.worker.snap] else []
  }

  ghost predicate IsSubsequence<T>(a: seq<T>, b: seq<T>)
    decreases |b|
  {
    || a == []
    || (b != [] && a[|a| - 1] == b[|b| - 1] && IsSubsequence(a[..|a| - 1], b[..|b| - 1]))
    || (b != [] && IsSubsequence(a, b[..|b| - 1]))
  }

  /** The newest accepted snapshot is pending or was handed over last; those handed over came in order. */
  ghost predicate InOrder<T>(handed: seq<T>, data: Option<T>, accepted: seq<T>) {
    match data
    case Some(snap) =>
      && accepted != [] && snap == accepted[|accepted| - 1]
      && IsSubsequence(handed, accepted[..|accepted| - 1])
    case None =>
      && IsSubsequence(handed, accepted)
      && (accepted != [] ==> handed != [] && handed[|handed| - 1] == accepted[|accepted| - 1])
  }

  ghost predicate HistoryInv<T>(s: State<T>) {
    InOrder(Handed(s), s.pending.data, s.accepted)
  }

  ghost predicate WakeupUnderway<T>(s: State<T>) {
    || s.closer.Signalling?
    || exists t :: 0 <= t < |s.posters| && (s.posters[t].Unlocking? || s.posters[t].Notifying?)
  }

  /** No wakeup is lost: a sleeping worker with something to do has a notification on its way. */
  ghost predicate WakeInv<T>(s: State<T>) {
    s.worker.Waiting? && (s.pending.data.Some? || s.pending.stop) ==> WakeupUnderway(s)
  }

  ghost predicate CloseInv<T>(s: State<T>) {
    && (s.pending.stop <==> !s.closer.NotStopping?)
    && (s.worker.Exited? ==> s.pending.stop && s.pending.data.None?)
    && (s.closer.Joining? ==> !s.worker.NotSpawned?)
    && (s.closer.Closed? ==> s.worker.Exited? || !s.pending.started)
  }

  /** Before the first save there is nothing to stop. */
  ghost predicate Untouched<T>(s: State<T>) {
    && (forall t :: 0 <= t < |s.posters| ==> s.posters[t].Idle?)
    && s.worker.NotSpawned?
    && s.pending == PendingState(None, false, false)
    && s.accepted == [] && s.written == []
  }

  ghost predicate Inv<T>(s: State<T>) {
    && LockInv(s) && SpawnInv(s) && HistoryInv(s) && WakeInv(s) && CloseInv(s)
    && (!s.created ==> Untouched(s))
  }

  lemma SubsequenceGrows<T>(a: seq<T>, b: seq<T>, x: T)
    requires IsSubsequence(a, b)
    ensures IsSubsequence(a, b + [x])
    ensures IsSubsequence(a + [x], b + [x])
  {
    assert (b + [x])[..|b|] == b;
    assert (a + [x])[..|a|] == a;
  }

  lemma StepKeepsLock<T>(s: State<T>, step: Step<T>)
    requires Inv(s) && Enabled(s, step)
    ensures LockInv(Apply(s, step))
  {
  }

  lemma StepKeepsSpawn<T>(s: State<T>, step: Step<T>)
    requires Inv(s) && Enabled(s, step)
    ensures SpawnInv(Apply(s, step))
  {
  }

  lemma AcceptKeepsOrder<T>(handed: seq<T>, data: Option<T>, accepted: seq<T>, snap: T)
    requires InOrder(handed, data, accepted)
    ensures InOrder(handed, Some(snap), accepted + [snap])
  {
    assert (accepted + [snap])[..|accepted|] == accepted;
    if data.Some? {
      var before, last := accepted[..|accepted| - 1], accepted[|accepted| - 1];
      SubsequenceGrows(handed, before, last);
      assert before + [last] == accepted;
    }
  }

  lemma TakeKeepsOrder<T>(handed: seq<T>, snap: T, accepted: seq<T>)
    requires InOrder(handed, Some(snap), accepted)
    ensures InOrder(handed + [snap], None, accepted)
  {
    var before := accepted[..|accepted| - 1];
    SubsequenceGrows(handed, before, snap);
    assert before + [snap] == accepted;
  }

  lemma StepKeepsHistory<T>(s: State<T>, step: Step<T>)
    requires Inv(s) && Enabled(s, step)
    ensures HistoryInv(Apply(s, step))
  {
    var r := Apply(s, step);
    if step.Check? && s.pending.data.Some? {
      TakeKeepsOrder(Handed(s), s.pending.data.value, s.accepted);
      assert Handed(r) == Handed(s) + [s.pending.data.value];
    } else {
      assert Handed(r) == Handed(s);
      if step.Accept? && !s.pending.stop {
        AcceptKeepsOrder(Handed(s), s.pending.data, s.accepted, s.posters[step.t].snap);
      }
    }
  }

  lemma StepKeepsWake<T>(s: State<T>, step: Step<T>)
    requires Inv(s) && Enabled(s, step)
    ensures WakeInv(Apply(s, step))
  {
    var r := Apply(s, step);
    if r.worker.Waiting? && (r.pending.data.Some? || r.pending.stop)
      && s.worker.Waiting? && WakeupUnderway(s) && !s.closer.Signalling? {
      var t :| 0 <= t < |s.posters| && (s.posters[t].Unlocking? || s.posters[t].Notifying?);
      assert r.posters[t].Unlocking? || r.posters[t].Notifying?;
    }
    if step.Accept? && s.pending.started && !s.pending.stop {
      assert r.posters[step.t].Unlocking?;
    }
  }

  lemma StepKeepsClose<T>(s: State<T>, step: Step<T>)
    requires Inv(s) && Enabled(s, step)
    ensures CloseInv(Apply(s, step))
  {
  }

  lemma StepKeepsInv<T>(s: State<T>, step: Step<T>)
    requires Inv(s) && Enabled(s, step)
    ensures Inv(Apply(s, step))
  {
    StepKeepsLock(s, step);
    StepKeepsSpawn(s, step);
    StepKeepsHistory(s, step);
    StepKeepsWake(s, step);
    StepKeepsClose(s, step);
  }

  lemma {:induction false} RunKeepsInv<T>(states: seq<State<T>>, steps: seq<Step<T>>, i: nat)
    requires IsRun(states, steps) && i < |states|
    ensures Inv(states[i])
  {
    if i > 0 {
      RunKeepsInv(states, steps, i - 1);
      assert StepAt(states, steps, i - 1);
      StepKeepsInv(states[i - 1], steps[i - 1]);
    }
  }

  // ---- Which shutdown calls stop the writer ----

  /** A save began and a shutdown call came after it. */
  ghost predicate ShutDownBehindSave<T>(steps: seq<Step<T>>, i: nat)
    requires i <= |steps|
  {
    exists k, c :: 0 <= k < c < i && steps[k].Call? && steps[c].Close?
  }

  lemma {:induction false} CreatedIff<T>(states: seq<State<T>>, steps: seq<Step<T>>, i: nat)
    requires IsRun(states, steps) && i < |states|
    ensures states[i].created <==> exists k :: 0 <= k < i && steps[k].Call?
  {
    if i > 0 {
      CreatedIff(states, steps, i - 1);
      assert StepAt(states, steps, i - 1);
    }
  }

  /** A shutdown call stops the writer exactly if a save began before it; if none did it changes nothing. */
  lemma CloseStopsIff<T>(states: seq<State<T>>, steps: seq<Step<T>>, c: nat)
    requires IsRun(states, steps) && c < |steps| && steps[c].Close?
    ensures states[c + 1].pending.stop <==> exists k :: 0 <= k < c && steps[k].Call?
    ensures states[c + 1].pending.stop || (states[c + 1] == states[c] && Untouched(states[c]))
  {
    CreatedIff(states, steps, c);
    RunKeepsInv(states, steps, c);
    assert StepAt(states, steps, c);
  }

  lemma {:induction false} StoppedIff<T>(states: seq<State<T>>, steps: seq<Step<T>>, i: nat)
    requires IsRun(states, steps) && i < |states|
    ensures states[i].pending.stop <==> ShutDownBehindSave(steps, i)
  {
    if i > 0 {
      StoppedIff(states, steps, i - 1);
      CreatedIff(states, steps, i - 1);
      assert StepAt(states, steps, i - 1);
      if k :| 0 <= k < i - 1 && steps[k].Call? && steps[i - 1].Close? {
        assert ShutDownBehindSave(steps, i);
      }
    }
  }

  /** A save that reaches the writer is ignored exactly if a shutdown call came behind some save. */
  lemma SaveIsIgnoredIff<T>(states: seq<State<T>>, steps: seq<Step<T>>, i: nat)
    requires IsRun(states, steps) && i < |steps| && steps[i].Accept?
    ensures states[i + 1].accepted == states[i].accepted <==> ShutDownBehindSave(steps, i)
  {
    StoppedIff(states, steps, i);
    assert StepAt(states, steps, i);
  }

  /** A shutdown call ahead of the first save stops nothing: the save is accepted. */
  lemma EarlyShutdownStopsNothing<T>(snap: T) returns (states: seq<State<T>>)
    ensures IsRun(states, [Close, Call(0, snap), Lock(0), Accept(0)])
    ensures states[4].accepted == [snap] && !states[4].pending.stop
  {
    var begun := Apply(Initial(1), Call(0, snap));
    var locked := Apply(begun, Lock(0));
    states := [Initial(1), Initial(1), begun, locked, Apply(locked, Accept(0))];
  }

  // ---- What the callers asked for ----

  /** The snapshot of the latest save of poster `t` among the first `i` steps. */
  function LatestOf<T>(steps: seq<Step<T>>, i: nat, t: nat): seq<T>
    requires i <= |steps|
  {
    if i == 0 then []
    else match steps[i - 1]
      case Call(u, snap) => if u == t then [snap] else LatestOf(steps, i - 1, t)
      case _ => LatestOf(steps, i - 1, t)
  }

  /** The snapshots of the saves that reached the writer among the first `i` steps and were not ignored. */
  ghost function Requested<T>(steps: seq<Step<T>>, i: nat): seq<T>
    requires i <= |steps|
  {
    if i == 0 then []
    else match steps[i - 1]
      case Accept(t) => Requested(steps, i - 1) + if ShutDownBehindSave(steps, i - 1) then [] else LatestOf(steps, i - 1, t)
      case _ => Requested(steps, i - 1)
  }

  /** A poster on its way to the writer carries the snapshot it was called with. */
  ghost predicate Carries<T>(p: Poster<T>, latest: seq<T>) {
    match p
    case Wants(snap) => latest == [snap]
    case Holds(snap) => latest == [snap]
    case _ => true
  }

  lemma {:induction false} PostersCarry<T>(states: seq<State<T>>, steps: seq<Step<T>>, i: nat, t: nat)
    requires IsRun(states, steps) && i < |states| && t < |states[i].posters|
    ensures Carries(states[i].posters[t], LatestOf(steps, i, t))
  {
    if i > 0 {
      assert StepAt(states, steps, i - 1);
      PostersCarry(states, steps, i - 1, t);
    }
  }

  /** In every run what the writer accepted is what the callers asked for, each snapshot its caller's own. */
  lemma {:induction false} AcceptedIsRequested<T>(states: seq<State<T>>, steps: seq<Step<T>>, i: nat)
    requires IsRun(states, steps) && i < |states|
    ensures states[i].accepted == Requested(steps, i)
  {
    if i > 0 {
      assert StepAt(states, steps, i - 1);
      AcceptedIsRequested(states, steps, i - 1);
      StoppedIff(states, steps, i - 1);
      if steps[i - 1].Accept? {
        PostersCarry(states, steps, i - 1, steps[i - 1].t);
      }
    }
  }

  // ---- What every run guarantees ----

  lemma HandedIsPrefixed<T>(s: State<T>)
    requires Inv(s)
    ensures IsSubsequence(s.written, s.accepted)
  {
    var h := Handed(s);
    if s.pending.data.Some? {
      var before, last := s.accepted[..|s.accepted| - 1], s.accepted[|s.accepted| - 1];
      SubsequenceGrows(h, before, last);
      assert before + [last] == s.accepted;
    }
    assert IsSubsequence(h, s.accepted);
    if s.worker.Saving? {
      PrefixOfSubsequence(s.written, s.worker.snap, s.accepted);
    } else {
      assert h == s.written;
    }
  }

  lemma {:induction false} PrefixOfSubsequence<T>(a: seq<T>, x: T, b: seq<T>)
    requires IsSubsequence(a + [x], b)
    ensures IsSubsequence(a, b)
    decreases |b|
  {
    if b != [] {
      assert (a + [x])[..|a|] == a;
      var rest := b[..|b| - 1];
      if IsSubsequence(a + [x], rest) {
        PrefixOfSubsequence(a, x, rest);
      }
      assert IsSubsequence(a, rest) ==> IsSubsequence(a, b);
    }
  }

  /** In every run, what was written is an in-order subsequence of what was asked for, and no wakeup is lost. */
  lemma RunWritesInOrder<T>(states: seq<State<T>>, steps: seq<Step<T>>, i: nat)
    requires IsRun(states, steps) && i < |states|
    ensures IsSubsequence(states[i].written, Requested(steps, i))
    ensures WakeInv(states[i])
  {
    RunKeepsInv(states, steps, i);
    AcceptedIsRequested(states, steps, i);
    HandedIsPrefixed(states[i]);
  }

  ghost predicate LastAskedIsOnDisk<T>(written: seq<T>, asked: seq<T>) {
    asked != [] ==> written != [] && written[|written| - 1] == asked[|asked| - 1]
  }

  /** Once a shutdown call that stopped the writer has returned, nothing is pending and the last snapshot asked for
      was written last. */
  lemma ShutdownDrains<T>(states: seq<State<T>>, steps: seq<Step<T>>, i: nat)
    requires IsRun(states, steps) && i < |states| && states[i].closer.Closed?
    ensures states[i].pending.stop && states[i].pending.data.None?
    ensures LastAskedIsOnDisk(states[i].written, Requested(steps, i))
  {
    RunKeepsInv(states, steps, i);
    AcceptedIsRequested(states, steps, i);
  }

  lemma ClosedStays<T>(s: State<T>, step: Step<T>)
    requires Inv(s) && s.closer.Closed? && Enabled(s, step)
    ensures var r := Apply(s, step); r.closer.Closed? && r.accepted == s.accepted && r.written == s.written
  {
  }

  /** And nothing is accepted or written in all that follows. */
  lemma {:induction false} ClosedIsFinal<T>(states: seq<State<T>>, steps: seq<Step<T>>, i: nat, j: nat)
    requires IsRun(states, steps) && i <= j < |states| && states[i].closer.Closed?
    ensures states[j].closer.Closed? && states[j].accepted == states[i].accepted && states[j].written == states[i].written
  {
    if i < j {
      ClosedIsFinal(states, steps, i, j - 1);
      RunKeepsInv(states, steps, j - 1);
      assert StepAt(states, steps, j - 1);
      ClosedStays(states[j - 1], steps[j - 1]);
    }
  }

  // ---- No deadlock ----

  /** Nobody is in the middle of anything. */
  ghost predicate Quiet<T>(s: State<T>) {
    && (forall t :: 0 <= t < |s.posters| ==> s.posters[t].Idle?)
    && (s.closer.NotStopping? || s.closer.Closed?)
    && (s.worker.NotSpawned? || s.worker.Waiting? || s.worker.Exited?)
  }

  /** No deadlock: unless all is quiet, some thread can carry on. */
  lemma SomeStepEnabled<T>(s: State<T>) returns (step: Step<T>)
    requires Inv(s) && !Quiet(s)
    ensures step.Internal() && Enabled(s, step)
  {
    if s.worker.Checking? {
      step := Check;
    } else if s.worker.Saving? {
      step := Save;
    } else if s.closer.Signalling? {
      step := CloserNotify;
    } else if t :| 0 <= t < |s.posters| && !s.posters[t].Idle? && !s.posters[t].Wants? {
      step := match s.posters[t] {
        case Holds(_) => Accept(t)
        case Spawning => Spawn(t)
        case Unlocking => Unlock(t)
        case Notifying => Notify(t)
      };
    } else if t :| 0 <= t < |s.posters| && s.posters[t].Wants? {
      step := Lock(t);
    } else if s.closer.Taking? {
      step := CloserTake;
    } else {
      assert !WakeupUnderway(s);
      step := CloserJoin;
    }
  }

  /** When all is quiet, everything accepted has been handled: the newest accepted snapshot is on disk. */
  lemma QuietIsDrained<T>(s: State<T>)
    requires Inv(s) && Quiet(s)
    ensures s.pending.data.None?
    ensures LastAskedIsOnDisk(s.written, s.accepted)
  {
    assert !WakeupUnderway(s);
  }

  // ---- Every run settles ----

  function PosterWork<T>(p: Poster<T>): nat {
    match p
    case Idle => 0
    case Wants(_) => 9
    case Holds(_) => 8
    case Spawning => 5
    case Unlocking => 3
    case Notifying => 2
  }

  function PostersWork<T>(posters: seq<Poster<T>>): nat {
    if posters == [] then 0 else PosterWork(posters[0]) + PostersWork(posters[1..])
  }

  /** An upper bound on the steps left before all is quiet, if no new call begins. */
  function Work<T>(s: State<T>): nat {
    PostersWork(s.posters)
    + (if s.pending.data.Some? then 2 else 0)
    + (match s.worker case Checking => 1 case Saving(_) => 2 case _ => 0)
    + (match s.closer case Signalling => 4 case Taking => 2 case Joining => 1 case _ => 0)
  }

  lemma {:induction false} PostersWorkAt<T>(posters: seq<Poster<T>>, t: nat, p: Poster<T>)
    requires t < |posters|
    ensures PostersWork(posters[t := p]) == PostersWork(posters) - PosterWork(posters[t]) + PosterWork(p)
  {
    if t == 0 {
      assert posters[t := p][1..] == posters[1..];
    } else {
      assert posters[t := p][1..] == posters[1..][t - 1 := p];
      PostersWorkAt(posters[1..], t - 1, p);
    }
  }

  /** A poster's next step shortens what it has left, and is the only one to touch it. */
  lemma PosterDoesWork<T>(s: State<T>, step: Step<T>, t: nat)
    requires Enabled(s, step) && step.Internal()
    requires step == Lock(t) || step == Accept(t) || step == Spawn(t) || step == Unlock(t) || step == Notify(t)
    ensures Work(Apply(s, step)) < Work(s)
  {
    PostersWorkAt(s.posters, t, Apply(s, step).posters[t]);
    assert Apply(s, step).posters == s.posters[t := Apply(s, step).posters[t]];
  }

  lemma StepDoesWork<T>(s: State<T>, step: Step<T>)
    requires Enabled(s, step) && step.Internal()
    ensures Work(Apply(s, step)) < Work(s)
  {
    match step {
      case Lock(t) => PosterDoesWork(s, step, t);
      case Accept(t) => PosterDoesWork(s, step, t);
      case Spawn(t) => PosterDoesWork(s, step, t);
      case Unlock(t) => PosterDoesWork(s, step, t);
      case Notify(t) => PosterDoesWork(s, step, t);
      case _ =>
    }
  }

  /** Without new calls a run takes at most `Work` steps: under any schedule the posters return, the
      worker writes what is pending, and a shutdown call comes back. */
  lemma {:induction false} RunSettles<T>(states: seq<State<T>>, steps: seq<Step<T>>, from: nat, i: nat)
    requires IsRun(states, steps) && from <= i < |states|
    requires forall k :: from <= k < i ==> steps[k].Internal()
    ensures i - from + Work(states[i]) <= Work(states[from])
  {
    if from < i {
      RunSettles(states, steps, from, i - 1);
      assert StepAt(states, steps, i - 1);
      StepDoesWork(states[i - 1], steps[i - 1]);
    }
  }

  /** Where a run can go no further without a new call, every call has returned, the shutdown call included,
      and the newest snapshot asked for is on disk. */
  lemma StuckRunIsDone<T>(states: seq<State<T>>, steps: seq<Step<T>>, i: nat)
    requires IsRun(states, steps) && i < |states|
    requires forall step: Step<T> :: step.Internal() ==> !Enabled(states[i], step)
    ensures Quiet(states[i]) && states[i].pending.data.None?
    ensures states[i].pending.stop ==> states[i].closer.Closed?
    ensures LastAskedIsOnDisk(states[i].written, Requested(steps, i))
  {
    RunKeepsInv(states, steps, i);
    AcceptedIsRequested(states, steps, i);
    if !Quiet(states[i]) {
      var step := SomeStepEnabled(states[i]);
    }
    QuietIsDrained(states[i]);
  }
}
