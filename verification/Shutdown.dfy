/** The shutdown hand-shake: callbacks, a counter, and a notification that stays until it is taken. */
module Shutdown {
  /** How far a handler has come: told to shut down, taken off the counter, and having notified the message handler. */
  datatype Stage = Registered | Called | Counted | Notified

  /** Where the message handler is. In `Calling(k)` the handlers numbered `k` and above have been called. */
  datatype Phase = Running | Calling(left: nat) | Testing | Waiting | Acking | Finished

  /**
   * Handlers are numbered in the order they register. `begun` is how many there were when the request came,
   * `called` the callbacks made so far.
   */
  datatype State = State(
    phase: Phase,
    stages: seq<Stage>,
    counter: int,
    pending: bool,
    begun: nat,
    called: seq<nat>
  )

  /** One atomic step: of a task that registers, of the message handler, of a task acknowledging, or of an interrupt. */
  datatype Action = Register | Advance | Decrement(handler: nat) | Notify(handler: nat) | Interrupt

  predicate Enabled(s: State, a: Action) {
    match a
    case Register => true
    case Advance =>
      !s.phase.Finished? && (s.phase.Waiting? ==> s.pending) && (s.phase.Calling? ==> s.phase.left <= |s.stages|)
    case Decrement(h) => h < |s.stages| && s.stages[h].Called?
    case Notify(h) => h < |s.stages| && s.stages[h].Counted?
    case Interrupt => true
  }

  /** The message handler's next step; from `Running`, the request comes in. */
  function Advanced(s: State): State
    requires Enabled(s, Advance)
  {
    match s.phase
    case Running => s.(phase := Calling(|s.stages|), begun := |s.stages|, pending := false)
    case Calling(k) =>
      if k > 0 then
        s.(phase := Calling(k - 1), stages := s.stages[k - 1 := Called], called := s.called + [k - 1])
      else
        s.(phase := if s.stages != [] then Testing else Acking)
    case Testing => s.(phase := if s.counter == 0 then Acking else Waiting)
    case Waiting => s.(phase := Testing, pending := false)
    case Acking => s.(phase := Finished)
  }

  function Apply(s: State, a: Action): State
    requires Enabled(s, a)
  {
    match a
    case Register => s.(stages := s.stages + [Registered], counter := s.counter + 1)
    case Advance => Advanced(s)
    case Decrement(h) => s.(stages := s.stages[h := Counted], counter := s.counter - 1)
    case Notify(h) => s.(stages := s.stages[h := Notified], pending := true)
    case Interrupt => s.(pending := true)
  }

  predicate LegalRun(s: State, run: seq<Action>)
    decreases |run|
  {
    run == [] || (Enabled(s, run[0]) && LegalRun(Apply(s, run[0]), run[1..]))
  }

  function Run(s: State, run: seq<Action>): State
    requires LegalRun(s, run)
    decreases |run|
  {
    if run == [] then s else Run(Apply(s, run[0]), run[1..])
  }

  function Start(): State {
    State(Running, [], 0, false, 0, [])
  }

  // ---------- the invariant ----------

  /** Taken off the counter. */
  predicate Settled(v: Stage) {
    v.Counted? || v.Notified?
  }

  /** Handlers not taken off the counter yet. */
  function Owing(stages: seq<Stage>): nat {
    if stages == [] then 0
    else Owing(stages[..|stages| - 1]) + if Settled(stages[|stages| - 1]) then 0 else 1
  }

  lemma {:induction false} OwingStep(stages: seq<Stage>, h: nat, v: Stage)
    requires h < |stages|
    ensures var (was, now) := (if Settled(stages[h]) then 0 else 1, if Settled(v) then 0 else 1);
      Owing(stages[h := v]) == Owing(stages) - was + now
  {
    var n := |stages| - 1;
    if h == n {
      assert stages[h := v][..n] == stages[..n];
    } else {
      OwingStep(stages[..n], h, v);
      assert stages[h := v][..n] == stages[..n][h := v];
    }
  }

  lemma {:induction false} NothingOwing(stages: seq<Stage>)
    ensures Owing(stages) == 0 <==> forall h :: 0 <= h < |stages| ==> Settled(stages[h])
  {
    if stages != [] {
      var n := |stages| - 1;
      NothingOwing(stages[..n]);
      if Owing(stages) == 0 {
        forall h | 0 <= h <= n ensures Settled(stages[h]) {
          if h < n { assert stages[..n][h] == stages[h]; }
        }
      }
    }
  }

  /** The numbers from `n - 1` down to `k`. */
  function DownTo(n: nat, k: nat): (r: seq<nat>)
    requires k <= n
    ensures |r| == n - k && forall i :: 0 <= i < |r| ==> r[i] == n - 1 - i
    decreases n - k
  {
    if k == n then [] else DownTo(n, k + 1) + [k]
  }

  /** Callbacks still to be made. */
  function Left(s: State): nat {
    match s.phase
    case Running => s.begun
    case Calling(k) => k
    case _ => 0
  }

  predicate Unacknowledged(s: State) {
    exists h :: 0 <= h < |s.stages| && s.stages[h].Counted?
  }

  ghost predicate Inv(s: State) {
    && s.counter == Owing(s.stages)
    && Left(s) <= s.begun <= |s.stages|
    && s.called == DownTo(s.begun, Left(s))
    && (forall h :: 0 <= h < |s.stages| ==> (s.stages[h].Registered? <==> h < Left(s) || h >= s.begun))
    && (s.phase.Running? ==> s.begun == 0)
    && (s.phase.Waiting? && s.counter == 0 ==> s.pending || Unacknowledged(s))
    && (s.phase in {Testing, Waiting} ==> s.stages != [])
    && (s.phase in {Acking, Finished} ==> forall h :: 0 <= h < s.begun ==> Settled(s.stages[h]))
  }

  lemma RegisterKeeps(s: State)
    requires Inv(s)
    ensures Inv(Apply(s, Register))
  {
    var s' := Apply(s, Register);
    assert s'.stages[..|s.stages|] == s.stages;
  }

  lemma AdvanceKeeps(s: State)
    requires Inv(s) && Enabled(s, Advance)
    ensures Inv(Apply(s, Advance))
  {
    match s.phase
    case Calling(k) => CallKeeps(s, k);
    case Testing => NothingOwing(s.stages);
    case _ =>
  }

  lemma CallKeeps(s: State, k: nat)
    requires Inv(s) && Enabled(s, Advance) && s.phase == Calling(k)
    ensures Inv(Apply(s, Advance))
  {
    if k > 0 { OwingStep(s.stages, k - 1, Called); }
  }

  lemma DecrementKeeps(s: State, h: nat)
    requires Inv(s) && Enabled(s, Decrement(h))
    ensures Inv(Apply(s, Decrement(h)))
  {
    OwingStep(s.stages, h, Counted);
    assert Apply(s, Decrement(h)).stages[h].Counted?;
  }

  lemma NotifyKeeps(s: State, h: nat)
    requires Inv(s) && Enabled(s, Notify(h))
    ensures Inv(Apply(s, Notify(h)))
  {
    OwingStep(s.stages, h, Notified);
  }

  lemma ApplyKeeps(s: State, a: Action)
    requires Inv(s) && Enabled(s, a)
    ensures Inv(Apply(s, a))
  {
    match a
    case Register => RegisterKeeps(s);
    case Advance => AdvanceKeeps(s);
    case Decrement(h) => DecrementKeeps(s, h);
    case Notify(h) => NotifyKeeps(s, h);
    case Interrupt =>
  }

  lemma {:induction false} RunKeeps(s: State, run: seq<Action>)
    requires Inv(s) && LegalRun(s, run)
    ensures Inv(Run(s, run))
    decreases |run|
  {
    if run != [] {
      ApplyKeeps(s, run[0]);
      RunKeeps(Apply(s, run[0]), run[1..]);
    }
  }

  // ---------- safety ----------

  /**
   * The host is told only after every handler there was when the request came has been called once, in reverse
   * order of registration, and has been taken off the counter by its acknowledgement.
   */
  lemma HostToldLast(run: seq<Action>)
    requires LegalRun(Start(), run)
    ensures var s := Run(Start(), run);
      s.phase in {Acking, Finished} ==>
        && |s.called| == s.begun <= |s.stages|
        && (forall i :: 0 <= i < |s.called| ==> s.called[i] == s.begun - 1 - i)
        && (forall h :: 0 <= h < s.begun ==> Settled(s.stages[h]))
  {
    RunKeeps(Start(), run);
  }

  /** Callbacks come in reverse order and at most once each at every moment, and none before the request. */
  lemma CalledInReverse(run: seq<Action>)
    requires LegalRun(Start(), run)
    ensures var s := Run(Start(), run);
      && (forall i :: 0 <= i < |s.called| ==> s.called[i] == s.begun - 1 - i >= 0)
      && (s.phase.Running? ==> s.called == [])
      && (forall h :: 0 <= h < |s.stages| && !s.stages[h].Registered? ==> h in s.called)
  {
    RunKeeps(Start(), run);
    var s := Run(Start(), run);
    forall h | 0 <= h < |s.stages| && !s.stages[h].Registered? ensures h in s.called {
      assert s.called[s.begun - 1 - h] == h;
    }
  }

  /** No wake-up is lost: the message handler never waits with nothing left to count and nothing to wake it. */
  lemma NoLostWakeUp(run: seq<Action>)
    requires LegalRun(Start(), run)
    ensures var s := Run(Start(), run);
      s.phase.Waiting? && s.counter == 0 ==> s.pending || Unacknowledged(s)
  {
    RunKeeps(Start(), run);
  }

  // ---------- the hand-shake finishes, unless a handler registers late ----------

  /** Somebody registered after the request came, and before the message handler found all acknowledged. */
  predicate Late(s: State) {
    Underway(s) && |s.stages| > s.begun
  }

  predicate Underway(s: State) {
    s.phase.Calling? || s.phase.Testing? || s.phase.Waiting?
  }

  function Work(stages: seq<Stage>): nat {
    if stages == [] then 0
    else
      Work(stages[..|stages| - 1]) +
      match stages[|stages| - 1]
      case Registered => 3
      case Called => 2
      case Counted => 1
      case Notified => 0
  }

  lemma {:induction false} WorkFalls(stages: seq<Stage>, h: nat, v: Stage)
    requires h < |stages| && v == Next(stages[h]) != stages[h]
    ensures Work(stages[h := v]) < Work(stages)
  {
    var n := |stages| - 1;
    if h == n {
      assert stages[h := v][..n] == stages[..n];
    } else {
      WorkFalls(stages[..n], h, v);
      assert stages[h := v][..n] == stages[..n][h := v];
    }
  }

  function Next(v: Stage): Stage {
    match v
    case Registered => Called
    case Called => Counted
    case Counted => Notified
    case Notified => Notified
  }

  function Distance(p: Phase): nat {
    match p
    case Running => 5
    case Calling(_) => 4
    case Testing => 3
    case Waiting => 2
    case Acking => 1
    case Finished => 0
  }

  /** The next step towards the end, when nobody else registers. */
  lemma Forward(s: State) returns (a: Action)
    requires Inv(s) && !s.phase.Finished? && !s.phase.Running? && |s.stages| == s.begun
    ensures Enabled(s, a) && !a.Register? && |Apply(s, a).stages| == s.begun == Apply(s, a).begun
    ensures !Apply(s, a).phase.Running?
    ensures var s' := Apply(s, a);
      || Work(s'.stages) < Work(s.stages)
      || (s'.stages == s.stages && s.pending && !s'.pending)
      || (s'.stages == s.stages && s'.pending == s.pending && Distance(s'.phase) < Distance(s.phase))
  {
    a := Advance;
    match s.phase
    case Calling(k) =>
      if k > 0 { WorkFalls(s.stages, k - 1, Called); }
    case Waiting =>
      if h :| 0 <= h < |s.stages| && s.stages[h].Called? {
        a := Decrement(h);
        WorkFalls(s.stages, h, Counted);
      } else if h :| 0 <= h < |s.stages| && s.stages[h].Counted? {
        a := Notify(h);
        WorkFalls(s.stages, h, Notified);
      } else {
        NothingOwing(s.stages);
      }
    case _ =>
  }

  /** From every state in which nobody has registered late the tasks can finish the hand-shake. */
  lemma {:induction false} Finishes(s: State) returns (run: seq<Action>)
    requires Inv(s) && !s.phase.Running? && |s.stages| == s.begun
    ensures LegalRun(s, run) && Run(s, run).phase.Finished?
    decreases Work(s.stages), s.pending, Distance(s.phase)
  {
    if s.phase.Finished? {
      return [];
    }
    var a := Forward(s);
    ApplyKeeps(s, a);
    var rest := Finishes(Apply(s, a));
    assert ([a] + rest)[1..] == rest;
    run := [a] + rest;
  }

  lemma LateStaysLate(s: State, a: Action)
    requires Inv(s) && Late(s) && Enabled(s, a)
    ensures Late(Apply(s, a))
  {
    NothingOwing(s.stages);
    assert s.stages[s.begun].Registered?;
  }

  /** A handler that registers late is counted but never called, so the host is never told. */
  lemma {:induction false} LateNeverFinishes(s: State, run: seq<Action>)
    requires Inv(s) && Late(s) && LegalRun(s, run)
    ensures Late(Run(s, run))
    decreases |run|
  {
    if run != [] {
      ApplyKeeps(s, run[0]);
      LateStaysLate(s, run[0]);
      LateNeverFinishes(Apply(s, run[0]), run[1..]);
    }
  }

  ghost predicate CanFinish(s: State) {
    exists run :: LegalRun(s, run) && Run(s, run).phase.Finished?
  }

  /** From the request until the count is found zero, the hand-shake can finish if and only if nobody was late. */
  lemma FinishesExactlyIfNobodyLate(run: seq<Action>)
    requires LegalRun(Start(), run)
    ensures var s := Run(Start(), run);
      Underway(s) ==> (CanFinish(s) <==> |s.stages| == s.begun)
  {
    RunKeeps(Start(), run);
    var s := Run(Start(), run);
    if Underway(s) {
      if Late(s) {
        forall more | LegalRun(s, more) ensures !Run(s, more).phase.Finished? {
          LateNeverFinishes(s, more);
        }
      } else {
        var more := Finishes(s);
      }
    }
  }

  // ---------- the driver ----------

  class MessageHandler {
    var phase: Phase
    var stages: seq<Stage>
    var shutdownCounter: int
    var pending: bool
    var begun: nat
    var called: seq<nat>

    function View(): State
      reads this
    {
      State(phase, stages, shutdownCounter, pending, begun, called)
    }

    method AddShutdownHandler()
      modifies this
      ensures View() == Apply(old(View()), Register)
    {
      stages := stages + [Registered];
      shutdownCounter := shutdownCounter + 1;
    }

    /** Only for a handler that has been called, and once. */
    method AckShutdown(h: nat)
      requires h < |stages| && stages[h].Called?
      modifies this
      ensures View() == Run(old(View()), [Decrement(h), Notify(h)])
    {
      TwoSteps(View(), h);
      stages := stages[h := Counted];
      shutdownCounter := shutdownCounter - 1;
      stages := stages[h := Notified];
      pending := true;
    }

    /** The callbacks, when nothing comes between. */
    method CallHandlers() returns (ghost run: seq<Action>)
      requires phase.Running? && Inv(View())
      modifies this`phase, this`stages, this`pending, this`begun, this`called
      ensures LegalRun(old(View()), run) && View() == Run(old(View()), run)
      ensures forall i :: 0 <= i < |run| ==> run[i] == Advance
      ensures phase == Calling(0) && begun == |stages| == |old(stages)| && called == DownTo(begun, 0)
      ensures forall h :: 0 <= h < |stages| ==> stages[h].Called?
      ensures shutdownCounter == old(shutdownCounter)
    {
      ghost var s0 := View();
      run := [Advance];
      begun := |stages|;
      pending := false;
      var it: nat := |stages|;
      phase := Calling(it);
      while it != 0
        invariant it <= |stages| == begun == |old(stages)| && phase == Calling(it)
        invariant forall i :: 0 <= i < |run| ==> run[i] == Advance
        invariant forall h :: it <= h < |stages| ==> stages[h].Called?
        invariant LegalRun(s0, run) && View() == Run(s0, run) && Inv(View())
      {
        RunThen(s0, run, Advance);
        AdvanceKeeps(View());
        it := it - 1;
        called := called + [it];
        stages := stages[it := Called];
        phase := Calling(it);
        run := run + [Advance];
      }
    }
  }

  lemma TwoSteps(s: State, h: nat)
    requires h < |s.stages| && s.stages[h].Called?
    ensures LegalRun(s, [Decrement(h), Notify(h)])
    ensures Run(s, [Decrement(h), Notify(h)]) == Apply(Apply(s, Decrement(h)), Notify(h))
  {
    var run := [Decrement(h), Notify(h)];
    var s1 := Apply(s, Decrement(h));
    assert run[1..] == [Notify(h)] && [Notify(h)][1..] == [];
    assert LegalRun(s1, [Notify(h)]) && Run(s1, [Notify(h)]) == Apply(s1, Notify(h));
  }

  lemma {:induction false} RunThen(s: State, run: seq<Action>, a: Action)
    requires LegalRun(s, run) && Enabled(Run(s, run), a)
    ensures LegalRun(s, run + [a]) && Run(s, run + [a]) == Apply(Run(s, run), a)
    decreases |run|
  {
    if run == [] {
      assert run + [a] == [a];
    } else {
      RunThen(Apply(s, run[0]), run[1..], a);
      assert (run + [a])[1..] == run[1..] + [a];
    }
  }
}
