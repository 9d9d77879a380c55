/** The bus switch: two downstream buses on one parent, a lock, and a note of the channel switched on. */
module Mux {
  import opened Common

  type Channel = c: nat | c < 2

  /** What goes over the parent bus, and the channel that was on. */
  datatype Traffic =
    | Switched(task: nat, to: Option<Channel>, ok: bool)
    | Began(task: nat, channel: Channel, on: Option<Channel>)
    | Ended(task: nat, channel: Channel, on: Option<Channel>)

  /**
   * What the tasks share: the recursive lock, the driver's note of the active bus, the chip's register and the
   * traffic so far. A write to the chip that fails leaves its register alone.
   */
  datatype Shared = Shared(
    owner: Option<nat>,
    depth: nat,
    noted: Option<Channel>,
    register: Option<Channel>,
    log: seq<Traffic>
  ) {
    predicate Takeable(t: nat) {
      owner.None? || owner == Some(t)
    }

    function Take(t: nat): Shared {
      this.(owner := Some(t), depth := depth + 1)
    }

    function Give(): Shared
      requires depth > 0
    {
      this.(depth := depth - 1, owner := if depth == 1 then None else owner)
    }

    function Switch(t: nat, to: Option<Channel>, ok: bool): Shared {
      this.(register := if ok then to else register, log := log + [Switched(t, to, ok)])
    }

    function Note(to: Option<Channel>): Shared {
      this.(noted := to)
    }

    function Begin(t: nat, c: Channel): Shared {
      this.(log := log + [Began(t, c, register)])
    }

    function End(t: nat, c: Channel): Shared {
      this.(log := log + [Ended(t, c, register)])
    }
  }

  /** Every batch has its own channel on, from its beginning to its end, and nothing comes between. */
  ghost predicate Isolated(log: seq<Traffic>) {
    && (forall i :: 0 <= i < |log| && log[i].Began? ==>
          log[i].on == Some(log[i].channel) &&
          (i + 1 < |log| ==> log[i + 1] == Ended(log[i].task, log[i].channel, log[i].on)))
    && (forall i :: 0 <= i < |log| && log[i].Ended? ==>
          i > 0 && log[i - 1] == Began(log[i].task, log[i].channel, log[i].on))
  }

  /** No batch is under way. */
  predicate Quiet(log: seq<Traffic>) {
    log != [] ==> !log[|log| - 1].Began?
  }

  // ---------- one call after another ----------

  const LOCK_ERROR: int := -1

  /** The channel a control byte switches on, of those that do not ask for both: bit 0 stands for the first one. */
  function Selected(data: byte): Option<Channel>
    requires data < 3
  {
    if data % 2 == 1 then Some(0) else if data / 2 % 2 == 1 then Some(1) else None
  }

  /** The byte for one channel, and for none. */
  function Control(to: Option<Channel>): (data: byte)
    ensures data < 3 && Selected(data) == to
    ensures to.Some? ==> data == if to.value == 0 then 1 else 2
    ensures to.None? ==> data == 0
  {
    match to
    case None => 0
    case Some(c) => Shifted(1, c)
  }

  function Shifted(v: nat, k: nat): nat {
    if k == 0 then v else 2 * Shifted(v, k - 1)
  }

  class PCA9543A {
    var shared: Shared
    /** Results the parent bus has in store; when this runs out, everything succeeds. */
    var outlook: seq<int>

    function Next(): int
      reads this
    {
      if outlook == [] then 0 else outlook[0]
    }

    method Result() returns (err: int)
      modifies this`outlook
      ensures err == old(Next())
      ensures outlook == if old(outlook) == [] then [] else old(outlook)[1..]
    {
      err := Next();
      outlook := if outlook == [] then [] else outlook[1..];
    }

    method SendPacket(t: nat, data: byte) returns (err: int)
      requires data < 3
      modifies this
      ensures old(shared.Takeable(t)) ==>
        err == old(Next()) && outlook == (if old(outlook) == [] then [] else old(outlook)[1..]) &&
        shared == old(shared).Take(t).Switch(t, Selected(data), err == 0).Give()
      ensures !old(shared.Takeable(t)) ==> err == LOCK_ERROR && unchanged(this)
    {
      if !shared.Takeable(t) {
        return LOCK_ERROR;
      }
      shared := shared.Take(t);
      err := Result();
      shared := shared.Switch(t, Selected(data), err == 0);
      shared := shared.Give();
    }

    method ActivateBus(t: nat, c: Channel) returns (err: int)
      modifies this
      ensures old(shared.Takeable(t)) ==>
        err == old(Next()) && outlook == (if old(outlook) == [] then [] else old(outlook)[1..]) &&
        shared ==
          (var s := old(shared).Take(t).Switch(t, Some(c), err == 0).Give(); if err == 0 then s.Note(Some(c)) else s)
      ensures !old(shared.Takeable(t)) ==> err == LOCK_ERROR && unchanged(this)
      ensures old(shared.owner.None? && shared.depth == 0) ==> shared == AfterDirect(old(shared), t, Some(c), err == 0)
    {
      err := SendPacket(t, Control(Some(c)));
      if err == 0 {
        shared := shared.Note(Some(c));
      }
    }

    method DeactivateBus(t: nat) returns (err: int)
      modifies this
      ensures old(shared.Takeable(t)) ==>
        err == old(Next()) &&
        shared == (var s := old(shared).Take(t).Switch(t, None, err == 0).Give(); if err == 0 then s.Note(None) else s)
      ensures !old(shared.Takeable(t)) ==> err == LOCK_ERROR && unchanged(this)
      ensures old(shared.owner.None? && shared.depth == 0) ==> shared == AfterDirect(old(shared), t, None, err == 0)
    {
      err := SendPacket(t, 0);
      if err == 0 {
        shared := shared.Note(None);
      }
    }

    /** A batch on a downstream bus reaches the parent with its channel on, or not at all; the lock is given back. */
    method Perform(t: nat, c: Channel) returns (err: int)
      requires shared.noted == shared.register && (shared.owner.None? <==> shared.depth == 0)
      requires Isolated(shared.log) && Quiet(shared.log)
      modifies this
      ensures shared.noted == shared.register && Isolated(shared.log) && Quiet(shared.log)
      ensures shared.owner == old(shared.owner) && shared.depth == old(shared.depth)
      ensures !old(shared.Takeable(t)) ==> err == LOCK_ERROR && unchanged(this)
      ensures old(shared.Takeable(t)) ==> shared == AfterBatch(old(shared), t, c, old(Next()) == 0)
      ensures old(shared.Takeable(t)) && old(shared.noted) != Some(c) && old(Next()) != 0 ==>
        err == old(Next()) && shared.register == old(shared.register) &&
        shared.log == old(shared.log) + [Switched(t, Some(c), false)]
      ensures old(shared.Takeable(t)) && (old(shared.noted) == Some(c) || old(Next()) == 0) ==>
        && err == (if old(shared.noted) == Some(c) then old(Next())
                   else if |old(outlook)| < 2 then 0 else old(outlook)[1])
        && shared.register == Some(c)
        && shared.log == old(shared.log) +
           (if old(shared.noted) == Some(c) then [] else [Switched(t, Some(c), true)]) +
           [Began(t, c, Some(c)), Ended(t, c, Some(c))]
    {
      if !shared.Takeable(t) {
        return LOCK_ERROR;
      }
      BatchKeepsIsolated(shared, t, c, Next() == 0);
      shared := shared.Take(t);
      if shared.noted != Some(c) {
        err := ActivateBus(t, c);
        if err != 0 {
          shared := shared.Give();
          return;
        }
      }
      err := Forward(t, c);
    }

    /** The batch itself, with its channel on. */
    method Forward(t: nat, c: Channel) returns (err: int)
      requires shared.depth > 0 && shared.register == Some(c)
      modifies this
      ensures err == old(Next()) && shared == old(shared).Begin(t, c).End(t, c).Give()
    {
      shared := shared.Begin(t, c);
      err := Result();
      shared := shared.End(t, c);
      shared := shared.Give();
    }
  }

  lemma Appended(log: seq<Traffic>, e: Traffic)
    requires Isolated(log) && e.Switched? && Quiet(log)
    ensures Isolated(log + [e]) && Quiet(log + [e])
  {
  }

  lemma AppendedBatch(log: seq<Traffic>, t: nat, c: Channel)
    requires Isolated(log) && Quiet(log)
    ensures Isolated(log + [Began(t, c, Some(c))])
    ensures Isolated(log + [Began(t, c, Some(c))] + [Ended(t, c, Some(c))])
  {
  }

  /** What a batch comes to keeps batches isolated, and the note in agreement with the chip. */
  lemma BatchKeepsIsolated(s: Shared, t: nat, c: Channel, ok: bool)
    requires s.noted == s.register && Isolated(s.log) && Quiet(s.log)
    ensures var s' := AfterBatch(s, t, c, ok);
      && s'.noted == s'.register && Isolated(s'.log) && Quiet(s'.log) && s'.owner == s.owner && s'.depth == s.depth
      && if s.noted != Some(c) && !ok then s'.register == s.register && s'.log == s.log + [Switched(t, Some(c), false)]
         else
           && s'.register == Some(c)
           && s'.log == s.log + (if s.noted == Some(c) then [] else [Switched(t, Some(c), true)]) +
                        [Began(t, c, Some(c)), Ended(t, c, Some(c))]
  {
    var log := s.log;
    if s.noted != Some(c) {
      Appended(log, Switched(t, Some(c), ok));
      log := log + [Switched(t, Some(c), ok)];
    } else {
      assert log + [] == log;
    }
    if s.noted == Some(c) || ok { WholeBatch(log, t, c); }
  }

  lemma WholeBatch(log: seq<Traffic>, t: nat, c: Channel)
    requires Isolated(log) && Quiet(log)
    ensures var (began, ended) := (Began(t, c, Some(c)), Ended(t, c, Some(c)));
      && log + [began] + [ended] == log + [began, ended]
      && Isolated(log + [began] + [ended]) && Quiet(log + [began] + [ended])
  {
    AppendedBatch(log, t, c);
  }

  // ---------- all interleavings ----------

  /**
   * Where a task is. A downstream batch goes through all of these; a direct call to switch channels enters at
   * `Switching` and ends at `Back`, where it stores its note without holding the lock.
   */
  datatype Point =
    | Idle
    | Locked(channel: Channel)
    | Nesting(channel: Channel)
    | Switching(to: Option<Channel>, nested: bool)
    | Sent(to: Option<Channel>, nested: bool, ok: bool)
    | Back(to: Option<Channel>, nested: bool, ok: bool)
    | Ready(channel: Channel)
    | Busy(channel: Channel)
    | Leaving

  /** How often the task holds the lock. */
  function Holds(p: Point): nat {
    match p
    case Idle => 0
    case Switching(_, nested) => if nested then 2 else 1
    case Sent(_, nested, _) => if nested then 2 else 1
    case Back(_, nested, _) => if nested then 1 else 0
    case _ => 1
  }

  /** `direct` tells whether tasks may also switch channels themselves. */
  datatype Machine = Machine(direct: bool, shared: Shared, at: map<nat, Point>) {
    function At(t: nat): Point {
      if t in at then at[t] else Idle
    }

    function Go(t: nat, s: Shared, p: Point): Machine {
      this.(shared := s, at := at[t := p])
    }
  }

  /** A task's next step. `ok` is how the parent bus answers, `enter` what an idle task calls. */
  datatype Call = Batch(channel: Channel) | Direct(to: Option<Channel>)
  datatype Step = Step(task: nat, call: Call, ok: bool)

  predicate Enabled(m: Machine, a: Step) {
    match m.At(a.task)
    case Idle => m.shared.Takeable(a.task) && (a.call.Direct? ==> m.direct)
    case Nesting(_) => m.shared.Takeable(a.task)
    case Sent(_, _, _) => m.shared.depth > 0
    case Leaving => m.shared.depth > 0
    case _ => true
  }

  function Apply(m: Machine, a: Step): Machine
    requires Enabled(m, a)
  {
    var (t, s) := (a.task, m.shared);
    match m.At(t)
    case Idle =>
      (match a.call
       case Batch(c) => m.Go(t, s.Take(t), Locked(c))
       case Direct(to) => m.Go(t, s.Take(t), Switching(to, false)))
    case Locked(c) => m.Go(t, s, if s.noted == Some(c) then Ready(c) else Nesting(c))
    case Nesting(c) => m.Go(t, s.Take(t), Switching(Some(c), true))
    case Switching(to, nested) => m.Go(t, s.Switch(t, to, a.ok), Sent(to, nested, a.ok))
    case Sent(to, nested, ok) => m.Go(t, s.Give(), Back(to, nested, ok))
    case Back(to, nested, ok) =>
      m.Go(t, if ok then s.Note(to) else s,
           if !nested then Idle else if ok && to.Some? then Ready(to.value) else Leaving)
    case Ready(c) => m.Go(t, s.Begin(t, c), Busy(c))
    case Busy(c) => m.Go(t, s.End(t, c), Leaving)
    case Leaving => m.Go(t, s.Give(), Idle)
  }

  predicate LegalRun(m: Machine, run: seq<Step>)
    decreases |run|
  {
    run == [] || (Enabled(m, run[0]) && LegalRun(Apply(m, run[0]), run[1..]))
  }

  function Run(m: Machine, run: seq<Step>): Machine
    requires LegalRun(m, run)
    decreases |run|
  {
    if run == [] then m else Run(Apply(m, run[0]), run[1..])
  }

  /** After a reset of the switch. */
  function Start(direct: bool): Machine {
    Machine(direct, Shared(None, 0, None, None, []), map[])
  }

  /** The lock is held as often as its owner's point says, and by nobody else. */
  ghost predicate Balanced(m: Machine) {
    && (forall t: nat :: Holds(m.At(t)) > 0 ==> m.shared.owner == Some(t))
    && m.shared.depth == (if m.shared.owner.Some? then Holds(m.At(m.shared.owner.value)) else 0)
    && (m.shared.owner.Some? ==> m.shared.depth > 0)
  }

  lemma ApplyBalances(m: Machine, a: Step)
    requires Balanced(m) && Enabled(m, a)
    ensures Balanced(Apply(m, a))
  {
    var (t, m') := (a.task, Apply(m, a));
    assert Holds(m.At(t)) > 0 ==> m.shared.owner == Some(t);
    OthersStay(m, a);
  }

  lemma OthersStay(m: Machine, a: Step)
    requires Enabled(m, a)
    ensures forall u: nat :: u != a.task ==> Apply(m, a).At(u) == m.At(u)
  {
  }

  /** Without direct calls every switch is made for a batch. */
  ghost predicate NoDirect(m: Machine) {
    forall t: nat :: m.At(t).Switching? || m.At(t).Sent? || m.At(t).Back? ==> m.At(t).nested && m.At(t).to.Some?
  }

  /** What the owner of the lock knows. */
  ghost predicate Agrees(s: Shared, p: Point) {
    && Isolated(s.log)
    && match p
       case Sent(to, _, ok) => s.register == (if ok then to else s.noted) && Quiet(s.log)
       case Back(to, _, ok) => s.register == (if ok then to else s.noted) && Quiet(s.log)
       case Ready(c) => s.register == s.noted == Some(c) && Quiet(s.log)
       case Busy(c) => s.register == s.noted == Some(c) && s.log != []
       case _ => s.register == s.noted && Quiet(s.log)
  }

  ghost predicate Inv(m: Machine) {
    && Balanced(m) && NoDirect(m) && !m.direct
    && (m.shared.owner.None? ==> Agrees(m.shared, Idle))
    && (m.shared.owner.Some? ==>
          var t := m.shared.owner.value;
          && Agrees(m.shared, m.At(t))
          && (m.At(t).Busy? ==>
                m.shared.log[|m.shared.log| - 1] == Began(t, m.At(t).channel, Some(m.At(t).channel))))
  }

  lemma ApplyKeeps(m: Machine, a: Step)
    requires Inv(m) && Enabled(m, a)
    ensures Inv(Apply(m, a))
  {
    var (t, m') := (a.task, Apply(m, a));
    ApplyBalances(m, a);
    assert m.At(t).Idle? || m.shared.owner == Some(t) by { assert Holds(m.At(t)) > 0 || m.At(t).Idle?; }
    OthersStay(m, a);
    match m.At(t)
    case Switching(to, _) => Appended(m.shared.log, Switched(t, to, a.ok));
    case Ready(c) => AppendedBatch(m.shared.log, t, c);
    case Busy(c) => BatchEnds(m.shared.log, t, c);
    case _ =>
  }

  lemma BatchEnds(log: seq<Traffic>, t: nat, c: Channel)
    requires Isolated(log) && log != [] && log[|log| - 1] == Began(t, c, Some(c))
    ensures Isolated(log + [Ended(t, c, Some(c))]) && Quiet(log + [Ended(t, c, Some(c))])
  {
  }

  lemma {:induction false} RunKeeps(m: Machine, run: seq<Step>)
    requires Inv(m) && LegalRun(m, run)
    ensures Inv(Run(m, run))
    decreases |run|
  {
    if run != [] {
      ApplyKeeps(m, run[0]);
      RunKeeps(Apply(m, run[0]), run[1..]);
    }
  }

  /**
   * Whatever the interleaving: as long as channels are switched for batches only, every batch has the parent bus to
   * itself with its own channel on, and whenever the lock is free the note agrees with the chip.
   */
  lemma BatchesIsolated(run: seq<Step>)
    requires LegalRun(Start(false), run)
    ensures var s := Run(Start(false), run).shared;
      Isolated(s.log) && (s.owner.None? ==> s.noted == s.register && Quiet(s.log))
  {
    RunKeeps(Start(false), run);
  }

  lemma {:induction false} RunBalances(m: Machine, run: seq<Step>)
    requires Balanced(m) && LegalRun(m, run)
    ensures Balanced(Run(m, run))
    decreases |run|
  {
    if run != [] {
      ApplyBalances(m, run[0]);
      RunBalances(Apply(m, run[0]), run[1..]);
    }
  }

  /** Every call gives back the lock as often as it took it, direct calls included, whatever fails. */
  lemma LockBalanced(direct: bool, run: seq<Step>)
    requires LegalRun(Start(direct), run)
    ensures var m := Run(Start(direct), run);
      && (forall t: nat :: m.At(t).Idle? ==> m.shared.owner != Some(t))
      && ((forall t: nat :: m.At(t).Idle?) ==> m.shared.owner.None? && m.shared.depth == 0)
  {
    RunBalances(Start(direct), run);
    var m := Run(Start(direct), run);
    assert m.shared.owner.Some? ==> !m.At(m.shared.owner.value).Idle?;
  }

  lemma First(m: Machine, a: Step, rest: seq<Step>)
    requires Enabled(m, a) && LegalRun(Apply(m, a), rest)
    ensures LegalRun(m, [a] + rest) && Run(m, [a] + rest) == Run(Apply(m, a), rest)
  {
    assert ([a] + rest)[1..] == rest;
  }

  // ---------- undisturbed calls ----------

  /** What a batch comes to when nobody comes between; `ok` is how a switch of channels goes. */
  function AfterBatch(s: Shared, t: nat, c: Channel, ok: bool): Shared {
    var s1 := if s.noted == Some(c) then s
              else if ok then s.Switch(t, Some(c), true).Note(Some(c)) else s.Switch(t, Some(c), false);
    if s.noted == Some(c) || ok then s1.Begin(t, c).End(t, c) else s1
  }

  /** What a direct call comes to when nobody comes between. */
  function AfterDirect(s: Shared, t: nat, to: Option<Channel>, ok: bool): Shared {
    if ok then s.Switch(t, to, true).Note(to) else s.Switch(t, to, false)
  }

  ghost predicate By(run: seq<Step>, t: nat) {
    forall i :: 0 <= i < |run| ==> run[i].task == t
  }

  ghost predicate Undisturbed(m: Machine, t: nat) {
    m.At(t).Idle? && m.shared.owner.None? && m.shared.depth == 0
  }

  lemma TwoSteps(m: Machine, a: Step, rest: seq<Step>)
    requires Enabled(m, a) && Enabled(Apply(m, a), a) && LegalRun(Apply(Apply(m, a), a), rest) && By(rest, a.task)
    ensures LegalRun(m, [a, a] + rest) && By([a, a] + rest, a.task)
    ensures Run(m, [a, a] + rest) == Run(Apply(Apply(m, a), a), rest)
  {
    First(Apply(m, a), a, rest);
    First(m, a, [a] + rest);
    assert [a] + ([a] + rest) == [a, a] + rest;
  }

  /** From having its channel on, a batch goes out and gives back the lock. */
  lemma ReadyRuns(m: Machine, t: nat, c: Channel) returns (run: seq<Step>)
    requires m.At(t) == Ready(c) && m.shared.owner == Some(t) && m.shared.depth == 1
    ensures LegalRun(m, run) && By(run, t)
    ensures Run(m, run) == Machine(m.direct, m.shared.Begin(t, c).End(t, c).Give(), m.at[t := Idle])
  {
    var a := Step(t, Batch(c), true);
    var m2 := Apply(Apply(m, a), a);
    First(m2, a, []);
    TwoSteps(m, a, [a] + []);
    assert Apply(m2, a).at == m.at[t := Idle];
    run := [a, a] + ([a] + []);
  }

  /** A switch of channels for a batch, up to having stored the note. */
  lemma SwitchRuns(m: Machine, t: nat, c: Channel, ok: bool) returns (run: seq<Step>)
    requires m.At(t) == Nesting(c) && m.shared.owner == Some(t) && m.shared.depth == 1
    ensures LegalRun(m, run) && By(run, t)
    ensures Run(m, run) ==
            Machine(m.direct, AfterDirect(m.shared, t, Some(c), ok), m.at[t := if ok then Ready(c) else Leaving])
  {
    var a := Step(t, Batch(c), ok);
    var m2 := Apply(Apply(m, a), a);
    var m4 := Apply(Apply(m2, a), a);
    TwoSteps(m2, a, []);
    TwoSteps(m, a, [a, a] + []);
    assert m4.at == m.at[t := if ok then Ready(c) else Leaving];
    run := [a, a] + ([a, a] + []);
  }

  lemma {:induction false} RunAdds(m: Machine, one: seq<Step>, two: seq<Step>)
    requires LegalRun(m, one) && LegalRun(Run(m, one), two)
    ensures LegalRun(m, one + two) && Run(m, one + two) == Run(Run(m, one), two)
    decreases |one|
  {
    if one == [] {
      assert one + two == two;
    } else {
      RunAdds(Apply(m, one[0]), one[1..], two);
      assert (one + two)[1..] == one[1..] + two;
    }
  }

  /** A whole batch of an idle task, while the lock is free. */
  lemma BatchRuns(m: Machine, t: nat, c: Channel, ok: bool) returns (run: seq<Step>)
    requires Undisturbed(m, t)
    ensures LegalRun(m, run) && By(run, t)
    ensures Run(m, run) == Machine(m.direct, AfterBatch(m.shared, t, c, ok), m.at[t := Idle])
  {
    var a := Step(t, Batch(c), ok);
    var m2 := Apply(Apply(m, a), a);
    var more;
    if m.shared.noted == Some(c) {
      more := ReadyRuns(m2, t, c);
    } else {
      var switch := SwitchRuns(m2, t, c, ok);
      var m3 := Run(m2, switch);
      var last;
      if ok {
        last := ReadyRuns(m3, t, c);
      } else {
        First(m3, a, []);
        last := [a] + [];
      }
      RunAdds(m2, switch, last);
      more := switch + last;
    }
    TwoSteps(m, a, more);
    run := [a, a] + more;
    assert Run(m, run).at == m.at[t := Idle];
  }

  /** A direct call by an idle task while the lock is free, up to where it has given that back but stored no note. */
  lemma DirectBegins(m: Machine, t: nat, to: Option<Channel>, ok: bool) returns (run: seq<Step>)
    requires m.direct && Undisturbed(m, t)
    ensures LegalRun(m, run) && By(run, t)
    ensures Run(m, run) == Machine(m.direct, m.shared.Switch(t, to, ok), m.at[t := Back(to, false, ok)])
  {
    var a := Step(t, Direct(to), ok);
    var m2 := Apply(Apply(m, a), a);
    First(m2, a, []);
    TwoSteps(m, a, [a] + []);
    assert Apply(m2, a).at == m.at[t := Back(to, false, ok)];
    run := [a, a] + ([a] + []);
  }

  lemma DirectEnds(m: Machine, t: nat, to: Option<Channel>, ok: bool) returns (run: seq<Step>)
    requires m.At(t) == Back(to, false, ok)
    ensures LegalRun(m, run) && By(run, t)
    ensures Run(m, run) == Machine(m.direct, if ok then m.shared.Note(to) else m.shared, m.at[t := Idle])
  {
    var a := Step(t, Direct(to), ok);
    First(m, a, []);
    run := [a] + [];
  }

  /** A whole direct call. */
  lemma DirectRuns(m: Machine, t: nat, to: Option<Channel>, ok: bool) returns (run: seq<Step>)
    requires m.direct && Undisturbed(m, t)
    ensures LegalRun(m, run) && By(run, t)
    ensures Run(m, run) == Machine(m.direct, AfterDirect(m.shared, t, to, ok), m.at[t := Idle])
  {
    var begin := DirectBegins(m, t, to, ok);
    var end := DirectEnds(Run(m, begin), t, to, ok);
    RunAdds(m, begin, end);
    run := begin + end;
    assert Run(m, run).at == m.at[t := Idle];
  }

  // ---------- direct calls ----------

  ghost predicate Below(run: seq<Step>, n: nat) {
    forall i :: 0 <= i < |run| ==> run[i].task < n
  }

  /** A batch begins with the channel it finds noted. */
  lemma NotedBatch(m: Machine, t: nat, c: Channel) returns (run: seq<Step>)
    requires m.At(t).Idle? && m.shared.owner.None? && m.shared.noted == Some(c)
    ensures LegalRun(m, run) && By(run, t)
    ensures Run(m, run).shared.log == m.shared.log + [Began(t, c, m.shared.register)]
  {
    var a := Step(t, Batch(c), true);
    var m2 := Apply(Apply(m, a), a);
    First(m2, a, []);
    TwoSteps(m, a, [a] + []);
    run := [a, a] + ([a] + []);
  }

  /**
   * One direct call is enough to mislead another task: its batch comes between the write to the chip and the note,
   * and the next one goes out on the wrong channel.
   */
  lemma DirectCallsMislead() returns (run: seq<Step>)
    ensures LegalRun(Start(true), run) && Below(run, 2) && !Isolated(Run(Start(true), run).shared.log)
  {
    var m0 := Start(true);
    var one := DirectBegins(m0, 0, Some(0), true);
    var m1 := Run(m0, one);
    var two := BatchRuns(m1, 1, 1, true);
    var m2 := Run(m1, two);
    var three := DirectEnds(m2, 0, Some(0), true);
    var m3 := Run(m2, three);
    var four := NotedBatch(m3, 1, 0);
    var log := Run(m3, four).shared.log;
    assert log[|log| - 1] == Began(1, 0, Some(1));
    RunAdds(m2, three, four);
    RunAdds(m1, two, three + four);
    RunAdds(m0, one, two + (three + four));
    run := one + (two + (three + four));
  }

  /** A single task knows the chip at every point. */
  ghost predicate InvAlone(m: Machine) {
    && Balanced(m) && (forall t: nat :: t > 0 ==> m.At(t).Idle?)
    && Agrees(m.shared, m.At(0))
    && (m.At(0).Busy? ==>
          m.shared.log[|m.shared.log| - 1] == Began(0, m.At(0).channel, Some(m.At(0).channel)))
  }

  lemma ApplyKeepsAlone(m: Machine, a: Step)
    requires InvAlone(m) && Enabled(m, a) && a.task == 0
    ensures InvAlone(Apply(m, a))
  {
    ApplyBalances(m, a);
    match m.At(0)
    case Switching(to, _) => Appended(m.shared.log, Switched(0, to, a.ok));
    case Ready(c) => AppendedBatch(m.shared.log, 0, c);
    case Busy(c) => BatchEnds(m.shared.log, 0, c);
    case _ =>
  }

  lemma {:induction false} AloneKeeps(m: Machine, run: seq<Step>)
    requires InvAlone(m) && LegalRun(m, run) && Below(run, 1)
    ensures InvAlone(Run(m, run))
    decreases |run|
  {
    if run != [] {
      ApplyKeepsAlone(m, run[0]);
      AloneKeeps(Apply(m, run[0]), run[1..]);
    }
  }

  /** Batches stay isolated in every run of `n` tasks, if and only if none switches channels itself or `n <= 1`. */
  lemma IsolatedExactly(direct: bool, n: nat)
    ensures (forall run :: LegalRun(Start(direct), run) && Below(run, n) ==>
               Isolated(Run(Start(direct), run).shared.log)) <==> !direct || n <= 1
  {
    if direct && n > 1 {
      var run := DirectCallsMislead();
      assert Below(run, n);
    } else {
      forall run | LegalRun(Start(direct), run) && Below(run, n) ensures Isolated(Run(Start(direct), run).shared.log) {
        if direct { AloneKeeps(Start(direct), run); } else { BatchesIsolated(run); }
      }
    }
  }

  // ---------- every batch can go out ----------

  function Left(p: Point): nat {
    match p
    case Idle => 0
    case Leaving => 1
    case Busy(_) => 2
    case Ready(_) => 3
    case Back(_, _, _) => 4
    case Sent(_, _, _) => 5
    case Switching(_, _) => 6
    case Nesting(_) => 7
    case Locked(_) => 8
  }

  /** A task in a call waits for nobody. */
  lemma GoesOn(m: Machine, t: nat)
    requires Balanced(m) && !m.At(t).Idle?
    ensures var a := Step(t, Batch(0), true);
      && Enabled(m, a) && Left(Apply(m, a).At(t)) < Left(m.At(t))
      && Apply(m, a).shared.owner in {m.shared.owner, Some(t), None}
  {
    assert Holds(m.At(t)) > 0 ==> m.shared.owner == Some(t);
  }

  lemma {:induction false} GetsIdle(m: Machine, t: nat) returns (run: seq<Step>)
    requires Balanced(m)
    ensures LegalRun(m, run) && Balanced(Run(m, run)) && Run(m, run).At(t).Idle?
    ensures Run(m, run).shared.owner in {m.shared.owner, Some(t), None}
    ensures forall u: nat :: u != t ==> Run(m, run).At(u) == m.At(u)
    decreases Left(m.At(t))
  {
    run := [];
    if !m.At(t).Idle? {
      var a := Step(t, Batch(0), true);
      GoesOn(m, t);
      ApplyBalances(m, a);
      OthersStay(m, a);
      var rest := GetsIdle(Apply(m, a), t);
      First(m, a, rest);
      run := [a] + rest;
    }
  }

  /** Who holds the lock can give it back. */
  lemma FreesLock(m: Machine) returns (run: seq<Step>)
    requires Balanced(m)
    ensures LegalRun(m, run) && Run(m, run).shared.owner.None? && Run(m, run).shared.depth == 0
    ensures forall t: nat :: m.At(t).Idle? ==> Run(m, run).At(t).Idle?
  {
    run := [];
    if m.shared.owner.Some? {
      run := GetsIdle(m, m.shared.owner.value);
    }
  }

  /** The last thing on the parent bus is a batch of this task for this channel. */
  ghost predicate GoneOut(log: seq<Traffic>, t: nat, c: Channel) {
    |log| >= 2 && exists on :: log[|log| - 2..] == [Began(t, c, on), Ended(t, c, on)]
  }

  /** From every state that a run leads to, every task can get a batch out on every channel, whatever else goes on. */
  lemma CanGoOut(direct: bool, run: seq<Step>, t: nat, c: Channel) returns (more: seq<Step>)
    requires LegalRun(Start(direct), run)
    ensures LegalRun(Start(direct), run + more)
    ensures var m := Run(Start(direct), run + more); m.At(t).Idle? && GoneOut(m.shared.log, t, c)
  {
    RunBalances(Start(direct), run);
    more := GoesOut(Run(Start(direct), run), t, c);
    RunAdds(Start(direct), run, more);
  }

  lemma GoesOut(m: Machine, t: nat, c: Channel) returns (run: seq<Step>)
    requires Balanced(m)
    ensures LegalRun(m, run) && Run(m, run).At(t).Idle? && GoneOut(Run(m, run).shared.log, t, c)
  {
    var one := GetsIdle(m, t);
    var two := FreesLock(Run(m, one));
    RunAdds(m, one, two);
    var m2 := Run(m, one + two);
    var three := BatchRuns(m2, t, c, true);
    LogAfterBatch(m2.shared, t, c);
    RunAdds(m, one + two, three);
    run := one + two + three;
  }

  lemma LogAfterBatch(s: Shared, t: nat, c: Channel)
    ensures GoneOut(AfterBatch(s, t, c, true).log, t, c)
  {
    var s1 := if s.noted == Some(c) then s else s.Switch(t, Some(c), true);
    var log := AfterBatch(s, t, c, true).log;
    assert log[|log| - 2..] == [Began(t, c, s1.register), Ended(t, c, s1.register)];
  }
}
