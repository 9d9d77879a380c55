/**
 * Requests to the configuration service, over every interleaving of the requesting tasks and the message handler.
 * Each action is one step that no other task can divide: a section under the lock, one atomic access, one kernel call.
 */
module ConfdRouting {
  import opened Common
  import opened ConfdTags

  /** What the host may send at any moment: a reply to some tag, solicited or not, or anything else. */
  datatype Message = Reply(tag: Tag, payload: int) | Other

  /** Where a requesting task is. */
  datatype Place =
    | Away             // not in a request
    | Cleared          // block allocated, notification bit cleared
    | Registered       // tag allocated, block in the table
    | Pending          // no message seen yet: blocked on the semaphore
    | Passing          // holds the semaphore, about to give it back
    | Connected        // the remote is known
    | Blocked          // request sent, waiting for the notification
    | Returned         // back with code 0 and the block

  /** A task, its block (the tag and what was decoded into it), its packet header and its notification bit. */
  datatype Task = Task(place: Place, tag: Tag, header: Tag, decoded: seq<Message>, note: bool) {
    predicate Waiting() {
      place in {Registered, Pending, Passing, Connected, Blocked}
    }

    /** The block has been filled from exactly one reply, to the tag in the task's own header. */
    predicate Answered() {
      |decoded| == 1 && decoded[0].Reply? && decoded[0].tag == tag == header
    }
  }

  /** Where the message handler is. `Holding` and `Notifying` are about a block it took out of the table. */
  datatype Reader =
    | Listening
    | Arrived(m: Message)
    | Waking(m: Message)
    | Dispatching(m: Message)
    | Holding(task: nat, m: Message)
    | Notifying(task: nat)

  datatype State = State(
    tasks: seq<Task>,
    requests: map<Tag, nat>,
    nextTag: Tag,
    hasReceived: bool,
    semaphore: bool,
    reader: Reader
  ) {
    function With(t: nat, task: Task): State
      requires t < |tasks|
    {
      this.(tasks := tasks[t := task])
    }

    predicate At(t: nat, place: Place) {
      t < |tasks| && tasks[t].place == place
    }
  }

  datatype Action =
    | Begin(t: nat)
    | Enter(t: nat, tag: Tag)
    | Check(t: nat)
    | TakeSemaphore(t: nat)
    | GiveSemaphore(t: nat)
    | Send(t: nat)
    | Wake(t: nat)
    | Leave(t: nat)
    | Receive(m: Message)
    | MarkAlive
    | WakeFirst
    | LookUp
    | Decode
    | Notify

  function Init(n: nat): State {
    State(seq(n, i => Task(Away, 0, 0, [], false)), map[], 0, false, false, Listening)
  }

  ghost predicate Enabled(s: State, a: Action) {
    match a
    case Begin(t) => s.At(t, Away)
    case Enter(t, tag) => s.At(t, Cleared) && |s.requests| < MAX_INFLIGHT && IsNext(s.nextTag, s.requests.Keys, tag)
    case Check(t) => s.At(t, Registered)
    case TakeSemaphore(t) => s.At(t, Pending) && s.semaphore
    case GiveSemaphore(t) => s.At(t, Passing)
    case Send(t) => s.At(t, Connected)
    case Wake(t) => s.At(t, Blocked) && s.tasks[t].note
    case Leave(t) => s.At(t, Returned)
    case Receive(m) => s.reader == Listening
    case MarkAlive => s.reader.Arrived?
    case WakeFirst => s.reader.Waking?
    case LookUp => s.reader.Dispatching?
    case Decode => s.reader.Holding? && s.reader.task < |s.tasks|
    case Notify => s.reader.Notifying? && s.reader.task < |s.tasks|
  }

  function Apply(s: State, a: Action): State
    requires Enabled(s, a)
  {
    match a
    case Begin(t) => s.With(t, Task(Cleared, 0, s.tasks[t].header, [], false))
    case Enter(t, tag) =>
      s.With(t, s.tasks[t].(place := Registered, tag := tag, header := tag)).
        (nextTag := tag, requests := s.requests[tag := t])
    case Check(t) => s.With(t, s.tasks[t].(place := if s.hasReceived then Connected else Pending))
    case TakeSemaphore(t) => s.With(t, s.tasks[t].(place := Passing)).(semaphore := false)
    case GiveSemaphore(t) => s.With(t, s.tasks[t].(place := Connected)).(semaphore := true)
    case Send(t) => s.With(t, s.tasks[t].(place := Blocked))
    case Wake(t) => s.With(t, s.tasks[t].(place := Returned, note := false))
    case Leave(t) => s.With(t, s.tasks[t].(place := Away, decoded := []))
    case Receive(m) => s.(reader := Arrived(m))
    case MarkAlive =>
      s.(reader := if s.hasReceived then Dispatching(s.reader.m) else Waking(s.reader.m), hasReceived := true)
    case WakeFirst => s.(reader := Dispatching(s.reader.m), semaphore := true)
    case LookUp =>
      var m := s.reader.m;
      if m.Reply? && m.tag in s.requests then
        s.(reader := Holding(s.requests[m.tag], m), requests := s.requests - {m.tag})
      else
        s.(reader := Listening)
    case Decode =>
      var t := s.reader.task;
      s.With(t, s.tasks[t].(decoded := s.tasks[t].decoded + [s.reader.m])).(reader := Notifying(t))
    case Notify =>
      var t := s.reader.task;
      s.With(t, s.tasks[t].(note := true)).(reader := Listening)
  }

  ghost predicate Legal(s: State, actions: seq<Action>)
    decreases |actions|
  {
    actions == [] || (Enabled(s, actions[0]) && Legal(Apply(s, actions[0]), actions[1..]))
  }

  ghost function Run(s: State, actions: seq<Action>): State
    requires Legal(s, actions)
    decreases |actions|
  {
    if actions == [] then s else Run(Apply(s, actions[0]), actions[1..])
  }

  // ---------- the invariant ----------

  /** A block is in the table, in the hands of the message handler, or already answered: never in two of them. */
  ghost predicate Placed(s: State, t: nat)
    requires t < |s.tasks|
  {
    var task := s.tasks[t];
    var listed := task.tag in s.requests && s.requests[task.tag] == t;
    var held := (s.reader.Holding? || s.reader.Notifying?) && s.reader.task == t;
    && (task.Waiting() ==> task.tag == task.header)
    && (held || listed || task.note ==> task.Waiting())
    && (task.Waiting() ==>
         if listed then !held && !task.note && task.decoded == []
         else if held then
           !task.note && if s.reader.Notifying? then task.Answered()
                         else task.decoded == [] && s.reader.m.Reply? && s.reader.m.tag == task.tag
         else task.note && task.Answered())
    && (task.place == Returned ==> task.Answered())
    && (task.place == Cleared ==> task.decoded == [])
  }

  ghost predicate Listed(s: State, tag: Tag)
    requires tag in s.requests
  {
    tag != 0 && s.requests[tag] < |s.tasks| && s.tasks[s.requests[tag]].tag == tag &&
    s.tasks[s.requests[tag]].Waiting()
  }

  ghost predicate Routed(s: State) {
    && (forall t :: 0 <= t < |s.tasks| ==> Placed(s, t))
    && (forall tag :: tag in s.requests ==> Listed(s, tag))
    && |s.requests| <= MAX_INFLIGHT
    && (s.reader.Holding? || s.reader.Notifying? ==> s.reader.task < |s.tasks|)
  }

  lemma InitRouted(n: nat)
    ensures Routed(Init(n))
  {
  }

  /** Only task `t` moves: enough to look at it alone. */
  lemma OneTask(s: State, s': State, t: nat)
    requires Routed(s) && t < |s.tasks|
    requires |s'.tasks| == |s.tasks| && s'.tasks == s.tasks[t := s'.tasks[t]]
    requires s'.requests == s.requests
    requires s'.reader == s.reader || (s.reader.Holding? && s.reader.task == t && s'.reader == Notifying(t)) ||
             (s.reader == Notifying(t) && s'.reader == Listening)
    requires Placed(s', t)
    requires s.tasks[t].Waiting() && s.tasks[t].tag in s.requests && s.requests[s.tasks[t].tag] == t ==>
             s'.tasks[t].Waiting() && s'.tasks[t].tag == s.tasks[t].tag
    ensures Routed(s')
  {
    forall u | 0 <= u < |s'.tasks| ensures Placed(s', u) {
      assert Placed(s, u);
    }
    forall tag | tag in s'.requests ensures Listed(s', tag) {
      assert Listed(s, tag);
      assert Placed(s, t);
    }
  }

  lemma EnterRouted(s: State, t: nat, tag: Tag)
    requires Routed(s) && Enabled(s, Enter(t, tag))
    ensures Routed(Apply(s, Enter(t, tag)))
  {
    var s' := Apply(s, Enter(t, tag));
    forall u | 0 <= u < |s'.tasks| ensures Placed(s', u) {
      assert Placed(s, u);
    }
    forall g | g in s'.requests ensures Listed(s', g) {
      if g != tag { assert Listed(s, g) && Placed(s, t); }
    }
  }

  lemma LookUpRouted(s: State)
    requires Routed(s) && Enabled(s, LookUp)
    ensures Routed(Apply(s, LookUp))
  {
    var s' := Apply(s, LookUp);
    var m := s.reader.m;
    if m.Reply? && m.tag in s.requests { assert Listed(s, m.tag); }
    forall u | 0 <= u < |s'.tasks| ensures Placed(s', u) {
      assert Placed(s, u);
    }
    forall g | g in s'.requests ensures Listed(s', g) {
      assert Listed(s, g);
    }
    SubsetSize(s'.requests.Keys, s.requests.Keys);
  }

  /** Steps of the message handler that touch neither the table nor a block. */
  lemma ReaderRouted(s: State, a: Action)
    requires Routed(s) && Enabled(s, a) && (a.Receive? || a.MarkAlive? || a.WakeFirst?)
    ensures Routed(Apply(s, a))
  {
    var s' := Apply(s, a);
    forall u | 0 <= u < |s'.tasks| ensures Placed(s', u) {
      assert Placed(s, u);
    }
    forall g | g in s'.requests ensures Listed(s', g) {
      assert Listed(s, g);
    }
  }

  lemma TaskRouted(s: State, a: Action)
    requires Routed(s) && Enabled(s, a)
    requires a.Begin? || a.Check? || a.TakeSemaphore? || a.GiveSemaphore? || a.Send? || a.Wake? || a.Leave?
    ensures Routed(Apply(s, a))
  {
    assert Placed(s, a.t);
    OneTask(s, Apply(s, a), a.t);
  }

  lemma ApplyRouted(s: State, a: Action)
    requires Routed(s) && Enabled(s, a)
    ensures Routed(Apply(s, a))
  {
    match a
    case Enter(t, tag) => EnterRouted(s, t, tag);
    case LookUp => LookUpRouted(s);
    case Receive(_) => ReaderRouted(s, a);
    case MarkAlive => ReaderRouted(s, a);
    case WakeFirst => ReaderRouted(s, a);
    case Decode =>
      assert Placed(s, s.reader.task);
      OneTask(s, Apply(s, a), s.reader.task);
    case Notify =>
      assert Placed(s, s.reader.task);
      OneTask(s, Apply(s, a), s.reader.task);
    case _ => TaskRouted(s, a);
  }

  // ---------- the wait for the first message ----------

  ghost predicate SomeonePassing(s: State) {
    exists t :: s.At(t, Passing)
  }

  /**
   * The semaphore is given once and then handed from waiter to waiter: from the first message on it is free, or
   * somebody is about to give it.
   */
  ghost predicate Remote(s: State) {
    && (s.hasReceived <==> s.semaphore || s.reader.Waking? || SomeonePassing(s))
    && !(s.semaphore && s.reader.Waking?)
    && (forall t :: s.At(t, Passing) ==> !s.semaphore && !s.reader.Waking?)
    && (forall t, u :: s.At(t, Passing) && s.At(u, Passing) ==> t == u)
    && (forall t :: s.At(t, Connected) || s.At(t, Blocked) ==> s.hasReceived)
  }

  /** Steps that move nobody into or out of the hand-over. */
  lemma SamePassing(s: State, s': State)
    requires Remote(s)
    requires forall t, p :: p in {Passing, Connected, Blocked} && s'.At(t, p) ==>
      (s.At(t, p) || (p == Blocked && s.At(t, Connected)) || (p == Connected && s.hasReceived))
    requires forall t :: s.At(t, Passing) ==> s'.At(t, Passing)
    requires s'.semaphore == s.semaphore && s'.hasReceived == s.hasReceived
    requires s'.reader.Waking? == s.reader.Waking?
    ensures Remote(s')
  {
  }

  lemma SemaphoreKeeps(s: State, a: Action, t: nat)
    requires Remote(s) && Enabled(s, a) && (a == TakeSemaphore(t) || a == GiveSemaphore(t))
    ensures Remote(Apply(s, a))
  {
    var s' := Apply(s, a);
    assert forall u, p :: u != t ==> (s'.At(u, p) <==> s.At(u, p));
    if a.TakeSemaphore? {
      assert forall u :: s'.At(u, Passing) <==> u == t || s.At(u, Passing);
      assert s'.At(t, Passing);
    } else {
      assert s.At(t, Passing);
      assert s'.At(t, Connected);
    }
  }

  lemma ReaderKeeps(s: State, a: Action)
    requires Routed(s) && Remote(s) && Enabled(s, a) && (a == MarkAlive || a == WakeFirst)
    ensures Remote(Apply(s, a))
  {
    var s' := Apply(s, a);
    assert forall u, p :: s'.At(u, p) <==> s.At(u, p);
  }

  lemma OthersKeep(s: State, a: Action)
    requires Routed(s) && Remote(s) && Enabled(s, a)
    requires !a.TakeSemaphore? && !a.GiveSemaphore? && !a.MarkAlive? && !a.WakeFirst?
    ensures Remote(Apply(s, a))
  {
    var s' := Apply(s, a);
    assert a.Decode? || a.Notify? ==> Placed(s, s.reader.task);
    SamePassing(s, s');
  }

  lemma ApplyRemote(s: State, a: Action)
    requires Routed(s) && Remote(s) && Enabled(s, a)
    ensures Remote(Apply(s, a))
  {
    match a
    case TakeSemaphore(t) => SemaphoreKeeps(s, a, t);
    case GiveSemaphore(t) => SemaphoreKeeps(s, a, t);
    case MarkAlive => ReaderKeeps(s, a);
    case WakeFirst => ReaderKeeps(s, a);
    case _ => OthersKeep(s, a);
  }

  // ---------- what holds in every run ----------

  lemma {:induction false} RunKeeps(s: State, actions: seq<Action>)
    requires Routed(s) && Remote(s) && Legal(s, actions)
    ensures Routed(Run(s, actions)) && Remote(Run(s, actions)) && |Run(s, actions).tasks| == |s.tasks|
    decreases |actions|
  {
    if actions != [] {
      ApplyRouted(s, actions[0]);
      ApplyRemote(s, actions[0]);
      RunKeeps(Apply(s, actions[0]), actions[1..]);
    }
  }

  /** In every run, a task that returns 0 holds a block decoded from one reply, to the tag in its own header. */
  lemma ReturnsOwnReply(n: nat, actions: seq<Action>, t: nat)
    requires Legal(Init(n), actions)
    requires Run(Init(n), actions).At(t, Returned)
    ensures var task := Run(Init(n), actions).tasks[t];
      exists payload :: task.decoded == [Reply(task.header, payload)]
  {
    InitRouted(n);
    RunKeeps(Init(n), actions);
    var s := Run(Init(n), actions);
    assert Placed(s, t);
    assert s.tasks[t].decoded == [Reply(s.tasks[t].header, s.tasks[t].decoded[0].payload)];
  }

  /** In every run, the tags in flight are nonzero, no two tasks wait under the same one, and there are at most four. */
  lemma InFlightDistinct(n: nat, actions: seq<Action>)
    requires Legal(Init(n), actions)
    ensures var s := Run(Init(n), actions);
      && |s.requests| <= MAX_INFLIGHT && 0 !in s.requests
      && (forall tag :: tag in s.requests ==> s.requests[tag] < n)
      && (forall g, h :: g in s.requests && h in s.requests && s.requests[g] == s.requests[h] ==> g == h)
      && (forall g :: g in s.requests ==> s.requests[g] < |s.tasks| && s.tasks[s.requests[g]].header == g)
  {
    InitRouted(n);
    RunKeeps(Init(n), actions);
    var s := Run(Init(n), actions);
    forall g | g in s.requests ensures Listed(s, g) && s.tasks[s.requests[g]].header == g {
      assert Listed(s, g) && Placed(s, s.requests[g]);
    }
  }

  /** What the message handler does with a message nobody waits for. */
  function Ignoring(s: State, m: Message): seq<Action> {
    [Receive(m), MarkAlive] + if s.hasReceived then [LookUp] else [WakeFirst, LookUp]
  }

  lemma First(s: State, a: Action, rest: seq<Action>)
    requires Enabled(s, a) && Legal(Apply(s, a), rest)
    ensures Legal(s, [a] + rest) && Run(s, [a] + rest) == Run(Apply(s, a), rest)
  {
    assert ([a] + rest)[1..] == rest;
  }

  /**
   * A reply nobody waits for, or any other message, changes neither the table nor any task: handling it only lets
   * it be known that the host is there.
   */
  lemma UnknownTagIgnored(s: State, m: Message)
    requires s.reader == Listening && (m.Other? || m.tag !in s.requests)
    ensures Legal(s, Ignoring(s, m))
    ensures Run(s, Ignoring(s, m)) == s.(hasReceived := true, semaphore := s.semaphore || !s.hasReceived)
  {
    var s1 := Apply(s, Receive(m));
    var s2 := Apply(s1, MarkAlive);
    var s3 := if s.hasReceived then s2 else Apply(s2, WakeFirst);
    First(s3, LookUp, []);
    if s.hasReceived {
      First(s1, MarkAlive, [LookUp] + []);
      First(s, Receive(m), [MarkAlive] + ([LookUp] + []));
      assert [Receive(m)] + ([MarkAlive] + ([LookUp] + [])) == Ignoring(s, m);
    } else {
      First(s2, WakeFirst, [LookUp] + []);
      First(s1, MarkAlive, [WakeFirst] + ([LookUp] + []));
      First(s, Receive(m), [MarkAlive] + ([WakeFirst] + ([LookUp] + [])));
      assert [Receive(m)] + ([MarkAlive] + ([WakeFirst] + ([LookUp] + []))) == Ignoring(s, m);
    }
  }

  /**
   * In every run, no answer is lost: a waiting task's block is in the table, or the message handler is about to
   * notify the task, or the task has been notified.
   */
  lemma NoLostAnswer(n: nat, actions: seq<Action>, t: nat)
    requires Legal(Init(n), actions) && t < |Run(Init(n), actions).tasks|
    requires Run(Init(n), actions).tasks[t].Waiting()
    ensures var s := Run(Init(n), actions);
      || (s.tasks[t].tag in s.requests && s.requests[s.tasks[t].tag] == t)
      || ((s.reader.Holding? || s.reader.Notifying?) && s.reader.task == t)
      || s.tasks[t].note
  {
    InitRouted(n);
    RunKeeps(Init(n), actions);
    assert Placed(Run(Init(n), actions), t);
  }

  /**
   * In every run, no task gets past the wait for the remote before a first message, and after it no task is left
   * waiting: the semaphore is free, or the message handler or another task is about to give it.
   */
  lemma RemoteWaitIsSound(n: nat, actions: seq<Action>, t: nat)
    requires Legal(Init(n), actions) && t < n
    ensures var s := Run(Init(n), actions);
      && (s.At(t, Connected) || s.At(t, Blocked) || s.At(t, Passing) ==> s.hasReceived)
      && (s.At(t, Pending) && s.hasReceived ==>
            Enabled(s, TakeSemaphore(t)) || s.reader.Waking? || exists u :: Enabled(s, GiveSemaphore(u)))
  {
    InitRouted(n);
    RunKeeps(Init(n), actions);
    var s := Run(Init(n), actions);
    if s.At(t, Pending) && s.hasReceived && !s.semaphore && !s.reader.Waking? {
      var u :| s.At(u, Passing);
      assert Enabled(s, GiveSemaphore(u));
    }
  }

  // ---------- every request can come to its end ----------

  lemma {:induction false} RunAdds(s: State, one: seq<Action>, two: seq<Action>)
    requires Legal(s, one) && Legal(Run(s, one), two)
    ensures Legal(s, one + two) && Run(s, one + two) == Run(Run(s, one), two)
    decreases |one|
  {
    if one == [] {
      assert one + two == two;
    } else {
      RunAdds(Apply(s, one[0]), one[1..], two);
      assert (one + two)[1..] == one[1..] + two;
    }
  }

  predicate IsListed(s: State, t: nat)
    requires t < |s.tasks|
  {
    s.tasks[t].tag in s.requests && s.requests[s.tasks[t].tag] == t
  }

  /** The host answers, and the message handler deals with that: the block is filled, and the task returns. */
  function Answering(s: State, t: nat, payload: int): seq<Action>
    requires t < |s.tasks|
  {
    [Receive(Reply(s.tasks[t].tag, payload)), MarkAlive, LookUp] + [Decode, Notify, Wake(t)]
  }

  /** From every such state that a run leads to, the answer brings a blocked task back, and changes nothing else. */
  lemma AnswerReturns(n: nat, actions: seq<Action>, t: nat, payload: int)
    requires Legal(Init(n), actions)
    requires var s := Run(Init(n), actions); s.At(t, Blocked) && IsListed(s, t) && s.reader == Listening
    ensures var s := Run(Init(n), actions);
      && Legal(s, Answering(s, t, payload))
      && Run(s, Answering(s, t, payload)) ==
           s.With(t, s.tasks[t].(place := Returned, decoded := [Reply(s.tasks[t].header, payload)], note := false)).
             (requests := s.requests - {s.tasks[t].tag})
  {
    InitRouted(n);
    RunKeeps(Init(n), actions);
    assert Placed(Run(Init(n), actions), t);
    AnsweringRuns(Run(Init(n), actions), t, payload);
  }

  function AfterAnswer(s: State, t: nat, payload: int): State
    requires t < |s.tasks|
  {
    s.With(t, s.tasks[t].(place := Returned, decoded := [Reply(s.tasks[t].header, payload)], note := false)).
      (requests := s.requests - {s.tasks[t].tag})
  }

  lemma AnsweringRuns(s: State, t: nat, payload: int)
    requires s.At(t, Blocked) && IsListed(s, t) && s.reader == Listening && s.hasReceived
    requires s.tasks[t].header == s.tasks[t].tag && s.tasks[t].decoded == []
    ensures Legal(s, Answering(s, t, payload))
    ensures Run(s, Answering(s, t, payload)) == AfterAnswer(s, t, payload)
  {
    var m := Reply(s.tasks[t].tag, payload);
    var s' := s.(reader := Holding(t, m), requests := s.requests - {m.tag});
    ReplyHandled(s, t, payload);
    HeldReturns(s', t);
    RunAdds(s, [Receive(m), MarkAlive, LookUp], [Decode, Notify, Wake(t)]);
    assert [] + [m] == [m];
  }

  lemma ReplyHandled(s: State, t: nat, payload: int)
    requires t < |s.tasks| && IsListed(s, t) && s.reader == Listening && s.hasReceived
    ensures var m := Reply(s.tasks[t].tag, payload);
      && Legal(s, [Receive(m), MarkAlive, LookUp])
      && Run(s, [Receive(m), MarkAlive, LookUp]) == s.(reader := Holding(t, m), requests := s.requests - {m.tag})
  {
    var m := Reply(s.tasks[t].tag, payload);
    var (s1, s2) := (s.(reader := Arrived(m)), s.(reader := Dispatching(m)));
    First(s2, LookUp, []);
    First(s1, MarkAlive, [LookUp] + []);
    First(s, Receive(m), [MarkAlive] + ([LookUp] + []));
    assert [Receive(m)] + ([MarkAlive] + ([LookUp] + [])) == [Receive(m), MarkAlive, LookUp];
  }

  lemma HeldReturns(s: State, t: nat)
    requires s.At(t, Blocked) && s.reader.Holding? && s.reader.task == t
    ensures Legal(s, [Decode, Notify, Wake(t)])
    ensures Run(s, [Decode, Notify, Wake(t)]) ==
            s.With(t, s.tasks[t].(place := Returned, decoded := s.tasks[t].decoded + [s.reader.m], note := false)).
              (reader := Listening)
  {
    var s1 := Apply(s, Decode);
    var s2 := Apply(s1, Notify);
    First(s2, Wake(t), []);
    First(s1, Notify, [Wake(t)] + []);
    First(s, Decode, [Notify] + ([Wake(t)] + []));
    assert [Decode] + ([Notify] + ([Wake(t)] + [])) == [Decode, Notify, Wake(t)];
  }

  // How far a waiting task is from its return.

  /** The message handler has something in hand that answers task `t`. */
  predicate OnItsWay(s: State, t: nat)
    requires t < |s.tasks|
  {
    (s.reader.Arrived? || s.reader.Waking? || s.reader.Dispatching?) && s.reader.m.Reply? &&
    s.reader.m.tag == s.tasks[t].tag
  }

  function PlaceLeft(p: Place): nat {
    match p
    case Registered => 4
    case Pending => 3
    case Passing => 2
    case Connected => 1
    case _ => 0
  }

  function ReaderLeft(r: Reader): nat {
    match r
    case Listening => 0
    case Notifying(_) => 1
    case Holding(_, _) => 2
    case Dispatching(_) => 3
    case Waking(_) => 4
    case Arrived(_) => 5
  }

  /** Task `t` still needs a message that has not arrived yet. */
  predicate NeedsNews(s: State, t: nat)
    requires t < |s.tasks|
  {
    if s.At(t, Pending) then !s.hasReceived && !s.reader.Arrived?
    else s.At(t, Blocked) && IsListed(s, t) && !OnItsWay(s, t)
  }

  predicate Nearer(s: State, t: nat, s': State)
    requires t < |s.tasks| && t < |s'.tasks|
  {
    var (p, p') := (PlaceLeft(s.tasks[t].place), PlaceLeft(s'.tasks[t].place));
    var (r, r') := (ReaderLeft(s.reader), ReaderLeft(s'.reader));
    || p' < p
    || (p' == p && NeedsNews(s, t) && !NeedsNews(s', t))
    || (p' == p && NeedsNews(s, t) == NeedsNews(s', t) && r' < r)
    || (p' == p && NeedsNews(s, t) == NeedsNews(s', t) && r' == r && !s.semaphore && s'.semaphore)
  }

  /** Nobody enters, and those who do not wait stay where they are. */
  ghost predicate Kept(s: State, s': State) {
    && |s'.tasks| == |s.tasks|
    && (forall u :: 0 <= u < |s.tasks| && !s.tasks[u].Waiting() ==> s'.tasks[u] == s.tasks[u])
    && (forall tag :: tag in s'.requests ==> tag in s.requests && s'.requests[tag] == s.requests[tag])
  }

  function ReaderStep(r: Reader): Action {
    match r
    case Listening => Receive(Other)
    case Arrived(_) => MarkAlive
    case Waking(_) => WakeFirst
    case Dispatching(_) => LookUp
    case Holding(_, _) => Decode
    case Notifying(_) => Notify
  }

  lemma ReaderHelps(s: State, t: nat)
    requires Routed(s) && t < |s.tasks| && s.tasks[t].Waiting() && s.reader != Listening
    ensures var a := ReaderStep(s.reader);
      Enabled(s, a) && Kept(s, Apply(s, a)) && Apply(s, a).tasks[t].Waiting() && Nearer(s, t, Apply(s, a))
  {
    assert s.reader.Holding? || s.reader.Notifying? ==> Placed(s, s.reader.task);
  }

  /** With the message handler listening: the step of task `t`, or what it is waiting for. */
  lemma TaskHelps(s: State, t: nat) returns (a: Action)
    requires Routed(s) && Remote(s) && t < |s.tasks| && s.tasks[t].Waiting() && s.reader == Listening
    requires !(s.At(t, Blocked) && s.tasks[t].note)
    ensures Enabled(s, a) && Kept(s, Apply(s, a)) && Apply(s, a).tasks[t].Waiting() && Nearer(s, t, Apply(s, a))
  {
    assert Placed(s, t);
    match s.tasks[t].place
    case Registered => a := Check(t);
    case Pending =>
      if s.semaphore {
        a := TakeSemaphore(t);
      } else if s.hasReceived {
        var u :| s.At(u, Passing);
        a := GiveSemaphore(u);
      } else {
        a := Receive(Other);
      }
    case Passing => a := GiveSemaphore(t);
    case Connected => a := Send(t);
    case Blocked => a := Receive(Reply(s.tasks[t].tag, 0));
  }

  /** The step that takes a waiting task nearer to its return, or makes it return. */
  lemma Helping(s: State, t: nat) returns (a: Action)
    requires Routed(s) && Remote(s) && t < |s.tasks| && s.tasks[t].Waiting()
    ensures Enabled(s, a) && Kept(s, Apply(s, a))
    ensures Apply(s, a).At(t, Returned) || (Apply(s, a).tasks[t].Waiting() && Nearer(s, t, Apply(s, a)))
  {
    if s.At(t, Blocked) && s.tasks[t].note {
      a := Wake(t);
    } else if s.reader != Listening {
      a := ReaderStep(s.reader);
      ReaderHelps(s, t);
    } else {
      a := TaskHelps(s, t);
    }
  }

  /** Every waiting task can come to return, whatever else is going on. */
  lemma {:induction false} GetsAnswered(s: State, t: nat) returns (run: seq<Action>)
    requires Routed(s) && Remote(s) && t < |s.tasks| && s.tasks[t].Waiting()
    ensures Legal(s, run) && Run(s, run).At(t, Returned) && Kept(s, Run(s, run))
    decreases PlaceLeft(s.tasks[t].place), NeedsNews(s, t), ReaderLeft(s.reader), !s.semaphore
  {
    var a := Helping(s, t);
    ApplyRouted(s, a);
    ApplyRemote(s, a);
    var rest := [];
    if !Apply(s, a).At(t, Returned) {
      rest := GetsAnswered(Apply(s, a), t);
    }
    First(s, a, rest);
    run := [a] + rest;
  }

  /** A full table gets room. */
  lemma GetsRoom(s: State) returns (run: seq<Action>)
    requires Routed(s) && Remote(s)
    ensures Legal(s, run) && Kept(s, Run(s, run)) && |Run(s, run).requests| < MAX_INFLIGHT
  {
    run := [];
    if |s.requests| >= MAX_INFLIGHT {
      assert s.requests != map[];
      var tag :| tag in s.requests;
      assert Listed(s, tag);
      var u := s.requests[tag];
      run := GetsAnswered(s, u);
      RunKeeps(s, run);
      var s' := Run(s, run);
      assert Placed(s', u);
      assert tag in s'.requests ==> Listed(s', tag);
      SubsetSize(s'.requests.Keys, s.requests.Keys - {tag});
    }
  }

  lemma {:induction false} SomeIsNext(last: Tag, busy: set<Tag>, n: nat) returns (t: Tag)
    requires |busy| < MAX_INFLIGHT && n <= |busy| + 1 && Passed(last, n) <= busy + {0}
    ensures IsNext(last, busy, t)
    decreases |busy| + 1 - n
  {
    t := Ahead(last, n + 1);
    if t == 0 || t in busy {
      OneMore(last, n);
      FewSkipped(last, busy, n + 1);
      t := SomeIsNext(last, busy, n + 1);
    } else {
      assert Between(last, t) == n;
    }
  }

  /** A task with a fresh block can come to wait for its answer. */
  lemma GetsRegistered(s: State, t: nat) returns (run: seq<Action>)
    requires Routed(s) && Remote(s) && s.At(t, Cleared)
    ensures Legal(s, run) && Run(s, run).At(t, Registered)
  {
    var room := GetsRoom(s);
    var s' := Run(s, room);
    assert Passed(s'.nextTag, 0) == {};
    var tag := SomeIsNext(s'.nextTag, s'.requests.Keys, 0);
    First(s', Enter(t, tag), []);
    RunAdds(s, room, [Enter(t, tag)] + []);
    run := room + ([Enter(t, tag)] + []);
  }

  /** From every state that a run leads to, every task can come to return from a request, and with its answer. */
  lemma CanReturn(n: nat, actions: seq<Action>, t: nat) returns (more: seq<Action>)
    requires Legal(Init(n), actions) && t < n
    ensures Legal(Init(n), actions + more)
    ensures var s := Run(Init(n), actions + more);
      s.At(t, Returned) && exists payload :: s.tasks[t].decoded == [Reply(s.tasks[t].header, payload)]
  {
    InitRouted(n);
    RunKeeps(Init(n), actions);
    var s := Run(Init(n), actions);
    more := GetsReturned(s, t);
    RunAdds(Init(n), actions, more);
    ReturnsOwnReply(n, actions + more, t);
  }

  lemma GetsReturned(s: State, t: nat) returns (run: seq<Action>)
    requires Routed(s) && Remote(s) && t < |s.tasks|
    ensures Legal(s, run) && Run(s, run).At(t, Returned)
  {
    run := [];
    if s.At(t, Away) {
      First(s, Begin(t), []);
      run := [Begin(t)] + [];
    }
    RunKeeps(s, run);
    if Run(s, run).At(t, Cleared) {
      var entry := GetsRegistered(Run(s, run), t);
      RunAdds(s, run, entry);
      run := run + entry;
    }
    RunKeeps(s, run);
    if !Run(s, run).At(t, Returned) {
      var rest := GetsAnswered(Run(s, run), t);
      RunAdds(s, run, rest);
      run := run + rest;
    }
  }

  /** And from every such state, every task can be done with its request, so that it may make another. */
  lemma CanBeDone(n: nat, actions: seq<Action>, t: nat) returns (more: seq<Action>)
    requires Legal(Init(n), actions) && t < n
    ensures Legal(Init(n), actions + more) && Run(Init(n), actions + more).At(t, Away)
  {
    var back := CanReturn(n, actions, t);
    First(Run(Init(n), actions + back), Leave(t), []);
    RunAdds(Init(n), actions + back, [Leave(t)] + []);
    Assoc(actions, back, [Leave(t)] + []);
    more := back + ([Leave(t)] + []);
  }
}
