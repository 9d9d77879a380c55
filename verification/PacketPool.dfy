/** Recycled packet buffers: every caller takes one for its request and gives it back. */
module PacketPool {
  import opened Common

  /** Capacity of the buffer cache, and the number of buffers the service means to allocate. */
  const MAX_PACKET_BUFFERS: nat := 2

  predicate Distinct<T(==)>(s: seq<T>) {
    forall i, j :: 0 <= i < j < |s| ==> s[i] != s[j]
  }

  // ---------- any number of callers, in any interleaving ----------

  /** `held` maps each caller in the middle of a request to its buffer; `peak` is the most ever held at once. */
  datatype Pool = Pool(cache: seq<nat>, made: nat, held: map<nat, nat>, peak: nat, halted: bool)

  datatype Action = Get(caller: nat, heapHasRoom: bool) | Discard(caller: nat)

  predicate Enabled(p: Pool, n: nat, a: Action) {
    !p.halted && a.caller < n && (a.Get? <==> a.caller !in p.held)
  }

  function Max(a: nat, b: nat): nat { if a < b then b else a }

  function Apply(p: Pool, a: Action): Pool
    requires a.Discard? ==> a.caller in p.held
  {
    match a
    case Get(c, room) =>
      if p.cache == [] && !room then p
      else
        var buffer := if p.cache != [] then p.cache[0] else p.made;
        var held := p.held[c := buffer];
        Pool(if p.cache != [] then p.cache[1..] else [], p.made + if p.cache == [] then 1 else 0, held,
             Max(p.peak, |held|), false)
    case Discard(c) =>
      if |p.cache| >= MAX_PACKET_BUFFERS then p.(halted := true)
      else p.(cache := p.cache + [p.held[c]], held := p.held - {c})
  }

  const EMPTY := Pool([], 0, map[], 0, false)

  predicate Legal(p: Pool, n: nat, actions: seq<Action>)
    decreases |actions|
  {
    actions == [] || (Enabled(p, n, actions[0]) && Legal(Apply(p, actions[0]), n, actions[1..]))
  }

  function Run(p: Pool, n: nat, actions: seq<Action>): Pool
    requires Legal(p, n, actions)
    decreases |actions|
  {
    if actions == [] then p else Run(Apply(p, actions[0]), n, actions[1..])
  }

  ghost predicate Holds(held: map<nat, nat>, b: nat) {
    exists c :: c in held && held[c] == b
  }

  /** Each of the first `made` buffers is cached once, or held once, and not both. */
  ghost predicate Accounts(cache: seq<nat>, made: nat, held: map<nat, nat>) {
    && Distinct(cache)
    && (forall c :: c in held ==> held[c] < made && held[c] !in cache)
    && (forall c, d :: c in held && d in held && held[c] == held[d] ==> c == d)
    && (forall b :: b in cache ==> b < made)
    && (forall b: nat :: b < made ==> b in cache || Holds(held, b))
  }

  /** No buffer was allocated while one was to be had. */
  ghost predicate Inv(p: Pool, n: nat) {
    && Accounts(p.cache, p.made, p.held)
    && (forall c :: c in p.held ==> c < n)
    && |p.cache| + |p.held| == p.made == p.peak
    && |p.cache| <= MAX_PACKET_BUFFERS
    && (p.halted ==> p.peak > MAX_PACKET_BUFFERS)
  }

  lemma Popped<T>(s: seq<T>)
    requires s != [] && Distinct(s)
    ensures Distinct(s[1..]) && s[0] !in s[1..]
    ensures forall b :: b in s <==> b == s[0] || b in s[1..]
  {
    assert s == [s[0]] + s[1..];
  }

  lemma Pushed<T>(s: seq<T>, x: T)
    requires Distinct(s) && x !in s
    ensures Distinct(s + [x])
    ensures forall b :: b in s + [x] <==> b == x || b in s
  {
  }

  lemma HeldToo(held: map<nat, nat>, more: map<nat, nat>, b: nat)
    requires Holds(held, b) && forall d :: d in held && held[d] == b ==> d in more && more[d] == held[d]
    ensures Holds(more, b)
  {
    var d :| d in held && held[d] == b;
    assert d in more && more[d] == b;
  }

  lemma CachedGoesOut(cache: seq<nat>, made: nat, held: map<nat, nat>, c: nat)
    requires Accounts(cache, made, held) && cache != [] && c !in held
    ensures Accounts(cache[1..], made, held[c := cache[0]])
  {
    Popped(cache);
    var held' := held[c := cache[0]];
    assert held'[c] == cache[0];
    forall b: nat | b < made ensures b in cache[1..] || Holds(held', b) {
      if b !in cache { HeldToo(held, held', b); }
    }
  }

  lemma FreshGoesOut(made: nat, held: map<nat, nat>, c: nat)
    requires Accounts([], made, held) && c !in held
    ensures Accounts([], made + 1, held[c := made])
  {
    var held' := held[c := made];
    assert held'[c] == made;
    forall b: nat | b < made ensures Holds(held', b) {
      HeldToo(held, held', b);
    }
  }

  lemma ComesBack(cache: seq<nat>, made: nat, held: map<nat, nat>, c: nat)
    requires Accounts(cache, made, held) && c in held
    ensures Accounts(cache + [held[c]], made, held - {c})
  {
    Pushed(cache, held[c]);
    forall b: nat | b < made ensures b in cache + [held[c]] || Holds(held - {c}, b) {
      if b !in cache && b != held[c] { HeldToo(held, held - {c}, b); }
    }
  }

  lemma ApplyKeeps(p: Pool, n: nat, a: Action)
    requires Inv(p, n) && Enabled(p, n, a)
    ensures Inv(Apply(p, a), n)
  {
    match a
    case Get(c, room) => GetKeeps(p, n, c, room);
    case Discard(c) => DiscardKeeps(p, n, c);
  }

  lemma GetKeeps(p: Pool, n: nat, c: nat, room: bool)
    requires Inv(p, n) && Enabled(p, n, Get(c, room))
    ensures Inv(Apply(p, Get(c, room)), n)
  {
    if p.cache != [] {
      CachedGoesOut(p.cache, p.made, p.held, c);
    } else if room {
      FreshGoesOut(p.made, p.held, c);
    }
  }

  lemma DiscardKeeps(p: Pool, n: nat, c: nat)
    requires Inv(p, n) && Enabled(p, n, Discard(c))
    ensures Inv(Apply(p, Discard(c)), n)
  {
    assert p.held == (p.held - {c})[c := p.held[c]];
    ComesBack(p.cache, p.made, p.held, c);
  }

  lemma {:induction false} RunKeeps(p: Pool, n: nat, actions: seq<Action>)
    requires Inv(p, n) && Legal(p, n, actions)
    ensures Inv(Run(p, n, actions), n)
    decreases |actions|
  {
    if actions != [] {
      ApplyKeeps(p, n, actions[0]);
      RunKeeps(Apply(p, actions[0]), n, actions[1..]);
    }
  }

  // ---------- the service ----------

  /** A caller that takes a buffer and gives it back at once leaves things as they were, and does not halt. */
  lemma TakenAndGivenBack(p: Pool, n: nat, c: nat, room: bool)
    requires Inv(p, n) && Enabled(p, n, Get(c, room))
    ensures var got := Apply(p, Get(c, room));
      c in got.held ==>
        var back := Apply(got, Discard(c));
        Enabled(got, n, Discard(c)) && !back.halted && back.held == p.held && Inv(back, n)
  {
    ApplyKeeps(p, n, Get(c, room));
    var got := Apply(p, Get(c, room));
    if c in got.held {
      ApplyKeeps(got, n, Discard(c));
      GivenBack(p, c, room);
    }
  }

  lemma GivenBack(p: Pool, c: nat, room: bool)
    requires !p.halted && c !in p.held && |p.cache| <= MAX_PACKET_BUFFERS && c in Apply(p, Get(c, room)).held
    ensures var back := Apply(Apply(p, Get(c, room)), Discard(c)); !back.halted && back.held == p.held
  {
    var got := Apply(p, Get(c, room));
    assert got.held - {c} == p.held;
  }

  lemma FirstAndRest(one: seq<Action>, two: seq<Action>)
    requires one != []
    ensures one + two == [one[0]] + (one[1..] + two)
  {
  }

  lemma {:induction false} RunAdds(p: Pool, n: nat, one: seq<Action>, two: seq<Action>)
    requires Legal(p, n, one) && Legal(Run(p, n, one), n, two)
    ensures Legal(p, n, one + two) && Run(p, n, one + two) == Run(Run(p, n, one), n, two)
    decreases |one|
  {
    if one == [] {
      assert one + two == two;
    } else {
      FirstAndRest(one, two);
      RunAdds(Apply(p, one[0]), n, one[1..], two);
      FirstStep(p, n, one[0], one[1..] + two);
    }
  }

  lemma FirstStep(p: Pool, n: nat, a: Action, rest: seq<Action>)
    requires Enabled(p, n, a) && Legal(Apply(p, a), n, rest)
    ensures Legal(p, n, [a] + rest) && Run(p, n, [a] + rest) == Run(Apply(p, a), n, rest)
  {
    assert ([a] + rest)[1..] == rest;
  }

  lemma OneStep(p: Pool, n: nat, a: Action)
    requires Enabled(p, n, a)
    ensures Legal(p, n, [a]) && Run(p, n, [a]) == Apply(p, a)
  {
    assert [a][1..] == [];
    assert Run(Apply(p, a), n, []) == Apply(p, a);
  }

  ghost predicate ByOthers(actions: seq<Action>, c: nat) {
    forall i :: 0 <= i < |actions| ==> actions[i].caller != c
  }

  /** What others do does not touch the buffer of a caller. */
  lemma {:induction false} OthersLeaveMine(p: Pool, n: nat, actions: seq<Action>, c: nat)
    requires Legal(p, n, actions) && ByOthers(actions, c) && c in p.held
    ensures c in Run(p, n, actions).held && Run(p, n, actions).held[c] == p.held[c]
    decreases |actions|
  {
    if actions != [] { OthersLeaveMine(Apply(p, actions[0]), n, actions[1..], c); }
  }

  const NO_PACKET: int := -1
  const TIMEOUT: int := 1

  /** How a query or an update ends: with a code and the answer, or with the system halted. */
  datatype Result = Returned(err: int, answer: bool) | Halted

  /**
   * The packet buffers of the service, used by `callers` callers. Buffers are numbered in the order they were
   * allocated. The count that the allocation is tested against is never advanced.
   */
  class Service {
    var cache: seq<nat>
    var made: nat
    const cacheTotal: nat := 0
    var halted: bool
    const callers: nat
    /** What each caller in the middle of a request holds. */
    var held: map<nat, nat>
    ghost var peak: nat

    ghost function View(): Pool
      reads this
    {
      Pool(cache, made, held, peak, halted)
    }

    ghost predicate Valid()
      reads this
    {
      Inv(View(), callers)
    }

    constructor (callers: nat)
      ensures Valid() && View() == EMPTY && this.callers == callers
    {
      this.callers := callers;
      cache, made, halted, held, peak := [], 0, false, map[], 0;
    }

    /** The oldest cached buffer, or else a new one if the heap has room; never one that somebody holds. */
    method GetPacketBuffer(c: nat, heapHasRoom: bool) returns (buffer: Option<nat>)
      requires Valid() && Enabled(View(), callers, Get(c, heapHasRoom))
      modifies this
      ensures Valid() && View() == Apply(old(View()), Get(c, heapHasRoom))
      ensures buffer == if c in held then Some(held[c]) else None
      ensures buffer.None? <==> old(cache) == [] && !heapHasRoom
      ensures buffer.Some? ==> !Holds(old(held), buffer.value)
      ensures old(cache) != [] ==> buffer == Some(old(cache)[0])
      ensures old(cache) == [] && heapHasRoom ==> buffer == Some(old(made))
    {
      ApplyKeeps(View(), callers, Get(c, heapHasRoom));
      buffer := None;
      if cache != [] {
        buffer := Some(cache[0]);
        cache := cache[1..];
      } else if cacheTotal < MAX_PACKET_BUFFERS && heapHasRoom {
        buffer := Some(made);
        made := made + 1;
      }
      if buffer.Some? {
        held := held[c := buffer.value];
        peak := Max(peak, |held|);
      }
    }

    /** A buffer queued for reuse; the system halts if the cache is full. Nothing happens without a buffer. */
    method DiscardPacketBuffer(c: nat, buffer: Option<nat>)
      requires Valid() && !halted && c < callers
      requires buffer.Some? ==> c in held && held[c] == buffer.value
      modifies this
      ensures Valid()
      ensures buffer.None? ==> View() == old(View())
      ensures buffer.Some? ==> View() == Apply(old(View()), Discard(c))
      ensures halted <==> buffer.Some? && |old(cache)| == MAX_PACKET_BUFFERS
    {
      if buffer.None? {
        return;
      }
      ApplyKeeps(View(), callers, Discard(c));
      Push(c, buffer.value);
    }

    method Push(c: nat, buffer: nat)
      requires !halted && |cache| <= MAX_PACKET_BUFFERS && c in held && held[c] == buffer
      modifies this
      ensures View() == Apply(old(View()), Discard(c))
      ensures halted <==> |old(cache)| == MAX_PACKET_BUFFERS
    {
      if |cache| == MAX_PACKET_BUFFERS {
        halted := true;
        return;
      }
      cache := cache + [buffer];
      held := held - {c};
    }

    /** A packet with a query in it, or an error and nothing taken. */
    method SerializeQuery(c: nat, heapHasRoom: bool, createError: int, closeError: int)
      returns (err: int, outPacket: Option<nat>)
      requires Valid() && Enabled(View(), callers, Get(c, heapHasRoom))
      modifies this
      ensures Valid() && Serialized(old(View()), View(), c, heapHasRoom, err, outPacket)
      ensures err == if old(cache) == [] && !heapHasRoom then NO_PACKET
                     else if createError != 0 then createError else closeError
    {
      TakenAndGivenBack(View(), callers, c, heapHasRoom);
      outPacket := None;
      var buffer := GetPacketBuffer(c, heapHasRoom);
      if buffer.None? {
        return NO_PACKET, outPacket;
      }
      if createError != 0 {
        DiscardPacketBuffer(c, buffer);
        return createError, outPacket;
      }
      if closeError != 0 {
        DiscardPacketBuffer(c, buffer);
        return closeError, outPacket;
      }
      return 0, buffer;
    }

    /** A packet with an update in it, or an error and nothing taken. */
    method SerializeUpdate(c: nat, heapHasRoom: bool, createError: int, valueError: int, closeError: int)
      returns (err: int, outPacket: Option<nat>)
      requires Valid() && Enabled(View(), callers, Get(c, heapHasRoom))
      modifies this
      ensures Valid() && Serialized(old(View()), View(), c, heapHasRoom, err, outPacket)
      ensures err == if old(cache) == [] && !heapHasRoom then NO_PACKET
                     else if createError != 0 then createError else if valueError != 0 then valueError else closeError
    {
      TakenAndGivenBack(View(), callers, c, heapHasRoom);
      outPacket := None;
      var buffer := GetPacketBuffer(c, heapHasRoom);
      if buffer.None? {
        return NO_PACKET, outPacket;
      }
      if createError != 0 {
        DiscardPacketBuffer(c, buffer);
        return createError, outPacket;
      }
      if valueError != 0 {
        DiscardPacketBuffer(c, buffer);
        return valueError, outPacket;
      }
      if closeError != 0 {
        DiscardPacketBuffer(c, buffer);
        return closeError, outPacket;
      }
      return 0, buffer;
    }

    /** While the caller is blocked, others take buffers and give them back. */
    method SendRequestAndBlock(others: seq<Action>)
      requires Valid() && Legal(View(), callers, others)
      modifies this
      ensures Valid() && View() == Run(old(View()), callers, others)
    {
      for i := 0 to |others|
        invariant Valid() && Legal(View(), callers, others[i..])
        invariant Run(View(), callers, others[i..]) == Run(old(View()), callers, others)
      {
        var a := others[i];
        assert others[i..][0] == a && others[i..][1..] == others[i + 1..];
        if a.Get? {
          var _ := GetPacketBuffer(a.caller, a.heapHasRoom);
        } else {
          DiscardPacketBuffer(a.caller, Some(held[a.caller]));
        }
      }
    }

    /** A query: the buffer path, with what others do while it waits for its answer. */
    method GetCommon(c: nat, heapHasRoom: bool, createError: int, closeError: int, others: seq<Action>,
                     sendResult: int, rightType: bool, keyFound: bool)
      returns (r: Result, ghost run: seq<Action>)
      requires Valid() && Enabled(View(), callers, Get(c, heapHasRoom)) && ByOthers(others, c)
      requires Legal(Apply(View(), Get(c, heapHasRoom)), callers, others)
      modifies this
      ensures Valid() && Legal(old(View()), callers, run) && View() == Run(old(View()), callers, run)
      ensures run == Path(old(View()), callers, c, heapHasRoom, createError != 0 || closeError != 0, others)
      ensures !halted ==> c !in held
      ensures others == [] ==> !halted && held == old(held)
      ensures r == if old(cache) == [] && !heapHasRoom then Returned(NO_PACKET, false)
                   else if createError != 0 then Returned(createError, false)
                   else if closeError != 0 then Returned(closeError, false)
                   else Answered(halted, sendResult, rightType, keyFound)
    {
      ghost var p := View();
      var err, packet := SerializeQuery(c, heapHasRoom, createError, closeError);
      if err != 0 {
        run := UndoneRun(p, callers, c, heapHasRoom);
        return Returned(err, false), run;
      }
      run := Exchange(c, packet.value, others, p, heapHasRoom);
      if halted {
        return Halted, run;
      }
      if sendResult != 0 {
        return Returned(if sendResult == 1 then TIMEOUT else sendResult, false), run;
      }
      if !rightType {
        return Halted, run;
      }
      r := Returned(0, keyFound);
    }

    /** An update: the same with another serializer. */
    method SetCommon(c: nat, heapHasRoom: bool, createError: int, valueError: int, closeError: int, others: seq<Action>,
                     sendResult: int, rightType: bool, updated: bool)
      returns (r: Result, ghost run: seq<Action>)
      requires Valid() && Enabled(View(), callers, Get(c, heapHasRoom)) && ByOthers(others, c)
      requires Legal(Apply(View(), Get(c, heapHasRoom)), callers, others)
      modifies this
      ensures Valid() && Legal(old(View()), callers, run) && View() == Run(old(View()), callers, run)
      ensures run == Path(old(View()), callers, c, heapHasRoom,
                          createError != 0 || valueError != 0 || closeError != 0, others)
      ensures !halted ==> c !in held
      ensures others == [] ==> !halted && held == old(held)
      ensures r == if old(cache) == [] && !heapHasRoom then Returned(NO_PACKET, false)
                   else if createError != 0 then Returned(createError, false)
                   else if valueError != 0 then Returned(valueError, false)
                   else if closeError != 0 then Returned(closeError, false)
                   else Answered(halted, sendResult, rightType, updated)
    {
      ghost var p := View();
      var err, packet := SerializeUpdate(c, heapHasRoom, createError, valueError, closeError);
      if err != 0 {
        run := UndoneRun(p, callers, c, heapHasRoom);
        return Returned(err, false), run;
      }
      run := Exchange(c, packet.value, others, p, heapHasRoom);
      if halted {
        return Halted, run;
      }
      if sendResult != 0 {
        return Returned(if sendResult == 1 then TIMEOUT else sendResult, false), run;
      }
      if !rightType {
        return Halted, run;
      }
      r := Returned(0, updated);
    }

    /** Sending, and giving the packet back whatever came of it. */
    method Exchange(c: nat, packet: nat, others: seq<Action>, ghost p: Pool, ghost room: bool)
      returns (ghost run: seq<Action>)
      requires Inv(p, callers) && Enabled(p, callers, Get(c, room)) && View() == Apply(p, Get(c, room))
      requires Valid() && c in held && held[c] == packet && ByOthers(others, c) && Legal(View(), callers, others)
      modifies this
      ensures Valid() && Legal(p, callers, run) && View() == Run(p, callers, run)
      ensures run == Path(p, callers, c, room, false, others)
      ensures !halted ==> c !in held
      ensures others == [] ==> !halted && held == p.held
    {
      ghost var got := View();
      OthersLeaveMine(got, callers, others, c);
      OneStep(p, callers, Get(c, room));
      RunAdds(p, callers, [Get(c, room)], others);
      TakenAndGivenBack(p, callers, c, room);
      SendRequestAndBlock(others);
      run := [Get(c, room)] + others;
      if !halted {
        OneStep(View(), callers, Discard(c));
        RunAdds(p, callers, run, [Discard(c)]);
        run := run + [Discard(c)];
        DiscardPacketBuffer(c, Some(packet));
      }
    }
  }

  /** What a call that got past its serializer comes to. */
  function Answered(halted: bool, sendResult: int, rightType: bool, answer: bool): Result {
    if halted then Halted
    else if sendResult != 0 then Returned(sendResult, false)
    else if rightType then Returned(0, answer) else Halted
  }

  /** What a caller does with the pool: on every exit what it took it gives back, unless the system has halted. */
  function Path(p: Pool, n: nat, c: nat, room: bool, fails: bool, others: seq<Action>): seq<Action>
    requires Enabled(p, n, Get(c, room)) && Legal(Apply(p, Get(c, room)), n, others)
  {
    var got := Apply(p, Get(c, room));
    if c !in got.held then [Get(c, room)]
    else if fails then [Get(c, room), Discard(c)]
    else if Run(got, n, others).halted then [Get(c, room)] + others
    else [Get(c, room)] + others + [Discard(c)]
  }

  /** A serializer has succeeded and taken a packet, or failed and left nothing taken. */
  ghost predicate Serialized(was: Pool, now: Pool, c: nat, room: bool, err: int, packet: Option<nat>) {
    var got := Apply(was, Get(c, room));
    if err == 0 then c in now.held && packet == Some(now.held[c]) && now == got
    else
      && packet == None && now.held == was.held && !now.halted
      && if c in got.held then now == Apply(got, Discard(c)) else now == got
  }

  /** The run of a call whose serializer failed. */
  lemma UndoneRun(p: Pool, n: nat, c: nat, room: bool) returns (run: seq<Action>)
    requires Inv(p, n) && Enabled(p, n, Get(c, room))
    ensures Legal(p, n, run)
    ensures var got := Apply(p, Get(c, room));
      if c in got.held then run == [Get(c, room), Discard(c)] && Run(p, n, run) == Apply(got, Discard(c))
      else run == [Get(c, room)] && Run(p, n, run) == got
  {
    TakenAndGivenBack(p, n, c, room);
    OneStep(p, n, Get(c, room));
    run := [Get(c, room)];
    if c in Apply(p, Get(c, room)).held {
      OneStep(Apply(p, Get(c, room)), n, Discard(c));
      RunAdds(p, n, run, [Discard(c)]);
      run := run + [Discard(c)];
    }
  }

  lemma {:induction false} SetBounded(callers: set<nat>, n: nat)
    requires forall c :: c in callers ==> c < n
    ensures |callers| <= n
  {
    if n == 0 {
      assert callers == {};
    } else {
      SetBounded(callers - {n - 1}, n - 1);
    }
  }

  lemma {:induction false} PeakBounded(p: Pool, n: nat, actions: seq<Action>)
    requires Inv(p, n) && Legal(p, n, actions) && p.peak <= n
    ensures Run(p, n, actions).peak <= n
    decreases |actions|
  {
    if actions != [] {
      ApplyKeeps(p, n, actions[0]);
      SetBounded(Apply(p, actions[0]).held.Keys, n);
      PeakBounded(Apply(p, actions[0]), n, actions[1..]);
    }
  }

  /**
   * In every run each of the buffers ever allocated is either cached, at one place, or held, by one caller; and
   * there are exactly as many as were ever held at once.
   */
  lemma Conservation(n: nat, actions: seq<Action>)
    requires Legal(EMPTY, n, actions)
    ensures var p := Run(EMPTY, n, actions);
      && p.made == p.peak
      && (forall b: nat :: b < p.made <==> (b in p.cache || Holds(p.held, b)))
      && (forall b :: b in p.cache ==> !Holds(p.held, b))
      && Distinct(p.cache)
      && (forall c, d :: c in p.held && d in p.held && p.held[c] == p.held[d] ==> c == d)
  {
    RunKeeps(EMPTY, n, actions);
  }

  /** As long as no more than two buffers are ever held at once, giving one back never halts the system. */
  lemma HaltsOnlyPastTwo(n: nat, actions: seq<Action>)
    requires Legal(EMPTY, n, actions) && Run(EMPTY, n, actions).halted
    ensures Run(EMPTY, n, actions).peak > MAX_PACKET_BUFFERS
  {
    RunKeeps(EMPTY, n, actions);
  }

  /** Some interleaving of `n` callers halts the system if and only if there are more callers than cache slots. */
  lemma HaltsWithThree(n: nat)
    ensures (exists actions :: Legal(EMPTY, n, actions) && Run(EMPTY, n, actions).halted) <==> n > MAX_PACKET_BUFFERS
  {
    forall actions | Legal(EMPTY, n, actions) && Run(EMPTY, n, actions).halted
      ensures n > MAX_PACKET_BUFFERS
    {
      RunKeeps(EMPTY, n, actions);
      PeakBounded(EMPTY, n, actions);
    }
    if n > MAX_PACKET_BUFFERS {
      var actions := OverflowHalts(n);
    }
  }

  const THREE_HELD := Pool([], 3, map[0 := 0, 1 := 1, 2 := 2], 3, false)

  /** Three callers hold a buffer each, and give them back. */
  lemma ThirdReturnHalts(n: nat) returns (actions: seq<Action>)
    requires n > MAX_PACKET_BUFFERS
    ensures Legal(THREE_HELD, n, actions) && Run(THREE_HELD, n, actions).halted
  {
    var one := Pool([0], 3, map[1 := 1, 2 := 2], 3, false);
    actions := SecondReturnHalts(one, n);
    FirstReturn(one, n);
    actions := StepBack(THREE_HELD, Discard(0), actions, n);
  }

  lemma FirstReturn(one: Pool, n: nat)
    requires n > MAX_PACKET_BUFFERS && one == Pool([0], 3, map[1 := 1, 2 := 2], 3, false)
    ensures Enabled(THREE_HELD, n, Discard(0)) && Apply(THREE_HELD, Discard(0)) == one
  {
    assert THREE_HELD.held - {0} == one.held;
  }

  lemma SecondReturnHalts(one: Pool, n: nat) returns (actions: seq<Action>)
    requires n > MAX_PACKET_BUFFERS && one == Pool([0], 3, map[1 := 1, 2 := 2], 3, false)
    ensures Legal(one, n, actions) && Run(one, n, actions).halted
  {
    var two := Pool([0, 1], 3, map[2 := 2], 3, false);
    actions := StepBack(two, Discard(2), [], n);
    assert Apply(one, Discard(1)) == two;
    actions := StepBack(one, Discard(1), actions, n);
  }

  lemma OneHeldHalts(one: Pool, n: nat) returns (actions: seq<Action>)
    requires n > MAX_PACKET_BUFFERS && one == Pool([], 1, map[0 := 0], 1, false)
    ensures Legal(one, n, actions) && Run(one, n, actions).halted
  {
    actions := ThirdReturnHalts(n);
    var two := Pool([], 2, map[0 := 0, 1 := 1], 2, false);
    assert Apply(two, Get(2, true)) == THREE_HELD;
    actions := StepBack(two, Get(2, true), actions, n);
    assert Apply(one, Get(1, true)) == two;
    actions := StepBack(one, Get(1, true), actions, n);
  }

  lemma OverflowHalts(n: nat) returns (actions: seq<Action>)
    requires n > MAX_PACKET_BUFFERS
    ensures Legal(EMPTY, n, actions) && Run(EMPTY, n, actions).halted
  {
    var one := Pool([], 1, map[0 := 0], 1, false);
    actions := OneHeldHalts(one, n);
    assert Apply(EMPTY, Get(0, true)) == one;
    actions := StepBack(EMPTY, Get(0, true), actions, n);
  }

  lemma StepBack(p: Pool, a: Action, rest: seq<Action>, n: nat) returns (actions: seq<Action>)
    requires Enabled(p, n, a) && Legal(Apply(p, a), n, rest) && Run(Apply(p, a), n, rest).halted
    ensures Legal(p, n, actions) && Run(p, n, actions).halted
  {
    actions := [a] + rest;
    assert actions[1..] == rest;
  }
}
