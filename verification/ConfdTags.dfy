/** Request tags: eight bits, wrapping, never zero, never one still in flight. */
module ConfdTags {
  type Tag = t: nat | t < 0x100

  /** At most this many requests may be in flight. */
  const MAX_INFLIGHT: nat := 4

  /** The value `n` steps after `t`, wrapping. */
  function Ahead(t: Tag, n: nat): Tag
    requires n < 0x100
  {
    if t + n < 0x100 then t + n else t + n - 0x100
  }

  /** How many steps it takes from `t` to `x`. */
  function Steps(t: Tag, x: nat): (n: nat)
    requires x < 0x100
    ensures n < 0x100 && Ahead(t, n) == x
  {
    if x >= t then x - t else x + 0x100 - t
  }

  /** The `n` values that come after `t`. */
  function Passed(t: Tag, n: nat): set<nat> {
    set x: nat | x < 0x100 && 1 <= Steps(t, x) <= n
  }

  lemma {:induction false} PassedSize(t: Tag, n: nat)
    requires n < 0x100
    ensures |Passed(t, n)| == n
  {
    if n == 0 {
      assert Passed(t, n) == {};
    } else {
      PassedSize(t, n - 1);
      OneMore(t, n - 1);
    }
  }

  lemma OneMore(t: Tag, n: nat)
    requires n < 0xFF
    ensures Passed(t, n + 1) == Passed(t, n) + {Ahead(t, n + 1)}
    ensures Ahead(t, n + 1) !in Passed(t, n)
  {
  }

  /** `t` is the first value after `last` that is nonzero and not in use. */
  ghost predicate IsNext(last: Tag, busy: set<Tag>, t: Tag) {
    t != 0 && t !in busy && Passed(last, Between(last, t)) <= busy + {0}
  }

  /** How many values lie strictly between two, going once around if they are the same. */
  function Between(last: Tag, t: Tag): (n: nat)
    ensures n < 0x100
  {
    if t == last then 0xFF else Steps(last, t) - 1
  }

  lemma NextIsUnique(last: Tag, busy: set<Tag>, t: Tag, u: Tag)
    requires IsNext(last, busy, t) && IsNext(last, busy, u)
    ensures t == u
  {
    var tFirst := t in Passed(last, Between(last, u));
    var uFirst := u in Passed(last, Between(last, t));
    assert !tFirst && !uFirst;
  }

  lemma SubsetSize<T>(a: set<T>, b: set<T>)
    requires a <= b
    ensures |a| <= |b|
  {
    assert b == a + (b - a);
  }

  lemma FewSkipped(last: Tag, busy: set<Tag>, n: nat)
    requires n < 0x100 && Passed(last, n) <= busy + {0}
    ensures n <= |busy| + 1
  {
    PassedSize(last, n);
    SubsetSize(Passed(last, n), busy + {0});
    SubsetSize(busy + {0}, busy + {0});
    assert |busy + {0}| <= |busy| + 1;
  }

  /** A request waiting for its reply. */
  class InfoBlock {
    var tag: Tag

    constructor ()
      ensures tag == 0
    {
      tag := 0;
    }
  }

  /** The table of requests in flight. */
  class Handler {
    var requests: map<Tag, InfoBlock>
    var nextTag: Tag

    constructor ()
      ensures requests == map[] && nextTag == 0
    {
      requests := map[];
      nextTag := 0;
    }

    /** Give the block the next free tag and enter it; the search looks at no more than two values too many. */
    method Register(info: InfoBlock) returns (ghost tries: nat)
      requires |requests| < MAX_INFLIGHT
      modifies this, info`tag
      ensures IsNext(old(nextTag), old(requests.Keys), info.tag)
      ensures nextTag == info.tag && requests == old(requests)[info.tag := info]
      ensures tries <= |old(requests)| + 2
    {
      ghost var last, busy := nextTag, requests.Keys;
      nextTag := Ahead(nextTag, 1);
      info.tag := nextTag;
      tries := 1;
      assert Passed(last, 0) == {};
      while info.tag == 0 || info.tag in requests
        invariant requests == old(requests) && info.tag == nextTag
        invariant 1 <= tries && tries - 1 <= |busy| + 1
        invariant nextTag == Ahead(last, tries) && tries < 0x100
        invariant Passed(last, tries - 1) <= busy + {0}
        decreases 0x100 - tries
      {
        OneMore(last, tries - 1);
        FewSkipped(last, busy, tries);
        nextTag := Ahead(nextTag, 1);
        info.tag := nextTag;
        tries := tries + 1;
      }
      assert Between(last, nextTag) == tries - 1;
      requests := requests[info.tag := info];
    }

    /** A reply takes its request out of the table; one that nobody waits for leaves it alone. */
    method Take(tag: Tag) returns (found: bool, info: InfoBlock?)
      modifies this`requests
      ensures found <==> tag in old(requests)
      ensures found ==> info == old(requests)[tag] && requests == old(requests) - {tag}
      ensures !found ==> info == null && requests == old(requests)
    {
      if tag !in requests {
        return false, null;
      }
      info := requests[tag];
      requests := requests - {tag};
      found := true;
    }
  }

  // ---------- runs ----------

  datatype Event = Allocated(tag: Tag) | Released(tag: Tag)

  /** Any run of allocations and releases that respects the table's capacity. */
  ghost predicate Run(last: Tag, busy: set<Tag>, events: seq<Event>)
    decreases |events|
  {
    |busy| <= MAX_INFLIGHT &&
    (events != [] ==>
      match events[0]
      case Allocated(t) =>
        |busy| < MAX_INFLIGHT && IsNext(last, busy, t) && Run(t, busy + {t}, events[1..])
      case Released(t) => Run(last, busy - {t}, events[1..]))
  }

  function Allocations(events: seq<Event>): nat {
    if events == [] then 0
    else (if events[0].Allocated? then 1 else 0) + Allocations(events[1..])
  }

  /** Once around: of the 255 other values one is zero, and the others not allocated were in flight all along. */
  lemma FullLap(t: Tag, before: set<Tag>, since: set<Tag>)
    requires |before| < MAX_INFLIGHT && Passed(t, 0xFF) <= since + before + {0}
    ensures |since| >= 251
  {
    PassedSize(t, 0xFF);
    SubsetSize(Passed(t, 0xFF), since + before + {0});
    assert |since + before + {0}| <= |since + before| + 1 <= |since| + |before| + 1;
  }

  /**
   * The counter has gone `d` values past `t`. Of those, the tags `since` were allocated after `t`, and the others
   * were skipped because they were in flight when `t` was given out.
   */
  ghost predicate Lapping(t: Tag, d: nat, busy: set<Tag>, before: set<Tag>, since: set<Tag>) {
    && t != 0 && d < 0x100 && |before| < MAX_INFLIGHT
    && busy <= before + since + {t}
    && since <= Passed(t, d) <= since + before + {0}
  }

  lemma LapStep(t: Tag, d: nat, busy: set<Tag>, before: set<Tag>, since: set<Tag>, u: Tag)
    requires Lapping(t, d, busy, before, since) && IsNext(Ahead(t, d), busy, u)
    ensures var d' := d + Between(Ahead(t, d), u) + 1;
      if d' < 0x100 then
        Ahead(t, d') == u && u != t && u !in since && Lapping(t, d', busy + {u}, before, since + {u})
      else |since| >= 251
  {
    var g := Between(Ahead(t, d), u);
    if d + g + 1 < 0x100 {
      assert Ahead(t, d + g + 1) == u;
      Skipped(t, d, g, busy, before, since);
      OneMore(t, d + g);
      Longer(t, d, d + g);
      Grown(t, d + g, busy, before, since, u);
    } else {
      Skipped(t, d, 0xFF - d, busy, before, since);
      FullLap(t, before, since);
    }
  }

  lemma Longer(t: Tag, n: nat, m: nat)
    requires n <= m
    ensures Passed(t, n) <= Passed(t, m)
  {
  }

  lemma Grown(t: Tag, n: nat, busy: set<Tag>, before: set<Tag>, since: set<Tag>, u: Tag)
    requires t != 0 && n < 0xFF && |before| < MAX_INFLIGHT
    requires busy <= before + since + {t} && since <= Passed(t, n) <= since + before + {0}
    requires Passed(t, n + 1) == Passed(t, n) + {u}
    ensures Lapping(t, n + 1, busy + {u}, before, since + {u})
  {
  }

  lemma {:induction false} Lap(t: Tag, d: nat, busy: set<Tag>, before: set<Tag>, since: set<Tag>, events: seq<Event>)
    requires Lapping(t, d, busy, before, since)
    requires events != [] && events[|events| - 1] == Allocated(t)
    requires Run(Ahead(t, d), busy, events)
    ensures |since| + Allocations(events) > 251
    decreases |events|
  {
    var d', busy', since' := LapOn(t, d, busy, before, since, events);
    if d' < 0x100 {
      Lap(t, d', busy', before, since', events[1..]);
    } else {
      LastCounts(events);
    }
  }

  /** One event of a lap: what it adds to the lap is counted, and the lap goes on unless it is full. */
  lemma LapOn(t: Tag, d: nat, busy: set<Tag>, before: set<Tag>, since: set<Tag>, events: seq<Event>)
    returns (d': nat, busy': set<Tag>, since': set<Tag>)
    requires Lapping(t, d, busy, before, since) && events != [] && Run(Ahead(t, d), busy, events)
    ensures d' >= 0x100 ==> |since| >= 251
    ensures d' < 0x100 ==>
      && Lapping(t, d', busy', before, since') && Run(Ahead(t, d'), busy', events[1..]) && events[0] != Allocated(t)
      && |since'| == |since| + if events[0].Allocated? then 1 else 0
  {
    match events[0]
    case Released(x) => d', busy', since' := d, busy - {x}, since;
    case Allocated(u) =>
      LapStep(t, d, busy, before, since, u);
      d', busy', since' := d + Between(Ahead(t, d), u) + 1, busy + {u}, since + {u};
  }

  lemma Skipped(t: Tag, d: nat, g: nat, busy: set<Tag>, before: set<Tag>, since: set<Tag>)
    requires d + g < 0x100
    requires busy <= before + since + {t}
    requires since <= Passed(t, d) <= since + before + {0}
    requires Passed(Ahead(t, d), g) <= busy + {0}
    ensures Passed(t, d + g) <= since + before + {0}
  {
    forall x | x in Passed(t, d + g) ensures x in since + before + {0} {
      if x !in Passed(t, d) {
        assert x in Passed(Ahead(t, d), g);
        assert x != t;
      }
    }
  }

  lemma {:induction false} LastCounts(events: seq<Event>)
    requires events != [] && events[|events| - 1].Allocated?
    ensures Allocations(events) >= 1
  {
    if |events| > 1 {
      assert events[1..][|events| - 2] == events[|events| - 1];
      LastCounts(events[1..]);
    }
  }

  /** The run starts by giving out a tag and ends by giving it out again. */
  lemma OneLap(last: Tag, busy: set<Tag>, events: seq<Event>)
    requires Run(last, busy, events)
    requires |events| > 1 && events[0].Allocated? && events[|events| - 1] == events[0]
    ensures Allocations(events[1..|events| - 1]) >= 251
  {
    var t := events[0].tag;
    var rest := events[1..];
    assert Passed(t, 0) == {};
    Lap(t, 0, busy + {t}, busy, {}, rest);
    AllButLast(rest);
    assert rest[..|rest| - 1] == events[1..|events| - 1];
  }

  /** In every run, two allocations of the same tag have at least 251 other allocations between them. */
  lemma {:induction false} ReuseDistance(last: Tag, busy: set<Tag>, events: seq<Event>, i: nat, j: nat)
    requires Run(last, busy, events)
    requires i < j < |events| && events[i].Allocated? && events[i] == events[j]
    ensures Allocations(events[i + 1..j]) >= 251
    decreases i
  {
    if i > 0 {
      var last', busy' := RunOn(last, busy, events);
      assert events[1..][i..j - 1] == events[i + 1..j];
      ReuseDistance(last', busy', events[1..], i - 1, j - 1);
    } else {
      ReuseOfFirst(last, busy, events, j);
    }
  }

  lemma RunOn(last: Tag, busy: set<Tag>, events: seq<Event>) returns (last': Tag, busy': set<Tag>)
    requires Run(last, busy, events) && events != []
    ensures Run(last', busy', events[1..])
  {
    match events[0]
    case Allocated(u) => last', busy' := u, busy + {u};
    case Released(u) => last', busy' := last, busy - {u};
  }

  lemma ReuseOfFirst(last: Tag, busy: set<Tag>, events: seq<Event>, j: nat)
    requires Run(last, busy, events)
    requires 0 < j < |events| && events[0].Allocated? && events[0] == events[j]
    ensures Allocations(events[1..j]) >= 251
  {
    RunPrefix(last, busy, events, j + 1);
    OneLap(last, busy, events[..j + 1]);
    assert events[..j + 1][1..j] == events[1..j];
  }

  lemma {:induction false} RunPrefix(last: Tag, busy: set<Tag>, events: seq<Event>, n: nat)
    requires Run(last, busy, events) && n <= |events|
    ensures Run(last, busy, events[..n])
    decreases n
  {
    if n > 0 {
      assert events[..n][1..] == events[1..][..n - 1];
      match events[0] {
        case Allocated(t) => RunPrefix(t, busy + {t}, events[1..], n - 1);
        case Released(t) => RunPrefix(last, busy - {t}, events[1..], n - 1);
      }
    }
  }

  lemma {:induction false} AllButLast(events: seq<Event>)
    requires events != [] && events[|events| - 1].Allocated?
    ensures Allocations(events) == Allocations(events[..|events| - 1]) + 1
  {
    if |events| > 1 {
      AllButLast(events[1..]);
      assert events[..|events| - 1][1..] == events[1..][..|events| - 2];
    }
  }
}
