/** The control task: setters that store and then notify, and a task that is notified and commands the driver. */
module ControlTask {
  import opened Common

  /** What the driver was last told. */
  datatype Driver = Driver(current: Option<nat>, enabled: Option<bool>, sense: Option<bool>)

  /** Where the control task is; what it read last is part of that. */
  datatype Point =
    | Waiting
    | Decide
    | ReadCurrent(on: bool)
    | SetCurrent(on: bool, value: nat)
    | SetEnabled(on: bool)
    | Compare
    | Remember
    | Rest
    | SetSense(sensed: bool)

  /** The fields the setters write. */
  datatype Load = Load(setpoint: nat, enabled: bool, sense: bool)

  /**
   * The notification bits, how many setters of each kind have stored but not notified yet, and whether any has
   * stored at all.
   */
  datatype Notes = Notes(
    configChange: bool, updateRelay: bool,
    owingConfig: nat, owingSense: nat,
    storedConfig: bool, storedSense: bool
  )

  /**
   * The user interface, as far as the control task deals with it: the enable state the task remembers, the
   * interface's notification bit, whether it has taken that and is about to read the state, and what it shows.
   */
  datatype Panel = Panel(prev: bool, ui: bool, reading: bool, shown: bool)

  /**
   * When nobody changes the enable state: while the task remembers it, while the interface's bit is pending, while
   * the interface is about to read.
   */
  datatype Guards = Guards(remember: bool, ui: bool, reading: bool) {
    predicate All() {
      remember && ui && reading
    }
  }

  /** `due` is the sense relay bit taken with the notification being handled. */
  datatype State = State(
    guards: Guards, load: Load, notes: Notes, point: Point, due: bool, panel: Panel, driver: Driver
  )

  datatype Action =
    | StoreCurrent(value: nat) | StoreEnabled(active: bool) | StoreSense(external: bool)
    | NotifyConfig | NotifySense
    | Other
    | Advance
    | UiTake | UiRead

  predicate Enabled(s: State, a: Action) {
    match a
    case StoreEnabled(active) => active == s.load.enabled || Unguarded(s)
    case NotifyConfig => s.notes.owingConfig > 0
    case NotifySense => s.notes.owingSense > 0
    case Other => s.point.Waiting?
    case Advance => !s.point.Waiting? || s.notes.configChange || s.notes.updateRelay
    case UiTake => s.panel.ui && !s.panel.reading
    case UiRead => s.panel.reading
    case _ => true
  }

  predicate Unguarded(s: State) {
    && !(s.guards.remember && s.point.Remember?)
    && !(s.guards.ui && s.panel.ui)
    && !(s.guards.reading && s.panel.reading)
  }

  /** The control task takes its notifications. */
  function Taken(s: State): State {
    s.(point := if s.notes.configChange then Decide else Rest, due := s.notes.updateRelay,
       notes := s.notes.(configChange := false, updateRelay := false))
  }

  predicate Updating(p: Point) {
    p.Decide? || p.ReadCurrent? || p.SetCurrent? || p.SetEnabled? || p.Compare? || p.Remember?
  }

  /** The driver commands: the current before the load is enabled, but after it is disabled. */
  function Commanded(s: State): State
    requires s.point.Decide? || s.point.ReadCurrent? || s.point.SetCurrent? || s.point.SetEnabled?
  {
    match s.point
    case Decide => s.(point := if s.load.enabled then ReadCurrent(true) else SetEnabled(false))
    case ReadCurrent(on) => s.(point := SetCurrent(on, s.load.setpoint))
    case SetCurrent(on, v) =>
      s.(driver := s.driver.(current := Some(v)), point := if on then SetEnabled(true) else Compare)
    case SetEnabled(on) =>
      s.(driver := s.driver.(enabled := Some(on)), point := if on then Compare else ReadCurrent(false))
  }

  /** The rest of a round: telling the user interface, and the sense relay. */
  function Concluded(s: State): State
    requires s.point.Compare? || s.point.Remember? || s.point.Rest? || s.point.SetSense?
  {
    match s.point
    case Compare =>
      if s.panel.prev != s.load.enabled then s.(panel := s.panel.(ui := true), point := Remember) else s.(point := Rest)
    case Remember => s.(panel := s.panel.(prev := s.load.enabled), point := Rest)
    case Rest => s.(point := if s.due then SetSense(s.load.sense) else Waiting, due := false)
    case SetSense(v) => s.(driver := s.driver.(sense := Some(v)), point := Waiting)
  }

  function Advanced(s: State): State {
    if s.point.Waiting? then Taken(s)
    else if s.point.Compare? || s.point.Remember? || s.point.Rest? || s.point.SetSense? then Concluded(s)
    else Commanded(s)
  }

  /** A notification of another kind: the round it causes leaves the configuration alone. */
  function Apply(s: State, a: Action): State
    requires Enabled(s, a)
  {
    match a
    case StoreCurrent(v) =>
      s.(load := s.load.(setpoint := v),
         notes := s.notes.(storedConfig := true, owingConfig := s.notes.owingConfig + 1))
    case StoreEnabled(v) =>
      s.(load := s.load.(enabled := v), notes := s.notes.(storedConfig := true, owingConfig := s.notes.owingConfig + 1))
    case StoreSense(v) =>
      s.(load := s.load.(sense := v), notes := s.notes.(storedSense := true, owingSense := s.notes.owingSense + 1))
    case NotifyConfig => s.(notes := s.notes.(configChange := true, owingConfig := s.notes.owingConfig - 1))
    case NotifySense => s.(notes := s.notes.(updateRelay := true, owingSense := s.notes.owingSense - 1))
    case Other => Taken(s)
    case Advance => Advanced(s)
    case UiTake => s.(panel := s.panel.(ui := false, reading := true))
    case UiRead => s.(panel := s.panel.(reading := false, shown := s.load.enabled))
  }

  predicate LegalRun(s: State, run: seq<Action>)
    decreases |run|
  {
    run == [] || (Enabled(s, run[0]) && LegalRun(Apply(s, run[0]), run[1..]))
  }

  function Run(s: State, run: seq<Action>): State
    requires LegalRun(s, run)
    decreases |run|
  {
    if run == [] then s else Run(Apply(s, run[0]), run[1..])
  }

  function Start(g: Guards): State {
    State(g, Load(0, false, false), Notes(false, false, 0, 0, false, false), Waiting, false,
          Panel(false, false, false, false), Driver(None, None, None))
  }

  // ---------- the invariant ----------

  /** A setter has been at work, and the control task has not taken its notification yet. */
  predicate ConfigNews(s: State) {
    s.notes.owingConfig > 0 || s.notes.configChange
  }

  predicate SenseNews(s: State) {
    s.notes.owingSense > 0 || s.notes.updateRelay
  }

  predicate CurrentSet(s: State) {
    s.driver.current == Some(s.load.setpoint)
  }

  predicate EnabledSet(s: State) {
    s.driver.enabled == Some(s.load.enabled)
  }

  /** As long as there is no news, what the task has read is still so, and what it has done need not be done again. */
  predicate ConfigFollows(s: State) {
    match s.point
    case Decide => true
    case ReadCurrent(on) => on == s.load.enabled && (!on ==> EnabledSet(s))
    case SetCurrent(on, v) => on == s.load.enabled && v == s.load.setpoint && (!on ==> EnabledSet(s))
    case SetEnabled(on) => on == s.load.enabled && (on ==> CurrentSet(s))
    case _ => CurrentSet(s) && EnabledSet(s)
  }

  predicate SenseFollows(s: State) {
    || s.due
    || s.driver.sense == Some(s.load.sense)
    || s.point == SetSense(s.load.sense)
  }

  predicate ConfigInv(s: State) {
    && (s.notes.storedConfig && !ConfigNews(s) ==> ConfigFollows(s))
    && (!s.notes.storedConfig ==>
          !ConfigNews(s) && !Updating(s.point) && s.driver.current.None? && s.driver.enabled.None?)
  }

  predicate SenseInv(s: State) {
    && (s.notes.storedSense && !SenseNews(s) ==>
          SenseFollows(s) && (s.point.SetSense? ==> s.point.sensed == s.load.sense))
    && (s.due ==> !s.point.Waiting? && !s.point.SetSense?)
    && (!s.notes.storedSense ==> !SenseNews(s) && !s.due && !s.point.SetSense? && s.driver.sense.None?)
  }

  /** The driver is given a current before it is enabled, and disabled before it is given one that belongs to that. */
  predicate InOrder(s: State) {
    && (s.driver.enabled == Some(true) || s.point == SetEnabled(true) ==> s.driver.current.Some?)
    && (ForOff(s.point) ==> s.driver.enabled == Some(false))
  }

  /** The task is at the current that comes with the load switched off. */
  predicate ForOff(p: Point) {
    (p.ReadCurrent? || p.SetCurrent?) && !p.on
  }

  predicate UiInv(s: State) {
    && (!ConfigNews(s) ==> s.panel.prev == s.load.enabled || Updating(s.point))
    && (s.guards.All() ==>
          if s.point.Remember? then
            s.panel.prev != s.load.enabled && (s.panel.ui || s.panel.reading || s.panel.shown == s.load.enabled)
          else if s.panel.ui || s.panel.reading then s.panel.prev == s.load.enabled
          else s.panel.shown == s.panel.prev)
  }

  predicate Inv(s: State) {
    ConfigInv(s) && SenseInv(s) && InOrder(s) && UiInv(s)
  }

  lemma TakenKeeps(s: State)
    requires Inv(s) && s.point.Waiting?
    ensures Inv(Taken(s))
  {
  }

  lemma CommandedKeeps(s: State)
    requires Inv(s) && (s.point.Decide? || s.point.ReadCurrent? || s.point.SetCurrent? || s.point.SetEnabled?)
    ensures Inv(Commanded(s))
  {
    match s.point
    case Decide =>
    case ReadCurrent(on) =>
    case SetCurrent(on, v) =>
    case SetEnabled(on) =>
  }

  lemma ConcludedKeeps(s: State)
    requires Inv(s) && (s.point.Compare? || s.point.Remember? || s.point.Rest? || s.point.SetSense?)
    ensures Inv(Concluded(s))
  {
    match s.point
    case Compare =>
    case Remember =>
    case Rest =>
    case SetSense(v) =>
  }

  lemma AdvanceKeeps(s: State)
    requires Inv(s)
    ensures Inv(Advanced(s))
  {
    if s.point.Waiting? { TakenKeeps(s); }
    else if s.point.Compare? || s.point.Remember? || s.point.Rest? || s.point.SetSense? { ConcludedKeeps(s); }
    else { CommandedKeeps(s); }
  }

  lemma SetterKeeps(s: State, a: Action)
    requires Inv(s) && Enabled(s, a) && (a.StoreCurrent? || a.StoreEnabled? || a.StoreSense?)
    ensures Inv(Apply(s, a))
  {
    match a
    case StoreCurrent(v) =>
    case StoreEnabled(v) =>
    case StoreSense(v) =>
  }

  lemma NotifyKeeps(s: State, a: Action)
    requires Inv(s) && Enabled(s, a) && (a.NotifyConfig? || a.NotifySense?)
    ensures Inv(Apply(s, a))
  {
    match a
    case NotifyConfig =>
    case NotifySense =>
  }

  lemma UiKeeps(s: State, a: Action)
    requires Inv(s) && Enabled(s, a) && (a.UiTake? || a.UiRead?)
    ensures Inv(Apply(s, a))
  {
    match a
    case UiTake =>
    case UiRead =>
  }

  lemma ApplyKeeps(s: State, a: Action)
    requires Inv(s) && Enabled(s, a)
    ensures Inv(Apply(s, a))
  {
    match a
    case Advance => AdvanceKeeps(s);
    case Other => TakenKeeps(s);
    case NotifyConfig => NotifyKeeps(s, a);
    case NotifySense => NotifyKeeps(s, a);
    case UiTake => UiKeeps(s, a);
    case UiRead => UiKeeps(s, a);
    case _ => SetterKeeps(s, a);
  }

  function Distance(p: Point): nat {
    match p
    case Waiting => 0
    case SetSense(_) => 1
    case Rest => 2
    case Remember => 3
    case Compare => 4
    case SetCurrent(on, _) => if on then 6 else 5
    case ReadCurrent(on) => if on then 7 else 6
    case SetEnabled(on) => if on then 5 else 7
    case Decide => 8
  }

  function Bits(s: State): nat {
    if s.notes.configChange || s.notes.updateRelay then 1 else 0
  }

  /** A step of the control task leaves alone what the setters write. */
  predicate LeavesFields(s: State, s': State) {
    && s'.guards == s.guards && s'.load == s.load
    && s'.notes.owingConfig == s.notes.owingConfig && s'.notes.owingSense == s.notes.owingSense
  }

  lemma CommandedNearer(s: State)
    requires s.point.Decide? || s.point.ReadCurrent? || s.point.SetCurrent? || s.point.SetEnabled?
    ensures var s' := Commanded(s);
      LeavesFields(s, s') && Bits(s') == Bits(s) && Distance(s'.point) < Distance(s.point)
  {
    match s.point
    case Decide =>
    case ReadCurrent(on) =>
    case SetCurrent(on, v) =>
    case SetEnabled(on) =>
  }

  lemma ConcludedNearer(s: State)
    requires s.point.Compare? || s.point.Remember? || s.point.Rest? || s.point.SetSense?
    ensures var s' := Concluded(s);
      LeavesFields(s, s') && Bits(s') == Bits(s) && Distance(s'.point) < Distance(s.point)
  {
    ConcludedPoint(s);
  }

  lemma ConcludedPoint(s: State)
    requires s.point.Compare? || s.point.Remember? || s.point.Rest? || s.point.SetSense?
    ensures Distance(Concluded(s).point) < Distance(s.point)
  {
    match s.point
    case Compare =>
    case Remember =>
    case Rest =>
    case SetSense(v) =>
  }

  lemma AdvanceNearer(s: State)
    requires !s.point.Waiting?
    ensures var s' := Advanced(s);
      LeavesFields(s, s') && Bits(s') == Bits(s) && Distance(s'.point) < Distance(s.point)
  {
    if s.point.Compare? || s.point.Remember? || s.point.Rest? || s.point.SetSense? { ConcludedNearer(s); }
    else { CommandedNearer(s); }
  }

  lemma GuardsStay(s: State, a: Action)
    requires Enabled(s, a)
    ensures Apply(s, a).guards == s.guards
  {
    if a.Advance? && !s.point.Waiting? { AdvanceNearer(s); }
  }

  lemma {:induction false} RunKeeps(s: State, run: seq<Action>)
    requires Inv(s) && LegalRun(s, run)
    ensures Inv(Run(s, run)) && Run(s, run).guards == s.guards
    decreases |run|
  {
    if run != [] {
      ApplyKeeps(s, run[0]);
      GuardsStay(s, run[0]);
      RunKeeps(Apply(s, run[0]), run[1..]);
    }
  }

  // ---------- convergence ----------

  /** No setter is between its store and its notification, no bit is pending, and the control task waits. */
  predicate Quiet(s: State) {
    s.point.Waiting? && !ConfigNews(s) && !SenseNews(s)
  }

  /** The values stored last. */
  function LastCurrent(run: seq<Action>): Option<nat> {
    if run == [] then None
    else
      var later := LastCurrent(run[1..]);
      if later.None? && run[0].StoreCurrent? then Some(run[0].value) else later
  }

  function LastEnabled(run: seq<Action>): Option<bool> {
    if run == [] then None
    else
      var later := LastEnabled(run[1..]);
      if later.None? && run[0].StoreEnabled? then Some(run[0].active) else later
  }

  function LastSense(run: seq<Action>): Option<bool> {
    if run == [] then None
    else
      var later := LastSense(run[1..]);
      if later.None? && run[0].StoreSense? then Some(run[0].external) else later
  }

  function Or<T>(o: Option<T>, otherwise: T): T {
    if o.Some? then o.value else otherwise
  }

  /** What an action leaves in the fields, and whether it has stored anything. */
  lemma FieldsAfter(s: State, a: Action)
    requires Enabled(s, a)
    ensures var s' := Apply(s, a);
      && s'.load.setpoint == Or(LastCurrent([a]), s.load.setpoint)
      && s'.load.enabled == Or(LastEnabled([a]), s.load.enabled)
      && s'.load.sense == Or(LastSense([a]), s.load.sense)
      && s'.notes.storedConfig == (s.notes.storedConfig || LastCurrent([a]).Some? || LastEnabled([a]).Some?)
      && s'.notes.storedSense == (s.notes.storedSense || LastSense([a]).Some?)
  {
    assert LastCurrent([a][1..]).None? && LastEnabled([a][1..]).None? && LastSense([a][1..]).None?;
  }

  /** The fields hold what the setters stored last. */
  lemma {:induction false} FieldsHoldLast(s: State, run: seq<Action>)
    requires LegalRun(s, run)
    ensures var s' := Run(s, run);
      && s'.load.setpoint == Or(LastCurrent(run), s.load.setpoint)
      && s'.load.enabled == Or(LastEnabled(run), s.load.enabled)
      && s'.load.sense == Or(LastSense(run), s.load.sense)
      && s'.notes.storedConfig == (s.notes.storedConfig || LastCurrent(run).Some? || LastEnabled(run).Some?)
      && s'.notes.storedSense == (s.notes.storedSense || LastSense(run).Some?)
    decreases |run|
  {
    if run != [] {
      FieldsAfter(s, run[0]);
      FieldsHoldLast(Apply(s, run[0]), run[1..]);
    }
  }

  /**
   * Whatever the interleaving, and however many notifications fell together: once things are quiet, the driver has
   * been told what was stored last, and nothing if nothing was. Current and enable state are told together, so that
   * one may be as it was at the start.
   */
  lemma Converges(g: Guards, run: seq<Action>)
    requires LegalRun(Start(g), run) && Quiet(Run(Start(g), run))
    ensures var (current, enabled, sense) := (LastCurrent(run), LastEnabled(run), LastSense(run));
      var s := Run(Start(g), run);
      && s.driver.current == (if current.None? && enabled.None? then None else Some(Or(current, 0)))
      && s.driver.enabled == (if current.None? && enabled.None? then None else Some(Or(enabled, false)))
      && s.driver.sense == sense
      && s.panel.prev == Or(enabled, false)
  {
    RunKeeps(Start(g), run);
    FieldsHoldLast(Start(g), run);
  }

  /** At every moment: the load is not enabled before the driver has been given a current. */
  lemma NeverOnWithoutCurrent(g: Guards, run: seq<Action>)
    requires LegalRun(Start(g), run)
    ensures var s := Run(Start(g), run); s.driver.enabled == Some(true) ==> s.driver.current.Some?
  {
    RunKeeps(Start(g), run);
  }

  /** At every moment: the current of an update that switches the load off is commanded to a driver that is off. */
  lemma OffBeforeCurrent(g: Guards, run: seq<Action>)
    requires LegalRun(Start(g), run)
    ensures var s := Run(Start(g), run);
      s.point.SetCurrent? && !s.point.on ==>
        s.driver.enabled == Some(false) && Apply(s, Advance).driver == s.driver.(current := Some(s.point.value))
  {
    RunKeeps(Start(g), run);
  }

  function First(a: Action, rest: seq<Action>): seq<Action> {
    [a] + rest
  }

  lemma FirstRuns(s: State, a: Action, rest: seq<Action>)
    requires Enabled(s, a) && LegalRun(Apply(s, a), rest)
    ensures LegalRun(s, First(a, rest)) && Run(s, First(a, rest)) == Run(Apply(s, a), rest)
  {
    assert ([a] + rest)[1..] == rest;
  }

  /** From every state things get quiet when the setters under way notify and the task goes on. */
  lemma {:induction false} GetsQuiet(s: State) returns (run: seq<Action>)
    ensures LegalRun(s, run) && Quiet(Run(s, run))
    ensures Run(s, run).load == s.load
    decreases s.notes.owingConfig + s.notes.owingSense, Bits(s), Distance(s.point)
  {
    if Quiet(s) {
      return [];
    }
    var a := if s.notes.owingConfig > 0 then NotifyConfig else if s.notes.owingSense > 0 then NotifySense else Advance;
    Nearer(s, a);
    var rest := GetsQuiet(Apply(s, a));
    FirstRuns(s, a, rest);
    run := First(a, rest);
  }

  lemma Nearer(s: State, a: Action)
    requires !Quiet(s)
    requires a == (if s.notes.owingConfig > 0 then NotifyConfig
                   else if s.notes.owingSense > 0 then NotifySense else Advance)
    ensures Enabled(s, a)
    ensures var s' := Apply(s, a);
      && s'.load == s.load
      && (|| s'.notes.owingConfig + s'.notes.owingSense < s.notes.owingConfig + s.notes.owingSense
          || (s'.notes.owingConfig + s'.notes.owingSense == s.notes.owingConfig + s.notes.owingSense &&
                (Bits(s') < Bits(s) || (Bits(s') == Bits(s) && Distance(s'.point) < Distance(s.point)))))
  {
    if a.Advance? && !s.point.Waiting? { AdvanceNearer(s); }
  }

  // ---------- what the user interface shows ----------

  predicate AllQuiet(s: State) {
    Quiet(s) && !s.panel.ui && !s.panel.reading
  }

  lemma {:induction false} RunAdds(s: State, one: seq<Action>, two: seq<Action>)
    requires LegalRun(s, one) && LegalRun(Run(s, one), two)
    ensures LegalRun(s, one + two) && Run(s, one + two) == Run(Run(s, one), two)
    decreases |one|
  {
    if one == [] {
      assert one + two == two;
    } else {
      RunAdds(Apply(s, one[0]), one[1..], two);
      assert (one + two)[1..] == one[1..] + two;
    }
  }

  lemma TwoRun(s: State, a: Action, b: Action)
    requires Enabled(s, a) && Enabled(Apply(s, a), b)
    ensures LegalRun(s, [a, b]) && Run(s, [a, b]) == Apply(Apply(s, a), b)
  {
    OneRun(Apply(s, a), b);
    assert [a, b][1..] == [b];
  }

  lemma OneRun(s: State, a: Action)
    requires Enabled(s, a)
    ensures LegalRun(s, [a]) && Run(s, [a]) == Apply(s, a)
  {
    assert [a][1..] == [];
    assert Run(Apply(s, a), []) == Apply(s, a);
  }

  /** A run of the control task alone. */
  predicate Alone(run: seq<Action>) {
    forall i :: 0 <= i < |run| ==> run[i] == Advance
  }

  /** The driver commands of one round, up to the comparison. */
  lemma UpdateRuns(s: State) returns (run: seq<Action>)
    requires s.point.Waiting? && s.notes.configChange
    ensures LegalRun(s, run) && Alone(run)
    ensures Run(s, run) == s.(point := Compare, due := s.notes.updateRelay,
                              notes := s.notes.(configChange := false, updateRelay := false),
                              driver := Driver(Some(s.load.setpoint), Some(s.load.enabled), s.driver.sense))
  {
    var t := s.(point := Decide, due := s.notes.updateRelay,
                notes := s.notes.(configChange := false, updateRelay := false));
    assert Apply(s, Advance) == t;
    var more := CommandsRun(t);
    FirstRuns(s, Advance, more);
    run := First(Advance, more);
  }

  /** The current and then the enable state, or the other way round. */
  lemma CommandsRun(s: State) returns (run: seq<Action>)
    requires s.point.Decide?
    ensures LegalRun(s, run) && Alone(run)
    ensures Run(s, run) ==
            s.(point := Compare, driver := Driver(Some(s.load.setpoint), Some(s.load.enabled), s.driver.sense))
  {
    if s.load.enabled { run := SwitchOnRun(s); } else { run := SwitchOffRun(s); }
  }

  lemma TwoAdvances(s: State, s1: State, s2: State)
    requires Enabled(s, Advance) && s1 == Advanced(s) && Enabled(s1, Advance) && s2 == Advanced(s1)
    ensures LegalRun(s, [Advance, Advance]) && Run(s, [Advance, Advance]) == s2
  {
    TwoRun(s, Advance, Advance);
  }

  lemma SwitchOnRun(s: State) returns (run: seq<Action>)
    requires s.point.Decide? && s.load.enabled
    ensures LegalRun(s, run) && Alone(run)
    ensures Run(s, run) == s.(point := Compare, driver := Driver(Some(s.load.setpoint), Some(true), s.driver.sense))
  {
    var s2 := s.(point := SetCurrent(true, s.load.setpoint));
    TwoAdvances(s, s.(point := ReadCurrent(true)), s2);
    run := SwitchOnEnds(s2);
    RunAdds(s, [Advance, Advance], run);
    run := [Advance, Advance] + run;
  }

  lemma SwitchOnEnds(s: State) returns (run: seq<Action>)
    requires s.point.SetCurrent? && s.point.on
    ensures LegalRun(s, run) && Alone(run)
    ensures Run(s, run) == s.(point := Compare, driver := Driver(Some(s.point.value), Some(true), s.driver.sense))
  {
    var cur := Some(s.point.value);
    TwoAdvances(s, s.(point := SetEnabled(true), driver := s.driver.(current := cur)),
                s.(point := Compare, driver := Driver(cur, Some(true), s.driver.sense)));
    run := [Advance, Advance];
  }

  lemma SwitchOffRun(s: State) returns (run: seq<Action>)
    requires s.point.Decide? && !s.load.enabled
    ensures LegalRun(s, run) && Alone(run)
    ensures Run(s, run) == s.(point := Compare, driver := Driver(Some(s.load.setpoint), Some(false), s.driver.sense))
  {
    var s2 := s.(point := ReadCurrent(false), driver := s.driver.(enabled := Some(false)));
    TwoAdvances(s, s.(point := SetEnabled(false)), s2);
    run := SwitchOffEnds(s2);
    RunAdds(s, [Advance, Advance], run);
    run := [Advance, Advance] + run;
  }

  lemma SwitchOffEnds(s: State) returns (run: seq<Action>)
    requires s.point == ReadCurrent(false)
    ensures LegalRun(s, run) && Alone(run)
    ensures Run(s, run) == s.(point := Compare, driver := s.driver.(current := Some(s.load.setpoint)))
  {
    TwoAdvances(s, s.(point := SetCurrent(false, s.load.setpoint)),
                s.(point := Compare, driver := s.driver.(current := Some(s.load.setpoint))));
    run := [Advance, Advance];
  }

  /** A store and its notification, and the update they cause, when nothing else is going on. */
  lemma ChangeRuns(s: State, on: bool) returns (run: seq<Action>)
    requires Quiet(s) && Unguarded(s)
    ensures LegalRun(s, run)
    ensures Run(s, run) == s.(load := s.load.(enabled := on), notes := s.notes.(storedConfig := true), point := Compare,
                              due := false, driver := Driver(Some(s.load.setpoint), Some(on), s.driver.sense))
  {
    TwoRun(s, StoreEnabled(on), NotifyConfig);
    var s2 := Apply(Apply(s, StoreEnabled(on)), NotifyConfig);
    var more := UpdateRuns(s2);
    RunAdds(s, [StoreEnabled(on), NotifyConfig], more);
    run := [StoreEnabled(on), NotifyConfig] + more;
  }

  /** The task finds the load switched on, with the interface at rest; that has shown `shown` so far. */
  ghost predicate FindsOn(s: State) {
    && s.point.Compare? && s.load.enabled && !s.panel.prev && !s.panel.ui && !s.panel.reading && !s.due
    && !ConfigNews(s) && !SenseNews(s)
  }

  /** An update that finds nothing changed. */
  lemma Unnoticed(s: State) returns (run: seq<Action>)
    requires s.point.Waiting? && s.notes.owingConfig == 0 && s.notes.configChange && !SenseNews(s)
    requires s.panel.prev == s.load.enabled && !s.panel.ui && !s.panel.reading
    ensures LegalRun(s, run)
    ensures var e := Run(s, run); AllQuiet(e) && e.panel.shown == s.panel.shown && e.load.enabled == s.load.enabled
  {
    var update := UpdateRuns(s);
    var s1 := Run(s, update);
    TwoRun(s1, Advance, Advance);
    RunAdds(s, update, [Advance, Advance]);
    run := update + [Advance, Advance];
  }

  /** One setter notifies, and the update finds nothing changed. */
  lemma NotifiedUnnoticed(s: State) returns (run: seq<Action>)
    requires s.point.Waiting? && s.notes.owingConfig == 1 && !SenseNews(s)
    requires s.panel.prev == s.load.enabled && !s.panel.ui && !s.panel.reading
    ensures LegalRun(s, run)
    ensures var e := Run(s, run); AllQuiet(e) && e.panel.shown == s.panel.shown && e.load.enabled == s.load.enabled
  {
    var rest := Unnoticed(Apply(s, NotifyConfig));
    FirstRuns(s, NotifyConfig, rest);
    run := First(NotifyConfig, rest);
  }

  /** The state goes back while the task remembers it: it remembers that, and the interface is not told. */
  lemma FlipWhileRemembering(s: State) returns (run: seq<Action>)
    requires FindsOn(s) && !s.guards.remember
    ensures LegalRun(s, run)
    ensures var e := Run(s, run); AllQuiet(e) && e.panel.shown && !e.load.enabled
  {
    var s2 := s.(point := Remember, panel := s.panel.(reading := true));
    TwoRun(s, Advance, UiTake);
    assert Apply(s, Advance) == s.(point := Remember, panel := s.panel.(ui := true));
    var tail := FlipBack(s2);
    RunAdds(s, [Advance, UiTake], tail);
    run := [Advance, UiTake] + tail;
  }

  lemma FlipBack(s: State) returns (run: seq<Action>)
    requires s.point.Remember? && !s.guards.remember && s.load.enabled && !s.panel.prev && !s.due
    requires !s.panel.ui && s.panel.reading && !ConfigNews(s) && !SenseNews(s)
    ensures LegalRun(s, run)
    ensures var e := Run(s, run); AllQuiet(e) && e.panel.shown && !e.load.enabled
  {
    var s2 := s.(panel := s.panel.(reading := false, shown := true), load := s.load.(enabled := false),
                 notes := s.notes.(storedConfig := true, owingConfig := 1));
    TwoRun(s, UiRead, StoreEnabled(false));
    assert Apply(s, UiRead) == s.(panel := s.panel.(reading := false, shown := true));
    TwoRun(s2, Advance, Advance);
    assert Apply(s2, Advance) == s2.(point := Rest);
    var tail := NotifiedUnnoticed(s2.(point := Waiting));
    RunAdds(s2, [Advance, Advance], tail);
    RunAdds(s, [UiRead, StoreEnabled(false)], [Advance, Advance] + tail);
    run := [UiRead, StoreEnabled(false)] + ([Advance, Advance] + tail);
  }

  /** The state goes back and forth, and the interface has read it in between. */
  lemma BackAgain(s: State) returns (run: seq<Action>)
    requires s.point.Waiting? && s.notes.owingConfig == 1 && !s.notes.configChange && !SenseNews(s)
    requires s.panel.prev && !s.load.enabled && !s.panel.shown && !s.panel.ui && !s.panel.reading
    ensures LegalRun(s, run)
    ensures var e := Run(s, run); AllQuiet(e) && !e.panel.shown && e.load.enabled
  {
    TwoRun(s, StoreEnabled(true), NotifyConfig);
    var s2 := Apply(Apply(s, StoreEnabled(true)), NotifyConfig);
    var tail := NotifiedUnnoticed(s2);
    RunAdds(s, [StoreEnabled(true), NotifyConfig], tail);
    run := [StoreEnabled(true), NotifyConfig] + tail;
  }

  /** From the comparison to the end of the round, with the interface told but not awake yet. */
  lemma RememberRuns(s: State)
    requires FindsOn(s)
    ensures LegalRun(s, [Advance, Advance] + [Advance])
    ensures Run(s, [Advance, Advance] + [Advance]) == s.(point := Waiting, panel := s.panel.(prev := true, ui := true))
  {
    var s2 := s.(point := Rest, panel := s.panel.(prev := true, ui := true));
    TwoAdvances(s, s.(point := Remember, panel := s.panel.(ui := true)), s2);
    OneRun(s2, Advance);
    assert Advanced(s2) == s2.(point := Waiting);
    RunAdds(s, [Advance, Advance], [Advance]);
  }

  /** The state changes while the interface's bit is pending: it reads that, and is not told of the way back. */
  lemma FlipWhilePending(s: State) returns (run: seq<Action>)
    requires FindsOn(s) && !s.guards.ui
    ensures LegalRun(s, run)
    ensures var e := Run(s, run); AllQuiet(e) && !e.panel.shown && e.load.enabled
  {
    var round := [Advance, Advance] + [Advance];
    RememberRuns(s);
    var s3 := s.(point := Waiting, panel := s.panel.(prev := true, ui := true));
    TwoRun(s3, StoreEnabled(false), UiTake);
    var s5 := Apply(Apply(s3, StoreEnabled(false)), UiTake);
    var tail := BackAgain(Apply(s5, UiRead));
    FirstRuns(s5, UiRead, tail);
    RunAdds(s3, [StoreEnabled(false), UiTake], First(UiRead, tail));
    RunAdds(s, round, [StoreEnabled(false), UiTake] + First(UiRead, tail));
    run := round + ([StoreEnabled(false), UiTake] + First(UiRead, tail));
  }

  /** The state changes while the interface is about to read it: the same. */
  lemma FlipWhileReading(s: State) returns (run: seq<Action>)
    requires FindsOn(s) && !s.guards.reading
    ensures LegalRun(s, run)
    ensures var e := Run(s, run); AllQuiet(e) && !e.panel.shown && e.load.enabled
  {
    var round := [Advance, Advance] + [Advance];
    RememberRuns(s);
    var s3 := s.(point := Waiting, panel := s.panel.(prev := true, ui := true));
    TwoRun(s3, UiTake, StoreEnabled(false));
    var s5 := Apply(Apply(s3, UiTake), StoreEnabled(false));
    var tail := BackAgain(Apply(s5, UiRead));
    FirstRuns(s5, UiRead, tail);
    RunAdds(s3, [UiTake, StoreEnabled(false)], First(UiRead, tail));
    RunAdds(s, round, [UiTake, StoreEnabled(false)] + First(UiRead, tail));
    run := round + ([UiTake, StoreEnabled(false)] + First(UiRead, tail));
  }

  /** Whichever of the three is not guarded against, there is a run that leaves the interface wrong. */
  lemma InterfaceMisled(g: Guards) returns (run: seq<Action>)
    requires !g.All()
    ensures LegalRun(Start(g), run)
    ensures var s := Run(Start(g), run); AllQuiet(s) && s.panel.shown != s.load.enabled
  {
    var change := ChangeRuns(Start(g), true);
    var s := Run(Start(g), change);
    var flip;
    if !g.remember {
      flip := FlipWhileRemembering(s);
    } else if !g.ui {
      flip := FlipWhilePending(s);
    } else {
      flip := FlipWhileReading(s);
    }
    RunAdds(Start(g), change, flip);
    run := change + flip;
  }

  ghost predicate AlwaysShowsTruth(g: Guards) {
    forall run :: LegalRun(Start(g), run) && AllQuiet(Run(Start(g), run)) ==>
      Run(Start(g), run).panel.shown == Run(Start(g), run).load.enabled
  }

  /**
   * What the user interface shows is right whenever all is quiet, if and only if nobody changes the enable state while
   * the task remembers it, nor while the interface's bit is pending, nor while the interface is about to read: none
   * of the three can be spared.
   */
  lemma ShowsTruthExactly(g: Guards)
    ensures AlwaysShowsTruth(g) <==> g.remember && g.ui && g.reading
  {
    if g.All() {
      forall run | LegalRun(Start(g), run) && AllQuiet(Run(Start(g), run))
        ensures Run(Start(g), run).panel.shown == Run(Start(g), run).load.enabled
      {
        RunKeeps(Start(g), run);
      }
    } else {
      var run := InterfaceMisled(g);
    }
  }

  // ---------- the task ----------

  /** The end of a round. */
  lemma EndRuns(s: State) returns (run: seq<Action>)
    requires s.point.Rest?
    ensures LegalRun(s, run) && Alone(run)
    ensures Run(s, run) == s.(point := Waiting, due := false,
                              driver := if s.due then s.driver.(sense := Some(s.load.sense)) else s.driver)
  {
    if s.due {
      TwoAdvances(s, s.(point := SetSense(s.load.sense), due := false),
                  s.(point := Waiting, due := false, driver := s.driver.(sense := Some(s.load.sense))));
      run := [Advance, Advance];
    } else {
      OneRun(s, Advance);
      run := [Advance];
    }
  }

  lemma CompareRuns(s: State) returns (run: seq<Action>)
    requires s.point.Compare?
    ensures LegalRun(s, run) && Alone(run)
    ensures Run(s, run) ==
            s.(point := Rest,
               panel := s.panel.(prev := s.load.enabled, ui := s.panel.ui || s.panel.prev != s.load.enabled))
  {
    if s.panel.prev != s.load.enabled {
      TwoAdvances(s, s.(point := Remember, panel := s.panel.(ui := true)),
                  s.(point := Rest, panel := s.panel.(prev := s.load.enabled, ui := true)));
      run := [Advance, Advance];
    } else {
      OneRun(s, Advance);
      run := [Advance];
    }
  }

  /** A whole round. */
  lemma RoundRuns(s: State) returns (run: seq<Action>)
    requires s.point.Waiting? && (s.notes.configChange || s.notes.updateRelay)
    ensures LegalRun(s, run) && Run(s, run) == Rounded(s) && Alone(run)
  {
    var one, two := [], [];
    if s.notes.configChange {
      one := UpdateRuns(s);
      two := CompareRuns(Run(s, one));
    } else {
      OneRun(s, Advance);
      one := [Advance];
    }
    RunAdds(s, one, two);
    var three := EndRuns(Run(s, one + two));
    RunAdds(s, one + two, three);
    run := one + two + three;
  }

  /** What a round comes to when nobody comes between. */
  function Rounded(s: State): State {
    var s1 := s.(notes := s.notes.(configChange := false, updateRelay := false));
    var s2 := if !s.notes.configChange then s1
              else s1.(driver := Driver(Some(s.load.setpoint), Some(s.load.enabled), s.driver.sense),
                       panel := s.panel.(prev := s.load.enabled, ui := s.panel.ui || s.panel.prev != s.load.enabled));
    s2.(point := Waiting, due := false,
        driver := if s.notes.updateRelay then s2.driver.(sense := Some(s.load.sense)) else s2.driver)
  }

  datatype Command = Current(value: nat) | Enable(on: bool) | Sense(external: bool)

  function Told(d: Driver, c: Command): Driver {
    match c
    case Current(v) => d.(current := Some(v))
    case Enable(on) => d.(enabled := Some(on))
    case Sense(external) => d.(sense := Some(external))
  }

  class Task {
    var loadCurrentSetpoint: nat
    var isLoadEnabled: bool
    var isUsingExternalSense: bool
    var prevIsLoadEnabled: bool
    var notes: Notes
    /** The user interface's notification bit, and what it is up to. */
    var updateIndicators: bool
    var reading: bool
    var shown: bool
    var driver: Driver
    /** Everything the driver has been told. */
    var commands: seq<Command>

    function View(): State
      reads this
    {
      State(Guards(false, false, false), Load(loadCurrentSetpoint, isLoadEnabled, isUsingExternalSense), notes,
            Waiting, false,
            Panel(prevIsLoadEnabled, updateIndicators, reading, shown), driver)
    }

    method SetCurrentSetpoint(current: nat)
      modifies this`loadCurrentSetpoint, this`notes
      ensures LegalRun(old(View()), [StoreCurrent(current), NotifyConfig])
      ensures View() == Run(old(View()), [StoreCurrent(current), NotifyConfig])
      ensures loadCurrentSetpoint == current
    {
      TwoRun(View(), StoreCurrent(current), NotifyConfig);
      loadCurrentSetpoint := current;
      notes := notes.(configChange := true, storedConfig := true);
    }

    method SetIsLoadActive(isActive: bool)
      modifies this`isLoadEnabled, this`notes
      ensures LegalRun(old(View()), [StoreEnabled(isActive), NotifyConfig])
      ensures View() == Run(old(View()), [StoreEnabled(isActive), NotifyConfig])
      ensures isLoadEnabled == isActive
    {
      TwoRun(View(), StoreEnabled(isActive), NotifyConfig);
      isLoadEnabled := isActive;
      notes := notes.(configChange := true, storedConfig := true);
    }

    method SetExternalSenseActive(isActive: bool)
      modifies this`isUsingExternalSense, this`notes
      ensures LegalRun(old(View()), [StoreSense(isActive), NotifySense])
      ensures View() == Run(old(View()), [StoreSense(isActive), NotifySense])
      ensures isUsingExternalSense == isActive
    {
      TwoRun(View(), StoreSense(isActive), NotifySense);
      isUsingExternalSense := isActive;
      notes := notes.(updateRelay := true, storedSense := true);
    }

    method Tell(c: Command)
      modifies this`driver, this`commands
      ensures driver == Told(old(driver), c) && commands == old(commands) + [c]
    {
      driver := Told(driver, c);
      commands := commands + [c];
    }

    method UpdateConfig()
      modifies this`driver, this`commands, this`updateIndicators, this`prevIsLoadEnabled
      ensures driver == Driver(Some(loadCurrentSetpoint), Some(isLoadEnabled), old(driver.sense))
      ensures commands == old(commands) +
                          if isLoadEnabled then [Current(loadCurrentSetpoint), Enable(true)]
                          else [Enable(false), Current(loadCurrentSetpoint)]
      ensures prevIsLoadEnabled == isLoadEnabled
      ensures updateIndicators == (old(updateIndicators) || old(prevIsLoadEnabled) != isLoadEnabled)
    {
      if isLoadEnabled {
        Tell(Current(loadCurrentSetpoint));
        Tell(Enable(true));
      } else {
        Tell(Enable(false));
        Tell(Current(loadCurrentSetpoint));
      }
      if prevIsLoadEnabled != isLoadEnabled {
        updateIndicators := true;
        prevIsLoadEnabled := isLoadEnabled;
      }
    }

    /** One turn of the main loop: it is a run of the control task's steps, and tells the driver no more than this. */
    method Round() returns (ghost run: seq<Action>)
      requires notes.configChange || notes.updateRelay
      modifies this`notes, this`driver, this`commands, this`updateIndicators, this`prevIsLoadEnabled
      ensures LegalRun(old(View()), run) && View() == Run(old(View()), run) == Rounded(old(View()))
      ensures Alone(run)
      ensures commands == old(commands) +
                          (if !old(notes.configChange) then []
                           else if isLoadEnabled then [Current(loadCurrentSetpoint), Enable(true)]
                           else [Enable(false), Current(loadCurrentSetpoint)]) +
                          if old(notes.updateRelay) then [Sense(isUsingExternalSense)] else []
      ensures !notes.configChange && !notes.updateRelay
    {
      run := RoundRuns(View());
      var note := notes;
      notes := notes.(configChange := false, updateRelay := false);
      if note.configChange {
        UpdateConfig();
      }
      if note.updateRelay {
        Tell(Sense(isUsingExternalSense));
      }
    }
  }
}
