/**
 * The per-second schedule timer, start delay and override: RunStartChargeTimer and
 * chargeController_SendStartCommandToMCU in main/chargeController.c.
 */
module ChargeController {
  import opened ChargeSchedule

  const MAX_DELAY: nat := 3600

  datatype Car = CarUnknown | CarAway | CarThere

  datatype Mode = ModeDisconnected | ModeRequesting | ModeCharging | ModePaused | ModeOther

  datatype Command = StartCharging | ResumeCharging | StopCharging

  /** The static variables of the controller; `bits` is the set of bits of isPausedByAnySchedule. */
  datatype State = State(items: seq<TimeSchedule>, bits: set<nat>, active: bool, delay: nat, counter: nat,
                         override: nat, previousOverride: nat, atBoot: bool, disconnected: bool, held: bool)

  const INITIAL := State([], {}, false, 0, 0, 0, 0, true, false, false)

  /** What the timer function sees; the mode is read anew for every command. */
  datatype Tick = Tick(car: Car, mode: Mode, modeAtResume: Mode, modeAtStart: Mode, weekDay: int, minute: int,
                       finalStop: bool, standalone: bool, authorised: bool, currentAccepted: bool) {
    predicate Valid() {
      1 <= weekDay <= 7 && 0 <= minute < 1440
    }
  }

  type Now = t: Tick | t.Valid()
    witness Tick(CarUnknown, ModeOther, ModeOther, ModeOther, 1, 0, false, false, false, false)

  datatype Outcome = Outcome(state: State, commands: seq<Command>)

  // ----- the stages of one tick

  function Started(s: State, t: Now): State {
    if s.atBoot && t.car != CarUnknown then
      s.(atBoot := false, counter := if t.car == CarThere then s.delay else s.counter)
    else s
  }

  function Unpaused(items: seq<TimeSchedule>): (r: seq<TimeSchedule>)
    ensures |r| == |items|
  {
    seq(|items|, i requires 0 <= i < |items| => items[i].(isPaused := false))
  }

  function Cleared(s: State): State {
    if s.disconnected then s.(items := Unpaused(s.items), disconnected := false, held := false) else s
  }

  /** The intervals that hold now. */
  function Pausing(items: seq<TimeSchedule>, t: Now): set<nat> {
    set i | 0 <= i < |items| && Inside(items[i], t.weekDay, t.minute)
  }

  function Marked(items: seq<TimeSchedule>, t: Now): (r: seq<TimeSchedule>)
    ensures |r| == |items|
  {
    seq(|items|, i requires 0 <= i < |items| => items[i].(isPaused := Inside(items[i], t.weekDay, t.minute)))
  }

  predicate Enters(items: seq<TimeSchedule>, forget: bool, t: Now) {
    exists i | 0 <= i < |items| :: Inside(items[i], t.weekDay, t.minute) && (forget || !items[i].isPaused)
  }

  /** The loop over the schedules. */
  function Scanned(s: State, t: Now): State {
    s.(items := Marked(s.items, t),
       bits := (set b | b in s.bits && b >= |s.items|) + Pausing(s.items, t),
       counter := if Enters(s.items, s.override == 0 && s.previousOverride > 0, t) then s.delay else s.counter)
  }

  function Overridden(s: State, t: Now): State {
    var r := s.(previousOverride := s.override);
    if s.override == 0 then r
    else if s.bits != {} then r.(bits := {})
    else if t.mode == ModeDisconnected || s.counter == 0 then r.(override := 0)
    else r
  }

  /** What a start command comes to, for the mode in which it is sent. */
  function Sent(s: State, mode: Mode, t: Now): seq<Command> {
    if mode == ModeRequesting && t.standalone && s.active then
      if t.authorised && t.currentAccepted then [StartCharging] else []
    else if (mode == ModeRequesting || mode == ModeCharging) && !t.standalone && s.bits == {} && s.counter == 0 then
      [StartCharging]
    else if mode == ModePaused then [ResumeCharging]
    else []
  }

  function CountedDown(s: State, t: Now): State {
    var r := if s.override == 1 then s.(counter := 0, override := 2) else s;
    if r.counter > 0 && (t.mode == ModePaused || t.mode == ModeRequesting) then r.(counter := r.counter - 1) else r
  }

  function Scheduled(s: State, t: Now): Outcome {
    var r := Overridden(Scanned(s, t), t);
    if r.bits == {} then
      var c := CountedDown(r, t);
      Outcome(c, if t.mode == ModePaused && t.finalStop && c.counter == 0 && !c.held
                 then Sent(c, t.modeAtResume, t) else [])
    else
      Outcome(r.(counter := r.delay),
              if t.mode == ModeCharging || (t.mode == ModePaused && !t.finalStop) then [StopCharging] else [])
  }

  function Unscheduled(s: State): Outcome {
    Outcome(s.(bits := {}, counter := if s.counter > 0 then s.counter - 1 else 0), [])
  }

  /** RunStartChargeTimer */
  function Ticked(s: State, t: Now): Outcome {
    var c := Cleared(Started(s, t));
    var o := if c.active then Scheduled(c, t) else Unscheduled(c);
    var start := if t.standalone && c.active && t.mode == ModeRequesting && o.state.counter == 0
                 then Sent(o.state, t.modeAtStart, t) else [];
    Outcome(if t.car == CarAway then o.state.(override := 0, counter := 0) else o.state, o.commands + start)
  }

  // ----- whole runs

  datatype Event =
    | Second(now: Now)
    | Override
    | CancelOverride
    | NewDelay(high: nat, random: nat)
    | ClearDelay
    | Disconnected
    | Hold(paused: bool)
    | SetTimes(text: string)
    | Activate(active: bool)

  /** chargeController_SetRandomStartDelay */
  function RandomDelay(high: nat, random: nat): (d: nat)
    requires high > 0
    ensures 1 <= d <= MAX_DELAY && (high <= MAX_DELAY ==> d <= high)
  {
    var d := random % high + 1;
    if d > MAX_DELAY then 600 else d
  }

  function Next(s: State, e: Event): Outcome {
    match e
    case Second(now) => Ticked(s, now)
    case Override => Outcome(s.(override := 1), [])
    case CancelOverride => Outcome(s.(override := 0), [])
    case NewDelay(high, random) =>
      Outcome(if high > 0 then s.(delay := RandomDelay(high, random)) else s.(delay := 0, counter := 0), [])
    case ClearDelay => Outcome(s.(delay := 0, counter := 0), [])
    case Disconnected => Outcome(s.(disconnected := true), [])
    case Hold(paused) => Outcome(if s.bits == {} then s.(held := paused) else s, [])
    case SetTimes(text) => Outcome(if Acceptable(text) then s.(items := Parsed(text), bits := {}) else s, [])
    case Activate(active) => Outcome(s.(active := active), [])
  }

  function Run(s: State, events: seq<Event>): Outcome
    decreases |events|
  {
    if events == [] then Outcome(s, [])
    else
      var o := Next(s, events[0]);
      var r := Run(o.state, events[1..]);
      Outcome(r.state, o.commands + r.commands)
  }

  predicate Sound(s: State) {
    && |s.items| <= MAX_SCHEDULES
    && (forall b :: b in s.bits ==> b < |s.items|)
    && s.delay <= MAX_DELAY && s.counter <= MAX_DELAY
    && s.override <= 2 && s.previousOverride <= 2
  }

  predicate SameTimes(a: seq<TimeSchedule>, b: seq<TimeSchedule>) {
    |a| == |b| && forall i :: 0 <= i < |a| ==> a[i].(isPaused := false) == b[i].(isPaused := false)
  }

  lemma ScannedSound(s: State, t: Now)
    requires Sound(s)
    ensures Sound(Scanned(s, t)) && SameTimes(Scanned(s, t).items, s.items)
  {
    hide Inside, Enters;
  }

  lemma OverriddenSound(s: State, t: Now)
    requires Sound(s)
    ensures Sound(Overridden(s, t)) && Overridden(s, t).items == s.items
  {}

  lemma ScheduledSound(s: State, t: Now)
    requires Sound(s)
    ensures Sound(Scheduled(s, t).state) && SameTimes(Scheduled(s, t).state.items, s.items)
  {
    ScannedSound(s, t);
    OverriddenSound(Scanned(s, t), t);
    hide Scanned, Overridden, Sent, SameTimes;
  }

  lemma ClearedSound(s: State, t: Now)
    requires Sound(s)
    ensures Sound(Cleared(Started(s, t))) && SameTimes(Cleared(Started(s, t)).items, s.items)
  {}

  lemma SameTimesJoin(a: seq<TimeSchedule>, b: seq<TimeSchedule>, c: seq<TimeSchedule>)
    requires SameTimes(a, b) && SameTimes(b, c)
    ensures SameTimes(a, c)
  {}

  lemma TickedSound(s: State, t: Now)
    requires Sound(s)
    ensures Sound(Ticked(s, t).state) && SameTimes(Ticked(s, t).state.items, s.items)
  {
    var c := Cleared(Started(s, t));
    ClearedSound(s, t);
    ScheduledSound(c, t);
    if c.active {
      SameTimesJoin(Scheduled(c, t).state.items, c.items, s.items);
    }
    hide Scheduled, Sent, Cleared, Started, SameTimes;
  }

  lemma NextSound(s: State, e: Event)
    requires Sound(s)
    ensures Sound(Next(s, e).state)
  {
    if e.Second? {
      TickedSound(s, e.now);
    }
    hide Ticked, Inside;
  }

  /** Over every run the counter stays within an hour and only bits of existing items are set. */
  lemma {:induction false} RunSound(s: State, events: seq<Event>)
    requires Sound(s)
    ensures Sound(Run(s, events).state)
    decreases |events|
  {
    hide Next;
    if events != [] {
      NextSound(s, events[0]);
      RunSound(Next(s, events[0]).state, events[1..]);
    }
  }

  // ----- the schedule decides

  lemma SamePausing(a: seq<TimeSchedule>, b: seq<TimeSchedule>, t: Now)
    requires SameTimes(a, b)
    ensures Pausing(a, t) == Pausing(b, t)
  {
    forall i | 0 <= i < |a| ensures Inside(a[i], t.weekDay, t.minute) <==> Inside(b[i], t.weekDay, t.minute) {
      assert a[i].(isPaused := false) == b[i].(isPaused := false);
    }
  }

  lemma ScannedBits(s: State, t: Now)
    requires Sound(s)
    ensures Scanned(s, t).bits == Pausing(s.items, t) && Scanned(s, t).override == s.override
  {
    hide Inside, Enters, Pausing;
    assert (set b | b in s.bits && b >= |s.items|) == {};
  }

  lemma ScheduledBits(s: State, t: Now)
    requires Sound(s)
    ensures Scheduled(s, t).state.bits == if s.override > 0 then {} else Pausing(s.items, t)
  {
    ScannedBits(s, t);
    hide Scanned, Sent, Pausing;
  }

  /** On an active tick the bits are those of the intervals that hold, or none during an override. */
  lemma TickPauses(s: State, t: Now)
    requires Sound(s) && s.active
    ensures Ticked(s, t).state.bits == if s.override > 0 then {} else Pausing(s.items, t)
  {
    var c := Cleared(Started(s, t));
    ClearedSound(s, t);
    assert c.active && c.override == s.override;
    SamePausing(c.items, s.items, t);
    ScheduledBits(c, t);
    hide Scheduled, Sent, Pausing, Cleared, Started;
  }

  predicate KeepsSchedule(events: seq<Event>) {
    forall i :: 0 <= i < |events| ==> !events[i].SetTimes?
  }

  lemma NextKeepsTimes(s: State, e: Event)
    requires Sound(s) && !e.SetTimes?
    ensures SameTimes(Next(s, e).state.items, s.items)
  {
    if e.Second? {
      TickedSound(s, e.now);
    }
    hide Ticked;
  }

  lemma {:induction false} RunKeepsTimes(s: State, events: seq<Event>)
    requires Sound(s) && KeepsSchedule(events)
    ensures SameTimes(Run(s, events).state.items, s.items)
    decreases |events|
  {
    if events != [] {
      var t := Next(s, events[0]).state;
      assert !events[0].SetTimes?;
      hide Next, Sound, SameTimes;
      NextSound(s, events[0]);
      NextKeepsTimes(s, events[0]);
      RunKeepsTimes(t, events[1..]);
      SameTimesJoin(Run(t, events[1..]).state.items, t.items, s.items);
    }
  }

  /**
   * From any schedule of up to 14 items, written as text and set: whatever happens afterwards, an
   * active tick without override pauses for exactly the items that cover the minute.
   */
  lemma SchedulePausesExactly(s: State, items: seq<Item>, events: seq<Event>, t: Now)
    requires Sound(s) && items != [] && |items| <= MAX_SCHEDULES && AllValid(items) && KeepsSchedule(events)
    requires var r := Run(Next(s, SetTimes(RenderAll(items))).state, events).state; r.active && r.override == 0
    ensures var r := Run(Next(s, SetTimes(RenderAll(items))).state, events).state;
            Ticked(r, t).state.bits == set i | 0 <= i < |items| && items[i].Covers(t.weekDay, t.minute)
  {
    var text := RenderAll(items);
    ScheduleMeaning(items, 0, t.weekDay, t.minute);
    var s1 := Next(s, SetTimes(text)).state;
    assert s1.items == Parsed(text);
    hide RenderAll, Parsed, Run, Ticked, Next, Inside, Pausing, SameTimes;
    NextSound(s, SetTimes(text));
    RunSound(s1, events);
    RunKeepsTimes(s1, events);
    TickPauses(Run(s1, events).state, t);
    SamePausing(Run(s1, events).state.items, s1.items, t);
    ParsedPauses(items, t);
  }

  lemma ParsedPauses(items: seq<Item>, t: Now)
    requires items != [] && |items| <= MAX_SCHEDULES && AllValid(items)
    ensures Acceptable(RenderAll(items))
    ensures Pausing(Parsed(RenderAll(items)), t) == set i | 0 <= i < |items| && items[i].Covers(t.weekDay, t.minute)
  {
    hide RenderAll, Parsed, Inside;
    ScheduleMeaning(items, 0, t.weekDay, t.minute);
    forall i | 0 <= i < |items|
      ensures Inside(Parsed(RenderAll(items))[i], t.weekDay, t.minute) <==> items[i].Covers(t.weekDay, t.minute)
    {
      ScheduleMeaning(items, i, t.weekDay, t.minute);
    }
  }

  // ----- the commands of a tick

  /** The final stop goes out exactly while a pause is on and the MCU charges, or is paused without it. */
  lemma StopExactly(s: State, t: Now)
    ensures var o := Ticked(s, t);
            StopCharging in o.commands <==>
            s.active && o.state.bits != {} && (t.mode == ModeCharging || (t.mode == ModePaused && !t.finalStop))
  {
    var c := Cleared(Started(s, t));
    ScheduledStops(c, t);
    hide Scheduled, Sent;
    assert c.active == s.active;
    ActiveStays(c, t);
    NoCommands(c);
    var o := if c.active then Scheduled(c, t) else Unscheduled(c);
    SentExactly(o.state, t.modeAtStart, t);
  }

  lemma ScheduledStops(s: State, t: Now)
    ensures var o := Scheduled(s, t);
            StopCharging in o.commands <==>
            o.state.bits != {} && (t.mode == ModeCharging || (t.mode == ModePaused && !t.finalStop))
  {
    hide Scanned, Overridden, Sent;
    SentExactly(CountedDown(Overridden(Scanned(s, t), t), t), t.modeAtResume, t);
  }

  /** Whatever happened since the schedule was set: a car that charges in a minute it covers is stopped. */
  lemma CoveredMinuteStops(s: State, items: seq<Item>, events: seq<Event>, t: Now, i: nat)
    requires Sound(s) && items != [] && |items| <= MAX_SCHEDULES && AllValid(items) && KeepsSchedule(events)
    requires var r := Run(Next(s, SetTimes(RenderAll(items))).state, events).state; r.active && r.override == 0
    requires i < |items| && items[i].Covers(t.weekDay, t.minute) && t.mode == ModeCharging
    ensures var r := Run(Next(s, SetTimes(RenderAll(items))).state, events).state;
            StopCharging in Ticked(r, t).commands
  {
    hide RenderAll, Run, Ticked, Next;
    var r := Run(Next(s, SetTimes(RenderAll(items))).state, events).state;
    SchedulePausesExactly(s, items, events, t);
    assert i in Ticked(r, t).state.bits;
    StopExactly(r, t);
  }

  /** The counter before the tick counts down: at the first sight of a car after boot it is the delay. */
  function Counting(s: State, t: Now): nat {
    if s.atBoot && t.car == CarThere then s.delay else s.counter
  }

  /**
   * An active tick outside the pauses counts down while the MCU is paused or requesting; an override just set ends
   * the delay. Once nothing is left a stopped charger is resumed unless the cloud holds it, and a requesting
   * standalone charger is started.
   */
  lemma UnpausedTick(s: State, t: Now)
    requires Sound(s) && s.active && Pausing(s.items, t) == {} && s.override <= 1 && t.car != CarAway
    requires s.override == 1 ==> s.counter > 0 && !s.atBoot && t.mode != ModeDisconnected
    ensures var n, o := if s.override == 1 then 0 else Counting(s, t), Ticked(s, t);
            && o.state.bits == {}
            && o.state.counter == (if n > 0 && (t.mode == ModePaused || t.mode == ModeRequesting) then n - 1 else n)
    ensures var o := Ticked(s, t);
            var resumes := t.mode == ModePaused && t.finalStop && !(s.held && !s.disconnected);
            var starts := t.standalone && t.mode == ModeRequesting;
            && (ResumeCharging in o.commands <==>
                  o.state.counter == 0
                  && ((resumes && t.modeAtResume == ModePaused) || (starts && t.modeAtStart == ModePaused)))
            && (StartCharging in o.commands <==>
                  o.state.counter == 0
                  && ((resumes && t.standalone && t.modeAtResume == ModeRequesting && t.authorised && t.currentAccepted)
                      || (resumes && !t.standalone
                          && (t.modeAtResume == ModeRequesting || t.modeAtResume == ModeCharging))
                      || (starts && t.modeAtStart == ModeRequesting && t.authorised && t.currentAccepted)))
  {
    hide Inside, Pausing, Scheduled, Sent, Parsed;
    var c := Cleared(Started(s, t));
    SamePausing(c.items, s.items, t);
    ClearedSound(s, t);
    UnpausedSchedule(c, t);
    var o := Scheduled(c, t);
    SentExactly(o.state, t.modeAtResume, t);
    SentExactly(o.state, t.modeAtStart, t);
  }

  lemma UnpausedSchedule(c: State, t: Now)
    requires Sound(c) && Pausing(c.items, t) == {} && c.override <= 1
    requires c.override == 1 ==> c.counter > 0 && t.mode != ModeDisconnected
    ensures var o, n := Scheduled(c, t), if c.override == 1 then 0 else c.counter;
            && o.state.bits == {} && o.state.active == c.active
            && o.state.counter == (if n > 0 && (t.mode == ModePaused || t.mode == ModeRequesting) then n - 1 else n)
            && o.commands == if t.mode == ModePaused && t.finalStop && o.state.counter == 0 && !c.held
                             then Sent(o.state, t.modeAtResume, t) else []
  {
    hide Inside, Enters, Pausing, Sent;
    ScannedBits(c, t);
    NoneEnters(c.items, c.override == 0 && c.previousOverride > 0, t);
  }

  /** Without an armed schedule the delay runs down every second and nothing is sent. */
  lemma InactiveTick(s: State, t: Now)
    requires !s.active
    ensures var o, n := Ticked(s, t), Counting(s, t);
            && o.commands == [] && o.state.bits == {}
            && o.state.counter == if t.car == CarAway || n == 0 then 0 else n - 1
  {
    hide Scheduled, Sent;
  }

  /** Without a car there is neither a delay nor an override. */
  lemma NoCarTick(s: State, t: Now)
    requires t.car == CarAway
    ensures Ticked(s, t).state.counter == 0 && Ticked(s, t).state.override == 0
  {
    hide Scheduled, Sent;
  }

  /** An interval entered during an override starts the delay anew. */
  lemma EnteringDuringOverride(s: State, t: Now, i: nat)
    requires Sound(s) && s.active && s.override == 2 && !s.disconnected && t.car == CarThere
    requires i < |s.items| && Inside(s.items[i], t.weekDay, t.minute) && !s.items[i].isPaused
    ensures Ticked(s, t).state.bits == {}
    ensures Ticked(s, t).state.counter
            == if s.delay > 0 && (t.mode == ModePaused || t.mode == ModeRequesting) then s.delay - 1 else s.delay
  {
    hide Inside, Sent, Scheduled;
    var c := Cleared(Started(s, t));
    assert c.items == s.items && c.delay == s.delay && c.override == 2;
    EnteringSchedule(c, t, i);
  }

  lemma EnteringSchedule(c: State, t: Now, i: nat)
    requires Sound(c) && c.override == 2
    requires i < |c.items| && Inside(c.items[i], t.weekDay, t.minute) && !c.items[i].isPaused
    ensures var o := Scheduled(c, t);
            && o.state.bits == {} && o.state.active == c.active
            && o.state.counter
               == if c.delay > 0 && (t.mode == ModePaused || t.mode == ModeRequesting) then c.delay - 1 else c.delay
  {
    hide Inside, Pausing, Sent, Marked;
    ScannedBits(c, t);
    assert i in Pausing(c.items, t) by { PausingHas(c.items, t, i); }
    assert Enters(c.items, false, t);
  }

  lemma PausingHas(items: seq<TimeSchedule>, t: Now, i: nat)
    requires i < |items|
    ensures i in Pausing(items, t) <==> Inside(items[i], t.weekDay, t.minute)
  {}

  /** Only the cloud outside the pauses, and a disconnected car, change whether the charger is held. */
  lemma HeldStays(s: State, e: Event)
    ensures Next(s, e).state.held
            == if e.Hold? && s.bits == {} then e.paused else s.held && !(e.Second? && s.disconnected)
  {
    hide Sent, Parsed, Scheduled;
    if e.Second? {
      var c := Cleared(Started(s, e.now));
      HeldThroughSchedule(c, e.now);
    }
  }

  lemma HeldThroughSchedule(s: State, t: Now)
    ensures Scheduled(s, t).state.held == s.held
  {
    hide Sent, Marked, Pausing, Enters;
  }

  /** Every delay up to the maximum set, and no other, can come up. */
  lemma EveryDelayComesUp(high: nat, d: nat)
    requires 1 <= d <= high && d <= MAX_DELAY
    ensures RandomDelay(high, d - 1) == d
  {
    assert (d - 1) % high == d - 1;
  }

  // ----- the start delay

  predicate Begins(commands: seq<Command>) {
    StartCharging in commands || ResumeCharging in commands
  }

  /**
   * A command is sent in these cases only: on request, standalone with an accepted user, otherwise
   * when neither a pause nor a delay is on; a resume exactly when the charger is paused by then.
   */
  lemma SentExactly(s: State, mode: Mode, t: Now)
    ensures var commands := Sent(s, mode, t);
            && (StartCharging in commands
                <==> if t.standalone && s.active && mode == ModeRequesting then t.authorised && t.currentAccepted
                     else !t.standalone && mode in {ModeRequesting, ModeCharging} && s.bits == {} && s.counter == 0)
            && (ResumeCharging in commands <==> mode == ModePaused)
            && StopCharging !in commands && |commands| <= 1
  {
  }

  /** A paused tick charges the counter with the delay. */
  lemma PausedTick(s: State, t: Now)
    requires Sound(s) && s.active && Ticked(s, t).state.bits != {} && t.car != CarAway
    ensures Ticked(s, t).state.counter == s.delay && Ticked(s, t).state.override == 0
    ensures var commands := Ticked(s, t).commands;
            && (StartCharging in commands
                <==> StartsDespitePause(s, t) && t.modeAtStart == ModeRequesting && t.authorised && t.currentAccepted)
            && (ResumeCharging in commands <==> StartsDespitePause(s, t) && t.modeAtStart == ModePaused)
  {
    TickPauses(s, t);
    var c := Cleared(Started(s, t));
    var r := Overridden(Scanned(c, t), t);
    SentExactly(r.(counter := r.delay), t.modeAtStart, t);
    hide Inside, Enters, Pausing, Sent;
  }

  /** Without a delay, the timer starts a standalone charger on request, pause or not. */
  predicate StartsDespitePause(s: State, t: Now) {
    s.delay == 0 && t.standalone && t.mode == ModeRequesting
  }

  const ALWAYS := Item([true, true, true, true, true, true, true], 0, 1440)

  /** A schedule that pauses always, a charger without a delay: the paused tick starts it. */
  lemma StartsWhilePaused(t: Now)
    requires t.car == CarThere && t.standalone && t.mode == t.modeAtStart == ModeRequesting && t.authorised
             && t.currentAccepted
    ensures var o := Ticked(Run(INITIAL, [SetTimes(RenderAll([ALWAYS])), Activate(true)]).state, t);
            o.state.bits != {} && StartCharging in o.commands
  {
    var text := RenderAll([ALWAYS]);
    var s := INITIAL.(items := Parsed(text), active := true);
    hide RenderAll, Parsed, Inside, Sent, Run, Ticked, Pausing;
    AlwaysPauses(t);
    SetAndActive(text);
    TickPauses(s, t);
    PausedTick(s, t);
  }

  lemma SetAndActive(text: string)
    requires Acceptable(text)
    ensures Run(INITIAL, [SetTimes(text), Activate(true)]).state == INITIAL.(items := Parsed(text), active := true)
  {
    hide Parsed, Run;
    RunFrom(INITIAL, SetTimes(text), [Activate(true)]);
    RunFrom(INITIAL.(items := Parsed(text)), Activate(true), []);
    RunNothing(INITIAL.(items := Parsed(text), active := true));
    assert [SetTimes(text)] + [Activate(true)] == [SetTimes(text), Activate(true)];
    assert [Activate(true)] + [] == [Activate(true)];
  }

  lemma RunNothing(s: State)
    ensures Run(s, []) == Outcome(s, [])
  {}

  lemma AlwaysPauses(t: Now)
    ensures var text := RenderAll([ALWAYS]);
            && Acceptable(text) && |Parsed(text)| == 1
            && 0 in Pausing(Parsed(text), t)
  {
    hide RenderAll, Parsed, Inside;
    ScheduleMeaning([ALWAYS], 0, t.weekDay, t.minute);
  }

  /** Nothing that ends the delay early: no override, no disconnect, no cleared delay. */
  predicate Waits(e: Event) {
    match e
    case Second(now) => now.car != CarAway
    case Override => false
    case NewDelay(high, _) => high > 0
    case ClearDelay => false
    case _ => true
  }

  function Seconds(events: seq<Event>): nat {
    if events == [] then 0 else (if events[0].Second? then 1 else 0) + Seconds(events[1..])
  }

  /** No tick of the run is paused. */
  predicate NeverPaused(s: State, events: seq<Event>)
    decreases |events|
  {
    events == [] ||
    (var t := Next(s, events[0]).state; (events[0].Second? ==> t.bits == {}) && NeverPaused(t, events[1..]))
  }

  lemma NoneEnters(items: seq<TimeSchedule>, forget: bool, t: Now)
    requires Pausing(items, t) == {}
    ensures !Enters(items, forget, t)
  {
    forall i | 0 <= i < |items| ensures !Inside(items[i], t.weekDay, t.minute) {
      assert i !in Pausing(items, t);
    }
  }

  /**
   * Each delay set in the run is longer than the seconds that remain. Before the car is seen for the
   * first time this matters, since the delay then in force is applied once more.
   */
  ghost predicate LongDelays(events: seq<Event>) {
    forall i | 0 <= i < |events| && events[i].NewDelay? && events[i].high > 0 ::
      RandomDelay(events[i].high, events[i].random) > Seconds(events[i..])
  }

  lemma LongDelaysTail(events: seq<Event>)
    requires events != [] && LongDelays(events)
    ensures LongDelays(events[1..])
  {
    assert forall i | 0 <= i < |events| - 1 :: events[1..][i..] == events[i + 1..];
  }

  /** The counter falls by at most one a tick, and nothing begins before it has run out. */
  lemma WaitingTick(s: State, t: Now)
    requires Sound(s) && s.override == 0 && s.counter > 1 && (s.atBoot ==> s.delay > 1) && t.car != CarAway
    requires Ticked(s, t).state.bits == {}
    ensures var o := Ticked(s, t);
            && !Begins(o.commands) && o.state.override == 0 && o.state.delay == s.delay
            && (o.state.atBoot ==> s.atBoot)
            && (o.state.counter >= s.counter - 1 || (s.atBoot && o.state.counter >= s.delay - 1))
  {
    hide Inside, Enters, Pausing, Sent, Scheduled, Parsed;
    var c := Cleared(Started(s, t));
    SamePausing(c.items, s.items, t);
    assert c.counter >= (if s.atBoot && t.car == CarThere then s.delay else s.counter) && c.override == 0;
    if s.active {
      TickPauses(s, t);
      WaitingSchedule(c, t);
    }
  }

  lemma WaitingSchedule(c: State, t: Now)
    requires c.override == 0 && c.counter > 1 && Scheduled(c, t).state.bits == {} && Pausing(c.items, t) == {}
    ensures var o := Scheduled(c, t);
            && o.commands == [] && o.state.override == 0 && o.state.delay == c.delay && o.state.atBoot == c.atBoot
            && o.state.counter >= c.counter - 1
  {
    hide Inside, Enters, Pausing, Sent;
    NoneEnters(c.items, c.override == 0 && c.previousOverride > 0, t);
  }

  lemma WaitingEvent(s: State, e: Event)
    requires Waits(e) && !e.Second?
    ensures var o := Next(s, e);
            && o.commands == [] && o.state.counter == s.counter
            && o.state.override == (if e.CancelOverride? then 0 else s.override) && o.state.atBoot == s.atBoot
            && o.state.delay == if e.NewDelay? then RandomDelay(e.high, e.random) else s.delay
  {
    hide Parsed;
  }

  /** While the counter has run for fewer ticks than it was set to, no start and no resume is sent. */
  lemma {:induction false} StartDelayed(s: State, events: seq<Event>)
    requires Sound(s) && s.override == 0 && s.counter > Seconds(events)
    requires s.atBoot ==> s.delay > Seconds(events) && LongDelays(events)
    requires forall i :: 0 <= i < |events| ==> Waits(events[i])
    requires NeverPaused(s, events)
    ensures !Begins(Run(s, events).commands)
    decreases |events|
  {
    if events != [] {
      var e := events[0];
      assert Waits(e) && events[0..] == events;
      if s.atBoot {
        LongDelaysTail(events);
      }
      NextSound(s, e);
      if e.Second? {
        WaitingTick(s, e.now);
      } else {
        WaitingEvent(s, e);
      }
      hide Ticked, Sound, Next, Waits, RandomDelay;
      StartDelayed(Next(s, e).state, events[1..]);
    }
  }

  /**
   * The guarantee in full: a paused tick with a delay of d >= 1 and any d - 1 seconds after it send no
   * start and no resume. Only while the car's state has not been read, a delay set meanwhile must last, too.
   */
  lemma NoStartWithinDelay(s: State, t: Now, events: seq<Event>)
    requires Sound(s) && s.active && s.delay >= 1 && t.car != CarAway
    requires Ticked(s, t).state.bits != {}
    requires s.atBoot && t.car == CarUnknown ==> LongDelays(events)
    requires Seconds(events) < s.delay && forall i :: 0 <= i < |events| ==> Waits(events[i])
    requires NeverPaused(Ticked(s, t).state, events)
    ensures !Begins(Run(s, [Second(t)] + events).commands)
  {
    PausedTick(s, t);
    TickedSound(s, t);
    CarSeen(s, t);
    hide Ticked, Sent, Sound, NeverPaused, Waits, LongDelays;
    StartDelayed(Ticked(s, t).state, events);
    RunFrom(s, Second(t), events);
  }

  lemma CarSeen(s: State, t: Now)
    ensures Ticked(s, t).state.atBoot <==> s.atBoot && t.car == CarUnknown
    ensures Ticked(s, t).state.delay == s.delay
  {
    hide Sent, Scheduled;
    var c := Cleared(Started(s, t));
    assert (c.atBoot <==> s.atBoot && t.car == CarUnknown) && c.delay == s.delay;
    ScheduledKeepsFlags(c, t);
  }

  lemma ScheduledKeepsFlags(s: State, t: Now)
    ensures Scheduled(s, t).state.atBoot == s.atBoot && Scheduled(s, t).state.delay == s.delay
  {
    hide Sent, Scanned;
    ScanKeepsFlags(s, t);
  }

  lemma ScanKeepsFlags(s: State, t: Now)
    ensures Scanned(s, t).atBoot == s.atBoot && Scanned(s, t).active == s.active && Scanned(s, t).delay == s.delay
  {
    hide Enters, Pausing, Marked;
  }

  lemma RunFrom(s: State, e: Event, rest: seq<Event>)
    ensures var o, r := Next(s, e), Run(Next(s, e).state, rest);
            Run(s, [e] + rest) == Outcome(r.state, o.commands + r.commands)
  {
    hide Next;
    var all := [e] + rest;
    assert all[0] == e && all[1..] == rest;
  }

  /** A tick in which a stopped car waits for the schedule to let it go on. */
  predicate Resumes(t: Now) {
    t.car == CarThere && t.mode == ModePaused && t.modeAtResume == ModePaused && t.finalStop
  }

  lemma ResumingTick(s: State, t: Now)
    requires Sound(s) && s.active && s.override == 0 && !s.atBoot && !s.held && s.counter > 0
    requires Resumes(t) && Pausing(s.items, t) == {}
    ensures var o := Ticked(s, t);
            o.state.counter == s.counter - 1 && o.commands == if s.counter == 1 then [ResumeCharging] else []
    ensures var r := Ticked(s, t).state;
            r.active && r.override == 0 && !r.atBoot && !r.held && SameTimes(r.items, s.items)
  {
    var c := Cleared(s);
    SamePausing(c.items, s.items, t);
    TickPauses(s, t);
    NoneEnters(c.items, c.override == 0 && c.previousOverride > 0, t);
    hide Inside, Enters, Pausing;
  }

  /** And it resumes in the d-th tick: the delay is neither shorter nor longer. */
  lemma {:induction false} ResumesAfterDelay(s: State, ticks: seq<Now>)
    requires Sound(s) && s.active && s.override == 0 && !s.atBoot && !s.held
    requires |ticks| == s.counter > 0
    requires forall i :: 0 <= i < |ticks| ==> Resumes(ticks[i]) && Pausing(s.items, ticks[i]) == {}
    ensures Run(s, Timed(ticks)).commands == [ResumeCharging]
    decreases |ticks|
  {
    var t, rest := ticks[0], ticks[1..];
    var o := Ticked(s, t);
    ResumingTick(s, t);
    NextSound(s, Second(t));
    hide Ticked, Sound, Pausing;
    assert Timed(ticks)[0] == Second(t) && Timed(ticks)[1..] == Timed(rest);
    if s.counter > 1 {
      forall i | 0 <= i < |rest| ensures Resumes(rest[i]) && Pausing(o.state.items, rest[i]) == {} {
        assert rest[i] == ticks[i + 1];
        SamePausing(o.state.items, s.items, rest[i]);
      }
      ResumesAfterDelay(o.state, rest);
    } else {
      assert Timed(rest) == [];
    }
  }

  lemma FirstSighting(s: State, t: Now)
    requires Sound(s) && s.active && s.override == 0 && s.atBoot && !s.held && !s.disconnected && s.delay == 1
    requires Resumes(t) && Pausing(s.items, t) == {}
    ensures ResumeCharging in Ticked(s, t).commands
  {
    var b := Started(s, t);
    assert b == s.(atBoot := false, counter := 1) && Started(b, t) == b;
    assert Ticked(s, t) == Ticked(b, t) by {
      hide Scheduled, Sent, Cleared;
    }
    ResumingTick(b, t);
  }

  /** Nothing ends the delay early, no further tick is paused, and yet a start or resume is sent before it is over. */
  ghost predicate BeginsEarly(s: State, t: Now, events: seq<Event>) {
    && Seconds(events) < s.delay && (forall i :: 0 <= i < |events| ==> Waits(events[i]))
    && NeverPaused(Ticked(s, t).state, events)
    && Begins(Run(s, [Second(t)] + events).commands)
  }

  const MIDNIGHT := Item([true, true, true, true, true, true, true], 0, 1)

  /**
   * From the start: a paused tick with a delay of a hundred seconds while the car has not been read yet, then a
   * delay of one second. The car is seen and resumed in the next tick.
   */
  lemma DelayCutShort(t: Now, u: Now)
    requires t.minute == 0 && t.car == CarUnknown && u.minute != 0 && Resumes(u)
    ensures var s := Run(INITIAL, [SetTimes(RenderAll([MIDNIGHT])), Activate(true), NewDelay(100, 99)]).state;
            var events := [NewDelay(1, 0), Second(u)];
            && s.delay == 100 && Ticked(s, t).state.bits != {} && Seconds(events) == 1
            && BeginsEarly(s, t, events)
  {
    var text := RenderAll([MIDNIGHT]);
    var s := INITIAL.(items := Parsed(text), active := true, delay := 100);
    hide RenderAll, Parsed, Inside, Sent, Run, Ticked, Pausing, BeginsEarly, Seconds, Resumes;
    MidnightPauses(text, t, u);
    SetActiveAndDelay(text);
    assert Sound(s);
    TickPauses(s, t);
    ThenCutShort(s, t, u);
  }

  lemma MidnightPauses(text: string, t: Now, u: Now)
    requires text == RenderAll([MIDNIGHT]) && t.minute == 0 && u.minute != 0
    ensures Acceptable(text) && |Parsed(text)| == 1 && Pausing(Parsed(text), t) != {} && Pausing(Parsed(text), u) == {}
  {
    hide RenderAll, Parsed, Inside, Pausing;
    ScheduleMeaning([MIDNIGHT], 0, t.weekDay, t.minute);
    ParsedPauses([MIDNIGHT], t);
    ParsedPauses([MIDNIGHT], u);
    assert 0 in Pausing(Parsed(text), t);
  }

  /** A tick that is paused before the car is seen leaves these as they are. */
  lemma PausedUnseen(s: State, t: Now)
    requires s.active && s.override == 0 && s.atBoot && !s.held && !s.disconnected && t.car == CarUnknown
    ensures var r := Ticked(s, t).state;
            r.active && r.override == 0 && r.atBoot && !r.held && !r.disconnected && r.delay == s.delay
  {
    hide Enters, Pausing, Marked, Sent;
    assert Cleared(Started(s, t)) == s;
  }

  lemma NotPaused(s: State, u: Now)
    requires Ticked(s, u).state.bits == {}
    ensures NeverPaused(s, [Second(u)])
  {
    hide Ticked;
    var after, none := Next(s, Second(u)).state, [Second(u)][1..];
    assert none == [] && NeverPaused(after, none);
  }

  lemma ThenCutShort(s: State, t: Now, u: Now)
    requires Sound(s) && s.active && s.override == 0 && s.atBoot && !s.held && !s.disconnected
    requires t.car == CarUnknown && Resumes(u) && Pausing(s.items, u) == {} && s.delay > 1
    ensures var events := [NewDelay(1, 0), Second(u)]; Seconds(events) == 1 && BeginsEarly(s, t, events)
  {
    hide Sound, Ticked, Pausing, Run;
    var p, events := Ticked(s, t).state, [NewDelay(1, 0), Second(u)];
    var q := p.(delay := 1);
    assert events[1..] == [Second(u)] && [Second(u)][1..] == [];
    PausedUnseen(s, t);
    TickedSound(s, t);
    assert Next(p, NewDelay(1, 0)) == Outcome(q, []);
    NextSound(p, NewDelay(1, 0));
    SamePausing(q.items, s.items, u);
    TickPauses(q, u);
    FirstSighting(q, u);
    RunFrom(s, Second(t), events);
    RunFrom(p, NewDelay(1, 0), [Second(u)]);
    RunFrom(q, Second(u), []);
    assert [NewDelay(1, 0)] + [Second(u)] == events && [Second(u)] + [] == [Second(u)];
    assert Seconds([Second(u)]) == 1;
    NotPaused(q, u);
    assert Begins(Ticked(q, u).commands);
  }

  lemma SetActiveAndDelay(text: string)
    requires Acceptable(text)
    ensures Run(INITIAL, [SetTimes(text), Activate(true), NewDelay(100, 99)]).state
            == INITIAL.(items := Parsed(text), active := true, delay := 100)
  {
    hide Parsed, Run;
    var a, b := INITIAL.(items := Parsed(text)), INITIAL.(items := Parsed(text), active := true);
    assert RandomDelay(100, 99) == 100;
    RunFrom(INITIAL, SetTimes(text), [Activate(true), NewDelay(100, 99)]);
    RunFrom(a, Activate(true), [NewDelay(100, 99)]);
    RunFrom(b, NewDelay(100, 99), []);
    RunNothing(b.(delay := 100));
    assert [SetTimes(text)] + [Activate(true), NewDelay(100, 99)]
           == [SetTimes(text), Activate(true), NewDelay(100, 99)];
    assert [Activate(true)] + [NewDelay(100, 99)] == [Activate(true), NewDelay(100, 99)];
    assert [NewDelay(100, 99)] + [] == [NewDelay(100, 99)];
  }

  // ----- the override

  /** An override ends the pause at once: a stopped car is resumed in the same tick, without delay. */
  lemma OverrideResumes(s: State, t: Now)
    requires Sound(s) && s.active && s.override == 1 && !s.held
    requires Pausing(s.items, t) != {} && Resumes(t)
    ensures var o := Ticked(s, t);
            ResumeCharging in o.commands && o.state.bits == {} && o.state.counter == 0 && o.state.override == 2
  {
    var c := Cleared(Started(s, t));
    SamePausing(c.items, s.items, t);
    ClearedSound(s, t);
    ScannedBits(c, t);
    TickPauses(s, t);
    hide Inside, Enters, Pausing, Marked;
  }

  /** Asked for during a pause, in the next second; once cancelled, the pause is on again. */
  lemma OverrideTakesEffect(s: State, t: Now)
    requires Sound(s) && s.active && !s.held && Pausing(s.items, t) != {} && Resumes(t)
    ensures ResumeCharging in Run(s, [Override, Second(t)]).commands
    ensures Run(s, [Override, CancelOverride, Second(t)]).state.bits == Pausing(s.items, t)
  {
    hide Run, Ticked, Pausing;
    var on := s.(override := 1);
    OverrideResumes(on, t);
    TickPauses(s.(override := 0), t);
    assert [Override] + [Second(t)] == [Override, Second(t)] && [Second(t)] + [] == [Second(t)];
    assert [Override] + [CancelOverride, Second(t)] == [Override, CancelOverride, Second(t)];
    assert [CancelOverride] + [Second(t)] == [CancelOverride, Second(t)];
    RunFrom(s, Override, [Second(t)]);
    RunFrom(on, Second(t), []);
    RunFrom(s, Override, [CancelOverride, Second(t)]);
    RunFrom(on, CancelOverride, [Second(t)]);
    RunFrom(s.(override := 0), Second(t), []);
    RunNothing(Ticked(s.(override := 0), t).state);
  }

  /** Outside the pauses it is given up as soon as no car is there or no delay is left, not before. */
  lemma OverrideEndsExactly(s: State, t: Now)
    requires Sound(s) && s.active && s.override == 2 && !s.atBoot && t.car != CarAway
    ensures Ticked(s, t).state.override == 0
            <==> Pausing(s.items, t) == {} && (t.mode == ModeDisconnected || s.counter == 0)
    ensures Ticked(s, t).state.override == 0 || Ticked(s, t).state.override == 2
  {
    var c := Cleared(s);
    SamePausing(c.items, s.items, t);
    ClearedSound(s, t);
    ScannedBits(c, t);
    if Pausing(c.items, t) == {} {
      NoneEnters(c.items, false, t);
    }
    hide Inside, Enters, Pausing, Marked, Sent;
  }

  function Timed(ticks: seq<Now>): (events: seq<Event>)
    ensures |events| == |ticks|
  {
    seq(|ticks|, i requires 0 <= i < |ticks| => Second(ticks[i]))
  }

  // ----- the code

  class ChargeTimer {
    const timeSchedules: array<TimeSchedule>
    var nrOfSchedules: nat
    var isPausedByAnySchedule: set<nat>
    var isScheduleActive: bool
    var randomStartDelay: nat
    var startDelayCounter: nat
    var overrideTimer: nat
    var previousOverrideTimer: nat
    var applyDelayAtBoot: bool
    var hasBeenDisconnected: bool
    var pausedByCloudCommand: bool

    ghost predicate Valid()
      reads this
    {
      nrOfSchedules <= timeSchedules.Length == MAX_SCHEDULES
    }

    ghost function Items(): seq<TimeSchedule>
      requires Valid()
      reads this, timeSchedules
    {
      timeSchedules[..nrOfSchedules]
    }

    ghost function Current(): State
      requires Valid()
      reads this, timeSchedules
    {
      State(Items(), isPausedByAnySchedule, isScheduleActive, randomStartDelay, startDelayCounter,
            overrideTimer, previousOverrideTimer, applyDelayAtBoot, hasBeenDisconnected, pausedByCloudCommand)
    }

    constructor ()
      ensures Valid() && fresh(timeSchedules) && Current() == INITIAL
    {
      timeSchedules := new TimeSchedule[MAX_SCHEDULES](_ => UNSET);
      nrOfSchedules := 0;
      isPausedByAnySchedule := {};
      isScheduleActive := false;
      randomStartDelay := 0;
      startDelayCounter := 0;
      overrideTimer := 0;
      previousOverrideTimer := 0;
      applyDelayAtBoot := true;
      hasBeenDisconnected := false;
      pausedByCloudCommand := false;
    }

    method SetTimes(text: string)
      requires Valid()
      modifies this`nrOfSchedules, this`isPausedByAnySchedule, timeSchedules
      ensures Valid() && Current() == Next(old(Current()), Event.SetTimes(text)).state
      ensures if 13 <= |text| <= SCHEDULE_SIZE then nrOfSchedules == (|text| + 1) / 14 && isPausedByAnySchedule == {}
              else Current() == old(Current())
    {
      if !(ITEM - 1 <= |text| <= SCHEDULE_SIZE) {
        return;
      }
      hide ParseItem, Inside;
      nrOfSchedules := (|text| + 1) / ITEM;
      isPausedByAnySchedule := {};
      forall k | 0 <= k < timeSchedules.Length {
        timeSchedules[k] := UNSET;
      }
      var i := 0;
      while i < nrOfSchedules
        invariant 0 <= i <= nrOfSchedules
        invariant forall k :: 0 <= k < i ==> timeSchedules[k] == Parsed(text)[k]
        modifies timeSchedules
      {
        timeSchedules[i] := ParseItem(text[ITEM * i..][..ITEM - 1]);
        i := i + 1;
      }
      assert Items() == Parsed(text);
    }

    method ClearPausedFlags()
      requires Valid()
      modifies timeSchedules
      ensures Items() == Unpaused(old(Items()))
    {
      var i := 0;
      while i < nrOfSchedules
        invariant 0 <= i <= nrOfSchedules
        invariant forall k :: 0 <= k < nrOfSchedules ==>
                    timeSchedules[k] == if k < i then old(timeSchedules[k]).(isPaused := false)
                                        else old(timeSchedules[k])
      {
        if timeSchedules[i].isPaused {
          timeSchedules[i] := timeSchedules[i].(isPaused := false);
        }
        i := i + 1;
      }
    }

    /** One schedule of the scan: is it in its interval, and has it just entered it? */
    method ScanOne(i: nat, forget: bool, t: Now) returns (entered: bool)
      requires Valid() && i < nrOfSchedules
      modifies timeSchedules
      ensures timeSchedules[i] == old(timeSchedules[i]).(isPaused := Inside(old(timeSchedules[i]), t.weekDay, t.minute))
      ensures forall k :: 0 <= k < timeSchedules.Length && k != i ==> timeSchedules[k] == old(timeSchedules[k])
      ensures entered <==>
              Inside(old(timeSchedules[i]), t.weekDay, t.minute) && (forget || !old(timeSchedules[i]).isPaused)
    {
      entered := false;
      if forget {
        timeSchedules[i] := timeSchedules[i].(isPaused := false);
      }
      if Bit(timeSchedules[i].days, t.weekDay - 1) {
        if timeSchedules[i].start <= t.minute < timeSchedules[i].stop {
          entered := !timeSchedules[i].isPaused;
          timeSchedules[i] := timeSchedules[i].(isPaused := true);
        } else {
          timeSchedules[i] := timeSchedules[i].(isPaused := false);
        }
      } else if timeSchedules[i].isPaused {
        timeSchedules[i] := timeSchedules[i].(isPaused := false);
      }
    }

    method Scan(t: Now)
      requires Valid()
      modifies this`isPausedByAnySchedule, this`startDelayCounter, timeSchedules
      ensures Current() == Scanned(old(Current()), t)
    {
      hide Inside;
      var forget := overrideTimer == 0 && previousOverrideTimer > 0;
      ghost var items := Items();
      var i: nat := 0;
      while i < nrOfSchedules
        invariant 0 <= i <= nrOfSchedules
        invariant forall k :: 0 <= k < nrOfSchedules ==>
                    timeSchedules[k] == if k < i then Marked(items, t)[k] else items[k]
        invariant forall b :: b in isPausedByAnySchedule <==>
                    if b < i then b in Pausing(items, t) else b in old(isPausedByAnySchedule)
        invariant startDelayCounter ==
                  if Enters(items[..i], forget, t) then randomStartDelay else old(startDelayCounter)
      {
        EntersOneMore(items, i, forget, t);
        var entered := ScanOne(i, forget, t);
        if entered {
          startDelayCounter := randomStartDelay;
        }
        if timeSchedules[i].isPaused {
          isPausedByAnySchedule := isPausedByAnySchedule + {i};
        } else {
          isPausedByAnySchedule := isPausedByAnySchedule - {i};
        }
        i := i + 1;
      }
      assert items[..i] == items;
      assert Items() == Marked(items, t);
      assert isPausedByAnySchedule == (set b | b in old(isPausedByAnySchedule) && b >= |items|) + Pausing(items, t);
    }

    /** chargeController_SendStartCommandToMCU */
    method SendStartCommand(mode: Mode, t: Now) returns (commands: seq<Command>)
      requires Valid()
      ensures commands == Sent(Current(), mode, t)
      ensures ResumeCharging in commands <==> mode == ModePaused
      ensures StartCharging in commands <==>
                if t.standalone && isScheduleActive && mode == ModeRequesting then t.authorised && t.currentAccepted
                else !t.standalone && mode in {ModeRequesting, ModeCharging}
                     && isPausedByAnySchedule == {} && startDelayCounter == 0
    {
      commands := [];
      if mode == ModeRequesting && t.standalone && isScheduleActive {
        if !t.authorised {
          return;
        }
        if t.currentAccepted {
          commands := [StartCharging];
        }
      } else if (mode == ModeRequesting || mode == ModeCharging) && !t.standalone && isPausedByAnySchedule == {}
          && startDelayCounter == 0 {
        commands := [StartCharging];
      } else if mode == ModePaused {
        commands := [ResumeCharging];
      }
    }

    method ApplyOverride(t: Now)
      requires Valid()
      modifies this`isPausedByAnySchedule, this`overrideTimer, this`previousOverrideTimer
      ensures Current() == Overridden(old(Current()), t)
    {
      previousOverrideTimer := overrideTimer;
      if isPausedByAnySchedule != {} && overrideTimer > 0 {
        isPausedByAnySchedule := {};
      } else if isPausedByAnySchedule == {} && overrideTimer > 0 && t.mode == ModeDisconnected {
        overrideTimer := 0;
      } else if isPausedByAnySchedule == {} && startDelayCounter == 0 && overrideTimer > 0 {
        overrideTimer := 0;
      }
    }

    method RunSchedule(t: Now) returns (commands: seq<Command>)
      requires Valid()
      modifies this, timeSchedules
      ensures Valid() && Outcome(Current(), commands) == Scheduled(old(Current()), t)
    {
      hide Sent, Scanned, Overridden;
      Scan(t);
      ApplyOverride(t);
      commands := [];
      if isPausedByAnySchedule == {} {
        if overrideTimer == 1 {
          startDelayCounter := 0;
          overrideTimer := 2;
        }
        if startDelayCounter > 0 && (t.mode == ModePaused || t.mode == ModeRequesting) {
          startDelayCounter := startDelayCounter - 1;
        }
        if t.mode == ModePaused && t.finalStop && startDelayCounter == 0 {
          if !pausedByCloudCommand {
            commands := SendStartCommand(t.modeAtResume, t);
          }
        }
      } else {
        startDelayCounter := randomStartDelay;
        if t.mode == ModeCharging || (t.mode == ModePaused && !t.finalStop) {
          commands := [StopCharging];
        }
      }
    }

    method Prepare(t: Now)
      requires Valid()
      modifies this`startDelayCounter, this`applyDelayAtBoot, this`hasBeenDisconnected, this`pausedByCloudCommand
      modifies timeSchedules
      ensures Current() == Cleared(Started(old(Current()), t))
    {
      hide Unpaused;
      if applyDelayAtBoot && t.car != CarUnknown {
        if t.car == CarThere {
          startDelayCounter := randomStartDelay;
        }
        applyDelayAtBoot := false;
      }
      if hasBeenDisconnected {
        ClearPausedFlags();
        hasBeenDisconnected := false;
        pausedByCloudCommand := false;
      }
    }

    method RunUnscheduled()
      requires Valid()
      modifies this`isPausedByAnySchedule, this`startDelayCounter
      ensures Current() == Unscheduled(old(Current())).state
    {
      isPausedByAnySchedule := {};
      if startDelayCounter > 0 {
        startDelayCounter := startDelayCounter - 1;
      }
    }

    method StartStandalone(t: Now) returns (commands: seq<Command>)
      requires Valid()
      ensures commands == if t.standalone && isScheduleActive && t.mode == ModeRequesting && startDelayCounter == 0
                          then Sent(Current(), t.modeAtStart, t) else []
    {
      hide Sent;
      commands := [];
      if t.standalone && isScheduleActive {
        if t.mode == ModeRequesting {
          if startDelayCounter == 0 {
            commands := SendStartCommand(t.modeAtStart, t);
          }
        }
      }
    }

    /** RunStartChargeTimer, once a second */
    method Timer(t: Now) returns (commands: seq<Command>)
      requires Valid()
      modifies this, timeSchedules
      ensures Valid() && Outcome(Current(), commands) == Ticked(old(Current()), t)
    {
      hide Sent, Scheduled, Unscheduled, Cleared, Started;
      Prepare(t);
      ghost var c := Current();
      ghost var o := if c.active then Scheduled(c, t) else Unscheduled(c);
      NoCommands(c);
      ActiveStays(c, t);
      commands := [];
      if isScheduleActive {
        commands := RunSchedule(t);
      } else {
        RunUnscheduled();
      }
      assert Outcome(Current(), commands) == o;
      var more := StartStandalone(t);
      commands := commands + more;
      if t.car == CarAway {
        overrideTimer := 0;
        startDelayCounter := 0;
      }
    }

    method SetRandomStartDelay(high: nat, random: nat)
      requires Valid()
      modifies this`randomStartDelay, this`startDelayCounter
      ensures Current() == Next(old(Current()), NewDelay(high, random)).state
    {
      if high > 0 {
        var d := random % high + 1;
        randomStartDelay := if d > MAX_DELAY then 600 else d;
      } else {
        ClearRandomStartDelay();
      }
    }

    method ClearRandomStartDelay()
      requires Valid()
      modifies this`randomStartDelay, this`startDelayCounter
      ensures Current() == Next(old(Current()), ClearDelay).state
    {
      randomStartDelay := 0;
      startDelayCounter := 0;
    }

    method SetOverride(on: bool)
      requires Valid()
      modifies this`overrideTimer
      ensures Current() == Next(old(Current()), if on then Override else CancelOverride).state
    {
      overrideTimer := if on then 1 else 0;
    }

    method SetPauseByCloudCommand(paused: bool)
      requires Valid()
      modifies this`pausedByCloudCommand
      ensures Current() == Next(old(Current()), Hold(paused)).state
    {
      if isPausedByAnySchedule == {} {
        pausedByCloudCommand := paused;
      }
    }
  }

  lemma NoCommands(s: State)
    ensures Unscheduled(s).commands == []
  {}

  lemma ActiveStays(s: State, t: Now)
    ensures Scheduled(s, t).state.active == Unscheduled(s).state.active == s.active
  {
    hide Sent, Enters, Marked, Pausing;
  }

  lemma EntersOneMore(items: seq<TimeSchedule>, i: nat, forget: bool, t: Now)
    requires i < |items|
    ensures Enters(items[..i + 1], forget, t) <==>
            Enters(items[..i], forget, t)
            || (Inside(items[i], t.weekDay, t.minute) && (forget || !items[i].isPaused))
  {
    hide Inside;
    if Enters(items[..i + 1], forget, t) {
      var k :| 0 <= k < i + 1 && Inside(items[..i + 1][k], t.weekDay, t.minute)
          && (forget || !items[..i + 1][k].isPaused);
      assert k < i ==> items[..i][k] == items[..i + 1][k];
    } else {
      assert forall k | 0 <= k < i :: items[..i + 1][k] == items[..i][k];
      assert items[..i + 1][i] == items[i];
    }
  }
}
