/** Store and forward of signed meter values: on_send_signed_meter_value in main/sessionHandler.c. */
module EnergyReporting {
  import opened OfflineLog

  // ----- what became of every sample

  /** How often a sample was published, and whether it is still queued. */
  datatype Fate = Fate(out: nat, waiting: bool) {
    predicate Lost() { out == 0 && !waiting }

    /** A sample published once, or queued and not published, is not repeated. */
    function Extra(): nat {
      var n := if waiting then out + 1 else out;
      if n == 0 then 0 else n - 1
    }
  }

  function Times(x: Sample, n: nat): seq<Sample> {
    seq(n, _ => x)
  }

  /** What was published, in sampling order. */
  function Sends(s: seq<Sample>, f: seq<Fate>): seq<Sample>
    requires |s| == |f|
  {
    if s == [] then [] else Times(s[0], f[0].out) + Sends(s[1..], f[1..])
  }

  /** What is queued, in sampling order. */
  function Queues(s: seq<Sample>, f: seq<Fate>): seq<Sample>
    requires |s| == |f|
  {
    if s == [] then [] else (if f[0].waiting then [s[0]] else []) + Queues(s[1..], f[1..])
  }

  function Repeats(f: seq<Fate>): nat {
    if f == [] then 0 else f[0].Extra() + Repeats(f[1..])
  }

  /** Nothing behind a queued sample was published. */
  ghost predicate FirstFirst(f: seq<Fate>) {
    forall i, j | 0 <= i < j < |f| && f[i].waiting :: f[j].out == 0
  }

  /** The first queued sample is published `out` times more, and then stays in the queue or not. */
  function OnFirst(f: seq<Fate>, out: nat, waiting: bool): (r: seq<Fate>)
    ensures |r| == |f|
  {
    if f == [] then []
    else if f[0].waiting then [Fate(f[0].out + out, waiting)] + f[1..]
    else [f[0]] + OnFirst(f[1..], out, waiting)
  }

  /** The first `n` queued samples are published once each. */
  function SentOut(f: seq<Fate>, n: nat): (r: seq<Fate>)
    ensures |r| == |f|
    decreases n
  {
    if n == 0 then f else SentOut(OnFirst(f, 1, false), n - 1)
  }

  lemma {:induction false} Snoc(s: seq<Sample>, f: seq<Fate>, x: Sample, k: Fate)
    requires |s| == |f|
    ensures Sends(s + [x], f + [k]) == Sends(s, f) + Times(x, k.out)
    ensures Queues(s + [x], f + [k]) == Queues(s, f) + if k.waiting then [x] else []
    ensures Repeats(f + [k]) == Repeats(f) + k.Extra()
  {
    if s == [] {
      assert s + [x] == [x] && f + [k] == [k] && [x][1..] == [] && [k][1..] == [];
    } else {
      Snoc(s[1..], f[1..], x, k);
      assert (s + [x])[1..] == s[1..] + [x] && (f + [k])[1..] == f[1..] + [k];
    }
  }

  lemma {:induction false} NoneSent(s: seq<Sample>, f: seq<Fate>)
    requires |s| == |f| && forall i | 0 <= i < |f| :: f[i].out == 0
    ensures Sends(s, f) == []
  {
    if s != [] {
      NoneSent(s[1..], f[1..]);
    }
  }

  lemma {:induction false} NoneWaits(s: seq<Sample>, f: seq<Fate>)
    requires |s| == |f| && Queues(s, f) == []
    ensures forall i | 0 <= i < |f| :: !f[i].waiting
  {
    if s != [] {
      NoneWaits(s[1..], f[1..]);
      assert forall i | 0 < i < |f| :: f[i] == f[1..][i - 1];
    }
  }

  lemma {:induction false} QueuesLength(s: seq<Sample>, f: seq<Fate>)
    requires |s| == |f|
    ensures |Queues(s, f)| <= |s|
  {
    if s != [] {
      QueuesLength(s[1..], f[1..]);
    }
  }

  lemma TailFirst(f: seq<Fate>)
    requires f != [] && FirstFirst(f)
    ensures FirstFirst(f[1..])
    ensures f[0].waiting ==> forall i | 0 <= i < |f| - 1 :: f[1..][i].out == 0
  {
    assert forall i | 0 <= i < |f| - 1 :: f[1..][i] == f[i + 1];
  }

  /** The step on the first queued sample: what it does to the published, to the queue and to the repetitions. */
  lemma {:induction false} OnFirstFacts(s: seq<Sample>, f: seq<Fate>, out: nat, waiting: bool)
    requires |s| == |f| && Queues(s, f) != [] && FirstFirst(f) && out <= 1
    ensures var r, q := OnFirst(f, out, waiting), Queues(s, f);
            && Sends(s, r) == Sends(s, f) + Times(q[0], out)
            && Queues(s, r) == (if waiting then q else q[1..])
    ensures Repeats(OnFirst(f, out, waiting)) <= Repeats(f) + (if waiting then out else 0)
  {
    hide FirstFirst;
    TailFirst(f);
    var r, first, rest := OnFirst(f, out, waiting), Times(s[0], f[0].out), Sends(s[1..], f[1..]);
    if f[0].waiting {
      NoneSent(s[1..], f[1..]);
      assert r[1..] == f[1..];
      assert Times(s[0], f[0].out + out) + [] == first + [] + Times(s[0], out);
    } else {
      OnFirstFacts(s[1..], f[1..], out, waiting);
      assert r[1..] == OnFirst(f[1..], out, waiting);
      assert first + (rest + Times(Queues(s, f)[0], out)) == first + rest + Times(Queues(s, f)[0], out);
    }
  }

  /** Where it is: no queued sample lies before it, and those queued behind it are not many. */
  lemma {:induction false} OnFirstPlace(s: seq<Sample>, f: seq<Fate>, out: nat, waiting: bool) returns (p: nat)
    requires |s| == |f| && Queues(s, f) != []
    ensures p < |f| && f[p].waiting && (forall i | 0 <= i < p :: !f[i].waiting)
    ensures OnFirst(f, out, waiting) == f[p := Fate(f[p].out + out, waiting)]
    ensures p + |Queues(s, f)| <= |f|
  {
    QueuesLength(s, f);
    if f[0].waiting {
      p := 0;
    } else {
      p := OnFirstPlace(s[1..], f[1..], out, waiting);
      p := p + 1;
      assert forall i | 0 < i < |f| :: f[i] == f[1..][i - 1];
      assert OnFirst(f, out, waiting) == f[p := Fate(f[p].out + out, waiting)];
    }
  }

  lemma OnFirstOrder(s: seq<Sample>, f: seq<Fate>, out: nat, waiting: bool)
    requires |s| == |f| && Queues(s, f) != [] && FirstFirst(f)
    ensures var r := OnFirst(f, out, waiting);
            && FirstFirst(r)
            && forall i | 0 <= i < |r| && r[i].Lost() && !f[i].Lost() :: out == 0 && i + |Queues(s, f)| <= |f|
  {
    var p := OnFirstPlace(s, f, out, waiting);
  }

  lemma {:induction false} SentOutFacts(s: seq<Sample>, f: seq<Fate>, n: nat)
    requires |s| == |f| && n <= |Queues(s, f)| && FirstFirst(f)
    ensures var r, q := SentOut(f, n), Queues(s, f);
            && Sends(s, r) == Sends(s, f) + q[..n] && Queues(s, r) == q[n..]
            && Repeats(r) <= Repeats(f) && FirstFirst(r)
            && forall i | 0 <= i < |r| && r[i].Lost() :: f[i].Lost()
    decreases n
  {
    if n > 0 {
      var g, q := OnFirst(f, 1, false), Queues(s, f);
      OnFirstFacts(s, f, 1, false);
      OnFirstOrder(s, f, 1, false);
      SentOutFacts(s, g, n - 1);
      assert Times(q[0], 1) + q[1..][..n - 1] == q[..n];
    }
  }

  // ----- the specification

  /**
    All samples ever taken and their fates, those a restart cut off on their way to the log, the restarts, what is
    published, and what is queued.
   */
  datatype State = State(sampled: seq<Sample>, fates: seq<Fate>, cut: set<nat>, restarts: nat,
                         published: seq<Sample>, queue: seq<Sample>,
                         hasRemaining: bool, hasCharged: bool, sinceLast: nat)

  /** One timer event: the car, the connection, whether the file opens each time, and how its publishes end. */
  datatype Event = Event(charging: bool, connected: bool, drainOpens: bool, appendOpens: bool, sample: Sample,
                         drainResult: nat -> int, freshResult: int)

  /** How many queued samples go out before a publish fails. */
  function Sent(q: seq<Sample>, i: nat, result: nat -> int): (n: nat)
    requires i <= |q|
    ensures i <= n <= |q|
    decreases |q| - i
  {
    if i == |q| || result(i) < 0 then i else Sent(q, i + 1, result)
  }

  predicate Samples(s: State, e: Event) {
    s.sinceLast > 30 && (e.charging || s.hasCharged || s.hasRemaining)
  }

  function DrainLength(s: State, e: Event): (n: nat)
    ensures n <= |s.queue|
  {
    if e.connected && e.drainOpens then Sent(s.queue, 0, e.drainResult) else 0
  }

  /** The first `n` queued samples have gone out. */
  function Advanced(s: State, n: nat): State
    requires n <= |s.queue|
  {
    s.(published := s.published + s.queue[..n], queue := s.queue[n..], fates := SentOut(s.fates, n))
  }

  /** The first queued sample has gone out, and is still queued. */
  function SentOnce(s: State): State
    requires s.queue != []
  {
    s.(published := s.published + [s.queue[0]], fates := OnFirst(s.fates, 1, true))
  }

  function AfterDrain(s: State, e: Event): State {
    Advanced(s, DrainLength(s, e))
  }

  /** The drain reports an empty log, also when the file could not be opened. */
  predicate ReportsEmpty(s: State, e: Event) {
    e.connected && (e.drainOpens ==> AfterDrain(s, e).queue == [])
  }

  /** A new sample: published, queued, or neither. */
  function Joined(s: State, x: Sample, k: Fate): State {
    s.(sampled := s.sampled + [x], fates := s.fates + [k],
       published := if k.out > 0 then s.published + [x] else s.published,
       queue := if k.waiting then s.queue + [x] else s.queue)
  }

  /** On a full log the oldest queued sample gives way. */
  function Room(s: State): State {
    if |s.queue| == MAX_ITEMS - 1 then s.(queue := s.queue[1..], fates := OnFirst(s.fates, 0, false)) else s
  }

  function Enqueue(s: State, e: Event): State {
    if e.appendOpens then Joined(Room(s), e.sample, Fate(0, true)) else Joined(s, e.sample, Fate(0, false))
  }

  function Report(s: State, e: Event): State {
    var d := AfterDrain(s, e);
    if ReportsEmpty(s, e) && e.freshResult >= 0 then Joined(d, e.sample, Fate(1, false)) else Enqueue(d, e)
  }

  /** on_send_signed_meter_value */
  function OnTimer(s: State, e: Event): State {
    if s.sinceLast <= 30 then s
    else
      var r := if Samples(s, e) then Report(s, e) else AfterDrain(s, e);
      r.(sinceLast := 0,
         hasRemaining := e.charging,
         hasCharged := false)
  }

  /**
    Where a timer event is cut short: after publishing some queued lines, the last of which the header on disk may
    not have moved past yet; or with the fresh sample in memory only; or with all of it done.
   */
  datatype Crash = Draining(sent: nat, moved: bool) | Delivering | Delivered

  function CrashedDrain(s: State, e: Event, sent: nat, moved: bool): State {
    var k := if sent <= DrainLength(s, e) then sent else DrainLength(s, e);
    if moved || k == 0 then Advanced(s, k) else SentOnce(Advanced(s, k - 1))
  }

  /** The sample is taken before the drain; a restart loses it as long as it is in memory only. */
  function CutAway(s: State, e: Event, d: State): State {
    if Samples(s, e) then Joined(d, e.sample, Fate(0, false)).(cut := d.cut + {|d.sampled|}) else d
  }

  /** What is published and on disk after the crash. */
  function Survives(s: State, e: Event, at: Crash): State {
    if s.sinceLast <= 30 then s
    else
      match at
      case Draining(sent, moved) => CutAway(s, e, CrashedDrain(s, e, sent, moved))
      case Delivering => CutAway(s, e, AfterDrain(s, e))
      case Delivered => OnTimer(s, e)
  }

  function Restarted(s: State, e: Event, at: Crash): State {
    Survives(s, e, at).(restarts := s.restarts + 1, hasRemaining := false, hasCharged := false, sinceLast := 3600)
  }

  datatype Happening = Timer(event: Event) | Second | ChargingEnded | Restart(event: Event, at: Crash)

  function Next(s: State, h: Happening): State {
    match h
    case Timer(e) => OnTimer(s, e)
    case Second => s.(sinceLast := s.sinceLast + 1)
    case ChargingEnded => s.(hasCharged := true)
    case Restart(e, at) => Restarted(s, e, at)
  }

  const INITIAL := State([], [], {}, 0, [], [], false, false, 3600)

  function Run(hs: seq<Happening>): State {
    if hs == [] then INITIAL else Next(Run(hs[..|hs| - 1]), hs[|hs| - 1])
  }

  // ----- order

  /** These fates explain what is published and queued, in sampling order and with at most so many repetitions. */
  ghost predicate Explains(f: seq<Fate>, s: State) {
    && |f| == |s.sampled|
    && s.published == Sends(s.sampled, f) && s.queue == Queues(s.sampled, f)
    && FirstFirst(f) && Repeats(f) <= s.restarts
  }

  /** A sample is lost only with 999 newer ones behind it, or cut off by a restart, one for each. */
  ghost predicate FewLost(s: State) {
    && |s.cut| <= s.restarts
    && forall i | 0 <= i < |s.fates| && s.fates[i].Lost() :: i in s.cut || i + MAX_ITEMS - 1 < |s.sampled|
  }

  ghost predicate InOrder(s: State) {
    Explains(s.fates, s) && FewLost(s) && |s.queue| < MAX_ITEMS
  }

  lemma DrainExplains(s: State, n: nat)
    requires Explains(s.fates, s) && n <= |s.queue|
    ensures var d := Advanced(s, n);
            && Explains(d.fates, d) && (FewLost(s) ==> FewLost(d))
            && d.queue == s.queue[n..] && d.sampled == s.sampled && d.cut == s.cut && d.restarts == s.restarts
  {
    SentOutFacts(s.sampled, s.fates, n);
  }

  lemma Joins(s: State, x: Sample, k: Fate)
    requires Explains(s.fates, s) && k.out <= 1 && k.Extra() == 0 && (k.out > 0 ==> s.queue == [])
    ensures Explains(Joined(s, x, k).fates, Joined(s, x, k))
    ensures FewLost(s) && !k.Lost() ==> FewLost(Joined(s, x, k))
  {
    assert Times(x, 0) == [] && Times(x, 1) == [x];
    JoinsFirst(s, k);
    hide Times, Sends, Queues, FirstFirst, Repeats;
    Snoc(s.sampled, s.fates, x, k);
    assert s.published + [] == s.published && s.queue + [] == s.queue;
  }

  lemma JoinsFirst(s: State, k: Fate)
    requires Explains(s.fates, s) && (k.out > 0 ==> s.queue == [])
    ensures FirstFirst(s.fates + [k])
  {
    if k.out > 0 {
      NoneWaits(s.sampled, s.fates);
    }
  }

  lemma RoomExplains(s: State, x: Sample)
    requires Explains(s.fates, s) && |s.queue| < MAX_ITEMS
    ensures var d := Room(s);
            && Explains(d.fates, d) && |d.queue| < MAX_ITEMS - 1 && d.sampled == s.sampled
            && (FewLost(s) ==> FewLost(Joined(d, x, Fate(0, true))))
  {
    if |s.queue| == MAX_ITEMS - 1 {
      OnFirstFacts(s.sampled, s.fates, 0, false);
      OnFirstOrder(s.sampled, s.fates, 0, false);
      assert Times(s.queue[0], 0) == [];
    }
  }

  lemma EnqueueExplains(s: State, e: Event)
    requires Explains(s.fates, s) && |s.queue| < MAX_ITEMS
    ensures var r := Enqueue(s, e);
            && Explains(r.fates, r) && |r.queue| < MAX_ITEMS
            && (FewLost(s) && e.appendOpens ==> FewLost(r))
  {
    hide Explains, FewLost, Room;
    RoomExplains(s, e.sample);
    Joins(s, e.sample, Fate(0, false));
    Joins(Room(s), e.sample, Fate(0, true));
  }

  /** With a log that opens, or nothing to overtake, the report explains itself. */
  lemma ReportExplains(s: State, e: Event)
    requires Explains(s.fates, s) && |s.queue| < MAX_ITEMS && Samples(s, e) && !Overtakes(s, e)
    ensures var r := Report(s, e);
            && Explains(r.fates, r) && |r.queue| < MAX_ITEMS
            && (FewLost(s) && e.appendOpens ==> FewLost(r))
  {
    var d := AfterDrain(s, e);
    DrainExplains(s, DrainLength(s, e));
    EmptyOrOpens(s, e);
    hide AfterDrain, Explains, FewLost, ReportsEmpty, Enqueue;
    if ReportsEmpty(s, e) && e.freshResult >= 0 {
      Joins(d, e.sample, Fate(1, false));
    } else {
      EnqueueExplains(d, e);
    }
  }

  lemma EmptyOrOpens(s: State, e: Event)
    requires Samples(s, e) && !Overtakes(s, e)
    ensures ReportsEmpty(s, e) && e.freshResult >= 0 ==> AfterDrain(s, e).queue == []
  {}

  /** The file does not open, which counts as empty, so the fresh sample goes out before the queued ones. */
  predicate Overtakes(s: State, e: Event) {
    Samples(s, e) && e.connected && !e.drainOpens && s.queue != [] && e.freshResult >= 0
  }

  lemma Timing(s: State, r: State)
    requires r == s.(hasRemaining := r.hasRemaining, hasCharged := r.hasCharged, sinceLast := r.sinceLast)
    ensures Explains(s.fates, s) ==> Explains(r.fates, r)
    ensures FewLost(s) ==> FewLost(r)
  {}

  /** With a log that opens, no event breaks the order, however its publishes end. */
  lemma TimerKeepsOrder(s: State, e: Event)
    requires InOrder(s) && e.drainOpens && e.appendOpens
    ensures InOrder(OnTimer(s, e))
  {
    hide Explains, FewLost, Report, AfterDrain;
    if s.sinceLast > 30 {
      var r := if Samples(s, e) then Report(s, e) else AfterDrain(s, e);
      if Samples(s, e) {
        ReportExplains(s, e);
      } else {
        DrainKeepsOrder(s, e);
      }
      Timing(r, OnTimer(s, e));
    }
  }

  lemma DrainKeepsOrder(s: State, e: Event)
    requires InOrder(s)
    ensures InOrder(AfterDrain(s, e))
  {
    DrainExplains(s, DrainLength(s, e));
  }

  /** A drain cut short repeats at most the one sample that was published last. */
  lemma CrashedDrainKeepsOrder(s: State, e: Event, sent: nat, moved: bool)
    requires InOrder(s)
    ensures InOrder(CrashedDrain(s, e, sent, moved).(restarts := s.restarts + 1))
  {
    hide Advanced, SentOnce, Explains, FewLost, DrainLength;
    var k := if sent <= DrainLength(s, e) then sent else DrainLength(s, e);
    if moved || k == 0 {
      DrainExplains(s, k);
      Counted(Advanced(s, k));
    } else {
      DrainExplains(s, k - 1);
      SentAgain(Advanced(s, k - 1));
    }
  }

  lemma Counted(s: State)
    requires InOrder(s)
    ensures InOrder(s.(restarts := s.restarts + 1))
  {}

  /** The first queued sample is published, and the restart comes before the header moves past it. */
  lemma SentAgain(d: State)
    requires InOrder(d) && d.queue != []
    ensures InOrder(SentOnce(d).(restarts := d.restarts + 1))
  {
    OnFirstFacts(d.sampled, d.fates, 1, true);
    OnFirstOrder(d.sampled, d.fates, 1, true);
    assert Times(d.queue[0], 1) == [d.queue[0]];
    hide OnFirst, Sends, Queues, Repeats, FirstFirst;
  }

  lemma CutOff(s: State, e: Event, d: State)
    requires InOrder(d) && |d.cut| < d.restarts
    ensures InOrder(CutAway(s, e, d))
  {
    Joins(d, e.sample, Fate(0, false));
    hide Sends, Queues, Repeats, FirstFirst, Samples;
  }

  /** A restart anywhere in an event keeps the order: at most one sample more is repeated, and one more lost. */
  lemma RestartKeepsOrder(s: State, e: Event, at: Crash)
    requires InOrder(s) && e.drainOpens && e.appendOpens
    ensures InOrder(Restarted(s, e, at))
  {
    hide InOrder, OnTimer, Survives;
    SurvivorsInOrder(s, e, at);
    Unflagged(Survives(s, e, at).(restarts := s.restarts + 1));
  }

  lemma SurvivorsInOrder(s: State, e: Event, at: Crash)
    requires InOrder(s) && e.drainOpens && e.appendOpens
    ensures InOrder(Survives(s, e, at).(restarts := s.restarts + 1))
  {
    Counted(s);
    hide InOrder, AfterDrain, CrashedDrain, OnTimer, CutAway;
    match at {
      case Draining(sent, moved) =>
        CrashedDrainKeepsOrder(s, e, sent, moved);
        CrashedDrainFields(s, e, sent, moved);
        CutOffOnce(s, e, CrashedDrain(s, e, sent, moved));
      case Delivering =>
        DrainKeepsOrder(s, e);
        DrainFields(s, s, e);
        Counted(AfterDrain(s, e));
        CutOffOnce(s, e, AfterDrain(s, e));
      case Delivered =>
        TimerKeepsOrder(s, e);
        RestartsCount(s, e, at);
        Counted(OnTimer(s, e));
    }
  }

  lemma CutOffOnce(s: State, e: Event, d: State)
    requires InOrder(s) && d.cut == s.cut && InOrder(d.(restarts := s.restarts + 1))
    ensures InOrder(CutAway(s, e, d).(restarts := s.restarts + 1))
  {
    assert |s.cut| <= s.restarts;
    hide InOrder, CutAway;
    CutAwayRestarts(s, e, d);
    CutOff(s, e, d.(restarts := s.restarts + 1));
  }

  lemma CutAwayRestarts(s: State, e: Event, d: State)
    ensures CutAway(s, e, d).(restarts := s.restarts + 1) == CutAway(s, e, d.(restarts := s.restarts + 1))
  {
    hide Samples;
  }

  lemma CrashedDrainFields(s: State, e: Event, sent: nat, moved: bool)
    ensures var d := CrashedDrain(s, e, sent, moved); d.cut == s.cut && d.sampled == s.sampled
  {
    hide SentOut, OnFirst, DrainLength;
  }

  lemma Unflagged(r: State)
    requires InOrder(r)
    ensures InOrder(r.(hasRemaining := false, hasCharged := false, sinceLast := 3600))
  {
    Timing(r, r.(hasRemaining := false, hasCharged := false, sinceLast := 3600));
  }

  function Restarts(hs: seq<Happening>): nat {
    if hs == [] then 0 else Restarts(hs[..|hs| - 1]) + if hs[|hs| - 1].Restart? then 1 else 0
  }

  predicate Opens(h: Happening) {
    h.Timer? || h.Restart? ==> h.event.drainOpens && h.event.appendOpens
  }

  /** Over whole runs with restarts anywhere. */
  lemma {:induction false} RunKeepsOrder(hs: seq<Happening>)
    requires forall i | 0 <= i < |hs| :: Opens(hs[i])
    ensures InOrder(Run(hs)) && Run(hs).restarts == Restarts(hs)
  {
    if hs != [] {
      var s, h := Run(hs[..|hs| - 1]), hs[|hs| - 1];
      RunKeepsOrder(hs[..|hs| - 1]);
      assert Opens(h);
      hide OnTimer, Restarted;
      match h
      case Timer(e) =>
        TimerKeepsOrder(s, e);
        RestartsCount(s, e, Delivered);
      case Restart(e, at) =>
        RestartKeepsOrder(s, e, at);
        RestartsCount(s, e, at);
      case _ =>
        Timing(s, Next(s, h));
    }
  }

  lemma RestartsCount(s: State, e: Event, at: Crash)
    ensures Restarted(s, e, at).restarts == s.restarts + 1 && OnTimer(s, e).restarts == s.restarts
  {
    hide AfterDrain, Report, Survives, Samples;
    DrainFields(s, s, e);
    ReportFields(s, e);
  }

  /** Each sample as often as it was published or is queued. */
  function Shown(f: seq<Fate>): (r: seq<Fate>)
    ensures |r| == |f|
  {
    if f == [] then [] else [Fate(if f[0].waiting then f[0].out + 1 else f[0].out, false)] + Shown(f[1..])
  }

  /** Published and then queued, these are all samples in order, but for repetitions one behind the other. */
  lemma {:induction false} InOrderJoined(s: seq<Sample>, f: seq<Fate>)
    requires |s| == |f| && FirstFirst(f)
    ensures Sends(s, f) + Queues(s, f) == Sends(s, Shown(f))
  {
    hide FirstFirst, Times;
    if s != [] {
      TailFirst(f);
      InOrderJoined(s[1..], f[1..]);
      assert Shown(f)[1..] == Shown(f[1..]);
      var first, sent, queued := Times(s[0], f[0].out), Sends(s[1..], f[1..]), Queues(s[1..], f[1..]);
      if f[0].waiting {
        NoneSent(s[1..], f[1..]);
        OneMoreTime(s[0], f[0].out);
        Regroup(first, [s[0]], queued);
      } else {
        Regroup(first, sent, queued);
      }
    }
  }

  lemma OneMoreTime(x: Sample, n: nat)
    ensures Times(x, n + 1) == Times(x, n) + [x]
  {}

  lemma Regroup(a: seq<Sample>, b: seq<Sample>, c: seq<Sample>)
    ensures a + [] + (b + c) == a + b + c && a + (b + c) == a + b + c && a + b + ([] + c) == a + (b + c)
    ensures [] + c == c
  {}

  /** What the invariant says of a run: order, repetitions and losses. */
  lemma RunPublishesInOrder(hs: seq<Happening>)
    requires forall i | 0 <= i < |hs| :: Opens(hs[i])
    ensures var s := Run(hs);
            && |s.fates| == |s.sampled|
            && s.published + s.queue == Sends(s.sampled, Shown(s.fates))
            && Repeats(s.fates) <= Restarts(hs) && |s.cut| <= Restarts(hs)
            && forall i | 0 <= i < |s.fates| && s.fates[i].Lost() :: i in s.cut || i + MAX_ITEMS - 1 < |s.sampled|
  {
    RunKeepsOrder(hs);
    hide Run, Restarts, Sends, Queues, Repeats, Shown;
    InOrderJoined(Run(hs).sampled, Run(hs).fates);
  }

  // ----- which samples are taken

  /** Seconds since the last event that was not redundant; a boot counts as an hour. */
  function Elapsed(hs: seq<Happening>): nat {
    if hs == [] then 3600
    else
      var before := Elapsed(hs[..|hs| - 1]);
      match hs[|hs| - 1]
      case Second => before + 1
      case Restart(_, _) => 3600
      case Timer(_) => if before > 30 then 0 else before
      case ChargingEnded => before
  }

  /** The last event saw the car charging, or charging has ended since: a remainder is still to be reported. */
  predicate Owed(hs: seq<Happening>) {
    if hs == [] then false
    else
      var front := hs[..|hs| - 1];
      match hs[|hs| - 1]
      case Second => Owed(front)
      case Restart(_, _) => false
      case Timer(e) => if Elapsed(front) > 30 then e.charging else Owed(front)
      case ChargingEnded => true
  }

  /** The samples of all events that are not redundant and find the car charging or a remainder to report. */
  function Taken(hs: seq<Happening>): seq<Sample> {
    if hs == [] then []
    else
      var front, h := hs[..|hs| - 1], hs[|hs| - 1];
      if (h.Timer? || h.Restart?) && Elapsed(front) > 30 && (h.event.charging || Owed(front))
      then Taken(front) + [h.event.sample] else Taken(front)
  }

  /** An event adds its sample or none, and leaves the flags like this. */
  lemma TimerTakes(s: State, e: Event)
    ensures var r := OnTimer(s, e);
            r.sampled == (if s.sinceLast > 30 && (e.charging || s.hasCharged || s.hasRemaining)
                          then s.sampled + [e.sample] else s.sampled)
    ensures var r := OnTimer(s, e);
            if s.sinceLast > 30 then r.sinceLast == 0 && (r.hasRemaining || r.hasCharged <==> e.charging) else r == s
  {
    hide AfterDrain, Report;
    DrainFields(s, s, e);
    ReportFields(s, e);
  }

  lemma RestartTakes(s: State, e: Event, at: Crash)
    ensures Restarted(s, e, at).sampled
            == if s.sinceLast > 30 && (e.charging || s.hasCharged || s.hasRemaining)
               then s.sampled + [e.sample] else s.sampled
  {
    hide AfterDrain, OnTimer, CrashedDrain;
    match at
    case Draining(sent, moved) => CrashedDrainFields(s, e, sent, moved);
    case Delivering => DrainFields(s, s, e);
    case Delivered => TimerTakes(s, e);
  }

  /** Whatever happens, the samples taken are exactly these. */
  lemma {:induction false} SampledExactly(hs: seq<Happening>)
    ensures var s := Run(hs);
            && s.sampled == Taken(hs)
            && s.sinceLast == Elapsed(hs) && (s.hasCharged || s.hasRemaining <==> Owed(hs))
  {
    if hs != [] {
      var s, h := Run(hs[..|hs| - 1]), hs[|hs| - 1];
      SampledExactly(hs[..|hs| - 1]);
      hide OnTimer, Survives;
      match h
      case Timer(e) => TimerTakes(s, e);
      case Restart(e, at) => RestartTakes(s, e, at);
      case _ =>
    }
  }

  lemma TakenSnoc(hs: seq<Happening>, h: Happening)
    ensures Taken(hs + [h])
            == if (h.Timer? || h.Restart?) && Elapsed(hs) > 30 && (h.event.charging || Owed(hs))
               then Taken(hs) + [h.event.sample] else Taken(hs)
    ensures Owed(hs + [h]) == match h
                              case Second => Owed(hs)
                              case Restart(_, _) => false
                              case Timer(e) => if Elapsed(hs) > 30 then e.charging else Owed(hs)
                              case ChargingEnded => true
    ensures h.ChargingEnded? ==> Elapsed(hs + [h]) == Elapsed(hs)
  {
    assert (hs + [h])[..|hs|] == hs;
  }

  /** Neither charging nor its end. */
  predicate Idles(h: Happening) {
    !h.ChargingEnded? && (h.Timer? || h.Restart? ==> !h.event.charging)
  }

  lemma {:induction false} NoneTaken(hs: seq<Happening>, more: seq<Happening>)
    requires !Owed(hs) && forall h | h in more :: Idles(h)
    ensures Taken(hs + more) == Taken(hs) && !Owed(hs + more)
  {
    if more == [] {
      assert hs + more == hs;
    } else {
      var front, h := more[..|more| - 1], more[|more| - 1];
      assert hs + more == hs + front + [h] && Idles(h);
      NoneTaken(hs, front);
      TakenSnoc(hs + front, h);
    }
  }

  /** After charging has ended, the next event that is not redundant takes one sample, and none is taken any more. */
  lemma RemainderTakenOnce(hs: seq<Happening>, e: Event, more: seq<Happening>)
    requires Elapsed(hs) > 30 && !e.charging && forall h | h in more :: Idles(h)
    ensures Run(hs + [ChargingEnded, Timer(e)] + more).sampled == Run(hs).sampled + [e.sample]
  {
    var ended := hs + [ChargingEnded];
    assert hs + [ChargingEnded, Timer(e)] == ended + [Timer(e)];
    TakenSnoc(hs, ChargingEnded);
    TakenSnoc(ended, Timer(e));
    NoneTaken(ended + [Timer(e)], more);
    hide Run, Taken, Owed, Elapsed;
    SampledExactly(hs);
    SampledExactly(ended + [Timer(e)] + more);
  }

  // ----- what becomes of them

  lemma {:induction false} SentStops(q: seq<Sample>, i: nat, result: nat -> int)
    requires i <= |q|
    ensures var n := Sent(q, i, result);
            (forall k | i <= k < n :: result(k) >= 0) && (n < |q| ==> result(n) < 0)
    decreases |q| - i
  {
    if i < |q| && result(i) >= 0 {
      SentStops(q, i + 1, result);
    }
  }

  /**
    What an event publishes and leaves queued: offline nothing goes out. Online the queued samples go out up to the
    first failure; when none is left the new sample follows. What does not go out is queued if the file opens.
   */
  lemma TimerDelivers(s: State, e: Event) returns (n: nat)
    requires s.sinceLast > 30 && |s.queue| < MAX_ITEMS
    ensures n <= |s.queue| && (!(e.connected && e.drainOpens) ==> n == 0)
    ensures e.connected && e.drainOpens ==>
              (forall k | 0 <= k < n :: e.drainResult(k) >= 0) && (n < |s.queue| ==> e.drainResult(n) < 0)
    ensures var r, taken := OnTimer(s, e), e.charging || s.hasCharged || s.hasRemaining;
            var online := e.connected && (e.drainOpens ==> n == |s.queue|) && e.freshResult >= 0;
            && r.published == s.published + s.queue[..n] + (if taken && online then [e.sample] else [])
            && r.queue == if !taken || online || !e.appendOpens then s.queue[n..] else Pushed(s.queue[n..], e.sample)
  {
    n := DrainLength(s, e);
    SentStops(s.queue, 0, e.drainResult);
    ReportFields(s, e);
    hide Sent, SentOut, Pushed, Report;
    assert s.published + s.queue[..n] + [] == s.published + s.queue[..n];
  }

  /** Online, with every publish successful, nothing stays behind. */
  lemma OnlineDeliversAll(s: State, e: Event)
    requires s.sinceLast > 30 && |s.queue| < MAX_ITEMS && e.connected && e.drainOpens && e.freshResult >= 0
    requires forall n: nat :: e.drainResult(n) >= 0
    ensures var r, taken := OnTimer(s, e), e.charging || s.hasCharged || s.hasRemaining;
            r.queue == [] && r.published == s.published + s.queue + if taken then [e.sample] else []
  {
    hide OnTimer;
    var n := TimerDelivers(s, e);
    assert s.queue[..|s.queue|] == s.queue;
  }

  // ----- when the log does not open

  /** Some fates explain what is published and queued. */
  ghost predicate Ordered(s: State) {
    exists f: seq<Fate> :: Explains(f, s)
  }

  ghost predicate Increasing(s: seq<Sample>) {
    forall i, j | 0 <= i < j < |s| :: s[i].timestamp < s[j].timestamp
  }

  lemma {:induction false} SentFrom(s: seq<Sample>, f: seq<Fate>, x: Sample) returns (i: nat)
    requires |s| == |f| && x in Sends(s, f)
    ensures i < |s| && s[i] == x && f[i].out > 0
  {
    if x in Times(s[0], f[0].out) {
      i := 0;
    } else {
      i := SentFrom(s[1..], f[1..], x);
      i := i + 1;
    }
  }

  lemma {:induction false} QueuedFrom(s: seq<Sample>, f: seq<Fate>, x: Sample) returns (i: nat)
    requires |s| == |f| && x in Queues(s, f)
    ensures i < |s| && s[i] == x && f[i].waiting
  {
    if f[0].waiting && x == s[0] {
      i := 0;
    } else {
      i := QueuedFrom(s[1..], f[1..], x);
      i := i + 1;
    }
  }

  lemma OvertakingLosesOrder(s: State, e: Event)
    requires Explains(s.fates, s) && Increasing(s.sampled + [e.sample]) && Overtakes(s, e)
    ensures !Ordered(OnTimer(s, e))
  {
    var r := OnTimer(s, e);
    assert s.queue[0..] == s.queue && s.published + [] == s.published;
    forall f: seq<Fate> ensures !Explains(f, r) {
      NotExplained(s, e.sample, r, f);
    }
  }

  lemma NotExplained(s: State, x: Sample, r: State, f: seq<Fate>)
    requires Explains(s.fates, s) && Increasing(s.sampled + [x]) && s.queue != []
    requires r.published == s.published + [x] && r.queue == s.queue && r.sampled == s.sampled + [x]
    ensures !Explains(f, r)
  {
    var k := QueuedFrom(s.sampled, s.fates, s.queue[0]);
    assert r.published[|s.published|] == x == r.sampled[|s.sampled|] && r.sampled[k] == s.queue[0] == r.queue[0];
    if Explains(f, r) {
      var i := SentFrom(r.sampled, f, x);
      var j := QueuedFrom(r.sampled, f, s.queue[0]);
    }
  }

  /** For samples with distinct times, an event breaks the order exactly when it overtakes. */
  lemma OrderLostExactlyByOvertaking(s: State, e: Event)
    requires Explains(s.fates, s) && |s.queue| < MAX_ITEMS
    requires Increasing(s.sampled + [e.sample])
    ensures Ordered(OnTimer(s, e)) <==> !Overtakes(s, e)
  {
    if Overtakes(s, e) {
      OvertakingLosesOrder(s, e);
    } else {
      hide Explains, Report, AfterDrain;
      var r := if Samples(s, e) then Report(s, e) else AfterDrain(s, e);
      if Samples(s, e) {
        ReportExplains(s, e);
      } else {
        DrainedExplains(s, e);
      }
      if s.sinceLast > 30 {
        Timing(r, OnTimer(s, e));
      }
      assert Explains(OnTimer(s, e).fates, OnTimer(s, e));
    }
  }

  lemma DrainedExplains(s: State, e: Event)
    requires Explains(s.fates, s)
    ensures Explains(AfterDrain(s, e).fates, AfterDrain(s, e))
  {
    DrainExplains(s, DrainLength(s, e));
  }

  lemma RunSnoc(hs: seq<Happening>, h: Happening)
    ensures Run(hs + [h]) == Next(Run(hs), h)
  {
    assert (hs + [h])[..|hs|] == hs;
  }

  lemma {:induction false} Wait(hs: seq<Happening>, n: nat) returns (r: seq<Happening>)
    ensures Run(r) == Run(hs).(sinceLast := Run(hs).sinceLast + n) && Restarts(r) == Restarts(hs)
  {
    if n == 0 {
      r := hs;
    } else {
      var front := Wait(hs, n - 1);
      r := front + [Second];
      RunSnoc(front, Second);
    }
  }

  /**
    From the start: a sample is queued offline; half a minute later the file does not open, and the
    next overtakes it.
   */
  lemma OvertakingRun(a: Sample, b: Sample, drainResult: nat -> int) returns (hs: seq<Happening>)
    requires a.timestamp < b.timestamp
    ensures var e := Event(true, true, false, true, b, drainResult, 0);
            Overtakes(Run(hs), e) && !Ordered(Run(hs + [Timer(e)]))
  {
    var first := Timer(Event(true, false, true, true, a, drainResult, 0));
    hs := Wait([first], 31);
    QueuedOffline(a, drainResult);
    var s := Run(hs);
    var e := Event(true, true, false, true, b, drainResult, 0);
    assert [a] + [b] == [a, b];
    hide Run, Ordered, Explains, OnTimer;
    OvertakingLosesOrder(s, e);
    RunSnoc(hs, Timer(e));
  }

  /** From the start: a sample is queued offline, and a restart comes between its publish and the move of the header. */
  lemma RestartRepeats(a: Sample) returns (hs: seq<Happening>)
    ensures Restarts(hs) == 1 && Run(hs).published == Run(hs).queue == [a]
  {
    var first := Timer(Event(true, false, true, true, a, OK, 0));
    var cut := Restart(Event(true, true, true, true, a, OK, 0), Draining(1, false));
    var before := Wait([first], 31);
    hs := before + [cut];
    QueuedOffline(a, OK);
    RunSnoc(before, cut);
    assert hs[..|before|] == before && [first][..0] == [] && Restarts([first]) == 0;
    hide Run, Restarted;
    PublishedAndQueued(Run(before), cut.event, a);
  }

  const OK: nat -> int := n => 0

  lemma PublishedAndQueued(s: State, e: Event, a: Sample)
    requires s.queue == [a] && s.published == [] && s.sinceLast == 31
    requires e.connected && e.drainOpens && e.drainResult == OK
    ensures var r := Restarted(s, e, Draining(1, false)); r.published == r.queue == [a]
  {
    hide OnFirst, SentOut;
    assert Sent([a], 1, OK) == 1 && Sent([a], 0, OK) == 1;
    assert [a][..0] == [] && [a][0..] == [a];
  }

  lemma QueuedOffline(a: Sample, drainResult: nat -> int)
    ensures var s := Run([Timer(Event(true, false, true, true, a, drainResult, 0))]);
            && s == State([a], [Fate(0, true)], {}, 0, [], [a], true, false, 0)
            && forall n: nat :: Explains(s.fates, s.(sinceLast := n))
  {
    var first := Timer(Event(true, false, true, true, a, drainResult, 0));
    RunSnoc([], first);
    assert [] + [first] == [first];
    Snoc([], [], a, Fate(0, true));
    var none: seq<Sample> := [];
    assert [] + [a] == [a] && [] + [Fate(0, true)] == [Fate(0, true)] && none[0..] == [] && none + none[..0] == [];
    assert Times(a, 0) == [];
  }

  // ----- the code

  function Lines(crc: Checksum, q: seq<Sample>): seq<Line> {
    seq(|q|, i requires 0 <= i < |q| => Line(q[i], crc.ofLine(q[i])))
  }

  /** On an undamaged queue the drain loop publishes samples until a publish fails. */
  lemma {:induction false} DrainSends(crc: Checksum, q: seq<Sample>, i: nat, result: nat -> int)
    requires i <= |q|
    ensures var n := Sent(q, i, result);
            DrainFrom(crc, Lines(crc, q), i, Drained(Lines(crc, q)[..i], i, false), result)
            == Drained(Lines(crc, q)[..n], n, n == |q|)
    decreases |q| - i
  {
    var ls := Lines(crc, q);
    if i < |q| && result(i) >= 0 {
      assert ls[..i] + [ls[i]] == ls[..i + 1];
      DrainSends(crc, q, i + 1, result);
    }
  }

  function SamplesOf(ls: seq<Line>): seq<Sample> {
    seq(|ls|, i requires 0 <= i < |ls| => ls[i].sample)
  }

  lemma LinesFacts(crc: Checksum, q: seq<Sample>, n: nat)
    requires n <= |q|
    ensures |Lines(crc, q)| == |q| && Lines(crc, q)[..0] == []
    ensures SamplesOf(Lines(crc, q)[..n]) == q[..n]
    ensures Lines(crc, q)[n..] == Lines(crc, q[n..])
    ensures Lines(crc, []) == [] && SamplesOf([]) == []
  {}

  lemma DrainOfSamples(crc: Checksum, q: seq<Sample>, result: nat -> int)
    ensures var n := Sent(q, 0, result);
            var d := Drain(crc, Lines(crc, q), result);
            && d.moved == n <= |q| && d.finished == (n == |q|)
            && SamplesOf(d.published) == q[..n]
            && |Lines(crc, q)| == |q|
            && Lines(crc, q)[n..] == Lines(crc, q[n..])
            && Lines(crc, []) == [] && SamplesOf([]) == []
  {
    hide Lines, SamplesOf, Sent, DrainFrom;
    LinesFacts(crc, q, Sent(q, 0, result));
    DrainSends(crc, q, 0, result);
  }

  lemma ReportFields(s: State, e: Event)
    ensures var d := AfterDrain(s, e);
            var goesOut := ReportsEmpty(s, e) && e.freshResult >= 0;
            Report(s, e) == d.(sampled := s.sampled + [e.sample],
                               fates := Report(s, e).fates,
                               published := if goesOut then d.published + [e.sample] else d.published,
                               queue := if goesOut || !e.appendOpens then d.queue else Pushed(d.queue, e.sample))
  {
  }

  /** The drain depends on nothing but the queue. */
  lemma DrainFields(s: State, t: State, e: Event)
    requires t == s.(sinceLast := t.sinceLast, hasRemaining := t.hasRemaining, hasCharged := t.hasCharged)
    ensures var d := AfterDrain(s, e);
            AfterDrain(t, e) == d.(sinceLast := t.sinceLast, hasRemaining := t.hasRemaining, hasCharged := t.hasCharged)
    ensures var d := AfterDrain(s, e); d.sampled == s.sampled && d.cut == s.cut && d.restarts == s.restarts
    ensures ReportsEmpty(t, e) == ReportsEmpty(s, e)
  {}

  // ----- the crash points of the log are the restarts of the run

  lemma LinesSnoc(crc: Checksum, q: seq<Sample>)
    requires q != []
    ensures var ls := Lines(crc, q);
            |ls| == |q| && crc.LineValid(ls[|q| - 1]) && ls[..|q| - 1] == Lines(crc, q[..|q| - 1])
  {}

  lemma {:induction false} LinesValid(crc: Checksum, q: seq<Sample>)
    ensures ValidLines(crc, Lines(crc, q)) == Lines(crc, q) && |Lines(crc, q)| == |q|
  {
    if q != [] {
      LinesSnoc(crc, q);
      LinesValid(crc, q[..|q| - 1]);
      hide Lines;
    }
  }

  lemma {:induction false} AllSent(q: seq<Sample>, i: nat, result: nat -> int)
    requires i <= |q| && forall n: nat :: result(n) >= 0
    ensures Sent(q, i, result) == |q|
    decreases |q| - i
  {
    if i < |q| {
      AllSent(q, i + 1, result);
    }
  }

  /** A crash point of the drain, in samples. */
  lemma ResentSamples(crc: Checksum, q: seq<Sample>, c: CrashPoint)
    requires AtMostOneResent(crc, Lines(crc, q), c)
    ensures var sent := |c.published|;
            && c.moved <= sent <= c.moved + 1 && sent <= |q|
            && SamplesOf(c.published) == q[..sent]
            && c.disk.Queue(crc) == Lines(crc, q[c.moved..])
  {
    hide ValidLines, Lines, SamplesOf;
    var sent, moved := |c.published|, c.moved;
    LinesValid(crc, q);
    LinesValid(crc, q[..moved]);
    LinesPrefix(crc, q, moved);
    assert c.published == Lines(crc, q)[..sent];
    LinesFacts(crc, q, sent);
    LinesFacts(crc, q, moved);
  }

  /** Whatever a crash during the drain leaves on disk is one of the restarts the run lemma speaks of. */
  lemma DrainCrashIsRestart(crc: Checksum, s: State, e: Event, c: CrashPoint) returns (at: Crash)
    requires s.sinceLast > 30 && e.connected && e.drainOpens && forall n: nat :: e.drainResult(n) >= 0
    requires AtMostOneResent(crc, Lines(crc, s.queue), c)
    ensures var r := Restarted(s, e, at);
            r.published == s.published + SamplesOf(c.published) && c.disk.Queue(crc) == Lines(crc, r.queue)
  {
    hide Lines, SamplesOf, Sent, SentOut, OnFirst, AtMostOneResent;
    var sent := |c.published|;
    at := Draining(sent, sent == c.moved);
    ResentSamples(crc, s.queue, c);
    AllSent(s.queue, 0, e.drainResult);
    if sent > c.moved {
      assert s.published + s.queue[..sent - 1] + [s.queue[sent - 1]] == s.published + s.queue[..sent];
    }
  }

  lemma LinesPrefix(crc: Checksum, q: seq<Sample>, n: nat)
    requires n <= |q|
    ensures Lines(crc, q)[..n] == Lines(crc, q[..n])
  {}

  /** And so is what a crash leaves on disk while the fresh sample is appended. */
  lemma AppendCrashIsRestart(crc: Checksum, s: State, e: Event, disk: Disk) returns (at: Crash)
    requires Samples(s, e) && e.appendOpens && !(ReportsEmpty(s, e) && e.freshResult >= 0)
    requires var q := AfterDrain(s, e).queue;
             |q| < MAX_ITEMS && OldOrNew(crc, Lines(crc, q), Lines(crc, Pushed(q, e.sample)), disk)
    ensures var r := Restarted(s, e, at);
            r.published == AfterDrain(s, e).published && disk.Queue(crc) == Lines(crc, r.queue)
  {
    hide AfterDrain, Lines, OnFirst, ReportsEmpty;
    at := if disk.Queue(crc) == Lines(crc, AfterDrain(s, e).queue) then Delivering else Delivered;
  }

  class MeterReporter {
    const crc: Checksum
    const log: OfflineLog
    var hasRemainingEnergy: bool
    var hasCharged: bool
    var secSinceLastMessage: nat
    /** What reached the cloud. */
    var published: seq<Sample>
    ghost var queued: seq<Sample>
    ghost var sampled: seq<Sample>
    ghost var fates: seq<Fate>
    ghost var cut: set<nat>
    ghost var restarts: nat

    ghost function Abstract(): State
      reads this
    {
      State(sampled, fates, cut, restarts, published, queued, hasRemainingEnergy, hasCharged, secSinceLastMessage)
    }

    ghost predicate Valid()
      reads this, log, log.slots
    {
      log.crc == crc && log.Valid() && log.Queue() == Lines(crc, queued)
    }

    constructor (crc: Checksum, blank: Line)
      ensures Valid() && fresh(log) && fresh(log.slots) && Abstract() == INITIAL
    {
      this.crc := crc;
      log := new OfflineLog(crc, blank);
      hasRemainingEnergy, hasCharged, secSinceLastMessage := false, false, 3600;
      published, queued, sampled, fates, cut, restarts := [], [], [], [], {}, 0;
    }

    /** offline_log_attempt_send */
    method AttemptSend(opens: bool, result: nat -> int) returns (status: int)
      requires Valid()
      modifies this`published, this`queued, log
      ensures Valid()
      ensures var n := if opens then Sent(old(queued), 0, result) else 0;
              && published == old(published) + old(queued)[..n]
              && queued == old(queued)[n..]
              && (status == 0) == (opens ==> queued == [])
    {
      DrainOfSamples(crc, queued, result);
      hide Lines, SamplesOf, Sent, Drain;
      ghost var n := if opens then Sent(queued, 0, result) else 0;
      var sent;
      status, sent := log.AttemptSend(opens, result);
      published := published + SamplesOf(sent);
      queued := queued[n..];
    }

    /** offline_log_append_energy */
    method Append(sample: Sample, opens: bool)
      requires Valid() && |queued| < MAX_ITEMS
      modifies this`queued, log, log.slots
      ensures Valid()
      ensures queued == if opens then Pushed(old(queued), sample) else old(queued)
    {
      log.AppendEnergy(sample, opens);
      queued := if opens then Pushed(queued, sample) else queued;
    }

    /** The sample of this event goes out when the log is reported empty, and is queued otherwise. */
    method Deliver(sample: Sample, logEmpty: bool, opens: bool, freshResult: int)
      requires Valid() && |queued| < MAX_ITEMS
      modifies this`published, this`queued, log, log.slots
      ensures Valid()
      ensures var goesOut := logEmpty && freshResult >= 0;
              && published == (if goesOut then old(published) + [sample] else old(published))
              && queued == if goesOut || !opens then old(queued) else Pushed(old(queued), sample)
    {
      if logEmpty {
        if freshResult < 0 {
          Append(sample, opens);
        } else {
          published := published + [sample];
        }
      } else {
        Append(sample, opens);
      }
    }

    /** The drain of this event, if there is a connection. */
    method DrainLog(connected: bool, opens: bool, drainResult: nat -> int, ghost e: Event) returns (logEmpty: bool)
      requires Valid() && |queued| < MAX_ITEMS
      requires e.connected == connected && e.drainOpens == opens && e.drainResult == drainResult
      modifies this`published, this`queued, this`fates, log
      ensures Valid() && |queued| < MAX_ITEMS
      ensures Abstract() == AfterDrain(old(Abstract()), e)
      ensures logEmpty == ReportsEmpty(old(Abstract()), e)
    {
      hide Lines, Sent, SentOut;
      fates := AfterDrain(Abstract(), e).fates;
      logEmpty := false;
      if connected {
        var status := AttemptSend(opens, drainResult);
        logEmpty := status == 0;
      }
    }

    /** The sample of this event, after the drain has left `d`. */
    method ReportSample(sample: Sample, logEmpty: bool, opens: bool, freshResult: int, ghost s: State, ghost e: Event)
      requires Valid() && |queued| < MAX_ITEMS && logEmpty == ReportsEmpty(s, e)
      requires var d := AfterDrain(s, e);
               published == d.published && queued == d.queue && sampled == s.sampled && fates == d.fates
      requires e.sample == sample && e.appendOpens == opens && e.freshResult == freshResult
      modifies this`published, this`queued, this`sampled, this`fates, log, log.slots
      ensures Valid()
      ensures var r := Report(s, e);
              published == r.published && queued == r.queue && sampled == r.sampled && fates == r.fates
    {
      ReportFields(s, e);
      hide Lines, Pushed, AfterDrain, ReportsEmpty, Report;
      sampled := sampled + [sample];
      fates := Report(s, e).fates;
      Deliver(sample, logEmpty, opens, freshResult);
    }

    /** on_send_signed_meter_value; `sample` is the reading taken now, `freshResult` the result of publishing it. */
    method OnSendSignedMeterValue(stateCharging: bool, connected: bool, drainOpens: bool, appendOpens: bool,
                                  sample: Sample,
                                  drainResult: nat -> int, freshResult: int)
      requires Valid() && |queued| < MAX_ITEMS
      modifies this, log, log.slots
      ensures Valid()
      ensures Abstract() == OnTimer(old(Abstract()),
                                    Event(stateCharging, connected, drainOpens, appendOpens, sample, drainResult,
                                          freshResult))
    {
      hide Lines, Sent, OnFirst, Pushed, AfterDrain, ReportsEmpty, Report;
      ghost var s := Abstract();
      ghost var e := Event(stateCharging, connected, drainOpens, appendOpens, sample, drainResult, freshResult);
      if secSinceLastMessage <= 30 {
        return;
      }
      DrainFields(s, s.(sinceLast := 0, hasRemaining := s.hasRemaining || stateCharging || s.hasCharged,
                        hasCharged := s.hasCharged && !stateCharging && !s.hasCharged), e);
      secSinceLastMessage := 0;
      if stateCharging || hasCharged {
        hasRemainingEnergy := true;
        hasCharged := false;
      }
      var logEmpty := DrainLog(connected, drainOpens, drainResult, e);
      if stateCharging || hasRemainingEnergy {
        ReportFields(s, e);
        ReportSample(sample, logEmpty, appendOpens, freshResult, s, e);
      }
      if !stateCharging && hasRemainingEnergy {
        hasRemainingEnergy := false;
      }
    }
  }
}
