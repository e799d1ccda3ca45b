/** The OCPP 1.6 connector status and its transactions: main/sessionHandler.c, run once a second. */
module OcppStatus {
  datatype Status =
    | Available
    | Preparing
    | Charging
    | SuspendedEv
    | SuspendedEvse
    | Finishing
    | Reserved
    | Unavailable
    | Faulted

  /** What the MCU reports as its operating mode. */
  datatype Mode = ModeUninitialized | ModeDisconnected | ModeRequesting | ModeActive | ModeCharging | ModeStopping
                | ModePaused | ModeStopped | ModeWarning | ModeUnknown

  datatype Pending = NoChange | ToOperative | ToInoperative

  /** A warning mask of the MCU as the set of its bit numbers. */
  type Warnings = set<nat>

  /** The EV communication errors (bits 6, 8, 23) and "disabled" (bit 11); every other warning faults the connector. */
  const HARMLESS: Warnings := {6, 8, 11, 23}

  predicate Faulting(w: Warnings) { !(w <= HARMLESS) }

  datatype Fault = Fault(active: bool, exit: Status, notified: Warnings)

  datatype Service = Service(enabled: bool, operative: bool, registered: bool, pending: Pending)

  datatype User = User(authorized: bool, awaited: bool, reservation: bool)

  /** The variables of sessionHandler.c that decide about status and transaction. */
  datatype Point = Point(status: Status, fault: Fault, service: Service, user: User,
                         finishing: bool, resetting: bool, transaction: bool, startedTwice: bool)

  /**
    What one second sees: the MCU, whether the car holds back, the warnings, whether an MCU write is
    acknowledged, and whether OCPP is the configured session controller.
   */
  datatype Input = Input(mode: Mode, carHoldsBack: bool, warnings: Warnings, ack: bool, controlled: bool)

  predicate InSession(s: Status) { s.Charging? || s.SuspendedEv? || s.SuspendedEvse? }

  // ----- one tick

  /** get_ocpp_state when no fault is in the way and the connector is in service. */
  function OperatingState(p: Point, mode: Mode, carHoldsBack: bool): Status {
    var reserved := p.user.reservation && !p.user.authorized;
    match mode
    case ModeUninitialized => Unavailable
    case ModeDisconnected =>
      if reserved then Reserved
      else if !p.user.authorized && !p.user.awaited then Available
      else if InSession(p.status) then Finishing
      else Preparing
    case ModeRequesting =>
      if reserved then Reserved
      else if p.user.authorized && p.transaction then SuspendedEvse
      else if p.finishing || InSession(p.status) then Finishing
      else Preparing
    case ModeActive => if reserved then Reserved else Available
    case ModeCharging => if carHoldsBack then SuspendedEv else Charging
    case ModeStopping => Finishing
    case ModePaused => SuspendedEvse
    case ModeStopped => Available
    case ModeWarning => Faulted
    case ModeUnknown => Faulted
  }

  predicate InService(s: Service) { s.enabled && s.operative && s.registered }

  function GetState(p: Point, mode: Mode, carHoldsBack: bool): Status {
    if p.fault.active then Faulted
    else if p.status == Faulted then p.fault.exit
    else if p.resetting then Finishing
    else if !InService(p.service) then Unavailable
    else OperatingState(p, mode, carHoldsBack)
  }

  predicate NewFault(p: Point, i: Input) {
    p.service.registered && Faulting(i.warnings - p.fault.notified)
  }

  function NotifyWarnings(p: Point, i: Input): Point {
    if NewFault(p, i) then p.(fault := Fault(true, p.status, i.warnings))
    else if p.service.registered then p.(fault := p.fault.(notified := i.warnings))
    else p
  }

  /** change_availability succeeds unless the MCU has to be told and does not acknowledge. */
  predicate ChangeSucceeds(s: Service, operative: bool, ack: bool) {
    s.operative == operative || (operative && !s.enabled) || ack
  }

  /** Whether a scheduled change of availability takes effect on the way to `s`. */
  predicate Changes(p: Point, s: Status, i: Input) {
    match p.service.pending
    case NoChange => false
    case ToOperative => ChangeSucceeds(p.service, true, i.ack)
    case ToInoperative => s == Available && ChangeSucceeds(p.service, false, i.ack)
  }

  function Changed(p: Point): Point {
    p.(service := p.service.(operative := p.service.pending == ToOperative))
  }

  /** The status after a scheduled change of availability. */
  function ChangedStatus(p: Point, i: Input): Status {
    if p.service.pending == ToOperative then GetState(Changed(p), i.mode, i.carHoldsBack) else Unavailable
  }

  predicate Starts(from: Status, to: Status) {
    InSession(to) && (from == Available || from == Preparing)
  }

  predicate Stops(from: Status, to: Status) {
    || (InSession(from) && (to == Available || to == Finishing))
    || (to == Unavailable && (from == Available || from == Charging))
  }

  /** The effects of entering a status: which transactions start and stop, and what is forgotten. */
  function Enter(p: Point, to: Status): Point {
    var starts, stops := Starts(p.status, to), Stops(p.status, to);
    p.(status := to,
       transaction := starts || (p.transaction && !stops),
       startedTwice := p.startedTwice || (starts && p.transaction),
       user := p.user.(authorized := p.user.authorized && to != Finishing && !stops,
                       reservation := p.user.reservation && to != Finishing && !starts),
       finishing := p.finishing || to == Finishing)
  }

  /** handle_state_transition */
  function Transition(p: Point, s: Status, i: Input): Point {
    var q := if p.status == Finishing && s != Faulted then p.(finishing := false) else p;
    if Changes(q, s, i) then Enter(Changed(q), ChangedStatus(q, i)) else Enter(q, s)
  }

  function Observed(p: Point, i: Input): Status {
    if NewFault(p, i) then Faulted else GetState(p, i.mode, i.carHoldsBack)
  }

  /** One second under OCPP control. */
  function Handled(p: Point, i: Input): Point {
    var q, s := NotifyWarnings(p, i), Observed(p, i);
    if s != p.status then Transition(q, s, i)
    else if s == Faulted && !Faulting(q.fault.notified) then q.(fault := q.fault.(active := false))
    else q
  }

  /** An open transaction keeps OCPP in control; without one, another controller resets the status. */
  predicate Leaves(p: Point, i: Input) {
    !i.controlled && !p.transaction
  }

  function Tick(p: Point, i: Input): Point {
    if Leaves(p, i) then p.(status := Unavailable) else Handled(p, i)
  }

  /** What the rest of the program, the user and the central system change between ticks. */
  datatype Happening =
    | Second(input: Input)
    | Authorization(authorized: bool, awaited: bool)
    | SessionReset(resetting: bool)
    | FinishingSeen
    | Reservation(reservation: bool)
    | AvailabilityRequest(pending: Pending)
    | Availability(operative: bool)
    | Registration(registered: bool)
    | PortalEnable(enabled: bool)

  function Next(p: Point, h: Happening): Point {
    match h
    case Second(i) => Tick(p, i)
    case Authorization(a, w) => p.(user := p.user.(authorized := a, awaited := w))
    case SessionReset(r) => p.(resetting := r)
    case FinishingSeen => p.(finishing := false)
    case Reservation(r) => p.(user := p.user.(reservation := r))
    case AvailabilityRequest(c) => p.(service := p.service.(pending := c))
    case Availability(o) => p.(service := p.service.(operative := o))
    case Registration(r) => p.(service := p.service.(registered := r))
    case PortalEnable(e) => p.(service := p.service.(enabled := e))
  }

  const BOOT := Point(Unavailable, Fault(false, Unavailable, {}), Service(true, true, false, NoChange),
                      User(false, false, false), false, false, false, false)

  function Run(p: Point, hs: seq<Happening>): Point {
    if hs == [] then p else Next(Run(p, hs[..|hs| - 1]), hs[|hs| - 1])
  }

  // ----- transactions

  /** Where an open transaction belongs: a session, or a fault that returns to one or to nowhere. */
  predicate Holds(s: Status, exit: Status) {
    InSession(s) || (s == Faulted && (InSession(exit) || exit == Faulted))
  }

  ghost predicate Sound(p: Point) {
    && (p.transaction ==> Holds(p.status, p.fault.exit))
    && (p.fault.active ==> p.status == Faulted || (p.status == Unavailable && !p.transaction))
    && !p.startedTwice
  }

  predicate Reserves(u: User) { u.reservation && !u.authorized }

  /** Whether the point is in service in this second, also by a scheduled change that takes effect now. */
  predicate Serves(s: Service, ack: bool) {
    s.enabled && s.registered && (s.operative || (s.pending == ToOperative && ack))
  }

  /** The modes in which a point in service is available after a session. */
  predicate Vacant(u: User, mode: Mode) {
    || mode == ModeStopped
    || (mode == ModeActive && !Reserves(u))
    || (mode == ModeDisconnected && !Reserves(u) && !u.authorized && !u.awaited)
  }

  /**
    Out of service, a suspended session; in service, a reservation, a fault mode of the MCU, or an
    outage while suspended.
   */
  predicate CutsOff(p: Point, i: Input) {
    if !Serves(p.service, i.ack) then p.status != Charging
    else
      || (Reserves(p.user) && (i.mode == ModeDisconnected || i.mode == ModeRequesting || i.mode == ModeActive))
      || ((i.mode == ModeWarning || i.mode == ModeUnknown) && !InSession(p.fault.exit) && p.fault.exit != Faulted)
      || (p.status != Charging && i.mode == ModeUninitialized)
      || (p.status != Charging && p.service.pending == ToInoperative && i.ack && Vacant(p.user, i.mode))
  }

  /** How a second leaves an open transaction behind: what there is to see before it. */
  predicate LeavesBehind(p: Point, i: Input) {
    p.transaction && InSession(p.status) && !NewFault(p, i) && !p.resetting && CutsOff(p, i)
  }

  lemma NeverBackToPreparing(p: Point, mode: Mode, carHoldsBack: bool)
    requires InSession(p.status) && !p.fault.active
    ensures GetState(p, mode, carHoldsBack) != Preparing
  {
  }

  /** The targets for which leaving session status `from` closes the transaction. */
  predicate Closes(from: Status, to: Status) {
    to == Available || to == Finishing || (to == Unavailable && from == Charging)
  }

  /** Leaving a session closes the transaction, but for these targets. */
  lemma EnterFromSession(p: Point, to: Status)
    requires InSession(p.status) && to != Preparing
    ensures var q := Enter(p, to);
            && q.fault == p.fault && q.status == to && q.startedTwice == p.startedTwice
            && q.transaction == (p.transaction && !Closes(p.status, to))
  {
  }

  lemma TransitionFromSession(p: Point, s: Status, i: Input)
    requires InSession(p.status) && s != Preparing && (p.fault.active ==> s == Faulted)
    ensures var q := Transition(p, s, i);
            && q.fault == p.fault && q.startedTwice == p.startedTwice && q.status != Preparing
            && (p.fault.active ==> q.status == Faulted)
            && q.transaction == (p.transaction && !Closes(p.status, q.status))
  {
    if Changes(p, s, i) {
      if !p.fault.active {
        NeverBackToPreparing(Changed(p), i.mode, i.carHoldsBack);
      }
      EnterFromSession(Changed(p), ChangedStatus(p, i));
    } else {
      EnterFromSession(p, s);
    }
  }

  lemma TickFromSession(p: Point, i: Input)
    requires InSession(p.status) && !p.fault.active && !Leaves(p, i)
    ensures var q := Tick(p, i);
            && q.startedTwice == p.startedTwice && q.status != Preparing
            && q.fault.active == NewFault(p, i)
            && q.fault.exit == (if NewFault(p, i) then p.status else p.fault.exit)
            && (q.fault.active ==> q.status == Faulted)
            && q.transaction == (p.transaction && !Closes(p.status, q.status))
  {
    hide NewFault;
    NeverBackToPreparing(p, i.mode, i.carHoldsBack);
    if Observed(p, i) != p.status {
      TransitionFromSession(NotifyWarnings(p, i), Observed(p, i), i);
    }
  }

  /** The status that a session gives way to in a second without a new fault. */
  function Target(p: Point, i: Input): Status {
    if p.resetting then Finishing
    else if !Serves(p.service, i.ack) then Unavailable
    else
      var s := OperatingState(p, i.mode, i.carHoldsBack);
      if s == Available && p.service.pending == ToInoperative && i.ack then Unavailable else s
  }

  lemma SameOperatingState(p: Point, q: Point, mode: Mode, carHoldsBack: bool)
    requires q.status == p.status && q.user == p.user && q.transaction == p.transaction && q.finishing == p.finishing
    ensures OperatingState(q, mode, carHoldsBack) == OperatingState(p, mode, carHoldsBack)
  {
  }

  lemma TransitionStatus(p: Point, s: Status, i: Input)
    requires p.status != Finishing
    ensures Transition(p, s, i).status == if Changes(p, s, i) then ChangedStatus(p, i) else s
  {
    hide GetState, Changes;
  }

  lemma TargetReached(p: Point, i: Input)
    requires InSession(p.status) && !p.fault.active && p.transaction && !NewFault(p, i)
    ensures Tick(p, i).status == Target(p, i)
  {
    var n := NotifyWarnings(p, i);
    SameOperatingState(p, n, i.mode, i.carHoldsBack);
    SameOperatingState(p, Changed(n), i.mode, i.carHoldsBack);
    TransitionStatus(n, Observed(p, i), i);
    hide NewFault, OperatingState, Enter, Transition;
  }

  /** What there is to see decides whether the session gives way to a status that keeps its transaction open. */
  lemma TargetCutsOff(p: Point, i: Input)
    requires InSession(p.status) && p.transaction
    ensures var to := Target(p, i);
            (to == Reserved
             || (to == Unavailable && p.status != Charging)
             || (to == Faulted && !Holds(Faulted, p.fault.exit)))
            <==> (!p.resetting && CutsOff(p, i))
  {
  }

  lemma EnterFromElsewhere(p: Point, to: Status)
    requires Sound(p.(fault := p.fault.(active := false))) && !InSession(p.status) && (p.fault.active ==> to == Faulted)
    requires p.transaction ==> Holds(to, p.fault.exit)
    ensures Sound(Enter(p, to))
  {
  }

  lemma TransitionFromElsewhere(p: Point, s: Status, i: Input)
    requires Sound(p.(fault := p.fault.(active := false))) && !InSession(p.status) && s != p.status
    requires if p.fault.active then s == Faulted && !p.transaction else s == GetState(p, i.mode, i.carHoldsBack)
    ensures Sound(Transition(p, s, i))
  {
    hide OperatingState;
    var q := if p.status == Finishing && s != Faulted then p.(finishing := false) else p;
    if Changes(q, s, i) {
      EnterFromElsewhere(Changed(q), ChangedStatus(q, i));
    } else {
      EnterFromElsewhere(q, s);
    }
  }

  lemma NotifiedState(p: Point, i: Input)
    requires !NewFault(p, i)
    ensures GetState(NotifyWarnings(p, i), i.mode, i.carHoldsBack) == GetState(p, i.mode, i.carHoldsBack)
  {
  }

  /** Outside a session a tick starts a transaction only if none is open, and keeps one open through a fault. */
  lemma TickFromElsewhere(p: Point, i: Input)
    requires Sound(p) && !InSession(p.status)
    ensures Sound(Tick(p, i))
  {
    hide NewFault, OperatingState, Transition, Enter;
    if !Leaves(p, i) && Observed(p, i) != p.status {
      if !NewFault(p, i) {
        NotifiedState(p, i);
      }
      TransitionFromElsewhere(NotifyWarnings(p, i), Observed(p, i), i);
    }
  }

  /** A step from a sound state is sound exactly when it leaves no transaction behind. */
  lemma SoundExactly(p: Point, h: Happening)
    requires Sound(p)
    ensures Sound(Next(p, h)) <==> !(h.Second? && LeavesBehind(p, h.input))
  {
    if h.Second? {
      var i := h.input;
      if !InSession(p.status) {
        TickFromElsewhere(p, i);
      } else if !Leaves(p, i) {
        TickFromSession(p, i);
        if p.transaction && !NewFault(p, i) {
          TargetReached(p, i);
          TargetCutsOff(p, i);
        }
        hide NewFault, Tick, Target, CutsOff;
      }
    }
  }

  /** No step of a run leaves a transaction behind. */
  ghost predicate LeavesNone(p: Point, hs: seq<Happening>) {
    forall i | 0 <= i < |hs| && hs[i].Second? :: !LeavesBehind(Run(p, hs[..i]), hs[i].input)
  }

  lemma {:induction false} RunPrefix(p: Point, hs: seq<Happening>)
    requires hs != [] && LeavesNone(p, hs)
    ensures LeavesNone(p, hs[..|hs| - 1])
  {
    var front := hs[..|hs| - 1];
    assert forall i | 0 <= i < |front| :: front[..i] == hs[..i] && front[i] == hs[i];
  }

  /** Without such a step, no transaction is ever started while one is open, nor open outside a session or its fault. */
  lemma {:induction false} RunSound(hs: seq<Happening>)
    requires LeavesNone(BOOT, hs)
    ensures Sound(Run(BOOT, hs))
  {
    if hs != [] {
      RunPrefix(BOOT, hs);
      RunSound(hs[..|hs| - 1]);
      SoundExactly(Run(BOOT, hs[..|hs| - 1]), hs[|hs| - 1]);
    }
  }

  // ----- when transactions open and close

  predicate Idle(s: Status) { s.Available? || s.Preparing? }

  /** A step between these points opens a transaction exactly on the way from idle to a session. */
  predicate OpensExactly(p: Point, q: Point) {
    !p.transaction ==> (q.transaction <==> Idle(p.status) && InSession(q.status))
  }

  /** It closes one exactly when a session ends properly, or an idle or charging connector goes out of service. */
  predicate ClosesExactly(p: Point, q: Point) {
    var ends := InSession(p.status) && (q.status.Available? || q.status.Finishing?);
    var outage := (p.status.Available? || p.status.Charging?) && q.status.Unavailable?;
    p.transaction ==> (!q.transaction <==> ends || outage)
  }

  /** Finishing and the end of a session forget the user; Finishing and the start of one forget the reservation. */
  predicate ForgetsExactly(p: Point, q: Point) {
    var ends := InSession(p.status) && q.status.Available?;
    var outage := (p.status.Available? || p.status.Charging?) && q.status.Unavailable?;
    var begins := Idle(p.status) && InSession(q.status);
    && q.user.awaited == p.user.awaited
    && (q.user.authorized <==> p.user.authorized && !q.status.Finishing? && !ends && !outage)
    && (q.user.reservation <==> p.user.reservation && !q.status.Finishing? && !begins)
  }

  lemma EnterObeys(p: Point, to: Status)
    ensures var q := Enter(p, to);
            OpensExactly(p, q) && ClosesExactly(p, q) && ForgetsExactly(p, q) && q.status == to
  {
  }

  /** Only these matter for what a step opens, closes and forgets. */
  lemma SameBefore(p: Point, r: Point, q: Point)
    requires r.status == p.status && r.user == p.user && r.transaction == p.transaction
    ensures OpensExactly(r, q) == OpensExactly(p, q) && ClosesExactly(r, q) == ClosesExactly(p, q)
    ensures ForgetsExactly(r, q) == ForgetsExactly(p, q)
  {
  }

  lemma TransitionObeys(p: Point, s: Status, i: Input)
    ensures var q := Transition(p, s, i); OpensExactly(p, q) && ClosesExactly(p, q) && ForgetsExactly(p, q)
  {
    hide GetState, Enter, Changes, OpensExactly, ClosesExactly, ForgetsExactly, ChangedStatus;
    var q := if p.status == Finishing && s != Faulted then p.(finishing := false) else p;
    var r, to := if Changes(q, s, i) then Changed(q) else q, if Changes(q, s, i) then ChangedStatus(q, i) else s;
    EnterObeys(r, to);
    SameBefore(p, r, Enter(r, to));
  }

  lemma StandStill(p: Point, q: Point)
    requires q.status == p.status && q.user == p.user && q.transaction == p.transaction
    ensures OpensExactly(p, q) && ClosesExactly(p, q)
  {
  }

  lemma Notified(p: Point, i: Input)
    ensures var n := NotifyWarnings(p, i);
            n.status == p.status && n.user == p.user && n.transaction == p.transaction && n.finishing == p.finishing
            && n.service == p.service
  {
  }

  /** In every second a transaction opens and closes exactly between these statuses. */
  lemma TickTransactions(p: Point, i: Input)
    ensures OpensExactly(p, Tick(p, i)) && ClosesExactly(p, Tick(p, i))
    ensures !Leaves(p, i) && Tick(p, i).status != p.status ==> ForgetsExactly(p, Tick(p, i))
  {
    var n, q := NotifyWarnings(p, i), Tick(p, i);
    if Leaves(p, i) {
      hide Handled;
    } else {
      Notified(p, i);
      hide GetState, Transition, NewFault, NotifyWarnings, OpensExactly, ClosesExactly, ForgetsExactly;
      if Observed(p, i) != p.status {
        TransitionObeys(n, Observed(p, i), i);
        SameBefore(p, n, q);
      } else {
        StandStill(p, q);
      }
    }
  }

  /** A tick from idle to a session has opened a transaction, and it stays open through sessions and faults. */
  lemma {:induction false} SessionKeepsTransaction(p: Point, i: Input, hs: seq<Happening>)
    requires Idle(p.status) && InSession(Tick(p, i).status)
    requires forall k | 0 <= k <= |hs| ::
               var s := Run(Tick(p, i), hs[..k]).status; InSession(s) || s == Faulted
    ensures Run(Tick(p, i), hs).transaction
  {
    hide Tick;
    var q := Tick(p, i);
    if hs == [] {
      TickTransactions(p, i);
    } else {
      var front, last := hs[..|hs| - 1], hs[|hs| - 1];
      assert forall k | 0 <= k <= |front| :: front[..k] == hs[..k];
      assert hs[..|hs|] == hs;
      SessionKeepsTransaction(p, i, front);
      if last.Second? {
        TickTransactions(Run(q, front), last.input);
      }
    }
  }

  // ----- which status is reported

  /** No fault, under OCPP control, no scheduled change of availability, and no reset of the session. */
  ghost predicate Undisturbed(p: Point, i: Input) {
    && !Leaves(p, i) && !p.fault.active && p.status != Faulted && !p.resetting && p.service.pending == NoChange
    && forall w | w in i.warnings && w !in p.fault.notified :: w == 6 || w == 8 || w == 11 || w == 23
  }

  lemma UndisturbedTick(p: Point, i: Input)
    requires Undisturbed(p, i)
    ensures var q := Tick(p, i);
            && q.status == (if InService(p.service) then OperatingState(p, i.mode, i.carHoldsBack) else Unavailable)
            && q.service == p.service && !q.fault.active
  {
    assert !NewFault(p, i);
    Notified(p, i);
    hide OperatingState, Enter, NewFault;
    if Observed(p, i) != p.status {
      TransitionUnchanged(NotifyWarnings(p, i), Observed(p, i), i);
    }
  }

  lemma TransitionUnchanged(p: Point, s: Status, i: Input)
    requires p.service.pending == NoChange
    ensures var q := Transition(p, s, i);
            && q.status == s && q.service == p.service && q.fault == p.fault
            && (q.finishing <==> s == Finishing || (p.finishing && (p.status != Finishing || s == Faulted)))
  {
  }

  /** In service, the mode of the MCU, the car, the user and the reservation decide the status. */
  lemma StatusInService(p: Point, i: Input)
    requires Undisturbed(p, i) && p.service.enabled && p.service.operative && p.service.registered
    ensures var s, m := Tick(p, i).status, i.mode;
            var reserved := p.user.reservation && !p.user.authorized;
            && (s == Charging <==> m.ModeCharging? && !i.carHoldsBack)
            && (s == SuspendedEv <==> m.ModeCharging? && i.carHoldsBack)
            && (s == SuspendedEvse <==> m.ModePaused? || (m.ModeRequesting? && p.user.authorized && p.transaction))
            && (s == Faulted <==> m.ModeWarning? || m.ModeUnknown?)
            && (s == Unavailable <==> m.ModeUninitialized?)
            && (s == Reserved <==> reserved && (m.ModeDisconnected? || m.ModeRequesting? || m.ModeActive?))
            && (s == Available <==>
                  || m.ModeStopped?
                  || (!reserved && m.ModeActive?)
                  || (!reserved && m.ModeDisconnected? && !p.user.authorized && !p.user.awaited))
    ensures var s, m := Tick(p, i).status, i.mode;
            var reserved := p.user.reservation && !p.user.authorized;
            && (s == Preparing <==>
                  && !reserved && !InSession(p.status)
                  && ((m.ModeDisconnected? && (p.user.authorized || p.user.awaited))
                      || (m.ModeRequesting? && !(p.user.authorized && p.transaction) && !p.finishing)))
  {
    UndisturbedTick(p, i);
    hide Tick, Undisturbed;
  }

  /** Out of service the connector is unavailable, whatever the MCU says. */
  lemma StatusOutOfService(p: Point, i: Input)
    requires Undisturbed(p, i) && !(p.service.enabled && p.service.operative && p.service.registered)
    ensures Tick(p, i).status == Unavailable
  {
    UndisturbedTick(p, i);
    hide Tick, Undisturbed;
  }

  /** Finishing lasts while the car keeps requesting, until another status than a fault has been entered. */
  lemma FinishingFlag(p: Point, i: Input)
    requires !Leaves(p, i) && p.service.pending == NoChange
    ensures var q := Tick(p, i);
            q.finishing <==>
            if q.status == p.status then p.finishing
            else q.status == Finishing || (p.finishing && (p.status != Finishing || q.status == Faulted))
  {
    Notified(p, i);
    hide GetState, NewFault, Enter, Transition, NotifyWarnings;
    if Observed(p, i) != p.status {
      TransitionUnchanged(NotifyWarnings(p, i), Observed(p, i), i);
    }
  }

  /** A registered point faults exactly for a new warning other than those of the car and "disabled". */
  lemma FaultsExactly(p: Point, i: Input)
    requires !Leaves(p, i) && !p.fault.active && p.status != Faulted
    ensures var q := Tick(p, i);
            && (q.fault.active <==>
                  p.service.registered
                  && exists w | w in i.warnings && w !in p.fault.notified :: w != 6 && w != 8 && w != 11 && w != 23)
            && (q.fault.active ==> q.status == Faulted && q.fault.exit == p.status && q.transaction == p.transaction)
            && q.fault.notified == if p.service.registered then i.warnings else p.fault.notified
  {
    var news := i.warnings - p.fault.notified;
    assert Faulting(news) <==> exists w | w in i.warnings && w !in p.fault.notified ::
        w != 6 && w != 8 && w != 11 && w != 23 by {
      if w :| w in news && w !in HARMLESS {
        assert w in i.warnings && w !in p.fault.notified;
      }
      forall w | w in i.warnings && w !in p.fault.notified && w != 6 && w != 8 && w != 11 && w != 23
        ensures Faulting(news)
      {
        assert w in news;
      }
    }
    if NewFault(p, i) {
      FaultEntered(p, i);
    }
    hide Faulting, GetState;
    TransitionKeepsFault(NotifyWarnings(p, i), Observed(p, i), i);
  }

  lemma TransitionKeepsFault(p: Point, s: Status, i: Input)
    ensures Transition(p, s, i).fault == p.fault
  {
    hide GetState;
  }

  /** A scheduled outage takes effect when the connector becomes available, if the MCU agrees. */
  lemma OutageTakesEffect(p: Point, i: Input)
    requires Undisturbed(p.(service := p.service.(pending := NoChange)), i) && InService(p.service)
    requires p.service.pending == ToInoperative && p.status != Available
    requires i.mode.ModeStopped? || (i.mode.ModeActive? && !(p.user.reservation && !p.user.authorized))
    ensures Tick(p, i).status == (if i.ack then Unavailable else Available)
    ensures Tick(p, i).service.operative == !i.ack
  {
    assert !NewFault(p, i);
    Notified(p, i);
    hide Enter, NewFault;
    assert Observed(p, i) == Available;
    TransitionChanges(NotifyWarnings(p, i), Available, i);
  }

  lemma TransitionChanges(p: Point, s: Status, i: Input)
    requires p.service.pending == ToInoperative && p.service.operative && s == Available
    ensures var q := Transition(p, s, i);
            q.status == (if i.ack then Unavailable else Available) && q.service.operative == !i.ack
  {
    hide GetState;
  }

  /** A scheduled return to service takes effect when the status would change, if the MCU agrees or need not be told. */
  lemma ReturnTakesEffect(p: Point, i: Input)
    requires Undisturbed(p.(service := p.service.(pending := NoChange)), i)
    requires p.service.pending == ToOperative && !p.service.operative && p.status != Unavailable
    ensures var q := Tick(p, i);
            && q.service.operative == (!p.service.enabled || i.ack)
            && (p.service.enabled && p.service.registered && i.ack && i.mode.ModeCharging? ==>
                  q.status == if i.carHoldsBack then SuspendedEv else Charging)
            && (!(p.service.enabled && p.service.registered && i.ack) ==> q.status == Unavailable)
  {
    assert !NewFault(p, i);
    Notified(p, i);
    hide Enter, NewFault;
    assert Observed(p, i) == Unavailable;
  }

  /** A session that is being reset is finishing. */
  lemma ResetFinishes(p: Point, i: Input)
    requires p.resetting && Undisturbed(p.(resetting := false), i)
    ensures Tick(p, i).status == Finishing
  {
    assert !NewFault(p, i);
    hide Enter, NewFault, OperatingState;
  }

  // ----- runs in service

  /**
    The point stays in service once registered, the MCU reports no fault of its own, and no
    reservation meets a transaction.
   */
  predicate Calm(p: Point, h: Happening) {
    match h
    case Second(i) => i.mode != ModeUninitialized && i.mode != ModeWarning && i.mode != ModeUnknown
    case Reservation(r) => !(r && p.transaction)
    case AvailabilityRequest(c) => c != ToInoperative
    case Availability(o) => o
    case Registration(r) => r
    case PortalEnable(e) => e
    case _ => true
  }

  ghost predicate InOrder(p: Point) {
    && Sound(p)
    && p.service.enabled && p.service.operative && p.service.pending != ToInoperative
    && (p.transaction ==> p.service.registered && !p.user.reservation)
    && (!p.service.registered ==> (p.status == Unavailable || p.status == Finishing) && !p.fault.active)
  }

  lemma EnterForgets(p: Point, to: Status)
    ensures var q := Enter(p, to);
            && q.status == to && q.service == p.service && q.fault == p.fault
            && (q.transaction && !p.transaction ==> InSession(to))
            && (q.transaction ==> q.user.reservation ==> p.transaction && p.user.reservation)
  {
  }

  lemma ServiceStays(p: Point, s: Status, i: Input)
    requires p.service.operative && p.service.pending != ToInoperative
    ensures Changes(p, s, i) ==> Changed(p) == p && ChangedStatus(p, i) == GetState(p, i.mode, i.carHoldsBack)
  {
    hide GetState;
    assert p.service.pending == ToOperative ==> Changed(p) == p;
  }

  /** In service, a scheduled change of availability changes nothing: at most the status is looked up again. */
  lemma TransitionInService(p: Point, s: Status, i: Input)
    requires p.service.enabled && p.service.operative && p.service.pending != ToInoperative
    ensures var q, r := Transition(p, s, i), p.(finishing := p.finishing && (p.status != Finishing || s == Faulted));
            && q.service == p.service && q.fault == p.fault
            && (q.status == s || q.status == GetState(r, i.mode, i.carHoldsBack))
            && (q.transaction && !p.transaction ==> InSession(q.status))
            && (q.transaction ==> q.user.reservation ==> p.transaction && p.user.reservation)
  {
    hide Enter, GetState, Changed;
    var r := p.(finishing := p.finishing && (p.status != Finishing || s == Faulted));
    ServiceStays(r, s, i);
    EnterForgets(r, s);
    EnterForgets(r, GetState(r, i.mode, i.carHoldsBack));
  }

  /**
    What get_ocpp_state can answer in service: a transaction in a session meets no reservation,
    outage or MCU fault.
   */
  lemma StateInService(p: Point, mode: Mode, carHoldsBack: bool)
    requires InOrder(p) && !p.fault.active && mode != ModeUninitialized && mode != ModeWarning && mode != ModeUnknown
    ensures var s := GetState(p, mode, carHoldsBack);
            && (!p.service.registered ==> s == Unavailable || s == Finishing)
            && (p.transaction && InSession(p.status) ==> s != Reserved && s != Unavailable && s != Faulted)
  {
  }

  lemma CalmCutsNothing(p: Point, i: Input)
    requires InOrder(p) && Calm(p, Second(i))
    ensures !LeavesBehind(p, i)
  {
  }

  lemma TickInService(p: Point, i: Input)
    requires InOrder(p) && Calm(p, Second(i))
    ensures var q := Tick(p, i);
            && q.service == p.service
            && (q.transaction ==> q.service.registered && !q.user.reservation)
            && (!q.service.registered ==> (q.status == Unavailable || q.status == Finishing) && !q.fault.active)
  {
    hide GetState, Transition;
    var n, s := NotifyWarnings(p, i), Observed(p, i);
    if !p.fault.active {
      StateInService(p, i.mode, i.carHoldsBack);
    }
    if !Leaves(p, i) && s != p.status {
      var r := n.(finishing := n.finishing && (n.status != Finishing || s == Faulted));
      TransitionInService(n, s, i);
      if NewFault(p, i) {
        FaultedState(r, i.mode, i.carHoldsBack);
      } else if !p.fault.active {
        StateInService(r, i.mode, i.carHoldsBack);
      }
    }
  }

  lemma FaultedState(p: Point, mode: Mode, carHoldsBack: bool)
    requires p.fault.active
    ensures GetState(p, mode, carHoldsBack) == Faulted
  {
  }

  lemma CalmStep(p: Point, h: Happening)
    requires InOrder(p) && Calm(p, h)
    ensures InOrder(Next(p, h))
  {
    hide Tick, LeavesBehind;
    SoundExactly(p, h);
    if h.Second? {
      CalmCutsNothing(p, h.input);
      TickInService(p, h.input);
    }
  }

  /** Every step of a run is calm. */
  ghost predicate AllCalm(hs: seq<Happening>) {
    forall i | 0 <= i < |hs| :: Calm(Run(BOOT, hs[..i]), hs[i])
  }

  /**
    In every calm run no transaction is started while one is open, and none is open in Available,
    Preparing or Finishing.
   */
  lemma {:induction false} CalmRun(hs: seq<Happening>)
    requires AllCalm(hs)
    ensures InOrder(Run(BOOT, hs))
    ensures !Run(BOOT, hs).startedTwice
    ensures Run(BOOT, hs).transaction
            ==> var s := Run(BOOT, hs).status; s != Available && s != Preparing && s != Finishing
  {
    if hs != [] {
      var front := hs[..|hs| - 1];
      assert forall i | 0 <= i < |front| :: front[..i] == hs[..i] && front[i] == hs[i];
      CalmRun(front);
      CalmStep(Run(BOOT, front), hs[|hs| - 1]);
    }
  }

  // ----- outside calm runs

  lemma RunSnoc(p: Point, hs: seq<Happening>, h: Happening)
    ensures Run(p, hs + [h]) == Next(Run(p, hs), h)
  {
    assert (hs + [h])[..|hs|] == hs;
  }

  /** One second without warnings, in a given operating mode. */
  function Quiet(mode: Mode, carHoldsBack: bool): Happening {
    Second(Input(mode, carHoldsBack, {}, true, true))
  }

  lemma QuietTick(p: Point, mode: Mode, carHoldsBack: bool)
    ensures !NewFault(p, Quiet(mode, carHoldsBack).input)
  {
  }

  lemma Then(hs: seq<Happening>, h: Happening) returns (r: seq<Happening>)
    ensures r == hs + [h] && Run(BOOT, r) == Next(Run(BOOT, hs), h)
  {
    r := hs + [h];
    RunSnoc(BOOT, hs, h);
  }

  lemma ThenQuiet(hs: seq<Happening>, mode: Mode, carHoldsBack: bool, to: Status) returns (r: seq<Happening>)
    requires var p := Run(BOOT, hs);
             !p.fault.active && p.status != Faulted && p.status != Finishing && p.service.registered
             && p.service.pending != ToOperative && GetState(p, mode, carHoldsBack) != p.status
    requires var p := Run(BOOT, hs);
             GetState(p, mode, carHoldsBack)
             == if p.service.pending == ToInoperative && to == Unavailable then Available else to
    requires Run(BOOT, hs).service.pending == ToInoperative ==> to != Available
    ensures r == hs + [Quiet(mode, carHoldsBack)]
    ensures var p := Run(BOOT, hs);
            var out := p.service.pending == ToInoperative && to == Unavailable;
            Run(BOOT, r) == Enter(p.(fault := p.fault.(notified := {}),
                                     service := p.service.(operative := p.service.operative && !out)), to)
  {
    r := Then(hs, Quiet(mode, carHoldsBack));
    QuietTick(Run(BOOT, hs), mode, carHoldsBack);
    hide NewFault, OperatingState, Enter;
  }

  /** From boot into a session. */
  lemma ChargingFromBoot() returns (hs: seq<Happening>)
    ensures Run(BOOT, hs) == Point(Charging, Fault(false, Unavailable, {}), Service(true, true, true, NoChange),
                                   User(true, false, false), false, false, true, false)
  {
    hs := [];
    hs := Then(hs, Registration(true));
    hide Run;
    hs := ThenQuiet(hs, ModeDisconnected, false, Available);
    hs := Then(hs, Authorization(true, false));
    hs := ThenQuiet(hs, ModeCharging, false, Charging);
  }

  /** A transaction suspended when a scheduled change to inoperative takes effect is not stopped. */
  lemma ScheduledOutageKeepsTransaction() returns (hs: seq<Happening>)
    ensures Run(BOOT, hs)
            == Point(Unavailable, Fault(false, Unavailable, {}), Service(true, false, true, ToInoperative),
                                   User(false, false, false), false, false, true, false)
  {
    hs := ChargingFromBoot();
    hide Run;
    hs := ThenQuiet(hs, ModeCharging, true, SuspendedEv);
    hs := Then(hs, AvailabilityRequest(ToInoperative));
    hs := Then(hs, Authorization(false, false));
    hs := ThenQuiet(hs, ModeDisconnected, false, Unavailable);
  }

  /** Back in service, that connector starts a second transaction on top of the open one. */
  lemma ScheduledOutageStartsTwice() returns (hs: seq<Happening>)
    ensures Run(BOOT, hs).startedTwice
  {
    hs := ScheduledOutageKeepsTransaction();
    hide Run;
    hs := Then(hs, AvailabilityRequest(NoChange));
    hs := Then(hs, Availability(true));
    hs := ThenQuiet(hs, ModeDisconnected, false, Available);
    hs := ThenQuiet(hs, ModeCharging, false, Charging);
  }

  // ----- faults

  /** A new faulting warning faults the connector, remembers where it was, and leaves the transaction alone. */
  lemma FaultEntered(p: Point, i: Input)
    requires NewFault(p, i) && p.status != Faulted && !Leaves(p, i)
    ensures var q := Tick(p, i);
            q.status == Faulted && q.fault == Fault(true, p.status, i.warnings) && q.transaction == p.transaction
  {
    hide NewFault, OperatingState;
  }

  /** Where a fault leads when it ends: back, but for a scheduled outage of an available connector. */
  function Return(p: Point, i: Input): Status {
    if p.fault.exit == Available && p.service.pending == ToInoperative && ChangeSucceeds(p.service, false, i.ack) then
      Unavailable
    else p.fault.exit
  }

  lemma LeaveFault(p: Point, i: Input)
    requires p.status == Faulted && !p.fault.active && p.fault.exit != Faulted
    ensures var q := Transition(p, p.fault.exit, i);
            q.transaction == p.transaction && q.fault == p.fault && q.status == Return(p, i)
  {
    hide OperatingState;
    var r := if Changes(p, p.fault.exit, i) then Changed(p) else p;
    EnterFromFault(r, p.fault.exit);
    EnterFromFault(r, Unavailable);
  }

  lemma EnterFromFault(p: Point, to: Status)
    requires p.status == Faulted
    ensures var q := Enter(p, to); q.status == to && q.transaction == p.transaction && q.fault == p.fault
  {
  }

  lemma FaultStep(p: Point, h: Happening)
    requires p.status == Faulted
    ensures var q := Next(p, h);
            if h.Second? && Leaves(p, h.input) then q == p.(status := Unavailable)
            else
              && q.transaction == p.transaction
              && q.fault.exit == (if h.Second? && NewFault(p, h.input) then Faulted else p.fault.exit)
              && (q.status == Faulted
                  || (h.Second? && !NewFault(p, h.input) && p.fault.exit != Faulted && q.status == Return(p, h.input)))
  {
    hide NewFault, OperatingState, Transition;
    if h.Second? && !Leaves(p, h.input) && Observed(p, h.input) != Faulted {
      LeaveFault(NotifyWarnings(p, h.input), h.input);
    }
  }

  /** The connector is faulted before every step of the run. */
  ghost predicate DuringFault(p: Point, hs: seq<Happening>) {
    forall i | 0 <= i < |hs| :: Run(p, hs[..i]).status == Faulted
  }

  predicate FaultsAgain(p: Point, hs: seq<Happening>, i: nat)
    requires i < |hs|
  {
    hs[i].Second? && NewFault(Run(p, hs[..i]), hs[i].input)
  }

  ghost predicate NoSecondFault(p: Point, hs: seq<Happening>) {
    forall i | 0 <= i < |hs| :: !FaultsAgain(p, hs, i)
  }

  /** No other session controller takes over: OCPP is configured, or an open transaction keeps it in control. */
  predicate InControl(p: Point, hs: seq<Happening>) {
    p.transaction || forall i | 0 <= i < |hs| && hs[i].Second? :: hs[i].input.controlled
  }

  lemma FrontSteps(hs: seq<Happening>, front: seq<Happening>, last: Happening)
    requires hs == front + [last]
    ensures forall i | 0 <= i < |front| :: front[..i] == hs[..i] && front[i] == hs[i]
    ensures hs[..|front|] == front && hs[|front|] == last
  {
    assert forall i | 0 <= i < |front| :: front[..i] == hs[..i];
  }

  lemma DuringFaultFront(p: Point, hs: seq<Happening>, front: seq<Happening>, last: Happening)
    requires hs == front + [last]
    ensures DuringFault(p, hs) <==> DuringFault(p, front) && Run(p, front).status == Faulted
  {
    hide Run;
    FrontSteps(hs, front, last);
    if DuringFault(p, front) && Run(p, front).status == Faulted {
      forall i | 0 <= i < |hs| ensures Run(p, hs[..i]).status == Faulted {
        assert i < |front| ==> hs[..i] == front[..i];
      }
    }
  }

  lemma NoSecondFaultFront(p: Point, hs: seq<Happening>, front: seq<Happening>, last: Happening)
    requires hs == front + [last]
    ensures NoSecondFault(p, hs) <==> NoSecondFault(p, front) && !(last.Second? && NewFault(Run(p, front), last.input))
  {
    FrontSteps(hs, front, last);
    assert FaultsAgain(p, hs, |front|) <==> last.Second? && NewFault(Run(p, front), last.input);
    forall i | 0 <= i < |front| ensures FaultsAgain(p, front, i) <==> FaultsAgain(p, hs, i) {
      assert hs[..i] == front[..i];
    }
    hide Run, NewFault, FaultsAgain;
  }

  lemma RunFront(p: Point, hs: seq<Happening>)
    requires hs != []
    ensures var front, last := hs[..|hs| - 1], hs[|hs| - 1];
            && (DuringFault(p, hs) <==> DuringFault(p, front) && Run(p, front).status == Faulted)
            && (NoSecondFault(p, hs)
                <==> NoSecondFault(p, front) && !(last.Second? && NewFault(Run(p, front), last.input)))
            && (InControl(p, hs) <==> InControl(p, front) && (p.transaction || !last.Second? || last.input.controlled))
  {
    var front, last := hs[..|hs| - 1], hs[|hs| - 1];
    DuringFaultFront(p, hs, front, last);
    NoSecondFaultFront(p, hs, front, last);
    hide NewFault, Run, DuringFault, NoSecondFault;
  }

  /**
    Until the fault ends, the transaction is untouched. While OCPP stays in control, the fault can end only in the
    status to return to, and exactly if no new faulting warning arrived meanwhile; otherwise the exit status is
    Faulted itself. Where another controller takes over, the connector is unavailable.
   */
  lemma {:induction false} FaultRun(p: Point, hs: seq<Happening>)
    requires p.status == Faulted && p.fault.exit != Faulted && DuringFault(p, hs)
    ensures var q := Run(p, hs);
            && q.transaction == p.transaction
            && (!InControl(p, hs) ==> q.status == Unavailable)
            && (InControl(p, hs) ==> (NoSecondFault(p, hs) <==> q.fault.exit == p.fault.exit))
            && (InControl(p, hs) && !NoSecondFault(p, hs) ==> q.status == Faulted && q.fault.exit == Faulted)
            && (InControl(p, hs) && q.status != Faulted ==>
                  hs != [] && hs[|hs| - 1].Second? && q.status == Return(Run(p, hs[..|hs| - 1]), hs[|hs| - 1].input))
  {
    if hs != [] {
      hide Next, NewFault, DuringFault, NoSecondFault, InControl;
      RunFront(p, hs);
      FaultRun(p, hs[..|hs| - 1]);
      FaultStep(Run(p, hs[..|hs| - 1]), hs[|hs| - 1]);
    }
  }

  /** A fault whose exit status was overwritten lasts exactly as long as OCPP stays in control. */
  lemma {:induction false} StuckExactly(p: Point, hs: seq<Happening>)
    requires p.status == Faulted && p.fault.exit == Faulted
    ensures DuringFault(p, hs) && Run(p, hs).status == Faulted <==> InControl(p, hs)
    ensures InControl(p, hs) ==> Run(p, hs).fault.exit == Faulted && Run(p, hs).transaction == p.transaction
  {
    if hs != [] {
      var front := hs[..|hs| - 1];
      StuckExactly(p, front);
      RunFront(p, hs);
      if InControl(p, front) {
        FaultStep(Run(p, front), hs[|hs| - 1]);
      }
    }
  }

  lemma ThenWarned(hs: seq<Happening>, warnings: Warnings) returns (r: seq<Happening>)
    requires var p := Run(BOOT, hs);
             p.service.registered && p.service.pending == NoChange && Faulting(warnings - p.fault.notified)
                 && p.status != Finishing
    ensures var p := Run(BOOT, hs);
            Run(BOOT, r)
            == (if p.status == Faulted then p else Enter(p, Faulted)).(fault := Fault(true, p.status, warnings))
  {
    r := Then(hs, Second(Input(ModeCharging, false, warnings, true, true)));
  }

  /** Two faults in a row during a session: the transaction is open, and where to return to is lost. */
  lemma SecondFaultLosesReturn() returns (hs: seq<Happening>)
    ensures var p := Run(BOOT, hs); p.status == Faulted && p.fault.exit == Faulted && p.transaction
  {
    hs := ChargingFromBoot();
    hide Run;
    assert 0 in {0} - {} && 1 in {0, 1} - {0};
    hs := ThenWarned(hs, {0});
    hs := ThenWarned(hs, {0, 1});
  }

  /** A tick without faulting warnings ends a noticed fault, or notices that it has ended. */
  lemma QuietFault(p: Point, i: Input)
    requires p.status == Faulted && p.fault.exit != Faulted && !Faulting(i.warnings) && !Leaves(p, i)
    ensures p.fault.active ==>
              Tick(p, i) == p.(fault := if p.service.registered then Fault(false, p.fault.exit, i.warnings)
                                        else p.fault.(active := Faulting(p.fault.notified)))
    ensures !p.fault.active ==> Tick(p, i).status == Return(p, i)
  {
    assert !NewFault(p, i);
    hide NewFault, Transition, OperatingState;
    if !p.fault.active {
      LeaveFault(NotifyWarnings(p, i), i);
    }
  }

  /** Two ticks after its warnings are gone the connector returns; an unregistered one does not notice that they are. */
  lemma FaultEnds(p: Point, i: Input, j: Input)
    requires p.status == Faulted && p.fault.exit != Faulted
    requires !Faulting(i.warnings) && !Faulting(j.warnings) && !Leaves(p, i) && !Leaves(p, j)
    ensures Tick(p, i).status == if p.fault.active then Faulted else Return(p, i)
    ensures p.fault.active ==>
              Tick(Tick(p, i), j).status
              == if p.service.registered || !Faulting(p.fault.notified) then Return(p, j) else Faulted
  {
    hide Tick;
    QuietFault(p, i);
    if p.fault.active {
      QuietFault(Tick(p, i), j);
    }
  }

  // ----- the code

  class OcppConnector {
    var oldState: Status
    var faulted: bool
    var faultedExitState: Status
    var notifiedWarnings: Warnings
    var finishingSession: bool
    var isAuthorized: bool
    var pendingAuthorize: bool
    var sessionResetting: bool
    var reservationSet: bool
    var transactionStart: nat
    var isEnabled: bool
    var availabilityOcpp: bool
    var registered: bool
    var pendingChange: Pending
    /** Whether start_transaction was ever called with a transaction open. */
    ghost var startedTwice: bool

    ghost function Abstract(): Point
      reads this
    {
      Point(oldState, Fault(faulted, faultedExitState, notifiedWarnings),
            Service(isEnabled, availabilityOcpp, registered, pendingChange),
            User(isAuthorized, pendingAuthorize, reservationSet),
            finishingSession, sessionResetting, transactionStart != 0, startedTwice)
    }

    constructor ()
      ensures Abstract() == BOOT
    {
      oldState, faulted, faultedExitState, notifiedWarnings := Unavailable, false, Unavailable, {};
      finishingSession, isAuthorized, pendingAuthorize := false, false, false;
      sessionResetting, reservationSet := false, false;
      transactionStart, isEnabled, availabilityOcpp, registered, pendingChange := 0, true, true, false, NoChange;
      startedTwice := false;
    }

    /** sessionHandler_OcppTransactionIsActive */
    predicate TransactionIsActive()
      reads this
    {
      transactionStart != 0
    }

    /** get_ocpp_state */
    method GetOcppState(mode: Mode, carHoldsBack: bool) returns (s: Status)
      ensures s == GetState(Abstract(), mode, carHoldsBack)
    {
      if faulted {
        return Faulted;
      } else if oldState == Faulted {
        return faultedExitState;
      }
      if sessionResetting {
        return Finishing;
      }
      if !isEnabled || !availabilityOcpp || !registered {
        return Unavailable;
      }
      match mode {
        case ModeUninitialized =>
          s := Unavailable;
        case ModeDisconnected =>
          if reservationSet && !isAuthorized {
            s := Reserved;
          } else if isAuthorized || pendingAuthorize {
            if oldState == Charging || oldState == SuspendedEv || oldState == SuspendedEvse {
              s := Finishing;
            } else {
              s := Preparing;
            }
          } else {
            s := Available;
          }
        case ModeRequesting =>
          if reservationSet && !isAuthorized {
            s := Reserved;
          } else if isAuthorized && TransactionIsActive() {
            s := SuspendedEvse;
          } else if finishingSession || oldState == Charging || oldState == SuspendedEv || oldState == SuspendedEvse {
            s := Finishing;
          } else {
            s := Preparing;
          }
        case ModeActive =>
          if reservationSet && !isAuthorized {
            s := Reserved;
          } else {
            s := Available;
          }
        case ModeCharging =>
          if carHoldsBack {
            s := SuspendedEv;
          } else {
            s := Charging;
          }
        case ModeStopping =>
          s := Finishing;
        case ModePaused =>
          s := SuspendedEvse;
        case ModeStopped =>
          s := Available;
        case ModeWarning =>
          s := Faulted;
        case ModeUnknown =>
          s := Faulted;
      }
    }

    /** handle_warnings, as far as the status goes */
    method HandleWarnings(state: Status, i: Input) returns (s: Status)
      modifies this`faulted, this`faultedExitState, this`notifiedWarnings
      ensures Abstract() == NotifyWarnings(old(Abstract()), i)
      ensures s == if NewFault(old(Abstract()), i) then Faulted else state
    {
      s := state;
      if !registered {
        return;
      }
      var newWarning := i.warnings - notifiedWarnings;
      notifiedWarnings := i.warnings;
      if Faulting(newWarning) {
        faulted := true;
        faultedExitState := oldState;
        s := Faulted;
      }
    }

    method ChangeAvailability(newAvailable: bool, ack: bool) returns (result: int)
      modifies this`availabilityOcpp
      ensures (result == 0) == ChangeSucceeds(old(Abstract()).service, newAvailable, ack)
      ensures result == 0 <==> old(availabilityOcpp) == newAvailable || (newAvailable && !isEnabled) || ack
      ensures availabilityOcpp == if result == 0 then newAvailable else old(availabilityOcpp)
    {
      if availabilityOcpp == newAvailable {
        return 0;
      }
      var before := availabilityOcpp;
      availabilityOcpp := newAvailable;
      if !(newAvailable && !isEnabled) && !ack {
        availabilityOcpp := before;
        return -1;
      }
      return 0;
    }

    method ChangeAvailabilityIfPending(status: Status, i: Input) returns (s: Status)
      modifies this`availabilityOcpp
      ensures var p := old(Abstract());
              if Changes(p, status, i) then Abstract() == Changed(p) && s == ChangedStatus(p, i)
                  else Abstract() == p && s == status
    {
      s := status;
      if pendingChange == NoChange {
        return;
      }
      if pendingChange == ToOperative {
        var r := ChangeAvailability(true, i.ack);
        if r == 0 {
          s := GetOcppState(i.mode, i.carHoldsBack);
        }
      } else if status == Available {
        var r := ChangeAvailability(false, i.ack);
        if r == 0 {
          s := Unavailable;
        }
      }
    }

    method StopTransaction()
      modifies this`transactionStart
      ensures !TransactionIsActive()
    {
      transactionStart := 0;
    }

    method StartTransaction(now: nat)
      requires now != 0
      modifies this`transactionStart, this`reservationSet, this`startedTwice
      ensures TransactionIsActive() && !reservationSet
              && startedTwice == (old(startedTwice) || old(TransactionIsActive()))
    {
      startedTwice := startedTwice || transactionStart != 0;
      transactionStart := now;
      reservationSet := false;
    }

    /** What entering a status changes besides the status itself. */
    ghost function Entered(p: Point, s: Status): Point {
      Enter(p, s).(status := p.status)
    }

    method EnterAvailable()
      modifies this
      ensures Abstract() == Entered(old(Abstract()), Available)
    {
      match oldState {
        case Charging | SuspendedEvse | SuspendedEv =>
          StopTransaction();
          isAuthorized := false;
        case _ =>
      }
    }

    method EnterSession(s: Status, now: nat)
      requires InSession(s) && now != 0
      modifies this
      ensures Abstract() == Entered(old(Abstract()), s)
    {
      match oldState {
        case Available | Preparing =>
          StartTransaction(now);
        case _ =>
      }
    }

    method EnterFinishing()
      modifies this
      ensures Abstract() == Entered(old(Abstract()), Finishing)
    {
      finishingSession := true;
      isAuthorized := false;
      reservationSet := false;
      match oldState {
        case Charging | SuspendedEv | SuspendedEvse =>
          StopTransaction();
        case _ =>
      }
    }

    method EnterUnavailable()
      modifies this
      ensures Abstract() == Entered(old(Abstract()), Unavailable)
    {
      match oldState {
        case Available | Charging =>
          StopTransaction();
          isAuthorized := false;
        case _ =>
      }
    }

    /** The switch of handle_state_transition over the new status; its cases switch over the old one. */
    method EnterStatus(s: Status, now: nat)
      requires now != 0
      modifies this
      ensures Abstract() == Enter(old(Abstract()), s)
    {
      match s {
        case Available => EnterAvailable();
        case Charging => EnterSession(Charging, now);
        case SuspendedEv => EnterSession(SuspendedEv, now);
        case SuspendedEvse => EnterSession(SuspendedEvse, now);
        case Finishing => EnterFinishing();
        case Unavailable => EnterUnavailable();
        case _ =>
      }
      oldState := s;
    }

    /** handle_state_transition */
    method HandleStateTransition(state: Status, i: Input, now: nat)
      requires now != 0
      modifies this
      ensures Abstract() == Transition(old(Abstract()), state, i)
    {
      hide GetState, Enter;
      if oldState == Finishing && state != Faulted {
        finishingSession := false;
      }
      var s := ChangeAvailabilityIfPending(state, i);
      EnterStatus(s, now);
    }

    /** One second of the session handler's loop, for a point without a stored transaction. */
    method Second(i: Input, now: nat)
      requires now != 0
      modifies this
      ensures Abstract() == Tick(old(Abstract()), i)
    {
      hide GetState, Transition;
      if !i.controlled && !TransactionIsActive() {
        if oldState != Unavailable {
          oldState := Unavailable;
        }
        return;
      }
      var state := GetOcppState(i.mode, i.carHoldsBack);
      state := HandleWarnings(state, i);
      if state != oldState {
        HandleStateTransition(state, i, now);
      } else if state == Faulted {
        if !Faulting(notifiedWarnings) {
          faulted := false;
        }
      }
    }
  }
}
