/**
 * The accumulated energy register: storage_update_accumulated_energy in main/storage.c,
 * get_accumulated_energy and the 'B' and 'E' records in main/OCMF.c, the session energy in
 * main/chargeSession.c. Energies are exact; storage operations succeed.
 */
module EnergyRegister {
  import opened Optional

  // ----- the stored pair

  /** The keys "session" and "accumulated" of the NVS namespace. */
  datatype Nvs = Nvs(session: Option<real>, accumulated: Option<real>) {
    predicate Consistent() {
      && session.None? == accumulated.None?
      && (session.Some? ==> session.value >= 0.0)
      && (accumulated.Some? ==> accumulated.value >= 0.0)
    }

    function LastReading(): real {
      if session.Some? then session.value else 0.0
    }

    function Register(): real {
      if accumulated.Some? then accumulated.value else 0.0
    }

    /** What a reader is told; -10 when one key is there without the other. */
    function Answer(): real {
      if session.None? != accumulated.None? then -10.0 else Register()
    }
  }

  /** How much a reading adds: its rise, or all of it when the counter has started again. */
  function Added(previous: real, reading: real): real {
    if reading < previous then reading else reading - previous
  }

  /** The pair after a reading; one below zero (not yet measured) changes nothing. */
  function After(nvs: Nvs, reading: real): Nvs {
    if nvs.session.None? != nvs.accumulated.None? || reading < 0.0 then nvs
    else Nvs(Some(reading), Some(nvs.Register() + Added(nvs.LastReading(), reading)))
  }

  function AfterAll(nvs: Nvs, readings: seq<real>): Nvs
    decreases |readings|
  {
    if readings == [] then nvs else AfterAll(After(nvs, readings[0]), readings[1..])
  }

  predicate Measured(readings: seq<real>) {
    forall i | 0 <= i < |readings| :: readings[i] >= 0.0
  }

  // ----- what the register means

  /** The readings that a lower one follows, and the last. */
  function Peaks(readings: seq<real>): real {
    if readings == [] then 0.0
    else (if |readings| == 1 || readings[1] < readings[0] then readings[0] else 0.0) + Peaks(readings[1..])
  }

  lemma {:induction false} RegisterContinues(nvs: Nvs, readings: seq<real>)
    requires nvs.Consistent() && Measured(readings)
    ensures AfterAll(nvs, readings).Consistent()
    ensures AfterAll(nvs, readings).Register() + nvs.LastReading()
            == nvs.Register() + Peaks([nvs.LastReading()] + readings)
    decreases |readings|
  {
    var all := [nvs.LastReading()] + readings;
    if readings != [] {
      assert all[1..] == readings == [readings[0]] + readings[1..];
      RegisterContinues(After(nvs, readings[0]), readings[1..]);
    } else {
      assert all[1..] == [];
    }
  }

  /** The register is the sum of the readings before every fall, and of the last. */
  lemma RegisterIsSumOfPeaks(readings: seq<real>)
    requires Measured(readings)
    ensures AfterAll(Nvs(None, None), readings).Register() == Peaks(readings)
  {
    RegisterContinues(Nvs(None, None), readings);
    var all := [0.0] + readings;
    assert all[1..] == readings;
  }

  /** A reading of the counter, and whether the counter started again before it. */
  datatype Metered = Metered(energy: real, startedAgain: bool)

  /** Between restarts the counter only rises. */
  predicate Plausible(ms: seq<Metered>) {
    && (forall i :: 0 <= i < |ms| ==> ms[i].energy >= 0.0)
    && forall i :: 0 < i < |ms| && !ms[i].startedAgain ==> ms[i].energy >= ms[i - 1].energy
  }

  function Readings(ms: seq<Metered>): (readings: seq<real>)
    ensures |readings| == |ms|
  {
    seq(|ms|, i requires 0 <= i < |ms| => ms[i].energy)
  }

  /** What was metered: the last reading before every restart, and the last of all. */
  function Consumed(ms: seq<Metered>): real {
    if ms == [] then 0.0
    else (if |ms| == 1 || ms[1].startedAgain then ms[0].energy else 0.0) + Consumed(ms[1..])
  }

  /** The counter started again and was read above where it had been. */
  predicate Unseen(ms: seq<Metered>, i: nat)
    requires 0 < i < |ms|
  {
    ms[i].startedAgain && ms[i].energy >= ms[i - 1].energy
  }

  function Missed(ms: seq<Metered>): real {
    if |ms| < 2 then 0.0 else (if Unseen(ms, 1) then ms[0].energy else 0.0) + Missed(ms[1..])
  }

  lemma {:induction false} PeaksMissUnseen(ms: seq<Metered>)
    requires Plausible(ms)
    ensures Consumed(ms) == Peaks(Readings(ms)) + Missed(ms)
    ensures Missed(ms) >= 0.0
    ensures (forall i :: 0 < i < |ms| && Unseen(ms, i) ==> ms[i - 1].energy == 0.0) <==> Missed(ms) == 0.0
    decreases |ms|
  {
    if |ms| >= 1 {
      var rest := ms[1..];
      assert Plausible(rest) by {
        assert forall i | 0 < i < |rest| :: rest[i] == ms[i + 1] && rest[i - 1] == ms[i];
      }
      assert Readings(ms)[1..] == Readings(rest);
      PeaksMissUnseen(rest);
      assert forall i | 0 < i < |rest| :: Unseen(rest, i) <==> Unseen(ms, i + 1);
      if Missed(ms) == 0.0 {
        forall i | 0 < i < |ms| && Unseen(ms, i) ensures ms[i - 1].energy == 0.0 {
          if i > 1 {
            assert Unseen(rest, i - 1) && rest[i - 2] == ms[i - 1];
          }
        }
      }
    }
  }

  /**
   * The register is all that was metered, exactly when no restart was hidden by a higher reading;
   * otherwise it misses the sessions before the hidden restarts.
   */
  lemma RegisterMissesUnseenRestarts(ms: seq<Metered>)
    requires Plausible(ms)
    ensures AfterAll(Nvs(None, None), Readings(ms)).Register() == Consumed(ms) - Missed(ms)
    ensures AfterAll(Nvs(None, None), Readings(ms)).Register() == Consumed(ms)
            <==> forall i :: 0 < i < |ms| && Unseen(ms, i) ==> ms[i - 1].energy == 0.0
  {
    PeaksMissUnseen(ms);
    RegisterIsSumOfPeaks(Readings(ms));
  }

  /** Whatever is read, the register never goes down. */
  lemma {:induction false} RegisterNeverDecreases(nvs: Nvs, readings: seq<real>)
    requires nvs.Consistent()
    ensures AfterAll(nvs, readings).Register() >= nvs.Register()
    decreases |readings|
  {
    if readings != [] {
      RegisterNeverDecreases(After(nvs, readings[0]), readings[1..]);
    }
  }

  // ----- restarts do not matter

  /** A reading through get_accumulated_energy, which passes 0.0 first when it sees a fall. */
  function Through(nvs: Nvs, previousMax: real, reading: real): Nvs {
    After(if previousMax > reading then After(nvs, 0.0) else nvs, reading)
  }

  datatype Reading = Reading(energy: real, restarted: bool)

  /** A restart forgets `previousMax`, which then counts as zero. */
  function ThroughAll(nvs: Nvs, previousMax: real, readings: seq<Reading>): Nvs
    decreases |readings|
  {
    if readings == [] then nvs
    else
      var r := readings[0];
      ThroughAll(Through(nvs, if r.restarted then 0.0 else previousMax, r.energy), r.energy, readings[1..])
  }

  function Energies(readings: seq<Reading>): (e: seq<real>)
    ensures |e| == |readings|
  {
    seq(|readings|, i requires 0 <= i < |readings| => readings[i].energy)
  }

  predicate Remembered(nvs: Nvs, previousMax: real) {
    previousMax == 0.0 || previousMax == nvs.LastReading()
  }

  lemma ThroughIsAfter(nvs: Nvs, previousMax: real, reading: real)
    requires nvs.Consistent() && reading >= 0.0 && Remembered(nvs, previousMax)
    ensures Through(nvs, previousMax, reading) == After(nvs, reading)
    ensures After(nvs, reading).Consistent() && Remembered(After(nvs, reading), reading)
  {}

  /** Wherever restarts fall, the pair is what the readings alone make of it. */
  lemma {:induction false} RestartsDoNotMatter(nvs: Nvs, previousMax: real, readings: seq<Reading>)
    requires nvs.Consistent() && Remembered(nvs, previousMax) && Measured(Energies(readings))
    ensures ThroughAll(nvs, previousMax, readings) == AfterAll(nvs, Energies(readings))
    decreases |readings|
  {
    if readings != [] {
      var r, e := readings[0], Energies(readings);
      assert e[0] == r.energy;
      assert e[1..] == Energies(readings[1..]);
      ThroughIsAfter(nvs, if r.restarted then 0.0 else previousMax, r.energy);
      RestartsDoNotMatter(After(nvs, r.energy), r.energy, readings[1..]);
    }
  }

  // ----- sessions

  datatype Label = Begin | Ending

  /** A record of a session file: the exact register, the value written, the session energy. */
  datatype Record = Record(tag: Label, exact: real, shown: real, energy: real)

  function Shown(x: real): real {
    ((x * 1000.0 + 0.5).Floor as real) / 1000.0
  }

  function Rounded(x: real): real {
    ((x * 10000.0 + 0.5).Floor as real) / 10000.0
  }

  /** Everything a restart keeps is in `nvs` and in the records. */
  datatype State = State(nvs: Nvs, open: bool, energy: real, previousMax: real, latest: real,
                         valueB: real, valueE: real, fault: bool, records: seq<Record>)

  datatype Event = Connect | Measure(mcu: real) | Sample | Disconnect(mcu: real) | Restart

  /** get_accumulated_energy */
  function TakeReading(s: State): State {
    var nvs := Through(s.nvs, s.previousMax, s.energy);
    s.(nvs := nvs, previousMax := s.energy, latest := Shown(nvs.Answer()))
  }

  /** OCMF_CompletedSession_StartStopOCMFLog */
  function Log(s: State, tag: Label): State {
    var r := TakeReading(s);
    var t := r.(records := r.records + [Record(tag, r.nvs.Register(), r.latest, r.energy)]);
    if tag == Ending then t.(valueB := 0.0, valueE := t.latest)
    else if t.valueE != 0.0 then t.(valueB := t.latest, fault := t.fault || t.latest != t.valueE)
    else t
  }

  /** chargeSession_UpdateEnergy */
  function Raised(s: State, mcu: real): State {
    if !s.open then s.(energy := 0.0)
    else if mcu > 0.001 && Rounded(mcu) > s.energy then s.(energy := Rounded(mcu))
    else s
  }

  function Next(s: State, e: Event): State {
    match e
    case Connect => if s.open then s else Log(s.(open := true, energy := 0.0), Begin)
    case Measure(mcu) => Raised(s, mcu)
    case Sample => TakeReading(s)
    case Disconnect(mcu) => (if s.open then Log(Raised(s, mcu), Ending) else s).(open := false, energy := 0.0)
    case Restart => Boot(s.nvs, s.records)
  }

  function Boot(nvs: Nvs, records: seq<Record>): State {
    State(nvs, false, 0.0, 0.0, 0.0, 0.0, 0.0, false, records)
  }

  function Run(s: State, events: seq<Event>): State
    decreases |events|
  {
    if events == [] then s else Run(Next(s, events[0]), events[1..])
  }

  // ----- conservation

  /** What the records of a charger must add up to. */
  predicate Follows(before: Record, after: Record) {
    if after.tag == Ending then
      before.tag == Begin && after.exact - before.exact == after.energy
    else if before.tag == Ending then
      after.exact == before.exact && after.shown == before.shown
    else
      after.exact >= before.exact
  }

  predicate Genuine(r: Record) {
    r.shown == Shown(r.exact)
  }

  predicate Conserved(records: seq<Record>) {
    && (records != [] ==> records[0].tag == Begin)
    && (forall i :: 0 <= i < |records| ==> Genuine(records[i]))
    && forall i :: 0 < i < |records| ==> Follows(records[i - 1], records[i])
  }

  function Last(records: seq<Record>): Record
    requires records != []
  {
    records[|records| - 1]
  }

  /** The register between two records. */
  predicate Sound(s: State) {
    && s.nvs.Consistent()
    && s.energy >= 0.0
    && Remembered(s.nvs, s.previousMax)
    && !s.fault
    && Conserved(s.records)
    && (if s.open then
          && s.records != [] && Last(s.records).tag == Begin
          && s.nvs.Register() == Last(s.records).exact + s.nvs.LastReading()
          && s.nvs.LastReading() <= s.energy
        else
          && s.energy == 0.0
          && (s.records != [] && Last(s.records).tag == Begin ==> s.nvs.Register() >= Last(s.records).exact)
          && (s.records != [] && Last(s.records).tag == Ending ==>
                s.nvs.Register() == Last(s.records).exact && Last(s.records).shown == Shown(s.nvs.Register()))
          && (s.valueE != 0.0 ==>
                s.records != [] && Last(s.records).tag == Ending && s.valueE == Last(s.records).shown))
  }

  /** A reading settles the register: nothing of the session is outstanding afterwards. */
  lemma ReadingSound(s: State)
    requires Sound(s)
    ensures Sound(TakeReading(s))
    ensures TakeReading(s).nvs.LastReading() == s.energy
    ensures TakeReading(s).nvs.Register() == s.nvs.Register() + if s.open then s.energy - s.nvs.LastReading() else 0.0
  {
    hide Shown, Conserved;
    ThroughIsAfter(s.nvs, s.previousMax, s.energy);
  }

  lemma ConservedSnoc(records: seq<Record>, r: Record)
    requires Conserved(records)
    requires Genuine(r) && if records == [] then r.tag == Begin else Follows(Last(records), r)
    ensures Conserved(records + [r])
  {
    var all := records + [r];
    hide Shown;
    forall i | 0 < i < |all| ensures Follows(all[i - 1], all[i]) {
      if i < |records| {
        assert Follows(records[i - 1], records[i]);
      }
    }
  }

  lemma RaisedSound(s: State, mcu: real)
    requires Sound(s)
    ensures Sound(Raised(s, mcu)) && Raised(s, mcu).open == s.open && Raised(s, mcu).nvs == s.nvs
  {
    hide Rounded, Conserved, Shown;
  }

  lemma ConnectSound(s: State)
    requires Sound(s) && !s.open
    ensures Sound(Next(s, Connect))
    ensures Next(s, Connect).nvs.Register() >= s.nvs.Register()
  {
    hide Shown, Conserved, Rounded;
    var r := TakeReading(s);
    assert TakeReading(s.(open := true)) == r.(open := true);
    ReadingSound(s);
    var record := Record(Begin, r.nvs.Register(), r.latest, r.energy);
    if s.records != [] {
      assert Follows(Last(s.records), record);
    }
    ConservedSnoc(s.records, record);
  }

  lemma DisconnectSound(s: State, mcu: real)
    requires Sound(s) && s.open
    ensures Sound(Next(s, Disconnect(mcu)))
    ensures Next(s, Disconnect(mcu)).nvs.Register() >= s.nvs.Register()
  {
    hide Shown, Conserved, Rounded;
    RaisedSound(s, mcu);
    var r := TakeReading(Raised(s, mcu));
    ReadingSound(Raised(s, mcu));
    var record := Record(Ending, r.nvs.Register(), r.latest, r.energy);
    assert Follows(Last(s.records), record);
    ConservedSnoc(s.records, record);
  }

  lemma NextSound(s: State, e: Event)
    requires Sound(s)
    ensures Sound(Next(s, e))
    ensures Next(s, e).nvs.Register() >= s.nvs.Register()
  {
    match e
    case Connect =>
      if !s.open { ConnectSound(s); }
    case Measure(mcu) => RaisedSound(s, mcu);
    case Sample => ReadingSound(s);
    case Disconnect(mcu) =>
      hide Shown, Conserved, Rounded;
      if s.open { DisconnectSound(s, mcu); }
    case Restart =>
      hide Shown, Conserved;
  }

  /**
   * Over every run of sessions, readings and restarts: the records add up, no mismatch between a
   * session's end and the next one's beginning is ever reported, and the register never goes down.
   */
  lemma {:induction false} RunConserves(s: State, events: seq<Event>)
    requires Sound(s)
    ensures Sound(Run(s, events))
    ensures Conserved(Run(s, events).records) && !Run(s, events).fault
    ensures Run(s, events).nvs.Register() >= s.nvs.Register()
    decreases |events|
  {
    hide Next;
    if events != [] {
      NextSound(s, events[0]);
      RunConserves(Next(s, events[0]), events[1..]);
    }
  }

  // ----- totals

  function Delivered(records: seq<Record>): real {
    if records == [] then 0.0
    else Delivered(records[..|records| - 1]) + if Last(records).tag == Ending then Last(records).energy else 0.0
  }

  /** No session lost its end to a restart: the beginnings and ends alternate. */
  predicate Uninterrupted(records: seq<Record>) {
    forall i :: 0 < i < |records| ==> records[i].tag != records[i - 1].tag
  }

  /** What interrupted sessions had put on the register before the next one began. */
  function Interrupted(records: seq<Record>): real {
    if |records| < 2 then 0.0
    else
      var before, after := records[|records| - 2], records[|records| - 1];
      Interrupted(records[..|records| - 1]) +
      if before.tag == Begin && after.tag == Begin then after.exact - before.exact else 0.0
  }

  lemma {:induction false} RegisterIsTotal(records: seq<Record>)
    requires Conserved(records) && records != []
    ensures Last(records).exact == records[0].exact + Delivered(records) + Interrupted(records)
    ensures Interrupted(records) >= 0.0
    ensures Uninterrupted(records) ==> Interrupted(records) == 0.0
  {
    var front := records[..|records| - 1];
    if front != [] {
      RegisterIsTotal(front);
      assert Follows(records[|records| - 2], records[|records| - 1]);
      assert Last(front) == records[|records| - 2];
      assert Uninterrupted(records)
             ==> Uninterrupted(front) && records[|records| - 1].tag != records[|records| - 2].tag;
    } else {
      assert Delivered(front) == 0.0;
    }
  }

  /** The register at the first record is the one the charger came with. */
  predicate StartsAt(s: State, base: real) {
    if s.records == [] then !s.open && s.nvs.Register() == base else s.records[0].exact == base
  }

  lemma {:induction false} RunStartsAt(s: State, events: seq<Event>, base: real)
    requires Sound(s) && StartsAt(s, base)
    ensures Sound(Run(s, events)) && StartsAt(Run(s, events), base)
    decreases |events|
  {
    hide Shown, Conserved, Rounded;
    if events != [] {
      NextSound(s, events[0]);
      if s.records == [] && events[0] != Restart {
        ReadingSound(s);
        assert TakeReading(s.(open := true)) == TakeReading(s).(open := true);
      }
      RunStartsAt(Next(s, events[0]), events[1..], base);
    }
  }

  /**
   * After any number of sessions the register at the last record is what it was at the start plus
   * the energy of every ended session, plus what interrupted sessions left behind.
   */
  lemma RunTotals(nvs: Nvs, events: seq<Event>)
    requires nvs.Consistent()
    ensures var s := Run(Boot(nvs, []), events);
            s.records != [] ==> Last(s.records).exact == nvs.Register() + Delivered(s.records) + Interrupted(s.records)
    ensures var s := Run(Boot(nvs, []), events); Uninterrupted(s.records) ==> Interrupted(s.records) == 0.0
  {
    var s := Run(Boot(nvs, []), events);
    RunStartsAt(Boot(nvs, []), events, nvs.Register());
    if s.records != [] {
      RegisterIsTotal(s.records);
    }
  }

  /** The written values differ from the session's energy by rounding only, so no check fails. */
  lemma WrittenValuesAgree(before: Record, after: Record)
    requires Genuine(before) && Genuine(after) && Follows(before, after) && after.tag == Ending
    ensures -0.001 < after.shown - before.exact - after.energy < 0.001
    ensures -0.001 <= after.shown - before.shown - after.energy <= 0.001
  {
    ShownFacts(before.exact);
    ShownFacts(after.exact);
  }

  lemma ShownFacts(x: real)
    ensures -0.0005 <= Shown(x) - x <= 0.0005
  {
    var n := (x * 1000.0 + 0.5).Floor;
    assert n as real <= x * 1000.0 + 0.5 < n as real + 1.0;
  }

  // ----- the session energy

  function Measures(s: State, readings: seq<real>): State
    decreases |readings|
  {
    if readings == [] then s else Measures(Next(s, Measure(readings[0])), readings[1..])
  }

  /** The energy of an open session is the highest measurement above 0.001 so far. */
  lemma {:induction false} SessionEnergyIsMaximum(s: State, readings: seq<real>)
    requires s.open
    ensures Measures(s, readings) == s.(energy := Measures(s, readings).energy)
    ensures Measures(s, readings).energy >= s.energy
    ensures forall i | 0 <= i < |readings| && readings[i] > 0.001 ::
              Measures(s, readings).energy >= Rounded(readings[i])
    ensures Measures(s, readings).energy == s.energy
            || exists i | 0 <= i < |readings| :: Measures(s, readings).energy == Rounded(readings[i])
    decreases |readings|
  {
    if readings != [] {
      var rest := readings[1..];
      var t := Next(s, Measure(readings[0]));
      hide Rounded;
      SessionEnergyIsMaximum(t, rest);
      var last := Measures(s, readings).energy;
      assert last == Measures(t, rest).energy;
      forall i | 0 <= i < |readings| && readings[i] > 0.001 ensures last >= Rounded(readings[i]) {
        if i > 0 {
          assert readings[i] == rest[i - 1];
        }
      }
      if last != t.energy {
        var i :| 0 <= i < |rest| && last == Rounded(rest[i]);
        assert readings[i + 1] == rest[i];
      }
    }
  }

  /** Rounding to 0.1 Wh moves a measurement by at most half of that. */
  lemma RoundedClose(x: real)
    ensures -0.00005 <= Rounded(x) - x <= 0.00005
  {
    var n := (x * 10000.0 + 0.5).Floor;
    assert n as real <= x * 10000.0 + 0.5 < n as real + 1.0;
  }

  /** Measurements and samples, as they come during a session. */
  predicate Metering(events: seq<Event>) {
    forall i | 0 <= i < |events| :: events[i].Measure? || events[i].Sample?
  }

  lemma MeterStep(s: State, e: Event)
    requires s.open && (e.Measure? || e.Sample?)
    ensures var t := Next(s, e);
            && t.open && t.records == s.records && t.energy >= s.energy
            && (e.Measure? && e.mcu > 0.001 ==> t.energy >= Rounded(e.mcu))
            && (t.energy == s.energy || (e.Measure? && e.mcu > 0.001 && t.energy == Rounded(e.mcu)))
  {
    hide Rounded, Shown;
  }

  /** The measurement above 0.001 that an energy was rounded from. */
  ghost predicate RoundedFrom(events: seq<Event>, energy: real) {
    exists i | 0 <= i < |events| ::
      events[i].Measure? && events[i].mcu > 0.001 && energy == Rounded(events[i].mcu)
  }

  lemma {:induction false} SessionMeters(s: State, events: seq<Event>)
    requires s.open && Metering(events)
    ensures var t := Run(s, events);
            && t.open && t.records == s.records && t.energy >= s.energy
            && (forall i | 0 <= i < |events| && events[i].Measure? && events[i].mcu > 0.001 ::
                  t.energy >= Rounded(events[i].mcu))
            && (t.energy == s.energy || RoundedFrom(events, t.energy))
    decreases |events|
  {
    hide Next, Rounded;
    if events != [] {
      var e, rest := events[0], events[1..];
      MeterStep(s, e);
      SessionMeters(Next(s, e), rest);
      var t := Run(s, events);
      forall i | 0 <= i < |events| && events[i].Measure? && events[i].mcu > 0.001
        ensures t.energy >= Rounded(events[i].mcu)
      {
        assert i > 0 ==> events[i] == rest[i - 1];
      }
      if t.energy != Next(s, e).energy {
        var i :| 0 <= i < |rest| && rest[i].Measure? && rest[i].mcu > 0.001 && t.energy == Rounded(rest[i].mcu);
        assert events[i + 1] == rest[i];
      } else if t.energy != s.energy {
        assert events[0].Measure?;
      }
    }
  }

  lemma RunSnoc(s: State, events: seq<Event>, e: Event)
    ensures Run(s, events + [e]) == Next(Run(s, events), e)
    decreases |events|
  {
    hide Next;
    if events == [] {
      assert [] + [e] == [e] && [e][1..] == [];
    } else {
      assert (events + [e])[0] == events[0] && (events + [e])[1..] == events[1..] + [e];
      RunSnoc(Next(s, events[0]), events[1..], e);
    }
  }

  lemma ConnectRecords(s: State)
    requires Sound(s) && !s.open
    ensures var t := Next(s, Connect);
            && t.open && t.energy == 0.0 && |t.records| == |s.records| + 1 && t.records[..|s.records|] == s.records
            && Last(t.records).tag == Begin && Last(t.records).energy == 0.0
            && Last(t.records).exact == t.nvs.Register()
  {
    hide Shown, Conserved;
  }

  lemma DisconnectRecords(s: State, mcu: real)
    requires Sound(s) && s.open
    ensures var t := Next(s, Disconnect(mcu));
            && !t.open && |t.records| == |s.records| + 1 && t.records[..|s.records|] == s.records
            && Last(t.records).tag == Ending && Last(t.records).exact == t.nvs.Register()
            && Last(t.records).energy == Next(s, Measure(mcu)).energy
  {
    hide Shown, Conserved, Rounded;
  }

  /** A beginning that does not show the value its predecessor ended with is reported, unless a restart forgot that. */
  lemma MismatchReported(s: State)
    requires !s.open
    ensures var t := Next(s, Connect);
            t.fault <==> s.fault || (s.valueE != 0.0 && Last(t.records).shown != s.valueE)
  {
    hide Shown;
  }

  /**
   * A whole session: exactly a B and an E record follow. The energy of E is the highest of the significant
   * measurements, the last one included, and it is what the register has gained from B to E.
   */
  lemma WholeSession(s: State, events: seq<Event>, mcu: real)
    requires Sound(s) && !s.open && Metering(events)
    ensures var t := Run(Next(s, Connect), events + [Disconnect(mcu)]);
            && |t.records| == |s.records| + 2 && t.records[..|s.records|] == s.records
            && var b, e := t.records[|s.records|], t.records[|s.records| + 1];
               && b.tag == Begin && e.tag == Ending && e.exact - b.exact == e.energy
               && t.nvs.Register() == e.exact
               && (forall i | 0 <= i < |events| && events[i].Measure? && events[i].mcu > 0.001 ::
                     e.energy >= Rounded(events[i].mcu))
               && (mcu > 0.001 ==> e.energy >= Rounded(mcu))
               && (e.energy == 0.0 || RoundedFrom(events + [Measure(mcu)], e.energy))
  {
    hide Next, Rounded, Shown, Conserved;
    var c, all := Next(s, Connect), events + [Measure(mcu)];
    ConnectRecords(s);
    NextSound(s, Connect);
    SessionMeters(c, events);
    RunConserves(c, events);
    var m := Run(c, events);
    RunSnoc(c, events, Disconnect(mcu));
    MeterStep(m, Measure(mcu));
    DisconnectRecords(m, mcu);
    NextSound(m, Disconnect(mcu));
    var t := Next(m, Disconnect(mcu));
    EndFollows(t.records);
    assert t.records[..|m.records|][..|s.records|] == s.records;
    if Last(t.records).energy != m.energy {
      assert all[|events|] == Measure(mcu);
    } else if m.energy != 0.0 {
      var i :| 0 <= i < |events| && events[i].Measure? && events[i].mcu > 0.001 && m.energy == Rounded(events[i].mcu);
      assert all[i] == events[i];
    }
  }

  lemma EndFollows(records: seq<Record>)
    requires Conserved(records) && |records| >= 2 && Last(records).tag == Ending
    ensures Last(records).exact - records[|records| - 2].exact == Last(records).energy
  {
    assert Follows(records[|records| - 2], records[|records| - 1]);
  }

  // ----- the code

  class EnergyMeter {
    // storage.c: namespace "energy"
    var session: Option<real>
    var accumulated: Option<real>
    // chargeSession.c
    var sessionOpen: bool
    var sessionEnergy: real
    // OCMF.c
    var previousEnergyMax: real
    var accumulatedEnergy: real
    var valueB: real
    var valueE: real
    var energyFault: bool
    ghost var records: seq<Record>

    ghost function Stored(): Nvs
      reads this
    {
      Nvs(session, accumulated)
    }

    ghost function Current(): State
      reads this
    {
      State(Stored(), sessionOpen, sessionEnergy, previousEnergyMax, accumulatedEnergy, valueB, valueE, energyFault,
            records)
    }

    constructor (session: Option<real>, accumulated: Option<real>, ghost earlier: seq<Record>)
      ensures Current() == Boot(Nvs(session, accumulated), earlier)
    {
      this.session := session;
      this.accumulated := accumulated;
      sessionOpen := false;
      sessionEnergy := 0.0;
      previousEnergyMax := 0.0;
      accumulatedEnergy := 0.0;
      valueB := 0.0;
      valueE := 0.0;
      energyFault := false;
      records := earlier;
    }

    method UpdateAccumulatedEnergy(reading: real) returns (result: real)
      modifies this`session, this`accumulated
      ensures Stored() == After(old(Stored()), reading)
      ensures result == Stored().Answer()
      ensures old(session).None? != old(accumulated).None? ==> result == -10.0
      ensures reading < 0.0 || old(session).None? != old(accumulated).None? ==> Stored() == old(Stored())
      ensures reading >= 0.0 && old(session).None? == old(accumulated).None? ==>
                var previous := if old(session).Some? then old(session).value else 0.0;
                var before := if old(accumulated).Some? then old(accumulated).value else 0.0;
                && session == Some(reading) && accumulated == Some(result)
                && result == before + (if reading < previous then reading else reading - previous)
    {
      var previousSession, previousAccumulated := 0.0, 0.0;
      var initialised := false;
      if session.None? && accumulated.None? {
        initialised := true;
      } else if session.None? || accumulated.None? {
        return -10.0;
      } else {
        previousSession := session.value;
        previousAccumulated := accumulated.value;
      }
      if reading < 0.0 {
        return previousAccumulated;
      } else if reading > previousSession {
        result := previousAccumulated + (reading - previousSession);
      } else if reading < previousSession {
        result := previousAccumulated + reading;
      } else if initialised {
        result := 0.0;
      } else {
        return previousAccumulated;
      }
      session := Some(reading);
      accumulated := Some(result);
    }

    method GetAccumulatedEnergy() returns (result: real)
      modifies this`session, this`accumulated, this`previousEnergyMax, this`accumulatedEnergy
      ensures Current() == TakeReading(old(Current()))
      ensures result == accumulatedEnergy
    {
      hide Shown;
      if previousEnergyMax > sessionEnergy {
        var _ := UpdateAccumulatedEnergy(0.0);
      }
      var total := UpdateAccumulatedEnergy(sessionEnergy);
      previousEnergyMax := sessionEnergy;
      accumulatedEnergy := Shown(total);
      result := accumulatedEnergy;
    }

    /** The 'B' or 'E' record of a session, with the check that one takes up where the other left. */
    method StartStopLog(tag: Label)
      modifies this
      ensures Current() == Log(old(Current()), tag)
    {
      hide Shown, After;
      var energy := GetAccumulatedEnergy();
      records := records + [Record(tag, Stored().Register(), energy, sessionEnergy)];
      if tag == Ending {
        valueB := 0.0;
        valueE := energy;
      } else if valueE != 0.0 {
        valueB := energy;
        if valueB != valueE {
          energyFault := true;
        }
      }
    }

    method UpdateEnergy(mcu: real)
      modifies this`sessionEnergy
      ensures Current() == Raised(old(Current()), mcu)
    {
      hide Rounded;
      if sessionOpen {
        if mcu > 0.001 {
          var energy := Rounded(mcu);
          if energy > sessionEnergy {
            sessionEnergy := energy;
          }
        }
      } else {
        sessionEnergy := 0.0;
      }
    }

    method Start()
      modifies this
      ensures Current() == Next(old(Current()), Connect)
    {
      hide Shown, After;
      if !sessionOpen {
        sessionEnergy := 0.0;
        sessionOpen := true;
        StartStopLog(Begin);
      }
    }

    /** Disconnecting finalizes the session, if there is one, and clears it. */
    method FinalizeAndClear(mcu: real)
      modifies this
      ensures Current() == Next(old(Current()), Disconnect(mcu))
    {
      hide Shown, Rounded, After;
      if sessionOpen {
        UpdateEnergy(mcu);
        StartStopLog(Ending);
      }
      sessionOpen := false;
      sessionEnergy := 0.0;
    }
  }
}
