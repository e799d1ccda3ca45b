/**
 * The files of charge sessions that wait to be sent: main/offlineSession.c, with the send loop of
 * sessionHandler_CheckAndSendOfflineSessions in main/sessionHandler.c. File operations succeed.
 */
module OfflineSessions {
  import opened Bytes

  const MAX_FILES: nat := 100
  const MAX_RECORDS: nat := 100

  // ----- timestamps in two words

  function LowWord(timestamp: Word64): Word32 {
    timestamp % 0x1_0000_0000
  }

  function HighWord(version: nat, timestamp: Word64): Word32 {
    if version == 2 then timestamp / 0x1_0000_0000 % 0x1_0000_0000 else 0
  }

  function Timestamp(version: nat, low: Word32, high: Word32): Word64 {
    if version == 2 then high * 0x1_0000_0000 + low else low
  }

  /** Version 2 keeps every 64-bit time; version 1 exactly those that fit one word. */
  lemma TimestampRoundTrip(version: nat, timestamp: Word64)
    ensures Timestamp(version, LowWord(timestamp), HighWord(version, timestamp)) == timestamp
            <==> version == 2 || timestamp < 0x1_0000_0000
  {
    assert timestamp == timestamp / 0x1_0000_0000 * 0x1_0000_0000 + timestamp % 0x1_0000_0000;
  }

  // ----- files and their records

  datatype Tag = Begin | Tariff | Final

  datatype Record = Record(tag: Tag, low: Word32, high: Word32, energy: real)

  /** `id` counts the session files ever created; `ended` says that the end time is in the file. */
  datatype File = File(id: nat, version: nat, records: seq<Record>, ended: bool)

  /** B T* or B T* E, or nothing yet; at most 100 records, the last place kept for E. */
  predicate Grammar(records: seq<Record>) {
    && |records| <= MAX_RECORDS
    && (forall i :: 0 <= i < |records| ==> (records[i].tag == Begin <==> i == 0))
    && (forall i :: 0 <= i < |records| - 1 ==> records[i].tag != Final)
    && (|records| == MAX_RECORDS ==> HasFinal(records))
  }

  predicate HasFinal(records: seq<Record>) {
    records != [] && records[|records| - 1].tag == Final
  }

  datatype Slot = Slot(number: nat, file: File)

  /** The files by number, the one being written (`active`), and what has been sent or dropped. */
  datatype State = State(queue: seq<Slot>, active: bool, open: bool,
                         created: nat, published: seq<File>, discarded: set<nat>)

  datatype Event =
    | Create
    | Append(tag: Tag, timestamp: Word64, energy: real)
    | Finish(discard: bool)
    | Send(accepted: nat -> bool)
    | Boot(connected: bool)

  function Newest(queue: seq<Slot>): Slot
    requires queue != []
  {
    queue[|queue| - 1]
  }

  function WithNewest(queue: seq<Slot>, file: File): seq<Slot>
    requires queue != []
  {
    queue[..|queue| - 1] + [Slot(Newest(queue).number, file)]
  }

  function NewNumber(queue: seq<Slot>): int {
    if queue == [] then 0
    else if Newest(queue).number >= MAX_FILES - 1 then -1
    else Newest(queue).number + 1
  }

  predicate Refused(records: seq<Record>, tag: Tag) {
    || |records| == 0
    || (tag == Tariff && |records| >= MAX_RECORDS - 1)
    || (tag == Final && |records| >= MAX_RECORDS)
  }

  function NewRecord(version: nat, e: Event): Record
    requires e.Append?
  {
    Record(e.tag, LowWord(e.timestamp), HighWord(version, e.timestamp), e.energy)
  }

  /** offlineSession_append_energy on the active file; B starts the file over. */
  function Appended(s: State, e: Event): State
    requires e.Append? && s.queue != []
  {
    var f := Newest(s.queue).file;
    var record := NewRecord(f.version, e);
    if e.tag == Begin then
      s.(open := true, queue := WithNewest(s.queue, f.(records := [record])))
    else if !s.open then s
    else
      var t := s.(open := e.tag != Final);
      if Refused(f.records, e.tag) then t else t.(queue := WithNewest(s.queue, f.(records := f.records + [record])))
  }

  function Finished(s: State, discard: bool): State
    requires s.queue != []
  {
    var f := Newest(s.queue).file;
    if discard then s.(active := false, queue := s.queue[..|s.queue| - 1], discarded := s.discarded + {f.id})
    else s.(active := false, queue := WithNewest(s.queue, f.(ended := true)))
  }

  /** How many of `n` files the broker takes before it refuses one. */
  function Taken(accepted: nat -> bool, i: nat, n: nat): (k: nat)
    requires i <= n
    ensures i <= k <= n
    decreases n - i
  {
    if i < n && accepted(i) then Taken(accepted, i + 1, n) else i
  }

  function Files(queue: seq<Slot>): (files: seq<File>)
    ensures |files| == |queue|
  {
    seq(|queue|, i requires 0 <= i < |queue| => queue[i].file)
  }

  function Next(s: State, e: Event): State {
    match e
    case Create =>
      if NewNumber(s.queue) < 0 then s.(active := false)
      else
        s.(queue := s.queue + [Slot(NewNumber(s.queue), File(s.created, 2, [], false))], active := true,
           created := s.created + 1)
    case Append(_, _, _) => if s.active && s.queue != [] then Appended(s, e) else s
    case Finish(discard) => if s.active && s.queue != [] then Finished(s, discard) else s
    case Send(accepted) =>
      var k := Taken(accepted, 0, |s.queue|);
      s.(queue := s.queue[k..], published := s.published + Files(s.queue[..k]), active := s.active && k < |s.queue|)
    case Boot(connected) =>
      var resumed := connected && Resumable(s.queue);
      s.(active := resumed, open := resumed)
  }

  /** At boot with a car the newest session is taken up if it has no end time and a file 0 exists. */
  predicate Resumable(queue: seq<Slot>) {
    queue != [] && queue[0].number == 0 && !Newest(queue).file.ended
  }

  function Run(s: State, events: seq<Event>): State
    decreases |events|
  {
    if events == [] then s else Run(Next(s, events[0]), events[1..])
  }

  const EMPTY := State([], false, false, 0, [], {})

  // ----- order: first created, first sent

  predicate Ascending(ids: seq<nat>) {
    forall i, j :: 0 <= i < j < |ids| ==> ids[i] < ids[j]
  }

  function Ids(files: seq<File>): (ids: seq<nat>)
    ensures |ids| == |files|
  {
    seq(|files|, i requires 0 <= i < |files| => files[i].id)
  }

  predicate Rising(queue: seq<Slot>) {
    && (forall i :: 0 <= i < |queue| ==> queue[i].number < MAX_FILES)
    && forall i, j :: 0 <= i < j < |queue| ==> queue[i].number < queue[j].number
  }

  /** Everything ever sent, followed by everything that waits. */
  function History(s: State): seq<nat> {
    Ids(s.published + Files(s.queue))
  }

  /**
   * File numbers and creation order agree, nothing is sent twice, and every session that was
   * stored has been sent, is waiting or was dropped as an empty local one.
   */
  ghost predicate Orderly(s: State) {
    && Rising(s.queue)
    && Ascending(History(s))
    && (forall id: nat :: id < s.created <==> id in History(s) || id in s.discarded)
    && (forall id: nat :: id in s.discarded ==> id !in History(s))
    && (s.active ==> s.queue != [])
  }

  lemma IdsAppend(published: seq<File>, queue: seq<Slot>, slot: Slot)
    ensures Ids(published + Files(queue + [slot])) == Ids(published + Files(queue)) + [slot.file.id]
  {
    assert published + Files(queue + [slot]) == published + Files(queue) + [slot.file];
  }

  lemma CreateOrderly(s: State)
    requires Orderly(s)
    ensures Orderly(Next(s, Create))
  {
    var n := NewNumber(s.queue);
    if n >= 0 {
      var slot := Slot(n, File(s.created, 2, [], false));
      var t := Next(s, Create);
      IdsAppend(s.published, s.queue, slot);
      var h := History(s);
      assert forall i | 0 <= i < |h| :: h[i] < s.created by {
        assert forall i | 0 <= i < |h| :: h[i] in h;
      }
      assert History(t) == h + [s.created];
      forall id: nat ensures id < t.created <==> id in History(t) || id in t.discarded {
        assert id in History(t) <==> id in h || id == s.created;
      }
    }
  }

  /** Writing to the newest file leaves the order alone. */
  lemma WriteOrderly(s: State, f: File, active: bool, open: bool)
    requires Orderly(s) && s.queue != [] && f.id == Newest(s.queue).file.id
    ensures Orderly(s.(queue := WithNewest(s.queue, f), active := active, open := open))
  {
    var t := s.(queue := WithNewest(s.queue, f), active := active, open := open);
    assert Ids(Files(t.queue)) == Ids(Files(s.queue));
    assert History(t) == History(s) by {
      assert History(t) == Ids(t.published) + Ids(Files(t.queue));
      assert History(s) == Ids(s.published) + Ids(Files(s.queue));
    }
  }

  lemma DiscardOrderly(s: State)
    requires Orderly(s) && s.active
    ensures Orderly(Next(s, Finish(true)))
  {
    var t := Next(s, Finish(true));
    var slot := Newest(s.queue);
    assert s.queue == t.queue + [slot];
    IdsAppend(s.published, t.queue, slot);
    var h, g := History(s), History(t);
    assert h == g + [slot.file.id];
    assert forall i | 0 <= i < |g| :: g[i] == h[i];
    assert h[|g|] == slot.file.id;
    assert slot.file.id in h;
    forall id: nat ensures id in h <==> id in g || id == slot.file.id {}
    assert slot.file.id !in g;
  }

  lemma SendOrderly(s: State, k: nat)
    requires Orderly(s) && k <= |s.queue|
    ensures Orderly(s.(queue := s.queue[k..], published := s.published + Files(s.queue[..k]),
                       active := s.active && k < |s.queue|))
  {
    var t := s.(queue := s.queue[k..], published := s.published + Files(s.queue[..k]),
                active := s.active && k < |s.queue|);
    assert t.published + Files(t.queue) == s.published + Files(s.queue);
  }

  lemma NextOrderly(s: State, e: Event)
    requires Orderly(s)
    ensures Orderly(Next(s, e))
  {
    match e
    case Create => CreateOrderly(s);
    case Append(_, _, _) =>
      if s.active {
        var f := Newest(s.queue).file;
        var t := Next(s, e);
        hide Orderly;
        assert WithNewest(s.queue, f) == s.queue;
        WriteOrderly(s, Newest(t.queue).file, t.active, t.open);
      }
    case Finish(discard) =>
      if s.active {
        if discard {
          DiscardOrderly(s);
        } else {
          WriteOrderly(s, Newest(s.queue).file.(ended := true), false, s.open);
        }
      }
    case Send(accepted) =>
      SendOrderly(s, Taken(accepted, 0, |s.queue|));
    case Boot(_) =>
  }

  /** Whatever happens, sessions leave in the order they came, each at most once, none lost. */
  lemma {:induction false} RunOrderly(s: State, events: seq<Event>)
    requires Orderly(s)
    ensures Orderly(Run(s, events))
    ensures s.published <= Run(s, events).published
    decreases |events|
  {
    hide Orderly;
    if events != [] {
      NextOrderly(s, events[0]);
      RunOrderly(Next(s, events[0]), events[1..]);
    }
  }

  lemma EmptyOrderly()
    ensures Orderly(EMPTY) && Graceful(EMPTY)
  {}

  // ----- the grammar of the records

  /** An E with room behind it. */
  predicate TakesBehindFinal(records: seq<Record>) {
    HasFinal(records) && |records| < MAX_RECORDS
  }

  /** The grammar of every file, and no open file that could take a record behind its E. */
  predicate Graceful(s: State) {
    && (s.active ==> s.queue != [])
    && (forall i :: 0 <= i < |s.queue| ==> Grammar(s.queue[i].file.records))
    && (s.active && s.open ==> !TakesBehindFinal(Newest(s.queue).file.records))
  }

  /** A restart between writing E and writing the end time, with the session taken up again. */
  predicate ResumesAfterFinal(s: State, e: Event) {
    e.Boot? && e.connected && Resumable(s.queue) && TakesBehindFinal(Newest(s.queue).file.records)
  }

  lemma NewestWritten(s: State, t: State, f: File)
    requires Graceful(s) && s.queue != [] && t.queue == WithNewest(s.queue, f) && Grammar(f.records)
    requires t.active && t.open ==> !TakesBehindFinal(f.records)
    ensures Graceful(t)
  {
    hide Grammar;
    forall i | 0 <= i < |t.queue| ensures Grammar(t.queue[i].file.records) {
      assert i < |t.queue| - 1 ==> t.queue[i] == s.queue[i];
    }
  }

  lemma AppendGraceful(s: State, e: Event)
    requires Graceful(s) && e.Append? && s.active
    ensures Graceful(Next(s, e))
  {
    var f, t := Newest(s.queue).file, Next(s, e);
    assert Grammar(f.records);
    assert WithNewest(s.queue, f) == s.queue;
    assert Grammar(Newest(t.queue).file.records);
    NewestWritten(s, t, Newest(t.queue).file);
  }

  lemma SendGraceful(s: State, e: Event)
    requires Graceful(s) && e.Send?
    ensures Graceful(Next(s, e))
  {
    hide Grammar;
    var t := Next(s, e);
    var k := |s.queue| - |t.queue|;
    forall i | 0 <= i < |t.queue| ensures Grammar(t.queue[i].file.records) {
      assert t.queue[i] == s.queue[i + k];
    }
  }

  lemma NextGraceful(s: State, e: Event)
    requires Graceful(s) && !ResumesAfterFinal(s, e)
    ensures Graceful(Next(s, e))
  {
    match e
    case Create =>
    case Append(_, _, _) =>
      if s.active { AppendGraceful(s, e); }
    case Finish(_) =>
      hide Grammar;
    case Send(_) => SendGraceful(s, e);
    case Boot(_) =>
      hide Grammar;
  }

  predicate NeverResumesAfterFinal(s: State, events: seq<Event>)
    decreases |events|
  {
    events == [] || (!ResumesAfterFinal(s, events[0]) && NeverResumesAfterFinal(Next(s, events[0]), events[1..]))
  }

  lemma {:induction false} RunGraceful(s: State, events: seq<Event>)
    requires Graceful(s) && NeverResumesAfterFinal(s, events)
    ensures Graceful(Run(s, events))
    decreases |events|
  {
    hide Graceful;
    if events != [] {
      NextGraceful(s, events[0]);
      RunGraceful(Next(s, events[0]), events[1..]);
    }
  }

  /** From no files at all: every run is orderly, and graceful unless a session is taken up behind its E. */
  lemma RunFromEmpty(events: seq<Event>)
    ensures Orderly(Run(EMPTY, events))
    ensures NeverResumesAfterFinal(EMPTY, events) ==> Graceful(Run(EMPTY, events))
  {
    EmptyOrderly();
    hide Orderly, Graceful;
    RunOrderly(EMPTY, events);
    if NeverResumesAfterFinal(EMPTY, events) {
      RunGraceful(EMPTY, events);
    }
  }

  /** The E of an open session finds room exactly if the session has none yet, and is then the last record. */
  lemma FinalFindsRoom(s: State, e: Event)
    requires Graceful(s) && s.active && s.open && e.Append? && e.tag == Final
    requires Newest(s.queue).file.records != []
    ensures var f := Newest(s.queue).file;
            Newest(Next(s, e).queue).file
            == if HasFinal(f.records) then f else f.(records := f.records + [NewRecord(f.version, e)])
    ensures !Next(s, e).open && HasFinal(Newest(Next(s, e).queue).file.records)
  {
    assert Grammar(Newest(s.queue).file.records);
  }

  /** Taking up a session is safe for its records exactly when no E with room behind it is written. */
  lemma ResumingExactly(s: State, timestamp: Word64, energy: real)
    requires Graceful(s) && Resumable(s.queue)
    ensures Graceful(Next(Next(s, Boot(true)), Append(Final, timestamp, energy)))
            <==> !TakesBehindFinal(Newest(s.queue).file.records)
  {
    var t := Next(s, Boot(true));
    var e := Append(Final, timestamp, energy);
    if ResumesAfterFinal(s, Boot(true)) {
      var records := Newest(s.queue).file.records;
      var after := Newest(Next(t, e).queue).file.records;
      assert after == records + [NewRecord(Newest(s.queue).file.version, e)];
      assert after[|records| - 1].tag == Final;
    } else {
      NextGraceful(s, Boot(true));
      NextGraceful(t, e);
    }
  }

  lemma RunCons(s: State, e: Event, rest: seq<Event>)
    ensures Run(s, [e] + rest) == Run(Next(s, e), rest)
  {
    hide Next;
    assert ([e] + rest)[1..] == rest;
  }

  function EndedFile(t: Word64, energy: real): File {
    File(0, 2, [NewRecord(2, Append(Begin, t, energy)), NewRecord(2, Append(Final, t, energy))], false)
  }

  function OneFile(file: File, open: bool): State {
    State([Slot(0, file)], true, open, 1, [], {})
  }

  lemma AppendToOne(file: File, open: bool, e: Event)
    requires e.Append? && (e.tag != Begin ==> open && !Refused(file.records, e.tag))
    ensures Next(OneFile(file, open), e)
            == OneFile(file.(records := (if e.tag == Begin then [] else file.records) + [NewRecord(file.version, e)]),
                       e.tag != Final)
  {
    hide NewRecord, Refused;
    var s := OneFile(file, open);
    var records := (if e.tag == Begin then [] else file.records) + [NewRecord(file.version, e)];
    assert file.records[..|file.records|] == file.records && file.records[..0] == [];
    AppendedIs(s, e, file, file.(records := records));
    assert WithNewest(s.queue, file.(records := records)) == [Slot(0, file.(records := records))];
    hide Appended, WithNewest;
  }

  lemma SessionEnds(t: Word64, energy: real)
    ensures Next(Next(Next(EMPTY, Create), Append(Begin, t, energy)), Append(Final, t, energy))
            == OneFile(EndedFile(t, energy), false)
  {
    var file := File(0, 2, [], false);
    assert Next(EMPTY, Create) == OneFile(file, false) by {
      assert [] + [Slot(0, file)] == [Slot(0, file)];
    }
    hide Next, NewRecord;
    AppendToOne(file, false, Append(Begin, t, energy));
    var begun := [] + [NewRecord(2, Append(Begin, t, energy))];
    AppendToOne(file.(records := begun), true, Append(Final, t, energy));
    assert begun + [NewRecord(2, Append(Final, t, energy))] == EndedFile(t, energy).records;
  }

  /** From no files at all: a session that ends, and a restart before its end time is saved. */
  lemma ResumesBehindFinal(t: Word64, energy: real) returns (events: seq<Event>)
    ensures ResumesAfterFinal(Run(EMPTY, events), Boot(true))
    ensures !Graceful(Run(EMPTY, events + [Boot(true), Append(Final, t, energy)]))
  {
    hide Next, Run, Graceful, LowWord, HighWord;
    var ended := Append(Final, t, energy);
    events := [Create, Append(Begin, t, energy), ended];
    var s := OneFile(EndedFile(t, energy), false);
    SessionEnds(t, energy);
    RunOfThree(EMPTY, events[0], events[1], events[2], []);
    RunOfThree(EMPTY, events[0], events[1], events[2], [Boot(true), ended]);
    RunNothing(s);
    RunCons(s, Boot(true), [ended]);
    RunCons(Next(s, Boot(true)), ended, []);
    assert [Boot(true)] + [ended] == [Boot(true), ended] && [ended] + [] == [ended] && events + [] == events;
    ResumedEnded(s, t, energy);
  }

  lemma RunNothing(s: State)
    ensures Run(s, []) == s
  {}

  lemma ResumedEnded(s: State, t: Word64, energy: real)
    requires s == OneFile(EndedFile(t, energy), false)
    ensures ResumesAfterFinal(s, Boot(true))
    ensures !Graceful(Run(Next(Next(s, Boot(true)), Append(Final, t, energy)), []))
  {
    hide LowWord, HighWord;
    assert Grammar(EndedFile(t, energy).records);
    ResumingExactly(s, t, energy);
  }

  lemma RunOfThree(s: State, a: Event, b: Event, c: Event, rest: seq<Event>)
    ensures Run(s, [a, b, c] + rest) == Run(Next(Next(Next(s, a), b), c), rest)
  {
    hide Next, Run;
    RunCons(s, a, [b, c] + rest);
    RunCons(Next(s, a), b, [c] + rest);
    RunCons(Next(Next(s, a), b), c, rest);
    assert [a] + ([b, c] + rest) == [a, b, c] + rest;
    assert [b] + ([c] + rest) == [b, c] + rest;
  }

  // ----- reading the records back

  /** The difference that is compared with the session's energy: last E minus last B. */
  function LastOf(records: seq<Record>, tag: Tag): real {
    if records == [] then 0.0
    else if records[|records| - 1].tag == tag then records[|records| - 1].energy
    else LastOf(records[..|records| - 1], tag)
  }

  lemma {:induction false} BeginIsFirst(records: seq<Record>)
    requires records != [] && forall i :: 0 <= i < |records| ==> (records[i].tag == Begin <==> i == 0)
    ensures LastOf(records, Begin) == records[0].energy
  {
    if |records| > 1 {
      BeginIsFirst(records[..|records| - 1]);
    }
  }

  method SignedEnergy(records: seq<Record>) returns (difference: real)
    ensures |records| <= MAX_RECORDS ==> difference == LastOf(records, Final) - LastOf(records, Begin)
    ensures Grammar(records) && HasFinal(records) ==> difference == records[|records| - 1].energy - records[0].energy
  {
    var startEnergy, stopEnergy := 0.0, 0.0;
    if 0 < |records| <= MAX_RECORDS {
      var i := 0;
      while i < |records|
        invariant 0 <= i <= |records|
        invariant startEnergy == LastOf(records[..i], Begin) && stopEnergy == LastOf(records[..i], Final)
      {
        if records[i].tag == Begin {
          startEnergy := records[i].energy;
        }
        if records[i].tag == Final {
          stopEnergy := records[i].energy;
        }
        assert records[..i + 1][..i] == records[..i];
        i := i + 1;
      }
      assert records[..i] == records;
      if Grammar(records) {
        BeginIsFirst(records);
      }
    }
    difference := stopEnergy - startEnergy;
  }

  // ----- what is written, and when

  /** The record carries this label, this energy and, where the version has room for it, this time. */
  predicate Carries(r: Record, version: nat, tag: Tag, timestamp: Word64, energy: real) {
    && r.tag == tag && r.energy == energy
    && (version == 2 || timestamp < 0x1_0000_0000 ==> Timestamp(version, r.low, r.high) == timestamp)
  }

  /** B is always written, T and E only in an open session that has its B; T leaves the last place to E. */
  predicate Writes(s: State, tag: Tag)
    requires s.queue != []
  {
    var n := |Newest(s.queue).file.records|;
    match tag
    case Begin => true
    case Tariff => s.open && 1 <= n < 99
    case Final => s.open && 1 <= n < 100
  }

  /** An append to the active session: which record it leaves behind the others, and that nothing else changes. */
  lemma AppendWrites(s: State, tag: Tag, timestamp: Word64, energy: real)
    requires s.active && s.queue != []
    ensures var t, last := Next(s, Append(tag, timestamp, energy)), |s.queue| - 1;
            var f := s.queue[last].file;
            && |t.queue| == |s.queue| && t.queue[..last] == s.queue[..last] && t.active
            && t.open == (tag == Begin || (tag == Tariff && s.open))
            && t.published == s.published && t.created == s.created
            && if Writes(s, tag) then
                 var r := t.queue[last].file.records;
                 && r != [] && Carries(r[|r| - 1], f.version, tag, timestamp, energy)
                 && r[..|r| - 1] == (if tag == Begin then [] else f.records)
                 && t.queue[last] == s.queue[last].(file := f.(records := r))
               else
                 t.queue[last] == s.queue[last]
  {
    var f := Newest(s.queue).file;
    TimestampRoundTrip(f.version, timestamp);
    hide LowWord, HighWord, Timestamp;
  }

  /** T records of a session, one for each reading. */
  function Tariffs(ts: seq<(Word64, real)>): (events: seq<Event>)
    ensures |events| == |ts|
  {
    seq(|ts|, i requires 0 <= i < |ts| => Append(Tariff, ts[i].0, ts[i].1))
  }

  /** B and the first 98 T, each with its time and energy. */
  ghost predicate Recorded(f: File, begin: (Word64, real), ts: seq<(Word64, real)>) {
    var n := if |ts| <= 98 then |ts| else 98;
    && |f.records| == n + 1
    && Carries(f.records[0], f.version, Begin, begin.0, begin.1)
    && forall i | 0 <= i < n :: Carries(f.records[i + 1], f.version, Tariff, ts[i].0, ts[i].1)
  }

  lemma RunSnoc(s: State, events: seq<Event>, e: Event)
    ensures Run(s, events + [e]) == Next(Run(s, events), e)
    decreases |events|
  {
    hide Next;
    if events == [] {
      assert [] + [e] == [e] && [e][1..] == [];
    } else {
      assert (events + [e])[0] == events[0] && (events + [e])[1..] == events[1..] + [e];
      RunSnoc(Next(s, events[0]), events[1..], e);
    }
  }

  lemma {:induction false} SessionRecorded(s: State, begin: (Word64, real), ts: seq<(Word64, real)>)
    requires s.active && s.queue != []
    ensures var t := Run(s, [Append(Begin, begin.0, begin.1)] + Tariffs(ts));
            && t.active && t.open && |t.queue| == |s.queue|
            && Newest(t.queue).file.version == Newest(s.queue).file.version
            && Recorded(Newest(t.queue).file, begin, ts)
    decreases |ts|
  {
    hide Next, Writes, Carries;
    var b := Append(Begin, begin.0, begin.1);
    if ts == [] {
      RunCons(s, b, []);
      assert [b] + Tariffs(ts) == [b] + [];
      RunNothing(Next(s, b));
      AppendWrites(s, Begin, begin.0, begin.1);
      BeginWrites(s);
    } else {
      var front, x := ts[..|ts| - 1], ts[|ts| - 1];
      SessionRecorded(s, begin, front);
      var t := Run(s, [b] + Tariffs(front));
      assert [b] + Tariffs(ts) == [b] + Tariffs(front) + [Append(Tariff, x.0, x.1)];
      RunSnoc(s, [b] + Tariffs(front), Append(Tariff, x.0, x.1));
      AppendWrites(t, Tariff, x.0, x.1);
      TariffWrites(t);
      OneMoreRecorded(Newest(t.queue).file, Newest(Next(t, Append(Tariff, x.0, x.1)).queue).file, begin, ts);
    }
  }

  lemma BeginWrites(s: State)
    requires s.queue != []
    ensures Writes(s, Begin)
  {}

  lemma TariffWrites(s: State)
    requires s.queue != [] && s.open && 1 <= |Newest(s.queue).file.records| <= 99
    ensures Writes(s, Tariff) <==> |Newest(s.queue).file.records| < 99
    ensures Writes(s, Final)
  {}

  lemma OneMoreRecorded(f: File, g: File, begin: (Word64, real), ts: seq<(Word64, real)>)
    requires ts != [] && Recorded(f, begin, ts[..|ts| - 1]) && g.version == f.version
    requires if |f.records| < 99 then
               var x := ts[|ts| - 1];
               && g.records != [] && g.records[..|g.records| - 1] == f.records
               && Carries(g.records[|g.records| - 1], g.version, Tariff, x.0, x.1)
             else g.records == f.records
    ensures Recorded(g, begin, ts)
  {
    hide Carries;
    assert forall i | 0 <= i < |f.records| :: g.records[i] == f.records[i];
  }

  /**
    A whole session, B T* E: every record has the time and energy appended with it, and what is compared with the
    energy of the session is the energy appended with E minus the one appended with B.
   */
  lemma WholeSession(s: State, begin: (Word64, real), ts: seq<(Word64, real)>, final: (Word64, real))
    requires s.active && s.queue != []
    ensures var b, e := Append(Begin, begin.0, begin.1), Append(Final, final.0, final.1);
            var t := Run(s, [b] + Tariffs(ts) + [e]);
            t.queue != [] && Complete(Newest(t.queue).file, begin, ts, final)
  {
    var b, e := Append(Begin, begin.0, begin.1), Append(Final, final.0, final.1);
    hide Next, Run, Writes, Carries, Complete, Recorded;
    SessionRecorded(s, begin, ts);
    RunSnoc(s, [b] + Tariffs(ts), e);
    var t := Run(s, [b] + Tariffs(ts));
    assert 1 <= |Newest(t.queue).file.records| <= 99 by { RecordedLength(Newest(t.queue).file, begin, ts); }
    AppendWrites(t, Final, final.0, final.1);
    TariffWrites(t);
    ThenComplete(Newest(t.queue).file, Newest(Next(t, e).queue).file, begin, ts, final);
  }

  lemma RecordedLength(f: File, begin: (Word64, real), ts: seq<(Word64, real)>)
    requires Recorded(f, begin, ts)
    ensures 1 <= |f.records| <= 99
  {}

  ghost predicate Complete(f: File, begin: (Word64, real), ts: seq<(Word64, real)>, final: (Word64, real)) {
    var r := f.records;
    && |r| >= 2 && Carries(r[|r| - 1], f.version, Final, final.0, final.1)
    && Recorded(f.(records := r[..|r| - 1]), begin, ts)
    && Grammar(r) && HasFinal(r)
    && r[|r| - 1].energy - r[0].energy == final.1 - begin.1
  }

  lemma ThenComplete(f: File, g: File, begin: (Word64, real), ts: seq<(Word64, real)>, final: (Word64, real))
    requires Recorded(f, begin, ts) && g.version == f.version && g == f.(records := g.records)
    requires g.records != [] && g.records[..|g.records| - 1] == f.records
    requires Carries(g.records[|g.records| - 1], g.version, Final, final.0, final.1)
    ensures Complete(g, begin, ts, final)
  {
    hide Timestamp;
    forall i | 0 <= i < |f.records|
      ensures g.records[i] == f.records[i] && g.records[i].tag == if i == 0 then Begin else Tariff
    {
      assert i > 0 ==> Carries(f.records[(i - 1) + 1], f.version, Tariff, ts[i - 1].0, ts[i - 1].1);
    }
    assert g.(records := f.records) == f;
  }

  /** Finishing keeps the records and adds the end time, and the session is not taken up again. */
  lemma FinishedStays(s: State, connected: bool)
    requires s.active && s.queue != []
    ensures var t := Next(s, Finish(false));
            && !t.active && |t.queue| == |s.queue| && t.queue[..|s.queue| - 1] == s.queue[..|s.queue| - 1]
            && Newest(t.queue) == Newest(s.queue).(file := Newest(s.queue).file.(ended := true))
            && !Next(t, Boot(connected)).active && Next(t, Boot(connected)).queue == t.queue
    ensures var t := Next(s, Finish(true)); !t.active && t.queue == s.queue[..|s.queue| - 1]
  {}

  lemma ActiveStep(s: State, e: Event)
    requires s.active ==> s.queue != [] && !Newest(s.queue).file.ended
    ensures var t := Next(s, e); t.active ==> t.queue != [] && !Newest(t.queue).file.ended
  {
    hide Refused, NewRecord, NewNumber;
  }

  /** A file that is being written has no end time yet. */
  lemma {:induction false} ActiveUnended(s: State, events: seq<Event>)
    requires s.active ==> s.queue != [] && !Newest(s.queue).file.ended
    ensures var t := Run(s, events); t.active ==> t.queue != [] && !Newest(t.queue).file.ended
    decreases |events|
  {
    hide Next;
    if events != [] {
      ActiveStep(s, events[0]);
      ActiveUnended(Next(s, events[0]), events[1..]);
    }
  }

  /** A restart touches no file; it takes up the newest with a car there, a file 0, and no end time in the newest. */
  lemma BootExactly(s: State, connected: bool)
    ensures var t := Next(s, Boot(connected));
            && t.queue == s.queue && t.published == s.published && t.created == s.created && t.discarded == s.discarded
            && (t.active <==> connected && s.queue != [] && s.queue[0].number == 0 && !Newest(s.queue).file.ended)
            && t.open == t.active
  {}

  /** A session cut short by a restart is taken up again if a car is there and file 0 exists, and can be ended. */
  lemma CutShortContinues(events: seq<Event>, timestamp: Word64, energy: real)
    requires var s := Run(EMPTY, events); s.active && s.queue != [] && s.queue[0].number == 0
    ensures var s := Run(EMPTY, events);
            var t := Next(s, Boot(true));
            && t.active && t.open && t.queue == s.queue
            && !Next(s, Boot(false)).active
            && (1 <= |Newest(s.queue).file.records| < 100 ==> Writes(t, Final))
  {
    ActiveUnended(EMPTY, events);
    hide Run;
  }

  /** A new session starts empty, in version 2, with the number after the newest one while there is one below 100. */
  lemma CreatesNext(s: State)
    ensures var t := Next(s, Create);
            if s.queue != [] && Newest(s.queue).number >= 99 then
              !t.active && t.queue == s.queue
            else
              && t.active && |t.queue| == |s.queue| + 1 && t.queue[..|s.queue|] == s.queue
              && Newest(t.queue).number == (if s.queue == [] then 0 else Newest(s.queue).number + 1)
              && var f := Newest(t.queue).file; f.records == [] && f.version == 2 && !f.ended
  {}

  lemma {:induction false} TakenStops(accepted: nat -> bool, i: nat, n: nat)
    requires i <= n
    ensures var k := Taken(accepted, i, n); (forall j | i <= j < k :: accepted(j)) && (k < n ==> !accepted(k))
    decreases n - i
  {
    if i < n && accepted(i) {
      TakenStops(accepted, i + 1, n);
    }
  }

  /** The oldest sessions are sent one after the other, whole, until one is refused. */
  lemma SendsUntilRefused(s: State, accepted: nat -> bool) returns (k: nat)
    ensures k <= |s.queue| && (forall j | 0 <= j < k :: accepted(j)) && (k < |s.queue| ==> !accepted(k))
    ensures var t := Next(s, Send(accepted));
            && t.queue == s.queue[k..] && |t.published| == |s.published| + k
            && t.published[..|s.published|] == s.published
            && forall j | 0 <= j < k :: t.published[|s.published| + j] == s.queue[j].file
  {
    k := Taken(accepted, 0, |s.queue|);
    TakenStops(accepted, 0, |s.queue|);
  }

  // ----- the code

  ghost predicate Has(queue: seq<Slot>, n: nat) {
    exists i | 0 <= i < |queue| :: queue[i].number == n
  }

  /** The files are those of the queue. */
  ghost predicate Listed(files: map<nat, File>, queue: seq<Slot>) {
    && Rising(queue)
    && (forall i :: 0 <= i < |queue| ==> queue[i].number in files && files[queue[i].number] == queue[i].file)
    && forall n: nat :: n in files ==> Has(queue, n)
  }

  lemma SomethingListed(files: map<nat, File>, queue: seq<Slot>)
    requires Listed(files, queue)
    ensures queue != [] ==> exists k: nat :: k < MAX_FILES && k in files
  {
    if queue != [] {
      assert queue[0].number in files;
    }
  }

  lemma NewestIs(files: map<nat, File>, queue: seq<Slot>, n: nat)
    requires Listed(files, queue) && n in files && forall k: nat :: n < k ==> k !in files
    ensures queue != [] && Newest(queue).number == n
  {
    assert Has(queue, n);
    assert Newest(queue).number in files;
  }

  lemma OldestIs(files: map<nat, File>, queue: seq<Slot>, n: nat)
    requires Listed(files, queue) && n in files && forall k: nat :: k < n ==> k !in files
    ensures queue != [] && queue[0].number == n
  {
    assert Has(queue, n);
    assert queue[0].number in files;
  }

  lemma NextListed(files: map<nat, File>, queue: seq<Slot>, n: nat, count: nat)
    requires Listed(files, queue) && count <= |queue|
    requires forall i :: 0 <= i < |queue| ==> (queue[i].number < n <==> i < count)
    ensures n in files <==> count < |queue| && queue[count].number == n
    ensures forall i :: 0 <= i < |queue| ==> (queue[i].number < n + 1 <==> i < if n in files then count + 1 else count)
  {
    if n in files {
      assert Has(queue, n);
    }
    if count < |queue| {
      assert queue[count].number in files;
    }
  }

  lemma Find(queue: seq<Slot>, n: nat) returns (i: nat)
    requires Has(queue, n)
    ensures i < |queue| && queue[i].number == n
  {
    i :| 0 <= i < |queue| && queue[i].number == n;
  }

  lemma Found(queue: seq<Slot>, i: nat)
    requires i < |queue|
    ensures Has(queue, queue[i].number)
  {}

  lemma AddedListed(files: map<nat, File>, queue: seq<Slot>, slot: Slot)
    requires Listed(files, queue) && slot.number < MAX_FILES
    requires queue != [] ==> Newest(queue).number < slot.number
    ensures Listed(files[slot.number := slot.file], queue + [slot])
  {
    var q := queue + [slot];
    hide Has;
    Found(q, |queue|);
    forall n: nat | n in files ensures Has(q, n) {
      var i := Find(queue, n);
      Found(q, i);
    }
  }

  lemma WrittenListed(files: map<nat, File>, queue: seq<Slot>, f: File)
    requires Listed(files, queue) && queue != []
    ensures Listed(files[Newest(queue).number := f], WithNewest(queue, f))
  {
    var q := WithNewest(queue, f);
    hide Has;
    assert forall i | 0 <= i < |q| :: q[i].number == queue[i].number;
    Found(q, |queue| - 1);
    forall n: nat | n in files ensures Has(q, n) {
      var i := Find(queue, n);
      Found(q, i);
    }
  }

  function Without(files: map<nat, File>, n: nat): map<nat, File> {
    map k | k in files && k != n :: files[k]
  }

  lemma RisingTail(slot: Slot, rest: seq<Slot>)
    requires Rising([slot] + rest)
    ensures Rising(rest)
    ensures forall i :: 0 <= i < |rest| ==> rest[i].number != slot.number
  {
    var queue := [slot] + rest;
    forall i | 0 <= i < |rest| ensures rest[i].number < MAX_FILES && slot.number < rest[i].number {
      assert queue[0] == slot && queue[i + 1] == rest[i];
    }
    forall i, j | 0 <= i < j < |rest| ensures rest[i].number < rest[j].number {
      assert queue[i + 1] == rest[i] && queue[j + 1] == rest[j];
    }
  }

  lemma OldestRemoved(files: map<nat, File>, slot: Slot, rest: seq<Slot>)
    requires Listed(files, [slot] + rest)
    ensures Listed(Without(files, slot.number), rest)
  {
    var queue := [slot] + rest;
    hide Has;
    RisingTail(slot, rest);
    hide Rising;
    forall i | 0 <= i < |rest|
      ensures rest[i].number in files && files[rest[i].number] == rest[i].file
    {
      assert queue[i + 1] == rest[i];
    }
    forall n: nat | n in files && n != slot.number ensures Has(rest, n) {
      var i := Find(queue, n);
      Found(rest, i - 1);
    }
  }

  lemma NewestRemoved(files: map<nat, File>, rest: seq<Slot>, slot: Slot)
    requires Listed(files, rest + [slot])
    ensures Listed(Without(files, slot.number), rest)
  {
    var queue := rest + [slot];
    hide Has;
    assert forall i | 0 <= i < |rest| :: queue[i] == rest[i];
    assert queue[|rest|] == slot;
    forall n: nat | n in files && n != slot.number ensures Has(rest, n) {
      var i := Find(queue, n);
      Found(rest, i);
    }
  }

  lemma ZeroListed(files: map<nat, File>, queue: seq<Slot>)
    requires Listed(files, queue)
    ensures 0 in files <==> queue != [] && queue[0].number == 0
    ensures queue != [] ==> Newest(queue).number in files && files[Newest(queue).number] == Newest(queue).file
  {
    if 0 in files {
      var i := Find(queue, 0);
    }
  }

  lemma NothingSent(queue: seq<Slot>)
    ensures Files(queue[..0]) == [] && queue[0..] == queue
  {}

  lemma SentOneMore(queue: seq<Slot>, i: nat)
    requires i < |queue|
    ensures queue[i..] == [queue[i]] + queue[i + 1..]
    ensures Files(queue[..i + 1]) == Files(queue[..i]) + [queue[i].file]
  {}

  lemma AppendedIs(s: State, e: Event, file: File, written: File)
    requires e.Append? && s.queue != [] && file == Newest(s.queue).file
    requires e.tag != Begin ==> s.open && !Refused(file.records, e.tag)
    requires written == file.(records := file.records[..if e.tag == Begin then 0 else |file.records|]
             + [NewRecord(file.version, e)])
    ensures Appended(s, e) == s.(open := e.tag != Final, queue := WithNewest(s.queue, written))
    ensures Newest(WithNewest(s.queue, written)).number == Newest(s.queue).number
  {
    assert file.records[..|file.records|] == file.records;
    assert file.records[..0] + [NewRecord(file.version, e)] == [NewRecord(file.version, e)];
  }

  lemma CreatedIs(s: State)
    ensures var t := Next(s, Create);
            && t.open == s.open && (t.active <==> NewNumber(s.queue) >= 0)
            && if t.active then
                 && t.queue == s.queue + [Slot(NewNumber(s.queue), File(s.created, 2, [], false))]
                 && t.created == s.created + 1 && Newest(t.queue).number == NewNumber(s.queue)
               else
                 t.queue == s.queue && t.created == s.created
  {}

  lemma NewestListed(files: map<nat, File>, queue: seq<Slot>)
    requires Listed(files, queue) && queue != []
    ensures Newest(queue).number in files && files[Newest(queue).number] == Newest(queue).file
  {}

  lemma FinishedListed(files: map<nat, File>, s: State, discard: bool)
    requires Listed(files, s.queue) && s.active && s.queue != []
    ensures var n, t := Newest(s.queue).number, Next(s, Event.Finish(discard));
            && !t.active && t.open == s.open && t.created == s.created
            && n in files
            && var written := files[n := files[n].(ended := true)];
               Listed(if discard then Without(written, n) else written, t.queue)
  {
    hide Listed, Without, Newest;
    var n, f := Newest(s.queue).number, Newest(s.queue).file.(ended := true);
    NewestListed(files, s.queue);
    WrittenListed(files, s.queue, f);
    if discard {
      NewestRemoved(files[n := f], s.queue[..|s.queue| - 1], Slot(n, f));
    }
  }

  lemma OldestListed(files: map<nat, File>, queue: seq<Slot>)
    requires Listed(files, queue) && queue != []
    ensures queue[0].number in files && files[queue[0].number] == queue[0].file
  {}

  lemma TakenFrom(accepted: nat -> bool, i: nat, n: nat)
    requires i <= n
    ensures Taken(accepted, i, n) == if i < n && accepted(i) then Taken(accepted, i + 1, n) else i
  {}

  lemma WithoutShrinks(files: map<nat, File>, n: nat)
    ensures forall k :: k in Without(files, n) ==> k in files
  {}

  lemma EmptyListed(files: map<nat, File>, queue: seq<Slot>)
    requires Listed(files, queue) && queue == []
    ensures forall k: nat :: k !in files
  {
    forall k: nat ensures k !in files {
      assert !Has(queue, k);
    }
  }

  lemma SentPart(s: State, accepted: nat -> bool, i: nat)
    requires i <= |s.queue| && Taken(accepted, 0, |s.queue|) == i
    ensures Next(s, Send(accepted))
            == s.(queue := s.queue[i..], published := s.published + Files(s.queue[..i]),
                  active := s.active && i < |s.queue|)
    ensures i < |s.queue| ==> Newest(s.queue[i..]) == Newest(s.queue)
  {}

  class SessionStore {
    var files: map<nat, File>
    var activeFileNumber: int
    var sessionOpen: bool
    /** How many files there have been, for the `id` of the next one. */
    var created: nat

    ghost predicate Shows(s: State)
      reads this
    {
      && Listed(files, s.queue)
      && (if s.active then s.queue != [] && activeFileNumber == Newest(s.queue).number
          else activeFileNumber < 0 || activeFileNumber !in files)
      && sessionOpen == s.open && created == s.created
    }

    constructor ()
      ensures Shows(EMPTY)
    {
      files := map[];
      activeFileNumber := -1;
      sessionOpen := false;
      created := 0;
    }

    /** Searched from the top: one above the newest file, if there is room above it. */
    method FindNewFileNumber(ghost queue: seq<Slot>) returns (n: int)
      requires Listed(files, queue)
      ensures n == NewNumber(queue)
      ensures n == -1 <==> MAX_FILES - 1 in files
      ensures n >= 0 ==> n !in files && n < MAX_FILES
    {
      n := MAX_FILES - 1;
      while n >= 0
        invariant -1 <= n < MAX_FILES
        invariant n >= 0
        invariant forall k :: n < k ==> k !in files
        decreases n
      {
        if n in files {
          NewestIs(files, queue, n);
          if n == MAX_FILES - 1 {
            return -1;
          }
          return n + 1;
        } else if n == 0 {
          SomethingListed(files, queue);
          return 0;
        }
        n := n - 1;
      }
    }

    method FindOldestFile(ghost queue: seq<Slot>) returns (n: int)
      requires Listed(files, queue)
      ensures n == if queue == [] then -1 else queue[0].number
    {
      n := 0;
      while n < MAX_FILES
        invariant 0 <= n <= MAX_FILES
        invariant forall k: nat :: k < n ==> k !in files
      {
        if n in files {
          OldestIs(files, queue, n);
          return;
        }
        n := n + 1;
      }
      SomethingListed(files, queue);
      return -1;
    }

    method FindNrOfFiles(ghost queue: seq<Slot>) returns (count: nat)
      requires Listed(files, queue)
      ensures count == |queue|
    {
      count := 0;
      var n := 0;
      while n < MAX_FILES
        invariant 0 <= n <= MAX_FILES && count <= |queue|
        invariant forall i :: 0 <= i < |queue| ==> (queue[i].number < n <==> i < count)
        invariant count == |queue| || queue[count].number >= n
      {
        NextListed(files, queue, n, count);
        if n in files {
          count := count + 1;
        }
        n := n + 1;
      }
    }

    /** offlineSession_SaveSession */
    method SaveSession(ghost s: State) returns (stored: bool)
      requires Shows(s)
      modifies this
      ensures Shows(Next(s, Create))
      ensures stored <==> NewNumber(s.queue) >= 0
    {
      activeFileNumber := FindNewFileNumber(s.queue);
      stored := activeFileNumber >= 0;
      if stored {
        var file := File(created, 2, [], false);
        AddedListed(files, s.queue, Slot(activeFileNumber, file));
        files := files[activeFileNumber := file];
        created := created + 1;
      }
      hide Listed;
      CreatedIs(s);
    }

    method AppendEnergy(tag: Tag, timestamp: Word64, energy: real, ghost s: State)
      requires Shows(s)
      modifies this
      ensures Shows(Next(s, Append(tag, timestamp, energy)))
    {
      if activeFileNumber < 0 || activeFileNumber !in files {
        return;
      }
      hide LowWord, HighWord, Rising;
      var file := files[activeFileNumber];
      var count := 0;
      if tag == Begin {
        sessionOpen := true;
      } else {
        if !sessionOpen {
          return;
        }
        if tag == Final {
          sessionOpen := false;
        }
        count := |file.records|;
        if count == 0 {
          return;
        }
        if tag == Tariff && count >= MAX_RECORDS - 1 {
          return;
        }
        if tag == Final && count >= MAX_RECORDS {
          return;
        }
      }
      var record := Record(tag, LowWord(timestamp), HighWord(file.version, timestamp), energy);
      var written := file.(records := file.records[..count] + [record]);
      WrittenListed(files, s.queue, written);
      files := files[activeFileNumber := written];
      hide Listed;
      AppendedIs(s, Append(tag, timestamp, energy), file, written);
    }

    /** The end time is saved and the file closed; an empty local session is deleted again. */
    method Finish(discard: bool, ghost s: State)
      requires Shows(s)
      modifies this
      ensures Shows(Next(s, Event.Finish(discard)))
    {
      if s.active {
        FinishedListed(files, s, discard);
      }
      assert !s.active ==> Next(s, Event.Finish(discard)) == s;
      hide Listed, Without, Next;
      if activeFileNumber >= 0 && activeFileNumber in files {
        files := files[activeFileNumber := files[activeFileNumber].(ended := true)];
      }
      var lastUsed := activeFileNumber;
      activeFileNumber := -1;
      if discard && lastUsed >= 0 && lastUsed in files {
        files := Without(files, lastUsed);
      }
    }

    /** Oldest first; a file is deleted only when its publication has succeeded. */
    method CheckAndSend(accepted: nat -> bool, ghost s: State) returns (sent: seq<File>)
      requires Shows(s)
      modifies this`files
      ensures Shows(Next(s, Send(accepted)))
      ensures s.published + sent == Next(s, Send(accepted)).published
    {
      hide Files, Without, Has, Rising, Listed, Taken;
      TakenFrom(accepted, 0, |s.queue|);
      var n := FindNrOfFiles(s.queue);
      NothingSent(s.queue);
      sent := [];
      var i := 0;
      while i < n
        invariant 0 <= i <= n
        invariant Listed(files, s.queue[i..]) && sent == Files(s.queue[..i])
        invariant Taken(accepted, i, n) == Taken(accepted, 0, n)
        invariant forall k :: k in files ==> k in old(files)
      {
        var oldest := FindOldestFile(s.queue[i..]);
        TakenFrom(accepted, i, n);
        if !accepted(i) {
          break;
        }
        SentOneMore(s.queue, i);
        OldestListed(files, s.queue[i..]);
        OldestRemoved(files, s.queue[i], s.queue[i + 1..]);
        sent := sent + [files[oldest]];
        WithoutShrinks(files, oldest);
        files := Without(files, oldest);
        i := i + 1;
      }
      TakenFrom(accepted, i, n);
      SentPart(s, accepted, i);
      if i == n {
        EmptyListed(files, s.queue[i..]);
      }
    }

    /** The statics after a restart, and the check for a session cut short when a car is there. */
    method Boot(connected: bool, ghost s: State)
      requires Shows(s)
      modifies this
      ensures Shows(Next(s, Event.Boot(connected)))
    {
      activeFileNumber := -1;
      sessionOpen := false;
      ZeroListed(files, s.queue);
      hide Listed;
      if connected && 0 in files {
        var n := MAX_FILES - 1;
        while n >= 0
          invariant 0 <= n < MAX_FILES
          invariant activeFileNumber == -1 && !sessionOpen
          invariant forall k: nat :: n < k ==> k !in files
          decreases n
        {
          if n in files {
            NewestIs(files, s.queue, n);
            if !files[n].ended {
              activeFileNumber := n;
              sessionOpen := true;
            }
            return;
          }
          n := n - 1;
        }
      }
    }
  }
}
