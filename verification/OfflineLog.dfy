/** The persistent ring of meter values kept while offline: main/offline_log.c. */
module OfflineLog {
  const MAX_ITEMS: nat := 1000

  type Crc = x: int | 0 <= x < 0x1_0000_0000

  datatype Sample = Sample(timestamp: int, energy: real)

  datatype Line = Line(sample: Sample, crc: Crc)

  datatype Header = Header(start: int, end: int, crc: Crc)

  /** The checksum routine over a line and over a header, each with its crc field zero. */
  datatype Checksum = Checksum(ofLine: Sample -> Crc, ofHeader: (int, int) -> Crc) {
    predicate LineValid(l: Line) { l.crc == ofLine(l.sample) }

    predicate HeaderValid(h: Header) { h.crc == ofHeader(h.start, h.end) }
  }

  /** What survives a restart. */
  datatype Disk = Disk(header: Header, slots: seq<Line>) {
    ghost predicate Valid(crc: Checksum) {
      |slots| == MAX_ITEMS && (crc.HeaderValid(header) ==> 0 <= header.start < MAX_ITEMS && 0 <= header.end < MAX_ITEMS)
    }

    /** The lines the header denotes; a header that does not match its checksum denotes none. */
    ghost function Queue(crc: Checksum): seq<Line>
      requires Valid(crc)
    {
      if crc.HeaderValid(header) then Between(slots, header.start, header.end) else []
    }
  }

  function Between(slots: seq<Line>, start: nat, end: nat): (q: seq<Line>)
    requires start < |slots| && end < |slots|
    ensures |q| < |slots|
  {
    if start <= end then slots[start..end] else slots[start..] + slots[..end]
  }

  function Next(i: nat): nat { (i + 1) % MAX_ITEMS }

  function ValidLines(crc: Checksum, q: seq<Line>): seq<Line> {
    if q == [] then []
    else ValidLines(crc, q[..|q| - 1]) + if crc.LineValid(q[|q| - 1]) then [q[|q| - 1]] else []
  }

  // ----- the ring as a bounded queue

  lemma NextAdvances(i: nat)
    requires i < MAX_ITEMS
    ensures Next(i) == if i + 1 == MAX_ITEMS then 0 else i + 1
  {
  }

  lemma FrontOfQueue(slots: seq<Line>, start: nat, end: nat)
    requires |slots| == MAX_ITEMS && start < MAX_ITEMS && end < MAX_ITEMS && start != end
    ensures var q := Between(slots, start, end);
            q != [] && q[0] == slots[start] && Between(slots, Next(start), end) == q[1..]
  {
    NextAdvances(start);
  }

  /** The slot at the end is free: writing it changes no queued line. */
  lemma FreeSlot(slots: seq<Line>, start: nat, end: nat, l: Line)
    requires |slots| == MAX_ITEMS && start < MAX_ITEMS && end < MAX_ITEMS
    ensures Between(slots[end := l], start, end) == Between(slots, start, end)
  {
  }

  lemma BackOfQueue(slots: seq<Line>, start: nat, end: nat)
    requires |slots| == MAX_ITEMS && start < MAX_ITEMS && end < MAX_ITEMS && Next(end) != start
    ensures Between(slots, start, Next(end)) == Between(slots, start, end) + [slots[end]]
  {
    NextAdvances(end);
  }

  lemma FullExactly(slots: seq<Line>, start: nat, end: nat)
    requires |slots| == MAX_ITEMS && start < MAX_ITEMS && end < MAX_ITEMS
    ensures Next(end) == start <==> |Between(slots, start, end)| == MAX_ITEMS - 1
    ensures start == end <==> Between(slots, start, end) == []
  {
    NextAdvances(end);
  }

  /** A queue of at most 999 lines that gives up its oldest line for a new one. */
  function Pushed<T>(q: seq<T>, x: T): seq<T> {
    (if |q| == MAX_ITEMS - 1 then q[1..] else q) + [x]
  }

  lemma AppendIsPush(slots: seq<Line>, start: nat, end: nat, l: Line)
    requires |slots| == MAX_ITEMS && start < MAX_ITEMS && end < MAX_ITEMS
    ensures var newStart := if Next(end) == start then Next(start) else start;
            Between(slots[end := l], newStart, Next(end)) == Pushed(Between(slots, start, end), l)
  {
    var q, after := Between(slots, start, end), slots[end := l];
    FullExactly(slots, start, end);
    FreeSlot(slots, start, end, l);
    if Next(end) == start {
      NextAdvances(end);
      NextAdvances(start);
      FrontOfQueue(after, start, end);
      BackOfQueue(after, Next(start), end);
    } else {
      BackOfQueue(after, start, end);
    }
  }

  // ----- draining

  /** How far a drain gets: lines published, lines up to the last published one, and whether it saw them all. */
  datatype Drained = Drained(published: seq<Line>, moved: nat, finished: bool)

  /** The drain loop from line `i` on; `result(n)` is what the n-th publish of this drain returns. */
  function DrainFrom(crc: Checksum, q: seq<Line>, i: nat, d: Drained, result: nat -> int): Drained
    requires i <= |q|
    decreases |q| - i
  {
    if i == |q| then d.(finished := true)
    else if !crc.LineValid(q[i]) then DrainFrom(crc, q, i + 1, d, result)
    else if result(|d.published|) < 0 then d
    else DrainFrom(crc, q, i + 1, Drained(d.published + [q[i]], i + 1, false), result)
  }

  function Drain(crc: Checksum, q: seq<Line>, result: nat -> int): Drained {
    DrainFrom(crc, q, 0, Drained([], 0, false), result)
  }

  lemma {:induction false} ValidLinesSkip(crc: Checksum, q: seq<Line>, i: nat, j: nat)
    requires i <= j <= |q| && forall k | i <= k < j :: !crc.LineValid(q[k])
    ensures ValidLines(crc, q[..j]) == ValidLines(crc, q[..i])
    decreases j
  {
    if i < j {
      assert q[..j][..j - 1] == q[..j - 1];
      ValidLinesSkip(crc, q, i, j - 1);
    }
  }

  lemma ValidLinesNext(crc: Checksum, q: seq<Line>, i: nat)
    requires i < |q|
    ensures ValidLines(crc, q[..i + 1]) == ValidLines(crc, q[..i]) + if crc.LineValid(q[i]) then [q[i]] else []
  {
    assert q[..i + 1][..i] == q[..i];
  }

  lemma {:induction false} ValidLinesPrefix(crc: Checksum, q: seq<Line>, i: nat)
    requires i <= |q|
    ensures ValidLines(crc, q[..i]) <= ValidLines(crc, q)
    decreases |q|
  {
    if i == |q| {
      assert q[..i] == q;
    } else {
      var front := q[..|q| - 1];
      assert front[..i] == q[..i];
      ValidLinesPrefix(crc, front, i);
    }
  }

  /** A drain publishes, in order, exactly the undamaged lines up to where it stops. */
  lemma {:induction false} DrainPublishes(crc: Checksum, q: seq<Line>, i: nat, d: Drained, result: nat -> int)
    requires d.moved <= i <= |q| && !d.finished && d.published == ValidLines(crc, q[..d.moved])
    requires forall k | d.moved <= k < i :: !crc.LineValid(q[k])
    ensures var r := DrainFrom(crc, q, i, d, result);
            && d.moved <= r.moved <= |q|
            && r.published == ValidLines(crc, q[..r.moved])
            && (r.finished ==> r.published == ValidLines(crc, q))
            && (!r.finished ==> r.published != ValidLines(crc, q) && result(|r.published|) < 0)
    decreases |q| - i
  {
    if i == |q| {
      ValidLinesSkip(crc, q, d.moved, i);
      assert q[..i] == q;
    } else if !crc.LineValid(q[i]) {
      DrainPublishes(crc, q, i + 1, d, result);
    } else {
      ValidLinesSkip(crc, q, d.moved, i);
      ValidLinesNext(crc, q, i);
      if result(|d.published|) < 0 {
        ValidLinesPrefix(crc, q, i + 1);
      } else {
        DrainPublishes(crc, q, i + 1, Drained(d.published + [q[i]], i + 1, false), result);
      }
    }
  }

  lemma LinePublished(crc: Checksum, q: seq<Line>, moved: nat, i: nat)
    requires moved <= i < |q| && crc.LineValid(q[i]) && forall k | moved <= k < i :: !crc.LineValid(q[k])
    ensures ValidLines(crc, q[..i + 1]) == ValidLines(crc, q[..moved]) + [q[i]] <= ValidLines(crc, q)
  {
    ValidLinesSkip(crc, q, moved, i);
    ValidLinesNext(crc, q, i);
    ValidLinesPrefix(crc, q, i + 1);
  }

  lemma DrainStep(crc: Checksum, q: seq<Line>, i: nat, d: Drained, result: nat -> int)
    requires i <= |q|
    ensures Drain(crc, q, result) == DrainFrom(crc, q, 0, Drained([], 0, false), result)
    ensures var next := if i < |q| && crc.LineValid(q[i]) then Drained(d.published + [q[i]], i + 1, false) else d;
            DrainFrom(crc, q, i, d, result)
            == if i == |q| then d.(finished := true)
               else if crc.LineValid(q[i]) && result(|d.published|) < 0 then d
               else DrainFrom(crc, q, i + 1, next, result)
  {
  }

  lemma DrainFacts(crc: Checksum, q: seq<Line>, result: nat -> int)
    ensures var r := Drain(crc, q, result);
            && r.moved <= |q|
            && r.published == ValidLines(crc, q[..r.moved])
            && (r.finished ==> r.published == ValidLines(crc, q))
            && (!r.finished ==> r.published != ValidLines(crc, q) && result(|r.published|) < 0)
    ensures ValidLines(crc, q[..0]) == [] && q[0..] == q
  {
    DrainPublishes(crc, q, 0, Drained([], 0, false), result);
  }

  // ----- crashes

  /** The disk at some moment of a call, with the lines the call had published and had moved past by then. */
  datatype CrashPoint = CrashPoint(disk: Disk, published: seq<Line>, moved: nat)

  /**
    A restart finds the queue `q` without its first `moved` lines. Every undamaged line before that was
    published, and at most one published line is still queued and will be sent again.
   */
  ghost predicate AtMostOneResent(crc: Checksum, q: seq<Line>, c: CrashPoint) {
    && c.disk.Valid(crc) && c.moved <= |q|
    && c.disk.Queue(crc) == q[c.moved..]
    && ValidLines(crc, q[..c.moved]) <= c.published <= ValidLines(crc, q)
    && |c.published| <= |ValidLines(crc, q[..c.moved])| + 1
  }

  lemma IsResent(crc: Checksum, q: seq<Line>, d: Disk, published: seq<Line>, moved: nat)
    requires d.Valid(crc) && moved <= |q| && d.Queue(crc) == q[moved..]
    requires ValidLines(crc, q[..moved]) <= published <= ValidLines(crc, q)
    requires |published| <= |ValidLines(crc, q[..moved])| + 1
    ensures AtMostOneResent(crc, q, CrashPoint(d, published, moved))
  {}

  ghost predicate OldOrNew(crc: Checksum, old_: seq<Line>, new_: seq<Line>, d: Disk) {
    d.Valid(crc) && (d.Queue(crc) == old_ || d.Queue(crc) == new_)
  }

  class OfflineLog {
    const crc: Checksum
    var header: Header
    const slots: array<Line>
    /** The disk after every write, and after every publish, of the latest call. */
    ghost var crashes: seq<CrashPoint>

    ghost function OnDisk(): Disk
      reads this`header, slots
    {
      Disk(header, slots[..])
    }

    ghost predicate Valid()
      reads this`header, slots
    {
      slots.Length == MAX_ITEMS && OnDisk().Valid(crc)
    }

    ghost function Queue(): seq<Line>
      requires Valid()
      reads this`header, slots
    {
      OnDisk().Queue(crc)
    }

    constructor (crc: Checksum, blank: Line)
      ensures Valid() && fresh(slots) && this.crc == crc
      ensures Queue() == []
    {
      this.crc := crc;
      header := Header(0, 0, 0);
      slots := new Line[MAX_ITEMS](_ => blank);
      crashes := [];
    }

    method UpdateHeader(start: nat, end: nat)
      requires Valid() && start < MAX_ITEMS && end < MAX_ITEMS
      modifies this`header
      ensures Valid() && crc.HeaderValid(header) && header.start == start && header.end == end
      ensures Queue() == Between(slots[..], start, end)
    {
      header := Header(start, end, crc.ofHeader(start, end));
    }

    /** ensure_valid_header: a damaged header starts the log anew. */
    method EnsureValidHeader() returns (start: nat, end: nat)
      requires Valid()
      modifies this`header
      ensures Valid() && crc.HeaderValid(header) && header.start == start < MAX_ITEMS && header.end == end < MAX_ITEMS
      ensures Queue() == old(Queue()) == Between(slots[..], start, end)
      ensures end == if old(crc.HeaderValid(header)) then old(header.end) else 0
    {
      if crc.HeaderValid(header) {
        start, end := header.start, header.end;
      } else {
        UpdateHeader(0, 0);
        start, end := 0, 0;
      }
    }

    /** offline_log_append_energy; `opens` says whether the file could be opened. */
    method AppendEnergy(sample: Sample, opens: bool)
      requires Valid()
      modifies this, slots
      ensures Valid()
      ensures Queue() == if opens then Pushed(old(Queue()), Line(sample, crc.ofLine(sample))) else old(Queue())
      ensures forall i | 0 <= i < |crashes| :: OldOrNew(crc, old(Queue()), Queue(), crashes[i].disk)
    {
      hide Between;
      crashes := [];
      if !opens {
        return;
      }
      var start, end := EnsureValidHeader();
      crashes := [CrashPoint(OnDisk(), [], 0)];
      var newEnd := Next(end);
      if newEnd == start {
        start := Next(start);
      }
      var line := Line(sample, crc.ofLine(sample));
      AppendIsPush(slots[..], header.start, end, line);
      FreeSlot(slots[..], header.start, end, line);
      ghost var before := slots[..];
      slots[end] := line;
      assert slots[..] == before[end := line];
      assert Queue() == old(Queue());
      crashes := crashes + [CrashPoint(OnDisk(), [], 0)];
      UpdateHeader(start, newEnd);
      crashes := crashes + [CrashPoint(OnDisk(), [], 0)];
    }

    /** After a publish, the header moves past the line; a crash before that sends the line again. */
    method MarkSent(start: nat, end: nat, ghost q: seq<Line>, ghost moved: nat, ghost i: nat,
                    ghost published: seq<Line>)
      requires Valid() && start < MAX_ITEMS && end < MAX_ITEMS && moved <= i <= |q|
      requires Queue() == q[moved..] && Between(slots[..], start, end) == q[i..]
      requires ValidLines(crc, q[..moved]) <= published == ValidLines(crc, q[..i]) <= ValidLines(crc, q)
      requires |published| == |ValidLines(crc, q[..moved])| + 1
      requires forall j | 0 <= j < |crashes| :: AtMostOneResent(crc, q, crashes[j])
      modifies this`header, this`crashes
      ensures Valid() && crc.HeaderValid(header) && header.end == end && Queue() == q[i..]
      ensures forall j | 0 <= j < |crashes| :: AtMostOneResent(crc, q, crashes[j])
    {
      hide Between, ValidLines, AtMostOneResent;
      IsResent(crc, q, OnDisk(), published, moved);
      crashes := crashes + [CrashPoint(OnDisk(), published, moved)];
      UpdateHeader(start, end);
      IsResent(crc, q, OnDisk(), published, i);
      crashes := crashes + [CrashPoint(OnDisk(), published, i)];
    }

    /** _offline_log_attempt_send; `result(n)` is what the n-th publish returns. */
    method AttemptSend(opens: bool, result: nat -> int) returns (status: int, published: seq<Line>)
      requires Valid()
      modifies this
      ensures Valid()
      ensures !opens ==> status == 0 && published == [] && Queue() == old(Queue())
      ensures opens ==>
                var d := Drain(crc, old(Queue()), result);
                && published == d.published && d.moved <= |old(Queue())|
                && status == (if d.finished then 0 else -1)
                && Queue() == if d.finished && old(crc.HeaderValid(header)) && old(header.end) != 0 then []
                    else old(Queue())[d.moved..]
      ensures forall i | 0 <= i < |crashes| :: AtMostOneResent(crc, old(Queue()), crashes[i])
    {
      hide Between, Next, ValidLines, Drain, DrainFrom, AtMostOneResent;
      published, crashes := [], [];
      if !opens {
        return 0, [];
      }
      status := -1;
      ghost var q, file := Queue(), slots[..];
      var start: nat, end: nat := EnsureValidHeader();
      ghost var i: nat, moved: nat := 0, 0;
      DrainFacts(crc, q, result);
      DrainStep(crc, q, 0, Drained([], 0, false), result);
      IsResent(crc, q, OnDisk(), [], 0);
      crashes := [CrashPoint(OnDisk(), [], 0)];
      while start != end
        invariant Valid() && crc.HeaderValid(header) && header.end == end < MAX_ITEMS && start < MAX_ITEMS
        invariant slots[..] == file
        invariant moved <= i <= |q| && Between(file, start, end) == q[i..] && Queue() == q[moved..]
        invariant forall k | moved <= k < i :: !crc.LineValid(q[k])
        invariant published == ValidLines(crc, q[..moved])
        invariant DrainFrom(crc, q, i, Drained(published, moved, false), result) == Drain(crc, q, result)
        invariant forall j | 0 <= j < |crashes| :: AtMostOneResent(crc, q, crashes[j])
        decreases |q| - i
      {
        FrontOfQueue(file, start, end);
        NextAdvances(start);
        FullExactly(file, start, end);
        DrainStep(crc, q, i, Drained(published, moved, false), result);
        var line := slots[start];
        assert line == file[start] == q[i];
        if crc.LineValid(line) {
          if result(|published|) < 0 {
            break;
          }
          LinePublished(crc, q, moved, i);
          published := published + [line];
          MarkSent(Next(start), end, q, moved, i + 1, published);
          moved := i + 1;
        }
        start := Next(start);
        i := i + 1;
      }
      FullExactly(file, start, end);
      DrainStep(crc, q, i, Drained(published, moved, false), result);
      if start == end {
        status := 0;
        ValidLinesSkip(crc, q, moved, i);
        assert q[..i] == q;
        if start != 0 {
          UpdateHeader(0, 0);
          FullExactly(file, 0, 0);
          assert q[..|q|] == q;
          IsResent(crc, q, OnDisk(), published, |q|);
          crashes := crashes + [CrashPoint(OnDisk(), published, |q|)];
        }
      }
    }
  }
}
