/** What the diagnostics log holds, as entries instead of bytes, and what it keeps over whole runs. */
module DiagnosticsHistory {
  import opened Bytes
  import opened DiagnosticsFormat

  datatype Limits = Limits(logSize: nat, entrySize: nat) {
    function MaxEntry(): nat { OVERHEAD + entrySize }

    /** Room for the header and two maximal entries, and offsets that fit a 32-bit long. */
    ghost predicate Valid() {
      1 <= entrySize && OFFSET_CONTENT + 2 * MaxEntry() <= logSize < 0x8000_0000
    }
  }

  ghost predicate AllStorable(es: seq<Entry>, entrySize: nat) {
    forall i | 0 <= i < |es| :: es[i].Storable(entrySize)
  }

  /**
    While wrapped, `newer` lies from the content offset to the write offset, then comes a gap of dead
    bytes, and `older` lies from the read offset to the end of the file. Otherwise `newer` is everything.
    `torn` says that the head of a refused empty entry follows the last entry of an unwrapped file.
    `lost` are the entries overwritten or cut off so far.
   */
  datatype View = View(lost: seq<Entry>, older: seq<Entry>, newer: seq<Entry>, wrapped: bool, gap: nat, torn: bool) {
    function Retained(): seq<Entry> { older + newer }

    function History(): seq<Entry> { lost + Retained() }

    function WriteOffset(): nat { OFFSET_CONTENT + TotalSize(newer) }

    function ReadOffset(): nat { if wrapped then WriteOffset() + gap else OFFSET_CONTENT }

    function End(): nat { WriteOffset() + gap + TotalSize(older) }

    ghost predicate Valid(limits: Limits) {
      && AllStorable(older, limits.entrySize)
      && AllStorable(newer, limits.entrySize)
      && (!wrapped ==> older == [] && gap == 0)
      && (wrapped ==> !torn)
      && End() <= limits.logSize
      && (torn ==> End() + OVERHEAD <= limits.logSize)
    }
  }

  const EMPTY := View([], [], [], false, 0, false)

  /** Start a new cycle at the content offset; what was left of the previous cycle is cut off. */
  function Wrap(v: View): View {
    View(v.lost + v.older, v.newer, [], true, 0, false)
  }

  function DropOldest(v: View): View
    requires v.older != []
  {
    v.(lost := v.lost + [v.older[0]], older := v.older[1..], gap := v.gap + v.older[0].Size())
  }

  /**
    Drop the oldest entries until `need` bytes are free before the read offset. When the end of the
    file is reached first, the file is cut at the write offset and is no longer wrapped.
   */
  function MakeRoom(v: View, need: nat): View
    decreases |v.older|
  {
    if v.gap >= need then v
    else if v.older == [] then v.(wrapped := false, gap := 0)
    else MakeRoom(DropOldest(v), need)
  }

  predicate Full(limits: Limits, v: View, need: nat) {
    v.WriteOffset() + need > limits.logSize
  }

  function WrapIfFull(limits: Limits, v: View, need: nat): View {
    if Full(limits, v, need) then Wrap(v) else v
  }

  function Prepare(limits: Limits, v: View, need: nat): View {
    var u := WrapIfFull(limits, v, need);
    if u.wrapped then MakeRoom(u, need) else u
  }

  /** Whether preparing to write cuts the file, which also removes a torn tail. */
  predicate Cuts(limits: Limits, v: View, need: nat) {
    Full(limits, v, need) || (v.wrapped && !MakeRoom(v, need).wrapped)
  }

  function Append(p: View, e: Entry): View {
    p.(newer := p.newer + [e], gap := if p.wrapped && p.gap >= e.Size() then p.gap - e.Size() else 0, torn := false)
  }

  /** One call of write_entry for an entry that passed the severity filter. */
  function Step(limits: Limits, v: View, e: Entry): View {
    var p := Prepare(limits, v, e.Size());
    if e.content != [] then Append(p, e)
    else if p.wrapped then p
    else p.(torn := !Cuts(limits, v, e.Size()))
  }

  function Run(limits: Limits, es: seq<Entry>): View {
    if es == [] then EMPTY else Step(limits, Run(limits, es[..|es| - 1]), es[|es| - 1])
  }

  /** The entries of a run that write_entry accepts. */
  function Accepted(es: seq<Entry>): seq<Entry> {
    if es == [] then []
    else Accepted(es[..|es| - 1]) + if es[|es| - 1].content == [] then [] else [es[|es| - 1]]
  }

  // ----- one step

  lemma {:induction false} MakeRoomFacts(limits: Limits, v: View, need: nat)
    requires v.Valid(limits) && v.wrapped
    ensures var r := MakeRoom(v, need);
            && r.Valid(limits)
            && r.newer == v.newer && r.torn == v.torn
            && r.History() == v.History()
            && (r.wrapped ==>
                  need <= r.gap && r.End() == v.End() && (r.gap == v.gap || r.gap < need + limits.MaxEntry()))
            && (!r.wrapped ==> v.End() < v.WriteOffset() + need)
    decreases |v.older|
  {
    if v.gap < need && v.older != [] {
      var u := DropOldest(v);
      assert v.older[0].Storable(limits.entrySize);
      assert u.History() == v.History() by {
        assert v.older == [v.older[0]] + u.older;
      }
      MakeRoomFacts(limits, u, need);
    }
  }

  lemma PrepareFacts(limits: Limits, v: View, need: nat)
    requires limits.Valid() && v.Valid(limits) && 1 <= need <= limits.MaxEntry()
    ensures var p := Prepare(limits, v, need);
            && p.Valid(limits)
            && p.History() == v.History()
            && (p.wrapped ==> need <= p.gap)
            && p.WriteOffset() + need <= limits.logSize
            && (Cuts(limits, v, need) ==> !p.torn)
  {
    var u := WrapIfFull(limits, v, need);
    if Full(limits, v, need) {
      ConcatAssociates(v.lost, v.older, v.newer);
      assert u.Retained() == v.newer;
    }
    if u.wrapped {
      MakeRoomFacts(limits, u, need);
    }
  }

  lemma AppendFacts(limits: Limits, p: View, e: Entry)
    requires p.Valid(limits) && e.Storable(limits.entrySize)
    requires p.WriteOffset() + e.Size() <= limits.logSize && (p.wrapped ==> e.Size() <= p.gap)
    ensures Append(p, e).Valid(limits)
    ensures Append(p, e).History() == p.History() + [e]
    ensures Append(p, e).WriteOffset() == p.WriteOffset() + e.Size()
    ensures p.wrapped ==> Append(p, e).End() == p.End()
  {
    TotalSizeSnoc(p.newer, e);
  }

  /** Every call keeps the layout sound, and the log with what it lost is everything ever accepted. */
  lemma StepKeepsHistory(limits: Limits, v: View, e: Entry)
    requires limits.Valid() && v.Valid(limits) && |e.content| <= limits.entrySize
    ensures Step(limits, v, e).Valid(limits)
    ensures Step(limits, v, e).History() == v.History() + if e.content == [] then [] else [e]
  {
    var p := Prepare(limits, v, e.Size());
    PrepareFacts(limits, v, e.Size());
    if e.content != [] {
      AppendFacts(limits, p, e);
    }
  }

  // ----- whole runs

  /** The log always holds a suffix of what it accepted, in order. */
  lemma {:induction false} RunKeepsSuffix(limits: Limits, es: seq<Entry>)
    requires limits.Valid() && forall i | 0 <= i < |es| :: |es[i].content| <= limits.entrySize
    ensures Run(limits, es).Valid(limits)
    ensures Accepted(es) == Run(limits, es).lost + Run(limits, es).Retained()
  {
    if es != [] {
      var before, e := es[..|es| - 1], es[|es| - 1];
      RunKeepsSuffix(limits, before);
      StepKeepsHistory(limits, Run(limits, before), e);
    }
  }

  /** While wrapped there is always an entry left, also right after a refused empty entry. */
  ghost predicate Occupied(v: View) {
    v.wrapped ==> v.newer != [] || (v.older != [] && v.gap >= OVERHEAD)
  }

  lemma StepKeepsNewest(limits: Limits, v: View, e: Entry)
    requires limits.Valid() && v.Valid(limits) && |e.content| <= limits.entrySize && Occupied(v)
    ensures Occupied(Step(limits, v, e))
    ensures v.Retained() != [] || e.content != [] ==> Step(limits, v, e).Retained() != []
  {
    var u := WrapIfFull(limits, v, e.Size());
    if u.wrapped {
      MakeRoomFacts(limits, u, e.Size());
    }
    if e.content == [] && Full(limits, v, e.Size()) {
      // The first entry alone frees enough, and it is not the only one.
      assert u.older[0].Storable(limits.entrySize);
      var d := DropOldest(u);
      assert d.older != [];
      assert MakeRoom(u, OVERHEAD) == MakeRoom(d, OVERHEAD) == d;
    }
  }

  /** The newest accepted entry is never lost. */
  lemma {:induction false} NewestIsRetained(limits: Limits, es: seq<Entry>)
    requires limits.Valid() && forall i | 0 <= i < |es| :: |es[i].content| <= limits.entrySize
    ensures Occupied(Run(limits, es))
    ensures Accepted(es) != [] ==>
              var kept := Run(limits, es).Retained();
              kept != [] && kept[|kept| - 1] == Accepted(es)[|Accepted(es)| - 1]
  {
    if es != [] {
      var before, e := es[..|es| - 1], es[|es| - 1];
      NewestIsRetained(limits, before);
      RunKeepsSuffix(limits, before);
      RunKeepsSuffix(limits, es);
      StepKeepsNewest(limits, Run(limits, before), e);
    }
  }

  /**
    Retention: bytes are given up only for lack of room. `slack` is zero for a run without empty entries;
    an empty entry frees OVERHEAD bytes that it then does not use.
   */
  ghost predicate Retains(limits: Limits, v: View, slack: nat) {
    if v.wrapped then
      v.End() + limits.MaxEntry() > limits.logSize && v.gap < limits.MaxEntry() + slack
    else
      v.lost == [] || v.End() + 2 * limits.MaxEntry() + slack > limits.logSize
  }

  lemma StepRetains(limits: Limits, v: View, e: Entry, slack: nat)
    requires limits.Valid() && v.Valid(limits) && |e.content| <= limits.entrySize
    requires e.content == [] ==> slack >= OVERHEAD
    requires Retains(limits, v, slack)
    ensures Retains(limits, Step(limits, v, e), slack)
  {
    var p := Prepare(limits, v, e.Size());
    PrepareFacts(limits, v, e.Size());
    PrepareRetains(limits, v, e.Size(), slack);
    if e.content != [] {
      AppendFacts(limits, p, e);
    }
  }

  lemma PrepareRetains(limits: Limits, v: View, need: nat, slack: nat)
    requires limits.Valid() && v.Valid(limits) && 1 <= need <= limits.MaxEntry()
    requires Retains(limits, v, slack)
    ensures var p := Prepare(limits, v, need);
            if p.wrapped then
              && p.End() + limits.MaxEntry() > limits.logSize
              && (p.gap < limits.MaxEntry() + slack || p.gap < need + limits.MaxEntry())
            else
              || (p == v && !v.wrapped)
              || p.End() + need + limits.MaxEntry() > limits.logSize
  {
    var u := WrapIfFull(limits, v, need);
    if u.wrapped {
      MakeRoomFacts(limits, u, need);
    }
  }

  /** Either nothing was ever lost, or all but two maximal entries of the room hold retained entries. */
  lemma {:induction false} RunRetains(limits: Limits, es: seq<Entry>, slack: nat)
    requires limits.Valid() && forall i | 0 <= i < |es| :: |es[i].content| <= limits.entrySize
    requires slack >= OVERHEAD || forall i | 0 <= i < |es| :: es[i].content != []
    ensures Retains(limits, Run(limits, es), slack)
    ensures var v := Run(limits, es);
            v.lost == [] || TotalSize(v.Retained()) + 2 * limits.MaxEntry() + slack > limits.logSize - OFFSET_CONTENT
  {
    if es != [] {
      var before, e := es[..|es| - 1], es[|es| - 1];
      RunRetains(limits, before, slack);
      RunKeepsSuffix(limits, before);
      StepRetains(limits, Run(limits, before), e, slack);
    }
    var v := Run(limits, es);
    RunKeepsSuffix(limits, es);
    TotalSizeConcat(v.older, v.newer);
  }

  // ----- a refused empty entry

  /** Room for the head of an entry where the write offset is, without wrapping or dropping anything. */
  predicate KeepsOffsets(limits: Limits, v: View) {
    !Full(limits, v, OVERHEAD) && (v.wrapped ==> v.gap >= OVERHEAD)
  }

  predicate SameOffsets(a: View, b: View) {
    a.WriteOffset() == b.WriteOffset() && a.ReadOffset() == b.ReadOffset() && a.wrapped == b.wrapped
  }

  /** A refused entry leaves the offsets alone exactly when its head found room. */
  lemma RefusedKeepsOffsets(limits: Limits, v: View, e: Entry)
    requires limits.Valid() && v.Valid(limits) && e.content == []
    ensures SameOffsets(Step(limits, v, e), v) <==> KeepsOffsets(limits, v)
  {
    hide MakeRoom, TotalSize;
    var u := WrapIfFull(limits, v, OVERHEAD);
    if Full(limits, v, OVERHEAD) {
      assert TotalSize([]) == 0 by { EmptySize(); }
      MakeRoomNewer(u, OVERHEAD);
    } else if v.wrapped {
      MakeRoomFacts(limits, v, OVERHEAD);
      MakeRoomEnough(v, OVERHEAD);
    }
  }

  /** Once its head has made room, further refused entries move nothing. */
  lemma RefusedMovesOnce(limits: Limits, v: View, e: Entry, f: Entry)
    requires limits.Valid() && v.Valid(limits) && e.content == f.content == []
    ensures SameOffsets(Step(limits, Step(limits, v, e), f), Step(limits, v, e))
  {
    PrepareFacts(limits, v, OVERHEAD);
    StepKeepsHistory(limits, v, e);
    assert KeepsOffsets(limits, Step(limits, v, e)) by {
      hide MakeRoom, TotalSize, Prepare;
    }
    hide Step;
    RefusedKeepsOffsets(limits, Step(limits, v, e), f);
  }

  lemma EmptySize()
    ensures TotalSize([]) == 0
  {}

  lemma MakeRoomEnough(v: View, need: nat)
    ensures v.gap >= need ==> MakeRoom(v, need) == v
  {}

  lemma {:induction false} MakeRoomNewer(v: View, need: nat)
    ensures MakeRoom(v, need).newer == v.newer
    decreases |v.older|
  {
    if v.gap < need && v.older != [] {
      MakeRoomNewer(DropOldest(v), need);
    }
  }

  /** Two entries fill a log of the smallest size; it is full and has not wrapped. */
  lemma FilledLog(a: Entry, b: Entry)
    requires |a.content| == |b.content| == 1
    ensures var limits := Limits(OFFSET_CONTENT + 2 * (OVERHEAD + 1), 1);
            var v := Run(limits, [a, b]);
            limits.Valid() && v == View([], [], [a, b], false, 0, false) && Full(limits, v, OVERHEAD)
  {
    var limits := Limits(OFFSET_CONTENT + 2 * (OVERHEAD + 1), 1);
    assert [a, b][..1] == [a] && [a][..0] == [];
    assert TotalSize([]) == 0 && [a][1..] == [] && [a, b][1..] == [b] && [b][1..] == [];
    assert TotalSize([a]) == OVERHEAD + 1 && TotalSize([b]) == OVERHEAD + 1;
    assert Run(limits, []) == EMPTY;
    assert Run(limits, [a]) == Step(limits, EMPTY, a);
    assert [] + [a] == [a] && [a] + [b] == [a, b];
    assert Run(limits, [a]) == View([], [], [a], false, 0, false);
    assert Run(limits, [a, b]) == Step(limits, Run(limits, [a]), b);
  }
}
