/** The circular diagnostics log, byte for byte: main/diagnostics_log.c. */
module DiagnosticsLog {
  import opened Bytes
  import opened DiagnosticsFormat
  import opened DiagnosticsHistory

  // ----- where the entries of a view lie in the file

  /** The file carries the view's entries; bytes in the gap and behind the end are free. */
  ghost predicate Holds(crc: Checksum, file: seq<Byte>, v: View) {
    && HoldsOlder(crc, file, v)
    && file[OFFSET_CONTENT..v.WriteOffset()] == AllBytes(crc, v.newer)
  }

  ghost predicate HoldsOlder(crc: Checksum, file: seq<Byte>, v: View) {
    && v.End() <= |file|
    && file[v.WriteOffset() + v.gap..v.End()] == AllBytes(crc, v.older)
  }

  /** The file ends where the view ends, but for the head of a refused empty entry. */
  ghost predicate Layout(crc: Checksum, file: seq<Byte>, v: View) {
    && Holds(crc, file, v)
    && |file| == v.End() + (if v.torn then INFO_SIZE else 0)
    && (v.torn ==> Load32(file[v.End() + 8..v.End() + 12]) == 0)
  }

  ghost predicate Describes(h: Header, v: View) {
    h.writeOffset == v.WriteOffset() && h.readOffset == v.ReadOffset() && h.wrapped == v.wrapped
  }

  lemma CutBehindEnd(crc: Checksum, file: seq<Byte>, v: View, length: nat)
    requires Holds(crc, file, v) && v.End() <= length <= |file|
    ensures Holds(crc, file[..length], v)
  {
    assert file[..length] == file[0..length];
    SliceOfSlice(file, 0, length, OFFSET_CONTENT, v.WriteOffset());
    SliceOfSlice(file, 0, length, v.WriteOffset() + v.gap, v.End());
  }

  lemma SameContent(crc: Checksum, a: seq<Byte>, b: seq<Byte>, v: View)
    requires Holds(crc, a, v) && |a| == |b| >= OFFSET_CONTENT && a[OFFSET_CONTENT..] == b[OFFSET_CONTENT..]
    ensures Holds(crc, b, v)
    ensures forall i, j | OFFSET_CONTENT <= i <= j <= |a| :: a[i..j] == b[i..j]
  {
    forall i, j | OFFSET_CONTENT <= i <= j <= |a|
      ensures a[i..j] == b[i..j]
    {
      SliceOfSlice(a, OFFSET_CONTENT, |a|, i - OFFSET_CONTENT, j - OFFSET_CONTENT);
      SliceOfSlice(b, OFFSET_CONTENT, |a|, i - OFFSET_CONTENT, j - OFFSET_CONTENT);
      assert a[OFFSET_CONTENT..] == a[OFFSET_CONTENT..|a|] && b[OFFSET_CONTENT..] == b[OFFSET_CONTENT..|a|];
    }
  }

  lemma OverwriteTwice(file: seq<Byte>, pos: nat, a: seq<Byte>, b: seq<Byte>)
    requires pos <= |file|
    ensures Overwrite(Overwrite(file, pos, a), pos + |a|, b) == Overwrite(file, pos, a + b)
  {
  }

  /** Writing into the gap or over the end leaves the entries alone. */
  lemma WriteBetween(crc: Checksum, file: seq<Byte>, v: View, data: seq<Byte>)
    requires Holds(crc, file, v) && (v.older == [] || |data| <= v.gap)
    requires v.older == [] ==> v.gap == 0 || |data| <= v.gap
    ensures var r := Overwrite(file, v.WriteOffset(), data);
            && Holds(crc, r, v)
            && r[v.WriteOffset()..v.WriteOffset() + |data|] == data
  {
    var w := v.WriteOffset();
    OverwriteFacts(file, w, data);
    EmptyBytes(crc);
    OverwriteKeeps(file, w, data, OFFSET_CONTENT, w);
    if v.older != [] {
      OverwriteKeeps(file, w, data, w + v.gap, v.End());
    }
    hide Overwrite, AllBytes, TotalSize;
  }

  lemma EmptyBytes(crc: Checksum)
    ensures AllBytes(crc, []) == [] && TotalSize([]) == 0
  {}

  lemma EntryAppended(crc: Checksum, file: seq<Byte>, v: View, e: Entry)
    requires Holds(crc, file, v) && (v.wrapped ==> e.Size() <= v.gap) && (!v.wrapped ==> v.older == [] && v.gap == 0)
    ensures Holds(crc, Overwrite(file, v.WriteOffset(), EntryBytes(crc, e)), Append(v, e))
  {
    EmptyBytes(crc);
    hide AllBytes, EntryBytes, Overwrite, TotalSize;
    var w, data := v.WriteOffset(), EntryBytes(crc, e);
    var r, end := Overwrite(file, w, data), w + |data|;
    WriteBetween(crc, file, v, data);
    AppendEntry(crc, v.newer, e);
    TotalSizeSnoc(v.newer, e);
    assert Append(v, e).WriteOffset() == end;
    JoinSlices(r, OFFSET_CONTENT, w, end);
    if !v.wrapped {
      assert r[end..end] == [] == AllBytes(crc, v.older);
    }
  }

  /** At the start of a run of entries, read_entry finds the first of them. */
  lemma FirstEntry(crc: Checksum, entrySize: nat, file: seq<Byte>, from: nat, to: nat, es: seq<Entry>)
    requires es != [] && AllStorable(es, entrySize) && entrySize < 0x1_0000_0000
    requires from <= to <= |file| && file[from..to] == AllBytes(crc, es)
    ensures ReadEntry(crc, entrySize, file, from) == Read(es[0], from + es[0].Size())
    ensures from + es[0].Size() <= to && file[from + es[0].Size()..to] == AllBytes(crc, es[1..])
  {
    assert es[0].Storable(entrySize);
    assert file[from..to] == EntryBytes(crc, es[0]) + AllBytes(crc, es[1..]);
    hide AllBytes, EntryBytes, ReadEntry;
    SplitSlice(file, from, to, EntryBytes(crc, es[0]), AllBytes(crc, es[1..]));
    EntryRoundTrip(crc, entrySize, file, from, es[0]);
  }

  lemma DropOldestPlaces(u: View)
    requires u.older != []
    ensures var d := DropOldest(u);
            && d.WriteOffset() + d.gap == u.WriteOffset() + u.gap + u.older[0].Size() && d.End() == u.End()
            && d.older == u.older[1..] && d.newer == u.newer && d.WriteOffset() == u.WriteOffset()
  {
    assert TotalSize(u.older) == u.older[0].Size() + TotalSize(u.older[1..]);
  }

  lemma RestStorable(es: seq<Entry>, entrySize: nat)
    requires es != [] && AllStorable(es, entrySize)
    ensures AllStorable(es[1..], entrySize)
  {}

  lemma DropOldestHolds(crc: Checksum, file: seq<Byte>, entrySize: nat, u: View)
    requires Holds(crc, file, u) && AllStorable(u.older, entrySize) && entrySize < 0x1_0000_0000 && u.older != []
    ensures Holds(crc, file, DropOldest(u)) && AllStorable(DropOldest(u).older, entrySize)
  {
    DropOldestPlaces(u);
    RestStorable(u.older, entrySize);
    hide AllBytes, ReadEntry, TotalSize, AllStorable, DropOldest;
    FirstEntry(crc, entrySize, file, u.WriteOffset() + u.gap, u.End(), u.older);
  }

  lemma {:induction false} MakeRoomHolds(crc: Checksum, file: seq<Byte>, limits: Limits, u: View, need: nat)
    requires Holds(crc, file, u) && AllStorable(u.older, limits.entrySize) && limits.entrySize < 0x1_0000_0000
    ensures Holds(crc, file, MakeRoom(u, need))
    decreases |u.older|
  {
    hide AllBytes;
    if u.gap < need && u.older != [] {
      hide Holds, AllStorable;
      DropOldestHolds(crc, file, limits.entrySize, u);
      MakeRoomHolds(crc, file, limits, DropOldest(u), need);
    }
  }

  /** The file after preparing: still to be cut to the prepared view, or fitting it exactly. */
  ghost predicate Prepared(crc: Checksum, file: seq<Byte>, p: View, cut: bool) {
    && Holds(crc, file, p)
    && if cut then !p.torn else Layout(crc, file, p)
  }

  lemma WrapValid(limits: Limits, v: View, size: nat)
    requires limits.Valid() && v.Valid(limits) && size <= limits.MaxEntry()
    ensures WrapIfFull(limits, v, size).Valid(limits)
    ensures Full(limits, v, size)
            ==> WrapIfFull(limits, v, size).WriteOffset() + size <= v.WriteOffset() == WrapIfFull(limits, v, size).End()
  {
    var u := WrapIfFull(limits, v, size);
    if Full(limits, v, size) {
      assert u.newer == [] && u.WriteOffset() == OFFSET_CONTENT;
    }
  }

  lemma WrapPrepared(crc: Checksum, limits: Limits, file: seq<Byte>, v: View, size: nat)
    requires limits.Valid() && v.Valid(limits) && size <= limits.MaxEntry() && Layout(crc, file, v)
    ensures WrapIfFull(limits, v, size).Valid(limits)
    ensures Full(limits, v, size)
            ==> WrapIfFull(limits, v, size).WriteOffset() + size <= v.WriteOffset() == WrapIfFull(limits, v, size).End()
    ensures Prepared(crc, file, WrapIfFull(limits, v, size), Full(limits, v, size))
  {
    WrapValid(limits, v, size);
  }

  /** Dropping entries leaves the file prepared, and cuts it only at the end of the scan. */
  lemma RoomPrepared(crc: Checksum, limits: Limits, file: seq<Byte>, u: View, size: nat, cut: bool)
    requires u.Valid(limits) && u.wrapped && Prepared(crc, file, u, cut) && limits.entrySize < 0x1_0000_0000
    ensures Prepared(crc, file, MakeRoom(u, size), cut || !MakeRoom(u, size).wrapped)
  {
    MakeRoomFacts(limits, u, size);
    MakeRoomHolds(crc, file, limits, u, size);
  }

  lemma PreparedOffsets(limits: Limits, v: View, size: nat)
    requires limits.Valid() && v.Valid(limits) && 1 <= size <= limits.MaxEntry()
    ensures var u, p := WrapIfFull(limits, v, size), Prepare(limits, v, size);
            && p.WriteOffset() == u.WriteOffset()
            && (!u.wrapped || u.gap >= size ==> p == u)
            && (u.wrapped && u.gap < size ==> p == MakeRoom(u, size))
            && p.ReadOffset() < 0x1_0000_0000
            && p.End() == (if p.wrapped then u.End() else u.WriteOffset())
            && Cuts(limits, v, size) == (Full(limits, v, size) || (u.wrapped && !p.wrapped))
  {
    var u := WrapIfFull(limits, v, size);
    if u.wrapped {
      WrapValid(limits, v, size);
      MakeRoomFacts(limits, u, size);
    }
  }

  lemma SpacePrepared(crc: Checksum, limits: Limits, file: seq<Byte>, v: View, size: nat)
    requires limits.Valid() && v.Valid(limits) && size <= limits.MaxEntry() && Layout(crc, file, v)
    ensures Prepared(crc, file, Prepare(limits, v, size), Cuts(limits, v, size))
  {
    var u := WrapIfFull(limits, v, size);
    WrapPrepared(crc, limits, file, v, size);
    if u.wrapped {
      RoomPrepared(crc, limits, file, u, size, Full(limits, v, size));
      if Full(limits, v, size) {
        MakeRoomFacts(limits, u, size);
      }
    }
  }

  /** The accepted entry: the written file carries the new view once it is cut to the view's end. */
  lemma EntryWritten(crc: Checksum, limits: Limits, file: seq<Byte>, p: View, cut: bool, e: Entry)
    requires Prepared(crc, file, p, cut) && p.Valid(limits) && e.Storable(limits.entrySize)
    requires p.wrapped ==> e.Size() <= p.gap
    ensures var r := Overwrite(file, p.WriteOffset(), EntryBytes(crc, e));
            Holds(crc, r, Append(p, e)) && (!cut ==> Append(p, e).End() == |r|)
  {
    EntryAppended(crc, file, p, e);
    TotalSizeSnoc(p.newer, e);
  }

  lemma HeaderWritten(crc: Checksum, file: seq<Byte>, a: View, h: Header)
    requires Holds(crc, file, a) && !a.torn
    ensures var r := WriteHeader(crc, file, h)[..a.End()];
            Layout(crc, r, a) && ReadHeader(crc, r) == HeaderFound(h)
  {
    var r := WriteHeader(crc, file, h);
    WriteHeaderFacts(crc, file, h);
    SameContent(crc, file, r, a);
    HeaderRoundTrip(crc, file, h);
    CutBehindEnd(crc, r, a, a.End());
    HeaderDependsOnPrefix(crc, r, r[..a.End()]);
  }

  /** The refused empty entry: its head is written and nothing else. */
  lemma HeadWritten(crc: Checksum, limits: Limits, file: seq<Byte>, p: View, cut: bool, info: seq<Byte>)
    requires Prepared(crc, file, p, cut) && p.Valid(limits)
    requires p.wrapped ==> OVERHEAD <= p.gap
    requires |info| == INFO_SIZE && Load32(info[8..12]) == 0
    ensures var r := Overwrite(file, p.WriteOffset(), info);
            var v := if p.wrapped then p else p.(torn := !cut);
            Layout(crc, if cut then Truncate(r, p.End()) else r, v)
  {
    var w := p.WriteOffset();
    var r := Overwrite(file, w, info);
    WriteBetween(crc, file, p, info);
    if cut {
      CutBehindEnd(crc, r, p, p.End());
    }
    SliceOfSlice(r, w, w + INFO_SIZE, 8, 12);
  }

  function CutTo(file: seq<Byte>, cut: bool, length: nat): seq<Byte> {
    if cut then Truncate(file, length) else file
  }

  /** The bytes write_entry writes for an entry, and then the header `h` if it gets that far. */
  function Written(crc: Checksum, file: seq<Byte>, pos: nat, e: Entry, h: Header): seq<Byte>
    requires pos <= |file|
  {
    if e.content == [] then Overwrite(file, pos, InfoBytes(e.timestamp, 0, e.severity))
    else WriteHeader(crc, Overwrite(file, pos, EntryBytes(crc, e)), h)
  }

  lemma RefusedLayout(crc: Checksum, limits: Limits, file: seq<Byte>, v: View, e: Entry, h: Header)
    requires limits.Valid() && v.Valid(limits) && e.content == [] && Layout(crc, file, v)
    ensures Prepare(limits, v, e.Size()).WriteOffset() <= |file|
    ensures var p := Prepare(limits, v, e.Size());
            Layout(crc, CutTo(Written(crc, file, p.WriteOffset(), e, h), Cuts(limits, v, e.Size()), p.End()),
                   Step(limits, v, e))
  {
    hide MakeRoom, TotalSize, AllBytes, Overwrite;
    SpacePrepared(crc, limits, file, v, e.Size());
    PrepareFacts(limits, v, e.Size());
    InfoRoundTrip(e.timestamp, 0, e.severity);
    HeadWritten(crc, limits, file, Prepare(limits, v, e.Size()), Cuts(limits, v, e.Size()),
                InfoBytes(e.timestamp, 0, e.severity));
  }

  lemma StoredLayout(crc: Checksum, limits: Limits, file: seq<Byte>, v: View, e: Entry, h: Header)
    requires limits.Valid() && v.Valid(limits) && e.Storable(limits.entrySize) && Layout(crc, file, v)
    ensures Prepare(limits, v, e.Size()).WriteOffset() <= |file|
    ensures var a := Step(limits, v, e);
            var r := CutTo(Written(crc, file, Prepare(limits, v, e.Size()).WriteOffset(), e, h),
                           Cuts(limits, v, e.Size()), a.End());
            Layout(crc, r, a) && ReadHeader(crc, r) == HeaderFound(h)
  {
    hide MakeRoom, TotalSize, AllBytes, EntryBytes, ReadHeader, WriteHeader, Overwrite;
    var p, cut := Prepare(limits, v, e.Size()), Cuts(limits, v, e.Size());
    SpacePrepared(crc, limits, file, v, e.Size());
    PrepareFacts(limits, v, e.Size());
    EntryWritten(crc, limits, file, p, cut, e);
    HeaderWritten(crc, Overwrite(file, p.WriteOffset(), EntryBytes(crc, e)), Append(p, e), h);
    var whole := Written(crc, file, p.WriteOffset(), e, h);
    assert whole[..|whole|] == whole;
  }

  /** The file after write_entry and, where it asks for it, truncate. */
  function FileAfter(crc: Checksum, limits: Limits, file: seq<Byte>, v: View, e: Entry, h: Header): seq<Byte>
    requires Prepare(limits, v, e.Size()).WriteOffset() <= |file|
  {
    var p := Prepare(limits, v, e.Size());
    var end := if e.content == [] then p.End() else Append(p, e).End();
    CutTo(Written(crc, file, p.WriteOffset(), e, h), Cuts(limits, v, e.Size()), end)
  }

  /** Every call of write_entry takes the layout of one view to the layout of the next. */
  lemma StepLayout(crc: Checksum, limits: Limits, file: seq<Byte>, v: View, e: Entry, h: Header)
    requires limits.Valid() && v.Valid(limits) && |e.content| <= limits.entrySize && Layout(crc, file, v)
    ensures Prepare(limits, v, e.Size()).WriteOffset() <= |file|
    ensures Layout(crc, FileAfter(crc, limits, file, v, e, h), Step(limits, v, e))
    ensures e.content != [] ==> ReadHeader(crc, FileAfter(crc, limits, file, v, e, h)) == HeaderFound(h)
  {
    if e.content == [] {
      RefusedLayout(crc, limits, file, v, e, h);
    } else {
      StoredLayout(crc, limits, file, v, e, h);
    }
  }

  lemma AppendEnd(p: View, e: Entry)
    requires (p.wrapped ==> e.Size() <= p.gap) && (!p.wrapped ==> p.gap == 0 && p.older == [])
    ensures var w, a := p.WriteOffset() + e.Size(), Append(p, e);
            && a.WriteOffset() == w
            && a.ReadOffset() == p.ReadOffset()
            && a.wrapped == p.wrapped
            && a.End() == (if w > p.End() then w else p.End())
  {
    TotalSizeSnoc(p.newer, e);
  }

  lemma EntryInPieces(crc: Checksum, file: seq<Byte>, pos: nat, e: Entry)
    requires pos <= |file|
    ensures var info, content := InfoBytes(e.timestamp, |e.content|, e.severity), e.content;
            var check, body := Bytes32(EntryCrc(crc, info, content)), pos + INFO_SIZE;
            Overwrite(Overwrite(Overwrite(file, pos, info), body, content), body + |content|, check)
            == Overwrite(file, pos, EntryBytes(crc, e))
  {
    hide Overwrite, InfoBytes, EntryCrc, Bytes32;
    var info := InfoBytes(e.timestamp, |e.content|, e.severity);
    OverwriteTwice(file, pos, info, e.content);
    OverwriteTwice(file, pos, info + e.content, Bytes32(EntryCrc(crc, info, e.content)));
  }

  lemma EndRefused(crc: Checksum, entrySize: nat, file: seq<Byte>, v: View)
    requires Layout(crc, file, v)
    ensures ReadEntry(crc, entrySize, file, v.End()) == Refused(if v.torn then Fail else NotFound)
  {
    SliceOfSlice(file, v.End(), v.End() + (|file| - v.End()), 0, |file| - v.End());
    if v.torn {
      SliceOfSlice(file, v.End(), v.End() + INFO_SIZE, 8, 12);
    }
  }

  // ----- reading

  /** read_entry, called again and again from `from`, gives exactly `es` and stops at `to`. */
  ghost predicate Tiles(crc: Checksum, entrySize: nat, file: seq<Byte>, from: nat, to: nat, es: seq<Entry>)
    decreases |es|
  {
    && from <= to <= |file|
    && if es == [] then from == to
       else
         && ReadEntry(crc, entrySize, file, from) == Read(es[0], from + es[0].Size())
         && Tiles(crc, entrySize, file, from + es[0].Size(), to, es[1..])
  }

  /** What the next read_entry finds. */
  lemma TilesNext(crc: Checksum, entrySize: nat, file: seq<Byte>, from: nat, to: nat, es: seq<Entry>)
    requires Tiles(crc, entrySize, file, from, to, es)
    ensures from <= to <= |file| && (es == [] <==> from == to)
    ensures es != [] ==>
              && ReadEntry(crc, entrySize, file, from) == Read(es[0], from + es[0].Size())
              && Tiles(crc, entrySize, file, from + es[0].Size(), to, es[1..])
  {
    if es != [] {
      hide ReadEntry;
    }
  }

  lemma NothingTiles(crc: Checksum, entrySize: nat, file: seq<Byte>, from: nat, to: nat)
    requires from <= to <= |file| && file[from..to] == AllBytes(crc, [])
    ensures Tiles(crc, entrySize, file, from, to, [])
  {
    assert |file[from..to]| == 0;
  }

  lemma TilesCons(crc: Checksum, entrySize: nat, file: seq<Byte>, from: nat, to: nat, es: seq<Entry>)
    requires es != [] && from <= to <= |file|
    requires ReadEntry(crc, entrySize, file, from) == Read(es[0], from + es[0].Size())
    requires Tiles(crc, entrySize, file, from + es[0].Size(), to, es[1..])
    ensures Tiles(crc, entrySize, file, from, to, es)
  {
    hide ReadEntry;
  }

  lemma {:induction false} BytesTile(crc: Checksum, entrySize: nat, file: seq<Byte>, from: nat, to: nat, es: seq<Entry>)
    requires AllStorable(es, entrySize) && entrySize < 0x1_0000_0000
    requires from <= to <= |file| && file[from..to] == AllBytes(crc, es)
    ensures Tiles(crc, entrySize, file, from, to, es)
    decreases |es|
  {
    hide ReadEntry, AllBytes, AllStorable, Tiles, TotalSize;
    if es == [] {
      NothingTiles(crc, entrySize, file, from, to);
    } else {
      FirstEntry(crc, entrySize, file, from, to, es);
      RestStorable(es, entrySize);
      BytesTile(crc, entrySize, file, from + es[0].Size(), to, es[1..]);
      TilesCons(crc, entrySize, file, from, to, es);
    }
  }

  /** A log is its two segments, one entry behind the other. */
  lemma ContentsTile(crc: Checksum, limits: Limits, file: seq<Byte>, v: View)
    requires limits.Valid() && v.Valid(limits) && Layout(crc, file, v)
    ensures Tiles(crc, limits.entrySize, file, v.ReadOffset(), v.End(), if v.wrapped then v.older else v.newer)
    ensures Tiles(crc, limits.entrySize, file, OFFSET_CONTENT, v.WriteOffset(), v.newer)
  {
    EmptyBytes(crc);
    hide Tiles, AllBytes, TotalSize;
    BytesTile(crc, limits.entrySize, file, v.ReadOffset(), v.End(), if v.wrapped then v.older else v.newer);
    BytesTile(crc, limits.entrySize, file, OFFSET_CONTENT, v.WriteOffset(), v.newer);
  }

  /** The scan of write_entry over the oldest entries, from the read offset until `size` bytes are free. */
  method ScanForRoom(crc: Checksum, entrySize: nat, file: seq<Byte>, header: Header, size: nat, ghost u: View)
      returns (current: nat, refused: bool)
    requires u.wrapped && Describes(header, u) && Tiles(crc, entrySize, file, u.ReadOffset(), u.End(), u.older)
    requires u.End() == |file| || u.WriteOffset() + size <= u.End()
    ensures refused == !MakeRoom(u, size).wrapped
    ensures !refused ==> current == MakeRoom(u, size).ReadOffset()
  {
    hide ReadEntry;
    current, refused := header.readOffset, false;
    ghost var m := u;
    while current < header.writeOffset + size
      invariant m.wrapped && m.newer == u.newer && current == m.ReadOffset()
      invariant Tiles(crc, entrySize, file, current, u.End(), m.older)
      invariant MakeRoom(m, size) == MakeRoom(u, size)
      decreases |m.older|
    {
      match ReadEntry(crc, entrySize, file, current) {
        case Read(_, next) =>
          current := next;
          m := DropOldest(m);
        case Refused(_) =>
          refused := true;
          break;
      }
    }
  }

  /** What reading finds, and how it ends. */
  datatype Reading = Reading(entries: seq<Entry>, status: Status)

  /** Reading on until read_entry refuses. */
  function ReadAll(crc: Checksum, entrySize: nat, file: seq<Byte>, pos: nat): (r: Reading)
    ensures r.status != Ok
    decreases |file| - pos
  {
    match ReadEntry(crc, entrySize, file, pos)
    case Refused(s) => Reading([], s)
    case Read(e, next) => var rest := ReadAll(crc, entrySize, file, next); Reading([e] + rest.entries, rest.status)
  }

  /** Reading on up to the offset `end`. */
  function ReadUpTo(crc: Checksum, entrySize: nat, file: seq<Byte>, pos: nat, end: nat): Reading
    decreases |file| - pos
  {
    if pos >= end then Reading([], Ok)
    else
      match ReadEntry(crc, entrySize, file, pos)
      case Refused(s) => Reading([], s)
      case Read(e, next) =>
        var rest := ReadUpTo(crc, entrySize, file, next, end);
        Reading([e] + rest.entries, rest.status)
  }

  /** What publishing finds in a file with header `h`: the older entries, and if that went well the newer ones. */
  function Found(crc: Checksum, entrySize: nat, file: seq<Byte>, h: Header): Reading {
    var older := ReadAll(crc, entrySize, file, h.readOffset);
    if older.status != NotFound then older
    else if !h.wrapped then Reading(older.entries, Ok)
    else
      var newer := ReadUpTo(crc, entrySize, file, OFFSET_CONTENT, h.writeOffset);
      Reading(older.entries + newer.entries, newer.status)
  }

  lemma {:induction false} TilesReadAll(crc: Checksum, entrySize: nat, file: seq<Byte>, from: nat, to: nat,
                                        es: seq<Entry>)
    requires Tiles(crc, entrySize, file, from, to, es) && ReadEntry(crc, entrySize, file, to).Refused?
    ensures ReadAll(crc, entrySize, file, from) == Reading(es, ReadEntry(crc, entrySize, file, to).status)
    decreases |es|
  {
    hide ReadEntry, Tiles;
    TilesNext(crc, entrySize, file, from, to, es);
    if es != [] {
      assert [es[0]] + es[1..] == es;
      TilesReadAll(crc, entrySize, file, from + es[0].Size(), to, es[1..]);
    }
  }

  lemma {:induction false} TilesReadUpTo(crc: Checksum, entrySize: nat, file: seq<Byte>, from: nat, to: nat,
                                         es: seq<Entry>)
    requires Tiles(crc, entrySize, file, from, to, es)
    ensures ReadUpTo(crc, entrySize, file, from, to) == Reading(es, Ok)
    decreases |es|
  {
    hide ReadEntry, Tiles;
    TilesNext(crc, entrySize, file, from, to, es);
    if es != [] {
      assert [es[0]] + es[1..] == es;
      TilesReadUpTo(crc, entrySize, file, from + es[0].Size(), to, es[1..]);
    }
  }

  /** A file that carries a view, with a header that describes it: publishing finds all that is retained. */
  lemma LayoutFound(crc: Checksum, limits: Limits, file: seq<Byte>, v: View, h: Header)
    requires limits.Valid() && v.Valid(limits) && Layout(crc, file, v) && Describes(h, v)
    ensures Found(crc, limits.entrySize, file, h) == Reading(v.Retained(), if v.torn then Fail else Ok)
  {
    EndRefused(crc, limits.entrySize, file, v);
    ContentsTile(crc, limits, file, v);
    hide ReadEntry, Tiles, Layout, ReadAll, ReadUpTo, TotalSize;
    TilesReadAll(crc, limits.entrySize, file, v.ReadOffset(), v.End(), if v.wrapped then v.older else v.newer);
    TilesReadUpTo(crc, limits.entrySize, file, OFFSET_CONTENT, v.WriteOffset(), v.newer);
    assert [] + v.newer == v.newer;
  }

  /** Read and publish entries until read_entry refuses. */
  method PublishAll(crc: Checksum, entrySize: nat, file: seq<Byte>, start: nat)
      returns (status: Status, published: seq<Entry>)
    ensures Reading(published, status) == ReadAll(crc, entrySize, file, start)
  {
    hide ReadEntry;
    published := [];
    var pos: nat := start;
    while true
      invariant var rest := ReadAll(crc, entrySize, file, pos);
                ReadAll(crc, entrySize, file, start) == Reading(published + rest.entries, rest.status)
      decreases |file| - pos
    {
      match ReadEntry(crc, entrySize, file, pos) {
        case Read(e, next) =>
          published, pos := published + [e], next;
        case Refused(s) =>
          return s, published;
      }
    }
  }

  /** Read and publish the entries up to a given offset. */
  method PublishUpTo(crc: Checksum, entrySize: nat, file: seq<Byte>, start: nat, end: nat)
      returns (status: Status, published: seq<Entry>)
    ensures Reading(published, status) == ReadUpTo(crc, entrySize, file, start, end)
  {
    hide ReadEntry;
    published, status := [], Ok;
    var pos: nat := start;
    while pos < end
      invariant var rest := ReadUpTo(crc, entrySize, file, pos, end);
                ReadUpTo(crc, entrySize, file, start, end) == Reading(published + rest.entries, rest.status)
      invariant status == Ok
      decreases |file| - pos
    {
      match ReadEntry(crc, entrySize, file, pos) {
        case Read(e, next) =>
          published, pos := published + [e], next;
        case Refused(s) =>
          status := s;
          break;
      }
    }
  }

  // ----- the log

  /** A refused entry never reaches the header on file. */
  lemma RefusedHeader(crc: Checksum, limits: Limits, file: seq<Byte>, v: View, e: Entry, h: Header)
    requires limits.Valid() && v.Valid(limits) && e.content == [] && Layout(crc, file, v)
    ensures Prepare(limits, v, e.Size()).WriteOffset() <= |file|
    ensures ReadHeader(crc, FileAfter(crc, limits, file, v, e, h)) == ReadHeader(crc, file)
  {
    var p, info := Prepare(limits, v, e.Size()), InfoBytes(e.timestamp, 0, e.severity);
    RefusedLayout(crc, limits, file, v, e, h);
    hide MakeRoom, TotalSize, AllBytes, ReadHeader, Layout, Prepare;
    OverwriteFacts(file, p.WriteOffset(), info);
    var r := Overwrite(file, p.WriteOffset(), info);
    SamePrefix(r, file, p.WriteOffset());
    HeaderDependsOnPrefix(crc, FileAfter(crc, limits, file, v, e, h), file);
  }

  lemma SamePrefix(a: seq<Byte>, b: seq<Byte>, n: nat)
    requires OFFSET_CONTENT <= n <= |a| && n <= |b| && a[..n] == b[..n]
    ensures a[..OFFSET_CONTENT] == b[..OFFSET_CONTENT]
    ensures forall length | n <= length :: Truncate(a, length)[..OFFSET_CONTENT] == b[..OFFSET_CONTENT]
  {
    assert a[..OFFSET_CONTENT] == a[..n][..OFFSET_CONTENT] == b[..n][..OFFSET_CONTENT] == b[..OFFSET_CONTENT];
    forall length | n <= length ensures Truncate(a, length)[..OFFSET_CONTENT] == b[..OFFSET_CONTENT] {
      assert Truncate(a, length)[..n] == a[..n];
      assert Truncate(a, length)[..OFFSET_CONTENT] == Truncate(a, length)[..n][..OFFSET_CONTENT];
    }
  }

  /** The header on file, which described the log before, still does so exactly if the head found room. */
  lemma RefusedKeepsHeader(crc: Checksum, limits: Limits, file: seq<Byte>, v: View, e: Entry, h: Header)
    requires limits.Valid() && v.Valid(limits) && e.content == [] && Layout(crc, file, v)
    requires ReadHeader(crc, file).HeaderFound? && Describes(ReadHeader(crc, file).header, v)
    ensures Prepare(limits, v, e.Size()).WriteOffset() <= |file|
    ensures var r := ReadHeader(crc, FileAfter(crc, limits, file, v, e, h));
            r.HeaderFound? && (Describes(r.header, Step(limits, v, e)) <==> KeepsOffsets(limits, v))
  {
    RefusedHeader(crc, limits, file, v, e, h);
    RefusedKeepsOffsets(limits, v, e);
    hide MakeRoom, TotalSize, AllBytes, ReadHeader, Layout, Prepare, FileAfter, Step;
  }

  // ----- what a restart finds after a refused entry

  /** The head of a refused entry reaches into the oldest entry. */
  predicate Clips(v: View) {
    v.wrapped && v.older != [] && v.gap < INFO_SIZE
  }

  /** There is nothing left of the older entries but a gap too small for another head. */
  predicate Runs(v: View) {
    v.wrapped && v.older == [] && v.gap < OVERHEAD
  }

  /** Where the head of a refused entry goes, and when the file is cut. */
  lemma RefusedPlace(limits: Limits, v: View)
    requires limits.Valid() && v.Valid(limits)
    ensures var p := Prepare(limits, v, OVERHEAD);
            if Full(limits, v, OVERHEAD) then
              p.WriteOffset() == OFFSET_CONTENT && Cuts(limits, v, OVERHEAD) && p.End() <= v.WriteOffset()
            else
              && p.WriteOffset() == v.WriteOffset() && (Cuts(limits, v, OVERHEAD) <==> Runs(v))
              && (Runs(v) ==> p.End() == v.WriteOffset())
  {
    PreparedOffsets(limits, v, OVERHEAD);
    EmptySize();
    if !Full(limits, v, OVERHEAD) && v.wrapped {
      OldestMakesRoom(limits, v);
    }
    hide MakeRoom, TotalSize;
  }

  lemma RefusedFile(crc: Checksum, limits: Limits, file: seq<Byte>, v: View, e: Entry, h: Header)
    requires limits.Valid() && v.Valid(limits) && e.content == [] && Layout(crc, file, v)
    ensures var p := Prepare(limits, v, OVERHEAD);
            && p.WriteOffset() <= |file|
            && FileAfter(crc, limits, file, v, e, h)
               == CutTo(Overwrite(file, p.WriteOffset(), InfoBytes(e.timestamp, 0, e.severity)),
                        Cuts(limits, v, OVERHEAD), p.End())
  {
    RefusedLayout(crc, limits, file, v, e, h);
    hide Layout, Overwrite, Truncate, InfoBytes, Prepare, Cuts;
  }

  /** The oldest entry alone makes room for the head of another. */
  lemma OldestMakesRoom(limits: Limits, v: View)
    requires v.Valid(limits) && v.wrapped
    ensures MakeRoom(v, OVERHEAD).wrapped <==> v.older != [] || v.gap >= OVERHEAD
    ensures MakeRoom(v, OVERHEAD).newer == v.newer
    ensures !MakeRoom(v, OVERHEAD).wrapped ==> MakeRoom(v, OVERHEAD).gap == 0
  {
    MakeRoomNewer(v, OVERHEAD);
    if v.gap < OVERHEAD && v.older != [] {
      assert v.older[0].Storable(limits.entrySize);
      MakeRoomEnough(DropOldest(v), OVERHEAD);
    }
  }

  /** With room for its head in the gap, the file still carries the log as it was. */
  lemma HeadInGap(crc: Checksum, file: seq<Byte>, v: View, info: seq<Byte>)
    requires Layout(crc, file, v) && v.wrapped && !v.torn && INFO_SIZE <= v.gap && |info| == INFO_SIZE
    ensures Layout(crc, Overwrite(file, v.WriteOffset(), info), v)
  {
    WriteBetween(crc, file, v, info);
    OverwriteFacts(file, v.WriteOffset(), info);
  }

  /** Cut back to its newer entries, the file still has these. */
  lemma CutFound(crc: Checksum, limits: Limits, file: seq<Byte>, v: View, h: Header, info: seq<Byte>)
    requires limits.Valid() && v.Valid(limits) && Layout(crc, file, v) && Describes(h, v)
    requires v.wrapped && v.older == []
    ensures var r := Truncate(Overwrite(file, v.WriteOffset(), info), v.WriteOffset());
            Found(crc, limits.entrySize, r, h) == Reading(v.newer, Ok)
  {
    var w := v.WriteOffset();
    var r := Truncate(Overwrite(file, w, info), w);
    OverwriteFacts(file, w, info);
    assert r == file[..w] && r[OFFSET_CONTENT..w] == file[OFFSET_CONTENT..w];
    BytesTile(crc, limits.entrySize, r, OFFSET_CONTENT, w, v.newer);
    BehindEnd(crc, limits.entrySize, r, v.ReadOffset());
    hide ReadEntry, Tiles, Layout, ReadAll, ReadUpTo, TotalSize, Overwrite, Truncate;
    TilesReadUpTo(crc, limits.entrySize, r, OFFSET_CONTENT, w, v.newer);
    assert [] + v.newer == v.newer;
  }

  lemma BehindEnd(crc: Checksum, entrySize: nat, file: seq<Byte>, pos: nat)
    requires pos >= |file|
    ensures ReadAll(crc, entrySize, file, pos) == Reading([], NotFound)
  {}

  lemma FirstRefused(crc: Checksum, entrySize: nat, file: seq<Byte>, h: Header)
    requires ReadEntry(crc, entrySize, file, OFFSET_CONTENT).Refused?
    requires h.readOffset == OFFSET_CONTENT || h.readOffset >= |file|
    ensures Found(crc, entrySize, file, h).entries == []
  {
    hide ReadEntry;
    if h.readOffset >= |file| {
      BehindEnd(crc, entrySize, file, h.readOffset);
    }
  }

  /** A full log: the head overwrites the first entry and the rest of the last cycle is cut off. */
  lemma FullFindsNothing(crc: Checksum, limits: Limits, file: seq<Byte>, v: View, e: Entry, h: Header, g: Header)
    requires limits.Valid() && v.Valid(limits) && e.content == [] && Layout(crc, file, v) && Describes(g, v)
    requires Full(limits, v, OVERHEAD)
    ensures Prepare(limits, v, e.Size()).WriteOffset() <= |file|
    ensures Found(crc, limits.entrySize, FileAfter(crc, limits, file, v, e, h), g).entries == []
    ensures v.Retained() != []
  {
    var p, info := Prepare(limits, v, OVERHEAD), InfoBytes(e.timestamp, 0, e.severity);
    RefusedPlace(limits, v);
    RefusedFile(crc, limits, file, v, e, h);
    InfoRoundTrip(e.timestamp, 0, e.severity);
    EmptySize();
    OverwriteFacts(file, OFFSET_CONTENT, info);
    hide MakeRoom, TotalSize, AllBytes, Layout, Prepare, Overwrite, ReadEntry, Found, FileAfter, InfoBytes;
    HeadRefused(crc, limits.entrySize, Overwrite(file, OFFSET_CONTENT, info), info, p.End());
    FirstRefused(crc, limits.entrySize, FileAfter(crc, limits, file, v, e, h), g);
  }

  lemma RestartFindsAll(crc: Checksum, limits: Limits, file: seq<Byte>, v: View, e: Entry, h: Header, g: Header)
    requires limits.Valid() && v.Valid(limits) && e.content == [] && Layout(crc, file, v) && Describes(g, v)
    requires !Full(limits, v, OVERHEAD) && !Clips(v)
    ensures Prepare(limits, v, e.Size()).WriteOffset() <= |file|
    ensures Found(crc, limits.entrySize, FileAfter(crc, limits, file, v, e, h), g).entries == v.Retained()
  {
    hide ReadHeader, Found, Overwrite, MakeRoom, TotalSize, AllBytes, InfoBytes, Truncate;
    if !v.wrapped {
      RefusedLayout(crc, limits, file, v, e, h);
      LayoutFound(crc, limits, FileAfter(crc, limits, file, v, e, h), v.(torn := true), g);
    } else {
      var info := InfoBytes(e.timestamp, 0, e.severity);
      RefusedPlace(limits, v);
      RefusedFile(crc, limits, file, v, e, h);
      hide Layout, FileAfter, Full, Prepare, Cuts;
      if Runs(v) {
        CutFound(crc, limits, file, v, g, info);
        assert [] + v.newer == v.newer;
      } else {
        HeadInGap(crc, file, v, info);
        LayoutFound(crc, limits, FileAfter(crc, limits, file, v, e, h), v, g);
      }
    }
  }

  /** What publishing finds when a restart takes the header on file after a refused entry. */
  ghost predicate AfterRefused(limits: Limits, v: View, found: seq<Entry>) {
    && (Full(limits, v, OVERHEAD) ==> found == [] != v.Retained())
    && (!Full(limits, v, OVERHEAD) && !Clips(v) ==> found == v.Retained())
  }

  /**
    A refused entry and then a restart: everything is found while the log is not full and the head does not reach
    into the oldest entry, and nothing is found once it is full.
   */
  lemma RestartAfterRefused(crc: Checksum, limits: Limits, file: seq<Byte>, v: View, e: Entry, h: Header)
    requires limits.Valid() && v.Valid(limits) && e.content == [] && Layout(crc, file, v)
    requires ReadHeader(crc, file).HeaderFound? && Describes(ReadHeader(crc, file).header, v)
    ensures Prepare(limits, v, e.Size()).WriteOffset() <= |file|
    ensures var r := FileAfter(crc, limits, file, v, e, h);
            && ReadHeader(crc, r) == ReadHeader(crc, file)
            && AfterRefused(limits, v, Found(crc, limits.entrySize, r, ReadHeader(crc, r).header).entries)
  {
    var g := ReadHeader(crc, file).header;
    RefusedHeader(crc, limits, file, v, e, h);
    hide ReadHeader, Found, FileAfter, Full, Layout, Prepare, TotalSize;
    if Full(limits, v, OVERHEAD) {
      FullFindsNothing(crc, limits, file, v, e, h, g);
    } else if !Clips(v) {
      RestartFindsAll(crc, limits, file, v, e, h, g);
    }
  }

  // ----- when the head reaches into the oldest entry

  /** The head of an entry, overwritten from the front with what another head has left of its end. */
  function ClippedInfo(head: seq<Byte>, whole: seq<Byte>, gap: nat): seq<Byte>
    requires |head| == |whole| == INFO_SIZE && gap <= INFO_SIZE
  {
    head[gap..] + whole[INFO_SIZE - gap..]
  }

  lemma ClippedFile(file: seq<Byte>, w: nat, gap: nat, head: seq<Byte>)
    requires |head| == INFO_SIZE && gap <= INFO_SIZE && w + gap + INFO_SIZE <= |file|
    ensures var r, ro := Overwrite(file, w, head), w + gap;
            && r[ro..ro + INFO_SIZE] == ClippedInfo(head, file[ro..ro + INFO_SIZE], gap)
            && (forall i, j | ro + INFO_SIZE <= i <= j <= |file| :: r[i..j] == file[i..j])
            && (forall i, j | 0 <= i <= j <= w :: r[i..j] == file[i..j])
  {
    var r, ro := Overwrite(file, w, head), w + gap;
    assert forall k | ro <= k < |file| :: r[k] == if k < w + INFO_SIZE then head[k - w] else file[k];
    assert forall k | 0 <= k < w :: r[k] == file[k];
  }

  /** An entry read with `info`, which has another timestamp, for its head: nothing if the checksum tells. */
  function Misread(crc: Checksum, x: Entry, info: seq<Byte>): (m: seq<Entry>)
    requires |info| == INFO_SIZE
    ensures |m| <= 1
  {
    var whole := InfoBytes(x.timestamp, |x.content|, x.severity);
    if EntryCrc(crc, info, x.content) != EntryCrc(crc, whole, x.content) then []
    else [x.(timestamp := Load64(info[..8]))]
  }

  /** An entry whose timestamp was overwritten is read as another one if the checksum does not tell. */
  lemma ReadClipped(crc: Checksum, entrySize: nat, file: seq<Byte>, r: seq<Byte>, pos: nat, x: Entry)
    requires x.Storable(entrySize) && entrySize < 0x1_0000_0000
    requires pos + x.Size() <= |file| == |r| && file[pos..pos + x.Size()] == EntryBytes(crc, x)
    requires var whole := InfoBytes(x.timestamp, |x.content|, x.severity); r[pos + 8..pos + INFO_SIZE] == whole[8..]
    requires forall i, j | pos + INFO_SIZE <= i <= j <= |r| :: r[i..j] == file[i..j]
    ensures var m := Misread(crc, x, r[pos..pos + INFO_SIZE]);
            ReadEntry(crc, entrySize, r, pos) == if m == [] then Refused(InvalidCrc) else Read(m[0], pos + x.Size())
  {
    var whole, info := InfoBytes(x.timestamp, |x.content|, x.severity), r[pos..pos + INFO_SIZE];
    EntryParts(crc, file, pos, x);
    InfoRoundTrip(x.timestamp, |x.content|, x.severity);
    Word32RoundTrip(EntryCrc(crc, whole, x.content));
    assert info[8..12] == whole[8..12] && info[12..16] == whole[12..16] by {
      assert info[8..] == whole[8..] && info[8..12] == info[8..][..4] && info[12..16] == info[8..][4..];
    }
    hide EntryCrc, InfoBytes, EntryBytes;
  }

  lemma OldestPlace(crc: Checksum, limits: Limits, file: seq<Byte>, v: View)
    requires limits.Valid() && v.Valid(limits) && Layout(crc, file, v) && v.wrapped && v.older != []
    ensures var ro, x := v.ReadOffset(), v.older[0];
            && ro + x.Size() <= |file| == v.End() && x.Storable(limits.entrySize)
            && file[ro..ro + x.Size()] == EntryBytes(crc, x)
            && file[ro + x.Size()..v.End()] == AllBytes(crc, v.older[1..])
            && AllStorable(v.older[1..], limits.entrySize)
  {
    var ro, x, end := v.ReadOffset(), v.older[0], v.End();
    assert x.Storable(limits.entrySize);
    assert file[ro..end] == EntryBytes(crc, x) + AllBytes(crc, v.older[1..]);
    RestStorable(v.older, limits.entrySize);
    hide AllBytes, EntryBytes, TotalSize, AllStorable;
    SplitSlice(file, ro, end, EntryBytes(crc, x), AllBytes(crc, v.older[1..]));
  }

  /** The entries behind a clipped one, and the newer ones, are where they were. */
  lemma ClippedRest(crc: Checksum, limits: Limits, file: seq<Byte>, v: View, head: seq<Byte>)
    requires limits.Valid() && v.Valid(limits) && Layout(crc, file, v) && Clips(v) && |head| == INFO_SIZE
    ensures var r, ro, x := Overwrite(file, v.WriteOffset(), head), v.ReadOffset(), v.older[0];
            && |file| == |r| == v.End()
            && ReadAll(crc, limits.entrySize, r, ro + x.Size()) == Reading(v.older[1..], NotFound)
            && ReadUpTo(crc, limits.entrySize, r, OFFSET_CONTENT, v.WriteOffset()) == Reading(v.newer, Ok)
  {
    var ro, x, w, end := v.ReadOffset(), v.older[0], v.WriteOffset(), v.End();
    var r := Overwrite(file, w, head);
    OldestPlace(crc, limits, file, v);
    hide AllBytes, EntryBytes, ReadEntry, TotalSize, Overwrite, Tiles, ReadAll, ReadUpTo, AllStorable;
    ClippedFile(file, w, v.gap, head);
    BytesTile(crc, limits.entrySize, r, ro + x.Size(), end, v.older[1..]);
    BytesTile(crc, limits.entrySize, r, OFFSET_CONTENT, w, v.newer);
    AtEnd(crc, limits.entrySize, r);
    TilesReadAll(crc, limits.entrySize, r, ro + x.Size(), end, v.older[1..]);
    TilesReadUpTo(crc, limits.entrySize, r, OFFSET_CONTENT, w, v.newer);
  }

  lemma AtEnd(crc: Checksum, entrySize: nat, file: seq<Byte>)
    ensures ReadEntry(crc, entrySize, file, |file|) == Refused(NotFound)
  {}

  /** Publishing finds nothing when the first entry is refused, and otherwise goes on behind it. */
  lemma FoundFromFirst(crc: Checksum, entrySize: nat, file: seq<Byte>, h: Header)
    ensures var first := ReadEntry(crc, entrySize, file, h.readOffset);
            && (first.Refused? && first.status != NotFound ==> Found(crc, entrySize, file, h).entries == [])
            && (first.Read? ==> Found(crc, entrySize, file, h).entries != [])
            && (first.Read? && h.wrapped && ReadAll(crc, entrySize, file, first.next).status == NotFound ==>
                  Found(crc, entrySize, file, h).entries
                  == [first.entry] + ReadAll(crc, entrySize, file, first.next).entries
                     + ReadUpTo(crc, entrySize, file, OFFSET_CONTENT, h.writeOffset).entries)
  {
    hide ReadEntry, ReadUpTo;
  }

  lemma EmptyRefused(crc: Checksum, entrySize: nat, file: seq<Byte>, pos: nat)
    requires pos + INFO_SIZE <= |file|
    ensures ReadEntry(crc, entrySize, file, pos) != Refused(NotFound)
    ensures Load32(file[pos..pos + INFO_SIZE][8..12]) == 0 ==> ReadEntry(crc, entrySize, file, pos) == Refused(Fail)
  {}

  /** What publishing finds when `head` has been written into the oldest entry, and reading that gives `first`. */
  ghost predicate ClippedFinds(crc: Checksum, v: View, head: seq<Byte>, first: ReadResult, found: seq<Entry>)
    requires Clips(v) && |head| == INFO_SIZE
  {
    var x := v.older[0];
    var m := Misread(crc, x, ClippedInfo(head, InfoBytes(x.timestamp, |x.content|, x.severity), v.gap));
    && (first.Refused? <==> found == [])
    && (v.gap == 0 ==> found == [])
    && (v.gap >= 8 ==> found == if m == [] then [] else m + v.Retained()[1..])
  }

  lemma ClippedTimestamp(crc: Checksum, limits: Limits, file: seq<Byte>, v: View, head: seq<Byte>)
    requires limits.Valid() && v.Valid(limits) && Layout(crc, file, v) && Clips(v) && v.gap >= 8
    requires |head| == INFO_SIZE
    ensures var r, x := Overwrite(file, v.WriteOffset(), head), v.older[0];
            var m := Misread(crc, x, ClippedInfo(head, InfoBytes(x.timestamp, |x.content|, x.severity), v.gap));
            ReadEntry(crc, limits.entrySize, r, v.ReadOffset())
            == if m == [] then Refused(InvalidCrc) else Read(m[0], v.ReadOffset() + x.Size())
  {
    hide AllBytes, EntryBytes, ReadEntry, TotalSize, Overwrite, EntryCrc, InfoBytes, Layout, Misread, AllStorable;
    var x, w, ro := v.older[0], v.WriteOffset(), v.ReadOffset();
    OldestPlace(crc, limits, file, v);
    var r, whole := Overwrite(file, w, head), InfoBytes(x.timestamp, |x.content|, x.severity);
    ClippedFile(file, w, v.gap, head);
    EntryParts(crc, file, ro, x);
    var info := r[ro..ro + INFO_SIZE];
    assert info[8..] == whole[8..] && r[ro + 8..ro + INFO_SIZE] == info[8..];
    ReadClipped(crc, limits.entrySize, file, r, ro, x);
  }

  lemma ClippedFound(crc: Checksum, limits: Limits, file: seq<Byte>, v: View, g: Header, head: seq<Byte>)
    requires limits.Valid() && v.Valid(limits) && Layout(crc, file, v) && Describes(g, v) && Clips(v)
    requires |head| == INFO_SIZE && Load32(head[8..12]) == 0
    ensures var r := Overwrite(file, v.WriteOffset(), head);
            ClippedFinds(crc, v, head, ReadEntry(crc, limits.entrySize, r, v.ReadOffset()),
                         Found(crc, limits.entrySize, r, g).entries)
  {
    hide AllBytes, EntryBytes, ReadEntry, TotalSize, Overwrite, ReadAll, ReadUpTo, Found, InfoBytes, Layout, Misread;
    hide AllStorable, ClippedInfo;
    OldestPlace(crc, limits, file, v);
    var r := Overwrite(file, v.WriteOffset(), head);
    ClippedRest(crc, limits, file, v, head);
    ClippedFirst(crc, limits.entrySize, file, v, head);
    if v.gap >= 8 {
      ClippedTimestamp(crc, limits, file, v, head);
    }
    FoundFromFirst(crc, limits.entrySize, r, g);
    assert v.Retained()[1..] == v.older[1..] + v.newer;
  }

  /** Without any gap the head is all there is to read. */
  lemma ClippedFirst(crc: Checksum, entrySize: nat, file: seq<Byte>, v: View, head: seq<Byte>)
    requires Clips(v) && v.ReadOffset() + INFO_SIZE <= |file| && |head| == INFO_SIZE && Load32(head[8..12]) == 0
    ensures var r := Overwrite(file, v.WriteOffset(), head);
            && ReadEntry(crc, entrySize, r, v.ReadOffset()) != Refused(NotFound)
            && (v.gap == 0 ==> ReadEntry(crc, entrySize, r, v.ReadOffset()) == Refused(Fail))
  {
    hide ReadEntry, Overwrite, TotalSize;
    var r, ro := Overwrite(file, v.WriteOffset(), head), v.ReadOffset();
    ClippedFile(file, v.WriteOffset(), v.gap, head);
    EmptyRefused(crc, entrySize, r, ro);
    assert v.gap == 0 ==> r[ro..ro + INFO_SIZE] == head;
  }

  /**
    The head reaches into the oldest entry. A restart then finds nothing exactly if that entry is refused, which is
    certain without any gap. With a gap of 8 bytes or more only its timestamp is hit, and it is
    refused exactly if the checksum tells; otherwise everything is found, with a wrong time. In between the
    length is hit too.
   */
  lemma RestartAfterClipping(crc: Checksum, limits: Limits, file: seq<Byte>, v: View, e: Entry, h: Header)
    requires limits.Valid() && v.Valid(limits) && e.content == [] && Layout(crc, file, v)
    requires ReadHeader(crc, file).HeaderFound? && Describes(ReadHeader(crc, file).header, v)
    requires !Full(limits, v, OVERHEAD) && Clips(v)
    ensures Prepare(limits, v, e.Size()).WriteOffset() <= |file|
    ensures var r := FileAfter(crc, limits, file, v, e, h);
            && ReadHeader(crc, r) == ReadHeader(crc, file)
            && ClippedFinds(crc, v, InfoBytes(e.timestamp, 0, e.severity),
                            ReadEntry(crc, limits.entrySize, r, v.ReadOffset()),
                            Found(crc, limits.entrySize, r, ReadHeader(crc, r).header).entries)
  {
    RefusedHeader(crc, limits, file, v, e, h);
    RefusedPlace(limits, v);
    RefusedFile(crc, limits, file, v, e, h);
    InfoRoundTrip(e.timestamp, 0, e.severity);
    hide ReadEntry, ReadHeader, TotalSize, Overwrite, Found, InfoBytes, Layout, FileAfter, Full, Prepare, ClippedFinds,
         Cuts;
    ClippedFound(crc, limits, file, v, ReadHeader(crc, file).header, InfoBytes(e.timestamp, 0, e.severity));
  }

  /** A log just full of two entries of one byte, and an empty message: a restart finds neither of them. */
  lemma RefusedMessageLosesLog(crc: Checksum, file: seq<Byte>, a: Entry, b: Entry, e: Entry, h: Header)
    requires |a.content| == |b.content| == 1 && e.content == []
    requires var v := Run(Limits(OFFSET_CONTENT + 2 * (OVERHEAD + 1), 1), [a, b]);
             Layout(crc, file, v) && ReadHeader(crc, file).HeaderFound? && Describes(ReadHeader(crc, file).header, v)
    ensures var limits := Limits(OFFSET_CONTENT + 2 * (OVERHEAD + 1), 1);
            && Prepare(limits, Run(limits, [a, b]), e.Size()).WriteOffset() <= |file|
            && var r := FileAfter(crc, limits, file, Run(limits, [a, b]), e, h);
               && ReadHeader(crc, r) == ReadHeader(crc, file)
               && Found(crc, limits.entrySize, file, ReadHeader(crc, file).header).entries == [a, b]
               && Found(crc, limits.entrySize, r, ReadHeader(crc, r).header).entries == []
  {
    var limits := Limits(OFFSET_CONTENT + 2 * (OVERHEAD + 1), 1);
    var v := Run(limits, [a, b]);
    FilledLog(a, b);
    FilledValid(limits, a, b);
    assert [] + [a, b] == [a, b];
    LayoutFound(crc, limits, file, v, ReadHeader(crc, file).header);
    RestartAfterRefused(crc, limits, file, v, e, h);
    hide Run, Layout, FileAfter, ReadHeader, Found, Step, Prepare, TotalSize;
  }

  lemma FilledValid(limits: Limits, a: Entry, b: Entry)
    requires |a.content| == |b.content| == 1 && limits == Limits(OFFSET_CONTENT + 2 * (OVERHEAD + 1), 1)
    ensures View([], [], [a, b], false, 0, false).Valid(limits)
  {
    assert [a, b][1..] == [b] && [b][1..] == [];
    assert TotalSize([b]) == OVERHEAD + 1 && TotalSize([a, b]) == 2 * (OVERHEAD + 1);
  }

  lemma HeadRefused(crc: Checksum, entrySize: nat, file: seq<Byte>, info: seq<Byte>, length: nat)
    requires |info| == INFO_SIZE && Load32(info[8..12]) == 0
    requires OFFSET_CONTENT + INFO_SIZE <= |file| && file[OFFSET_CONTENT..OFFSET_CONTENT + INFO_SIZE] == info
    requires OFFSET_CONTENT <= length
    ensures OFFSET_CONTENT <= |Truncate(file, length)|
    ensures ReadEntry(crc, entrySize, Truncate(file, length), OFFSET_CONTENT).Refused?
  {
    var r := Truncate(file, length);
    if length >= OFFSET_CONTENT + INFO_SIZE {
      assert r[OFFSET_CONTENT..OFFSET_CONTENT + INFO_SIZE] == info;
    }
  }

  /** A long difference as the size_t it is compared with. */
  function SizeT(d: int): Word32
    requires -0x8000_0000 <= d < 0x8000_0000
  {
    if d < 0 then d + 0x1_0000_0000 else d
  }

  function Severity(message: Block): Word32 {
    if message == [] then 3
    else if message[0] == 'E' as int then 1
    else if message[0] == 'W' as int then 2
    else if message[0] == 'D' as int then 4
    else if message[0] == 'V' as int then 5
    else 3
  }

  /** The first byte alone decides: E before W before anything else before D before V. */
  lemma SeverityOrder(message: Block)
    ensures Severity(message) == 1 <==> message != [] && message[0] == 69
    ensures Severity(message) == 2 <==> message != [] && message[0] == 87
    ensures Severity(message) == 4 <==> message != [] && message[0] == 68
    ensures Severity(message) == 5 <==> message != [] && message[0] == 86
    ensures 1 <= Severity(message) <= 5
  {
    assert 'E' as int == 69 && 'W' as int == 87 && 'D' as int == 68 && 'V' as int == 86;
  }

  /** At no level is an error filtered where anything is kept, or a warning where anything but errors is. */
  lemma NothingUrgentFiltered(message: Block, other: Block, maxSeverity: nat)
    requires message != [] && Severity(other) <= maxSeverity
    ensures message[0] == 69 ==> Severity(message) <= maxSeverity
    ensures message[0] == 87 && !(other != [] && other[0] == 69) ==> Severity(message) <= maxSeverity
  {
    SeverityOrder(message);
    SeverityOrder(other);
  }

  lemma AcceptedSnoc(es: seq<Entry>, e: Entry)
    ensures Accepted(es + [e]) == Accepted(es) + if e.content == [] then [] else [e]
  {
    assert (es + [e])[..|es|] == es;
  }

  class DiagnosticsLog {
    const crc: Checksum
    const logSize: nat
    const entrySize: nat
    const maxSeverity: nat
    var file: seq<Byte>
    var header: Header
    var headerValid: bool
    /** Every entry that passed the severity filter since the log was last emptied. */
    ghost var attempts: seq<Entry>

    ghost function Bounds(): Limits { Limits(logSize, entrySize) }

    ghost function Contents(): View
      reads this`attempts
    {
      Run(Bounds(), attempts)
    }

    ghost predicate ValidFile(f: seq<Byte>)
      reads this
    {
      && Bounds().Valid()
      && (forall i | 0 <= i < |attempts| :: |attempts[i].content| <= entrySize)
      && Layout(crc, f, Contents())
      && if headerValid then Describes(header, Contents())
         else ReadHeader(crc, f).HeaderFound? && Describes(ReadHeader(crc, f).header, Contents())
    }

    ghost predicate Valid()
      reads this
    {
      ValidFile(file)
    }

    /** The header on file describes the log, so a restart finds it again. */
    ghost predicate Saved()
      reads this`file, this`attempts
    {
      ReadHeader(crc, file).HeaderFound? && Describes(ReadHeader(crc, file).header, Contents())
    }

    /** diagnostics_log_init without a file. */
    constructor (crc: Checksum, logSize: nat, entrySize: nat, maxSeverity: nat)
      requires Limits(logSize, entrySize).Valid()
      ensures Valid() && Saved() && attempts == [] && Contents() == EMPTY
      ensures this.crc == crc && this.logSize == logSize && this.entrySize == entrySize
              && this.maxSeverity == maxSeverity
    {
      this.crc, this.logSize, this.entrySize, this.maxSeverity := crc, logSize, entrySize, maxSeverity;
      var h := Header(1, OFFSET_CONTENT, OFFSET_CONTENT, false);
      header, headerValid := h, true;
      file := WriteHeader(crc, [], h);
      attempts := [];
      HeaderRoundTrip(crc, [], h);
    }

    /** diagnostics_log_empty */
    method Empty() returns (status: Status)
      requires Valid()
      modifies this
      ensures Valid() && Saved() && attempts == [] && Contents() == EMPTY && status == Ok
    {
      header := Header(1, OFFSET_CONTENT, OFFSET_CONTENT, false);
      file := WriteHeader(crc, [], header);
      attempts := [];
      HeaderRoundTrip(crc, [], header);
      status := Ok;
    }

    /** diagnostics_log_init on an existing file, after a restart: only what the header on file says is known. */
    method Restart()
      modifies this`file, this`header, this`headerValid
      ensures headerValid
      ensures match ReadHeader(crc, old(file)) {
                case HeaderFound(h) => header == h && file == old(file)
                case HeaderRefused(_) =>
                  && header == Header(1, OFFSET_CONTENT, OFFSET_CONTENT, false)
                  && file == WriteHeader(crc, old(file), header)
              }
      ensures old(Valid()) && old(Saved()) ==> Valid() && Saved()
    {
      match ReadHeader(crc, file) {
        case HeaderFound(h) =>
          header := h;
        case HeaderRefused(_) =>
          header := Header(1, OFFSET_CONTENT, OFFSET_CONTENT, false);
          file := WriteHeader(crc, file, header);
      }
      headerValid := true;
    }

    method UpdateHeaderIfRequired() returns (status: Status)
      modifies this`header, this`headerValid
      ensures old(headerValid) ==> headerValid && header == old(header) && status == Ok
      ensures !old(headerValid) ==>
                match ReadHeader(crc, file)
                case HeaderFound(h) => headerValid && header == h && status == Ok
                case HeaderRefused(s) => !headerValid && header == old(header) && status == s != Ok
      ensures old(Valid()) ==> Valid() && headerValid && status == Ok
    {
      if headerValid {
        return Ok;
      }
      match ReadHeader(crc, file) {
        case HeaderFound(h) =>
          header, headerValid, status := h, true, Ok;
        case HeaderRefused(s) =>
          status := s;
      }
    }

    /** The part of write_entry that decides where the entry goes. */
    method MakeSpace(size: nat, ghost v: View) returns (shouldTruncate: bool, truncateLength: nat)
      requires Bounds().Valid() && v.Valid(Bounds()) && 1 <= size <= Bounds().MaxEntry()
      requires Layout(crc, file, v) && Describes(header, v)
      modifies this`header
      ensures Describes(header, Prepare(Bounds(), v, size))
      ensures shouldTruncate == Cuts(Bounds(), v, size)
      ensures shouldTruncate ==> truncateLength == Prepare(Bounds(), v, size).End()
      ensures header.writeOffset <= |file|
    {
      hide ReadEntry, AllBytes, TotalSize, MakeRoom;
      shouldTruncate, truncateLength := false, 0;
      if header.writeOffset + size > logSize {
        shouldTruncate, truncateLength := true, header.writeOffset;
        header := header.(wrapped := true, writeOffset := OFFSET_CONTENT);
        if header.readOffset >= truncateLength {
          header := header.(readOffset := OFFSET_CONTENT);
        }
      }
      ghost var u := WrapIfFull(Bounds(), v, size);
      WrapPrepared(crc, Bounds(), file, v, size);
      PreparedOffsets(Bounds(), v, size);
      if header.wrapped && size > SizeT(header.readOffset - header.writeOffset) {
        BytesTile(crc, entrySize, file, u.ReadOffset(), u.End(), u.older);
        var current, refused := ScanForRoom(crc, entrySize, file, header, size, u);
        if refused {
          shouldTruncate, truncateLength := true, header.writeOffset;
          if header.readOffset >= truncateLength {
            header := header.(wrapped := false);
            current := OFFSET_CONTENT;
          }
        }
        header := header.(readOffset := current);
      }
    }

    /** The fwrite calls of write_entry, and write_header. */
    method WriteBytes(timestamp: Word64, severity: Word32, content: Block) returns (status: Status)
      requires header.writeOffset <= |file| && header.writeOffset + OVERHEAD + |content| < 0x1_0000_0000
      modifies this`file, this`header
      ensures file == Written(crc, old(file), old(header.writeOffset), Entry(timestamp, severity, content), header)
      ensures header == if content == [] then old(header) else
                          old(header).(writeOffset := old(header.writeOffset) + OVERHEAD + |content|)
      ensures status == if content == [] then Fail else Ok
    {
      ghost var start, e := file, Entry(timestamp, severity, content);
      var w, info := header.writeOffset, InfoBytes(timestamp, |content|, severity);
      file := Overwrite(file, w, info);
      if content == [] {
        // fwrite reports zero items for a zero length, which is taken for a failure.
        return Fail;
      }
      file := Overwrite(file, w + INFO_SIZE, content);
      file := Overwrite(file, w + INFO_SIZE + |content|, Bytes32(EntryCrc(crc, info, content)));
      assert file == Overwrite(start, w, EntryBytes(crc, e)) by {
        EntryInPieces(crc, start, w, e);
      }
      header := header.(writeOffset := w + INFO_SIZE + |content| + CRC_SIZE);
      file := WriteHeader(crc, file, header);
      status := Ok;
    }

    /** write_entry from the seek to the write offset on, with room made as `p` tells. */
    method PlaceEntry(timestamp: Word64, severity: Word32, content: Block, shouldTruncate: bool, length: nat,
                      ghost p: View)
        returns (status: Status, truncateLength: nat)
      requires Describes(header, p) && header.writeOffset <= |file|
      requires header.writeOffset + OVERHEAD + |content| <= logSize < 0x8000_0000
      requires p.Valid(Bounds()) && (p.wrapped ==> OVERHEAD + |content| <= p.gap)
      requires shouldTruncate ==> length == p.End()
      modifies this`file, this`header
      ensures var e := Entry(timestamp, severity, content);
              && file == Written(crc, old(file), p.WriteOffset(), e, header)
              && Describes(header, if content == [] then p else Append(p, e))
              && (shouldTruncate ==> truncateLength == if content == [] then p.End() else Append(p, e).End())
      ensures status == if content == [] then Fail else Ok
    {
      hide TotalSize, AllBytes, Written;
      truncateLength := length;
      status := WriteBytes(timestamp, severity, content);
      if status == Ok {
        AppendEnd(p, Entry(timestamp, severity, content));
        if shouldTruncate && header.writeOffset > truncateLength {
          truncateLength := header.writeOffset;
        }
      }
    }

    /** write_entry after the severity filter and the header check, on the log that `v` describes. */
    method StoreEntry(timestamp: Word64, severity: Word32, content: Block, ghost v: View)
        returns (status: Status, shouldTruncate: bool, truncateLength: nat, ghost after: seq<Byte>)
      requires Bounds().Valid() && v.Valid(Bounds()) && |content| <= entrySize
      requires Layout(crc, file, v) && Describes(header, v)
      modifies this`file, this`header
      ensures Describes(header, Step(Bounds(), v, Entry(timestamp, severity, content)))
      ensures after == CutTo(file, shouldTruncate, truncateLength)
      ensures Prepare(Bounds(), v, OVERHEAD + |content|).WriteOffset() <= |old(file)|
      ensures after == FileAfter(crc, Bounds(), old(file), v, Entry(timestamp, severity, content), header)
      ensures status == if content == [] then Fail else Ok
    {
      hide MakeRoom, TotalSize, Written, Overwrite, Truncate, AllBytes;
      var size := INFO_SIZE + |content| + CRC_SIZE;
      shouldTruncate, truncateLength := MakeSpace(size, v);
      ghost var p := Prepare(Bounds(), v, size);
      PrepareFacts(Bounds(), v, size);
      status, truncateLength := PlaceEntry(timestamp, severity, content, shouldTruncate, truncateLength, p);
      after := CutTo(file, shouldTruncate, truncateLength);
    }

    /** write_entry after the severity filter. */
    method RecordEntry(timestamp: Word64, severity: Word32, content: Block)
        returns (status: Status, shouldTruncate: bool, truncateLength: nat, ghost after: seq<Byte>)
      requires Valid() && headerValid && |content| <= entrySize
      modifies this`file, this`header, this`attempts
      ensures attempts == old(attempts) + [Entry(timestamp, severity, content)]
      ensures after == CutTo(file, shouldTruncate, truncateLength) && ValidFile(after)
      ensures status == if content == [] then Fail else Ok
      ensures content != [] ==> ReadHeader(crc, after) == HeaderFound(header)
      ensures content == [] ==> ReadHeader(crc, after) == ReadHeader(crc, old(file))
      ensures content == [] && old(Saved()) ==>
                && (Describes(ReadHeader(crc, after).header, Contents()) <==> KeepsOffsets(Bounds(), old(Contents())))
                && AfterRefused(Bounds(), old(Contents()),
                                Found(crc, entrySize, after, ReadHeader(crc, after).header).entries)
    {
      hide MakeRoom, TotalSize, Written, Overwrite, Truncate, AllBytes, ReadHeader;
      hide Layout, Describes, FileAfter, Step, Prepare, KeepsOffsets, Found, AfterRefused;
      ghost var v, e, start := Contents(), Entry(timestamp, severity, content), file;
      RunKeepsSuffix(Bounds(), attempts);
      status, shouldTruncate, truncateLength, after := StoreEntry(timestamp, severity, content, v);
      StepLayout(crc, Bounds(), start, v, e, header);
      if content == [] {
        RefusedHeader(crc, Bounds(), start, v, e, header);
        if ReadHeader(crc, start).HeaderFound? && Describes(ReadHeader(crc, start).header, v) {
          RefusedKeepsHeader(crc, Bounds(), start, v, e, header);
          RestartAfterRefused(crc, Bounds(), start, v, e, header);
        }
      }
      attempts := attempts + [e];
      assert attempts[..|attempts| - 1] == old(attempts);
      assert Contents() == Step(Bounds(), v, e);
    }

    /** write_entry, for a message whose colour and date have been stripped already. */
    method WriteEntry(timestamp: Word64, message: Block)
        returns (status: Status, shouldTruncate: bool, truncateLength: nat, ghost after: seq<Byte>)
      requires Valid()
      modifies this
      ensures Severity(message) > maxSeverity ==> attempts == old(attempts)
      ensures Severity(message) <= maxSeverity ==>
                var length := if |message| <= entrySize then |message| else entrySize;
                attempts == old(attempts) + [Entry(timestamp, Severity(message), message[..length])]
      ensures after == CutTo(file, shouldTruncate, truncateLength) && ValidFile(after)
      ensures status == if Severity(message) <= maxSeverity && message == [] then Fail else Ok
      ensures Severity(message) > maxSeverity ==> !shouldTruncate && file == old(file) && header == old(header)
      ensures Severity(message) <= maxSeverity && message != [] ==>
                ReadHeader(crc, after) == HeaderFound(header) && Describes(header, Contents())
      ensures Severity(message) <= maxSeverity && message == [] ==> ReadHeader(crc, after) == ReadHeader(crc, old(file))
      ensures Severity(message) <= maxSeverity && message == [] && old(Saved()) ==>
                && (Describes(ReadHeader(crc, after).header, Contents()) <==> KeepsOffsets(Bounds(), old(Contents())))
                && AfterRefused(Bounds(), old(Contents()),
                                Found(crc, entrySize, after, ReadHeader(crc, after).header).entries)
    {
      hide Run, TotalSize, AllBytes, ReadHeader, Found, AfterRefused;
      shouldTruncate, truncateLength, after := false, 0, file;
      var severity := Severity(message);
      if severity > maxSeverity {
        status := Ok;
        return;
      }
      var content: Block := if |message| > entrySize then message[..entrySize] else message;
      assert message[..|message|] == message;
      status := UpdateHeaderIfRequired();
      if status != Ok {
        return;
      }
      status, shouldTruncate, truncateLength, after := RecordEntry(timestamp, severity, content);
    }

    /** diagnostics_log_write; the message is the formatted text before vsnprintf limits it. */
    method Write(timestamp: Word64, text: Block) returns (status: Status)
      requires Valid()
      modifies this
      ensures Valid()
      ensures var message := if |text| >= entrySize then text[..entrySize - 1] else text;
              && (Severity(message) > maxSeverity ==> attempts == old(attempts))
              && (Severity(message) <= maxSeverity ==>
                    && attempts == old(attempts) + [Entry(timestamp, Severity(message), message)]
                    && (message != [] ==>
                          Accepted(attempts)
                          == old(Accepted(attempts)) + [Entry(timestamp, Severity(message), message)]))
              && status == (if Severity(message) <= maxSeverity && message == [] then Fail else Ok)
              && (Severity(message) > maxSeverity ==> file == old(file) && Saved() == old(Saved()))
              && (Severity(message) <= maxSeverity && message != [] ==> Saved())
              && (Severity(message) <= maxSeverity && message == [] && old(Saved()) ==>
                    && (Saved() <==> KeepsOffsets(Bounds(), old(Contents())))
                    && ReadHeader(crc, file).HeaderFound?
                    && AfterRefused(Bounds(), old(Contents()),
                                    Found(crc, entrySize, file, ReadHeader(crc, file).header).entries))
    {
      hide Run, TotalSize, AllBytes, ReadHeader, Found, AfterRefused;
      var message: Block := if |text| >= entrySize then text[..entrySize - 1] else text;
      var shouldTruncate, truncateLength;
      ghost var after;
      status, shouldTruncate, truncateLength, after := WriteEntry(timestamp, message);
      assert message[..|message|] == message;
      AcceptedSnoc(old(attempts), Entry(timestamp, Severity(message), message));
      if shouldTruncate {
        file := Truncate(file, truncateLength);
      }
    }

    /** diagnostics_log_publish_as_event, on whatever file a restart has left. */
    method Publish() returns (status: Status, published: seq<Entry>)
      modifies this`header, this`headerValid
      ensures if headerValid then Reading(published, status) == Found(crc, entrySize, file, header)
              else published == [] && status != Ok
      ensures old(headerValid) ==> headerValid && header == old(header)
      ensures !old(headerValid) ==>
                (headerValid <==> ReadHeader(crc, file).HeaderFound?)
                && (headerValid ==> header == ReadHeader(crc, file).header)
      ensures old(Valid()) ==>
                && Valid() && Saved() == old(Saved())
                && published == Contents().Retained()
                && Accepted(attempts) == Contents().lost + published
                && (Accepted(attempts) != [] ==>
                      published != [] && published[|published| - 1] == Accepted(attempts)[|Accepted(attempts)| - 1])
                && status == if Contents().torn then Fail else Ok
    {
      hide ReadEntry, ReadHeader, Run, Layout, Accepted, ReadAll, ReadUpTo;
      status := UpdateHeaderIfRequired();
      if status != Ok {
        return status, [];
      }
      if old(Valid()) {
        NewestIsRetained(Bounds(), attempts);
        RunKeepsSuffix(Bounds(), attempts);
        LayoutFound(crc, Bounds(), file, Contents(), header);
      }
      status, published := PublishAll(crc, entrySize, file, header.readOffset);
      if status == NotFound {
        status := Ok;
      }
      if status == Ok && header.wrapped {
        var newest;
        status, newest := PublishUpTo(crc, entrySize, file, OFFSET_CONTENT, header.writeOffset);
        published := published + newest;
      }
    }
  }

  /** A message that is kept is the last one of the next publication, whole and with its time and severity. */
  method WriteThenPublish(log: DiagnosticsLog, timestamp: Word64, text: Block) returns (published: seq<Entry>)
    requires log.Valid() && text != [] && |text| < log.entrySize && Severity(text) <= log.maxSeverity
    modifies log
    ensures published != [] && published[|published| - 1] == Entry(timestamp, Severity(text), text)
  {
    var status := log.Write(timestamp, text);
    status, published := log.Publish();
  }
}
