/** The bytes of the diagnostics log file: its header and its entries. */
module DiagnosticsFormat {
  import opened Bytes

  /** The checksum routine; nothing about it is needed except that it is a function. */
  type Checksum = seq<Byte> -> Word32

  const HEADER_SIZE: nat := 16
  const CRC_SIZE: nat := 4
  const INFO_SIZE: nat := 16
  const OFFSET_CONTENT: nat := HEADER_SIZE + CRC_SIZE
  /** Bytes an entry needs besides its content. */
  const OVERHEAD: nat := INFO_SIZE + CRC_SIZE

  datatype Header = Header(version: Byte, writeOffset: Word32, readOffset: Word32, wrapped: bool)

  datatype Status = Ok | NotFound | InvalidSize | InvalidCrc | Fail

  datatype Entry = Entry(timestamp: Word64, severity: Word32, content: Block) {
    function Size(): nat { OVERHEAD + |content| }

    /** What the log accepts: fread and fwrite report zero items for an empty content. */
    ghost predicate Storable(entrySize: nat) { 1 <= |content| <= entrySize }
  }

  datatype ReadResult = Read(entry: Entry, next: nat) | Refused(status: Status)

  // ----- header

  function HeaderBytes(h: Header): (b: seq<Byte>)
    ensures |b| == HEADER_SIZE
  {
    [h.version, 0, 0, 0] + Bytes32(h.writeOffset) + Bytes32(h.readOffset) + [if h.wrapped then 1 else 0, 0, 0, 0]
  }

  /** The two fwrite calls of write_header. */
  function WriteHeader(crc: Checksum, file: seq<Byte>, h: Header): (r: seq<Byte>)
    ensures |r| == if |file| >= OFFSET_CONTENT then |file| else OFFSET_CONTENT
  {
    Overwrite(Overwrite(file, 0, HeaderBytes(h)), HEADER_SIZE, Bytes32(crc(HeaderBytes(h))))
  }

  lemma WriteHeaderFacts(crc: Checksum, file: seq<Byte>, h: Header)
    ensures var r := WriteHeader(crc, file, h);
            && (|file| >= OFFSET_CONTENT ==> r[OFFSET_CONTENT..] == file[OFFSET_CONTENT..])
            && r[..HEADER_SIZE] == HeaderBytes(h)
            && r[HEADER_SIZE..OFFSET_CONTENT] == Bytes32(crc(HeaderBytes(h)))
  {
    OverwriteFacts(file, 0, HeaderBytes(h));
    OverwriteFacts(Overwrite(file, 0, HeaderBytes(h)), HEADER_SIZE, Bytes32(crc(HeaderBytes(h))));
  }

  datatype HeaderResult = HeaderFound(header: Header) | HeaderRefused(status: Status)

  function ReadHeader(crc: Checksum, file: seq<Byte>): HeaderResult {
    if |file| < HEADER_SIZE then HeaderRefused(NotFound)
    else if |file| < OFFSET_CONTENT then HeaderRefused(Fail)
    else if Load32(file[HEADER_SIZE..OFFSET_CONTENT]) != crc(file[..HEADER_SIZE]) then HeaderRefused(InvalidCrc)
    else HeaderFound(Header(file[0], Load32(file[4..8]), Load32(file[8..12]), file[12] != 0))
  }

  lemma HeaderRoundTrip(crc: Checksum, file: seq<Byte>, h: Header)
    ensures ReadHeader(crc, WriteHeader(crc, file, h)) == HeaderFound(h)
  {
    var r, b := WriteHeader(crc, file, h), HeaderBytes(h);
    WriteHeaderFacts(crc, file, h);
    assert r[0] == r[..HEADER_SIZE][0] == b[0];
    assert r[4..8] == r[..HEADER_SIZE][4..8] == b[4..8] == Bytes32(h.writeOffset);
    assert r[8..12] == r[..HEADER_SIZE][8..12] == b[8..12] == Bytes32(h.readOffset);
    assert r[12] == r[..HEADER_SIZE][12] == b[12];
    Word32RoundTrip(h.writeOffset);
    Word32RoundTrip(h.readOffset);
    Word32RoundTrip(crc(b));
  }

  lemma HeaderDependsOnPrefix(crc: Checksum, a: seq<Byte>, b: seq<Byte>)
    requires |a| >= OFFSET_CONTENT && |b| >= OFFSET_CONTENT
    requires a[..OFFSET_CONTENT] == b[..OFFSET_CONTENT]
    ensures ReadHeader(crc, a) == ReadHeader(crc, b)
  {
    var p := a[..OFFSET_CONTENT];
    assert forall i, j | 0 <= i <= j <= OFFSET_CONTENT :: a[i..j] == p[i..j] && b[i..j] == b[..OFFSET_CONTENT][i..j];
    assert a[..HEADER_SIZE] == a[0..HEADER_SIZE] && b[..HEADER_SIZE] == b[0..HEADER_SIZE];
    assert a[0] == p[0] == b[0] && a[12] == p[12] == b[12];
  }

  // ----- entries

  function InfoBytes(timestamp: Word64, length: Word32, severity: Word32): (b: seq<Byte>)
    ensures |b| == INFO_SIZE
  {
    Bytes64(timestamp) + Bytes32(length) + Bytes32(severity)
  }

  /** The checksum of the two checksums, as struct entry_crc_buffer holds them. */
  function EntryCrc(crc: Checksum, info: seq<Byte>, content: seq<Byte>): Word32 {
    crc(Bytes32(crc(info)) + Bytes32(crc(content)))
  }

  function EntryBytes(crc: Checksum, e: Entry): (b: seq<Byte>)
    ensures |b| == e.Size()
  {
    var info := InfoBytes(e.timestamp, |e.content|, e.severity);
    info + e.content + Bytes32(EntryCrc(crc, info, e.content))
  }

  /** read_entry at file position `pos`, which may lie behind the end of the file. */
  function ReadEntry(crc: Checksum, entrySize: nat, file: seq<Byte>, pos: nat): (r: ReadResult)
    ensures r.Read? ==> r.entry.Storable(entrySize) && r.next == pos + r.entry.Size() <= |file|
    ensures r.Refused? ==> r.status != Ok
  {
    if |file| - pos < INFO_SIZE then Refused(NotFound)
    else
      var info := file[pos..pos + INFO_SIZE];
      var length := Load32(info[8..12]);
      var body := pos + INFO_SIZE;
      if length > entrySize then Refused(InvalidSize)
      else if length == 0 || |file| - body < length then Refused(Fail)
      else if |file| - body - length < CRC_SIZE then Refused(Fail)
      else
        var content := file[body..body + length];
        if Load32(file[body + length..body + length + CRC_SIZE]) != EntryCrc(crc, info, content) then
          Refused(InvalidCrc)
        else Read(Entry(Load64(info[..8]), Load32(info[12..16]), content),
                  body + length + CRC_SIZE)
  }

  lemma InfoRoundTrip(timestamp: Word64, length: Word32, severity: Word32)
    ensures var info := InfoBytes(timestamp, length, severity);
            Load64(info[..8]) == timestamp && Load32(info[8..12]) == length && Load32(info[12..16]) == severity
  {
    var info := InfoBytes(timestamp, length, severity);
    assert info[..8] == Bytes64(timestamp);
    assert info[8..12] == Bytes32(length);
    assert info[12..16] == Bytes32(severity);
    Word64RoundTrip(timestamp);
    Word32RoundTrip(length);
    Word32RoundTrip(severity);
  }

  lemma EntryParts(crc: Checksum, file: seq<Byte>, pos: nat, e: Entry)
    requires pos + e.Size() <= |file| && file[pos..pos + e.Size()] == EntryBytes(crc, e)
    ensures var info, body, n := InfoBytes(e.timestamp, |e.content|, e.severity), pos + INFO_SIZE, |e.content|;
            && file[pos..body] == info
            && file[body..body + n] == e.content
            && file[body + n..body + n + CRC_SIZE] == Bytes32(EntryCrc(crc, info, e.content))
  {
    var n, end, b := |e.content|, pos + e.Size(), EntryBytes(crc, e);
    SliceOfSlice(file, pos, end, 0, INFO_SIZE);
    SliceOfSlice(file, pos, end, INFO_SIZE, INFO_SIZE + n);
    SliceOfSlice(file, pos, end, INFO_SIZE + n, e.Size());
    assert b[INFO_SIZE..INFO_SIZE + n] == e.content;
  }

  /** Reading where an entry was written gives the entry back and stops right behind it. */
  lemma EntryRoundTrip(crc: Checksum, entrySize: nat, file: seq<Byte>, pos: nat, e: Entry)
    requires e.Storable(entrySize) && entrySize < 0x1_0000_0000
    requires pos + e.Size() <= |file| && file[pos..pos + e.Size()] == EntryBytes(crc, e)
    ensures ReadEntry(crc, entrySize, file, pos) == Read(e, pos + e.Size())
  {
    EntryParts(crc, file, pos, e);
    InfoRoundTrip(e.timestamp, |e.content|, e.severity);
    Word32RoundTrip(EntryCrc(crc, InfoBytes(e.timestamp, |e.content|, e.severity), e.content));
  }

  // ----- runs of entries

  function TotalSize(es: seq<Entry>): nat {
    if es == [] then 0 else es[0].Size() + TotalSize(es[1..])
  }

  function AllBytes(crc: Checksum, es: seq<Entry>): (b: seq<Byte>)
    ensures |b| == TotalSize(es)
  {
    if es == [] then [] else EntryBytes(crc, es[0]) + AllBytes(crc, es[1..])
  }

  lemma {:induction false} AppendEntry(crc: Checksum, es: seq<Entry>, e: Entry)
    ensures AllBytes(crc, es + [e]) == AllBytes(crc, es) + EntryBytes(crc, e)
  {
    var last := EntryBytes(crc, e);
    if es == [] {
      assert es + [e] == [e] && [e][1..] == [];
      assert last + [] == last == [] + last;
    } else {
      var rest := es[1..];
      assert (es + [e])[0] == es[0] && (es + [e])[1..] == rest + [e];
      AppendEntry(crc, rest, e);
      ConcatAssociates(EntryBytes(crc, es[0]), AllBytes(crc, rest), last);
    }
  }

  lemma {:induction false} TotalSizeConcat(a: seq<Entry>, b: seq<Entry>)
    ensures TotalSize(a + b) == TotalSize(a) + TotalSize(b)
  {
    if a == [] {
      assert a + b == b;
    } else {
      TotalSizeConcat(a[1..], b);
      assert (a + b)[0] == a[0] && (a + b)[1..] == a[1..] + b;
    }
  }

  lemma TotalSizeSnoc(es: seq<Entry>, e: Entry)
    ensures TotalSize(es + [e]) == TotalSize(es) + e.Size()
  {
    TotalSizeConcat(es, [e]);
    assert [e][1..] == [];
  }
}
