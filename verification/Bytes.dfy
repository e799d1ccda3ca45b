/** Little-endian machine words inside a byte file, and the C file operations on it. */
module Bytes {
  type Byte = x: int | 0 <= x < 256
  type Word32 = x: int | 0 <= x < 0x1_0000_0000
  /** Bytes in memory; a size_t holds their number. */
  type Block = s: seq<Byte> | |s| < 0x1_0000_0000
  type Word64 = x: int | 0 <= x < 0x1_0000_0000_0000_0000

  function Bytes32(n: Word32): (b: seq<Byte>)
    ensures |b| == 4
  {
    var n1 := n / 256;
    var n2 := n1 / 256;
    var n3 := n2 / 256;
    [n % 256, n1 % 256, n2 % 256, n3]
  }

  function Load32(b: seq<Byte>): Word32
    requires |b| == 4
  {
    var (b0: int, b1: int, b2: int, b3: int) := (b[0], b[1], b[2], b[3]);
    b0 + 256 * b1 + 65536 * b2 + 16777216 * b3
  }

  lemma Word32RoundTrip(n: Word32)
    ensures Load32(Bytes32(n)) == n
  {
  }

  function Bytes64(n: Word64): (b: seq<Byte>)
    ensures |b| == 8
  {
    Bytes32(n % 0x1_0000_0000) + Bytes32(n / 0x1_0000_0000)
  }

  function Load64(b: seq<Byte>): Word64
    requires |b| == 8
  {
    Load32(b[..4]) + 0x1_0000_0000 * Load32(b[4..])
  }

  lemma Word64RoundTrip(n: Word64)
    ensures Load64(Bytes64(n)) == n
  {
    var b := Bytes64(n);
    assert b[..4] == Bytes32(n % 0x1_0000_0000) && b[4..] == Bytes32(n / 0x1_0000_0000);
    Word32RoundTrip(n % 0x1_0000_0000);
    Word32RoundTrip(n / 0x1_0000_0000);
  }

  lemma SliceOfSlice<T>(s: seq<T>, lo: nat, hi: nat, i: nat, j: nat)
    requires lo <= hi <= |s| && i <= j <= hi - lo
    ensures s[lo..hi][i..j] == s[lo + i..lo + j]
  {
    var a, b := s[lo..hi][i..j], s[lo + i..lo + j];
    assert |a| == |b| && forall k | 0 <= k < |a| :: a[k] == s[lo + i + k] == b[k];
  }

  lemma JoinSlices<T>(s: seq<T>, lo: nat, mid: nat, hi: nat)
    requires lo <= mid <= hi <= |s|
    ensures s[lo..hi] == s[lo..mid] + s[mid..hi]
  {
  }

  lemma ConcatAssociates<T>(a: seq<T>, b: seq<T>, c: seq<T>)
    ensures (a + b) + c == a + (b + c)
  {
  }

  /** fseek(pos) followed by fwrite(data): bytes are replaced, and the file grows past its old end. */
  function Overwrite(file: seq<Byte>, pos: nat, data: seq<Byte>): (r: seq<Byte>)
    requires pos <= |file|
    ensures |r| == if pos + |data| <= |file| then |file| else pos + |data|
  {
    file[..pos] + data + if pos + |data| <= |file| then file[pos + |data|..] else []
  }

  lemma OverwriteFacts(file: seq<Byte>, pos: nat, data: seq<Byte>)
    requires pos <= |file|
    ensures var r, end := Overwrite(file, pos, data), pos + |data|;
            && r[..pos] == file[..pos]
            && r[pos..end] == data
            && (end <= |file| ==> r[end..] == file[end..])
  {
  }

  lemma OverwriteKeeps(file: seq<Byte>, pos: nat, data: seq<Byte>, i: nat, j: nat)
    requires pos <= |file| && i <= j <= |file| && (j <= pos || pos + |data| <= i)
    ensures Overwrite(file, pos, data)[i..j] == file[i..j]
  {
  }

  lemma SplitSlice(file: seq<Byte>, from: nat, to: nat, a: seq<Byte>, b: seq<Byte>)
    requires from <= to <= |file| && file[from..to] == a + b
    ensures from + |a| <= to && file[from..from + |a|] == a && file[from + |a|..to] == b
  {
    assert |file[from..to]| == to - from;
    SliceOfSlice(file, from, to, 0, |a|);
    SliceOfSlice(file, from, to, |a|, to - from);
  }

  /** truncate(): cuts the file, or extends it with zero bytes. */
  function Truncate(file: seq<Byte>, length: nat): seq<Byte> {
    if length <= |file| then file[..length] else file + seq(length - |file|, _ => 0)
  }
}
