/** Decoding of 32-byte directory records: the 8.3 checksum (`ChkSum`), the short-name
    normalisation (`addDot`, `removeSpaces`), the code units of a long-name fragment,
    and the packed fields of a short entry. */
module EntryCodec {
  import opened Base

  const DOT: byte := 0x2E
  const SPACE: byte := 0x20
  const TILDE: byte := 0x7E

  /** Attribute values and first-byte markers the reader distinguishes. */
  const ATTR_LONG_NAME: byte := 0x0F
  const ATTR_VOLUME_ID: byte := 0x08
  const ATTR_ARCHIVE: byte := 0x20
  const DELETED: byte := 0xE5

  /** Record offsets: DIR_Attr, LDIR_Chksum, DIR_CrtTime, DIR_CrtDate, DIR_FstClusHI,
      DIR_FstClusLO, DIR_FileSize. */
  const OFF_ATTR: nat := 11
  const OFF_CHKSUM: nat := 13
  const OFF_CRT_TIME: nat := 14
  const OFF_CRT_DATE: nat := 16
  const OFF_CLUS_HI: nat := 20
  const OFF_CLUS_LO: nat := 26
  const OFF_SIZE: nat := 28

  // ---------------------------------------------------------------------------
  // The 8.3 checksum

  /** An unsigned char rotated right by one bit. */
  function RotateRight(sum: byte): byte {
    (if sum % 2 == 1 then 0x80 else 0) + sum / 2
  }

  /** The low bit moves to the top, the other seven bits move down one place. */
  lemma RotateRightBits(sum: byte)
    ensures RotateRight(sum) / 128 == sum % 2 && RotateRight(sum) % 128 == sum / 2
  {
  }

  /** One step of the checksum: rotate, then add the next name byte modulo 256. */
  function ChecksumStep(sum: byte, b: byte): byte {
    (RotateRight(sum) + b) % 256
  }

  /** The checksum of the first `n` bytes of `s`: the steps applied in order from 0. */
  function ChecksumOf(s: seq<byte>, n: nat): byte
    requires n <= |s|
  {
    if n == 0 then 0 else ChecksumStep(ChecksumOf(s, n - 1), s[n - 1])
  }

  /** The checksum of an 11-byte short name. */
  function Checksum(name: seq<byte>): byte
    requires |name| == 11
  {
    ChecksumOf(name, 11)
  }

  /** The checksum of a prefix depends on that prefix alone. */
  lemma {:induction false} ChecksumOfPrefix(s: seq<byte>, t: seq<byte>, n: nat)
    requires n <= |s| && n <= |t| && s[..n] == t[..n]
    ensures ChecksumOf(s, n) == ChecksumOf(t, n)
  {
    if n > 0 {
      assert s[n - 1] == s[..n][n - 1] == t[..n][n - 1] == t[n - 1];
      assert s[..n - 1] == s[..n][..n - 1];
      assert t[..n - 1] == t[..n][..n - 1];
      ChecksumOfPrefix(s, t, n - 1);
    }
  }

  /** ChkSum: the checksum loop over the 11 bytes at `pFcbName`. */
  method ChkSum(pFcbName: array<byte>) returns (sum: byte)
    requires pFcbName.Length >= 11
    ensures sum == Checksum(pFcbName[..11])
  {
    sum := 0;
    var fcbNameLen := 11;
    var p := 0;
    while fcbNameLen != 0
      invariant 0 <= fcbNameLen <= 11 && p == 11 - fcbNameLen
      invariant sum == ChecksumOf(pFcbName[..11], p)
    {
      sum := ((if sum % 2 == 1 then 0x80 else 0) + sum / 2 + pFcbName[p]) % 256;
      p := p + 1;
      fcbNameLen := fcbNameLen - 1;
    }
  }

  /** A known value: the checksum ties a long name to its short entry, so every FAT
      implementation must compute 0x73 for "README  TXT". */
  lemma ChecksumReadme(name: seq<byte>)
    requires name == [0x52, 0x45, 0x41, 0x44, 0x4D, 0x45, 0x20, 0x20, 0x54, 0x58, 0x54]
    ensures Checksum(name) == 0x73
  {
    assert ChecksumOf(name, 1) == 0x52;
    assert ChecksumOf(name, 2) == 0x6E;
    assert ChecksumOf(name, 3) == 0x78;
    assert ChecksumOf(name, 4) == 0x80;
    assert ChecksumOf(name, 5) == 0x8D;
    assert ChecksumOf(name, 6) == 0x0B;
    assert ChecksumOf(name, 7) == 0xA5;
    assert ChecksumOf(name, 8) == 0xF2;
    assert ChecksumOf(name, 9) == 0xCD;
    assert ChecksumOf(name, 10) == 0x3E;
  }

  // ---------------------------------------------------------------------------
  // C strings in arrays

  /** A NUL at `k` preceded by no NUL makes `k` the string length. */
  lemma StrLenAt(a: seq<byte>, k: nat)
    requires k < |a| && a[k] == 0
    requires forall m :: 0 <= m < k ==> a[m] != 0
    ensures StrLen(a) == k
  {
  }

  /** `k` non-NUL bytes at the start make the string at least `k` long. */
  lemma StrLenAtLeast(a: seq<byte>, k: nat)
    requires k <= |a|
    requires forall m :: 0 <= m < k ==> a[m] != 0
    ensures StrLen(a) >= k
  {
  }

  /** The string stored as `x`, a NUL and anything after it is `x`. */
  lemma CStrTerminated(x: seq<byte>, rest: seq<byte>)
    requires 0 !in x
    ensures CStr(x + [0] + rest) == x
  {
    var a := x + [0] + rest;
    forall m | 0 <= m < |x| ensures a[m] != 0 { assert a[m] == x[m]; assert x[m] in x; }
    StrLenAt(a, |x|);
    assert a[..|x|] == x;
  }

  /** A buffer without NUL holds itself as a C string. */
  lemma CStrWhole(s: seq<byte>)
    requires 0 !in s
    ensures CStr(s) == s
  {
    forall m | 0 <= m < |s| ensures s[m] != 0 { assert s[m] in s; }
    assert StrLen(s) == |s|;
    assert s[..|s|] == s;
  }

  /** Bytes after the terminating NUL do not change the string. */
  lemma CStrExtended(raw: seq<byte>, rest: seq<byte>)
    ensures CStr(raw + [0] + rest) == CStr(raw)
  {
    var a := raw + [0] + rest;
    var n := StrLen(raw);
    forall m | 0 <= m < n ensures a[m] != 0 { assert a[m] == raw[m]; }
    assert a[n] == 0;
    StrLenAt(a, n);
    assert a[..n] == raw[..n];
  }

  // ---------------------------------------------------------------------------
  // addDot

  /** The name with a dot inserted three characters from its end; names shorter than
      three characters are left alone. */
  function Dotted(s: seq<byte>): (r: seq<byte>)
    ensures |s| < 3 ==> r == s
    ensures |s| >= 3 ==> |r| == |s| + 1 && r[|s| - 3] == DOT
    ensures |s| >= 3 ==> forall k :: 0 <= k < |s| - 3 ==> r[k] == s[k]
    ensures |s| >= 3 ==> forall k :: |s| - 3 <= k < |s| ==> r[k + 1] == s[k]
    ensures 0 !in s ==> 0 !in r
  {
    if |s| < 3 then s else s[..|s| - 3] + [DOT] + s[|s| - 3..]
  }

  /** The string length of the buffer part-way through addDot's shift: while the dot
      and the three characters are put in place it stays `|d| - 1`; once the NUL has
      moved it is `|d|`, so the loop test `i < strlen + 1` fails exactly at `|d| + 1`. */
  lemma ShiftedLength(a: seq<byte>, orig: seq<byte>, d: seq<byte>, i: int)
    requires |d| >= 4 && |a| == |orig| >= |d| + 1
    requires 0 !in d
    requires forall m :: 0 <= m < |d| - 1 ==> orig[m] != 0
    requires |d| - 4 <= i <= |d| + 1
    requires forall k :: 0 <= k < i ==> a[k] == (d + [0])[k]
    requires forall k :: i <= k < |a| ==> a[k] == orig[k]
    requires orig[|d| - 1] == 0
    ensures i < |d| + 1 <==> i < StrLen(a) + 1
  {
    var n := |d| - 1;
    forall m | 0 <= m < i && m <= n ensures a[m] != 0 {
      assert a[m] == d[m];
      assert d[m] in d;
    }
    if i <= n {
      StrLenAt(a, n);
    } else if i == n + 1 {
      StrLenAtLeast(a, n + 1);
    } else {
      StrLenAt(a, n + 1);
    }
  }

  /** addDot on the C string in `file`: shifts the last three characters and the NUL
      one place right and writes a dot where the first of them was. The loop bound is
      re-read with strlen on every iteration, as in the reader; the buffer must have
      room for the longer string. */
  method AddDot(file: array<byte>)
    requires StrLen(file[..]) < file.Length
    requires StrLen(file[..]) >= 3 ==> StrLen(file[..]) + 2 <= file.Length
    modifies file
    ensures var s := CStr(old(file[..]));
      if |s| < 3 then file[..] == old(file[..])
      else file[..] == Dotted(s) + [0] + old(file[..])[|s| + 2..]
  {
    ghost var orig := file[..];
    ghost var n := StrLen(orig);
    var temp: byte := DOT;
    // In the reader, i starts at strlen - 3; for shorter names that is negative and the
    // comparison against the unsigned strlen + 1 fails at once.
    var i: int := StrLen(file[..]) - 3;
    if i < 0 {
      return;
    }
    ghost var target := Dotted(CStr(orig)) + [0];
    ghost var carried := target + [orig[n + 1]];  // the byte held in temp at each step
    while i < StrLen(file[..]) + 1
      invariant n - 3 <= i <= n + 2
      invariant forall k :: 0 <= k < i ==> file[k] == target[k]
      invariant forall k :: i <= k < file.Length ==> file[k] == orig[k]
      invariant temp == carried[i]
      invariant i < n + 2 <==> i < StrLen(file[..]) + 1
      decreases n + 2 - i
    {
      var temp2 := file[i];
      file[i] := temp;
      temp := temp2;
      i := i + 1;
      ShiftedLength(file[..], orig, Dotted(CStr(orig)), i);
    }
    assert file[..] == target + orig[n + 2..];
  }

  // ---------------------------------------------------------------------------
  // removeSpaces

  /** The first `n` bytes of `s` with every space removed. */
  function SpacesRemoved(s: seq<byte>, n: nat): (r: seq<byte>)
    requires n <= |s|
    ensures |r| <= n
  {
    if n == 0 then [] else SpacesRemoved(s, n - 1) + (if s[n - 1] == SPACE then [] else [s[n - 1]])
  }

  /** The name with every space removed. */
  function NoSpaces(s: seq<byte>): seq<byte> {
    SpacesRemoved(s, |s|)
  }

  /** The result for a prefix depends on that prefix alone. */
  lemma {:induction false} SpacesRemovedPrefix(s: seq<byte>, t: seq<byte>, n: nat)
    requires n <= |s| && n <= |t| && s[..n] == t[..n]
    ensures SpacesRemoved(s, n) == SpacesRemoved(t, n)
  {
    if n > 0 {
      assert s[n - 1] == s[..n][n - 1] == t[..n][n - 1] == t[n - 1];
      assert s[..n - 1] == s[..n][..n - 1];
      assert t[..n - 1] == t[..n][..n - 1];
      SpacesRemovedPrefix(s, t, n - 1);
    }
  }

  /** Reading more of the name never shortens the result. */
  lemma {:induction false} SpacesRemovedGrows(s: seq<byte>, i: nat, n: nat)
    requires i <= n <= |s|
    ensures |SpacesRemoved(s, i)| <= |SpacesRemoved(s, n)|
    decreases n - i
  {
    if i < n {
      SpacesRemovedGrows(s, i, n - 1);
    }
  }

  /** Exactly the spaces are removed: the other bytes are kept, with their multiplicity. */
  lemma {:induction false} SpacesRemovedMultiset(s: seq<byte>, n: nat)
    requires n <= |s|
    ensures multiset(SpacesRemoved(s, n)) == multiset(s[..n])[SPACE := 0]
  {
    if n > 0 {
      assert s[..n] == s[..n - 1] + [s[n - 1]];
      SpacesRemovedMultiset(s, n - 1);
    }
  }

  /** No space is left, and no byte appears that was not in the name. */
  lemma NoSpacesBytes(s: seq<byte>)
    ensures SPACE !in NoSpaces(s)
    ensures forall x :: x in NoSpaces(s) ==> x in s
  {
    SpacesRemovedMultiset(s, |s|);
    assert s[..|s|] == s;
    forall x | x in NoSpaces(s) ensures x != SPACE && x in s {
      assert x in multiset(NoSpaces(s));
    }
  }

  /** Removing spaces works piece by piece: the order of the other characters is kept. */
  lemma NoSpacesConcat(a: seq<byte>, b: seq<byte>)
    ensures NoSpaces(a + b) == NoSpaces(a) + NoSpaces(b)
  {
    SpacesRemovedConcat(a, b, |b|);
  }

  lemma {:induction false} SpacesRemovedConcat(a: seq<byte>, b: seq<byte>, k: nat)
    requires k <= |b|
    ensures SpacesRemoved(a + b, |a| + k) == SpacesRemoved(a, |a|) + SpacesRemoved(b, k)
  {
    if k == 0 {
      assert (a + b)[..|a|] == a[..|a|];
      SpacesRemovedPrefix(a + b, a, |a|);
    } else {
      assert (a + b)[|a| + k - 1] == b[k - 1];
      SpacesRemovedConcat(a, b, k - 1);
    }
  }

  /** A name without spaces is left as it is, so removing spaces is idempotent. */
  lemma NoSpacesKeeps(s: seq<byte>)
    requires SPACE !in s
    ensures NoSpaces(s) == s
  {
    SpacesRemovedKeeps(s, |s|);
  }

  lemma {:induction false} SpacesRemovedKeeps(s: seq<byte>, n: nat)
    requires SPACE !in s && n <= |s|
    ensures SpacesRemoved(s, n) == s[..n]
  {
    if n > 0 {
      assert s[n - 1] in s;
      SpacesRemovedKeeps(s, n - 1);
      assert s[..n] == s[..n - 1] + [s[n - 1]];
    }
  }

  /** removeSpaces: copies the C string in `src` to `dst` without its spaces and
      terminates it. `dst` must hold the result and its NUL. */
  method RemoveSpaces(src: array<byte>, dst: array<byte>)
    requires src != dst
    requires StrLen(src[..]) < src.Length
    requires |NoSpaces(CStr(src[..]))| < dst.Length
    modifies dst
    ensures var r := NoSpaces(CStr(src[..]));
      dst[..] == r + [0] + old(dst[..])[|r| + 1..]
  {
    ghost var s := CStr(src[..]);
    ghost var before := dst[..];
    var i, j := 0, 0;
    while i < StrLen(src[..])
      invariant 0 <= i <= |s| == StrLen(src[..])
      invariant j == |SpacesRemoved(s, i)| <= |NoSpaces(s)|
      invariant forall k :: 0 <= k < j ==> dst[k] == SpacesRemoved(s, i)[k]
      invariant forall k :: j <= k < dst.Length ==> dst[k] == before[k]
    {
      SpacesRemovedGrows(s, i + 1, |s|);
      if src[i] != SPACE {
        dst[j] := src[i];
        j := j + 1;
      }
      i := i + 1;
    }
    dst[j] := 0;
    assert dst[..] == NoSpaces(s) + [0] + before[j + 1..];
  }

  // ---------------------------------------------------------------------------
  // The short name

  /** A short name as the reader shows and compares it: the 11 raw bytes read as a C
      string, a dot inserted before the last three characters, then every space
      removed. */
  function ShortName(raw: seq<byte>): (r: seq<byte>)
    requires |raw| == 11
    ensures SPACE !in r && 0 !in r
    ensures |r| <= 12
  {
    NoSpacesBytes(Dotted(CStr(raw)));
    NoSpaces(Dotted(CStr(raw)))
  }

  /** The name field copied into a fresh array and NUL-terminated, with a second NUL in
      the extra 13th byte. */
  method PaddedName(raw: seq<byte>) returns (fileName: array<byte>)
    requires |raw| == 11
    ensures fresh(fileName) && fileName[..] == raw + [0] + [0]
  {
    fileName := new byte[13];
    for k := 0 to 11
      invariant forall m :: 0 <= m < k ==> fileName[m] == raw[m]
    {
      fileName[k] := raw[k];
    }
    fileName[11] := 0;
    fileName[12] := 0;
    assert fileName[..] == raw + [0] + [0];
  }

  /** The reader's own sequence of steps on its arrays: copy the name, NUL-terminate it,
      addDot, removeSpaces. The arrays have 13 bytes, one more than the reader's 12,
      because addDot and removeSpaces may write a 13th. */
  method NormalizeName(raw: seq<byte>) returns (name: seq<byte>)
    requires |raw| == 11
    ensures name == ShortName(raw)
  {
    var fileName := PaddedName(raw);
    CStrExtended(raw, [0]);
    ghost var s := CStr(raw);
    ghost var named := fileName[..];
    AddDot(fileName);
    if |s| >= 3 {
      CStrTerminated(Dotted(s), named[|s| + 2..]);
    }
    ghost var d := Dotted(s);
    assert CStr(fileName[..]) == d;
    var noPadding := new byte[13];
    ghost var padded := noPadding[..];
    RemoveSpaces(fileName, noPadding);
    NoSpacesBytes(d);
    CStrTerminated(NoSpaces(d), padded[|NoSpaces(d)| + 1..]);
    name := CStr(noPadding[..]);
  }

  /** A run of spaces. */
  function Spaces(k: nat): (r: seq<byte>)
    ensures |r| == k && forall m :: 0 <= m < k ==> r[m] == SPACE
  {
    seq(k, _ => SPACE)
  }

  lemma {:induction false} NoSpacesOfSpaces(k: nat)
    ensures NoSpaces(Spaces(k)) == []
  {
    if k > 0 {
      assert Spaces(k) == Spaces(k - 1) + [SPACE];
      NoSpacesOfSpaces(k - 1);
      NoSpacesConcat(Spaces(k - 1), [SPACE]);
    }
  }

  /** Padding after a name without spaces is removed and nothing else. */
  lemma NoSpacesPadded(s: seq<byte>, k: nat)
    requires SPACE !in s
    ensures NoSpaces(s + Spaces(k)) == s
  {
    NoSpacesConcat(s, Spaces(k));
    NoSpacesKeeps(s);
    NoSpacesOfSpaces(k);
    assert s + [] == s;
  }

  /** An 8.3 name gets its dot: a base name padded with spaces to eight characters and a
      three-character extension are shown as base, dot, extension ("README  TXT" as
      "README.TXT"). */
  lemma ShortNameOfPadded(base: seq<byte>, ext: seq<byte>)
    requires |base| <= 8 && |ext| == 3
    requires SPACE !in base && 0 !in base && SPACE !in ext && 0 !in ext
    ensures ShortName(base + Spaces(8 - |base|) + ext) == base + [DOT] + ext
  {
    var pad := Spaces(8 - |base|);
    var raw := base + pad + ext;
    assert 0 !in raw by {
      assert 0 !in pad;
    }
    CStrWhole(raw);
    var d := Dotted(raw);
    assert d == (base + pad) + ([DOT] + ext);
    NoSpacesConcat(base + pad, [DOT] + ext);
    NoSpacesPadded(base, 8 - |base|);
    NoSpacesKeeps([DOT] + ext);
    assert NoSpaces(d) == base + ([DOT] + ext);
  }

  /** A name without an extension keeps a trailing dot: the dot goes in before the
      padding is removed, so "NOEXT      " is shown as "NOEXT.". */
  lemma ShortNameWithoutExtension(base: seq<byte>)
    requires |base| <= 8
    requires SPACE !in base && 0 !in base
    ensures ShortName(base + Spaces(11 - |base|)) == base + [DOT]
  {
    var raw := base + Spaces(11 - |base|);
    assert 0 !in raw by {
      assert 0 !in Spaces(11 - |base|);
    }
    CStrWhole(raw);
    var pad := Spaces(8 - |base|);
    var tail := [DOT] + Spaces(3);
    assert Dotted(raw) == (base + pad) + tail;
    NoSpacesConcat(base + pad, tail);
    NoSpacesPadded(base, 8 - |base|);
    NoSpacesPadded([DOT], 3);
  }

  // ---------------------------------------------------------------------------
  // Long-name fragments

  /** Offset within a long-name record of code unit `k` of its 13: LDIR_Name1 holds
      units 0-4, LDIR_Name2 units 5-10, LDIR_Name3 units 11-12. */
  function UnitOffset(k: nat): (off: nat)
    requires k < 13
    ensures off + 2 <= 32
  {
    if k < 5 then 1 + 2 * k else if k < 11 then 14 + 2 * (k - 5) else 28 + 2 * (k - 11)
  }

  /** A 16-bit code unit stored into an unsigned char: its low byte. */
  function UnitByte(rec: seq<byte>, off: nat): (b: byte)
    requires off + 2 <= |rec|
    ensures b == Le16(rec, off) % 256
  {
    rec[off]
  }

  /** The 13 code units of a long-name record, each cut to its low byte, in the order
      Name1, Name2, Name3. */
  function FragmentUnits(rec: seq<byte>): (u: seq<byte>)
    requires |rec| == 32
    ensures |u| == 13
    ensures forall k :: 0 <= k < 13 ==> u[k] == Le16(rec, UnitOffset(k)) % 256
  {
    seq(13, k requires 0 <= k < 13 => UnitByte(rec, UnitOffset(k)))
  }

  // ---------------------------------------------------------------------------
  // Record classification and fields

  datatype Kind = LongNameRecord | Unused | VolumeLabelRecord | FileRecord | OtherRecord

  /** How the directory listing classifies a record, tests applied in this order: the
      long-name attribute first, then a deleted or empty first byte, then a volume
      label, then the archive attribute of a regular file; everything else is skipped. */
  function Classify(rec: seq<byte>): (k: Kind)
    requires |rec| == 32
    ensures k == LongNameRecord <==> rec[OFF_ATTR] == ATTR_LONG_NAME
    ensures k == Unused <==> rec[OFF_ATTR] != ATTR_LONG_NAME && (rec[0] == DELETED || rec[0] == 0)
    ensures k == VolumeLabelRecord <==>
      rec[OFF_ATTR] == ATTR_VOLUME_ID && rec[0] != DELETED && rec[0] != 0
    ensures k == FileRecord <==> rec[OFF_ATTR] == ATTR_ARCHIVE && rec[0] != DELETED && rec[0] != 0
  {
    if rec[OFF_ATTR] == ATTR_LONG_NAME then LongNameRecord
    else if rec[0] == DELETED || rec[0] == 0 then Unused
    else if rec[OFF_ATTR] == ATTR_VOLUME_ID then VolumeLabelRecord
    else if rec[OFF_ATTR] == ATTR_ARCHIVE then FileRecord
    else OtherRecord
  }

  /** The first cluster of an entry: DIR_FstClusHI above DIR_FstClusLO, unsigned. */
  function FirstCluster(rec: seq<byte>): (r: nat)
    requires |rec| == 32
    ensures r < TWO_32
    ensures r % TWO_16 == Le16(rec, OFF_CLUS_LO) && r / TWO_16 == Le16(rec, OFF_CLUS_HI)
  {
    Le16(rec, OFF_CLUS_HI) * TWO_16 + Le16(rec, OFF_CLUS_LO)
  }

  /** getNextCluster as the reader computes it: `(HI << 16) + LO` in `int`, then widened
      to unsigned long. Once HI reaches 0x8000 the shift overflows `int`, which C leaves
      undefined; this takes the two's-complement outcome, a negative value that the
      widening sign-extends. The reader never calls getNextCluster: its command loop
      takes the first cluster from the low word alone. */
  function FirstClusterAsWritten(rec: seq<byte>): (r: nat)
    requires |rec| == 32
    ensures r < TWO_64
  {
    Wrap64(Int32(Le16(rec, OFF_CLUS_HI) * TWO_16) + Le16(rec, OFF_CLUS_LO))
  }

  /** Both computations agree exactly when the high word is below 0x8000, which holds
      for every 28-bit FAT32 cluster number. */
  lemma FirstClusterAgree(rec: seq<byte>)
    requires |rec| == 32
    ensures FirstClusterAsWritten(rec) == FirstCluster(rec) <==> Le16(rec, OFF_CLUS_HI) < 0x8000
  {
    var hi, lo := Le16(rec, OFF_CLUS_HI), Le16(rec, OFF_CLUS_LO);
    if hi < 0x8000 {
      assert hi * TWO_16 < TWO_31;
      assert Int32(hi * TWO_16) == hi * TWO_16;
    } else {
      assert TWO_31 <= hi * TWO_16 < TWO_32;
      assert Int32(hi * TWO_16) == hi * TWO_16 - TWO_32;
      assert FirstClusterAsWritten(rec) == hi * TWO_16 + lo - TWO_32 + TWO_64;
    }
  }

  /** A high word of 0x8000 and a low word of 0 give cluster 2^31, but the reader's
      computation yields 2^64 - 2^31. */
  lemma FirstClusterSignExtends(rec: seq<byte>)
    requires |rec| == 32
    requires rec[OFF_CLUS_HI] == 0x00 && rec[OFF_CLUS_HI + 1] == 0x80
    requires rec[OFF_CLUS_LO] == 0x00 && rec[OFF_CLUS_LO + 1] == 0x00
    ensures FirstCluster(rec) == TWO_31
    ensures FirstClusterAsWritten(rec) == TWO_64 - TWO_31
  {
    assert Le16(rec, OFF_CLUS_HI) == 0x8000;
    assert Int32(0x8000 * TWO_16) == -TWO_31;
  }

  /** DIR_FileSize as `(unsigned int)`: the low 32 bits. */
  function FileSize(rec: seq<byte>): (r: nat)
    requires |rec| == 32
    ensures r < TWO_32
  {
    Le32(rec, OFF_SIZE)
  }

  datatype Date = Date(day: nat, month: nat, year: nat)
  datatype Time = Time(hour: nat, minute: nat)

  /** Creation date: day in bits 0-4, month in bits 5-8, years since 1980 in bits 9-15. */
  function CreationDate(rec: seq<byte>): (d: Date)
    requires |rec| == 32
    ensures d.day < 32 && d.month < 16 && 1980 <= d.year < 1980 + 128
    ensures d.day + 32 * d.month + 512 * (d.year - 1980) == Le16(rec, OFF_CRT_DATE)
  {
    var v := Le16(rec, OFF_CRT_DATE);
    var above := v / 32;        // DIR_CrtDate >> 5
    assert v == v % 32 + 32 * above;
    assert above == above % 16 + 16 * (above / 16);
    assert above / 16 < 128;    // DIR_CrtDate >> 9
    Date(v % 32, above % 16, 1980 + above / 16)
  }

  /** Creation time: minutes in bits 5-10, hours in bits 11-15 (two-second units in
      bits 0-4 are not shown). */
  function CreationTime(rec: seq<byte>): (t: Time)
    requires |rec| == 32
    ensures t.hour < 32 && t.minute < 64
    ensures t.hour * 2048 + t.minute * 32 <= Le16(rec, OFF_CRT_TIME) < t.hour * 2048 + t.minute * 32 + 32
  {
    var v := Le16(rec, OFF_CRT_TIME);
    var above := v / 32;        // DIR_CrtTime >> 5
    assert v == v % 32 + 32 * above;
    assert above == above % 64 + 64 * (above / 64);
    assert above / 64 < 32;     // DIR_CrtTime >> 11
    Time(above / 64, above % 64)
  }
}
