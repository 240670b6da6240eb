/** Directory records as the listing and the lookup address them, and the long-name
    reassembly that reads backward from a short entry over the records before it. */
module DirectoryRecords {
  import opened Base
  import opened SectorReader
  import opened VolumeLayout
  import opened EntryCodec

  /** Absolute index (byte offset / 32) of record `j` of sector `i` of a cluster: the
      record `readEntry(firstSec + i, j)` reads. */
  function RecordAt(g: Geometry, cluster: nat, i: nat, j: nat): nat {
    16 * ClusterSector(g, cluster, i) + j
  }

  /** Where a record lies in a directory: its cluster, its sector within the cluster
      and its index within the sector. */
  datatype Place = Place(cluster: nat, sector: nat, index: nat)

  /** Records `0 .. j - 1` of sector `i` of cluster `c`, in order. */
  function SectorPlaces(c: nat, i: nat, j: nat): (ps: seq<Place>)
    ensures |ps| == j
    ensures forall k :: 0 <= k < j ==> ps[k] == Place(c, i, k)
    decreases j
  {
    if j == 0 then [] else SectorPlaces(c, i, j - 1) + [Place(c, i, j - 1)]
  }

  /** The records of sectors `0 .. i - 1` of cluster `c`, 16 to a sector, sector after
      sector. */
  function ClusterPlaces(c: nat, i: nat): seq<Place>
    decreases i
  {
    if i == 0 then [] else ClusterPlaces(c, i - 1) + SectorPlaces(c, i - 1, RECORDS_PER_SECTOR)
  }

  /** Every record of the clusters `cs`, `spc` sectors each, cluster after cluster: the
      order in which the listing and the lookup visit them. */
  function ChainPlaces(cs: seq<nat>, spc: nat): seq<Place>
    decreases |cs|
  {
    if cs == [] then [] else ClusterPlaces(cs[0], spc) + ChainPlaces(cs[1..], spc)
  }

  /** The places of a sector's first `j` records are exactly those records. */
  lemma SectorPlacesMembers(c: nat, i: nat, j: nat, p: Place)
    ensures p in SectorPlaces(c, i, j) <==> p.cluster == c && p.sector == i && p.index < j
  {
    var ps := SectorPlaces(c, i, j);
    if p in ps {
      var k :| 0 <= k < j && ps[k] == p;
    }
    if p.cluster == c && p.sector == i && p.index < j {
      assert ps[p.index] == p;
    }
  }

  /** The places of a cluster are exactly its first `i` sectors' 16 records each. */
  lemma {:induction false} ClusterPlacesMembers(c: nat, i: nat, p: Place)
    ensures p in ClusterPlaces(c, i) <==> p.cluster == c && p.sector < i && p.index < RECORDS_PER_SECTOR
    decreases i
  {
    if i > 0 {
      ClusterPlacesMembers(c, i - 1, p);
      SectorPlacesMembers(c, i - 1, RECORDS_PER_SECTOR, p);
      assert p in ClusterPlaces(c, i) <==>
        p in ClusterPlaces(c, i - 1) || p in SectorPlaces(c, i - 1, RECORDS_PER_SECTOR);
    }
  }

  /** An element of a non-empty sequence is its first or one of the rest. */
  lemma InFrontOrRest(cs: seq<nat>, x: nat)
    requires cs != []
    ensures x in cs <==> x == cs[0] || x in cs[1..]
  {
    assert cs == [cs[0]] + cs[1..];
  }

  /** The places of a chain are exactly the records of its clusters' first `spc`
      sectors. */
  lemma {:induction false} ChainPlacesMembers(cs: seq<nat>, spc: nat, p: Place)
    ensures p in ChainPlaces(cs, spc) <==> p.cluster in cs && p.sector < spc && p.index < RECORDS_PER_SECTOR
    decreases |cs|
  {
    if cs != [] {
      ClusterPlacesMembers(cs[0], spc, p);
      ChainPlacesMembers(cs[1..], spc, p);
      InFrontOrRest(cs, p.cluster);
    }
  }

  /** Code units per long-name record: Name1, Name2 and Name3 hold 5 + 6 + 2. */
  const UNITS_PER_FRAGMENT: nat := 13

  /** The outcome of the backward scan: the collected code units (one byte each),
      the number of records read, and the last record read, which is the one whose
      checksum ended the scan and which is left in the reader's `buffer`. */
  datatype Scan = Scan(units: seq<byte>, count: nat, last: seq<byte>)

  /** The do-while of the long-name reassembly for the short entry at absolute record
      index `r`: read the record before, append its 13 units, and go on to the one
      before that while its LDIR_Chksum equals `chk`. The units of a record are taken
      before its checksum is looked at, so the record that ends the scan contributes
      too. Going back past the first record of the image is a failed read. */
  function ScanFrom(img: seq<byte>, r: nat, chk: byte): (res: Result<Scan>)
    ensures res.Ok? ==> 1 <= res.value.count <= r
    ensures res.Ok? ==> |res.value.units| == 13 * res.value.count
    ensures res.Ok? ==> |res.value.last| == RECORD_SIZE
    decreases r
  {
    if r == 0 then Err(IoError)
    else
      var rec :- ReadRecord(img, r - 1);
      if rec[OFF_CHKSUM] == chk then
        var rest :- ScanFrom(img, r - 1, chk);
        Ok(Scan(FragmentUnits(rec) + rest.units, rest.count + 1, rest.last))
      else
        Ok(Scan(FragmentUnits(rec), 1, rec))
  }

  /** What the scan yields after `k` records already collected into `u`. */
  function Prepend(u: seq<byte>, k: nat, res: Result<Scan>): Result<Scan> {
    match res
    case Err(e) => Err(e)
    case Ok(s) => Ok(Scan(u + s.units, s.count + k, s.last))
  }

  /** One more record of the scan, after `c` records already collected into `u`: going
      back past the first record fails, a failed read fails, and otherwise the
      record's units are collected and the scan stops or goes on by its checksum. */
  lemma PrependStep(img: seq<byte>, k: nat, chk: byte, u: seq<byte>, c: nat)
    ensures Prepend(u, c, ScanFrom(img, k, chk)) ==
      if k == 0 then Err(IoError)
      else match ReadRecord(img, k - 1)
        case Err(e) => Err(e)
        case Ok(rec) =>
          if rec[OFF_CHKSUM] != chk then Ok(Scan(u + FragmentUnits(rec), c + 1, rec))
          else Prepend(u + FragmentUnits(rec), c + 1, ScanFrom(img, k - 1, chk))
  {
    if k > 0 && ReadRecord(img, k - 1).Ok? {
      var rec := ReadRecord(img, k - 1).value;
      if rec[OFF_CHKSUM] == chk {
        match ScanFrom(img, k - 1, chk)
        case Err(e) =>
        case Ok(s) =>
          assert u + (FragmentUnits(rec) + s.units) == (u + FragmentUnits(rec)) + s.units;
      }
    }
  }

  /** A completed scan ends at the record `count` places before `r`, the first one
      whose checksum is not `chk`; every record in between carries `chk`. */
  lemma {:induction false} ScanEnd(img: seq<byte>, r: nat, chk: byte)
    requires ScanFrom(img, r, chk).Ok?
    ensures var s := ScanFrom(img, r, chk).value;
      && ReadRecord(img, r - s.count) == Ok(s.last)
      && s.last[OFF_CHKSUM] != chk
      && (forall q :: r - s.count < q < r ==>
            ReadRecord(img, q).Ok? && ReadRecord(img, q).value[OFF_CHKSUM] == chk)
    decreases r
  {
    var rec := ReadRecord(img, r - 1).value;
    if rec[OFF_CHKSUM] == chk {
      ScanEnd(img, r - 1, chk);
    }
  }

  /** A slice of `a + b` that lies past `a` is a slice of `b`. */
  lemma SliceAfter(a: seq<byte>, b: seq<byte>, lo: nat, hi: nat)
    requires |a| <= lo <= hi <= |a| + |b|
    ensures (a + b)[lo..hi] == b[lo - |a| .. hi - |a|]
  {
  }

  /** The units of a completed scan: record `q`, the `(r - 1 - q)`-th one back from the
      short entry at `r`, supplies units `13 * (r - 1 - q)` to `13 * (r - 1 - q) + 12`,
      in the order Name1, Name2, Name3. */
  lemma {:induction false} ScanUnits(img: seq<byte>, r: nat, chk: byte, q: nat)
    requires ScanFrom(img, r, chk).Ok?
    requires r - ScanFrom(img, r, chk).value.count <= q < r
    ensures ReadRecord(img, q).Ok?
    ensures var s := ScanFrom(img, r, chk).value;
      s.units[13 * (r - 1 - q) .. 13 * (r - 1 - q) + 13] == FragmentUnits(ReadRecord(img, q).value)
    decreases r
  {
    var rec := ReadRecord(img, r - 1).value;
    var head := FragmentUnits(rec);
    if rec[OFF_CHKSUM] == chk {
      var rest := ScanFrom(img, r - 1, chk).value;
      assert ScanFrom(img, r, chk).value == Scan(head + rest.units, rest.count + 1, rest.last);
      if q < r - 1 {
        ScanUnits(img, r - 1, chk, q);
        SliceAfter(head, rest.units, 13 * (r - 1 - q), 13 * (r - 1 - q) + 13);
      } else {
        assert (head + rest.units)[..13] == head;
      }
    } else {
      assert ScanFrom(img, r, chk).value == Scan(head, 1, rec);
      assert head[0..13] == head;
    }
  }

  /** The three copy loops of one long-name record: Name1[0..5], Name2[0..6] and
      Name3[0..2], each 16-bit unit stored as its low byte at the next index of
      `longFileName`. */
  method AppendFragment(longFileName: seq<byte>, rec: seq<byte>) returns (r: seq<byte>)
    requires |rec| == RECORD_SIZE
    ensures r == longFileName + FragmentUnits(rec)
  {
    ghost var units := FragmentUnits(rec);
    r := longFileName;
    var nameIndex := 0;
    while nameIndex < 5
      invariant 0 <= nameIndex <= 5
      invariant r == longFileName + units[..nameIndex]
    {
      assert units[..nameIndex + 1] == units[..nameIndex] + [units[nameIndex]];
      r := r + [UnitByte(rec, 1 + 2 * nameIndex)];
      nameIndex := nameIndex + 1;
    }
    nameIndex := 0;
    while nameIndex < 6
      invariant 0 <= nameIndex <= 6
      invariant r == longFileName + units[..5 + nameIndex]
    {
      assert units[..5 + nameIndex + 1] == units[..5 + nameIndex] + [units[5 + nameIndex]];
      r := r + [UnitByte(rec, 14 + 2 * nameIndex)];
      nameIndex := nameIndex + 1;
    }
    nameIndex := 0;
    while nameIndex < 2
      invariant 0 <= nameIndex <= 2
      invariant r == longFileName + units[..11 + nameIndex]
    {
      assert units[..11 + nameIndex + 1] == units[..11 + nameIndex] + [units[11 + nameIndex]];
      r := r + [UnitByte(rec, 28 + 2 * nameIndex)];
      nameIndex := nameIndex + 1;
    }
    assert units[..13] == units;
  }

  /** The long-name do-while as the reader runs it, with `counter` counting the records
      read back from the short entry at absolute index `r`. */
  method ReadLongName(img: seq<byte>, r: nat, chk: byte) returns (res: Result<Scan>)
    ensures res == ScanFrom(img, r, chk)
  {
    var counter := 1;
    var longFileName: seq<byte> := [];
    if ScanFrom(img, r, chk).Ok? {
      var s := ScanFrom(img, r, chk).value;
      assert [] + s.units == s.units;
    }
    ghost var k, n := r, 0;   // records still before the scan, records read
    while true
      invariant counter == n + 1 && k + n == r
      invariant ScanFrom(img, r, chk) == Prepend(longFileName, n, ScanFrom(img, k, chk))
      decreases k
    {
      PrependStep(img, k, chk, longFileName, n);
      if counter > r {
        // the record before the first one of the image
        return Err(IoError);
      }
      var read := ReadRecord(img, r - counter);
      assert r - counter == k - 1;
      if read.Err? {
        return Err(read.error);
      }
      var rec := read.value;
      longFileName := AppendFragment(longFileName, rec);
      counter := counter + 1;
      k, n := k - 1, n + 1;
      if rec[OFF_CHKSUM] != chk {
        return Ok(Scan(longFileName, counter - 1, rec));
      }
    }
  }

  /** The long name of a file record at absolute index `r`, assembled only when its
      normalised short name holds a '~': the collected bytes up to the first NUL, with
      the buffer read as zeros past the collected bytes. */
  function LongNameOf(img: seq<byte>, r: nat, rec: seq<byte>): (res: Result<Option<seq<byte>>>)
    requires |rec| == RECORD_SIZE
    ensures res.Ok? ==> (res.value.Some? <==> TILDE in ShortName(rec[..11]))
    ensures res.Ok? && res.value.Some? ==> 0 !in res.value.value
  {
    if TILDE in ShortName(rec[..11]) then
      var s :- ScanFrom(img, r, Checksum(rec[..11]));
      Ok(Some(CStr(s.units)))
    else
      Ok(None)
  }

  /** The loop over the normalised name that sets `LFN` on a '~' (byte 126). */
  method HasTilde(fileNameNoPadding: seq<byte>) returns (lfn: bool)
    ensures lfn <==> TILDE in fileNameNoPadding
  {
    lfn := false;
    var k := 0;
    while k < |fileNameNoPadding|
      invariant 0 <= k <= |fileNameNoPadding|
      invariant lfn <==> TILDE in fileNameNoPadding[..k]
    {
      assert fileNameNoPadding[..k + 1] == fileNameNoPadding[..k] + [fileNameNoPadding[k]];
      if fileNameNoPadding[k] == TILDE {
        lfn := true;
      }
      k := k + 1;
    }
    assert fileNameNoPadding[..k] == fileNameNoPadding;
  }

  /** The copy of the 11 name bytes of a record into the 12-byte `fileName` array that
      ChkSum reads. */
  method CopyName(rec: seq<byte>) returns (fileName: array<byte>)
    requires |rec| == RECORD_SIZE
    ensures fresh(fileName) && fileName.Length == 12
    ensures fileName[..11] == rec[..11]
  {
    fileName := new byte[12];
    for k := 0 to 11
      invariant forall m :: 0 <= m < k ==> fileName[m] == rec[m]
    {
      fileName[k] := rec[k];
    }
  }

  /** The long-name part of a file record as the reader computes it: the checksum of
      the stored name, the '~' test on the normalised name and, when it fires, the
      backward scan. */
  method ReadLongNameOf(img: seq<byte>, r: nat, rec: seq<byte>) returns (res: Result<Option<seq<byte>>>)
    requires |rec| == RECORD_SIZE
    ensures res == LongNameOf(img, r, rec)
  {
    var fileName := CopyName(rec);
    var checkSum := ChkSum(fileName);
    var fileNameNoPadding := NormalizeName(rec[..11]);
    var lfn := HasTilde(fileNameNoPadding);
    if !lfn {
      return Ok(None);
    }
    var scan := ReadLongName(img, r, checkSum);
    if scan.Err? {
      return Err(scan.error);
    }
    res := Ok(Some(CStr(scan.value.units)));
  }
}
