/** The lookup of a file by name (`readFile`): every record of every cluster of the
    directory's chain is compared with the wanted name, by its normalised short name and,
    when that holds a '~', by its long name, until one matches. The record the reader
    leaves in its global `buffer` is what the caller reads the file's entry from. */
module FileLookup {
  import opened Base
  import opened SectorReader
  import opened VolumeLayout
  import opened FatTable
  import opened EntryCodec
  import opened DirectoryRecords

  /** Where the lookup stands: whether a record has matched (`fileRead`) and the 32 bytes
      the global `buffer` holds. */
  datatype Search = Search(found: bool, buffer: seq<byte>)

  /** The short-name test `strncmp(fileNameNoPadding, fileToRead, 12) == 0`. */
  predicate ShortMatch(rec: seq<byte>, name: seq<byte>)
    requires |rec| == RECORD_SIZE
  {
    StrNEq(ShortName(rec[..11]), name, 12)
  }

  /** The long-name test `strncmp(longFileName, fileToRead, strlen(longFileName)) == 0`. */
  predicate LongMatch(long: seq<byte>, name: seq<byte>) {
    StrNEq(long, name, |long|)
  }

  /** The short-name test compares at most 12 characters: it holds when the normalised
      name is the wanted name, and also when it has all 12 characters and the wanted
      name merely starts with them. */
  lemma ShortMatchMeaning(rec: seq<byte>, name: seq<byte>)
    requires |rec| == RECORD_SIZE && 0 !in name
    ensures var short := ShortName(rec[..11]);
      ShortMatch(rec, name) <==> short == name || (|short| == 12 && 12 <= |name| && name[..12] == short)
  {
    var short := ShortName(rec[..11]);
    StrNEqMeaning(short, name, 12);
    if |short| == 12 {
      assert short[..12] == short;
    }
  }

  /** The long-name test holds exactly when the long name is a prefix of the wanted name;
      in particular an empty long name matches every name. */
  lemma LongMatchMeaning(long: seq<byte>, name: seq<byte>)
    requires 0 !in long && 0 !in name
    ensures LongMatch(long, name) <==> |long| <= |name| && name[..|long|] == long
    ensures long == [] ==> LongMatch(long, name)
  {
    StrNEqMeaning(long, name, |long|);
    assert long[..|long|] == long;
  }

  /** The record at absolute index `r` tested against `name`, as one iteration of the
      inner loop of readFile leaves it: the record is read into `buffer`; a '~' in its
      normalised short name makes the reader assemble the long name from the records
      before it, which leaves the last of them in `buffer`, unless the long name matches
      and the record is read again. Every record is tested, whatever its kind. */
  function Probe(img: seq<byte>, r: nat, name: seq<byte>): (res: Result<Search>)
    ensures res.Ok? ==> |res.value.buffer| == RECORD_SIZE
  {
    var rec :- ReadRecord(img, r);
    var shortHit := ShortMatch(rec, name);
    if TILDE in ShortName(rec[..11]) then
      var scan :- ScanFrom(img, r, Checksum(rec[..11]));
      if LongMatch(CStr(scan.units), name) then Ok(Search(true, rec))
      else Ok(Search(shortHit, scan.last))
    else
      Ok(Search(shortHit, rec))
  }

  /** A record matches a name without NUL exactly when its short name passes the
      12-character test or, for a short name with a '~', its long name is a prefix of
      the name; the buffer then holds the record itself unless the match was on the
      short name alone and a long name was assembled. */
  lemma ProbeMeaning(img: seq<byte>, r: nat, name: seq<byte>)
    requires 0 !in name
    requires Probe(img, r, name).Ok?
    ensures ReadRecord(img, r).Ok?
    ensures var rec := ReadRecord(img, r).value;
      var short := ShortName(rec[..11]);
      var s := Probe(img, r, name).value;
      var shortHit := short == name || (|short| == 12 && 12 <= |name| && name[..12] == short);
      && (TILDE !in short ==> s == Search(shortHit, rec))
      && (TILDE in short ==>
            ScanFrom(img, r, Checksum(rec[..11])).Ok? &&
            var long := CStr(ScanFrom(img, r, Checksum(rec[..11])).value.units);
            var longHit := |long| <= |name| && name[..|long|] == long;
            s.found == (shortHit || longHit) &&
            s.buffer == if longHit then rec else ScanFrom(img, r, Checksum(rec[..11])).value.last)
  {
    var rec := ReadRecord(img, r).value;
    ShortMatchMeaning(rec, name);
    if TILDE in ShortName(rec[..11]) {
      var scan := ScanFrom(img, r, Checksum(rec[..11])).value;
      LongMatchMeaning(CStr(scan.units), name);
    }
  }

  /** The probe of each record of the volume, by cluster, sector within the cluster and
      record within the sector. */
  type ProbeLookup = (nat, nat, nat) -> Result<Search>

  /** Probe over the records of the volume, addressed as readEntry addresses them. */
  function Probes(img: seq<byte>, g: Geometry, name: seq<byte>): ProbeLookup {
    (c: nat, i: nat, j: nat) => Probe(img, RecordAt(g, c, i, j), name)
  }

  /** `probes` gives each record's probe; the fact is used only where a record's
      address is in view. */
  ghost predicate Answers(probes: ProbeLookup, img: seq<byte>, g: Geometry, name: seq<byte>) {
    forall c: nat, i: nat, j: nat {:trigger RecordAt(g, c, i, j)} ::
      probes(c, i, j) == Probe(img, RecordAt(g, c, i, j), name)
  }

  /** The lookup over records `0 .. j - 1` of sector `i` of cluster `c` from state `s0`:
      once a record has matched, or a read has failed, the later records are skipped. */
  function SectorSearch(probes: ProbeLookup, c: nat, i: nat, j: nat, s0: Search): Result<Search>
    decreases j
  {
    if j == 0 then Ok(s0)
    else match SectorSearch(probes, c, i, j - 1, s0)
      case Err(e) => Err(e)
      case Ok(s) => if s.found then Ok(s) else probes(c, i, j - 1)
  }

  /** The lookup over sectors `0 .. i - 1` of cluster `c`, 16 records each. */
  function ClusterSearch(probes: ProbeLookup, c: nat, i: nat, s0: Search): Result<Search>
    decreases i
  {
    if i == 0 then Ok(s0)
    else match ClusterSearch(probes, c, i - 1, s0)
      case Err(e) => Err(e)
      case Ok(s) => if s.found then Ok(s) else SectorSearch(probes, c, i - 1, RECORDS_PER_SECTOR, s)
  }

  /** The lookup from cluster `cluster` on: its records, then, while nothing has matched,
      the next cluster's as the FAT lookup `fat` gives it, until a terminator. */
  function SearchFrom(probes: ProbeLookup, g: Geometry, fat: nat -> Result<nat>, cluster: nat,
                      visited: set<nat>, s0: Search): Result<Search>
    requires cluster in visited
    decreases |Followable - visited|
  {
    match ClusterSearch(probes, cluster, g.sectorsPerCluster, s0)
    case Err(e) => Err(e)
    case Ok(s) =>
      if s.found then Ok(s)
      else match fat(cluster)
        case Err(e) => Err(e)
        case Ok(n) =>
          if IsEnd(n) then Ok(s)
          else if n in visited then Err(CorruptChain)
          else
            FollowShrinks(visited, n);
            SearchFrom(probes, g, fat, n, visited + {n}, s)
  }

  /** readFile's lookup of `name` in the directory whose first cluster is `start`, with
      `buffer0` in the global buffer before the call. */
  function Lookup(img: seq<byte>, g: Geometry, start: nat, name: seq<byte>, buffer0: seq<byte>): Result<Search> {
    SearchFrom(Probes(img, g, name), g, FatOf(img, g), start, {start}, Search(false, buffer0))
  }

  /** Once a record has matched or a read has failed, the later records of the sector
      change nothing. */
  lemma {:induction false} SectorSearchStops(probes: ProbeLookup, c: nat, i: nat, j: nat, j2: nat, s0: Search)
    requires j <= j2
    requires SectorSearch(probes, c, i, j, s0).Err? || SectorSearch(probes, c, i, j, s0).value.found
    ensures SectorSearch(probes, c, i, j2, s0) == SectorSearch(probes, c, i, j, s0)
    decreases j2
  {
    if j < j2 {
      SectorSearchStops(probes, c, i, j, j2 - 1, s0);
    }
  }

  /** Once a record has matched or a read has failed, the later sectors of the cluster
      change nothing. */
  lemma {:induction false} ClusterSearchStops(probes: ProbeLookup, c: nat, i: nat, i2: nat, s0: Search)
    requires i <= i2
    requires ClusterSearch(probes, c, i, s0).Err? || ClusterSearch(probes, c, i, s0).value.found
    ensures ClusterSearch(probes, c, i2, s0) == ClusterSearch(probes, c, i, s0)
    decreases i2
  {
    if i < i2 {
      ClusterSearchStops(probes, c, i, i2 - 1, s0);
    }
  }

  /** A sector's lookup ends without a match exactly when no record before it matched
      and every one of its records was read and did not match; the buffer then holds
      what the last record left. */
  lemma {:induction false} SectorSearchMiss(probes: ProbeLookup, c: nat, i: nat, j: nat, s0: Search)
    ensures (SectorSearch(probes, c, i, j, s0).Ok? && !SectorSearch(probes, c, i, j, s0).value.found)
        <==> (!s0.found && forall k :: 0 <= k < j ==> probes(c, i, k).Ok? && !probes(c, i, k).value.found)
    ensures SectorSearch(probes, c, i, j, s0).Ok? && !SectorSearch(probes, c, i, j, s0).value.found && j > 0 ==>
      SectorSearch(probes, c, i, j, s0) == probes(c, i, j - 1)
    decreases j
  {
    if j > 0 {
      SectorSearchMiss(probes, c, i, j - 1, s0);
    }
  }

  /** A sector's lookup that matches ends at the first matching record: every record
      before it was read and did not match, and the state is that record's. */
  lemma {:induction false} SectorSearchHit(probes: ProbeLookup, c: nat, i: nat, j: nat, s0: Search)
    requires !s0.found
    requires SectorSearch(probes, c, i, j, s0).Ok? && SectorSearch(probes, c, i, j, s0).value.found
    ensures exists k ::
      && 0 <= k < j
      && probes(c, i, k) == SectorSearch(probes, c, i, j, s0)
      && (forall m :: 0 <= m < k ==> probes(c, i, m).Ok? && !probes(c, i, m).value.found)
    decreases j
  {
    var prev := SectorSearch(probes, c, i, j - 1, s0);
    if prev.Ok? && prev.value.found {
      SectorSearchHit(probes, c, i, j - 1, s0);
      var k :| 0 <= k < j - 1 && probes(c, i, k) == prev &&
        (forall m :: 0 <= m < k ==> probes(c, i, m).Ok? && !probes(c, i, m).value.found);
      assert 0 <= k < j;
    } else {
      SectorSearchMiss(probes, c, i, j - 1, s0);
      assert probes(c, i, j - 1) == SectorSearch(probes, c, i, j, s0);
    }
  }

  /** The lookup over the clusters `cs` of a chain that ends with `status`. */
  function SearchOver(probes: ProbeLookup, g: Geometry, cs: seq<nat>, status: Status, s0: Search): Result<Search>
    decreases |cs|
  {
    if cs == [] then (if status.Failed? then Err(status.error) else Ok(s0))
    else match ClusterSearch(probes, cs[0], g.sectorsPerCluster, s0)
      case Err(e) => Err(e)
      case Ok(s) => if s.found then Ok(s) else SearchOver(probes, g, cs[1..], status, s)
  }

  /** Following the FAT from cluster to cluster is searching the clusters of the cluster
      chain in chain order, stopping at the first match; the lookup fails as the chain
      does when nothing matches before its end. */
  lemma {:induction false} SearchFollowsChain(probes: ProbeLookup, g: Geometry, fat: nat -> Result<nat>,
                                              cluster: nat, visited: set<nat>, s0: Search)
    requires cluster in visited
    ensures var ch := ChainFrom(fat, cluster, visited);
      SearchFrom(probes, g, fat, cluster, visited, s0) == SearchOver(probes, g, ch.clusters, ch.status, s0)
    decreases |Followable - visited|
  {
    var ch := ChainFrom(fat, cluster, visited);
    match fat(cluster)
    case Err(e) =>
      assert ch == Chain([cluster], Failed(e));
    case Ok(n) =>
      if IsEnd(n) || n in visited {
        assert ch.clusters == [cluster];
      } else {
        FollowShrinks(visited, n);
        var rest := ChainFrom(fat, n, visited + {n});
        assert ch == Chain([cluster] + rest.clusters, rest.status);
        assert ([cluster] + rest.clusters)[1..] == rest.clusters;
        match ClusterSearch(probes, cluster, g.sectorsPerCluster, s0)
        case Err(e) =>
        case Ok(s) =>
          if !s.found {
            SearchFollowsChain(probes, g, fat, n, visited + {n}, s);
          }
      }
  }

  /** The probe of the record at place `p`. */
  function ProbeAt(probes: ProbeLookup, p: Place): Result<Search> {
    probes(p.cluster, p.sector, p.index)
  }

  /** The record at place `p` is read and does not match. */
  predicate Misses(probes: ProbeLookup, p: Place) {
    ProbeAt(probes, p).Ok? && !ProbeAt(probes, p).value.found
  }

  /** `ps[k]` is the first record of `ps` that matches: it is read and matches, and every
      record before it is read and does not. */
  predicate FirstHit(probes: ProbeLookup, ps: seq<Place>, k: nat)
    requires k < |ps|
  {
    && ProbeAt(probes, ps[k]).Ok? && ProbeAt(probes, ps[k]).value.found
    && forall m :: 0 <= m < k ==> Misses(probes, ps[m])
  }

  /** The lookup over the records `ps` one after another from state `s`, stopping at the
      first match or failed read. */
  function Seek(probes: ProbeLookup, ps: seq<Place>, s: Search): Result<Search>
    decreases |ps|
  {
    if ps == [] || s.found then Ok(s)
    else match ProbeAt(probes, ps[0])
      case Err(e) => Err(e)
      case Ok(t) => Seek(probes, ps[1..], t)
  }

  /** The lookup over two runs of records is the lookup over the first, then, from where
      it stands, over the second. */
  lemma {:induction false} SeekAppend(probes: ProbeLookup, ps: seq<Place>, qs: seq<Place>, s: Search)
    ensures Seek(probes, ps + qs, s) ==
      match Seek(probes, ps, s)
      case Err(e) => Err(e)
      case Ok(t) => Seek(probes, qs, t)
    decreases |ps|
  {
    if ps == [] {
      assert ps + qs == qs;
    } else if !s.found {
      assert (ps + qs)[0] == ps[0];
      assert (ps + qs)[1..] == ps[1..] + qs;
      match ProbeAt(probes, ps[0])
      case Err(e) =>
      case Ok(t) => SeekAppend(probes, ps[1..], qs, t);
    }
  }

  /** A lookup that ends without a match read every record of `ps` and none matched,
      and conversely. */
  lemma {:induction false} SeekMiss(probes: ProbeLookup, ps: seq<Place>, s: Search)
    ensures (Seek(probes, ps, s).Ok? && !Seek(probes, ps, s).value.found)
        <==> (!s.found && forall k :: 0 <= k < |ps| ==> Misses(probes, ps[k]))
    decreases |ps|
  {
    if ps != [] && !s.found {
      match ProbeAt(probes, ps[0])
      case Err(e) =>
        assert !Misses(probes, ps[0]);
      case Ok(t) =>
        SeekMiss(probes, ps[1..], t);
        assert forall k :: 1 <= k < |ps| ==> ps[k] == ps[1..][k - 1];
    }
  }

  /** A lookup from a state without a match matches exactly when some record of `ps` is
      the first to match, and then ends with that record's state. */
  lemma {:induction false} SeekHit(probes: ProbeLookup, ps: seq<Place>, s: Search)
    requires !s.found
    ensures (Seek(probes, ps, s).Ok? && Seek(probes, ps, s).value.found)
        <==> exists k :: 0 <= k < |ps| && FirstHit(probes, ps, k)
    ensures forall k :: 0 <= k < |ps| && FirstHit(probes, ps, k) ==>
      Seek(probes, ps, s) == ProbeAt(probes, ps[k])
    decreases |ps|
  {
    if ps != [] {
      forall k | 1 <= k < |ps|
        ensures FirstHit(probes, ps, k) <==> Misses(probes, ps[0]) && FirstHit(probes, ps[1..], k - 1)
      {
        assert forall m :: 1 <= m < k ==> ps[m] == ps[1..][m - 1];
      }
      match ProbeAt(probes, ps[0])
      case Err(e) =>
        assert !Misses(probes, ps[0]);
      case Ok(t) =>
        if t.found {
          assert FirstHit(probes, ps, 0);
        } else {
          SeekHit(probes, ps[1..], t);
          assert !FirstHit(probes, ps, 0);
          if exists k :: 0 <= k < |ps[1..]| && FirstHit(probes, ps[1..], k) {
            var k :| 0 <= k < |ps[1..]| && FirstHit(probes, ps[1..], k);
            assert FirstHit(probes, ps, k + 1);
          }
        }
    }
  }

  /** A sector's lookup is the lookup over its records in order. */
  lemma {:induction false} SectorSeek(probes: ProbeLookup, c: nat, i: nat, j: nat, s: Search)
    ensures SectorSearch(probes, c, i, j, s) == Seek(probes, SectorPlaces(c, i, j), s)
    decreases j
  {
    if j > 0 {
      SectorSeek(probes, c, i, j - 1, s);
      SeekAppend(probes, SectorPlaces(c, i, j - 1), [Place(c, i, j - 1)], s);
    }
  }

  /** A cluster's lookup is the lookup over its records in order. */
  lemma {:induction false} ClusterSeek(probes: ProbeLookup, c: nat, i: nat, s: Search)
    ensures ClusterSearch(probes, c, i, s) == Seek(probes, ClusterPlaces(c, i), s)
    decreases i
  {
    if i > 0 {
      ClusterSeek(probes, c, i - 1, s);
      SeekAppend(probes, ClusterPlaces(c, i - 1), SectorPlaces(c, i - 1, RECORDS_PER_SECTOR), s);
      match ClusterSearch(probes, c, i - 1, s)
      case Err(e) =>
      case Ok(t) => SectorSeek(probes, c, i - 1, RECORDS_PER_SECTOR, t);
    }
  }

  /** A cluster's lookup ends without a match exactly when nothing matched before it and
      every record of its first `i` sectors was read and did not match. */
  lemma ClusterSearchMiss(probes: ProbeLookup, c: nat, i: nat, s0: Search)
    ensures (ClusterSearch(probes, c, i, s0).Ok? && !ClusterSearch(probes, c, i, s0).value.found)
        <==> (&& !s0.found
              && forall p: Place :: p.cluster == c && p.sector < i && p.index < RECORDS_PER_SECTOR ==>
                   Misses(probes, p))
  {
    var ps := ClusterPlaces(c, i);
    ClusterSeek(probes, c, i, s0);
    SeekMiss(probes, ps, s0);
    forall p: Place | p.cluster == c && p.sector < i && p.index < RECORDS_PER_SECTOR
      ensures p in ps
    {
      ClusterPlacesMembers(c, i, p);
    }
    forall k | 0 <= k < |ps|
      ensures ps[k].cluster == c && ps[k].sector < i && ps[k].index < RECORDS_PER_SECTOR
    {
      ClusterPlacesMembers(c, i, ps[k]);
    }
  }

  /** A cluster's lookup that matches from a state without a match ends with the state
      of the first of its records, in sector and then record order, that matches. */
  lemma ClusterSearchHit(probes: ProbeLookup, c: nat, i: nat, s0: Search)
    requires !s0.found
    ensures var ps := ClusterPlaces(c, i);
      (ClusterSearch(probes, c, i, s0).Ok? && ClusterSearch(probes, c, i, s0).value.found)
        <==> exists k :: 0 <= k < |ps| && FirstHit(probes, ps, k)
    ensures var ps := ClusterPlaces(c, i);
      forall k :: 0 <= k < |ps| && FirstHit(probes, ps, k) ==>
        ClusterSearch(probes, c, i, s0) == ProbeAt(probes, ps[k])
  {
    ClusterSeek(probes, c, i, s0);
    SeekHit(probes, ClusterPlaces(c, i), s0);
  }

  /** How the lookup over a chain's records ends: as the last probe left it unless it
      ends without a match on a chain that failed. */
  function Finish(r: Result<Search>, status: Status): Result<Search> {
    match r
    case Err(e) => Err(e)
    case Ok(t) => if !t.found && status.Failed? then Err(status.error) else Ok(t)
  }

  /** The lookup over a chain's clusters is the lookup over all their records in order,
      failing as the chain does when nothing matches. */
  lemma {:induction false} OverSeek(probes: ProbeLookup, g: Geometry, cs: seq<nat>, status: Status, s: Search)
    requires !s.found
    ensures SearchOver(probes, g, cs, status, s)
         == Finish(Seek(probes, ChainPlaces(cs, g.sectorsPerCluster), s), status)
    decreases |cs|
  {
    if cs != [] {
      var spc := g.sectorsPerCluster;
      ClusterSeek(probes, cs[0], spc, s);
      SeekAppend(probes, ClusterPlaces(cs[0], spc), ChainPlaces(cs[1..], spc), s);
      match ClusterSearch(probes, cs[0], spc, s)
      case Err(e) =>
      case Ok(t) =>
        if !t.found {
          OverSeek(probes, g, cs[1..], status, t);
        }
    }
  }

  /** readFile finds `name` exactly when some record of the directory's chain, taken
      cluster by cluster, sector by sector and record by record, is the first to match;
      the result is then that record's probe, whatever the rest of the chain holds. It
      ends without a match exactly when the chain ends at a terminator and every record
      of it was read and did not match. */
  lemma LookupFirstMatch(img: seq<byte>, g: Geometry, start: nat, name: seq<byte>, buffer0: seq<byte>)
    ensures var probes := Probes(img, g, name);
      var ps := ChainPlaces(ClusterChain(img, g, start).clusters, g.sectorsPerCluster);
      var res := Lookup(img, g, start, name, buffer0);
      && ((res.Ok? && res.value.found) <==> exists k :: 0 <= k < |ps| && FirstHit(probes, ps, k))
      && (forall k :: 0 <= k < |ps| && FirstHit(probes, ps, k) ==> res == ProbeAt(probes, ps[k]))
    ensures var probes := Probes(img, g, name);
      var ch := ClusterChain(img, g, start);
      var ps := ChainPlaces(ch.clusters, g.sectorsPerCluster);
      var res := Lookup(img, g, start, name, buffer0);
      (res.Ok? && !res.value.found) <==>
        ch.status == Complete && forall k :: 0 <= k < |ps| ==> Misses(probes, ps[k])
  {
    var probes := Probes(img, g, name);
    var ch := ClusterChain(img, g, start);
    var ps := ChainPlaces(ch.clusters, g.sectorsPerCluster);
    var s0 := Search(false, buffer0);
    SearchFollowsChain(probes, g, FatOf(img, g), start, {start}, s0);
    OverSeek(probes, g, ch.clusters, ch.status, s0);
    SeekHit(probes, ps, s0);
    SeekMiss(probes, ps, s0);
  }

  /** One iteration of the inner loop of readFile on record `j` of sector `i` of cluster
      `cluster`: read the record, take the checksum of its stored name, normalise the
      name and compare it, and on a '~' assemble and compare the long name. */
  method ProbeRecord(img: seq<byte>, g: Geometry, cluster: nat, i: nat, j: nat, name: seq<byte>,
                     ghost probes: ProbeLookup)
    returns (res: Result<Search>)
    requires Answers(probes, img, g, name)
    ensures res == probes(cluster, i, j)
  {
    var r := RecordAt(g, cluster, i, j);
    var read := ReadRecord(img, r);
    if read.Err? {
      return Err(read.error);
    }
    var rec := read.value;
    var fileName := CopyName(rec);
    var checkSum := ChkSum(fileName);
    var fileNameNoPadding := NormalizeName(rec[..11]);
    var fileRead := StrNEq(fileNameNoPadding, name, 12);
    var buffer := rec;
    var lfn := HasTilde(fileNameNoPadding);
    if lfn {
      var scan := ReadLongName(img, r, checkSum);
      if scan.Err? {
        return Err(scan.error);
      }
      buffer := scan.value.last;
      var longFileName := CStr(scan.value.units);
      if StrNEq(longFileName, name, |longFileName|) {
        buffer := rec;  // the record is read into the buffer again
        fileRead := true;
      }
    }
    res := Ok(Search(fileRead, buffer));
  }

  /** The inner loop of readFile over the 16 records of sector `i`, while nothing has
      matched. */
  method SearchSector(img: seq<byte>, g: Geometry, cluster: nat, i: nat, name: seq<byte>, s0: Search,
                      ghost probes: ProbeLookup)
    returns (res: Result<Search>)
    requires Answers(probes, img, g, name)
    ensures res == SectorSearch(probes, cluster, i, RECORDS_PER_SECTOR, s0)
  {
    var s := s0;
    var j := 0;
    while j < RECORDS_PER_SECTOR && !s.found
      invariant 0 <= j <= RECORDS_PER_SECTOR
      invariant SectorSearch(probes, cluster, i, j, s0) == Ok(s)
    {
      var p := ProbeRecord(img, g, cluster, i, j, name, probes);
      if p.Err? {
        SectorSearchStops(probes, cluster, i, j + 1, RECORDS_PER_SECTOR, s0);
        return p;
      }
      s := p.value;
      j := j + 1;
    }
    if j < RECORDS_PER_SECTOR {
      SectorSearchStops(probes, cluster, i, j, RECORDS_PER_SECTOR, s0);
    }
    res := Ok(s);
  }

  /** The outer loop of readFile over the sectors of one cluster, while nothing has
      matched. */
  method SearchCluster(img: seq<byte>, g: Geometry, cluster: nat, name: seq<byte>, s0: Search,
                       ghost probes: ProbeLookup)
    returns (res: Result<Search>)
    requires Answers(probes, img, g, name)
    ensures res == ClusterSearch(probes, cluster, g.sectorsPerCluster, s0)
  {
    var s := s0;
    var i := 0;
    while i < g.sectorsPerCluster && !s.found
      invariant 0 <= i <= g.sectorsPerCluster
      invariant ClusterSearch(probes, cluster, i, s0) == Ok(s)
    {
      var r := SearchSector(img, g, cluster, i, name, s, probes);
      if r.Err? {
        ClusterSearchStops(probes, cluster, i + 1, g.sectorsPerCluster, s0);
        return r;
      }
      s := r.value;
      i := i + 1;
    }
    if i < g.sectorsPerCluster {
      ClusterSearchStops(probes, cluster, i, g.sectorsPerCluster, s0);
    }
    res := Ok(s);
  }

  /** The clusters of the directory from `cluster` on, as readFile visits them, with its
      tail recursion on the next cluster turned into a loop. The FAT is read after every
      cluster; its entry is ignored once a record has matched. */
  method SearchChain(img: seq<byte>, g: Geometry, cluster: nat, name: seq<byte>, s0: Search,
                     ghost probes: ProbeLookup)
    returns (res: Result<Search>)
    requires Answers(probes, img, g, name)
    ensures res == SearchFrom(probes, g, FatOf(img, g), cluster, {cluster}, s0)
  {
    ghost var fat := FatOf(img, g);
    ghost var whole := SearchFrom(probes, g, fat, cluster, {cluster}, s0);
    var c := cluster;
    var visited := {cluster};
    var s := s0;
    while true
      invariant c in visited
      invariant SearchFrom(probes, g, fat, c, visited, s) == whole
      decreases |Followable - visited|
    {
      var r := SearchCluster(img, g, c, name, s, probes);
      if r.Err? {
        return r;
      }
      s := r.value;
      var nextCluster := ReadFAT(img, g, c);
      if s.found {
        return r;
      }
      assert fat(c) == nextCluster;
      if nextCluster.Err? {
        return Err(nextCluster.error);
      }
      if IsEnd(nextCluster.value) {
        return Ok(s);
      }
      if nextCluster.value in visited {
        return Err(CorruptChain);
      }
      var next := nextCluster.value;
      FollowShrinks(visited, next);
      c := next;
      visited := visited + {next};
    }
  }

  /** readFile: the lookup of `fileToRead` in the directory whose first cluster is
      `cluster`, with `buffer0` in the global buffer before the call. */
  method ReadFile(img: seq<byte>, g: Geometry, cluster: nat, fileToRead: seq<byte>, buffer0: seq<byte>)
    returns (res: Result<Search>)
    ensures res == Lookup(img, g, cluster, fileToRead, buffer0)
  {
    ghost var probes := Probes(img, g, fileToRead);
    assert Answers(probes, img, g, fileToRead);
    res := SearchChain(img, g, cluster, fileToRead, Search(false, buffer0), probes);
  }
}
