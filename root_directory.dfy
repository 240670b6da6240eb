/** The DIR listing (`readRootDir`): every record of every cluster of the root
    directory's chain is classified; files are counted, their sizes summed, and their
    short and long names assembled; volume labels are reported. */
module RootDirectory {
  import opened Base
  import opened SectorReader
  import opened VolumeLayout
  import opened FatTable
  import opened EntryCodec
  import opened DirectoryRecords
  import opened ChainWalk

  /** A listed file: its record, its normalised 8.3 name and the long name assembled
      from the records before it, when its short name holds a '~'. */
  datatype Entry = Entry(record: seq<byte>, shortName: seq<byte>, longName: Option<seq<byte>>)

  /** What one record contributes to the listing. */
  datatype Item = VolumeLabel(labelRecord: seq<byte>) | FileItem(entry: Entry)

  /** What the record at absolute index `r` contributes: a volume label, a file, or
      nothing (long-name records, unused records and records of any other kind). */
  function RecordItem(img: seq<byte>, r: nat): (res: Result<Option<Item>>)
    ensures res.Ok? && res.value.Some? && res.value.value.FileItem? ==>
      |res.value.value.entry.record| == RECORD_SIZE
  {
    var rec :- ReadRecord(img, r);
    match Classify(rec)
    case VolumeLabelRecord => Ok(Some(VolumeLabel(rec)))
    case FileRecord =>
      var longName :- LongNameOf(img, r, rec);
      Ok(Some(FileItem(Entry(rec, ShortName(rec[..11]), longName))))
    case _ => Ok(None)
  }

  /** What a record contributes, read off its bytes. A long-name record (attribute 0x0F)
      and an unused record (first byte 0 or 0xE5) give nothing. Otherwise attribute
      0x08 gives the record as a volume label, any attribute but 0x20 gives nothing,
      and attribute 0x20 gives a file: its record, its name with the trailing spaces
      cut, a dot added and the spaces removed, and a long name exactly when that name
      holds a '~'. Only a read of the record, or of the long-name records before a
      '~' name, can fail. */
  lemma RecordItemKinds(img: seq<byte>, r: nat)
    ensures ReadRecord(img, r).Err? ==> RecordItem(img, r) == Err(ReadRecord(img, r).error)
    ensures ReadRecord(img, r).Ok? ==>
      var rec := ReadRecord(img, r).value;
      var res := RecordItem(img, r);
      var unused := rec[OFF_ATTR] == ATTR_LONG_NAME || rec[0] == 0 || rec[0] == DELETED;
      var name := NoSpaces(Dotted(CStr(rec[..11])));
      && (unused ==> res == Ok(None))
      && (!unused && rec[OFF_ATTR] == ATTR_VOLUME_ID ==> res == Ok(Some(VolumeLabel(rec))))
      && (!unused && rec[OFF_ATTR] != ATTR_VOLUME_ID && rec[OFF_ATTR] != ATTR_ARCHIVE ==> res == Ok(None))
      && (!unused && rec[OFF_ATTR] == ATTR_ARCHIVE ==>
            && (res.Ok? ==> res.value.Some? && res.value.value.FileItem?)
            && (res.Ok? ==> res.value.value.entry.record == rec)
            && (res.Ok? ==> res.value.value.entry.shortName == name)
            && (res.Ok? ==> (res.value.value.entry.longName.Some? <==> TILDE in name))
            && (TILDE !in name ==> res == Ok(Some(FileItem(Entry(rec, name, None))))))
  {
  }

  /** The listing extended by one record's contribution. */
  function AddItem(t: Trace<Item>, res: Result<Option<Item>>): Trace<Item> {
    if t.status.Failed? then t
    else match res
      case Err(e) => Trace(t.out, Failed(e))
      case Ok(None) => t
      case Ok(Some(it)) => Trace(t.out + [it], Complete)
  }

  /** What each record of the volume contributes, by cluster, sector within the
      cluster and record within the sector. */
  type RecordLookup = (nat, nat, nat) -> Result<Option<Item>>

  /** RecordItem over the records of the volume, addressed as readEntry addresses them. */
  function RecordItems(img: seq<byte>, g: Geometry): RecordLookup {
    (c: nat, i: nat, j: nat) => RecordItem(img, RecordAt(g, c, i, j))
  }

  /** `records` gives each record's contribution; the fact is used only where a
      record's address is in view. */
  ghost predicate Describes(records: RecordLookup, img: seq<byte>, g: Geometry) {
    forall c: nat, i: nat, j: nat {:trigger RecordAt(g, c, i, j)} ::
      records(c, i, j) == RecordItem(img, RecordAt(g, c, i, j))
  }

  /** The listing of records `0 .. j - 1` of sector `i` of cluster `c`. */
  function SectorList(records: RecordLookup, c: nat, i: nat, j: nat): Trace<Item>
    decreases j
  {
    if j == 0 then Trace([], Complete)
    else AddItem(SectorList(records, c, i, j - 1), records(c, i, j - 1))
  }

  /** The listing of sectors `0 .. i - 1` of cluster `c`, 16 records each. */
  function ClusterList(records: RecordLookup, c: nat, i: nat): Trace<Item>
    decreases i
  {
    if i == 0 then Trace([], Complete)
    else Then(ClusterList(records, c, i - 1), SectorList(records, c, i - 1, RECORDS_PER_SECTOR))
  }

  /** Once the listing of a sector has failed, its later records change nothing. */
  lemma {:induction false} SectorListFailed(records: RecordLookup, c: nat, i: nat, j: nat, j2: nat)
    requires j <= j2
    requires SectorList(records, c, i, j).status.Failed?
    ensures SectorList(records, c, i, j2) == SectorList(records, c, i, j)
    decreases j2
  {
    if j < j2 {
      SectorListFailed(records, c, i, j, j2 - 1);
    }
  }

  /** Once the listing of a cluster has failed, its later sectors change nothing. */
  lemma {:induction false} ClusterListFailed(records: RecordLookup, c: nat, i: nat, i2: nat)
    requires i <= i2
    requires ClusterList(records, c, i).status.Failed?
    ensures ClusterList(records, c, i2) == ClusterList(records, c, i)
    decreases i2
  {
    if i < i2 {
      ClusterListFailed(records, c, i, i2 - 1);
    }
  }

  /** A record's contribution after a completed listing `p` extends the listing. */
  lemma ThenAddItem(p: seq<Item>, t: Trace<Item>, res: Result<Option<Item>>)
    ensures Then(Trace(p, Complete), AddItem(t, res)) == AddItem(Then(Trace(p, Complete), t), res)
  {
    if t.status == Complete && res.Ok? && res.value.Some? {
      assert p + (t.out + [res.value.value]) == (p + t.out) + [res.value.value];
    }
  }

  /** The listing of each cluster: its `sectorsPerCluster` sectors of 16 records each. */
  function ListClusters(records: RecordLookup, g: Geometry): nat -> Trace<Item> {
    (c: nat) => ClusterList(records, c, g.sectorsPerCluster)
  }

  /** The DIR listing of the directory whose first cluster is `start`: each cluster's
      records, then (readFAT) the next cluster's, until a terminator. */
  function Listing(img: seq<byte>, g: Geometry, start: nat): Trace<Item> {
    Walk(ListClusters(RecordItems(img, g), g), FatOf(img, g), start, {start})
  }

  /** The two globals the listing updates: the number of files listed and the sum of
      their sizes, an `unsigned long`. */
  datatype Totals = Totals(numFiles: int, totalFileSize: nat)

  /** totalFileSize after printFileEntry has added the file of record `rec`: its
      DIR_FileSize, cut to 32 bits and read as a signed `int`, is added modulo 2^64.
      (Every listed record is 32 bytes long.) */
  function AddSize(total: nat, rec: seq<byte>): nat {
    if |rec| == RECORD_SIZE then Wrap64(total + Int32(FileSize(rec))) else total
  }

  /** The globals after printFileEntry has printed `it`: a regular file is counted and
      its size added. Volume labels change nothing. */
  function Tallied(t: Totals, it: Item): Totals {
    if it.FileItem? then Totals(t.numFiles + 1, AddSize(t.totalFileSize, it.entry.record)) else t
  }

  /** The globals after the items `items`, one after another, starting from `t0`. */
  function Count(t0: Totals, items: seq<Item>): Totals
    decreases |items|
  {
    if items == [] then t0 else Tallied(Count(t0, items[..|items| - 1]), items[|items| - 1])
  }

  /** Counting one more item is one more printFileEntry. */
  lemma CountAppend(t0: Totals, items: seq<Item>, it: Item)
    ensures Count(t0, items + [it]) == Tallied(Count(t0, items), it)
  {
    assert (items + [it])[..|items|] == items;
  }

  /** The number of regular files among `items`. */
  function FileCount(items: seq<Item>): (n: nat)
    ensures n <= |items|
    decreases |items|
  {
    if items == [] then 0
    else FileCount(items[..|items| - 1]) + (if items[|items| - 1].FileItem? then 1 else 0)
  }

  /** The size one item adds to the total: a file's DIR_FileSize read as a signed `int`;
      nothing for a volume label. */
  function FileBytes(it: Item): (n: int)
    ensures -TWO_31 <= n < TWO_31
    ensures it.VolumeLabel? ==> n == 0
  {
    if it.FileItem? && |it.entry.record| == RECORD_SIZE then Int32(FileSize(it.entry.record)) else 0
  }

  /** The exact sum of the sizes of the files among `items`. */
  function SizeSum(items: seq<Item>): int
    decreases |items|
  {
    if items == [] then 0 else SizeSum(items[..|items| - 1]) + FileBytes(items[|items| - 1])
  }

  /** numFiles grows by the number of files listed, and totalFileSize, once it starts
      as an unsigned long, ends as that start plus the exact sum of the listed files'
      sizes, reduced modulo 2^64. */
  lemma {:induction false} CountFiles(t0: Totals, items: seq<Item>)
    ensures Count(t0, items).numFiles == t0.numFiles + FileCount(items)
    ensures t0.totalFileSize < TWO_64 ==>
      Count(t0, items).totalFileSize == Wrap64(t0.totalFileSize + SizeSum(items))
    decreases |items|
  {
    if items != [] {
      var front := items[..|items| - 1];
      CountFiles(t0, front);
      if t0.totalFileSize < TWO_64 {
        Wrap64Add(t0.totalFileSize + SizeSum(front), FileBytes(items[|items| - 1]));
      }
    }
  }

  /** One record as readRootDir treats it: read it, classify it, and for a regular file
      assemble its names. */
  method ReadDirEntry(img: seq<byte>, r: nat) returns (res: Result<Option<Item>>)
    ensures res == RecordItem(img, r)
  {
    var read := ReadRecord(img, r);
    if read.Err? {
      return Err(read.error);
    }
    var rec := read.value;
    var kind := Classify(rec);
    if kind == VolumeLabelRecord {
      return Ok(Some(VolumeLabel(rec)));
    } else if kind != FileRecord {
      return Ok(None);
    }
    var fileNameNoPadding := NormalizeName(rec[..11]);
    var longName := ReadLongNameOf(img, r, rec);
    if longName.Err? {
      return Err(longName.error);
    }
    res := Ok(Some(FileItem(Entry(rec, fileNameNoPadding, longName.value))));
  }

  /** One listed item: it is appended and, when it is a regular file, counted and as
      printFileEntry does its size added to the total. */
  method AddToListing(items: seq<Item>, it: Item, totals: Totals, ghost totals0: Totals)
    returns (items': seq<Item>, totals': Totals)
    requires totals == Count(totals0, items)
    ensures items' == items + [it]
    ensures totals' == Count(totals0, items')
  {
    CountAppend(totals0, items, it);
    totals' := totals;
    if it.FileItem? {
      var size := totals.totalFileSize;
      if |it.entry.record| == RECORD_SIZE {
        size := Wrap64(size + Int32(FileSize(it.entry.record)));
      }
      totals' := Totals(totals.numFiles + 1, size);
    }
    items' := items + [it];
  }

  /** The body of the inner loop of readRootDir: record `j` of sector `i` of cluster
      `cluster` is read and, when it is a file or a volume label, appended to `items`,
      which holds `base` and the listing of the sector's records before `j`; a file is
      counted. */
  method ListRecordInto(img: seq<byte>, g: Geometry, cluster: nat, i: nat, j: nat, items: seq<Item>,
                        totals: Totals, ghost totals0: Totals,
                        ghost records: RecordLookup, ghost base: seq<Item>)
    returns (items': seq<Item>, status: Status, totals': Totals)
    requires Describes(records, img, g)
    requires Then(Trace(base, Complete), SectorList(records, cluster, i, j)) == Trace(items, Complete)
    requires totals == Count(totals0, items)
    ensures Trace(items', status) == Then(Trace(base, Complete), SectorList(records, cluster, i, j + 1))
    ensures totals' == Count(totals0, items')
  {
    ThenAddItem(base, SectorList(records, cluster, i, j), records(cluster, i, j));
    items', status, totals' := items, Complete, totals;
    var res := ReadDirEntry(img, RecordAt(g, cluster, i, j));
    if res.Err? {
      status := Failed(res.error);
    } else if res.value.Some? {
      items', totals' := AddToListing(items, res.value.value, totals, totals0);
    }
  }

  /** The inner loop of readRootDir over the 16 records of sector `i` of a cluster. */
  method ListSectorInto(img: seq<byte>, g: Geometry, cluster: nat, i: nat, items: seq<Item>,
                        totals: Totals, ghost totals0: Totals,
                        ghost records: RecordLookup)
    returns (items': seq<Item>, status: Status, totals': Totals)
    requires Describes(records, img, g)
    requires totals == Count(totals0, items)
    ensures Trace(items', status) ==
      Then(Trace(items, Complete), SectorList(records, cluster, i, RECORDS_PER_SECTOR))
    ensures totals' == Count(totals0, items')
  {
    items', totals' := items, totals;
    assert items + [] == items;
    var j := 0;
    while j < RECORDS_PER_SECTOR
      invariant 0 <= j <= RECORDS_PER_SECTOR
      invariant Then(Trace(items, Complete), SectorList(records, cluster, i, j)) == Trace(items', Complete)
      invariant totals' == Count(totals0, items')
    {
      var st;
      items', st, totals' :=
        ListRecordInto(img, g, cluster, i, j, items', totals', totals0, records, items);
      if st.Failed? {
        SectorListFailed(records, cluster, i, j + 1, RECORDS_PER_SECTOR);
        return items', st, totals';
      }
      j := j + 1;
    }
    status := Complete;
  }

  /** The outer loop of readRootDir over the sectors of one cluster, appending to
      `items` and updating the counters `numFiles` and `totalFileSize`. */
  method ListClusterInto(img: seq<byte>, g: Geometry, cluster: nat, items: seq<Item>,
                         totals: Totals, ghost totals0: Totals,
                         ghost records: RecordLookup)
    returns (items': seq<Item>, status: Status, totals': Totals)
    requires Describes(records, img, g)
    requires totals == Count(totals0, items)
    ensures Trace(items', status) == Then(Trace(items, Complete), ListClusters(records, g)(cluster))
    ensures totals' == Count(totals0, items')
  {
    items', totals' := items, totals;
    assert items + [] == items;
    var i := 0;
    while i < g.sectorsPerCluster
      invariant 0 <= i <= g.sectorsPerCluster
      invariant Then(Trace(items, Complete), ClusterList(records, cluster, i)) == Trace(items', Complete)
      invariant totals' == Count(totals0, items')
    {
      ThenAssoc(Trace(items, Complete), ClusterList(records, cluster, i),
                SectorList(records, cluster, i, RECORDS_PER_SECTOR));
      var st;
      items', st, totals' :=
        ListSectorInto(img, g, cluster, i, items', totals', totals0, records);
      if st.Failed? {
        ClusterListFailed(records, cluster, i + 1, g.sectorsPerCluster);
        return items', st, totals';
      }
      i := i + 1;
    }
    status := Complete;
  }

  /** The clusters of the directory from `cluster` on, as readRootDir visits them, with
      its tail recursion on the next cluster turned into a loop. */
  method ListChain(img: seq<byte>, g: Geometry, cluster: nat, totals0: Totals, ghost records: RecordLookup)
    returns (listing: Trace<Item>, totals: Totals)
    requires Describes(records, img, g)
    ensures listing == Walk(ListClusters(records, g), FatOf(img, g), cluster, {cluster})
    ensures totals == Count(totals0, listing.out)
  {
    ghost var visit, fat := ListClusters(records, g), FatOf(img, g);
    ghost var whole := Walk(visit, fat, cluster, {cluster});
    var c := cluster;
    var visited := {cluster};
    var items: seq<Item> := [];
    totals := totals0;
    var status := Complete;
    var done := false;
    assert [] + whole.out == whole.out;
    while !done
      invariant c in visited
      invariant totals == Count(totals0, items)
      invariant !done ==> Then(Trace(items, Complete), Walk(visit, fat, c, visited)) == whole
      invariant !done ==> status == Complete
      invariant done ==> Trace(items, status) == whole
      decreases (if done then 0 else 1) + |Followable - visited|
    {
      ghost var before := items;
      var st;
      items, st, totals := ListClusterInto(img, g, c, items, totals, totals0, records);
      if st.Failed? {
        status := st;
        done := true;
      } else {
        var nextCluster := ReadFAT(img, g, c);
        assert fat(c) == nextCluster;
        if nextCluster.Err? {
          status := Failed(nextCluster.error);
          done := true;
        } else if IsEnd(nextCluster.value) {
          done := true;
        } else if nextCluster.value in visited {
          status := Failed(CorruptChain);
          done := true;
        } else {
          var next := nextCluster.value;
          FollowShrinks(visited, next);
          ThenAssoc(Trace(before, Complete), visit(c), Walk(visit, fat, next, visited + {next}));
          c := next;
          visited := visited + {next};
        }
      }
    }
    listing := Trace(items, status);
  }

  /** readRootDir on the directory whose first cluster is `cluster`, with the globals
      numFiles and totalFileSize holding `totals0` before the call. */
  method ReadRootDir(img: seq<byte>, g: Geometry, cluster: nat, totals0: Totals)
    returns (listing: Trace<Item>, totals: Totals)
    ensures listing == Listing(img, g, cluster)
    ensures totals == Count(totals0, listing.out)
  {
    ghost var records := RecordItems(img, g);
    assert Describes(records, img, g);
    listing, totals := ListChain(img, g, cluster, totals0, records);
  }
}
