/** The order of the DIR listing. */
module ListingOrder {
  import opened Base
  import opened SectorReader
  import opened VolumeLayout
  import opened FatTable
  import opened EntryCodec
  import opened DirectoryRecords
  import opened ChainWalk
  import opened RootDirectory

  /** The contribution of the record at place `p`. */
  function ItemAt(records: RecordLookup, p: Place): Result<Option<Item>> {
    records(p.cluster, p.sector, p.index)
  }

  /** The listing of the records `ps`, one after another. */
  function Collect(records: RecordLookup, ps: seq<Place>): Trace<Item>
    decreases |ps|
  {
    if ps == [] then Trace([], Complete)
    else AddItem(Collect(records, ps[..|ps| - 1]), ItemAt(records, ps[|ps| - 1]))
  }

  /** The items the records `ps` contribute, in record order, when all are read. */
  function Contributed(records: RecordLookup, ps: seq<Place>): seq<Item>
    decreases |ps|
  {
    if ps == [] then []
    else
      Contributed(records, ps[..|ps| - 1]) +
      match ItemAt(records, ps[|ps| - 1])
      case Ok(Some(it)) => [it]
      case _ => []
  }

  /** Listing two runs of records is listing the first, then the second. */
  lemma {:induction false} CollectAppend(records: RecordLookup, ps: seq<Place>, qs: seq<Place>)
    ensures Collect(records, ps + qs) == Then(Collect(records, ps), Collect(records, qs))
    decreases |qs|
  {
    if qs == [] {
      assert ps + qs == ps;
      assert Collect(records, ps).out + [] == Collect(records, ps).out;
    } else {
      var front := qs[..|qs| - 1];
      assert (ps + qs)[..|ps + qs| - 1] == ps + front;
      assert (ps + qs)[|ps + qs| - 1] == qs[|qs| - 1];
      CollectAppend(records, ps, front);
      if Collect(records, ps).status == Complete {
        ThenAddItem(Collect(records, ps).out, Collect(records, front), ItemAt(records, qs[|qs| - 1]));
      }
    }
  }

  /** A listing of records completes exactly when every record is read, and then lists
      what they contribute, in order. */
  lemma {:induction false} CollectComplete(records: RecordLookup, ps: seq<Place>)
    ensures Collect(records, ps).status == Complete <==> forall k :: 0 <= k < |ps| ==> ItemAt(records, ps[k]).Ok?
    ensures Collect(records, ps).status == Complete ==> Collect(records, ps).out == Contributed(records, ps)
    decreases |ps|
  {
    if ps != [] {
      var front := ps[..|ps| - 1];
      CollectComplete(records, front);
      assert forall k :: 0 <= k < |front| ==> front[k] == ps[k];
    }
  }

  /** A sector's listing is the listing of its records in order. */
  lemma {:induction false} SectorCollect(records: RecordLookup, c: nat, i: nat, j: nat)
    ensures SectorList(records, c, i, j) == Collect(records, SectorPlaces(c, i, j))
    decreases j
  {
    if j > 0 {
      SectorCollect(records, c, i, j - 1);
      assert SectorPlaces(c, i, j)[..j - 1] == SectorPlaces(c, i, j - 1);
    }
  }

  /** A cluster's listing is the listing of its records in order. */
  lemma {:induction false} ClusterCollect(records: RecordLookup, c: nat, i: nat)
    ensures ClusterList(records, c, i) == Collect(records, ClusterPlaces(c, i))
    decreases i
  {
    if i > 0 {
      ClusterCollect(records, c, i - 1);
      SectorCollect(records, c, i - 1, RECORDS_PER_SECTOR);
      CollectAppend(records, ClusterPlaces(c, i - 1), SectorPlaces(c, i - 1, RECORDS_PER_SECTOR));
    }
  }

  /** Listing a chain's clusters is listing all their records in order, ending as the
      chain ends. */
  lemma {:induction false} OverCollect(records: RecordLookup, g: Geometry, cs: seq<nat>, status: Status)
    ensures Over(ListClusters(records, g), cs, status)
         == Then(Collect(records, ChainPlaces(cs, g.sectorsPerCluster)), Trace([], status))
    decreases |cs|
  {
    var spc := g.sectorsPerCluster;
    if cs != [] {
      OverCollect(records, g, cs[1..], status);
      ClusterCollect(records, cs[0], spc);
      CollectAppend(records, ClusterPlaces(cs[0], spc), ChainPlaces(cs[1..], spc));
      ThenAssoc(Collect(records, ClusterPlaces(cs[0], spc)), Collect(records, ChainPlaces(cs[1..], spc)),
                Trace([], status));
    }
  }

  /** The DIR listing completes exactly when the root directory's chain ends at a
      terminator and every record of its clusters, taken cluster by cluster, sector by
      sector and record by record, is read; it then lists, in that order, exactly what
      each record contributes (see `RecordItemKinds`). */
  lemma ListingFollowsChain(img: seq<byte>, g: Geometry, start: nat)
    ensures var ch := ClusterChain(img, g, start);
      var ps := ChainPlaces(ch.clusters, g.sectorsPerCluster);
      Listing(img, g, start).status == Complete <==>
        ch.status == Complete && forall k :: 0 <= k < |ps| ==> ItemAt(RecordItems(img, g), ps[k]).Ok?
    ensures var ch := ClusterChain(img, g, start);
      var ps := ChainPlaces(ch.clusters, g.sectorsPerCluster);
      Listing(img, g, start).status == Complete ==> Listing(img, g, start).out == Contributed(RecordItems(img, g), ps)
  {
    var records := RecordItems(img, g);
    var ch := ClusterChain(img, g, start);
    var ps := ChainPlaces(ch.clusters, g.sectorsPerCluster);
    WalkFollowsChain(ListClusters(records, g), FatOf(img, g), start, {start});
    OverCollect(records, g, ch.clusters, ch.status);
    CollectComplete(records, ps);
    assert Collect(records, ps).out + [] == Collect(records, ps).out;
  }
}
