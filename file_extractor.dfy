/** The extraction of a file's contents (`copyFile`): every sector of every cluster of
    the file's chain is read and written out whole, 512 bytes at a time. */
module FileExtractor {
  import opened Base
  import opened SectorReader
  import opened VolumeLayout
  import opened FatTable
  import opened ChainWalk

  /** The 512 bytes of image sector `s`, or the failed read. */
  function SectorBytes(img: seq<byte>, s: nat): Trace<byte> {
    match ReadSector(img, s)
    case Err(e) => Trace([], Failed(e))
    case Ok(data) => Trace(data, Complete)
  }

  /** The bytes written for sectors `0 .. i - 1` of cluster `c`, in sector order. */
  function ClusterBytes(img: seq<byte>, g: Geometry, c: nat, i: nat): (r: Trace<byte>)
    ensures r.status == Complete ==> |r.out| == 512 * i
    decreases i
  {
    if i == 0 then Trace([], Complete)
    else Then(ClusterBytes(img, g, c, i - 1), SectorBytes(img, ClusterSector(g, c, i - 1)))
  }

  /** The bytes written for a whole cluster. */
  function ClusterData(img: seq<byte>, g: Geometry): nat -> Trace<byte> {
    (c: nat) => ClusterBytes(img, g, c, g.sectorsPerCluster)
  }

  /** copyFile on the file whose first cluster is `start`: the bytes written, cluster
      after cluster along the chain, and how the copy ended. */
  function Extract(img: seq<byte>, g: Geometry, start: nat): Trace<byte> {
    Walk(ClusterData(img, g), FatOf(img, g), start, {start})
  }

  /** Once a read has failed, the later sectors of the cluster add nothing. */
  lemma {:induction false} ClusterBytesFailed(img: seq<byte>, g: Geometry, c: nat, i: nat, i2: nat)
    requires i <= i2
    requires ClusterBytes(img, g, c, i).status.Failed?
    ensures ClusterBytes(img, g, c, i2) == ClusterBytes(img, g, c, i)
    decreases i2
  {
    if i < i2 {
      ClusterBytesFailed(img, g, c, i, i2 - 1);
    }
  }

  /** A cluster is copied completely exactly when every one of its sectors lies inside
      the image. */
  lemma {:induction false} ClusterBytesComplete(img: seq<byte>, g: Geometry, c: nat, i: nat)
    ensures ClusterBytes(img, g, c, i).status == Complete
        <==> forall k :: 0 <= k < i ==> 512 * ClusterSector(g, c, k) + 512 <= |img|
    decreases i
  {
    if i > 0 {
      ClusterBytesComplete(img, g, c, i - 1);
    }
  }

  /** In a completely copied cluster, bytes `512 * k .. 512 * k + 511` are the contents of
      sector `k` of the cluster, the image sector `firstSec + k + fatLBA`. */
  lemma {:induction false} ClusterBytesLayout(img: seq<byte>, g: Geometry, c: nat, i: nat, k: nat)
    requires ClusterBytes(img, g, c, i).status == Complete
    requires k < i
    ensures ReadSector(img, ClusterSector(g, c, k)).Ok?
    ensures ClusterBytes(img, g, c, i).out[512 * k .. 512 * k + 512]
         == ReadSector(img, ClusterSector(g, c, k)).value
    decreases i
  {
    var prev := ClusterBytes(img, g, c, i - 1);
    var last := SectorBytes(img, ClusterSector(g, c, i - 1));
    assert prev.status == Complete && last.status == Complete;
    assert ClusterBytes(img, g, c, i).out == prev.out + last.out;
    if k < i - 1 {
      ClusterBytesLayout(img, g, c, i - 1, k);
      assert (prev.out + last.out)[512 * k .. 512 * k + 512] == prev.out[512 * k .. 512 * k + 512];
    } else {
      assert (prev.out + last.out)[512 * k .. 512 * k + 512] == last.out;
    }
  }

  /** Visits that each output `n` items output `n * |cs|` items together. */
  lemma {:induction false} OutputsLength<T>(visit: nat -> Trace<T>, cs: seq<nat>, n: nat)
    requires forall k :: 0 <= k < |cs| ==> |visit(cs[k]).out| == n
    ensures |Outputs(visit, cs)| == n * |cs|
    decreases |cs|
  {
    if cs != [] {
      assert forall k :: 0 <= k < |cs| - 1 ==> cs[1..][k] == cs[k + 1];
      OutputsLength(visit, cs[1..], n);
      assert n * |cs| == n * |cs[1..]| + n;
    }
  }

  /** copyFile follows the cluster chain: a copy completes exactly when the chain ends at
      a terminator and every sector of every cluster on it lies inside the image; the
      output is then the clusters' contents in chain order, `512 * sectorsPerCluster`
      bytes for each cluster. */
  lemma ExtractFollowsChain(img: seq<byte>, g: Geometry, start: nat)
    ensures var ch := ClusterChain(img, g, start);
      Extract(img, g, start) == Over(ClusterData(img, g), ch.clusters, ch.status)
    ensures var ch := ClusterChain(img, g, start);
      Extract(img, g, start).status == Complete <==>
        (ch.status == Complete &&
         forall k :: 0 <= k < |ch.clusters| ==> ClusterData(img, g)(ch.clusters[k]).status == Complete)
    ensures var ch := ClusterChain(img, g, start);
      Extract(img, g, start).status == Complete ==>
        Extract(img, g, start).out == Outputs(ClusterData(img, g), ch.clusters) &&
        |Extract(img, g, start).out| == 512 * g.sectorsPerCluster * |ch.clusters|
  {
    var ch := ClusterChain(img, g, start);
    WalkFollowsChain(ClusterData(img, g), FatOf(img, g), start, {start});
    OverComplete(ClusterData(img, g), ch.clusters, ch.status);
    if Extract(img, g, start).status == Complete {
      OutputsLength(ClusterData(img, g), ch.clusters, 512 * g.sectorsPerCluster);
    }
  }

  /** One sector of copyFile: fread into `sectorBuffer`, then fputc of its 512 bytes. */
  method CopySector(img: seq<byte>, s: nat, out: seq<byte>) returns (out': seq<byte>, status: Status)
    ensures Trace(out', status) == Then(Trace(out, Complete), SectorBytes(img, s))
  {
    var read := ReadSector(img, s);
    if read.Err? {
      return out, Failed(read.error);
    }
    var sectorBuffer := new byte[SECTOR_SIZE];
    for k := 0 to SECTOR_SIZE
      invariant forall m :: 0 <= m < k ==> sectorBuffer[m] == read.value[m]
    {
      sectorBuffer[k] := read.value[k];
    }
    assert sectorBuffer[..] == read.value;
    out' := out;
    for j := 0 to SECTOR_SIZE
      invariant out' == out + sectorBuffer[..j]
    {
      out' := out' + [sectorBuffer[j]];
      assert sectorBuffer[..j + 1] == sectorBuffer[..j] + [sectorBuffer[j]];
    }
    assert sectorBuffer[..SECTOR_SIZE] == sectorBuffer[..];
    status := Complete;
  }

  /** The loop of copyFile over the sectors of one cluster. */
  method CopyCluster(img: seq<byte>, g: Geometry, cluster: nat, out: seq<byte>)
    returns (out': seq<byte>, status: Status)
    ensures Trace(out', status) == Then(Trace(out, Complete), ClusterData(img, g)(cluster))
  {
    out' := out;
    assert out + [] == out;
    var i := 0;
    while i < g.sectorsPerCluster
      invariant 0 <= i <= g.sectorsPerCluster
      invariant Then(Trace(out, Complete), ClusterBytes(img, g, cluster, i)) == Trace(out', Complete)
    {
      ThenAssoc(Trace(out, Complete), ClusterBytes(img, g, cluster, i),
                SectorBytes(img, ClusterSector(g, cluster, i)));
      var st;
      out', st := CopySector(img, ClusterSector(g, cluster, i), out');
      if st.Failed? {
        ClusterBytesFailed(img, g, cluster, i + 1, g.sectorsPerCluster);
        return out', st;
      }
      i := i + 1;
    }
    status := Complete;
  }

  /** copyFile on the file whose first cluster is `cluster`, with its tail recursion on
      the next cluster turned into a loop; `out` collects what fputc writes. The reader
      has no guard against a chain that returns to a cluster; here that ends the copy
      with CorruptChain. */
  method CopyFile(img: seq<byte>, g: Geometry, cluster: nat) returns (out: seq<byte>, status: Status)
    ensures Trace(out, status) == Extract(img, g, cluster)
  {
    ghost var visit, fat := ClusterData(img, g), FatOf(img, g);
    ghost var whole := Walk(visit, fat, cluster, {cluster});
    var c := cluster;
    var visited := {cluster};
    out := [];
    assert [] + whole.out == whole.out;
    while true
      invariant c in visited
      invariant Then(Trace(out, Complete), Walk(visit, fat, c, visited)) == whole
      decreases |Followable - visited|
    {
      ghost var before := out;
      var st;
      out, st := CopyCluster(img, g, c, out);
      if st.Failed? {
        return out, st;
      }
      var nextCluster := ReadFAT(img, g, c);
      assert fat(c) == nextCluster;
      if nextCluster.Err? {
        return out, Failed(nextCluster.error);
      }
      if IsEnd(nextCluster.value) {
        return out, Complete;
      }
      if nextCluster.value in visited {
        return out, Failed(CorruptChain);
      }
      var next := nextCluster.value;
      FollowShrinks(visited, next);
      ThenAssoc(Trace(before, Complete), visit(c), Walk(visit, fat, next, visited + {next}));
      c := next;
      visited := visited + {next};
    }
  }
}
