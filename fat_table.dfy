/** The file allocation table: the next-cluster lookup (`readFAT`) and the cluster
    chain it induces, with the cycle guard the reader lacks. */
module FatTable {
  import opened Base
  import opened SectorReader
  import opened VolumeLayout

  /** FAT entries at or above this value end a chain (end-of-chain, bad and reserved
      markers of the 28-bit FAT32 range). */
  const END_OF_CHAIN: nat := 0x0FFF_FFF7

  /** FAT entries per 512-byte sector. */
  const ENTRIES_PER_SECTOR: nat := 128

  predicate IsEnd(v: nat) {
    v >= END_OF_CHAIN
  }

  /** The image sector that holds the FAT entry of `cluster`: the reader computes
      `fatLBA + reservedSectors + (int)cluster / 128` with a C cast and C division,
      then reduces to unsigned long. */
  function FatSector(g: Geometry, cluster: nat): (r: nat)
    ensures r < TWO_64
  {
    Wrap64(g.partitionStart + g.reservedSectors + CDiv(Int32(cluster), ENTRIES_PER_SECTOR))
  }

  /** The slot of that entry within its sector. */
  function FatSlot(cluster: nat): (r: nat)
    ensures r < ENTRIES_PER_SECTOR
    ensures cluster == ENTRIES_PER_SECTOR * (cluster / ENTRIES_PER_SECTOR) + r
  {
    cluster % ENTRIES_PER_SECTOR
  }

  /** readFAT: the 32-bit little-endian entry of `cluster`, read as a signed `int` and
      returned as unsigned long (so entries at or above 2^31 are sign-extended). The
      read fails when the image does not hold the whole FAT sector. */
  function ReadFat(img: seq<byte>, g: Geometry, cluster: nat): (r: Result<nat>)
    ensures r.Ok? <==> 512 * FatSector(g, cluster) + 512 <= |img|
    ensures r.Ok? ==>
      var off := 512 * FatSector(g, cluster) + 4 * FatSlot(cluster);
      r.value % TWO_32 == Le32(img, off) &&
      (IsEnd(r.value) <==> IsEnd(Le32(img, off)))
  {
    var sector := FatSector(g, cluster);
    if 512 * sector + 512 <= |img| then Ok(SignExtend32(Le32(img, 512 * sector + 4 * FatSlot(cluster))))
    else Err(IoError)
  }

  /** readFAT as the reader runs it: the FAT sector is read whole into `sectorBuffer`,
      viewed as 128 signed 32-bit entries, and slot `cluster % 128` is returned as an
      unsigned long. */
  method ReadFAT(img: seq<byte>, g: Geometry, cluster: nat) returns (nextCluster: Result<nat>)
    ensures nextCluster == ReadFat(img, g, cluster)
  {
    var read := ReadSector(img, FatSector(g, cluster));
    if read.Err? {
      return Err(read.error);
    }
    var sectorBuffer := new byte[SECTOR_SIZE];
    for k := 0 to SECTOR_SIZE
      invariant forall m :: 0 <= m < k ==> sectorBuffer[m] == read.value[m]
    {
      sectorBuffer[k] := read.value[k];
    }
    var off := 4 * FatSlot(cluster);
    var entry: nat := sectorBuffer[off] as int + 0x100 * sectorBuffer[off + 1] as int
      + 0x1_0000 * sectorBuffer[off + 2] as int + 0x100_0000 * sectorBuffer[off + 3] as int;
    ghost var at := 512 * FatSector(g, cluster) + off;
    assert entry == Le32(img, at) by {
      assert read.value[off] == img[at] && read.value[off + 1] == img[at + 1];
      assert read.value[off + 2] == img[at + 2] && read.value[off + 3] == img[at + 3];
    }
    nextCluster := Ok(SignExtend32(entry));
  }

  /** For every cluster below 2^31 of an on-disk geometry, the entry sits in image sector
      `fatLBA + reservedSectors + cluster / 128` at slot `cluster % 128`. */
  lemma FatLocation(g: Geometry, cluster: nat)
    requires FromDisk(g)
    requires cluster < TWO_31
    ensures FatSector(g, cluster) == g.partitionStart + g.reservedSectors + cluster / ENTRIES_PER_SECTOR
    ensures FatSlot(cluster) == cluster % ENTRIES_PER_SECTOR
  {
  }

  /** Only the four bytes of the entry affect the lookup: images that agree on those
      bytes, and are both long enough to hold the FAT sector, give the same result. */
  lemma FatFrame(img1: seq<byte>, img2: seq<byte>, g: Geometry, cluster: nat)
    requires 512 * FatSector(g, cluster) + 512 <= |img1|
    requires 512 * FatSector(g, cluster) + 512 <= |img2|
    requires var off := 512 * FatSector(g, cluster) + 4 * FatSlot(cluster);
      img1[off..off + 4] == img2[off..off + 4]
    ensures ReadFat(img1, g, cluster) == ReadFat(img2, g, cluster)
  {
    var off := 512 * FatSector(g, cluster) + 4 * FatSlot(cluster);
    assert img1[off] == img1[off..off + 4][0] == img2[off..off + 4][0] == img2[off];
    assert img1[off + 1] == img1[off..off + 4][1] == img2[off..off + 4][1] == img2[off + 1];
    assert img1[off + 2] == img1[off..off + 4][2] == img2[off..off + 4][2] == img2[off + 2];
    assert img1[off + 3] == img1[off..off + 4][3] == img2[off..off + 4][3] == img2[off + 3];
  }

  /** The cluster numbers a chain can continue to: everything below the terminator
      range. Every step of a chain walk adds one of them to the visited set. */
  ghost const Followable: set<nat> := set x: nat | x < END_OF_CHAIN

  /** Following a fresh followable cluster shrinks the part of `Followable` not yet
      visited, which bounds every chain walk. */
  lemma FollowShrinks(visited: set<nat>, next: nat)
    requires next < END_OF_CHAIN && next !in visited
    ensures |Followable - (visited + {next})| < |Followable - visited|
  {
    assert next in Followable;
    assert Followable - visited == (Followable - (visited + {next})) + {next};
  }

  /** The clusters a walk visits, in order, and how it ended. */
  datatype Chain = Chain(clusters: seq<nat>, status: Status)

  /** The chain from `cluster` on under the FAT lookup `fat`, where `visited` holds
      the clusters already walked (`cluster` among them). A lookup that reaches a
      visited cluster reports CorruptChain instead of looping. */
  function ChainFrom(fat: nat -> Result<nat>, cluster: nat, visited: set<nat>): (ch: Chain)
    requires cluster in visited
    decreases |Followable - visited|
  {
    match fat(cluster)
    case Err(e) => Chain([cluster], Failed(e))
    case Ok(next) =>
      if IsEnd(next) then Chain([cluster], Complete)
      else if next in visited then Chain([cluster], Failed(CorruptChain))
      else
        FollowShrinks(visited, next);
        var rest := ChainFrom(fat, next, visited + {next});
        Chain([cluster] + rest.clusters, rest.status)
  }

  /** The FAT lookup of an image, as a function of the cluster number. */
  function FatOf(img: seq<byte>, g: Geometry): nat -> Result<nat> {
    (c: nat) => ReadFat(img, g, c)
  }

  /** The cluster chain of a file or directory starting at `start`. */
  function ClusterChain(img: seq<byte>, g: Geometry, start: nat): Chain {
    ChainFrom(FatOf(img, g), start, {start})
  }

  /** The last cluster of a non-empty chain. */
  function Last(cs: seq<nat>): nat
    requires |cs| >= 1
  {
    cs[|cs| - 1]
  }

  /** A chain starts at its first cluster, and no cluster after the first was visited
      before the walk. */
  lemma {:induction false} ChainFresh(fat: nat -> Result<nat>, cluster: nat, visited: set<nat>)
    requires cluster in visited
    ensures var cs := ChainFrom(fat, cluster, visited).clusters;
      && |cs| >= 1 && cs[0] == cluster
      && (forall k :: 1 <= k < |cs| ==> cs[k] !in visited)
    decreases |Followable - visited|
  {
    match fat(cluster)
    case Err(e) =>
    case Ok(next) =>
      if !IsEnd(next) && next !in visited {
        FollowShrinks(visited, next);
        ChainFresh(fat, next, visited + {next});
        var rest := ChainFrom(fat, next, visited + {next}).clusters;
        var cs := [cluster] + rest;
        assert ChainFrom(fat, cluster, visited).clusters == cs;
        forall k | 1 <= k < |cs| ensures cs[k] !in visited {
          assert cs[k] == rest[k - 1];
        }
      }
  }

  /** How a chain is linked: each cluster's FAT entry is the next cluster of the
      chain, and that entry is no terminator. */
  lemma {:induction false} ChainLinks(fat: nat -> Result<nat>, cluster: nat, visited: set<nat>)
    requires cluster in visited
    ensures var cs := ChainFrom(fat, cluster, visited).clusters;
      forall i, j :: 0 <= i && j == i + 1 && j < |cs| ==>
        fat(cs[i]) == Ok(cs[j]) && !IsEnd(cs[j])
    decreases |Followable - visited|
  {
    match fat(cluster)
    case Err(e) =>
    case Ok(next) =>
      if !IsEnd(next) && next !in visited {
        FollowShrinks(visited, next);
        ChainLinks(fat, next, visited + {next});
        ChainFresh(fat, next, visited + {next});
        var rest := ChainFrom(fat, next, visited + {next}).clusters;
        var cs := [cluster] + rest;
        assert ChainFrom(fat, cluster, visited).clusters == cs;
        forall i, j | 0 <= i && j == i + 1 && j < |cs|
          ensures fat(cs[i]) == Ok(cs[j]) && !IsEnd(cs[j])
        {
          if i > 0 { assert cs[i] == rest[i - 1] && cs[j] == rest[j - 1]; }
        }
      }
  }

  /** No cluster occurs twice in a chain: the walk never revisits a cluster. */
  lemma {:induction false} ChainDistinct(fat: nat -> Result<nat>, cluster: nat, visited: set<nat>)
    requires cluster in visited
    ensures var cs := ChainFrom(fat, cluster, visited).clusters;
      forall i, j :: 0 <= i < j < |cs| ==> cs[i] != cs[j]
    decreases |Followable - visited|
  {
    match fat(cluster)
    case Err(e) =>
    case Ok(next) =>
      if !IsEnd(next) && next !in visited {
        FollowShrinks(visited, next);
        ChainDistinct(fat, next, visited + {next});
        ChainFresh(fat, next, visited + {next});
        var rest := ChainFrom(fat, next, visited + {next}).clusters;
        var cs := [cluster] + rest;
        assert ChainFrom(fat, cluster, visited).clusters == cs;
        forall i, j | 0 <= i < j < |cs| ensures cs[i] != cs[j] {
          if i == 0 {
            assert cs[j] == rest[j - 1];
            if j > 1 { assert rest[j - 1] !in visited + {next}; }
          } else {
            assert cs[i] == rest[i - 1] && cs[j] == rest[j - 1];
          }
        }
      }
  }

  /** How a chain ends is decided by the lookup of its last cluster: a failed lookup
      ends it with that error, a terminator completes it, and any other entry is a
      cluster already walked (before the chain or in it) and ends it with CorruptChain. */
  lemma {:induction false} ChainEnd(fat: nat -> Result<nat>, cluster: nat, visited: set<nat>)
    requires cluster in visited
    ensures var ch := ChainFrom(fat, cluster, visited);
      |ch.clusters| >= 1 &&
      var last := fat(Last(ch.clusters));
      && (last.Err? ==> ch.status == Failed(last.error))
      && (last.Ok? && IsEnd(last.value) ==> ch.status == Complete)
      && (last.Ok? && !IsEnd(last.value) ==>
            ch.status == Failed(CorruptChain) && (last.value in visited || last.value in ch.clusters))
    decreases |Followable - visited|
  {
    match fat(cluster)
    case Err(e) =>
    case Ok(next) =>
      if !IsEnd(next) && next !in visited {
        FollowShrinks(visited, next);
        ChainEnd(fat, next, visited + {next});
        var rest := ChainFrom(fat, next, visited + {next}).clusters;
        var cs := [cluster] + rest;
        assert ChainFrom(fat, cluster, visited).clusters == cs;
        assert Last(cs) == Last(rest);
        var last := fat(Last(cs));
        if last.Ok? && !IsEnd(last.value) && last.value in rest {
          var k :| 0 <= k < |rest| && rest[k] == last.value;
          assert cs[k + 1] == last.value;
        }
      }
  }

  /** A two-cluster cycle (FAT[5] = 6, FAT[6] = 5) ends the walk with CorruptChain after
      visiting both clusters, where the reader would loop forever. */
  lemma TwoClusterCycle(img: seq<byte>, g: Geometry)
    requires ReadFat(img, g, 5) == Ok(6)
    requires ReadFat(img, g, 6) == Ok(5)
    ensures ClusterChain(img, g, 5) == Chain([5, 6], Failed(CorruptChain))
  {
    var fat := FatOf(img, g);
    assert fat(5) == Ok(6) && fat(6) == Ok(5);
    assert !IsEnd(6) && 6 !in {5};
    assert ChainFrom(fat, 6, {5} + {6}) == Chain([6], Failed(CorruptChain));
  }
}
