/** The master boot record and the BIOS parameter block: where the FAT32 partition
    starts, and the geometry every later address is computed from. */
module VolumeLayout {
  import opened Base
  import opened SectorReader

  /** Byte offset of the first partition entry's LBABegin field in the MBR (446 + 8). */
  const LBA_BEGIN: nat := 454

  /** Byte offsets of the BPB fields the reader uses. */
  const BPB_SEC_PER_CLUS: nat := 13
  const BPB_RSVD_SEC_CNT: nat := 14
  const BPB_NUM_FATS: nat := 16
  const BPB_FAT_SZ32: nat := 36
  const BPB_ROOT_CLUS: nat := 44

  /** The geometry of the volume, fixed once the BPB has been read. Sector numbers
      `dataSectorStart` and `FirstSector` are relative to the partition; the image
      sector is `partitionStart` plus them. */
  datatype Geometry = Geometry(
    partitionStart: nat,     // fatLBA
    sectorsPerCluster: nat,  // BPB_SecPerClus
    reservedSectors: nat,    // BPB_RsvdSecCnt
    numFATs: nat,            // BPB_NumFATs
    sectorsPerFAT: nat,      // BPB_FATSz32
    rootCluster: nat,        // BPB_RootClus
    dataSectorStart: nat     // first sector of cluster 2
  )

  /** The ranges the on-disk field widths allow. */
  predicate FromDisk(g: Geometry) {
    && g.partitionStart < TWO_32
    && g.sectorsPerCluster < 256
    && g.reservedSectors < TWO_16
    && g.numFATs < 256
    && g.sectorsPerFAT < TWO_32
    && g.rootCluster < TWO_32
    && g.dataSectorStart < TWO_32
  }

  /** Partition start as the reader takes it: byte 0 of the LBABegin field alone. */
  function PartitionStartAsWritten(mbr: seq<byte>): (r: nat)
    requires |mbr| == SECTOR_SIZE
    ensures r < 256 && r == Le32(mbr, LBA_BEGIN) % 256
  {
    mbr[LBA_BEGIN]
  }

  /** Partition start as the FAT32 layout defines it: the whole 32-bit little-endian
      LBABegin field. */
  function PartitionStart(mbr: seq<byte>): (r: nat)
    requires |mbr| == SECTOR_SIZE
    ensures r < TWO_32
    ensures r % 256 == mbr[LBA_BEGIN]
    ensures r / 256 == mbr[LBA_BEGIN + 1] + 256 * mbr[LBA_BEGIN + 2] + TWO_16 * mbr[LBA_BEGIN + 3]
  {
    Le32(mbr, LBA_BEGIN)
  }

  /** The two readings agree exactly when the three upper bytes of the field are zero,
      that is, when the partition starts in one of the first 256 sectors. */
  lemma PartitionStartsAgree(mbr: seq<byte>)
    requires |mbr| == SECTOR_SIZE
    ensures PartitionStartAsWritten(mbr) == PartitionStart(mbr)
        <==> mbr[LBA_BEGIN + 1] == 0 && mbr[LBA_BEGIN + 2] == 0 && mbr[LBA_BEGIN + 3] == 0
  {
    var v := PartitionStart(mbr);
    assert v == mbr[LBA_BEGIN] + 256 * (v / 256);
  }

  /** A partition at the common alignment of sector 2048 (LBABegin = 00 08 00 00) is
      taken by the reader to start at sector 0, the MBR itself. */
  lemma PartitionStartAt2048(mbr: seq<byte>)
    requires |mbr| == SECTOR_SIZE
    requires mbr[LBA_BEGIN] == 0x00 && mbr[LBA_BEGIN + 1] == 0x08
    requires mbr[LBA_BEGIN + 2] == 0x00 && mbr[LBA_BEGIN + 3] == 0x00
    ensures PartitionStartAsWritten(mbr) == 0
    ensures PartitionStart(mbr) == 2048
  {
  }

  /** `BPB_RsvdSecCnt + BPB_NumFATs * BPB_FATSz32`, computed in 32-bit unsigned arithmetic. */
  function DataSectorStart(reserved: nat, numFATs: nat, fatSize: nat): (r: nat)
    ensures r < TWO_32
    ensures reserved + numFATs * fatSize < TWO_32 ==> r == reserved + numFATs * fatSize
  {
    Wrap32(reserved + numFATs * fatSize)
  }

  /** Reads the MBR from sector 0 and the BPB from the partition's first sector and
      derives the geometry. With `legacyOffset` the partition start is the reader's
      one-byte reading, otherwise the full 32-bit field. The reader checks no
      signature or field, so neither does this. */
  function Open(img: seq<byte>, legacyOffset: bool): (r: Result<Geometry>)
    ensures r.Ok? <==> (SECTOR_SIZE <= |img| &&
      var mbr := img[..SECTOR_SIZE];
      var start := if legacyOffset then PartitionStartAsWritten(mbr) else PartitionStart(mbr);
      512 * start + 512 <= |img|)
    ensures r.Ok? ==> FromDisk(r.value)
    ensures r.Ok? ==> 512 * r.value.partitionStart + 512 <= |img|
    ensures r.Ok? ==>
      var g := r.value;
      var bpb := img[512 * g.partitionStart .. 512 * g.partitionStart + 512];
      && g.partitionStart == (if legacyOffset then img[LBA_BEGIN] else Le32(img[..SECTOR_SIZE], LBA_BEGIN))
      && g.sectorsPerCluster == bpb[BPB_SEC_PER_CLUS]
      && g.reservedSectors == Le16(bpb, BPB_RSVD_SEC_CNT)
      && g.numFATs == bpb[BPB_NUM_FATS]
      && g.sectorsPerFAT == Le32(bpb, BPB_FAT_SZ32)
      && g.rootCluster == Le32(bpb, BPB_ROOT_CLUS)
      && g.dataSectorStart == Wrap32(g.reservedSectors + g.numFATs * g.sectorsPerFAT)
  {
    var mbr :- ReadSector(img, 0);
    assert mbr == img[..SECTOR_SIZE];
    var start := if legacyOffset then PartitionStartAsWritten(mbr) else PartitionStart(mbr);
    var bpb :- ReadSector(img, start);
    assert bpb == img[512 * start .. 512 * start + 512];
    var reserved := Le16(bpb, BPB_RSVD_SEC_CNT);
    var numFATs := bpb[BPB_NUM_FATS];
    var fatSize := Le32(bpb, BPB_FAT_SZ32);
    Ok(Geometry(start, bpb[BPB_SEC_PER_CLUS], reserved, numFATs, fatSize,
                Le32(bpb, BPB_ROOT_CLUS), DataSectorStart(reserved, numFATs, fatSize)))
  }

  /** With at most 255 FATs and a 16-bit reserved count, the data region starts past
      every copy of the FAT unless the 32-bit sum wraps. */
  lemma DataRegionFollowsFats(g: Geometry)
    requires FromDisk(g)
    requires g.dataSectorStart == Wrap32(g.reservedSectors + g.numFATs * g.sectorsPerFAT)
    requires g.reservedSectors + g.numFATs * g.sectorsPerFAT < TWO_32
    ensures g.dataSectorStart == g.reservedSectors + g.numFATs * g.sectorsPerFAT
    ensures g.numFATs > 0 ==> g.dataSectorStart >= g.reservedSectors + g.sectorsPerFAT
  {
    if g.numFATs > 0 {
      MulAtLeast(g.numFATs, g.sectorsPerFAT);
    }
  }

  lemma MulAtLeast(a: nat, b: nat)
    requires a >= 1
    ensures a * b >= b
  {
    assert a * b == (a - 1) * b + b;
  }

  /** getFirstSector: first sector (partition-relative) of a cluster, in 64-bit
      unsigned arithmetic, so `cluster - 2` wraps for clusters 0 and 1. */
  function FirstSector(g: Geometry, cluster: nat): (r: nat)
    ensures r < TWO_64
  {
    Wrap64(g.dataSectorStart + (cluster - 2) * g.sectorsPerCluster)
  }

  /** For every data cluster of an on-disk geometry no wrap-around happens: the first
      sector is exactly `dataSectorStart + (cluster - 2) * sectorsPerCluster`. */
  lemma FirstSectorExact(g: Geometry, cluster: nat)
    requires FromDisk(g)
    requires 2 <= cluster < TWO_32
    ensures FirstSector(g, cluster) == g.dataSectorStart + (cluster - 2) * g.sectorsPerCluster
  {
    MulMonotone(cluster - 2, g.sectorsPerCluster, TWO_32, 256);
  }

  /** Clusters lie back to back in cluster order: cluster `c + 1` starts right after
      the `sectorsPerCluster` sectors of cluster `c`, so the first sector is strictly
      increasing in the cluster number when clusters are non-empty. */
  lemma FirstSectorIncreasing(g: Geometry, c: nat, d: nat)
    requires FromDisk(g) && g.sectorsPerCluster > 0
    requires 2 <= c < d < TWO_32
    ensures FirstSector(g, c) + g.sectorsPerCluster <= FirstSector(g, d)
    ensures d == c + 1 ==> FirstSector(g, d) == FirstSector(g, c) + g.sectorsPerCluster
  {
    FirstSectorExact(g, c);
    FirstSectorExact(g, d);
    var k := g.sectorsPerCluster;
    assert (d - 2) * k == (c - 2) * k + (d - c) * k;
    MulAtLeast(d - c, k);
  }

  /** Image sector `i` of a cluster, as `(firstSec + i + fatLBA)` in unsigned long. */
  function ClusterSector(g: Geometry, cluster: nat, i: nat): (r: nat)
    ensures r < TWO_64
  {
    Wrap64(FirstSector(g, cluster) + i + g.partitionStart)
  }

  /** For a data cluster of an on-disk geometry, sector `i` of the cluster is the
      image sector `partitionStart + dataSectorStart + (cluster - 2) * sectorsPerCluster + i`. */
  lemma ClusterSectorExact(g: Geometry, cluster: nat, i: nat)
    requires FromDisk(g)
    requires 2 <= cluster < TWO_32 && i < TWO_32
    ensures ClusterSector(g, cluster, i)
         == g.partitionStart + g.dataSectorStart + (cluster - 2) * g.sectorsPerCluster + i
  {
    FirstSectorExact(g, cluster);
    MulMonotone(cluster - 2, g.sectorsPerCluster, TWO_32, 256);
  }
}
