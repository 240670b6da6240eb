/** Absolute reads from the immutable disk image: whole 512-byte sectors (`fread` of a
    sector) and single 32-byte directory records (`readEntry`). */
module SectorReader {
  import opened Base

  const SECTOR_SIZE: nat := 512
  const RECORD_SIZE: nat := 32
  const RECORDS_PER_SECTOR: nat := SECTOR_SIZE / RECORD_SIZE

  /** Sector `index` of the image, or IoError when it does not lie wholly inside it. */
  function ReadSector(img: seq<byte>, index: nat): (r: Result<seq<byte>>)
    ensures r.Ok? <==> 512 * index + 512 <= |img|
    ensures r.Ok? ==> |r.value| == SECTOR_SIZE
    ensures r.Ok? ==> forall k :: 0 <= k < SECTOR_SIZE ==> r.value[k] == img[512 * index + k]
  {
    if 512 * index + 512 <= |img| then
      Ok(img[512 * index .. 512 * index + 512])
    else
      Err(IoError)
  }

  /** The 32-byte record at byte offset `32 * index`, or IoError outside the image. */
  function ReadRecord(img: seq<byte>, index: nat): (r: Result<seq<byte>>)
    ensures r.Ok? <==> 32 * index + 32 <= |img|
    ensures r.Ok? ==> |r.value| == RECORD_SIZE
    ensures r.Ok? ==> forall k :: 0 <= k < RECORD_SIZE ==> r.value[k] == img[32 * index + k]
  {
    if 32 * index + 32 <= |img| then
      Ok(img[32 * index .. 32 * index + 32])
    else
      Err(IoError)
  }

  /** A record read on its own agrees byte for byte with the same 32 bytes of the sector
      that holds it: the two kinds of read never disagree about the image. */
  lemma RecordInSector(img: seq<byte>, sector: nat, j: nat)
    requires j < 16
    requires ReadSector(img, sector).Ok?
    ensures ReadRecord(img, 16 * sector + j).Ok?
    ensures ReadRecord(img, 16 * sector + j).value == ReadSector(img, sector).value[32 * j .. 32 * j + 32]
  {
    var idx := 16 * sector + j;
    assert 32 * idx + 32 <= 512 * sector + 512;
    var rec := ReadRecord(img, idx).value;
    var sec := ReadSector(img, sector).value;
    forall k | 0 <= k < 32
      ensures rec[k] == sec[32 * j + k]
    {
      assert 32 * idx + k == 512 * sector + (32 * j + k);
    }
  }
}
