/** Disk sectors and the chunks dirty tracking groups them in. */
module Sectors {
  import opened Wire

  /** BDRV_SECTOR_SIZE. */
  const SECTOR: nat := 512

  /** BDRV_SECTORS_PER_DIRTY_CHUNK. */
  const CHUNK: nat := 2048

  function ZeroSector(): (s: seq<Byte>)
    ensures |s| == SECTOR
  {
    seq(SECTOR, _ => 0)
  }

  type Sector = s: seq<Byte> | |s| == SECTOR witness ZeroSector()
}
