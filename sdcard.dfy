/**
 * The capacity and usage figures `show_sdcard_info` in Core/Src/main.c derives from
 * the card's block count and size and from the FAT volume's cluster counts. Values are
 * the source's unsigned integers: 64-bit for the byte count, 32-bit (`uint32_t`,
 * `DWORD`) for everything else, with the 32-bit wrap-around written out.
 */
module SdCard {
  import CInt

  const U64: int := 0x1_0000_0000_0000_0000
  const Mebi: nat := 0x10_0000
  /** Sectors per MiB for 512-byte sectors. */
  const SectorsPerMB: nat := 2048

  /** `(uint64_t)BlockNbr * BlockSize`. */
  function TotalBytes(blockNbr: nat, blockSize: nat): nat
  {
    blockNbr * blockSize
  }

  /** `(uint32_t)(totalBytes / (1024 * 1024))`. */
  function CardMB(blockNbr: nat, blockSize: nat): nat
  {
    CInt.Wrap32(TotalBytes(blockNbr, blockSize) / Mebi)
  }

  /** The whole gigabytes, `totalMB / 1024`. */
  function GbWhole(mb: nat): nat
  {
    mb / 1024
  }

  /** The hundredths of a gigabyte, `(totalMB % 1024) * 100 / 1024`. */
  function GbHundredths(mb: nat): nat
  {
    (mb % 1024) * 100 / 1024
  }

  /** `(fs->n_fatent - 2) * fs->csize` in `DWORD`: the data clusters are the FAT entries less two. */
  function TotalSectors(nFatent: nat, csize: nat): nat
  {
    CInt.Wrap32(CInt.Wrap32(nFatent - 2) * csize)
  }

  /** `fre_clust * fs->csize` in `DWORD`. */
  function FreeSectors(freClust: nat, csize: nat): nat
  {
    CInt.Wrap32(freClust * csize)
  }

  /** Sectors to MiB, `sect / 2048`. */
  function SectorsToMB(sect: nat): nat
  {
    sect / SectorsPerMB
  }

  /** `totalMB - freeMB` in `uint32_t`. */
  function UsedMB(totalMB: nat, freeMB: nat): nat
  {
    CInt.Wrap32(totalMB - freeMB)
  }

  /** The whole percent, `usedMB * 100 / totalMB`; the source divides by zero when `totalMB` is 0. */
  function UsagePercent(usedMB: nat, totalMB: nat): nat
    requires totalMB > 0
  {
    CInt.Wrap32(usedMB * 100) / totalMB
  }

  /** The tenth of a percent, `(usedMB * 1000 / totalMB) % 10`. */
  function UsageTenth(usedMB: nat, totalMB: nat): nat
    requires totalMB > 0
  {
    (CInt.Wrap32(usedMB * 1000) / totalMB) % 10
  }

  /* ---------------------------------------------------------------- lemmas */

  /** Two 32-bit factors never overflow the 64-bit product. */
  lemma TotalBytesFits(blockNbr: nat, blockSize: nat)
    requires blockNbr < CInt.U32 && blockSize < CInt.U32
    ensures TotalBytes(blockNbr, blockSize) < U64
  {
    CInt.MulMono(blockNbr, CInt.U32 - 1, blockSize);
    CInt.MulMono(blockSize, CInt.U32 - 1, CInt.U32 - 1);
  }

  /** With blocks of at most 1 MiB the cast to 32 bits loses nothing: the size is the exact MiB count. */
  lemma CardMBExact(blockNbr: nat, blockSize: nat)
    requires blockNbr < CInt.U32 && blockSize <= Mebi
    ensures CardMB(blockNbr, blockSize) == TotalBytes(blockNbr, blockSize) / Mebi
    ensures CardMB(blockNbr, blockSize) <= blockNbr
  {
    CInt.MulMono(blockSize, Mebi, blockNbr);
    assert TotalBytes(blockNbr, blockSize) <= Mebi * blockNbr;
    CInt.DivAtMost(TotalBytes(blockNbr, blockSize), Mebi, blockNbr);
  }

  /**
   * The gigabyte figures split the MiB count: whole gigabytes and the remainder give it
   * back, and the hundredths are the remainder's truncated share of 1024, from 0 to 99.
   */
  lemma GbSplit(mb: nat)
    ensures GbWhole(mb) * 1024 + mb % 1024 == mb
    ensures 0 <= GbHundredths(mb) <= 99
    ensures GbHundredths(mb) * 1024 <= (mb % 1024) * 100 < (GbHundredths(mb) + 1) * 1024
  {
    var r := mb % 1024;
    var h := r * 100 / 1024;
    assert r * 100 < 1024 * 100;
    CInt.DivBelow(r * 100, 1024, 100);
    assert h * 1024 <= r * 100 < (h + 1) * 1024;
  }

  /** Dividing sectors by 2048 is converting 512-byte sectors to MiB. */
  lemma SectorsToMBIsBytes(sect: nat)
    ensures SectorsToMB(sect) == (sect * 512) / Mebi
  {
    var q := sect / SectorsPerMB;
    var r := sect % SectorsPerMB;
    assert sect * 512 == q * Mebi + r * 512;
    assert 0 <= r * 512 < Mebi;
  }

  /**
   * For the values FatFs keeps (32-bit counts, at least two FAT entries, clusters of
   * at least one sector) and no 32-bit overflow, the sector counts are the plain
   * products, and no more sectors are free than there are.
   */
  lemma SectorCountsExact(nFatent: nat, freClust: nat, csize: nat)
    requires 2 <= nFatent < CInt.U32 && freClust < CInt.U32 && 0 < csize
    requires (nFatent - 2) * csize < CInt.U32 && freClust * csize < CInt.U32
    ensures TotalSectors(nFatent, csize) == (nFatent - 2) * csize
    ensures FreeSectors(freClust, csize) == freClust * csize
    ensures freClust <= nFatent - 2 ==> FreeSectors(freClust, csize) <= TotalSectors(nFatent, csize)
  {
    assert CInt.Wrap32(nFatent - 2) == nFatent - 2;
    if freClust <= nFatent - 2 {
      CInt.MulMono(freClust, nFatent - 2, csize);
    }
  }

  /**
   * When the free space does not exceed the total and the products stay in 32 bits,
   * the used figure is the difference, the percent is at most 100, the tenth digit is
   * 0 to 9, and the two printed digits together are the usage truncated to a tenth of
   * a percent.
   */
  lemma UsageDigits(totalMB: nat, freeMB: nat)
    requires 0 < totalMB && freeMB <= totalMB && totalMB * 1000 < CInt.U32
    ensures UsedMB(totalMB, freeMB) == totalMB - freeMB
    ensures UsagePercent(UsedMB(totalMB, freeMB), totalMB) <= 100
    ensures 0 <= UsageTenth(UsedMB(totalMB, freeMB), totalMB) <= 9
    ensures var used := totalMB - freeMB;
      UsagePercent(used, totalMB) * 10 + UsageTenth(used, totalMB) == used * 1000 / totalMB
  {
    var used := totalMB - freeMB;
    CInt.MulMono(used, totalMB, 1000);
    CInt.MulMono(used, totalMB, 100);
    assert CInt.Wrap32(used * 100) == used * 100;
    assert CInt.Wrap32(used * 1000) == used * 1000;
    CInt.DivAtMost(used * 100, totalMB, 100);
    TenthsAgree(used, totalMB);
  }

  /** `x * 1000 / t` has `x * 100 / t` as its leading digits. */
  lemma TenthsAgree(x: nat, t: nat)
    requires t > 0
    ensures (x * 1000 / t) / 10 == x * 100 / t
  {
    var q := x * 100 / t;
    CInt.QuotientBounds(x * 100, t);
    assert q * t <= x * 100 < (q + 1) * t;
    Scale10(q, t);
    Scale10(q + 1, t);
    assert (10 * q) * t <= x * 1000 < (10 * q + 10) * t;
    DivAtLeast(x * 1000, t, 10 * q);
    CInt.DivBelow(x * 1000, t, 10 * q + 10);
  }

  lemma Scale10(q: nat, t: nat)
    ensures (10 * q) * t == 10 * (q * t)
  {
  }

  lemma DivAtLeast(a: nat, t: nat, k: nat)
    requires t > 0 && k * t <= a
    ensures k <= a / t
  {
    if a / t < k {
      CInt.MulMono(a / t + 1, k, t);
    }
  }
}
