/**
 * The allocator of lib/MALLOC/malloc.c as in-place code: one memory bank (the source
 * configures a single one, the external SRAM) with its memory-map table, its byte pool
 * and its ready flag. Addresses are `uint32_t` values; the pool starts at `base`.
 */
module Malloc {
  import opened Wrappers
  import opened MallocSpec
  import CInt

  /** `my_mem_set`: the `count` elements from `o` on become `c`. */
  method MemSet<T>(a: array<T>, o: nat, c: T, count: nat)
    requires o + count <= a.Length
    modifies a
    ensures a[..] == Fill(old(a[..]), o, count, c)
  {
    var i := 0;
    while i < count
      invariant 0 <= i <= count
      invariant forall j :: 0 <= j < a.Length ==> a[j] == if o <= j < o + i then c else old(a[j])
    {
      a[o + i] := c;
      i := i + 1;
    }
    assert a[..] == Fill(old(a[..]), o, count, c);
  }

  /** `my_mem_copy` within one memory: `n` bytes from `s` to `d`, lowest address first. */
  method MemCopy(a: array<bv8>, d: nat, s: nat, n: nat)
    requires d + n <= a.Length && s + n <= a.Length
    modifies a
    ensures a[..] == ForwardCopy(old(a[..]), d, s, n)
  {
    var i := 0;
    while i < n
      invariant 0 <= i <= n
      invariant a[..] == ForwardCopy(old(a[..]), d, s, i)
    {
      a[d + i] := a[s + i];
      i := i + 1;
    }
  }

  class Bank {
    /** The number of blocks (`memtblsize`). */
    const tblSize: nat
    /** The bytes per block (`memblksize`). */
    const blkSize: nat
    /** The address of the pool (`membase`). */
    const base: nat
    const memmap: array<nat>
    const pool: array<bv8>
    var memrdy: bool

    ghost predicate Valid()
      reads this
    {
      && tblSize > 0 && blkSize > 0
      && memmap as object != pool as object
      && memmap.Length == tblSize && pool.Length == tblSize * blkSize
      && 0 < base && base + tblSize * blkSize < CInt.U32
      && tblSize < EntryLimit
    }

    /**
     * The pool size `memsize`: the table covers the pool exactly, which holds when the
     * pool size is a multiple of the block size.
     */
    function MemSize(): nat
      reads this
    {
      tblSize * blkSize
    }

    /** A bank before `my_mem_init`: the table holds whatever `garbage` says. */
    constructor (tbl: nat, blk: nat, b: nat, garbage: seq<nat>)
      requires tbl > 0 && blk > 0 && 0 < b && b + tbl * blk < CInt.U32 && tbl < EntryLimit && |garbage| == tbl
      ensures Valid() && !memrdy && memmap[..] == garbage
      ensures tblSize == tbl && blkSize == blk && base == b
      ensures fresh(memmap) && fresh(pool)
    {
      tblSize, blkSize, base := tbl, blk, b;
      memmap := new nat[tbl](i => if 0 <= i < |garbage| then garbage[i] else 0);
      pool := new bv8[tbl * blk];
      memrdy := false;
    }

    /** `my_mem_init`. */
    method MemInit()
      requires Valid()
      modifies this, memmap
      ensures memrdy && memmap[..] == Zeroed(old(memmap[..]))
    {
      MemSet(memmap, 0, 0, tblSize);
      memrdy := true;
    }

    /** `my_mem_perused`: the per-mille of used blocks. */
    method MemPerused() returns (r: nat)
      requires Valid()
      ensures r == Perused(memmap[..])
    {
      var used := 0;
      var i := 0;
      while i < tblSize
        invariant 0 <= i <= tblSize
        invariant used == CountUsed(memmap[..i])
      {
        assert memmap[..i + 1][..i] == memmap[..i];
        if memmap[i] != 0 {
          used := used + 1;
        }
        i := i + 1;
      }
      assert memmap[..tblSize] == memmap[..];
      r := (CInt.Wrap32(used * 1000) / tblSize) % 0x1_0000;
    }

    /** `my_mem_malloc`: the top-down scan for a free run, and the stamping of the run. */
    method MemMalloc(size: nat) returns (r: nat)
      requires Valid() && size < CInt.U32
      modifies this, memmap
      ensures memrdy && pool[..] == old(pool[..])
      ensures Alloc(r, memmap[..]) == Malloc(Ready(old(memrdy), old(memmap[..])), size, blkSize)
    {
      if !memrdy {
        MemInit();
      }
      ghost var m := memmap[..];
      if size == 0 {
        return Fail;
      }
      var nmemb := size / blkSize;
      if size % blkSize != 0 {
        nmemb := nmemb + 1;
      }
      assert nmemb == Blocks(size, blkSize);
      var offset := FindRun(nmemb);
      if offset < 0 {
        return Fail;
      }
      StampRun(offset, nmemb);
      return offset * blkSize;
    }

    /**
     * The scan of `my_mem_malloc`: from the top block down, count consecutive free
     * blocks and stop at the first block where the count reaches `n`; -1 when the scan
     * runs off the bottom of the table.
     */
    method FindRun(n: nat) returns (offset: int)
      requires Valid() && n > 0
      ensures -1 <= offset < tblSize
      ensures offset >= 0 <==> Fit(memmap[..], n, tblSize).Some?
      ensures offset >= 0 ==> Fit(memmap[..], n, tblSize) == Some(offset)
    {
      ghost var m := memmap[..];
      var cmemb := 0;
      offset := tblSize - 1;
      while offset >= 0
        invariant -1 <= offset < tblSize
        invariant cmemb == RunLen(m, offset + 1)
        invariant forall p: nat :: offset < p < tblSize ==> !FreeRun(m, p, n)
      {
        if memmap[offset] == 0 {
          cmemb := cmemb + 1;
        } else {
          cmemb := 0;
        }
        assert cmemb == RunLen(m, offset);
        FreeRunIffRunLen(m, offset, n);
        if cmemb == n {
          FitIsHighest(m, n, offset);
          return;
        }
        if offset + 1 < tblSize {
          FreeRunIffRunLen(m, offset + 1, n);
        }
        offset := offset - 1;
      }
      NoFit(m, n, tblSize);
    }

    /** The stamping loop of `my_mem_malloc`: entries `[o, o + n)` become `n`. */
    method StampRun(o: nat, n: nat)
      requires Valid() && o + n <= tblSize
      modifies memmap
      ensures memmap[..] == Stamp(old(memmap[..]), o, n)
    {
      var i := 0;
      while i < n
        invariant 0 <= i <= n
        invariant forall j :: 0 <= j < tblSize ==> memmap[j] == if o <= j < o + i then n else old(memmap[j])
      {
        memmap[o + i] := n;
        i := i + 1;
      }
      assert memmap[..] == Stamp(old(memmap[..]), o, n);
    }

    /** `my_mem_free`. */
    method MemFree(offset: nat) returns (r: nat)
      requires Valid() && offset < CInt.U32
      modifies this, memmap
      ensures memrdy
      ensures Freed(r, memmap[..]) == Free(old(memrdy), old(memmap[..]), offset, blkSize)
    {
      if !memrdy {
        MemInit();
        return 1;
      }
      if offset < tblSize * blkSize {
        CInt.DivBelow(offset, blkSize, tblSize);
        var index := offset / blkSize;
        ClearFrom(index);
        return 0;
      } else {
        return 2;
      }
    }

    /** The clearing loop of `my_mem_free`: `memmap[index]` entries from `index` become 0. */
    method ClearFrom(index: nat)
      requires Valid() && index < tblSize
      modifies memmap
      ensures memmap[..] == ClearRun(old(memmap[..]), index)
    {
      var nmemb := memmap[index];
      var i := 0;
      while i < nmemb && index + i < tblSize
        invariant 0 <= i <= CInt.Min(nmemb, tblSize - index)
        invariant forall j :: 0 <= j < tblSize ==> memmap[j] == if index <= j < index + i then 0 else old(memmap[j])
      {
        memmap[index + i] := 0;
        i := i + 1;
      }
      assert memmap[..] == ClearRun(old(memmap[..]), index);
    }

    /** `myfree`: NULL is ignored; any other address is turned into a pool offset. */
    method MyFree(ptr: nat)
      requires Valid() && ptr < CInt.U32
      modifies this, memmap
      ensures pool[..] == old(pool[..])
      ensures ptr == 0 ==> memmap[..] == old(memmap[..]) && memrdy == old(memrdy)
      ensures ptr != 0 ==>
        memrdy && memmap[..] == Free(old(memrdy), old(memmap[..]), FreeOffset(ptr, base), blkSize).table
    {
      if ptr == 0 {
        return;
      }
      var offset := CInt.Wrap32(ptr - base);
      var _ := MemFree(offset);
    }

    /** `mymalloc`: the address of the allocated block, or NULL (0). */
    method MyMalloc(size: nat) returns (ptr: nat)
      requires Valid() && size < CInt.U32
      modifies this, memmap
      ensures memrdy
      ensures var a := Malloc(Ready(old(memrdy), old(memmap[..])), size, blkSize);
        memmap[..] == a.table && ptr == if a.offset == Fail then 0 else base + a.offset
      ensures ptr != 0 ==> base <= ptr && ptr - base + size <= MemSize() && ptr < CInt.U32
    {
      var offset := MemMalloc(size);
      MallocCharacterised(Ready(old(memrdy), old(memmap[..])), size, blkSize);
      if offset == Fail {
        return 0;
      }
      return base + offset;
    }

    /**
     * `myrealloc`: a new block is allocated; on success `size` bytes are copied from the
     * old address and the old block is freed. On failure the old block stays allocated.
     * The bytes read are required to lie in the pool; copying from NULL is not modelled.
     */
    method MyRealloc(ptr: nat, size: nat) returns (r: nat)
      requires Valid() && ptr < CInt.U32 && size < CInt.U32
      requires ptr != 0 ==> base <= ptr && ptr - base + size <= MemSize()
      modifies this, memmap, pool
      ensures memrdy
      ensures var a := Malloc(Ready(old(memrdy), old(memmap[..])), size, blkSize);
        if a.offset == Fail then
          r == 0 && memmap[..] == a.table && pool[..] == old(pool[..])
        else if ptr == 0 then
          r == base + a.offset && memmap[..] == a.table && pool[..] == old(pool[..])
        else
          && r == base + a.offset
          && a.offset + size <= pool.Length
          && pool[..] == ForwardCopy(old(pool[..]), a.offset, ptr - base, size)
          && memmap[..] == Free(true, a.table, ptr - base, blkSize).table
    {
      ghost var m0 := Ready(old(memrdy), old(memmap[..]));
      ghost var a := Malloc(m0, size, blkSize);
      var offset := MemMalloc(size);
      assert offset == a.offset && memmap[..] == a.table;
      if offset == Fail {
        return 0;
      }
      MallocFits(m0, size, blkSize);
      assert offset + size <= pool.Length;
      ghost var p0 := pool[..];
      if ptr != 0 {
        MemCopy(pool, offset, ptr - base, size);
        assert pool[..] == ForwardCopy(p0, a.offset, ptr - base, size);
        AddressRoundTrip(base, ptr - base);
        assert FreeOffset(ptr, base) == ptr - base;
      }
      MyFree(ptr);
      return base + offset;
    }
  }
}
