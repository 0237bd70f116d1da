/**
 * The block-table allocator of lib/MALLOC/malloc.c, on values. The pool of
 * `tblSize * blkSize` bytes is split into `tblSize` blocks; the memory-map table holds
 * one entry per block: 0 for a free block, and for an allocated block the number of
 * blocks of the allocation it belongs to. The class in malloc.dfy is proved to follow
 * these functions; the lemmas state what the allocator promises.
 */
module MallocSpec {
  import opened Wrappers
  import CInt

  /**
   * One beyond the largest value a table entry (`MT_TYPE`, at its narrower choice
   * `uint16_t`) holds. The entries are modelled as naturals; a table shorter than
   * this never needs more.
   */
  const EntryLimit: nat := 0x1_0000

  /** The "no offset" value `my_mem_malloc` returns on failure. */
  const Fail: nat := 0xFFFF_FFFF

  /** Result of `my_mem_malloc`: the byte offset (or `Fail`) and the table afterwards. */
  datatype Alloc = Alloc(offset: nat, table: seq<nat>)

  /** Result of `my_mem_free`: the status code (0 ok, 1 uninitialised, 2 out of range) and the table. */
  datatype Freed = Freed(code: nat, table: seq<nat>)

  /** The number of blocks `size` bytes occupy: `size / blk`, plus one for a remainder. */
  function Blocks(size: nat, blk: nat): (n: nat)
    requires blk > 0
    ensures n * blk >= size
    ensures size > 0 ==> (n - 1) * blk < size
    ensures size > 0 <==> n > 0
  {
    var q := size / blk;
    var r := size % blk;
    assert size == q * blk + r;
    if r != 0 then
      assert (q + 1) * blk == q * blk + blk;
      q + 1
    else q
  }

  /** Entries `[o, o + k)` of `m` set to `v`, every other entry kept. */
  function Fill<T>(m: seq<T>, o: nat, k: nat, v: T): (r: seq<T>)
    requires o + k <= |m|
    ensures |r| == |m|
    ensures forall j :: 0 <= j < |m| ==> r[j] == if o <= j < o + k then v else m[j]
  {
    m[..o] + seq(k, _ => v) + m[o + k..]
  }

  /** The table as `my_mem_init` leaves it: every entry zero. */
  function Zeroed(m: seq<nat>): (r: seq<nat>)
    ensures |r| == |m| && forall j :: 0 <= j < |r| ==> r[j] == 0
  {
    Fill(m, 0, |m|, 0)
  }

  /** The table an operation works on after the lazy `my_mem_init` of an unready bank. */
  function Ready(ready: bool, m: seq<nat>): seq<nat>
  {
    if ready then m else Zeroed(m)
  }

  /** Blocks `[o, o + n)` exist and are all free. */
  predicate FreeRun(m: seq<nat>, o: nat, n: nat)
  {
    o + n <= |m| && forall k :: o <= k < o + n ==> m[k] == 0
  }

  /**
   * The length of the run of free entries starting at `i` and going up: the counter
   * `cmemb` of the top-down scan when it reaches `i`.
   */
  function RunLen(m: seq<nat>, i: nat): (n: nat)
    decreases |m| - i
    ensures i >= |m| ==> n == 0
    ensures i < |m| ==> i + n <= |m|
    ensures forall k :: i <= k < i + n ==> m[k] == 0
    ensures i + n < |m| ==> m[i + n] != 0
  {
    if i >= |m| then 0 else if m[i] == 0 then 1 + RunLen(m, i + 1) else 0
  }

  /** The highest block index below `hi` at which `n` free blocks start, if any. */
  function Fit(m: seq<nat>, n: nat, hi: nat): (r: Option<nat>)
    requires hi <= |m|
    ensures r.Some? ==> r.value < hi && FreeRun(m, r.value, n)
    ensures r.Some? ==> forall p: nat :: r.value < p < hi ==> !FreeRun(m, p, n)
    ensures r.None? ==> forall p: nat :: p < hi ==> !FreeRun(m, p, n)
  {
    if hi == 0 then None
    else if FreeRun(m, hi - 1, n) then Some(hi - 1)
    else Fit(m, n, hi - 1)
  }

  /** Every entry of an allocation of `n` blocks at `o` holds `n`. */
  function Stamp(m: seq<nat>, o: nat, n: nat): seq<nat>
    requires o + n <= |m|
  {
    Fill(m, o, n, n)
  }

  /**
   * The clearing loop of `my_mem_free`: `m[index]` entries from `index` on become 0.
   * The C loop does not stop at the end of the table; this one does.
   */
  function ClearRun(m: seq<nat>, index: nat): seq<nat>
    requires index < |m|
  {
    Fill(m, index, CInt.Min(m[index], |m| - index), 0)
  }

  /** `my_mem_malloc` on a ready table. */
  function Malloc(m: seq<nat>, size: nat, blk: nat): (a: Alloc)
    requires blk > 0
    ensures |a.table| == |m|
  {
    if size == 0 then Alloc(Fail, m)
    else
      var n := Blocks(size, blk);
      match Fit(m, n, |m|)
      case None => Alloc(Fail, m)
      case Some(o) => Alloc(o * blk, Stamp(m, o, n))
  }

  /** `my_mem_free`, lazy initialisation included. */
  function Free(ready: bool, m: seq<nat>, offset: nat, blk: nat): (f: Freed)
    requires blk > 0
    ensures |f.table| == |m|
    ensures f.code <= 2
    ensures f.code == 2 <==> ready && offset >= |m| * blk
    ensures f.code == 2 ==> f.table == m
  {
    if !ready then Freed(1, Zeroed(m))
    else if offset < |m| * blk then
      CInt.DivBelow(offset, blk, |m|);
      Freed(0, ClearRun(m, offset / blk))
    else Freed(2, m)
  }

  /** The number of nonzero (used) entries. */
  function CountUsed(m: seq<nat>): (c: nat)
    ensures c <= |m|
    ensures c == 0 <==> forall j :: 0 <= j < |m| ==> m[j] == 0
  {
    if |m| == 0 then 0
    else CountUsed(m[..|m| - 1]) + (if m[|m| - 1] != 0 then 1 else 0)
  }

  /**
   * `my_mem_perused`: `used * 1000 / tblsize` in `uint32_t` arithmetic, returned as a
   * `uint16_t`.
   */
  function Perused(m: seq<nat>): (r: nat)
    requires |m| > 0
    ensures r < 0x1_0000
  {
    UsageOf(CountUsed(m), |m|)
  }

  /** `used * 1000 / size` computed as `my_mem_perused` does: 32-bit product, 16-bit result. */
  function UsageOf(used: nat, size: nat): (r: nat)
    requires size > 0
    ensures r < 0x1_0000
  {
    (CInt.Wrap32(used * 1000) / size) % 0x1_0000
  }

  /**
   * `my_mem_copy` as a byte-by-byte forward copy within one memory: byte `k` of the
   * destination is written from byte `k` of the source after the writes before it, so
   * an overlapping source with `s < d` sees bytes already overwritten.
   */
  function ForwardCopy(m: seq<bv8>, d: nat, s: nat, n: nat): (r: seq<bv8>)
    requires d + n <= |m| && s + n <= |m|
    ensures |r| == |m|
    ensures forall j :: 0 <= j < |m| && !(d <= j < d + n) ==> r[j] == m[j]
  {
    if n == 0 then m
    else
      var p := ForwardCopy(m, d, s, n - 1);
      p[d + n - 1 := p[s + n - 1]]
  }

  /** The offset `myfree` hands to `my_mem_free`: `ptr - base` in `uint32_t` arithmetic. */
  function FreeOffset(ptr: nat, base: nat): nat
  {
    CInt.Wrap32(ptr - base)
  }

  /* ---------------------------------------------------------------- lemmas */

  /** A free run after an index `o` is a run starting at `o` that is at least as long. */
  lemma FreeRunIffRunLen(m: seq<nat>, o: nat, n: nat)
    requires o < |m|
    ensures FreeRun(m, o, n) <==> RunLen(m, o) >= n
  {
  }

  /** `my_mem_init` clears every entry: nothing is in use afterwards. */
  lemma InitLeavesNothingUsed(m: seq<nat>)
    requires |m| > 0
    ensures CountUsed(Zeroed(m)) == 0 && Perused(Zeroed(m)) == 0
  {
  }

  /** With at most 4294967 entries `used * 1000` does not wrap, and the usage is at most 1000. */
  lemma PerusedBounded(m: seq<nat>)
    requires 0 < |m| && |m| * 1000 < CInt.U32
    ensures Perused(m) == CountUsed(m) * 1000 / |m|
    ensures Perused(m) <= 1000
    ensures Perused(m) == 1000 <==> forall j :: 0 <= j < |m| ==> m[j] != 0
  {
    PerMille(CountUsed(m), |m|);
    CountAllUsed(m);
  }

  /** `c * 1000 / len` for `c <= len`: no wrap-around, at most 1000, and 1000 exactly when `c == len`. */
  lemma PerMille(c: nat, len: nat)
    requires 0 < len && c <= len && len * 1000 < CInt.U32
    ensures UsageOf(c, len) == c * 1000 / len
    ensures c * 1000 / len <= 1000
    ensures c * 1000 / len == 1000 <==> c == len
  {
    CInt.MulMono(c, len, 1000);
    assert CInt.Wrap32(c * 1000) == c * 1000;
    CInt.DivAtMost(c * 1000, len, 1000);
    if c < len {
      CInt.MulMono(c + 1, len, 1000);
      CInt.DivBelow(c * 1000, len, 1000);
    } else {
      DivExact(1000, len);
    }
  }

  lemma DivExact(n: nat, b: nat)
    requires b > 0
    ensures b * n / b == n && (b * n) % b == 0
  {
    var q := b * n / b;
    var r := (b * n) % b;
    assert b * n == q * b + r && 0 <= r < b;
    if q < n {
      CInt.MulMono(q + 1, n, b);
    } else if q > n {
      CInt.MulMono(n + 1, q, b);
    }
  }

  /** All entries are used exactly when the count reaches the table length. */
  lemma {:induction false} CountAllUsed(m: seq<nat>)
    ensures CountUsed(m) == |m| <==> forall j :: 0 <= j < |m| ==> m[j] != 0
  {
    if |m| > 0 {
      var init := m[..|m| - 1];
      CountAllUsed(init);
      assert forall j :: 0 <= j < |init| ==> init[j] == m[j];
    }
  }

  /**
   * What `my_mem_malloc` promises. A zero size fails with the table unchanged. Otherwise
   * it needs `ceil(size / blk)` blocks, and it succeeds exactly when some free run of
   * that length exists: it takes the highest one, returns its byte offset (inside the
   * pool, the whole request fitting), and stamps exactly that run with the block count.
   */
  lemma MallocCharacterised(m: seq<nat>, size: nat, blk: nat)
    requires blk > 0 && |m| * blk < Fail
    ensures var a := Malloc(m, size, blk);
      var n := Blocks(size, blk);
      && (size == 0 ==> a == Alloc(Fail, m))
      && (size > 0 && (forall p: nat :: p < |m| ==> !FreeRun(m, p, n)) ==> a == Alloc(Fail, m))
      && (size > 0 && (exists p: nat :: p < |m| && FreeRun(m, p, n)) ==> a.offset != Fail)
      && (a.offset != Fail ==>
            && size > 0
            && a.offset % blk == 0
            && FreeRun(m, a.offset / blk, n)
            && (forall p: nat :: a.offset / blk < p < |m| ==> !FreeRun(m, p, n))
            && a.offset + size <= |m| * blk
            && (forall j :: 0 <= j < |m| ==>
                  a.table[j] == if a.offset / blk <= j < a.offset / blk + n then n else m[j]))
  {
    if size > 0 {
      var n := Blocks(size, blk);
      match Fit(m, n, |m|)
      case None =>
      case Some(o) =>
        BlockOffset(o, n, |m|, blk, size);
    }
  }

  /**
   * With fewer than `EntryLimit` blocks, every entry `my_mem_malloc` writes fits in
   * `MT_TYPE`: the 16-bit store keeps the block count whole.
   */
  lemma MallocEntriesFit(m: seq<nat>, size: nat, blk: nat)
    requires blk > 0 && |m| * blk < Fail && |m| < EntryLimit
    requires forall j :: 0 <= j < |m| ==> m[j] < EntryLimit
    ensures forall j :: 0 <= j < |m| ==> Malloc(m, size, blk).table[j] < EntryLimit
  {
    MallocCharacterised(m, size, blk);
  }

  /** The byte offset of block `o` of a request of `n` blocks that fits below `tbl`. */
  lemma BlockOffset(o: nat, n: nat, tbl: nat, blk: nat, size: nat)
    requires blk > 0 && o + n <= tbl && tbl * blk < Fail && size <= n * blk
    ensures o * blk / blk == o && (o * blk) % blk == 0
    ensures o * blk + size <= tbl * blk && o * blk < Fail
    ensures n > 0 ==> o * blk < tbl * blk
  {
    DivExact(o, blk);
    assert blk * o == o * blk;
    CInt.MulMono(o + n, tbl, blk);
    Distribute(o, n, blk);
    if n > 0 {
      CInt.MulMono(1, n, blk);
    }
  }

  lemma Distribute(a: nat, b: nat, c: nat)
    ensures (a + b) * c == a * c + b * c
  {
  }

  /** A free run with no free run above it is the one `Fit` finds. */
  lemma FitIsHighest(m: seq<nat>, n: nat, o: nat)
    requires o < |m| && FreeRun(m, o, n) && forall p: nat :: o < p < |m| ==> !FreeRun(m, p, n)
    ensures Fit(m, n, |m|) == Some(o)
  {
  }

  /** With no free run anywhere, `Fit` finds nothing. */
  lemma NoFit(m: seq<nat>, n: nat, hi: nat)
    requires hi <= |m| && forall p: nat :: p < hi ==> !FreeRun(m, p, n)
    ensures Fit(m, n, hi) == None
  {
  }

  /** A successful allocation lies inside the pool, the whole request included. */
  lemma MallocFits(m: seq<nat>, size: nat, blk: nat)
    requires blk > 0 && |m| * blk < Fail
    ensures var a := Malloc(m, size, blk); a.offset != Fail ==> a.offset + size <= |m| * blk
  {
    MallocCharacterised(m, size, blk);
  }

  /** A free run of `n >= 1` blocks stamped and then cleared from its first block is restored. */
  lemma StampThenClear(m: seq<nat>, o: nat, n: nat)
    requires FreeRun(m, o, n) && n > 0
    ensures ClearRun(Stamp(m, o, n), o) == m
  {
    var s := Stamp(m, o, n);
    assert s[o] == n;
    var c := ClearRun(s, o);
    assert |c| == |m|;
    forall j | 0 <= j < |m|
      ensures c[j] == m[j]
    {
    }
  }

  /** malloc followed by a free of the returned offset restores the table it started from. */
  lemma MallocThenFree(m: seq<nat>, size: nat, blk: nat)
    requires blk > 0 && |m| * blk < Fail
    ensures var a := Malloc(m, size, blk);
      a.offset != Fail ==> Free(true, a.table, a.offset, blk) == Freed(0, m)
  {
    var a := Malloc(m, size, blk);
    MallocCharacterised(m, size, blk);
    if a.offset != Fail {
      var n := Blocks(size, blk);
      var o := a.offset / blk;
      assert a.offset == o * blk;
      assert a.table == Stamp(m, o, n);
      assert a.offset < |m| * blk;
      StampThenClear(m, o, n);
    }
  }

  /** Freeing the first block of an allocation clears exactly that allocation's entries. */
  lemma FreeClearsAllocation(m: seq<nat>, o: nat, n: nat, blk: nat)
    requires blk > 0 && n > 0 && o + n <= |m|
    requires forall j :: o <= j < o + n ==> m[j] == n
    ensures var f := Free(true, m, o * blk, blk);
      f.code == 0 &&
      forall j :: 0 <= j < |m| ==> f.table[j] == if o <= j < o + n then 0 else m[j]
  {
    CInt.MulMono(o + 1, |m|, blk);
    assert (o + 1) * blk == o * blk + blk;
    DivExact(o, blk);
  }

  /** A pointer below the pool base wraps to an offset past the pool, which `my_mem_free` rejects. */
  lemma PtrBelowBaseRejected(m: seq<nat>, ptr: nat, base: nat, blk: nat)
    requires blk > 0 && ptr < base && base + |m| * blk < CInt.U32
    ensures FreeOffset(ptr, base) == ptr - base + CInt.U32
    ensures Free(true, m, FreeOffset(ptr, base), blk) == Freed(2, m)
  {
    var x := ptr - base;
    assert -CInt.U32 < x < 0;
    assert x % CInt.U32 == x + CInt.U32;
  }

  /** The address `mymalloc` returns maps back to the offset `my_mem_malloc` produced. */
  lemma AddressRoundTrip(base: nat, offset: nat)
    requires base + offset < CInt.U32
    ensures FreeOffset(base + offset, base) == offset
  {
  }

  /** Without overlap, `my_mem_copy` makes the `n` destination bytes equal to the source bytes. */
  lemma {:induction false} ForwardCopyDisjoint(m: seq<bv8>, d: nat, s: nat, n: nat)
    requires d + n <= |m| && s + n <= |m|
    requires s + n <= d || d + n <= s
    ensures forall j :: d <= j < d + n ==> ForwardCopy(m, d, s, n)[j] == m[s + (j - d)]
  {
    if n > 0 {
      ForwardCopyDisjoint(m, d, s, n - 1);
      var p := ForwardCopy(m, d, s, n - 1);
      assert p[s + n - 1] == m[s + n - 1];
      var r := ForwardCopy(m, d, s, n);
      assert r == p[d + n - 1 := p[s + n - 1]];
      forall j | d <= j < d + n
        ensures r[j] == m[s + (j - d)]
      {
        if j < d + n - 1 {
          assert r[j] == p[j];
        }
      }
    }
  }

  /** With the destination one byte past the source, the forward copy smears the first byte. */
  lemma ForwardCopySmears(m: seq<bv8>)
    requires |m| == 3 && m[0] != m[1]
    ensures ForwardCopy(m, 1, 0, 2) == [m[0], m[0], m[0]]
  {
    var p1 := ForwardCopy(m, 1, 0, 1);
    assert ForwardCopy(m, 1, 0, 0) == m;
    assert p1 == m[1 := m[0]];
  }
}
