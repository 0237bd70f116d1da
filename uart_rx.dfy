/**
 * The receive path of Core/Src/uart_rx_task.c on values: the 256-byte line buffer,
 * its length and the ready flag, as the receive-complete interrupt and the receive
 * task change them. The class in uart_rx_task.dfy follows these functions.
 */
module UartRxSpec {
  import CInt
  import Log

  const BufferSize: nat := 256
  /** The most bytes a line holds; the last buffer entry is kept for the NUL. */
  const MaxLen: nat := BufferSize - 1

  datatype RxState = RxState(buf: seq<bv8>, len: nat, ready: bool)

  predicate Valid(st: RxState)
  {
    |st.buf| == BufferSize && st.len <= MaxLen
  }

  /** The bytes that end a line. */
  predicate IsLineEnd(b: bv8)
  {
    b == 10 || b == 13
  }

  /** `UART_Start_Receive`: the length is reset; the ready flag is left as it is. */
  function Start(st: RxState): (t: RxState)
    ensures t.len == 0 && t.buf == st.buf && t.ready == st.ready
  {
    st.(len := 0)
  }

  /**
   * `HAL_UART_RxCpltCallback` for one byte `b`: ignored for any UART other than USART1
   * and once the line is full; otherwise stored at the end of the line, and on a line
   * end or a full line the line is NUL-terminated and marked ready.
   */
  function RxByte(st: RxState, isUsart1: bool, b: bv8): (t: RxState)
    requires Valid(st)
    ensures Valid(t)
    ensures !isUsart1 || st.len == MaxLen ==> t == st
    ensures isUsart1 && st.len < MaxLen ==>
      && t.len == st.len + 1 && t.buf[st.len] == b
      && (forall i :: 0 <= i < BufferSize && i != st.len && i != t.len ==> t.buf[i] == st.buf[i])
      && (t.ready <==> st.ready || IsLineEnd(b) || t.len == MaxLen)
      && (IsLineEnd(b) || t.len == MaxLen ==> t.buf[t.len] == 0)
      && (!IsLineEnd(b) && t.len < MaxLen ==> t.buf[t.len] == st.buf[t.len])
  {
    if !isUsart1 || st.len >= MaxLen then st
    else
      var n := st.len + 1;
      var stored := st.buf[st.len := b];
      if IsLineEnd(b) || n >= MaxLen then RxState(stored[n := 0], n, true)
      else RxState(stored, n, st.ready)
  }

  /** The USART1 bytes `bytes` arriving one after the other. */
  function Feed(st: RxState, bytes: seq<bv8>): (t: RxState)
    requires Valid(st)
    ensures Valid(t)
  {
    if |bytes| == 0 then st else RxByte(Feed(st, bytes[..|bytes| - 1]), true, bytes[|bytes| - 1])
  }

  /** `%02X`. */
  function Hex2(b: bv8): (s: string)
    ensures |s| == 2
  {
    [HexDigit((b as int) / 16), HexDigit((b as int) % 16)]
  }

  function HexDigit(d: nat): char
    requires d < 16
  {
    if d < 10 then (48 + d) as char else (55 + d) as char
  }

  function HexValue(c: char): int
  {
    if '0' <= c <= '9' then c as int - 48 else c as int - 55
  }

  /** The bytes as the receive task prints them: each as `%02X` and a blank. */
  function HexDump(bytes: seq<bv8>): (s: string)
    ensures |s| == 3 * |bytes|
  {
    if |bytes| == 0 then [] else HexDump(bytes[..|bytes| - 1]) + Hex2(bytes[|bytes| - 1]) + " "
  }

  /** The report the receive task prints for a line. */
  function Report(line: seq<bv8>): string
  {
    "Received " + Log.Decimal(|line|) + " bytes: " + HexDump(line) + "\r\n"
  }

  /** One step of the receive task: the new state, the bytes echoed and the text printed. */
  datatype Step = Step(st: RxState, echo: seq<bv8>, printed: string)

  /** A pass of the receive task loop: a ready line is reported, echoed and discarded. */
  function TaskStep(st: RxState): (s: Step)
    requires Valid(st)
    ensures Valid(s.st)
    ensures !st.ready ==> s == Step(st, [], "")
    ensures st.ready ==> !s.st.ready && s.st.len == 0 && s.st.buf == st.buf && s.echo == st.buf[..st.len]
  {
    if st.ready then Step(RxState(st.buf, 0, false), st.buf[..st.len], Report(st.buf[..st.len]))
    else Step(st, [], "")
  }

  /* ---------------------------------------------------------------- lemmas */

  /** A byte received with room to spare is appended to the stored line. */
  lemma StoreStep(st: RxState, b: bv8)
    requires Valid(st) && st.len < MaxLen
    ensures var t := RxByte(st, true, b);
      t.len == st.len + 1 && t.buf[..t.len] == st.buf[..st.len] + [b]
  {
    var t := RxByte(st, true, b);
    assert forall i :: 0 <= i < st.len ==> t.buf[i] == st.buf[i];
  }

  /**
   * After a reset, the stored bytes are the bytes received, in order, up to the
   * capacity of the line: the first 255 are kept and the rest are dropped.
   */
  lemma {:induction false} FeedStoresPrefix(st: RxState, bytes: seq<bv8>)
    requires Valid(st) && st.len == 0
    ensures var t := Feed(st, bytes);
      t.len == CInt.Min(|bytes|, MaxLen) && t.buf[..t.len] == bytes[..t.len]
  {
    if |bytes| > 0 {
      var init := bytes[..|bytes| - 1];
      FeedStoresPrefix(st, init);
      var p := Feed(st, init);
      var t := Feed(st, bytes);
      if p.len < MaxLen {
        var b := bytes[|bytes| - 1];
        StoreStep(p, b);
        assert bytes[..p.len + 1] == init[..p.len] + [b];
      } else {
        assert init[..p.len] == bytes[..p.len];
      }
    }
  }

  /**
   * After a reset, a line end among the stored bytes, or a full line, leaves the line
   * marked ready.
   */
  lemma {:induction false} FeedReady(st: RxState, bytes: seq<bv8>)
    requires Valid(st) && st.len == 0
    ensures var t := Feed(st, bytes);
      (exists i :: 0 <= i < t.len && i < |bytes| && IsLineEnd(bytes[i])) || t.len == MaxLen ==> t.ready
  {
    if |bytes| > 0 {
      var init := bytes[..|bytes| - 1];
      FeedReady(st, init);
      FeedStoresPrefix(st, init);
      FeedStoresPrefix(st, bytes);
      var p := Feed(st, init);
      var t := Feed(st, bytes);
      if p.len < MaxLen {
        if exists i :: 0 <= i < t.len && i < |bytes| && IsLineEnd(bytes[i]) {
          var i :| 0 <= i < t.len && i < |bytes| && IsLineEnd(bytes[i]);
          if i < p.len {
            assert IsLineEnd(init[i]);
          }
        }
      }
    }
  }

  /** The length never exceeds 255, so the NUL always lands inside the 256-byte buffer. */
  lemma LenBounded(st: RxState, bytes: seq<bv8>)
    requires Valid(st)
    ensures Feed(st, bytes).len <= MaxLen < BufferSize
  {
  }

  /**
   * A complete exchange: after a reset, the bytes that arrive; if they form a ready line,
   * the receive task echoes exactly the stored prefix and reports its length, and a second pass
   * of the receive task does nothing.
   */
  lemma EchoAfterLine(st: RxState, bytes: seq<bv8>)
    requires Valid(st) && st.len == 0 && !st.ready
    requires exists i :: 0 <= i < |bytes| && i < MaxLen && IsLineEnd(bytes[i])
    ensures var s := TaskStep(Feed(st, bytes));
      && s.echo == bytes[..CInt.Min(|bytes|, MaxLen)]
      && s.printed == Report(bytes[..CInt.Min(|bytes|, MaxLen)])
      && s.st.len == 0 && !s.st.ready
      && TaskStep(s.st) == Step(s.st, [], "")
  {
    FeedStoresPrefix(st, bytes);
    FeedReady(st, bytes);
  }

  /** `%02X` is read back by its hexadecimal parse. */
  lemma Hex2RoundTrip(b: bv8)
    ensures HexValue(Hex2(b)[0]) * 16 + HexValue(Hex2(b)[1]) == b as int
  {
  }

  /** The printed dump has the `%02X` form of byte `k` at `3 * k`, followed by a blank. */
  lemma {:induction false} HexDumpAt(bytes: seq<bv8>, k: nat)
    requires k < |bytes|
    ensures HexDump(bytes)[3 * k..3 * k + 2] == Hex2(bytes[k]) && HexDump(bytes)[3 * k + 2] == ' '
  {
    var init := bytes[..|bytes| - 1];
    var d := HexDump(bytes);
    assert d == HexDump(init) + Hex2(bytes[|bytes| - 1]) + " ";
    if k < |bytes| - 1 {
      HexDumpAt(init, k);
      assert d[3 * k..3 * k + 2] == HexDump(init)[3 * k..3 * k + 2];
    }
  }
}
