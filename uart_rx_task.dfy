/**
 * The receive task of Core/Src/uart_rx_task.c as an object: the static line buffer,
 * its length and ready flag, updated in place by the receive-complete interrupt and by
 * the receive task. Each interrupt and each pass of the receive task runs to completion before the
 * next (interleaving inside them is not modelled). What the receive task prints and what it
 * transmits back are kept as the `console` and `sent` sequences.
 */
module UartRxTask {
  import opened UartRxSpec
  import Log

  class Receiver {
    const buffer: array<bv8>
    var len: nat
    var ready: bool
    var console: seq<char>
    var sent: seq<bv8>

    ghost function State(): RxState
      reads this, buffer
    {
      RxState(buffer[..], len, ready)
    }

    ghost predicate Valid()
      reads this, buffer
    {
      UartRxSpec.Valid(State())
    }

    /** The zero-initialised statics. */
    constructor ()
      ensures Valid() && len == 0 && !ready && console == [] && sent == [] && fresh(buffer)
    {
      buffer := new bv8[BufferSize];
      len, ready, console, sent := 0, false, [], [];
    }

    /** `UART_Start_Receive` (the re-arming of the one-byte reception is the HAL's). */
    method StartReceive()
      requires Valid()
      modifies this
      ensures Valid() && State() == Start(old(State()))
      ensures console == old(console) && sent == old(sent)
    {
      len := 0;
    }

    /** `HAL_UART_RxCpltCallback` with the received byte `b`. */
    method RxComplete(isUsart1: bool, b: bv8)
      requires Valid()
      modifies this, buffer
      ensures Valid() && State() == RxByte(old(State()), isUsart1, b)
      ensures console == old(console) && sent == old(sent)
    {
      if isUsart1 {
        if len < MaxLen {
          buffer[len] := b;
          len := len + 1;
          if IsLineEnd(b) || len >= MaxLen {
            buffer[len] := 0;
            ready := true;
          }
        }
      }
    }

    /** One pass of the loop in `StartUartRxTask` (the 10 ms delay is left out). */
    method TaskStep()
      requires Valid()
      modifies this
      ensures Valid()
      ensures var s := UartRxSpec.TaskStep(old(State()));
        State() == s.st && sent == old(sent) + s.echo && console == old(console) + s.printed
    {
      if !ready {
        return;
      }
      ready := false;
      var rxLen := len;
      ghost var c0 := console;
      console := console + ("Received " + Log.Decimal(rxLen) + " bytes: ");
      PrintHex(rxLen);
      console := console + "\r\n";
      assert console == c0 + Report(buffer[..rxLen]);
      sent := sent + buffer[..rxLen];
      len := 0;
    }

    /** The `printf("%02X ", ...)` loop over the first `n` bytes of the line. */
    method PrintHex(n: nat)
      requires n <= buffer.Length
      modifies this
      ensures console == old(console) + HexDump(buffer[..n])
      ensures len == old(len) && ready == old(ready) && sent == old(sent)
    {
      var i := 0;
      while i < n
        invariant 0 <= i <= n
        invariant console == old(console) + HexDump(buffer[..i])
        invariant len == old(len) && ready == old(ready) && sent == old(sent)
      {
        assert buffer[..i + 1][..i] == buffer[..i];
        console := console + Hex2(buffer[i]) + " ";
        i := i + 1;
      }
    }
  }
}
