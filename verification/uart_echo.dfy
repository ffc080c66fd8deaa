/** uart_int/src/main.c: every line received on the console UART is printed
    back as "Received: <line>". The printed text is the C string in `rx_buf`
    at the moment the terminator arrives. */
module UartEcho {
  import opened CStrings
  import opened LineAssembler

  /** `rx_buf` and `rx_pos`. */
  class LineReceiver {
    const rxBuf: array<byte>
    var rxPos: nat

    ghost predicate Valid()
      reads this
    {
      rxBuf.Length == RX_BUF_SIZE && rxPos < RX_BUF_SIZE
    }

    /** The line assembled so far. */
    function Line(): seq<byte>
      reads this, rxBuf
      requires Valid()
    {
      rxBuf[..rxPos]
    }

    /** The static buffer starts zeroed with `rx_pos = 0`. */
    constructor ()
      ensures Valid() && fresh(rxBuf)
      ensures Line() == []
    {
      rxBuf := new byte[RX_BUF_SIZE](_ => NUL);
      rxPos := 0;
    }

    /** One pass of uart_cb's loop: the byte `ch` read from the FIFO, and
        the line printed for it, if it is a terminator. */
    method ReceiveByte(ch: byte) returns (printed: seq<seq<byte>>)
      requires Valid()
      modifies this, rxBuf
      ensures Valid()
      ensures Line() == Receive(Assembled(old(Line()), []), ch).line
      ensures printed == if IsTerminator(ch) then [CStr(old(Line()))] else []
    {
      printed := [];
      if ch == LF || ch == CR {
        rxBuf[rxPos] := NUL;
        CStrStopsAtNul(rxBuf[..], rxPos);
        assert rxBuf[..][..rxPos] == old(Line());
        printed := [CStr(rxBuf[..])];
        rxPos := 0;
      } else if rxPos < RX_BUF_SIZE - 1 {
        rxBuf[rxPos] := ch;
        rxPos := rxPos + 1;
        assert Line() == old(Line()) + [ch];
      }
    }

    /** uart_cb, reading `bytes` from the receive FIFO. `printed` holds the
        `%s` argument of each "Received: %s\n", in order: one per terminator,
        each the C string of the line completed there. From an empty buffer
        these are the reference lines of the stream. */
    method UartCb(bytes: seq<byte>) returns (printed: seq<seq<byte>>)
      requires Valid()
      modifies this, rxBuf
      ensures Valid()
      ensures Line() == Assemble(old(Line()), bytes).line
      ensures printed == CStrs(Assemble(old(Line()), bytes).completed)
      ensures |printed| == CountTerminators(bytes)
      ensures old(Line()) == [] ==> printed == CStrs(Lines(bytes)) && Line() == Truncate(Unterminated(bytes))
    {
      ghost var line0 := Line();
      printed := [];
      var i := 0;
      while i < |bytes|
        invariant i <= |bytes|
        invariant Valid()
        invariant Line() == Assemble(line0, bytes[..i]).line
        invariant printed == CStrs(Assemble(line0, bytes[..i]).completed)
      {
        assert bytes[..i + 1][..i] == bytes[..i];
        ghost var before := Assemble(line0, bytes[..i]);
        var out := ReceiveByte(bytes[i]);
        printed := printed + out;
        CStrsAppend(before.completed, [before.line]);
        i := i + 1;
      }
      assert bytes[..i] == bytes;
      if line0 == [] {
        AssembleMatchesLines(bytes);
      }
    }
  }
}
