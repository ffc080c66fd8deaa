/** uart/src/main.c: lines received on the console UART are commands for the
    LED. `process_command` compares the received C string with "LED ON",
    "LED OFF" and "TOGGLE" using `strcmp`; the LED is the output level the
    model keeps as a boolean. */
module UartLed {
  import opened CStrings
  import opened LineAssembler

  /** "LED ON" */
  const LED_ON: seq<byte> := [0x4C, 0x45, 0x44, 0x20, 0x4F, 0x4E]
  /** "LED OFF" */
  const LED_OFF: seq<byte> := [0x4C, 0x45, 0x44, 0x20, 0x4F, 0x46, 0x46]
  /** "TOGGLE" */
  const TOGGLE: seq<byte> := [0x54, 0x4F, 0x47, 0x47, 0x4C, 0x45]

  /** The LED after process_command(cmd): set, cleared, inverted, or, for a
      string that is none of the three exactly, left alone ("Error command
      not found"). */
  function ProcessCommand(cmd: seq<byte>, led: bool): (r: bool)
    ensures cmd == LED_ON ==> r
    ensures cmd == LED_OFF ==> !r
    ensures cmd == TOGGLE ==> r == !led
    ensures cmd != LED_ON && cmd != LED_OFF && cmd != TOGGLE ==> r == led
  {
    if cmd == LED_ON then true
    else if cmd == LED_OFF then false
    else if cmd == TOGGLE then !led
    else led
  }

  /** "LED ON" and "LED OFF" are idempotent and "TOGGLE" undoes itself. */
  lemma CommandAlgebra(led: bool)
    ensures ProcessCommand(LED_ON, ProcessCommand(LED_ON, led)) == ProcessCommand(LED_ON, led)
    ensures ProcessCommand(LED_OFF, ProcessCommand(LED_OFF, led)) == ProcessCommand(LED_OFF, led)
    ensures ProcessCommand(TOGGLE, ProcessCommand(TOGGLE, led)) == led
  {
  }

  /** Matching is `strcmp`, not a prefix match: a command followed by more
      bytes of the C string, or cut short, is not found and leaves the LED alone. */
  lemma MatchIsExact(cmd: seq<byte>, t: seq<byte>, n: nat, led: bool)
    requires cmd == LED_ON || cmd == LED_OFF || cmd == TOGGLE
    requires NUL !in t
    ensures t != [] ==> ProcessCommand(cmd + t, led) == led
    ensures n < |cmd| ==> ProcessCommand(cmd[..n], led) == led
  {
    var s := cmd + t;
    if t != [] {
      if cmd == LED_ON {
        assert s[5] != LED_OFF[5] && s[0] != TOGGLE[0];
      } else if cmd == TOGGLE {
        assert s[0] != LED_OFF[0];
      }
    }
    if n < |cmd| && cmd == LED_OFF && n == 6 {
      assert cmd[..n][5] != LED_ON[5] && cmd[..n][0] != TOGGLE[0];
    }
  }

  /** Matching is case-sensitive: "led on" is not found. */
  lemma MatchIsCaseSensitive(led: bool)
    ensures ProcessCommand([0x6C, 0x65, 0x64, 0x20, 0x6F, 0x6E], led) == led
  {
  }

  /** The command is the C string in `rx_buf`: a NUL byte received inside a
      line ends the command there, whatever follows it. */
  lemma NulEndsCommand(junk: seq<byte>, led: bool)
    ensures ProcessCommand(CStr(LED_ON + [NUL] + junk), led)
  {
    CStrBeforeTerminator(LED_ON, junk);
    CStrOfNulFree(LED_ON);
  }

  /** The LED after process_command has run on each completed line in turn. */
  function Dispatch(led: bool, lines: seq<seq<byte>>): bool
  {
    if lines == [] then led
    else ProcessCommand(CStr(lines[|lines| - 1]), Dispatch(led, lines[..|lines| - 1]))
  }

  /** The empty line that the '\n' of "\r\n" completes leaves the LED as the
      preceding command left it. */
  lemma CrLfDispatch(led: bool, line: seq<byte>)
    ensures Dispatch(led, Assemble(line, [CR, LF]).completed) == ProcessCommand(CStr(line), led)
  {
    CrLfCompletesEmptyLine(line);
    var lines: seq<seq<byte>> := [line, []];
    assert lines[..1] == [line] && [line][..0] == [];
    assert Dispatch(led, [line]) == ProcessCommand(CStr(line), led);
    assert CStr([]) == [];
  }

  /** `rx_buf`, `rx_pos` and the LED. */
  class CommandReceiver {
    const rxBuf: array<byte>
    var rxPos: nat
    var led: bool

    ghost predicate Valid()
      reads this
    {
      rxBuf.Length == RX_BUF_SIZE && rxPos < RX_BUF_SIZE
    }

    /** The line assembled so far. */
    function Line(): seq<byte>
      reads this, rxBuf
      requires Valid()
    {
      rxBuf[..rxPos]
    }

    /** The static buffer starts zeroed with `rx_pos = 0`; `main` configures the
        LED pin inactive. */
    constructor ()
      ensures Valid() && fresh(rxBuf)
      ensures Line() == [] && !led
    {
      rxBuf := new byte[RX_BUF_SIZE](_ => NUL);
      rxPos := 0;
      led := false;
    }

    /** One pass of uart_cb's loop: the byte `c` read from the FIFO. */
    method ReceiveByte(c: byte)
      requires Valid()
      modifies this, rxBuf
      ensures Valid()
      ensures Line() == Receive(Assembled(old(Line()), []), c).line
      ensures led == if IsTerminator(c) then ProcessCommand(CStr(old(Line())), old(led)) else old(led)
    {
      if c == LF || c == CR {
        rxBuf[rxPos] := NUL;
        CStrStopsAtNul(rxBuf[..], rxPos);
        assert rxBuf[..][..rxPos] == old(Line());
        led := ProcessCommand(CStr(rxBuf[..]), led);
        rxPos := 0;
      } else if rxPos < RX_BUF_SIZE - 1 {
        rxBuf[rxPos] := c;
        rxPos := rxPos + 1;
        assert Line() == old(Line()) + [c];
      }
    }

    /** uart_cb, reading `bytes` from the receive FIFO: appends, terminates and
        dispatches lines as Assemble describes, keeping `rx_pos` within
        0..RX_BUF_SIZE-1. */
    method UartCb(bytes: seq<byte>)
      requires Valid()
      modifies this, rxBuf
      ensures Valid()
      ensures Line() == Assemble(old(Line()), bytes).line
      ensures led == Dispatch(old(led), Assemble(old(Line()), bytes).completed)
      ensures old(Line()) == [] ==> led == Dispatch(old(led), Lines(bytes))
    {
      ghost var line0 := Line();
      var i := 0;
      while i < |bytes|
        invariant i <= |bytes|
        invariant Valid()
        invariant Line() == Assemble(line0, bytes[..i]).line
        invariant led == Dispatch(old(led), Assemble(line0, bytes[..i]).completed)
      {
        assert bytes[..i + 1][..i] == bytes[..i];
        ReceiveByte(bytes[i]);
        i := i + 1;
      }
      assert bytes[..i] == bytes;
      if line0 == [] {
        AssembleMatchesLines(bytes);
      }
    }
  }
}
