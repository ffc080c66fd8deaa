/** The custom GATT service of the Bluetooth peripheral sample: the write
    handler of characteristic 2 over its 32-byte value buffer, and the
    CONNECTED/DISCONNECTED state bits that the connection callbacks set and
    that the event loop of bluetooth/peripheral/src/gatt.c tests and clears. */
module Gatt {
  import opened CStrings

  /** Size of `char2_value`. */
  const MAX_LENGTH := 32
  /** ATT "Invalid Offset" (Bluetooth Core Specification, Vol 3, Part F, section 3.4.1.1). */
  const BT_ATT_ERR_INVALID_OFFSET := 0x07
  /** `len` and `offset` arrive as `uint16_t`. */
  const UINT16_LIMIT := 0x1_0000

  /** BT_GATT_ERR: a GATT callback reports an ATT error as its negation. */
  function GattErr(attErr: nat): (r: int)
    ensures r < 0 <==> attErr > 0
  {
    -(attErr as int)
  }

  /** The guard of write_char2: the write and its terminator must leave the
      last byte of the buffer free, `offset + len <= MAX_LENGTH - 1`. */
  predicate Accepts(offset: nat, len: nat): (r: bool)
    ensures r <==> offset + len < MAX_LENGTH
  {
    !(offset + len > MAX_LENGTH - 1)
  }

  /** The buffer `v` after `memcpy(v + offset, buf, len)` and `v[offset + len] = '\0'`. */
  function Overwrite(v: seq<byte>, buf: seq<byte>, offset: nat): (r: seq<byte>)
    requires offset + |buf| < |v|
    ensures |r| == |v|
    ensures forall i :: 0 <= i < offset ==> r[i] == v[i]
    ensures forall i :: 0 <= i < |buf| ==> r[offset + i] == buf[i]
    ensures r[offset + |buf|] == NUL
    ensures forall i :: offset + |buf| < i < |v| ==> r[i] == v[i]
  {
    v[..offset] + buf + [NUL] + v[offset + |buf| + 1..]
  }

  /** Reading the buffer back as a C string after a write, as the handler's
      log line does, shows the bytes in front of `offset` followed by the new
      data, cut at the first NUL. */
  lemma OverwriteReadsBack(v: seq<byte>, buf: seq<byte>, offset: nat)
    requires offset + |buf| < |v|
    ensures CStr(Overwrite(v, buf, offset)) == CStr(v[..offset] + buf)
  {
    assert Overwrite(v, buf, offset) == (v[..offset] + buf) + [NUL] + v[offset + |buf| + 1..];
    CStrBeforeTerminator(v[..offset] + buf, v[offset + |buf| + 1..]);
  }

  /** A NUL-free write at offset 0 reads back exactly. */
  lemma WriteAtZeroRoundTrip(v: seq<byte>, buf: seq<byte>)
    requires |buf| < |v| && NUL !in buf
    ensures CStr(Overwrite(v, buf, 0)) == buf
  {
    OverwriteReadsBack(v, buf, 0);
    assert v[..0] + buf == buf;
    CStrOfNulFree(buf);
  }

  /** `char2_value`, bound to characteristic 2 as its user data. */
  class Char2Attribute {
    const value: array<byte>

    ghost predicate Valid()
      reads this
    {
      value.Length == MAX_LENGTH
    }

    /** `static char char2_value[32] = {0};` */
    constructor ()
      ensures Valid() && fresh(value)
      ensures forall i :: 0 <= i < MAX_LENGTH ==> value[i] == NUL
    {
      value := new byte[MAX_LENGTH](_ => NUL);
    }

    /** write_char2: copies `buf` to `offset` and NUL-terminates it, or
        answers Invalid Offset and changes nothing. */
    method Write(buf: seq<byte>, offset: nat) returns (r: int)
      requires Valid()
      requires |buf| < UINT16_LIMIT && offset < UINT16_LIMIT
      modifies value
      ensures Valid()
      ensures Accepts(offset, |buf|) ==> offset + |buf| < MAX_LENGTH && r == |buf|
      ensures Accepts(offset, |buf|) ==> value[..] == Overwrite(old(value[..]), buf, offset)
      ensures !Accepts(offset, |buf|) ==> r == GattErr(BT_ATT_ERR_INVALID_OFFSET)
      ensures !Accepts(offset, |buf|) ==> value[..] == old(value[..])
    {
      if offset + |buf| > MAX_LENGTH - 1 {
        return GattErr(BT_ATT_ERR_INVALID_OFFSET);
      }
      forall i | 0 <= i < |buf| {
        value[offset + i] := buf[i];
      }
      value[offset + |buf|] := NUL;
      assert value[..] == Overwrite(old(value[..]), buf, offset);
      return |buf|;
    }
  }

  /** The two bits of the `state` atomic. */
  datatype Bits = Bits(connected: bool, disconnected: bool)

  /** A callback the Bluetooth stack runs: `connected(conn, err)` or
      `disconnected(conn, reason)`. */
  datatype ConnEvent = Connected(err: byte) | Disconnected(reason: byte)

  /** A successful connection or any disconnection; a failed connection
      changes no bit. */
  predicate Effective(e: ConnEvent) {
    e.Disconnected? || e.err == 0
  }

  /** The bits after one callback. */
  function OnEvent(b: Bits, e: ConnEvent): (r: Bits)
    ensures Effective(e) ==> r.connected != r.disconnected && r.connected == e.Connected?
    ensures !Effective(e) ==> r == b
  {
    match e
    case Connected(err) => if err != 0 then b else Bits(true, false)
    case Disconnected(_) => Bits(false, true)
  }

  /** The bits after a run of callbacks, in order. A run of failed
      connections only changes nothing. */
  function ApplyEvents(b: Bits, evs: seq<ConnEvent>): (r: Bits)
    ensures (forall i :: 0 <= i < |evs| ==> !Effective(evs[i])) ==> r == b
  {
    if evs == [] then b else OnEvent(ApplyEvents(b, evs[..|evs| - 1]), evs[|evs| - 1])
  }

  /** The two bits are never both set. */
  predicate Exclusive(b: Bits) {
    !(b.connected && b.disconnected)
  }

  /** No sequence of callbacks sets both bits, from any state where they are not both set. */
  lemma {:induction false} ApplyEventsExclusive(b: Bits, evs: seq<ConnEvent>)
    requires Exclusive(b)
    ensures Exclusive(ApplyEvents(b, evs))
  {
    if evs != [] {
      ApplyEventsExclusive(b, evs[..|evs| - 1]);
    }
  }

  /** Starting with both bits clear, a set bit is always explained by a callback
      that set it: CONNECTED by a successful connection, DISCONNECTED by a
      disconnection. */
  lemma {:induction false} NoSpuriousBits(evs: seq<ConnEvent>)
    ensures ApplyEvents(Bits(false, false), evs).connected ==>
      exists i :: 0 <= i < |evs| && evs[i] == Connected(0)
    ensures ApplyEvents(Bits(false, false), evs).disconnected ==>
      exists i :: 0 <= i < |evs| && evs[i].Disconnected?
  {
    if evs != [] {
      var front := evs[..|evs| - 1];
      NoSpuriousBits(front);
      var last := evs[|evs| - 1];
      if ApplyEvents(Bits(false, false), evs).connected {
        if !Effective(last) {
          var i :| 0 <= i < |front| && front[i] == Connected(0);
          assert evs[i] == front[i];
        }
      }
      if ApplyEvents(Bits(false, false), evs).disconnected {
        if !Effective(last) {
          var i :| 0 <= i < |front| && front[i].Disconnected?;
          assert evs[i] == front[i];
        }
      }
    }
  }

  /** The last effective callback decides both bits; failed connections after it do not matter. */
  lemma {:induction false} LastEffectiveDecides(b: Bits, evs: seq<ConnEvent>, k: nat)
    requires k < |evs| && Effective(evs[k])
    requires forall j :: k < j < |evs| ==> !Effective(evs[j])
    ensures ApplyEvents(b, evs) == OnEvent(b, evs[k])
  {
    if k < |evs| - 1 {
      var front := evs[..|evs| - 1];
      LastEffectiveDecides(b, front, k);
    } else {
      var front := evs[..|evs| - 1];
      assert OnEvent(ApplyEvents(b, front), evs[k]) == OnEvent(b, evs[k]);
    }
  }

  /** Running two runs of callbacks one after the other is running them together. */
  lemma {:induction false} ApplyEventsAppend(b: Bits, x: seq<ConnEvent>, y: seq<ConnEvent>)
    ensures ApplyEvents(b, x + y) == ApplyEvents(ApplyEvents(b, x), y)
  {
    if y != [] {
      var y' := y[..|y| - 1];
      assert (x + y)[..|x + y| - 1] == x + y';
      ApplyEventsAppend(b, x, y');
    } else {
      assert x + y == x;
    }
  }

  /** What one pass of gatt.c's event loop prints: "Disconnected event", "Connected event". */
  datatype Report = Report(disconnectedEvent: bool, connectedEvent: bool)

  function ReportOf(b: Bits): Report {
    Report(b.disconnected, b.connected)
  }

  /** The `state` atomic and the code that touches it. */
  class ConnectionState {
    var connected: bool
    var disconnected: bool

    function State(): Bits
      reads this
    {
      Bits(connected, disconnected)
    }

    /** `ATOMIC_DEFINE(state, STATE_BITS)` starts with every bit clear. */
    constructor ()
      ensures State() == Bits(false, false)
    {
      connected, disconnected := false, false;
    }

    /** The `connected` callback: on success clears DISCONNECTED and sets CONNECTED. */
    method OnConnected(err: byte)
      modifies this
      ensures State() == OnEvent(old(State()), Connected(err))
      ensures Exclusive(old(State())) ==> Exclusive(State())
    {
      if err == 0 {
        disconnected := false;
        connected := true;
      }
    }

    /** The `disconnected` callback: clears CONNECTED and sets DISCONNECTED. */
    method OnDisconnected(reason: byte)
      modifies this
      ensures State() == OnEvent(old(State()), Disconnected(reason))
      ensures Exclusive(State())
    {
      connected := false;
      disconnected := true;
    }

    /** The callbacks the stack runs while the application thread sleeps. */
    method Deliver(evs: seq<ConnEvent>)
      modifies this
      ensures State() == ApplyEvents(old(State()), evs)
    {
      var i := 0;
      while i < |evs|
        invariant i <= |evs|
        invariant State() == ApplyEvents(old(State()), evs[..i])
      {
        assert evs[..i + 1][..i] == evs[..i];
        match evs[i] {
          case Connected(err) => OnConnected(err);
          case Disconnected(reason) => OnDisconnected(reason);
        }
        i := i + 1;
      }
      assert evs[..i] == evs;
    }

    /** `atomic_test_and_clear_bit(state, STATE_DISCONNECTED)`. */
    method TestAndClearDisconnected() returns (was: bool)
      modifies this
      ensures was == old(disconnected)
      ensures State() == Bits(old(connected), false)
    {
      was := disconnected;
      disconnected := false;
    }

    /** `atomic_test_and_clear_bit(state, STATE_CONNECTED)`. */
    method TestAndClearConnected() returns (was: bool)
      modifies this
      ensures was == old(connected)
      ensures State() == Bits(false, old(disconnected))
    {
      was := connected;
      connected := false;
    }

    /** One pass of gatt.c's `while (1)` before its sleep: reports each bit
        that was set and leaves both clear. */
    method Poll() returns (report: Report)
      modifies this
      ensures report == ReportOf(old(State()))
      ensures State() == Bits(false, false)
    {
      var d := TestAndClearDisconnected();
      var c := TestAndClearConnected();
      report := Report(d, c);
    }

    /** The event loop of gatt.c's `main`, for `|sleeps|` passes; `sleeps[i]`
        are the callbacks run during the sleep of pass `i`. The first pass
        reports the bits found at start; every later pass reports exactly the
        bits the callbacks of the previous sleep left set on cleared bits. So
        an event is reported at most once, and one overridden within the same
        sleep (a connection followed by a disconnection) is not reported. */
    method EventLoop(sleeps: seq<seq<ConnEvent>>) returns (reports: seq<Report>)
      modifies this
      ensures |reports| == |sleeps|
      ensures |sleeps| > 0 ==> reports[0] == ReportOf(old(State()))
      ensures forall i :: 0 < i < |sleeps| ==>
        reports[i] == ReportOf(ApplyEvents(Bits(false, false), sleeps[i - 1]))
      ensures |sleeps| > 0 ==> State() == ApplyEvents(Bits(false, false), sleeps[|sleeps| - 1])
      ensures |sleeps| == 0 ==> State() == old(State())
    {
      reports := [];
      var i := 0;
      while i < |sleeps|
        invariant i <= |sleeps|
        invariant |reports| == i
        invariant i > 0 ==> reports[0] == ReportOf(old(State()))
        invariant forall j :: 0 < j < i ==>
          reports[j] == ReportOf(ApplyEvents(Bits(false, false), sleeps[j - 1]))
        invariant i > 0 ==> State() == ApplyEvents(Bits(false, false), sleeps[i - 1])
        invariant i == 0 ==> State() == old(State())
      {
        var report := Poll();
        reports := reports + [report];
        Deliver(sleeps[i]);
        i := i + 1;
      }
    }
  }

  /** A connection followed by a disconnection during one sleep is never
      reported as "Connected event": the next pass sees only DISCONNECTED. */
  lemma OverriddenConnectionNotReported(err: byte, reason: byte)
    ensures ReportOf(ApplyEvents(Bits(false, false), [Connected(err), Disconnected(reason)])) == Report(true, false)
  {
    assert [Connected(err), Disconnected(reason)][..1] == [Connected(err)];
    assert [Connected(err)][..0] == [];
  }
}
