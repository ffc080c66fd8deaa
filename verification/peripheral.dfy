/** The parts of bluetooth/peripheral/src/main.c that differ from gatt.c:
    its own guard in write_char2, the notification helper bt_cgs_notify, and
    the ten-notification loop of `main`. The connection callbacks and the
    state bits are the same as in gatt.c and come from module Gatt. */
module Peripheral {
  import opened CStrings
  import opened Gatt

  const MAX_NOTIFY_COUNT := 10
  /** ENOTCONN in Zephyr's C library. */
  const ENOTCONN := 128
  /** The first byte of every notification: "uint8, sensor contact". */
  const SENSOR_CONTACT: byte := 0x06

  datatype Option<T> = None | Some(value: T)

  /** What write_char2 of main.c does to `char2_value`, as written: it rejects
      only `offset + len > sizeof(char2_value)`, so a write that fills the
      buffer to its last byte is accepted and its terminator lands at index
      `MAX_LENGTH`, one past the buffer. */
  datatype WriteOutcome =
    | Rejected(err: int)
    | Written(value: seq<byte>, ret: int)
    | TerminatorOutOfBounds(index: nat)

  function MainWriteChar2(v: seq<byte>, buf: seq<byte>, offset: nat): (r: WriteOutcome)
    requires |v| == MAX_LENGTH
    ensures r.Rejected? <==> offset + |buf| > MAX_LENGTH
    ensures r.Rejected? ==> r.err == GattErr(BT_ATT_ERR_INVALID_OFFSET)
    ensures r.TerminatorOutOfBounds? <==> offset + |buf| == MAX_LENGTH
    ensures r.TerminatorOutOfBounds? ==> r.index == offset + |buf| && r.index >= |v|
    ensures r.Written? ==> Accepts(offset, |buf|) && r.ret == |buf| && r.value == Overwrite(v, buf, offset)
  {
    if offset + |buf| > |v| then Rejected(GattErr(BT_ATT_ERR_INVALID_OFFSET))
    else if offset + |buf| < |v| then Written(Overwrite(v, buf, offset), |buf|)
    else TerminatorOutOfBounds(offset + |buf|)
  }

  /** A 32-byte write at offset 0 passes main.c's guard, and the terminator
      it then stores is outside `char2_value`; gatt.c's guard rejects it. */
  lemma MainGuardOverrun(v: seq<byte>, buf: seq<byte>)
    requires |v| == MAX_LENGTH && |buf| == MAX_LENGTH
    ensures MainWriteChar2(v, buf, 0) == TerminatorOutOfBounds(MAX_LENGTH)
    ensures !Accepts(0, |buf|)
  {
  }

  /** Apart from that boundary case the two guards agree. */
  lemma GuardsDifferOnlyAtBoundary(v: seq<byte>, buf: seq<byte>, offset: nat)
    requires |v| == MAX_LENGTH
    ensures MainWriteChar2(v, buf, offset).Written? <==> Accepts(offset, |buf|)
  {
  }

  /** The result of bt_cgs_notify: its return value and the payload handed to
      `bt_gatt_notify`, if it got that far. */
  datatype NotifyResult = NotifyResult(ret: int, payload: Option<seq<byte>>)

  /** bt_cgs_notify(value). `connected` is the CONNECTED bit when it is
      tested; `gattResult` is what `bt_gatt_notify` returns. */
  function CgsNotify(connected: bool, value: byte, gattResult: int): (r: NotifyResult)
    ensures !connected ==> r == NotifyResult(-ENOTCONN, None)
    ensures connected ==> r.payload == Some([SENSOR_CONTACT, value])
    ensures connected ==> r.ret == gattResult
    ensures r.ret == 0 <==> connected && gattResult == 0
  {
    if !connected then NotifyResult(-ENOTCONN, None)
    else
      var cgm := [SENSOR_CONTACT, value];
      if gattResult == 0 then NotifyResult(0, Some(cgm)) else NotifyResult(gattResult, Some(cgm))
  }

  /** All callbacks of a run of sleeps, in the order they ran. */
  function Concat(sleeps: seq<seq<ConnEvent>>): seq<ConnEvent>
  {
    if sleeps == [] then [] else Concat(sleeps[..|sleeps| - 1]) + sleeps[|sleeps| - 1]
  }

  /** The bits after each sleep of the notify loop has run its callbacks:
      the same as running all of those callbacks in one go. */
  function BitsAfterSleeps(b: Bits, sleeps: seq<seq<ConnEvent>>): (r: Bits)
    ensures r == ApplyEvents(b, Concat(sleeps))
  {
    if sleeps == [] then b
    else
      var front := sleeps[..|sleeps| - 1];
      ApplyEventsAppend(b, Concat(front), sleeps[|sleeps| - 1]);
      ApplyEvents(BitsAfterSleeps(b, front), sleeps[|sleeps| - 1])
  }

  /** `main` of main.c. `enableErr` is what `bt_enable` returns; `wait` are the
      callbacks run during the first 60-second sleep; `sleeps[i]` those run
      during the sleep after notification `i`; `gattResults[i]` is what
      `bt_gatt_notify` returns for it. When CONNECTED is set after the wait,
      `main` calls bt_cgs_notify with 0, 1, ..., 9 in order, each seeing the
      bit as the callbacks so far have left it; otherwise it sends nothing. */
  method NotifyMain(st: ConnectionState, enableErr: int, wait: seq<ConnEvent>,
                    sleeps: seq<seq<ConnEvent>>, gattResults: seq<int>)
    returns (ret: int, attempts: seq<byte>, results: seq<NotifyResult>)
    requires |sleeps| == MAX_NOTIFY_COUNT && |gattResults| == MAX_NOTIFY_COUNT
    modifies st
    ensures enableErr != 0 ==> ret == -1 && attempts == [] && st.State() == old(st.State())
    ensures enableErr == 0 ==> ret == 0
    ensures enableErr == 0 && !ApplyEvents(old(st.State()), wait).connected ==> attempts == []
    ensures enableErr == 0 && ApplyEvents(old(st.State()), wait).connected ==>
      |attempts| == MAX_NOTIFY_COUNT && forall i :: 0 <= i < |attempts| ==> attempts[i] as int == i
    ensures enableErr == 0 && ApplyEvents(old(st.State()), wait).connected ==>
      st.State() == BitsAfterSleeps(ApplyEvents(old(st.State()), wait), sleeps)
    ensures enableErr == 0 && !ApplyEvents(old(st.State()), wait).connected ==>
      st.State() == ApplyEvents(old(st.State()), wait)
    ensures |results| == |attempts|
    ensures forall i :: 0 <= i < |results| ==>
      results[i] == CgsNotify(BitsAfterSleeps(ApplyEvents(old(st.State()), wait), sleeps[..i]).connected,
                              attempts[i], gattResults[i])
  {
    attempts, results := [], [];
    if enableErr != 0 {
      return -1, attempts, results;
    }
    st.Deliver(wait);
    ghost var start := st.State();
    if st.connected {
      var notifyCount := 0;
      while notifyCount < MAX_NOTIFY_COUNT
        invariant notifyCount <= MAX_NOTIFY_COUNT
        invariant |attempts| == |results| == notifyCount
        invariant forall i :: 0 <= i < notifyCount ==> attempts[i] as int == i
        invariant st.State() == BitsAfterSleeps(start, sleeps[..notifyCount])
        invariant forall i :: 0 <= i < notifyCount ==>
          results[i] == CgsNotify(BitsAfterSleeps(start, sleeps[..i]).connected, attempts[i], gattResults[i])
      {
        var value := notifyCount as byte;
        var r := CgsNotify(st.connected, value, gattResults[notifyCount]);
        attempts, results := attempts + [value], results + [r];
        st.Deliver(sleeps[notifyCount]);
        assert sleeps[..notifyCount + 1][..notifyCount] == sleeps[..notifyCount];
        notifyCount := notifyCount + 1;
      }
      assert sleeps[..notifyCount] == sleeps;
    }
    ret := 0;
  }
}
