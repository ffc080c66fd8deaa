/** The receive side shared by uart/src/main.c and uart_int/src/main.c: the
    interrupt callback `uart_cb` reads bytes one at a time into the 64-byte
    `rx_buf`; '\n' or '\r' ends the line, anything else is appended while
    `rx_pos < RX_BUF_SIZE - 1` and dropped after that. This module gives the
    line-level meaning of that loop and an independent description of the
    lines it produces. */
module LineAssembler {
  import opened CStrings

  const RX_BUF_SIZE := 64
  /** The longest line kept: the last byte of `rx_buf` is left for the terminator. */
  const MAX_LINE := RX_BUF_SIZE - 1
  const LF: byte := 0x0A
  const CR: byte := 0x0D

  predicate IsTerminator(c: byte) {
    c == LF || c == CR
  }

  predicate NoTerminators(s: seq<byte>) {
    forall j :: 0 <= j < |s| ==> !IsTerminator(s[j])
  }

  /** The line being assembled (`rx_buf[..rx_pos]`) and the lines completed so far. */
  datatype Assembled = Assembled(line: seq<byte>, completed: seq<seq<byte>>)

  /** The effect of one received byte: a terminator completes the pending
      line and starts an empty one; any other byte extends the pending line,
      which keeps only its first MAX_LINE bytes. */
  function Receive(a: Assembled, c: byte): (r: Assembled)
    ensures IsTerminator(c) ==> r.line == [] && r.completed == a.completed + [a.line]
    ensures !IsTerminator(c) ==> r.completed == a.completed
    ensures !IsTerminator(c) && |a.line| <= MAX_LINE ==> r.line == Truncate(a.line + [c])
  {
    if IsTerminator(c) then Assembled([], a.completed + [a.line])
    else if |a.line| < MAX_LINE then Assembled(a.line + [c], a.completed)
    else a
  }

  function CountTerminators(bytes: seq<byte>): nat
  {
    if bytes == [] then 0
    else CountTerminators(bytes[..|bytes| - 1]) + (if IsTerminator(bytes[|bytes| - 1]) then 1 else 0)
  }

  /** The effect of receiving `bytes`, in order, with `line` pending. One line
      is completed per terminator; no line ever exceeds MAX_LINE bytes, so the
      terminator `rx_buf[rx_pos] = '\0'` always stays inside the buffer. */
  function Assemble(line: seq<byte>, bytes: seq<byte>): (r: Assembled)
    ensures |r.completed| == CountTerminators(bytes)
    ensures |line| <= MAX_LINE ==> |r.line| <= MAX_LINE
    ensures |line| <= MAX_LINE ==> forall k :: 0 <= k < |r.completed| ==> |r.completed[k]| <= MAX_LINE
    ensures NoTerminators(line) ==> NoTerminators(r.line)
    ensures NoTerminators(line) ==> forall k :: 0 <= k < |r.completed| ==> NoTerminators(r.completed[k])
  {
    if bytes == [] then Assembled(line, [])
    else Receive(Assemble(line, bytes[..|bytes| - 1]), bytes[|bytes| - 1])
  }

  /** Receiving in two bursts (two interrupts) is receiving everything at once. */
  lemma {:induction false} AssembleSplit(line: seq<byte>, a: seq<byte>, b: seq<byte>)
    ensures Assemble(line, a + b)
         == Assembled(Assemble(Assemble(line, a).line, b).line,
                      Assemble(line, a).completed + Assemble(Assemble(line, a).line, b).completed)
  {
    if b != [] {
      var b' := b[..|b| - 1];
      assert (a + b)[..|a + b| - 1] == a + b';
      assert (a + b)[|a + b| - 1] == b[|b| - 1];
      AssembleSplit(line, a, b');
    } else {
      assert a + b == a;
    }
  }

  /** "\r\n" completes the pending line and then an empty one. */
  lemma CrLfCompletesEmptyLine(line: seq<byte>)
    ensures Assemble(line, [CR, LF]) == Assembled([], [line, []])
  {
    assert [CR, LF][..1] == [CR];
    assert [CR][..0] == [];
    assert Assemble(line, [CR]) == Assembled([], [line]);
  }

  /** The first terminator of `s`, or `|s|` when there is none. */
  function FirstTerminator(s: seq<byte>): (i: nat)
    ensures i <= |s|
    ensures forall j :: 0 <= j < i ==> !IsTerminator(s[j])
    ensures i < |s| ==> IsTerminator(s[i])
  {
    if s == [] || IsTerminator(s[0]) then 0 else 1 + FirstTerminator(s[1..])
  }

  /** At most the first MAX_LINE bytes of `s`. */
  function Truncate(s: seq<byte>): (r: seq<byte>)
    ensures |r| <= MAX_LINE && |r| <= |s| && r == s[..|r|]
    ensures |s| <= MAX_LINE ==> r == s
    ensures |s| > MAX_LINE ==> |r| == MAX_LINE
  {
    if |s| <= MAX_LINE then s else s[..MAX_LINE]
  }

  /** Reference split of a byte stream: for every terminator, the first
      MAX_LINE bytes received since the previous terminator (or the start). */
  function Lines(s: seq<byte>): seq<seq<byte>>
    decreases |s|
  {
    var i := FirstTerminator(s);
    if i == |s| then [] else [Truncate(s[..i])] + Lines(s[i + 1..])
  }

  /** The bytes received after the last terminator. */
  function Unterminated(s: seq<byte>): seq<byte>
    decreases |s|
  {
    var i := FirstTerminator(s);
    if i == |s| then s else Unterminated(s[i + 1..])
  }

  lemma FirstTerminatorIs(s: seq<byte>, i: nat)
    requires i <= |s|
    requires forall j :: 0 <= j < i ==> !IsTerminator(s[j])
    requires i < |s| ==> IsTerminator(s[i])
    ensures FirstTerminator(s) == i
  {
  }

  lemma FirstTerminatorAppend(s: seq<byte>, c: byte)
    ensures FirstTerminator(s + [c]) ==
      if FirstTerminator(s) < |s| then FirstTerminator(s)
      else if IsTerminator(c) then |s| else |s| + 1
  {
    var i := FirstTerminator(s);
    var t := s + [c];
    assert forall j :: 0 <= j < |s| ==> t[j] == s[j];
    if i < |s| {
      FirstTerminatorIs(t, i);
    } else if IsTerminator(c) {
      FirstTerminatorIs(t, |s|);
    } else {
      FirstTerminatorIs(t, |s| + 1);
    }
  }

  /** How the reference split grows with one more byte. */
  lemma {:induction false} LinesAppend(s: seq<byte>, c: byte)
    ensures Lines(s + [c]) ==
      if IsTerminator(c) then Lines(s) + [Truncate(Unterminated(s))] else Lines(s)
    ensures Unterminated(s + [c]) == if IsTerminator(c) then [] else Unterminated(s) + [c]
    decreases |s|
  {
    var i := FirstTerminator(s);
    FirstTerminatorAppend(s, c);
    if i == |s| {
      assert (s + [c])[..|s|] == s;
      assert (s + [c])[|s| + 1..] == [];
    } else {
      var t := s[i + 1..];
      assert (s + [c])[..i] == s[..i];
      assert (s + [c])[i + 1..] == t + [c];
      LinesAppend(t, c);
    }
  }

  lemma TruncateAppend(u: seq<byte>, c: byte)
    ensures Truncate(u + [c]) ==
      if |Truncate(u)| < MAX_LINE then Truncate(u) + [c] else Truncate(u)
  {
    if |u| >= MAX_LINE {
      assert (u + [c])[..MAX_LINE] == u[..MAX_LINE];
    }
  }

  /** From an empty buffer, the assembler completes exactly the reference
      lines, in order, and holds the truncated tail after the last terminator. */
  lemma {:induction false} AssembleMatchesLines(bytes: seq<byte>)
    ensures Assemble([], bytes) == Assembled(Truncate(Unterminated(bytes)), Lines(bytes))
  {
    if bytes == [] {
      assert Lines(bytes) == [] && Unterminated(bytes) == [];
    } else {
      var p, c := bytes[..|bytes| - 1], bytes[|bytes| - 1];
      assert bytes == p + [c];
      AssembleMatchesLines(p);
      LinesAppend(p, c);
      TruncateAppend(Unterminated(p), c);
    }
  }

  /** The C strings of a run of lines, as `printk("%s")` and `strcmp` see them. */
  function CStrs(lines: seq<seq<byte>>): (r: seq<seq<byte>>)
    ensures |r| == |lines|
    ensures forall k :: 0 <= k < |lines| ==> r[k] == CStr(lines[k])
  {
    seq(|lines|, k requires 0 <= k < |lines| => CStr(lines[k]))
  }

  /** The text printed for two runs of lines is the text printed for each in turn. */
  lemma CStrsAppend(a: seq<seq<byte>>, b: seq<seq<byte>>)
    ensures CStrs(a + b) == CStrs(a) + CStrs(b)
  {
    assert forall k :: 0 <= k < |a| + |b| ==> (a + b)[k] == if k < |a| then a[k] else b[k - |a|];
  }
}
