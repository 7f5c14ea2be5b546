/** Bytes on their way to the terminal: the driver's non-blocking write (usr/pl011/pl011.c), and the retry
    loop and chunking of its client (usr/bsh/bsh.c). Writing the data register appends to the output; every
    look at the FIFO-full flag takes the next of a list of arbitrary answers, and after the last the FIFO is
    full for the rest of the call. */
module TermStream {
  import opened Words

  const CR: Byte := 13
  const LF: Byte := 10
  const IPC_BUFFER_SIZE: nat := 128
  const CHUNK: nat := 64

  /** What the UART was sent, and whether the second half of a line end is owed. */
  datatype Uart = Uart(sent: seq<Byte>, pendingNl: bool)

  function Send(u: Uart, b: Byte): Uart {
    u.(sent := u.sent + [b])
  }

  function Writable(answers: seq<bool>): bool {
    answers != [] && answers[0]
  }

  function Rest(answers: seq<bool>): (r: seq<bool>)
    ensures |r| <= |answers|
  {
    if answers == [] then [] else answers[1..]
  }

  /** The loop over the bytes p: the new state and how many bytes were taken. */
  function WriteBytes(u: Uart, p: seq<Byte>, answers: seq<bool>): (r: (Uart, nat))
    ensures r.1 <= |p|
    decreases |p|
  {
    if p == [] || !Writable(answers) then (u, 0)
    else if p[0] == LF && !Writable(Rest(answers)) then
      (Send(u, CR).(pendingNl := true), 1)
    else
      var u1 := if p[0] == LF then Send(Send(u, CR), LF) else Send(u, p[0]);
      var more := if p[0] == LF then Rest(Rest(answers)) else Rest(answers);
      var (u', n) := WriteBytes(u1, p[1..], more);
      (u', n + 1)
  }

  /** One turn of the loop, at byte i of p. */
  lemma {:induction false} WriteBytesTurn(u: Uart, p: seq<Byte>, i: nat, answers: seq<bool>)
    requires i < |p|
    ensures WriteBytes(u, p[i..], answers) ==
      if !Writable(answers) then (u, 0)
      else if p[i] == LF && !Writable(Rest(answers)) then (Send(u, CR).(pendingNl := true), 1)
      else
        var u1 := if p[i] == LF then Send(Send(u, CR), LF) else Send(u, p[i]);
        var (u', n) := WriteBytes(u1, p[i + 1..], if p[i] == LF then Rest(Rest(answers)) else Rest(answers));
        (u', n + 1)
  {
    assert p[i..][0] == p[i] && p[i..][1..] == p[i + 1..];
  }

  /** uart_write_nonblocking. */
  function WriteNonblocking(u: Uart, p: seq<Byte>, answers: seq<bool>): (r: (Uart, nat))
    ensures r.1 <= |p|
  {
    if u.pendingNl then
      if !Writable(answers) then (u, 0)
      else WriteBytes(Send(u, LF).(pendingNl := false), p, Rest(answers))
    else WriteBytes(u, p, answers)
  }

  /** pl011_handle_write for a well-tagged message: the length is clamped to the driver's buffer. */
  function HandleWrite(u: Uart, data: seq<Byte>, answers: seq<bool>): (r: (Uart, nat))
    ensures r.1 <= |data|
  {
    var p := if |data| > IPC_BUFFER_SIZE then data[..IPC_BUFFER_SIZE] else data;
    if p == [] then (u, 0) else WriteNonblocking(u, p, answers)
  }

  // ---------- The stream law ----------

  /** Every line feed preceded by a carriage return. */
  function Expand(p: seq<Byte>): seq<Byte>
    decreases |p|
  {
    if p == [] then [] else (if p[0] == LF then [CR, LF] else [p[0]]) + Expand(p[1..])
  }

  /** What was sent together with what is owed. */
  function Stream(u: Uart): seq<Byte> {
    u.sent + if u.pendingNl then [LF] else []
  }

  lemma {:induction false} ExpandJoin(p: seq<Byte>, q: seq<Byte>)
    ensures Expand(p + q) == Expand(p) + Expand(q)
    decreases |p|
  {
    if p == [] {
      assert p + q == q;
    } else {
      assert (p + q)[0] == p[0] && (p + q)[1..] == p[1..] + q;
      ExpandJoin(p[1..], q);
    }
  }

  lemma {:induction false} StreamJoin(u: Uart, u1: Uart, u': Uart, p: seq<Byte>, q: seq<Byte>)
    requires Stream(u1) == Stream(u) + Expand(p) && Stream(u') == Stream(u1) + Expand(q)
    ensures Stream(u') == Stream(u) + Expand(p + q)
  {
    ExpandJoin(p, q);
  }

  lemma {:induction false} WriteBytesLaw(u: Uart, p: seq<Byte>, answers: seq<bool>)
    requires !u.pendingNl
    ensures var (u', n) := WriteBytes(u, p, answers);
      Stream(u') == Stream(u) + Expand(p[..n])
    decreases |p|
  {
    if p == [] || !Writable(answers) {
      assert Expand(p[..0]) == [];
    } else if p[0] == LF && !Writable(Rest(answers)) {
      assert p[..1] == [LF] && [LF][1..] == [];
      assert Expand([LF]) == [CR, LF];
    } else {
      var u1 := if p[0] == LF then Send(Send(u, CR), LF) else Send(u, p[0]);
      var more := if p[0] == LF then Rest(Rest(answers)) else Rest(answers);
      WriteBytesLaw(u1, p[1..], more);
      var n := WriteBytes(u1, p[1..], more).1;
      assert p[..n + 1][0] == p[0] && p[..n + 1][1..] == p[1..][..n];
    }
  }

  /** Whatever the FIFO does, the bytes sent and the line feed owed are the old ones and then the expansion of
      exactly the bytes taken; in particular no carriage return is ever sent twice for one line feed. */
  lemma {:induction false} HandleWriteLaw(u: Uart, data: seq<Byte>, answers: seq<bool>)
    ensures var (u', n) := HandleWrite(u, data, answers);
      Stream(u') == Stream(u) + Expand(data[..n])
  {
    var p := if |data| > IPC_BUFFER_SIZE then data[..IPC_BUFFER_SIZE] else data;
    var n := HandleWrite(u, data, answers).1;
    assert p[..n] == data[..n];
    if p != [] && u.pendingNl && Writable(answers) {
      WriteBytesLaw(Send(u, LF).(pendingNl := false), p, Rest(answers));
    } else if p != [] && !u.pendingNl {
      WriteBytesLaw(u, p, answers);
    } else {
      assert data[..0] == [];
    }
  }

  /** A call takes no byte of a non-empty buffer exactly when the FIFO has no room for what is owed and one
      byte more. */
  lemma {:induction false} TakesNothingIff(u: Uart, data: seq<Byte>, answers: seq<bool>)
    requires data != []
    ensures HandleWrite(u, data, answers).1 == 0 <==>
      !Writable(answers) || (u.pendingNl && !Writable(Rest(answers)))
  {
  }

  /** The FIFO has room for n bytes in a row. */
  predicate Room(answers: seq<bool>, n: nat) {
    n <= |answers| && forall i :: 0 <= i < n ==> answers[i]
  }

  lemma {:induction false} WritesAll(u: Uart, p: seq<Byte>, answers: seq<bool>)
    requires !u.pendingNl && Room(answers, |Expand(p)|)
    ensures var (u', n) := WriteBytes(u, p, answers); n == |p| && !u'.pendingNl
    decreases |p|
  {
    if p != [] {
      var taken := if p[0] == LF then 2 else 1;
      assert |Expand(p)| == taken + |Expand(p[1..])|;
      var u1 := if p[0] == LF then Send(Send(u, CR), LF) else Send(u, p[0]);
      var more := if p[0] == LF then Rest(Rest(answers)) else Rest(answers);
      assert more == answers[taken..];
      WritesAll(u1, p[1..], more);
    }
  }

  /** With room for what is owed and for the expansion of the first 128 bytes of a request, the driver takes them all
      and owes nothing. */
  lemma {:induction false} TakesAll(u: Uart, data: seq<Byte>, answers: seq<bool>)
    requires data != []
    requires var p := if |data| > IPC_BUFFER_SIZE then data[..IPC_BUFFER_SIZE] else data;
      Room(answers, |Expand(p)| + if u.pendingNl then 1 else 0)
    ensures var (u', n) := HandleWrite(u, data, answers);
      n == (if |data| > 128 then 128 else |data|) && !u'.pendingNl
  {
    var p := if |data| > IPC_BUFFER_SIZE then data[..IPC_BUFFER_SIZE] else data;
    if u.pendingNl {
      assert Rest(answers) == answers[1..];
      WritesAll(Send(u, LF).(pendingNl := false), p, Rest(answers));
    } else {
      WritesAll(u, p, answers);
    }
  }

  /** Any sequence of write requests, whoever sent them. */
  function Serve(u: Uart, requests: seq<(seq<Byte>, seq<bool>)>): (Uart, seq<Byte>)
    decreases |requests|
  {
    if requests == [] then (u, [])
    else
      var (data, answers) := requests[0];
      var (u1, n) := HandleWrite(u, data, answers);
      var (u', taken) := Serve(u1, requests[1..]);
      (u', data[..n] + taken)
  }

  /** Over any run of the driver the output and the line feed owed are the expansion of all bytes taken. */
  lemma {:induction false} DriverLaw(u: Uart, requests: seq<(seq<Byte>, seq<bool>)>)
    ensures var (u', taken) := Serve(u, requests);
      Stream(u') == Stream(u) + Expand(taken)
    decreases |requests|
  {
    if requests != [] {
      var (data, answers) := requests[0];
      var (u1, n) := HandleWrite(u, data, answers);
      HandleWriteLaw(u, data, answers);
      DriverLaw(u1, requests[1..]);
      ExpandJoin(data[..n], Serve(u1, requests[1..]).1);
    }
  }

  // ---------- The client ----------

  /** One IPC of the client: it fails, or the driver serves it with these answers of the FIFO. */
  datatype Round = IpcFails | Served(answers: seq<bool>)

  /** Waiting: the rounds given are used up before the loop ends. */
  datatype Outcome = Completed | Failed | Waiting

  /** term_write over a list of rounds: the state, the outcome, how many bytes were taken and how many rounds
      were used. */
  function TermWrite(u: Uart, buf: seq<Byte>, rounds: seq<Round>): (r: (Uart, Outcome, nat, nat))
    ensures r.2 <= |buf| && r.3 <= |rounds|
    decreases |rounds|
  {
    if buf == [] then (u, Completed, 0, 0)
    else if rounds == [] then (u, Waiting, 0, 0)
    else
      match rounds[0]
      case IpcFails => (u, Failed, 0, 1)
      case Served(answers) =>
        var (u1, n) := HandleWrite(u, buf, answers);
        var (u', o, taken, used) := TermWrite(u1, buf[n..], rounds[1..]);
        (u', o, n + taken, used + 1)
  }

  lemma {:induction false} PrefixJoin(buf: seq<Byte>, n: nat, k: nat)
    requires n + k <= |buf|
    ensures buf[..n] + buf[n..][..k] == buf[..n + k]
  {
  }

  /** A round that the driver serves: n bytes, and then the rest of the buffer. */
  lemma {:induction false} TermWriteTurn(u: Uart, buf: seq<Byte>, rounds: seq<Round>, u1: Uart, n: nat)
    requires buf != [] && rounds != [] && rounds[0].Served? && n <= |buf|
    requires HandleWrite(u, buf, rounds[0].answers) == (u1, n)
    ensures var (u', o, taken, used) := TermWrite(u1, buf[n..], rounds[1..]);
      TermWrite(u, buf, rounds) == (u', o, n + taken, used + 1)
  {
  }

  /** The retry loop loses and repeats nothing: what it added to the stream is the expansion of the bytes
      taken, a prefix of the buffer, and a completed write has taken the whole buffer. */
  lemma {:induction false} TermWriteLaw(u: Uart, buf: seq<Byte>, rounds: seq<Round>)
    ensures var (u', o, taken, used) := TermWrite(u, buf, rounds);
      Stream(u') == Stream(u) + Expand(buf[..taken]) && (o == Completed ==> taken == |buf|)
    decreases |rounds|
  {
    if buf != [] && rounds != [] && rounds[0].Served? {
      var (u1, n) := HandleWrite(u, buf, rounds[0].answers);
      HandleWriteLaw(u, buf, rounds[0].answers);
      var rest := buf[n..];
      TermWriteLaw(u1, rest, rounds[1..]);
      var (u', o, taken, used) := TermWrite(u1, rest, rounds[1..]);
      TermWriteTurn(u, buf, rounds, u1, n);
      PrefixJoin(buf, n, taken);
      StreamJoin(u, u1, u', buf[..n], rest[..taken]);
    } else {
      assert buf[..0] == [];
    }
  }

  /** The loop completes exactly when all bytes are taken; it fails at a round whose IPC fails, and otherwise every
      round given is used up. */
  lemma {:induction false} TermWriteEnds(u: Uart, buf: seq<Byte>, rounds: seq<Round>)
    ensures var (u', o, taken, used) := TermWrite(u, buf, rounds);
      && (o == Completed <==> taken == |buf|)
      && (o == Failed ==> used > 0 && rounds[used - 1] == IpcFails)
      && (o == Waiting ==> used == |rounds|)
      && (forall i :: 0 <= i < used && !(o == Failed && i == used - 1) ==> rounds[i].Served?)
    decreases |rounds|
  {
    if buf != [] && rounds != [] && rounds[0].Served? {
      var (u1, n) := HandleWrite(u, buf, rounds[0].answers);
      TermWriteTurn(u, buf, rounds, u1, n);
      TermWriteEnds(u1, buf[n..], rounds[1..]);
    }
  }

  /** write_buffer from an offset on: chunks of 64 bytes, whose failures it ignores. The result is the state,
      the bytes taken, and whether every chunk was completed. */
  function WriteBuffer(u: Uart, buf: seq<Byte>, rounds: seq<Round>): (r: (Uart, seq<Byte>, bool))
    decreases |buf|
  {
    if buf == [] then (u, [], true)
    else
      var size := if |buf| > CHUNK then CHUNK else |buf|;
      var (u1, o, taken, used) := TermWrite(u, buf[..size], rounds);
      if o == Waiting then (u1, buf[..taken], false)
      else
        var (u', more, all) := WriteBuffer(u1, buf[size..], rounds[used..]);
        (u', buf[..taken] + more, o == Completed && all)
  }

  /** Composed with the driver: write_buffer puts out the expansion of the bytes taken, and when every chunk
      completed that is its buffer, with no byte lost or repeated. */
  lemma {:induction false} WriteBufferLaw(u: Uart, buf: seq<Byte>, rounds: seq<Round>)
    ensures var (u', taken, all) := WriteBuffer(u, buf, rounds);
      Stream(u') == Stream(u) + Expand(taken) && (all ==> taken == buf)
    decreases |buf|
  {
    if buf != [] {
      var size := if |buf| > CHUNK then CHUNK else |buf|;
      var (chunk, rest) := (buf[..size], buf[size..]);
      assert buf == chunk + rest;
      var (u1, o, taken, used) := TermWrite(u, chunk, rounds);
      TermWriteLaw(u, chunk, rounds);
      assert chunk[..taken] == buf[..taken];
      if o != Waiting {
        WriteBufferLaw(u1, rest, rounds[used..]);
        var (u', more, all) := WriteBuffer(u1, rest, rounds[used..]);
        assert WriteBuffer(u, buf, rounds) == (u', buf[..taken] + more, o == Completed && all);
        StreamJoin(u, u1, u', buf[..taken], more);
      }
    }
  }

  /** Every chunk completed exactly when the bytes taken are the whole buffer. */
  lemma {:induction false} WriteBufferEnds(u: Uart, buf: seq<Byte>, rounds: seq<Round>)
    ensures var (u', taken, all) := WriteBuffer(u, buf, rounds);
      |taken| <= |buf| && (all <==> |taken| == |buf|)
    decreases |buf|
  {
    if buf != [] {
      var size := if |buf| > CHUNK then CHUNK else |buf|;
      var (u1, o, taken, used) := TermWrite(u, buf[..size], rounds);
      TermWriteEnds(u, buf[..size], rounds);
      if o != Waiting {
        WriteBufferEnds(u1, buf[size..], rounds[used..]);
      }
    }
  }

  // ---------- The driver in place ----------

  class Pl011 {
    var sent: seq<Byte>
    var pendingNl: bool
    const ipcBuffer: array<Byte>

    predicate Valid() {
      ipcBuffer.Length == IPC_BUFFER_SIZE
    }

    function State(): Uart
      reads this
    {
      Uart(sent, pendingNl)
    }

    constructor ()
      ensures Valid() && State() == Uart([], false) && fresh(ipcBuffer)
    {
      sent, pendingNl := [], false;
      ipcBuffer := new Byte[IPC_BUFFER_SIZE](_ => 0);
    }

    /** Writes the first len bytes of the driver's buffer. */
    method UartWriteNonblocking(len: nat, answers: seq<bool>) returns (written: nat)
      requires Valid() && len <= IPC_BUFFER_SIZE
      modifies `sent, `pendingNl
      ensures (State(), written) == WriteNonblocking(old(State()), ipcBuffer[..len], answers)
    {
      ghost var p := ipcBuffer[..len];
      var flags := answers;
      written := 0;
      if pendingNl {
        if !Writable(flags) {
          return 0;
        }
        flags := Rest(flags);
        sent := sent + [LF];
        pendingNl := false;
      }
      ghost var u, a := State(), flags;
      var i := 0;
      while i < len
        invariant i <= len && written == i && !pendingNl && p == ipcBuffer[..len]
        invariant WriteBytes(u, p, a) == var (u', n) := WriteBytes(State(), p[i..], flags); (u', n + i)
      {
        WriteBytesTurn(State(), p, i, flags);
        if !Writable(flags) {
          break;
        }
        flags := Rest(flags);
        written := written + 1;
        if ipcBuffer[i] == LF {
          sent := sent + [CR];
          if !Writable(flags) {
            pendingNl := true;
            return written;
          }
          flags := Rest(flags);
        }
        sent := sent + [ipcBuffer[i]];
        i := i + 1;
      }
    }

    /** A message with other counts than one untyped and two typed words is refused. */
    method HandleWriteMessage(untyped: nat, typed: nat, data: seq<Byte>, answers: seq<bool>)
        returns (wrote: Option<nat>)
      requires Valid()
      modifies this, ipcBuffer
      ensures Valid()
      ensures if untyped != 1 || typed != 2 then wrote == None && State() == old(State())
        else wrote.Some? && (State(), wrote.value) == HandleWrite(old(State()), data, answers)
    {
      if untyped != 1 || typed != 2 {
        return None;
      }
      var toWrite := |data|;
      if toWrite > IPC_BUFFER_SIZE {
        toWrite := IPC_BUFFER_SIZE;
      }
      forall k | 0 <= k < toWrite {
        ipcBuffer[k] := data[k];
      }
      assert ipcBuffer[..toWrite] == data[..toWrite];
      if toWrite == 0 {
        return Some(0);
      }
      assert |data| == toWrite ==> data[..toWrite] == data;
      var written := UartWriteNonblocking(toWrite, answers);
      return Some(written);
    }
  }

  /** term_write against the driver. */
  method TermWriteLoop(driver: Pl011, buffer: seq<Byte>, rounds: seq<Round>) returns (outcome: Outcome, used: nat)
    requires driver.Valid()
    modifies driver, driver.ipcBuffer
    ensures driver.Valid()
    ensures var r := TermWrite(old(driver.State()), buffer, rounds);
      driver.State() == r.0 && outcome == r.1 && used == r.3
  {
    var buf := buffer;
    used := 0;
    while |buf| > 0
      invariant used <= |rounds| && driver.Valid()
      invariant TermWrite(old(driver.State()), buffer, rounds).0 == TermWrite(driver.State(), buf, rounds[used..]).0
      invariant TermWrite(old(driver.State()), buffer, rounds).1 == TermWrite(driver.State(), buf, rounds[used..]).1
      invariant TermWrite(old(driver.State()), buffer, rounds).3 ==
        TermWrite(driver.State(), buf, rounds[used..]).3 + used
      decreases |rounds| - used
    {
      if used == |rounds| {
        return Waiting, used;
      }
      assert rounds[used..][0] == rounds[used] && rounds[used..][1..] == rounds[used + 1..];
      if rounds[used].IpcFails? {
        return Failed, used + 1;
      }
      var written := driver.HandleWriteMessage(1, 2, buf, rounds[used].answers);
      buf := buf[written.value..];
      used := used + 1;
    }
    return Completed, used;
  }

  /** A slice from offset on, cut after n bytes. */
  lemma {:induction false} SliceCut(buf: seq<Byte>, offset: nat, n: nat)
    requires offset + n <= |buf|
    ensures buf[offset..][..n] == buf[offset..offset + n] && buf[offset..][n..] == buf[offset + n..]
  {
  }

  /** write_buffer; it stops early only when the rounds given are used up. */
  method WriteBufferLoop(driver: Pl011, buf: seq<Byte>, rounds: seq<Round>) returns (all: bool)
    requires driver.Valid()
    modifies driver, driver.ipcBuffer
    ensures driver.Valid()
    ensures (driver.State(), all) == var r := WriteBuffer(old(driver.State()), buf, rounds); (r.0, r.2)
  {
    var offset, left := 0, rounds;
    all := true;
    while offset < |buf|
      invariant offset <= |buf| && driver.Valid()
      invariant WriteBuffer(old(driver.State()), buf, rounds).0 == WriteBuffer(driver.State(), buf[offset..], left).0
      invariant WriteBuffer(old(driver.State()), buf, rounds).2 ==
        (all && WriteBuffer(driver.State(), buf[offset..], left).2)
    {
      var payloadSize := |buf| - offset;
      if payloadSize > CHUNK {
        payloadSize := CHUNK;
      }
      SliceCut(buf, offset, payloadSize);
      var outcome, used := TermWriteLoop(driver, buf[offset..offset + payloadSize], left);
      if outcome == Waiting {
        return false;
      }
      all := all && outcome == Completed;
      left := left[used..];
      offset := offset + payloadSize;
    }
  }
}
