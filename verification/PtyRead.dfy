/**
 Reading from the PTY while competing for the terminal.

 The reader holds the lease of the terminal's fair mutex, so another thread can hold the terminal
 when the call starts, but none can take it afterwards: a finite number of attempts to lock it fail,
 and then it is the reader's.
 */
module PtyRead {
  import opened Sequences

  type Bytes = seq<bv8>

  const READ_BUFFER_SIZE: nat := 0x10_0000
  const MAX_LOCKED_READ: nat := 65535

  /** What the operating system has for one read; a read may take less than all of it. */
  datatype Incoming = Data(bytes: Bytes) | WouldBlock | Fails

  datatype ReadResult = Got(n: nat) | Blocked | Failed

  function Chunk(incoming: Incoming, space: nat): (chunk: Bytes)
    ensures |chunk| <= space
    ensures if incoming.Data? then chunk <= incoming.bytes && (|chunk| < space ==> chunk == incoming.bytes)
            else chunk == []
  {
    if !incoming.Data? then []
    else if |incoming.bytes| <= space then incoming.bytes
    else incoming.bytes[..space]
  }

  /** The outcome of one call: everything read, everything parsed, and what was left in the buffer. */
  datatype Outcome = Outcome(ok: bool, read: Bytes, parsed: Bytes, dropped: Bytes, calls: nat)

  /**
   The read loop before its n-th read: `pending` bytes are in the buffer, and `read` and `parsed`
   have been read and parsed. `busy` attempts to lock the terminal will fail, unless it is `locked`.
   */
  datatype Loop = Loop(incoming: nat -> Incoming, n: nat, busy: nat, locked: bool,
                       pending: Bytes, read: Bytes, parsed: Bytes)
  {
    predicate Valid() { |pending| <= READ_BUFFER_SIZE && |parsed| < MAX_LOCKED_READ }

    function Got(): Bytes
      requires Valid()
    {
      Chunk(incoming(n), READ_BUFFER_SIZE - |pending|)
    }

    /** Nothing is read and nothing is left to parse. */
    predicate IsCaughtUp()
      requires Valid()
    {
      !incoming(n).Fails? && pending == [] && Got() == []
    }

    predicate Locks()
      requires Valid()
    {
      locked || busy == 0 || |pending + Got()| >= READ_BUFFER_SIZE
    }

    /** The next turn of the loop: the buffer is parsed, or kept for another attempt to lock. */
    function Next(): Loop
      requires Valid()
    {
      if Locks() then
        Loop(incoming, n + 1, busy, true, [], read + Got(), parsed + (pending + Got()))
      else Loop(incoming, n + 1, busy - 1, false, pending + Got(), read + Got(), parsed)
    }

    function Run(): Outcome
      requires Valid()
      decreases busy, MAX_LOCKED_READ - |parsed|
    {
      if incoming(n).Fails? then Outcome(false, read, parsed, pending, n + 1)
      else if IsCaughtUp() then Outcome(true, read, parsed, [], n + 1)
      else if |Next().parsed| >= MAX_LOCKED_READ then
        Outcome(true, Next().read, Next().parsed, [], n + 1)
      else Next().Run()
    }

    /**
     Bytes parsed followed by bytes left in the buffer are the bytes read, in order; a call that
     returns normally leaves none; and fewer than MAX_LOCKED_READ + READ_BUFFER_SIZE are parsed.
     */
    lemma {:induction false} Conserves()
      requires Valid() && parsed + pending == read
      ensures var out := Run();
              && out.parsed + out.dropped == out.read
              && (out.ok ==> out.dropped == [])
              && |out.parsed| < MAX_LOCKED_READ + READ_BUFFER_SIZE
              && parsed <= out.parsed
      decreases busy, MAX_LOCKED_READ - |parsed|
    {
      if !incoming(n).Fails? && !IsCaughtUp() {
        Associative(parsed, pending, Got());
        if |Next().parsed| < MAX_LOCKED_READ {
          Next().Conserves();
        }
      }
    }

    /**
     Bytes are lost only when a read fails before the terminal was ever locked: then everything
     read by the call is dropped, and nothing was parsed.
     */
    lemma {:induction false} DropsAllOrNothing()
      requires Valid() && parsed + pending == read
      requires if locked then pending == [] && parsed != [] else parsed == []
      ensures Run().dropped == [] || (!Run().ok && Run().parsed == [] && Run().dropped == Run().read)
      decreases busy, MAX_LOCKED_READ - |parsed|
    {
      if !incoming(n).Fails? && !IsCaughtUp() {
        Associative(parsed, pending, Got());
        if |Next().parsed| < MAX_LOCKED_READ {
          Next().DropsAllOrNothing();
        }
      }
    }
  }

  function Start(incoming: nat -> Incoming, n: nat, busy: nat): (loop: Loop)
    ensures loop.Valid() && loop.parsed + loop.pending == loop.read
  {
    Loop(incoming, n, busy, false, [], [], [])
  }

  /**
   From the n-th read on, with `have` bytes in the buffer, a read fails while the terminal is still
   busy and bytes are waiting for it: the buffer has not been full, and every attempt to lock failed.
   */
  predicate HangsUp(incoming: nat -> Incoming, n: nat, busy: nat, have: nat)
    requires have <= READ_BUFFER_SIZE
    decreases busy
  {
    if incoming(n).Fails? then have > 0
    else
      var now := have + |Chunk(incoming(n), READ_BUFFER_SIZE - have)|;
      0 < now < READ_BUFFER_SIZE && busy > 0 && HangsUp(incoming, n + 1, busy - 1, now)
  }

  /** Once the terminal is locked, nothing that was read is dropped. */
  lemma {:induction false} LockedDropsNothing(loop: Loop)
    requires loop.Valid() && loop.locked && loop.pending == []
    ensures loop.Run().dropped == []
    decreases MAX_LOCKED_READ - |loop.parsed|
  {
    if !loop.incoming(loop.n).Fails? && !loop.IsCaughtUp() {
      if |loop.Next().parsed| < MAX_LOCKED_READ {
        LockedDropsNothing(loop.Next());
      }
    }
  }

  lemma {:induction false} DropsIffHangsUp(loop: Loop)
    requires loop.Valid() && !loop.locked && loop.parsed == []
    ensures loop.Run().dropped != [] <==> HangsUp(loop.incoming, loop.n, loop.busy, |loop.pending|)
    decreases loop.busy
  {
    if !loop.incoming(loop.n).Fails? && !loop.IsCaughtUp() && |loop.Next().parsed| < MAX_LOCKED_READ {
      if loop.Locks() {
        LockedDropsNothing(loop.Next());
      } else {
        DropsIffHangsUp(loop.Next());
      }
    }
  }

  /** A call drops bytes if and only if the reads and the lock attempts that it meets hang it up. */
  lemma CallDropsIffHangsUp(incoming: nat -> Incoming, n: nat, busy: nat)
    ensures Start(incoming, n, busy).Run().dropped != [] <==> HangsUp(incoming, n, busy, 0)
  {
    DropsIffHangsUp(Start(incoming, n, busy));
  }

  /** It does happen: one byte arrives while the terminal is busy, and then the PTY hangs up. */
  lemma HangUpDropsBytes(incoming: nat -> Incoming, b: bv8)
    requires incoming(0) == Data([b]) && incoming(1) == Fails
    ensures Start(incoming, 0, 1).Run() == Outcome(false, [b], [], [b], 2)
  {
    assert [] + [b] == [b];
    assert Start(incoming, 0, 1).Next() == Loop(incoming, 1, 0, false, [b], [b], []);
  }

  /** A call returns normally only when it has parsed enough, or when its last read finds nothing. */
  lemma {:induction false} ReturnsWhenDone(loop: Loop)
    requires loop.Valid()
    ensures var out := loop.Run();
            && out.calls > loop.n && (out.ok <==> !loop.incoming(out.calls - 1).Fails?)
            && (out.ok ==> |out.parsed| >= 65535
                           || Chunk(loop.incoming(out.calls - 1), READ_BUFFER_SIZE) == [])
    decreases loop.busy, MAX_LOCKED_READ - |loop.parsed|
  {
    if !loop.incoming(loop.n).Fails? && !loop.IsCaughtUp() && |loop.Next().parsed| < MAX_LOCKED_READ {
      ReturnsWhenDone(loop.Next());
    }
  }

  // ----- Parsed bytes that no redraw is asked for -----

  /** With the terminal locked and `total` bytes parsed, a later read of the call fails. */
  predicate FailsLocked(incoming: nat -> Incoming, n: nat, total: nat)
    decreases MAX_LOCKED_READ - total
  {
    incoming(n).Fails? ||
    (var got := |Chunk(incoming(n), READ_BUFFER_SIZE)|;
     got > 0 && total + got < MAX_LOCKED_READ && FailsLocked(incoming, n + 1, total + got))
  }

  /** From the n-th read on, with `have` bytes in the buffer, a read fails after bytes were parsed. */
  predicate FailsAfterParsing(incoming: nat -> Incoming, n: nat, busy: nat, have: nat)
    requires have <= READ_BUFFER_SIZE
    decreases busy
  {
    !incoming(n).Fails? &&
    var now := have + |Chunk(incoming(n), READ_BUFFER_SIZE - have)|;
    now > 0 &&
    if busy == 0 || now >= READ_BUFFER_SIZE then
      now < MAX_LOCKED_READ && FailsLocked(incoming, n + 1, now)
    else FailsAfterParsing(incoming, n + 1, busy - 1, now)
  }

  lemma {:induction false} FailsIffFailsLocked(loop: Loop)
    requires loop.Valid() && loop.locked && loop.pending == [] && loop.parsed != []
    ensures !loop.Run().ok <==> FailsLocked(loop.incoming, loop.n, |loop.parsed|)
    ensures loop.Run().parsed != []
    decreases MAX_LOCKED_READ - |loop.parsed|
  {
    if !loop.incoming(loop.n).Fails? && !loop.IsCaughtUp() && |loop.Next().parsed| < MAX_LOCKED_READ {
      FailsIffFailsLocked(loop.Next());
    }
  }

  lemma {:induction false} FailsIffFailsAfterParsing(loop: Loop)
    requires loop.Valid() && !loop.locked && loop.parsed == []
    ensures !loop.Run().ok && loop.Run().parsed != []
       <==> FailsAfterParsing(loop.incoming, loop.n, loop.busy, |loop.pending|)
    decreases loop.busy
  {
    if !loop.incoming(loop.n).Fails? && !loop.IsCaughtUp() && |loop.Next().parsed| < MAX_LOCKED_READ {
      if loop.Locks() {
        FailsIffFailsLocked(loop.Next());
      } else {
        FailsIffFailsAfterParsing(loop.Next());
      }
    }
  }

  /**
   A call returns early with bytes parsed, and so without asking for the redraw they need, if and
   only if it meets a failing read after the terminal was locked and before enough was parsed.
   */
  lemma CallFailsAfterParsing(incoming: nat -> Incoming, n: nat, busy: nat)
    ensures var out := Start(incoming, n, busy).Run();
            !out.ok && out.parsed != [] <==> FailsAfterParsing(incoming, n, busy, 0)
  {
    FailsIffFailsAfterParsing(Start(incoming, n, busy));
  }

  /** It does happen: one byte is read and parsed, and then the PTY hangs up. */
  lemma HangUpSkipsRedraw(incoming: nat -> Incoming, b: bv8)
    requires incoming(0) == Data([b]) && incoming(1) == Fails
    ensures Start(incoming, 0, 0).Run() == Outcome(false, [b], [b], [], 2)
    ensures FailsAfterParsing(incoming, 0, 0, 0)
  {
    assert [] + [b] == [b];
    assert Start(incoming, 0, 0).Next() == Loop(incoming, 1, 0, true, [], [b], [b]);
    CallFailsAfterParsing(incoming, 0, 0);
  }

  // ----- The loop -----

  class Pty {
    const incoming: nat -> Incoming
    var calls: nat
    /** Everything handed out by reads. */
    var produced: Bytes

    constructor (incoming: nat -> Incoming)
      ensures this.incoming == incoming && calls == 0 && produced == []
    {
      this.incoming := incoming;
      calls, produced := 0, [];
    }

    /** Reads into the buffer behind the first `from` bytes. */
    method Read(buf: array<bv8>, from: nat) returns (result: ReadResult)
      requires from <= buf.Length
      modifies this, buf
      ensures calls == old(calls) + 1
      ensures var chunk := Chunk(incoming(old(calls)), buf.Length - from);
              && produced == old(produced) + chunk
              && buf[..from + |chunk|] == old(buf[..from]) + chunk
              && result == match incoming(old(calls))
                           case Data(_) => Got(|chunk|)
                           case WouldBlock => Blocked
                           case Fails => Failed
    {
      var chunk := Chunk(incoming(calls), buf.Length - from);
      ghost var before := buf[..from];
      for i := 0 to |chunk|
        invariant buf[..from + i] == before + chunk[..i]
        invariant calls == old(calls) && produced == old(produced)
      {
        buf[from + i] := chunk[i];
        assert chunk[..i + 1] == chunk[..i] + [chunk[i]];
        assert buf[..from + i + 1] == buf[..from + i] + [chunk[i]];
      }
      assert chunk[..|chunk|] == chunk;
      match incoming(calls) {
        case Data(_) => result := Got(|chunk|);
        case WouldBlock => result := Blocked;
        case Fails => result := Failed;
      }
      produced := produced + chunk;
      calls := calls + 1;
    }
  }

  /** The terminal behind its mutex, with the parser that feeds it. */
  class Terminal {
    /** Attempts to lock it that still fail. */
    var busy: nat
    var parsed: Bytes

    constructor (busy: nat)
      ensures this.busy == busy && parsed == []
    {
      this.busy, parsed := busy, [];
    }

    method TryLock() returns (locked: bool)
      modifies this`busy
      ensures locked <==> old(busy) == 0
      ensures busy == if old(busy) == 0 then 0 else old(busy) - 1
    {
      locked := busy == 0;
      if busy > 0 {
        busy := busy - 1;
      }
    }

    method Advance(bytes: Bytes)
      modifies this`parsed
      ensures parsed == old(parsed) + bytes
    {
      parsed := parsed + bytes;
    }
  }

  /**
   One call of `pty_read`. It returns what it leaves unparsed in the buffer, and whether it asks for
   a redraw: when it returns normally and more was processed than the parser holds back for a
   synchronized update.
   */
  method PtyRead(pty: Pty, terminal: Terminal, buf: array<bv8>, syncBytes: nat)
    returns (ok: bool, dropped: Bytes, wakeup: bool)
    requires buf.Length == READ_BUFFER_SIZE
    modifies pty, terminal, buf
    ensures var out := Start(pty.incoming, old(pty.calls), old(terminal.busy)).Run();
            && ok == out.ok && dropped == out.dropped && pty.calls == out.calls
            && pty.produced == old(pty.produced) + out.read
            && terminal.parsed == old(terminal.parsed) + out.parsed
            && (wakeup <==> ok && syncBytes < |out.parsed| && |out.parsed| > 0)
  {
    var unprocessed, processed, locked := 0, 0, false;
    ghost var loop := Start(pty.incoming, pty.calls, terminal.busy);
    ghost var out := loop.Run();

    while true
      invariant loop.Valid() && loop.Run() == out && AtHead(loop, pty, terminal, locked)
      invariant 0 <= unprocessed <= buf.Length && buf[..unprocessed] == loop.pending
      invariant pty.produced == old(pty.produced) + loop.read
      invariant terminal.parsed == old(terminal.parsed) + loop.parsed
      invariant processed == |loop.parsed|
      decreases loop.busy, MAX_LOCKED_READ - processed
    {
      Associative(old(pty.produced), loop.read, loop.Got());
      Associative(old(terminal.parsed), loop.parsed, loop.pending + loop.Got());
      var turn: Turn;
      var parsing := 0;
      turn, unprocessed, locked, parsing := ReadAndParse(pty, terminal, buf, unprocessed, locked, loop);
      if turn.ReadFailed? {
        return false, buf[..unprocessed], false;
      }
      if turn.CaughtUp? {
        break;
      }
      processed := processed + parsing;
      loop := loop.Next();
      if processed >= MAX_LOCKED_READ {
        break;
      }
    }
    ok, dropped, wakeup := true, [], syncBytes < processed && processed > 0;
  }

  datatype Turn = ReadFailed | CaughtUp | Continue

  /** One turn of the read loop; it returns how much is still unprocessed and how much was parsed. */
  method ReadAndParse(pty: Pty, terminal: Terminal, buf: array<bv8>, start: nat, held: bool,
                      ghost loop: Loop)
    returns (turn: Turn, unprocessed: nat, locked: bool, parsing: nat)
    requires buf.Length == READ_BUFFER_SIZE && loop.Valid() && AtHead(loop, pty, terminal, held)
    requires start <= buf.Length && buf[..start] == loop.pending
    modifies pty, terminal, buf
    ensures turn.ReadFailed? <==> loop.incoming(loop.n).Fails?
    ensures turn.CaughtUp? <==> loop.IsCaughtUp()
    ensures pty.calls == loop.n + 1 && pty.produced == old(pty.produced) + loop.Got()
    ensures unprocessed <= buf.Length
    ensures if turn.Continue? then
              && AtHead(loop.Next(), pty, terminal, locked)
              && buf[..unprocessed] == loop.Next().pending
              && parsing == (if loop.Locks() then |loop.pending + loop.Got()| else 0)
              && terminal.parsed == old(terminal.parsed)
                                    + if loop.Locks() then loop.pending + loop.Got() else []
            else buf[..unprocessed] == loop.pending && terminal.parsed == old(terminal.parsed)
  {
    turn, unprocessed, locked, parsing := Continue, start, held, 0;
    var result := pty.Read(buf, start);
    if result.Failed? {
      return ReadFailed, unprocessed, locked, 0;
    }
    if unprocessed == 0 && (result.Blocked? || result == Got(0)) {
      return CaughtUp, unprocessed, locked, 0;
    }
    if result.Got? {
      unprocessed := unprocessed + result.n;
    }

    if !locked {
      locked := LockTerminal(terminal, unprocessed);
    }
    if locked {
      terminal.Advance(buf[..unprocessed]);
      parsing := unprocessed;
      unprocessed := 0;
    }
  }

  /** Try to lock, and wait for the lock if we are at the buffer size limit. */
  method LockTerminal(terminal: Terminal, unprocessed: nat) returns (locked: bool)
    modifies terminal`busy
    ensures locked <==> old(terminal.busy) == 0 || unprocessed >= READ_BUFFER_SIZE
    ensures !locked ==> terminal.busy == old(terminal.busy) - 1
  {
    locked := terminal.TryLock();
    if !locked && unprocessed >= READ_BUFFER_SIZE {
      locked := true;
    }
  }

  ghost predicate AtHead(loop: Loop, pty: Pty, terminal: Terminal, locked: bool)
    reads pty, terminal
  {
    && loop.incoming == pty.incoming && loop.n == pty.calls && loop.locked == locked
    && (locked || loop.busy == terminal.busy)
  }
}
