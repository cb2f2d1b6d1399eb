/** Input on its way to the PTY: the channel, the write list, and partial writes. */
module PtyWrite {
  import opened Content
  import opened Sequences

  type Bytes = seq<bv8>

  datatype Msg = Input(bytes: Bytes) | Shutdown | Resize(size: nat)

  /** A buffer being written, and how much of it has been. */
  datatype Writing = Writing(source: Bytes, written: nat) {
    predicate Valid() { written <= |source| }

    function Remaining(): Bytes
      requires Valid()
    {
      source[written..]
    }

    predicate Finished() { written >= |source| }
  }

  // ----- Bytes that are still to be written -----

  function Concat(list: seq<Bytes>): Bytes {
    if list == [] then [] else list[0] + Concat(list[1..])
  }

  lemma {:induction false} ConcatSnoc(list: seq<Bytes>, bytes: Bytes)
    ensures Concat(list + [bytes]) == Concat(list) + bytes
  {
    if list != [] {
      ConcatSnoc(list[1..], bytes);
      assert (list + [bytes])[1..] == list[1..] + [bytes];
    }
  }

  lemma {:induction false} ConcatEmpty(list: seq<Bytes>)
    requires [] !in list
    ensures Concat(list) == [] <==> list == []
  {
    if list != [] {
      assert list[0] != [];
    }
  }

  /** The input among the messages, in order. */
  function Inputs(msgs: seq<Msg>): Bytes {
    if msgs == [] then []
    else (if msgs[0].Input? then msgs[0].bytes else []) + Inputs(msgs[1..])
  }

  lemma {:induction false} InputsSnoc(msgs: seq<Msg>, msg: Msg)
    ensures Inputs(msgs + [msg]) == Inputs(msgs) + if msg.Input? then msg.bytes else []
  {
    if msgs != [] {
      InputsSnoc(msgs[1..], msg);
      assert (msgs + [msg])[1..] == msgs[1..] + [msg];
    }
  }

  lemma InputsSkip(msgs: seq<Msg>)
    requires msgs != [] && !msgs[0].Input?
    ensures Inputs(msgs) == Inputs(msgs[1..])
  {
    assert [] + Inputs(msgs[1..]) == Inputs(msgs[1..]);
  }

  /** Bytes taken from the channel that the PTY has not accepted. */
  function Drained(writing: Option<Writing>, list: seq<Bytes>): Bytes
    requires writing.Some? ==> writing.value.Valid()
  {
    (if writing.Some? then writing.value.Remaining() else []) + Concat(list)
  }

  predicate NeedsWrite(writing: Option<Writing>, list: seq<Bytes>) {
    writing.Some? || list != []
  }

  /** No empty input is queued and no finished buffer is current. */
  predicate Proper(writing: Option<Writing>, list: seq<Bytes>) {
    [] !in list && (writing.Some? ==> writing.value.Valid() && !writing.value.Finished())
  }

  /** Write interest is wanted exactly when drained bytes are unsent. */
  lemma NeedsWriteIffUnsent(writing: Option<Writing>, list: seq<Bytes>)
    requires Proper(writing, list)
    ensures NeedsWrite(writing, list) <==> Drained(writing, list) != []
  {
    ConcatEmpty(list);
  }

  /**
   The front buffer has nothing left to write, which only an empty input can bring about: write
   interest is wanted, and the next write is one of no bytes.
   */
  predicate Stuck(writing: Option<Writing>, list: seq<Bytes>) {
    if writing.Some? then writing.value.Finished() else list != [] && list[0] == []
  }

  lemma StuckNeedsEmptyInput(writing: Option<Writing>, list: seq<Bytes>)
    ensures Proper(writing, list) ==> !Stuck(writing, list)
    ensures Stuck(writing, list) ==> NeedsWrite(writing, list)
  {
  }

  // ----- The PTY -----

  datatype Outcome = Accepts(n: nat) | WouldBlock | Fails

  datatype WriteResult = Wrote(n: nat) | Blocked | Failed

  /** The PTY, with what the operating system will answer to each write. */
  class Pty {
    const answers: nat -> Outcome
    var calls: nat
    var written: Bytes

    constructor (answers: nat -> Outcome)
      ensures this.answers == answers && calls == 0 && written == []
    {
      this.answers := answers;
      calls, written := 0, [];
    }

    method Write(bytes: Bytes) returns (result: WriteResult)
      modifies this
      ensures calls == old(calls) + 1
      ensures match result
              case Wrote(n) => n <= |bytes| && written == old(written) + bytes[..n]
              case _ => written == old(written)
      ensures result == match answers(old(calls))
                        case Accepts(n) => Wrote(if n <= |bytes| then n else |bytes|)
                        case WouldBlock => Blocked
                        case Fails => Failed
    {
      match answers(calls) {
        case Accepts(n) =>
          var m := if n <= |bytes| then n else |bytes|;
          written := written + bytes[..m];
          result := Wrote(m);
        case WouldBlock => result := Blocked;
        case Fails => result := Failed;
      }
      calls := calls + 1;
    }
  }

  datatype Status = Idle | Stalled | Error

  /** Why a write loop stopped: the PTY's last answer, or a buffer with nothing to write. */
  predicate Explains(status: Status, answer: Outcome, stuck: bool) {
    match status
    case Idle => true
    case Stalled => answer == WouldBlock || answer == Accepts(0) || (answer.Accepts? && stuck)
    case Error => answer == Fails
  }

  /** What the write loop is judged by: the bytes written and to be written when it starts. */
  datatype Start = Start(written: Bytes, total: Bytes, proper: bool, stuck: bool)

  // ----- The event loop -----

  /** What receiving leaves in the channel: nothing, or what comes after a shutdown message. */
  function AfterReceiving(msgs: seq<Msg>): (rest: (seq<Msg>, bool))
    ensures rest.1 <==> Shutdown !in msgs
    ensures rest.1 ==> rest.0 == []
  {
    if msgs == [] then ([], true)
    else if msgs[0] == Shutdown then (msgs[1..], false)
    else AfterReceiving(msgs[1..])
  }

  /** The messages after the first shutdown message are left. */
  lemma {:induction false} ReceivingStopsAtShutdown(msgs: seq<Msg>, i: nat)
    requires i < |msgs| && msgs[i] == Shutdown && Shutdown !in msgs[..i]
    ensures AfterReceiving(msgs) == (msgs[i + 1..], false)
  {
    if i > 0 {
      assert msgs[..i][0] == msgs[0];
      assert msgs[1..][..i - 1] == msgs[..i][1..];
      ReceivingStopsAtShutdown(msgs[1..], i - 1);
    }
  }

  class EventLoop {
    const pty: Pty
    /** The channel, oldest message first, and the message taken from it by a peek. */
    var rx: seq<Msg>
    var peeked: Option<Msg>
    var writeList: seq<Bytes>
    var writing: Option<Writing>
    /** All input given to `notify` and `send`, in order. */
    ghost var accepted: Bytes

    /** Messages that have not been received, a peeked one first. */
    function Pending(): seq<Msg>
      reads this
    {
      (if peeked.Some? then [peeked.value] else []) + rx
    }

    /** Nothing is lost, doubled or reordered between `notify` and the PTY. */
    ghost predicate Valid()
      reads this, pty
    {
      && (writing.Some? ==> writing.value.Valid())
      && accepted == pty.written + Drained(writing, writeList) + Inputs(Pending())
    }

    /** No empty input is anywhere on its way. */
    ghost predicate NoEmptyInput()
      reads this
    {
      Proper(writing, writeList) && Input([]) !in Pending()
    }

    constructor (pty: Pty)
      requires pty.written == []
      ensures Valid() && NoEmptyInput() && this.pty == pty && accepted == []
    {
      this.pty := pty;
      rx, peeked, writeList, writing, accepted := [], None, [], None, [];
    }

    /** Empty inputs are not sent. */
    method Notify(bytes: Bytes)
      requires Valid()
      modifies this`rx, this`accepted
      ensures Valid() && accepted == old(accepted) + bytes
      ensures old(NoEmptyInput()) ==> NoEmptyInput()
    {
      if bytes == [] {
        assert accepted + bytes == accepted;
        return;
      }
      Send(Input(bytes));
    }

    /** The channel's sender, which anyone can use. */
    method Send(msg: Msg)
      requires Valid()
      modifies this`rx, this`accepted
      ensures Valid() && rx == old(rx) + [msg]
      ensures accepted == old(accepted) + if msg.Input? then msg.bytes else []
      ensures old(NoEmptyInput()) && msg != Input([]) ==> NoEmptyInput()
    {
      ghost var bytes := if msg.Input? then msg.bytes else [];
      InputsSnoc(Pending(), msg);
      assert Pending() + [msg] == (if peeked.Some? then [peeked.value] else []) + (rx + [msg]);
      Associative(pty.written + Drained(writing, writeList), Inputs(Pending()), bytes);
      accepted := accepted + bytes;
      rx := rx + [msg];
    }

    /** Looking at the next message takes it out of the channel, but not out of the order. */
    method Peek() returns (msg: Option<Msg>)
      requires Valid()
      modifies this`rx, this`peeked
      ensures Valid() && Pending() == old(Pending())
      ensures old(NoEmptyInput()) ==> NoEmptyInput()
      ensures msg == if Pending() == [] then None else Some(Pending()[0])
    {
      if peeked.None? {
        if rx != [] {
          peeked := Some(rx[0]);
          rx := rx[1..];
        }
        assert Pending() == old(Pending());
      }
      msg := peeked;
    }

    method Recv() returns (msg: Option<Msg>)
      modifies this`rx, this`peeked
      ensures old(Pending()) == (if msg.Some? then [msg.value] else []) + Pending()
      ensures msg.None? <==> old(Pending()) == []
    {
      if peeked.Some? {
        msg := peeked;
        peeked := None;
      } else if rx == [] {
        msg := None;
      } else {
        msg := Some(rx[0]);
        rx := rx[1..];
      }
    }

    /** Returns false when a shutdown message was received; later messages stay in the channel. */
    method DrainRecvChannel() returns (open: bool)
      requires Valid()
      modifies this`rx, this`peeked, this`writeList
      ensures Valid()
      ensures (Pending(), open) == AfterReceiving(old(Pending()))
      ensures old(NoEmptyInput()) ==> NoEmptyInput()
      ensures old(Stuck(writing, writeList)) ==> Stuck(writing, writeList)
    {
      while true
        invariant Valid()
        invariant AfterReceiving(Pending()) == AfterReceiving(old(Pending()))
        invariant old(NoEmptyInput()) ==> NoEmptyInput()
        invariant old(Stuck(writing, writeList)) ==> Stuck(writing, writeList)
        decreases |Pending()|
      {
        ghost var before := Pending();
        var msg := Recv();
        if msg.None? {
          return true;
        }
        assert before == [msg.value] + Pending() && before[1..] == Pending();
        match msg.value {
          case Input(bytes) => PushInput(bytes, before);
          case Resize(_) => SkipMessage(before);
          case Shutdown =>
            SkipMessage(before);
            return false;
        }
      }
    }

    /** An input message goes from the channel to the write list. */
    method PushInput(bytes: Bytes, ghost before: seq<Msg>)
      requires (writing.Some? ==> writing.value.Valid()) && before == [Input(bytes)] + Pending()
      requires accepted == pty.written + Drained(writing, writeList) + Inputs(before)
      modifies this`writeList
      ensures Valid()
      ensures old(Proper(writing, writeList)) && Input([]) !in before ==> NoEmptyInput()
      ensures old(Stuck(writing, writeList)) ==> Stuck(writing, writeList)
    {
      assert before[0] == Input(bytes) && before[1..] == Pending();
      ConcatSnoc(writeList, bytes);
      Associative(pty.written, Drained(writing, writeList), bytes);
      Associative(pty.written + Drained(writing, writeList), bytes, Inputs(Pending()));
      assert Drained(writing, writeList + [bytes]) == Drained(writing, writeList) + bytes by {
        Associative(if writing.Some? then writing.value.Remaining() else [], Concat(writeList), bytes);
      }
      writeList := writeList + [bytes];
    }

    lemma SkipMessage(before: seq<Msg>)
      requires (writing.Some? ==> writing.value.Valid()) && before != [] && before[1..] == Pending()
      requires !before[0].Input?
      requires accepted == pty.written + Drained(writing, writeList) + Inputs(before)
      ensures Valid()
      ensures Proper(writing, writeList) && Input([]) !in before ==> NoEmptyInput()
    {
      InputsSkip(before);
    }

    method GotoNext()
      modifies this`writing, this`writeList
      ensures writing == if old(writeList) == [] then None else Some(Writing(old(writeList)[0], 0))
      ensures writeList == if old(writeList) == [] then [] else old(writeList)[1..]
    {
      if writeList == [] {
        writing := None;
      } else {
        writing := Some(Writing(writeList[0], 0));
        writeList := writeList[1..];
      }
    }

    method EnsureNext()
      requires Valid()
      modifies this`writing, this`writeList
      ensures Valid() && Drained(writing, writeList) == old(Drained(writing, writeList))
      ensures writing.None? ==> writeList == []
      ensures old(Proper(writing, writeList)) ==> Proper(writing, writeList)
      ensures old(Stuck(writing, writeList)) <==> Stuck(writing, writeList)
    {
      if writing.None? {
        NextBuffer(writeList);
        GotoNext();
      }
    }

    /**
     Writes until nothing is left, the PTY accepts nothing, or it fails. The loop ends because every
     positive write leaves fewer drained bytes. Once an empty buffer is in front, no byte is written
     any more, whatever the PTY would accept.
     */
    method PtyWrite() returns (status: Status)
      requires Valid()
      modifies this`writing, this`writeList, pty
      ensures Valid()
      ensures old(pty.written) <= pty.written
      ensures status.Idle? ==> !NeedsWrite(writing, writeList)
      ensures !status.Idle? ==>
                pty.calls > 0 && Explains(status, pty.answers(pty.calls - 1), Stuck(writing, writeList))
      ensures pty.written + Drained(writing, writeList)
           == old(pty.written + Drained(writing, writeList))
      ensures old(NoEmptyInput()) ==> NoEmptyInput()
      ensures old(Stuck(writing, writeList)) ==>
                && Stuck(writing, writeList) && NeedsWrite(writing, writeList)
                && pty.written == old(pty.written)
    {
      EnsureNext();
      ghost var start := Start(pty.written, pty.written + Drained(writing, writeList),
                               NoEmptyInput(), Stuck(writing, writeList));
      status := WriteMany(start);
    }

    method WriteMany(ghost start: Start) returns (status: Status)
      requires Working(start, Idle)
      modifies this`writing, this`writeList, pty
      ensures Working(start, status) && (status.Idle? ==> writing.None?)
    {
      status := Idle;
      while writing.Some? && status.Idle?
        invariant Working(start, status)
        decreases |Drained(writing, writeList)|, status.Idle?
      {
        status := WriteNext(start);
      }
    }

    /** The write loop, in terms of where it started. */
    ghost predicate Working(start: Start, status: Status)
      reads this, pty
    {
      && (writing.Some? ==> writing.value.Valid()) && (writing.None? ==> writeList == [])
      && pty.written + Drained(writing, writeList) == start.total && start.written <= pty.written
      && (start.proper ==> Proper(writing, writeList))
      && (start.stuck ==> Stuck(writing, writeList) && pty.written == start.written)
      && (!status.Idle? ==>
            pty.calls > 0 && Explains(status, pty.answers(pty.calls - 1), Stuck(writing, writeList)))
    }

    /** One turn of the loop. */
    method WriteNext(ghost start: Start) returns (status: Status)
      requires Working(start, Idle) && writing.Some?
      modifies this`writing, this`writeList, pty
      ensures Working(start, status)
      ensures status.Idle? ==> |Drained(writing, writeList)| < old(|Drained(writing, writeList)|)
      ensures !status.Idle? ==> Drained(writing, writeList) == old(Drained(writing, writeList))
    {
      var current := writing.value;
      writing := None;
      status := WriteOnce(current);
    }

    /** One write of the current buffer, which has been taken out of the state. */
    method WriteOnce(current: Writing) returns (status: Status)
      requires writing == None && current.Valid()
      modifies this`writing, this`writeList, pty
      ensures (writing.Some? ==> writing.value.Valid()) && (writing.None? ==> writeList == [])
      ensures Proper(Some(current), old(writeList)) ==> Proper(writing, writeList)
      ensures old(pty.written) <= pty.written
      ensures pty.calls > 0
      ensures Explains(status, pty.answers(pty.calls - 1), Stuck(writing, writeList))
      ensures pty.written + Drained(writing, writeList)
           == old(pty.written) + Drained(Some(current), old(writeList))
      ensures if status.Idle? then
                && !current.Finished()
                && |Drained(writing, writeList)| < |Drained(Some(current), old(writeList))|
              else
                && writing == Some(current) && writeList == old(writeList)
                && pty.written == old(pty.written)
    {
      var remaining := current.Remaining();
      var result := pty.Write(remaining);
      match result {
        case Wrote(n) =>
          if n == 0 {
            assert remaining[..0] == [];
            writing := Some(current);
            return Stalled;
          }
          var next := current.(written := current.written + n);
          WriteStep(current, n, writeList);
          Associative(old(pty.written), remaining[..n], Drained(Some(next), writeList));
          if next.Finished() {
            NextBuffer(writeList);
            GotoNext();
          } else {
            writing := Some(next);
          }
          return Idle;
        case Blocked =>
          writing := Some(current);
          return Stalled;
        case Failed =>
          writing := Some(current);
          return Error;
      }
    }
  }

  /** Taking the next buffer from the list changes no bytes. */
  lemma NextBuffer(list: seq<Bytes>)
    ensures list != [] ==>
              && ([] !in list ==> Proper(Some(Writing(list[0], 0)), list[1..]))
              && Drained(Some(Writing(list[0], 0)), list[1..]) == Drained(None, list)
  {
  }

  /** A write of n bytes moves exactly those bytes out of what is drained. */
  lemma WriteStep(current: Writing, n: nat, list: seq<Bytes>)
    requires current.Valid() && n <= |current.Remaining()|
    ensures var next := current.(written := current.written + n);
            && next.Valid()
            && (next.Finished() <==> n == |current.Remaining()|)
            && Drained(Some(current), list)
               == current.Remaining()[..n] + Drained(Some(next), list)
            && (next.Finished() ==> Drained(Some(next), list) == Drained(None, list))
  {
    var next := current.(written := current.written + n);
    assert current.Remaining() == current.Remaining()[..n] + next.Remaining();
    Associative(current.Remaining()[..n], next.Remaining(), Concat(list));
  }
}
