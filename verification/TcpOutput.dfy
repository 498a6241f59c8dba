/** The output path of a connection of the reactor: direct writes, the output buffer, the write
    interest of the channel, and the ways a connection closes. */
module TcpOutput {
  import opened Pdu
  import opened ByteBuffer

  // ---- the channel's event mask ----

  const NONE_EVENT: bv16 := 0
  const READ_EVENT: bv16 := 3   // POLLIN | POLLPRI
  const WRITE_EVENT: bv16 := 4  // POLLOUT
  const POLLIN: bv16 := 1
  const POLLPRI: bv16 := 2
  const POLLOUT: bv16 := 4
  const POLLHUP: bv16 := 16
  const POLLRDHUP: bv16 := 0x2000

  class Channel {
    var events: bv16
    var addedToLoop: bool

    constructor ()
      ensures events == NONE_EVENT && !addedToLoop
    {
      events, addedToLoop := NONE_EVENT, false;
    }

    predicate IsWriting()
      reads this
    {
      events & WRITE_EVENT != 0
    }

    predicate IsReading()
      reads this
    {
      events & READ_EVENT != 0
    }

    method EnableReading()
      modifies this
      ensures IsReading() && IsWriting() == old(IsWriting()) && addedToLoop
    {
      events, addedToLoop := events | READ_EVENT, true;
    }

    method EnableWriting()
      modifies this
      ensures IsWriting() && IsReading() == old(IsReading()) && addedToLoop
    {
      events, addedToLoop := events | WRITE_EVENT, true;
    }

    method DisableWriting()
      modifies this
      ensures !IsWriting() && IsReading() == old(IsReading()) && addedToLoop
    {
      events, addedToLoop := events & !WRITE_EVENT, true;
    }

    method DisableAll()
      modifies this
      ensures events == NONE_EVENT && !IsWriting() && !IsReading() && addedToLoop
    {
      events, addedToLoop := NONE_EVENT, true;
    }
  }

  // ---- the connection ----

  datatype State = Disconnected | Connecting | Connected | Disconnecting

  predicate SaysHangup(revents: bv16) { revents & POLLHUP != 0 && revents & POLLIN == 0 }

  predicate SaysReadable(revents: bv16) { revents & (POLLIN | POLLPRI | POLLRDHUP) != 0 }

  predicate SaysWritable(revents: bv16) { revents & POLLOUT != 0 }

  // What a write to the socket answers
  datatype Outcome = Wrote(n: nat) | WouldBlock | Broken | OtherError

  // What a read from the socket answers
  datatype Reading = Data | Ended | Failed

  datatype Task =
    | SendTask(data: seq<byte>)
    | ShutdownTask
    | ForceCloseTask
    | WriteCompleteTask
    | HighWaterTask(len: nat)

  predicate Possible(out: Outcome, len: nat) {
    out.Wrote? ==> out.n <= len
  }

  function Taken(out: Outcome): nat {
    if out.Wrote? then out.n else 0
  }

  // What a send leaves for the buffer: all of the data behind other bytes, else what the socket did
  // not take, and nothing once the connection is found broken
  function Kept(before: seq<byte>, data: seq<byte>, out: Outcome): seq<byte>
    requires Possible(out, |data|)
  {
    if before != [] then data else if out.Broken? then [] else data[Taken(out)..]
  }

  // A call of shutdownWrite: the state it was made in, and what was still in the output buffer
  datatype Cut = Cut(state: State, left: seq<byte>)

  class TcpConnection {
    const channel: Channel
    const outputBuffer: Buffer
    const writeComplete: bool   // is a write-complete callback set
    const highWater: bool       // is a high-water callback set
    const highWaterMark: nat
    var state: State
    var pending: seq<Task>      // what is queued for this connection in the loop
    ghost var cuts: seq<Cut>
    ghost var accepted: seq<byte>  // everything sendInLoop took on
    ghost var wire: seq<byte>      // everything the socket took
    ghost var lost: bool           // a broken direct write dropped bytes

    predicate Open()
      reads `state
    {
      state.Connected? || state.Disconnecting?
    }

    // What is accepted is on the wire or still buffered; write interest is on just when it is
    ghost predicate Flow()
      reads this, channel, outputBuffer, outputBuffer.buffer
    {
      && outputBuffer.Valid()
      && (!lost ==> wire + outputBuffer.Contents() == accepted)
      && (Open() ==> channel.IsReading() && (channel.IsWriting() <==> outputBuffer.Contents() != []))
      && (!Open() ==> channel.events == NONE_EVENT)
      && (state.Connecting? ==> accepted == [] && !lost)
    }

    // Each shutdownWrite finds nothing left, unless the connection is gone already; and a
    // connection closing down has been cut or has still something that leads there
    ghost predicate Closing(empty: bool)
      reads `state, `pending, `cuts
    {
      && (state.Connecting? ==> pending == [])
      && (state.Connecting? || state.Connected? ==>
            cuts == [] && ShutdownTask !in pending && ForceCloseTask !in pending)
      && (state.Disconnecting? && empty ==> cuts != [] || ShutdownTask in pending || ForceCloseTask in pending)
      && (forall i :: 0 <= i < |cuts| ==> cuts[i].left == [] || cuts[i].state.Disconnected?)
    }

    ghost predicate Valid()
      reads this, channel, outputBuffer, outputBuffer.buffer
    {
      Flow() && Closing(outputBuffer.Contents() == [])
    }

    constructor (hasWriteComplete: bool, hasHighWater: bool, mark: nat)
      ensures Valid() && state.Connecting? && outputBuffer.Contents() == []
      ensures fresh(channel) && fresh(outputBuffer) && fresh(outputBuffer.buffer)
    {
      channel := new Channel();
      outputBuffer := new Buffer();
      writeComplete, highWater, highWaterMark := hasWriteComplete, hasHighWater, mark;
      state, pending, cuts, accepted, wire, lost := Connecting, [], [], [], [], false;
    }

    method ConnectEstablished()
      requires Valid() && state.Connecting?
      modifies `state, channel
      ensures Valid() && state.Connected?
    {
      assert !channel.IsWriting();
      state := Connected;
      channel.EnableReading();
    }

    // The callbacks queued for data sent while the bytes before are buffered
    ghost function Callbacks(before: seq<byte>, data: seq<byte>, out: Outcome): seq<Task>
      requires Possible(out, |data|)
    {
      (if before == [] && out == Wrote(|data|) && writeComplete then [WriteCompleteTask] else [])
      + (var n := |before| + |Kept(before, data, out)|;
         if highWater && |before| < highWaterMark <= n then [HighWaterTask(n)] else [])
    }

    /** At most one callback: write-complete exactly if nothing was buffered and all of the data was
        taken at once, the high-water mark exactly if what is buffered now has crossed it. */
    lemma CallbacksExactly(before: seq<byte>, data: seq<byte>, out: Outcome)
      requires Possible(out, |data|)
      ensures var q := Callbacks(before, data, out);
        && |q| <= 1
        && (WriteCompleteTask in q <==> writeComplete && before == [] && out == Wrote(|data|))
        && (forall n :: HighWaterTask(n) in q <==>
              highWater && |before| < highWaterMark <= n
              && ((before != [] && n == |before| + |data|)
                  || (before == [] && !out.Broken? && n == |data| - Taken(out))))
    {}

    // Run where it is called when that is the loop's thread, queued otherwise
    method Send(data: seq<byte>, inLoopThread: bool, out: Outcome)
      requires Valid() && Possible(out, |data|)
      modifies this, channel, outputBuffer, outputBuffer.buffer
      ensures Valid() && (outputBuffer.buffer == old(outputBuffer.buffer) || fresh(outputBuffer.buffer))
      ensures state == old(state) && cuts == old(cuts)
      ensures accepted == old(accepted) + if old(state).Connected? && inLoopThread then data else []
      ensures old(state).Connected? && !inLoopThread ==> pending == old(pending) + [SendTask(data)]
      ensures !(old(state).Connected? && inLoopThread) ==>
                wire == old(wire) && lost == old(lost) && outputBuffer.Contents() == old(outputBuffer.Contents())
      ensures !old(state).Connected? ==> pending == old(pending)
      ensures old(state).Connected? && inLoopThread ==>
        var before := old(outputBuffer.Contents());
        && wire == old(wire) + (if before == [] then data[..Taken(out)] else [])
        && outputBuffer.Contents() == before + Kept(before, data, out)
        && pending == old(pending) + Callbacks(before, data, out)
    {
      if state.Connected? {
        if inLoopThread {
          SendInLoop(data, out);
        } else {
          pending := pending + [SendTask(data)];
        }
      }
    }

    method SendInLoop(data: seq<byte>, out: Outcome)
      requires Valid() && !state.Connecting? && Possible(out, |data|)
      modifies this, channel, outputBuffer, outputBuffer.buffer
      ensures Valid() && (outputBuffer.buffer == old(outputBuffer.buffer) || fresh(outputBuffer.buffer))
      ensures state == old(state) && cuts == old(cuts)
      ensures accepted == old(accepted) + if old(state).Disconnected? then [] else data
      ensures lost == (old(lost) || (Open() && old(outputBuffer.Contents()) == [] && out.Broken? && data != []))
      ensures wire == old(wire) + if Open() && old(outputBuffer.Contents()) == [] then data[..Taken(out)] else []
      ensures !Open() ==> outputBuffer.Contents() == old(outputBuffer.Contents()) && pending == old(pending)
      ensures Open() ==>
        var before := old(outputBuffer.Contents());
        outputBuffer.Contents() == before + Kept(before, data, out)
        && pending == old(pending) + Callbacks(before, data, out)
    {
      hide Channel.IsWriting, Channel.IsReading, Closing;
      if state.Disconnected? { return; }
      var nwrote: nat := 0;
      var faultError := false;
      accepted := accepted + data;
      if !channel.IsWriting() && outputBuffer.writerIndex == outputBuffer.readerIndex {
        assert outputBuffer.Contents() == [] && wire + [] == wire;
        nwrote, faultError := WriteNow(data, out);
      }
      if !faultError && |data| > nwrote {
        assert data[0..] == data;
        KeepRest(data[nwrote..]);
      }
    }

    // The direct write, tried when nothing is buffered
    method WriteNow(data: seq<byte>, out: Outcome) returns (nwrote: nat, faultError: bool)
      requires Possible(out, |data|) && Open() && Closing(true) && (!lost ==> wire + data == accepted)
      modifies `pending, `wire, `lost
      ensures nwrote == Taken(out) && faultError == out.Broken?
      ensures Closing(true) && Closing(false) && (!lost ==> wire + data[nwrote..] == accepted)
      ensures wire == old(wire) + data[..nwrote] && lost == (old(lost) || (faultError && data != []))
      ensures pending == old(pending)
                         + if out.Wrote? && nwrote == |data| && writeComplete then [WriteCompleteTask] else []
    {
      nwrote, faultError := 0, false;
      if out.Wrote? {
        nwrote := out.n;
        assert wire + data == wire + data[..nwrote] + data[nwrote..];
        wire := wire + data[..nwrote];
        if nwrote == |data| && writeComplete { pending := pending + [WriteCompleteTask]; }
      } else if out.Broken? {
        faultError := true;
        lost := lost || data != [];
      }
    }

    // What could not be written yet is buffered, and the channel asked to report when it can be
    method KeepRest(rest: seq<byte>)
      requires outputBuffer.Valid() && Open() && rest != [] && channel.IsReading()
      requires !lost ==> wire + (outputBuffer.Contents() + rest) == accepted
      requires Closing(false)
      modifies `pending, channel, outputBuffer, outputBuffer.buffer
      ensures Flow() && Closing(false)
      ensures outputBuffer.buffer == old(outputBuffer.buffer) || fresh(outputBuffer.buffer)
      ensures outputBuffer.Contents() == old(outputBuffer.Contents()) + rest
      ensures var oldLen := |old(outputBuffer.Contents())|;
              pending == old(pending) + if highWater && oldLen < highWaterMark <= oldLen + |rest|
                                        then [HighWaterTask(oldLen + |rest|)] else []
    {
      hide Channel.IsWriting, Channel.IsReading;
      var oldLen := outputBuffer.writerIndex - outputBuffer.readerIndex;
      if oldLen + |rest| >= highWaterMark && oldLen < highWaterMark && highWater {
        pending := pending + [HighWaterTask(oldLen + |rest|)];
      }
      outputBuffer.Append(rest);
      if !channel.IsWriting() { channel.EnableWriting(); }
    }

    method Shutdown(inLoopThread: bool)
      requires Valid()
      modifies `state, `pending, `cuts
      ensures Valid()
      ensures state == if old(state).Connected? then Disconnecting else old(state)
      ensures old(state).Connected? && inLoopThread ==>
                && pending == old(pending)
                && cuts == if outputBuffer.Contents() == [] then [Cut(Disconnecting, [])] else []
      ensures old(state).Connected? && !inLoopThread ==> pending == old(pending) + [ShutdownTask] && cuts == []
      ensures !old(state).Connected? ==> pending == old(pending) && cuts == old(cuts)
    {
      if state.Connected? {
        state := Disconnecting;
        if inLoopThread {
          ShutdownInLoop();
        } else {
          pending := pending + [ShutdownTask];
        }
      }
    }

    method ShutdownInLoop()
      requires Flow() && Closing(false) && !state.Connecting? && !state.Connected?
      modifies `cuts
      ensures Flow() && Closing(false)
      ensures state.Disconnecting? ==>
                cuts == old(cuts) + if outputBuffer.Contents() == [] then [Cut(state, [])] else []
      ensures state.Disconnected? ==> cuts == old(cuts) + [Cut(state, outputBuffer.Contents())]
    {
      if !channel.IsWriting() {
        cuts := cuts + [Cut(state, outputBuffer.Contents())];
      }
    }

    method ForceClose()
      requires Valid()
      modifies `state, `pending
      ensures Valid()
      ensures if old(Open()) then state.Disconnecting? && pending == old(pending) + [ForceCloseTask]
              else state == old(state) && pending == old(pending)
    {
      if Open() {
        state := Disconnecting;
        pending := pending + [ForceCloseTask];
      }
    }

    method ForceCloseInLoop()
      requires Flow() && Closing(false)
      modifies `state, channel
      ensures Flow() && Closing(false) && state == if old(Open()) then Disconnected else old(state)
    {
      if Open() { HandleClose(); }
    }

    // For open connections only
    method HandleClose()
      requires Flow() && Closing(false) && Open()
      modifies `state, channel
      ensures Valid() && state.Disconnected?
    {
      state := Disconnected;
      channel.DisableAll();
    }

    method HandleWrite(out: Outcome)
      requires Valid() && Possible(out, |outputBuffer.Contents()|)
      modifies `pending, `cuts, `wire, channel, outputBuffer`readerIndex, outputBuffer`writerIndex
      ensures Valid() && state == old(state) && accepted == old(accepted) && lost == old(lost)
      ensures var n := if old(channel.IsWriting()) then Taken(out) else 0;
              && wire == old(wire) + old(outputBuffer.Contents())[..n]
              && outputBuffer.Contents() == old(outputBuffer.Contents())[n..]
              && (if n > 0 && outputBuffer.Contents() == [] then
                    && pending == old(pending) + (if writeComplete then [WriteCompleteTask] else [])
                    && cuts == old(cuts) + (if state.Disconnecting? then [Cut(Disconnecting, [])] else [])
                  else cuts == old(cuts) && pending == old(pending))
    {
      hide Channel.IsWriting, Channel.IsReading;
      NoneNotWriting();
      if channel.IsWriting() {
        var n := Taken(out);
        if n > 0 {
          ghost var before := outputBuffer.Contents();
          assert before == before[..n] + before[n..];
          wire := wire + before[..n];
          outputBuffer.Retrieve(n);
          if outputBuffer.writerIndex == outputBuffer.readerIndex { Drained(); }
        }
      }
    }

    lemma NoneNotWriting()
      ensures channel.events == NONE_EVENT ==> !channel.IsWriting()
    {}

    // The last buffered byte is written: no more write interest, and a shutdown is made good
    method Drained()
      requires outputBuffer.Valid() && outputBuffer.Contents() == [] && Closing(false)
      requires Open() && channel.IsReading() && (!lost ==> wire == accepted)
      modifies `pending, `cuts, channel
      ensures Flow() && Closing(true)
      ensures pending == old(pending) + if writeComplete then [WriteCompleteTask] else []
      ensures cuts == old(cuts) + if state.Disconnecting? then [Cut(Disconnecting, [])] else []
    {
      hide Channel.IsWriting, Channel.IsReading;
      channel.DisableWriting();
      if writeComplete { pending := pending + [WriteCompleteTask]; }
      if state.Disconnecting? { ShutdownInLoop(); }
    }

    // One functor of the loop's queue, the oldest
    method RunTask(out: Outcome)
      requires Valid() && pending != []
      requires pending[0].SendTask? ==> Possible(out, |pending[0].data|)
      modifies this, channel, outputBuffer, outputBuffer.buffer
      ensures Valid() && (outputBuffer.buffer == old(outputBuffer.buffer) || fresh(outputBuffer.buffer))
      ensures state == if old(Open()) && old(pending)[0].ForceCloseTask? then Disconnected else old(state)
      ensures accepted == old(accepted)
                          + if old(pending)[0].SendTask? && old(Open()) then old(pending)[0].data else []
      ensures !old(pending)[0].SendTask? ==>
                wire == old(wire) && lost == old(lost) && outputBuffer.Contents() == old(outputBuffer.Contents())
      ensures !(old(pending)[0].SendTask? && old(Open())) ==> pending == old(pending)[1..]
      ensures old(pending)[0].SendTask? && old(Open()) ==>
        var data, before := old(pending)[0].data, old(outputBuffer.Contents());
        && wire == old(wire) + (if before == [] then data[..Taken(out)] else [])
        && outputBuffer.Contents() == before + Kept(before, data, out)
        && pending == old(pending)[1..] + Callbacks(before, data, out)
      // a shutdown reaches the socket unless something is still to be written
      ensures var was, left := old(state), old(outputBuffer.Contents());
        cuts == old(cuts) + if old(pending)[0].ShutdownTask? && (was.Disconnected? || left == [])
                            then [Cut(was, left)] else []
    {
      var task := pending[0];
      assert forall t :: t in pending ==> t == task || t in pending[1..];
      pending := pending[1..];
      if task.SendTask? {
        SendInLoop(task.data, out);
      } else if task.ShutdownTask? {
        ShutdownInLoop();
      } else if task.ForceCloseTask? {
        ForceCloseInLoop();
      }
    }

    /** The events of one poll, in the order the channel looks at them; errors are only logged.
        The result says whether handleClose is only reached on an open connection, as it asserts. */
    method HandleEvent(revents: bv16, reading: Reading, out: Outcome) returns (asserted: bool)
      requires Valid() && Open() && Possible(out, |outputBuffer.Contents()|)
      modifies this, channel, outputBuffer`readerIndex, outputBuffer`writerIndex
      ensures asserted <==> !(SaysHangup(revents) && SaysReadable(revents) && reading.Ended?)
      ensures asserted ==> Valid() && accepted == old(accepted) && lost == old(lost)
      ensures asserted ==>
                state == if SaysHangup(revents) || (SaysReadable(revents) && reading.Ended?) then Disconnected
                         else old(state)
      ensures asserted && Open() && SaysWritable(revents) && old(channel.IsWriting()) ==>
                wire == old(wire) + old(outputBuffer.Contents())[..Taken(out)]
                && outputBuffer.Contents() == old(outputBuffer.Contents())[Taken(out)..]
      ensures asserted && !(Open() && SaysWritable(revents) && old(channel.IsWriting())) ==>
                wire == old(wire) && outputBuffer.Contents() == old(outputBuffer.Contents())
      // only the write that takes the last byte queues and cuts anything
      ensures asserted ==>
        var drained := Open() && SaysWritable(revents) && old(outputBuffer.Contents()) != []
                       && Taken(out) == |old(outputBuffer.Contents())|;
        && pending == old(pending) + (if drained && writeComplete then [WriteCompleteTask] else [])
        && cuts == old(cuts) + (if drained && state.Disconnecting? then [Cut(Disconnecting, [])] else [])
    {
      hide Channel.IsWriting, Channel.IsReading, SaysHangup, SaysReadable, SaysWritable;
      asserted := true;
      if SaysHangup(revents) {
        HandleClose();
      }
      if SaysReadable(revents) {
        if reading.Ended? {
          if !Open() { return false; }
          HandleClose();
        }
      }
      if SaysWritable(revents) {
        NoneNotWriting();
        HandleWrite(out);
      }
    }

    /** The end of a connection; whether channel_->remove() finds no event enabled, as it asserts:
        not for a connection that is still closing down. */
    method ConnectDestroyed() returns (asserted: bool)
      requires Valid()
      modifies `state, channel
      ensures asserted <==> !old(state).Disconnecting?
      ensures state == if old(state).Connected? then Disconnected else old(state)
      ensures asserted ==> Valid() && channel.events == NONE_EVENT && !channel.addedToLoop
    {
      if state.Connected? {
        state := Disconnected;
        channel.DisableAll();
      }
      asserted := channel.events == NONE_EVENT;
      if asserted { channel.addedToLoop := false; }
    }
  }

  /** Closing down gently: when nothing is queued or buffered any more, the write side has been
      shut, once all that was accepted had been written. */
  lemma GracefulClose(c: TcpConnection)
    requires c.Valid() && c.state.Disconnecting? && c.pending == [] && c.outputBuffer.Contents() == []
    ensures c.cuts != [] && (forall i :: 0 <= i < |c.cuts| ==> c.cuts[i].left == [] || c.cuts[i].state.Disconnected?)
    ensures !c.lost ==> c.wire == c.accepted
  {
    assert c.wire + [] == c.wire;
  }

  // ---- the two asserts that can fail ----

  /** Established, shut down, and destroyed before the peer has closed its side. */
  method DestroyedWhileClosing() returns (asserted: bool)
    ensures !asserted
  {
    var c := new TcpConnection(false, false, 0);
    c.ConnectEstablished();
    c.Shutdown(true);
    asserted := c.ConnectDestroyed();
  }

  /** A hangup that comes with urgent data, and a read that finds the end. */
  method ClosedTwice() returns (asserted: bool)
    ensures !asserted
  {
    var c := new TcpConnection(false, false, 0);
    c.ConnectEstablished();
    var revents := POLLHUP | POLLPRI;
    assert SaysHangup(revents) && SaysReadable(revents);
    asserted := c.HandleEvent(revents, Ended, WouldBlock);
  }
}
