/** The fields of the TCP session that sending uses, and the loops over them
    (ClientNetworkCore/Session.cpp).  Each locked region is one method, tied to the step functions of
    `TcpSendQueue`. */
module TcpSession {
  import opened TcpSendQueue

  class TcpSession {
    var connected: bool
    var sendRegistered: bool
    var sendQueue: seq<Buffer>
    var currentSendBuffers: seq<Buffer>
    /** The buffer lists handed to `async_write`, in order. */
    var started: seq<seq<Buffer>>

    ghost function View(): Shared
      reads this
    {
      Shared(connected, sendRegistered, sendQueue, currentSendBuffers)
    }

    constructor ()
      ensures View() == CONNECTED.shared && started == []
    {
      connected := true;
      sendRegistered := false;
      sendQueue := [];
      currentSendBuffers := [];
      started := [];
    }

    /** The locked region of `Send`; the result says whether this caller won the flag. */
    method PushAndClaim(b: Buffer) returns (registerSend: bool)
      modifies this`sendQueue, this`sendRegistered
      ensures View() == Push(old(View()), b)
      ensures registerSend == !old(sendRegistered)
    {
      sendQueue := sendQueue + [b];
      registerSend := false;
      if !sendRegistered {
        registerSend := true;
      }
      sendRegistered := true;
    }

    method RegisterSend()
      modifies this`sendQueue, this`currentSendBuffers, this`started
      ensures !old(connected) ==> View() == old(View()) && started == old(started)
      ensures old(connected) && old(sendQueue) == [] ==>
                View() == old(View()).(current := []) && started == old(started)
      ensures old(connected) && old(sendQueue) != [] ==>
                View() == Drain(old(View()).(current := [])) &&
                started == old(started) + [NonEmpty(old(sendQueue))]
    {
      if !connected { return; }
      currentSendBuffers := [];
      if sendQueue == [] { return; }
      ghost var all := sendQueue;
      ghost var taken := 0;
      var sendBuffers := [];
      while sendQueue != []
        invariant 0 <= taken <= |all| && sendQueue == all[taken..]
        invariant sendBuffers == currentSendBuffers == NonEmpty(all[..taken])
        invariant started == old(started)
      {
        var b := sendQueue[0];
        assert all[..taken + 1] == all[..taken] + [b];
        if b.size > 0 {
          currentSendBuffers := currentSendBuffers + [b];
          sendBuffers := sendBuffers + [b];
        }
        sendQueue := sendQueue[1..];
        taken := taken + 1;
      }
      assert all[..taken] == all;
      started := started + [sendBuffers];
    }

    /** `Send` when nothing else runs in between. */
    method Send(b: Buffer)
      modifies this`sendQueue, this`sendRegistered, this`currentSendBuffers, this`started
      ensures !old(connected) ==> View() == old(View()) && started == old(started)
      ensures old(connected) && old(sendRegistered) ==>
                View() == Push(old(View()), b) && started == old(started)
      ensures old(connected) && !old(sendRegistered) ==>
                View() == Drain(Push(old(View()), b).(current := [])) &&
                started == old(started) + [NonEmpty(old(sendQueue) + [b])]
    {
      if !connected { return; }
      var registerSend := PushAndClaim(b);
      if registerSend {
        RegisterSend();
      }
    }

    /** `Disconnect` and, for the first call, `ProcessDisconnect`. */
    method Disconnect()
      modifies this`connected, this`sendRegistered, this`sendQueue, this`currentSendBuffers
      ensures View() == Disconnected(old(View()))
      ensures old(connected) ==> !connected && !sendRegistered && sendQueue == [] && currentSendBuffers == []
      ensures !old(connected) ==> View() == old(View())
    {
      if !connected { return; }
      connected := false;
      sendQueue := [];
      currentSendBuffers := [];
      sendRegistered := false;
    }

    /** The success handler of a write of `numOfBytes` bytes. */
    method ProcessSend(numOfBytes: nat)
      modifies this
      ensures View() == Completed(old(View()), numOfBytes)
      ensures started == old(started) + Restarted(old(View()), numOfBytes)
    {
      if numOfBytes == 0 {
        Disconnect();
        return;
      }
      if sendQueue == [] {
        sendRegistered := false;
      } else {
        RegisterSend();
      }
    }

    /** The error handler of a write. */
    method RequeueCurrent()
      modifies this`sendQueue, this`currentSendBuffers
      ensures View() == Requeue(old(View()))
    {
      var i := 0;
      while i < |currentSendBuffers|
        invariant 0 <= i <= |currentSendBuffers| && currentSendBuffers == old(currentSendBuffers)
        invariant sendQueue == old(sendQueue) + currentSendBuffers[..i]
      {
        sendQueue := sendQueue + [currentSendBuffers[i]];
        i := i + 1;
      }
      currentSendBuffers := [];
    }
  }

  /** In every run the completion that arrives is that of the only outstanding write, the batch in hand; it
      makes of the session what `ProcessSend` of the batch's size does, and afterwards the write that
      `ProcessSend` starts, if any, is the only one. */
  lemma CompletionIsProcessSend(steps: seq<Step>, x: Tcp, i: nat)
    requires Run(CONNECTED, steps, x) && x.shared.connected && Enabled(x, Complete(i))
    ensures var y, n := Perform(x, Complete(i)), TotalSize(x.hand);
      && i == 0 && x.writes == [x.hand]
      && y.shared == Completed(x.shared, n)
      && y.writes == Restarted(x.shared, n)
      && y.completed == x.completed + x.hand
  {
    hide NonEmpty, TotalSize;
    InvHolds(steps, x);
    OneWriteOutstanding(x, i);
  }

  /** Connected or not, the two agree on the session and on the write started. */
  lemma CompletionIsProcessSendAnyway(x: Tcp, i: nat)
    requires Enabled(x, Complete(i))
    ensures var y, n := Perform(x, Complete(i)), TotalSize(x.writes[i]);
      && y.shared == Completed(x.shared, n)
      && y.writes == WithoutWrite(x, i) + Restarted(x.shared, n)
      && y.completed == x.completed + x.writes[i]
  {
  }
}
