/** The connection object. Every method is proved to take the state of the object where the machine of
    `ConnectionSpec` takes it, and `Live` does so for whole runs, so what `ConnectionRuns` proves of runs holds of
    the object. */
module AsioTcpConnections {
  import opened Options
  import Spec = ConnectionSpec

  class AsioTcpConnection {
    var status: Spec.Status
    var sendBuffer: seq<Spec.Bytes>
    var isSending: bool
    const receiveBuffer: array<bv8>
    var hasReceiveCallback: bool
    var hasDisconnectCallback: bool

    // the socket
    ghost var writesInFlight: seq<Spec.Bytes>
    ghost var readsInFlight: nat
    // the reads that have ended, as the threads of the server hold them for the handler
    var arrivals: seq<Spec.Arrival>
    // the history
    ghost var submitted: seq<Spec.Bytes>
    ghost var popped: seq<Spec.Bytes>
    ghost var wire: Spec.Bytes
    ghost var started: nat
    ghost var completed: nat
    ghost var delivered: seq<Spec.Bytes>
    ghost var closes: nat
    ghost var closedWith: Option<bool>
    ghost var fired: nat

    ghost function State(): Spec.Conn
      reads this, receiveBuffer
    {
      Spec.Conn(status, sendBuffer, isSending, receiveBuffer[..], hasReceiveCallback, hasDisconnectCallback,
                writesInFlight, readsInFlight, arrivals,
                submitted, popped, wire, started, completed, delivered, closes, closedWith, fired)
    }

    constructor ()
      ensures Spec.IsNew(State())
      ensures fresh(receiveBuffer) && receiveBuffer.Length == 1024
    {
      status := Spec.StatusNone;
      sendBuffer, isSending := [], false;
      receiveBuffer := new bv8[Spec.MAX_BUFFER_SIZE];
      hasReceiveCallback, hasDisconnectCallback := false, false;
      writesInFlight, readsInFlight, arrivals := [], 0, [];
      submitted, popped, wire, started, completed := [], [], [], 0, 0;
      delivered, closes, closedWith, fired := [], 0, None, 0;
    }

    method SetReceiveCallback(on: bool)
      modifies this
      ensures State() == Spec.DoCall(old(State()), Spec.CallSetReceive(on))
    {
      hasReceiveCallback := on;
    }

    method SetDisconnectedCallback(on: bool)
      modifies this
      ensures State() == Spec.DoCall(old(State()), Spec.CallSetDisconnected(on))
    {
      hasDisconnectCallback := on;
    }

    /** Gives the front of the send buffer to the socket. */
    method StartWrite()
      requires sendBuffer != []
      modifies this
      ensures State() == Spec.StartWrite(old(State()))
    {
      isSending := true;
      writesInFlight, started := writesInFlight + [sendBuffer[0]], started + 1;
    }

    method AsyncSend(data: Spec.Bytes) returns (startedNow: bool)
      modifies this
      ensures State() == Spec.AsyncSend(old(State()), data)
      ensures startedNow <==> old(sendBuffer) == [] && !old(isSending)
      ensures status == old(status)
      ensures sendBuffer == old(sendBuffer) + [data]
    {
      submitted := submitted + [data];
      if |sendBuffer| > 0 {
        sendBuffer := sendBuffer + [data];
        return false;
      }
      if isSending {
        sendBuffer := sendBuffer + [data];
        return false;
      }
      sendBuffer := sendBuffer + [data];
      StartWrite();
      return true;
    }

    /** The socket ending the oldest write, of which it has taken `moved` bytes. */
    ghost method SocketEndsWrite(moved: nat)
      requires writesInFlight != [] && moved <= |writesInFlight[0]|
      modifies this
      ensures State() == Spec.EndWrite(old(State()), moved)
    {
      wire := wire + writesInFlight[0][..moved];
      writesInFlight, completed := writesInFlight[1..], completed + 1;
    }

    method HandleSend(error: bool)
      modifies this
      ensures State() == Spec.HandleSend(old(State()), error)
    {
      isSending := false;
      if |sendBuffer| > 0 {
        if !error {
          popped := popped + [sendBuffer[0]];
          sendBuffer := sendBuffer[1..];
        }
      }
      if |sendBuffer| > 0 {
        StartWrite();
      }
    }

    method StartReceive()
      modifies this
      ensures State() == Spec.StartReceive(old(State()))
    {
      readsInFlight := readsInFlight + 1;
    }

    /** The socket ending a read: a chunk overwrites the front of the one receive array. */
    method SocketEndsRead(a: Spec.Arrival)
      requires readsInFlight > 0 && |Spec.BytesOf(a)| <= receiveBuffer.Length
      modifies this, receiveBuffer
      ensures State() == Spec.Arrive(old(State()), a)
    {
      var chunk := Spec.BytesOf(a);
      forall i | 0 <= i < |chunk| { receiveBuffer[i] := chunk[i]; }
      readsInFlight, arrivals := readsInFlight - 1, arrivals + [a];
      assert receiveBuffer[..] == chunk + old(receiveBuffer[..])[|chunk|..];
    }

    /** A thread taking up the handler of a read that has ended. */
    method TakeArrival(i: nat) returns (a: Spec.Arrival)
      requires i < |arrivals|
      modifies this
      ensures State() == Spec.Take(old(State()), i) && a == old(arrivals[i])
    {
      a := arrivals[i];
      arrivals := arrivals[..i] + arrivals[i + 1..];
    }

    /** `calls` is what the receive callback does, or on an error the disconnect callback. */
    method HandleReceive(error: bool, bytesTransferred: nat, calls: seq<Spec.Call>)
      requires bytesTransferred <= receiveBuffer.Length
      modifies this
      ensures State() == Spec.HandleReceive(old(State()), error, bytesTransferred, calls)
      ensures error ==> status == Spec.Closed
    {
      if error {
        Close(calls);
        return;
      }
      OnReceived(bytesTransferred, calls);
      StartReceive();
    }

    method OnReceived(size: nat, calls: seq<Spec.Call>)
      requires size <= receiveBuffer.Length
      modifies this
      ensures State() == Spec.OnReceived(old(State()), size, calls)
    {
      if hasReceiveCallback {
        assert receiveBuffer[..][..size] == receiveBuffer[..size];
        delivered := delivered + [receiveBuffer[..size]];
        RunCallback(calls);
      }
    }

    method Close(reaction: seq<Spec.Call>)
      modifies this
      ensures State() == Spec.Close(old(State()), reaction)
      ensures status == Spec.Closed
      decreases reaction, 1
    {
      hide Spec.DoCalls;
      if status == Spec.Closed {
        return;
      }
      status := Spec.Closed;
      closes, closedWith := closes + 1, Some(hasDisconnectCallback);
      if hasDisconnectCallback {
        fired := fired + 1;
        RunCallback(reaction);
      }
    }

    /** A callback of the game making its calls, which may close this very connection again. */
    method RunCallback(calls: seq<Spec.Call>)
      modifies this
      ensures State() == Spec.DoCalls(old(State()), calls)
      ensures old(status) == Spec.Closed ==> status == Spec.Closed
      decreases calls, 0
    {
      if calls != [] {
        DoCall(calls[0]);
        RunCallback(calls[1..]);
      }
    }

    method DoCall(call: Spec.Call)
      modifies this
      ensures State() == Spec.DoCall(old(State()), call)
      ensures old(status) == Spec.Closed ==> status == Spec.Closed
      decreases call
    {
      match call {
        case CallSend(data) => var _ := AsyncSend(data);
        case CallClose(reaction) => Close(reaction);
        case CallSetReceive(on) => SetReceiveCallback(on);
        case CallSetDisconnected(on) => SetDisconnectedCallback(on);
      }
    }

    /** One event of the machine, taken by the object. */
    method Take(e: Spec.Event)
      requires Spec.Enabled(State(), e)
      modifies this, receiveBuffer
      ensures State() == Spec.Step(old(State()), e)
    {
      match e {
        case Api(call) => DoCall(call);
        case Receive => StartReceive();
        case SendDone(error, moved) =>
          SocketEndsWrite(moved);
          HandleSend(error);
        case ReadEnds(a) => SocketEndsRead(a);
        case ReadHandled(i, calls) =>
          var a := TakeArrival(i);
          HandleReceive(a.Failed?, |Spec.BytesOf(a)|, calls);
      }
    }

    /** Refinement: the object taken through a whole run ends where the machine does. */
    method Live(run: seq<Spec.Event>)
      requires Spec.Legal(State(), run)
      modifies this, receiveBuffer
      ensures State() == Spec.Run(old(State()), run)
    {
      for i := 0 to |run|
        invariant Spec.Legal(State(), run[i..])
        invariant Spec.Run(State(), run[i..]) == Spec.Run(old(State()), run)
      {
        assert run[i..][0] == run[i] && run[i..][1..] == run[i + 1..];
        Take(run[i]);
      }
    }
  }
}
