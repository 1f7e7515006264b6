/** One TCP connection as a machine over values: what each call and each completion makes of its state.
    The socket is the environment: it holds the writes and reads in flight and delivers their completions. */
module ConnectionSpec {
  import opened Options

  type Bytes = seq<bv8>

  const MAX_BUFFER_SIZE: nat := 1024

  datatype Status = StatusNone | Connecting | Connected | Disconnected | Closed

  /** What the game may do to a connection, from a callback of it too. A `close` carries what the disconnect
      callback does in turn, should this be the call that closes the connection; a setter is given a function, or
      nothing. */
  datatype Call =
    | CallSend(data: Bytes)
    | CallClose(reaction: seq<Call>)
    | CallSetReceive(on: bool)
    | CallSetDisconnected(on: bool)

  /** What a read ended with. */
  datatype Arrival = Chunk(bytes: Bytes) | Failed

  datatype Conn = Conn(
    // the fields of the object
    status: Status,
    queue: seq<Bytes>,
    sending: bool,
    buffer: Bytes,
    hasReceiveCallback: bool,
    hasDisconnectCallback: bool,
    // the socket: writes in flight, the number of reads in flight, and the reads that have ended, in the order
    // they did, and wait for their handler
    writesInFlight: seq<Bytes>,
    readsInFlight: nat,
    arrivals: seq<Arrival>,
    // the history: buffers given to async_send, buffers popped, bytes put on the wire, writes started and
    // completed, chunks given to the receive callback, transitions into Closed, whether the disconnect callback
    // was set at the transition, disconnect callbacks run
    submitted: seq<Bytes>,
    popped: seq<Bytes>,
    wire: Bytes,
    started: nat,
    completed: nat,
    delivered: seq<Bytes>,
    closes: nat,
    closedWith: Option<bool>,
    fired: nat)

  /** A new connection: nothing queued, nothing in flight, no callback, and a receive array of unknown contents. */
  ghost predicate IsNew(st: Conn) {
    && st.status == StatusNone && st.queue == [] && !st.sending && |st.buffer| == MAX_BUFFER_SIZE
    && !st.hasReceiveCallback && !st.hasDisconnectCallback
    && st.writesInFlight == [] && st.readsInFlight == 0 && st.arrivals == []
    && st.submitted == [] && st.popped == [] && st.wire == [] && st.started == 0 && st.completed == 0
    && st.delivered == [] && st.closes == 0 && st.closedWith == None && st.fired == 0
  }

  // ---------------------------------------------------------------- calls

  /** `async_write_some` of the front of the queue. */
  function StartWrite(st: Conn): Conn
    requires st.queue != []
  {
    st.(sending := true, writesInFlight := st.writesInFlight + [st.queue[0]], started := st.started + 1)
  }

  /** `async_send`. The buffer goes to the queue first, on the idle path too. */
  function AsyncSend(st: Conn, data: Bytes): Conn {
    var st1 := st.(queue := st.queue + [data], submitted := st.submitted + [data]);
    if st.queue != [] || st.sending then st1 else StartWrite(st1)
  }

  function Close(st: Conn, reaction: seq<Call>): Conn
    decreases reaction, 1
  {
    if st.status == Closed then st
    else
      var st1 := st.(status := Closed, closes := st.closes + 1, closedWith := Some(st.hasDisconnectCallback));
      if st.hasDisconnectCallback then DoCalls(st1.(fired := st1.fired + 1), reaction) else st1
  }

  function DoCall(st: Conn, call: Call): Conn
    decreases call
  {
    match call
    case CallSend(data) => AsyncSend(st, data)
    case CallClose(reaction) => Close(st, reaction)
    case CallSetReceive(on) => st.(hasReceiveCallback := on)
    case CallSetDisconnected(on) => st.(hasDisconnectCallback := on)
  }

  function DoCalls(st: Conn, calls: seq<Call>): Conn
    decreases calls, 0
  {
    if calls == [] then st else DoCalls(DoCall(st, calls[0]), calls[1..])
  }

  /** `start_receive`: a read into the one receive array of the object. */
  function StartReceive(st: Conn): Conn { st.(readsInFlight := st.readsInFlight + 1) }

  // ---------------------------------------------------------------- completions

  /** The socket has taken `moved` bytes of the oldest write in flight and ends it. */
  function EndWrite(st: Conn, moved: nat): Conn
    requires st.writesInFlight != [] && moved <= |st.writesInFlight[0]|
  {
    st.(writesInFlight := st.writesInFlight[1..],
        completed := st.completed + 1,
        wire := st.wire + st.writesInFlight[0][..moved])
  }

  /** `handle_send`: pop the front unless the write failed, then send the front there is. */
  function HandleSend(st: Conn, error: bool): Conn {
    var st1 := st.(sending := false);
    var st2 := if st1.queue != [] && !error
               then st1.(queue := st1.queue[1..], popped := st1.popped + [st1.queue[0]]) else st1;
    if st2.queue != [] then StartWrite(st2) else st2
  }

  /** The socket ends a read and leaves what it received at the front of the array; the rest is stale. */
  function EndRead(st: Conn, chunk: Bytes): Conn
    requires st.readsInFlight > 0 && |chunk| <= |st.buffer|
  {
    st.(readsInFlight := st.readsInFlight - 1, buffer := chunk + st.buffer[|chunk|..])
  }

  /** What a read that ends this way leaves in the array. */
  function BytesOf(a: Arrival): Bytes { if a.Chunk? then a.bytes else [] }

  /** A read ends, and its handler is yet to run. */
  function Arrive(st: Conn, a: Arrival): Conn
    requires st.readsInFlight > 0 && |BytesOf(a)| <= |st.buffer|
  {
    EndRead(st, BytesOf(a)).(arrivals := st.arrivals + [a])
  }

  /** Some handler gets its turn; several threads run handlers, so it need not be the first one waiting. */
  function Take(st: Conn, i: nat): Conn
    requires i < |st.arrivals|
  {
    st.(arrivals := st.arrivals[..i] + st.arrivals[i + 1..])
  }

  /** `on_received`: give the front of the array to the callback. */
  function OnReceived(st: Conn, size: nat, calls: seq<Call>): Conn
    requires size <= |st.buffer|
  {
    if st.hasReceiveCallback then DoCalls(st.(delivered := st.delivered + [st.buffer[..size]]), calls) else st
  }

  /** `handle_receive`, delivering before it arms the next read. */
  function HandleReceive(st: Conn, error: bool, size: nat, calls: seq<Call>): Conn
    requires size <= |st.buffer|
  {
    if error then Close(st, calls) else StartReceive(OnReceived(st, size, calls))
  }

  // ---------------------------------------------------------------- runs

  /** What can happen next. `calls` is what the callback does, if the event runs one. */
  datatype Event =
    | Api(call: Call)
    | Receive
    | SendDone(error: bool, moved: nat)
    | ReadEnds(arrival: Arrival)
    | ReadHandled(i: nat, calls: seq<Call>)

  ghost predicate Enabled(st: Conn, e: Event) {
    match e
    case Api(_) => true
    case Receive => true
    case SendDone(_, moved) => st.writesInFlight != [] && moved <= |st.writesInFlight[0]|
    case ReadEnds(a) => st.readsInFlight > 0 && |BytesOf(a)| <= |st.buffer|
    case ReadHandled(i, _) => i < |st.arrivals| && |BytesOf(st.arrivals[i])| <= |st.buffer|
  }

  /** A write ends and is handled in one step: nothing in between reads what its end changed. For reads the array
      is read in between, so there the two are steps of their own. */
  ghost function Step(st: Conn, e: Event): Conn
    requires Enabled(st, e)
  {
    match e
    case Api(call) => DoCall(st, call)
    case Receive => StartReceive(st)
    case SendDone(error, moved) => HandleSend(EndWrite(st, moved), error)
    case ReadEnds(a) => Arrive(st, a)
    case ReadHandled(i, calls) =>
      HandleReceive(Take(st, i), st.arrivals[i].Failed?, |BytesOf(st.arrivals[i])|, calls)
  }

  ghost predicate Legal(st: Conn, run: seq<Event>)
    decreases |run|
  {
    run == [] || (Enabled(st, run[0]) && Legal(Step(st, run[0]), run[1..]))
  }

  ghost function Run(st: Conn, run: seq<Event>): Conn
    requires Legal(st, run)
    decreases |run|
  {
    if run == [] then st else Run(Step(st, run[0]), run[1..])
  }
}
