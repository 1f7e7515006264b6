/** What every run of a connection keeps: at most one write in flight, buffers leaving in the order they came, and
    one close; and exactly when the bytes written and the stream received are not lost. */
module ConnectionRuns {
  import opened Options
  import opened ConnectionSpec

  // ---------------------------------------------------------------- the send queue

  /** A write is in flight exactly when something is queued; it is one write, it carries the front, and every
      buffer submitted has either been popped or is still queued, in order. */
  ghost predicate SendSafe(st: Conn) {
    && (st.sending <==> st.queue != [])
    && st.writesInFlight == (if st.sending then [st.queue[0]] else [])
    && st.started == st.completed + (if st.sending then 1 else 0)
    && st.submitted == st.popped + st.queue
  }

  /** Everything a call made by the game leaves alone. */
  ghost predicate CallFrame(st: Conn, st': Conn) {
    && st'.buffer == st.buffer && st'.readsInFlight == st.readsInFlight && st'.arrivals == st.arrivals
    && st'.delivered == st.delivered && st'.popped == st.popped && st.queue <= st'.queue
    && st'.wire == st.wire && st'.completed == st.completed
  }

  /** One transition into `Closed` at most, and the disconnect callback ran once if it was set then. */
  ghost predicate ClosedOnce(st: Conn) {
    && st.status in {StatusNone, Closed}
    && (st.closedWith.Some? <==> st.status == Closed)
    && st.closes == (if st.status == Closed then 1 else 0)
    && st.fired == (if st.closedWith == Some(true) then 1 else 0)
  }

  lemma AsyncSendKeeps(st: Conn, data: Bytes)
    ensures CallFrame(st, AsyncSend(st, data))
    ensures SendSafe(st) ==> SendSafe(AsyncSend(st, data))
    ensures ClosedOnce(st) ==> ClosedOnce(AsyncSend(st, data))
    ensures st.status == Closed ==> StillClosed(st, AsyncSend(st, data))
  {
    assert SendSafe(st) ==> st.submitted + [data] == st.popped + (st.queue + [data]);
  }

  lemma {:induction false} CloseKeeps(st: Conn, reaction: seq<Call>)
    ensures CallFrame(st, Close(st, reaction))
    ensures SendSafe(st) ==> SendSafe(Close(st, reaction))
    ensures ClosedOnce(st) ==> ClosedOnce(Close(st, reaction))
    ensures Close(st, reaction).status == Closed
    ensures st.status == Closed ==> Close(st, reaction) == st
    decreases reaction, 1
  {
    if st.status != Closed && st.hasDisconnectCallback {
      DoCallsKeep(st.(status := Closed, closes := st.closes + 1, closedWith := Some(true), fired := st.fired + 1),
                  reaction);
    }
  }

  lemma {:induction false} DoCallKeeps(st: Conn, call: Call)
    ensures CallFrame(st, DoCall(st, call))
    ensures SendSafe(st) ==> SendSafe(DoCall(st, call))
    ensures ClosedOnce(st) ==> ClosedOnce(DoCall(st, call))
    ensures st.status == Closed ==> StillClosed(st, DoCall(st, call))
    decreases call
  {
    match call
    case CallSend(data) => AsyncSendKeeps(st, data);
    case CallClose(reaction) => CloseKeeps(st, reaction);
    case CallSetReceive(_) =>
    case CallSetDisconnected(_) =>
  }

  lemma {:induction false} DoCallsKeep(st: Conn, calls: seq<Call>)
    ensures CallFrame(st, DoCalls(st, calls))
    ensures SendSafe(st) ==> SendSafe(DoCalls(st, calls))
    ensures ClosedOnce(st) ==> ClosedOnce(DoCalls(st, calls))
    ensures st.status == Closed ==> StillClosed(st, DoCalls(st, calls))
    decreases calls, 0
  {
    if calls != [] {
      DoCallKeeps(st, calls[0]);
      DoCallsKeep(DoCall(st, calls[0]), calls[1..]);
    }
  }

  ghost predicate StillClosed(st: Conn, st': Conn) {
    st'.status == Closed && st'.closes == st.closes && st'.closedWith == st.closedWith && st'.fired == st.fired
  }

  lemma SendDoneKeeps(st: Conn, error: bool, moved: nat)
    requires SendSafe(st) && st.writesInFlight != [] && moved <= |st.writesInFlight[0]|
    ensures SendSafe(HandleSend(EndWrite(st, moved), error))
  {
    var st' := HandleSend(EndWrite(st, moved), error);
    assert st.writesInFlight[1..] == [];
    if !error {
      assert st'.popped + st'.queue == st.popped + ([st.queue[0]] + st.queue[1..]);
    }
  }

  /** A handled read runs one callback at most and leaves everything else alone. */
  lemma HandledKeeps(st: Conn, i: nat, calls: seq<Call>)
    requires Enabled(st, ReadHandled(i, calls))
    ensures var st', a := Step(st, ReadHandled(i, calls)), st.arrivals[i];
            && (SendSafe(st) ==> SendSafe(st'))
            && (ClosedOnce(st) ==> ClosedOnce(st'))
            && (st.status == Closed ==> StillClosed(st, st'))
            && st'.popped == st.popped && st.queue <= st'.queue
            && st'.wire == st.wire && st'.completed == st.completed
            && st'.buffer == st.buffer && st'.arrivals == Take(st, i).arrivals
            && st'.readsInFlight == st.readsInFlight + (if a.Chunk? then 1 else 0)
            && st'.delivered == st.delivered +
                 (if a.Chunk? && st.hasReceiveCallback then [st.buffer[..|a.bytes|]] else [])
  {
    var st1 := Take(st, i);
    if st.arrivals[i].Failed? {
      CloseKeeps(st1, calls);
    } else if st.hasReceiveCallback {
      DoCallsKeep(st1.(delivered := st1.delivered + [st1.buffer[..|st.arrivals[i].bytes|]]), calls);
    }
  }

  lemma StepKeepsSafe(st: Conn, e: Event)
    requires SendSafe(st) && Enabled(st, e)
    ensures SendSafe(Step(st, e))
  {
    match e
    case Api(call) => DoCallKeeps(st, call);
    case Receive =>
    case SendDone(error, moved) => SendDoneKeeps(st, error, moved);
    case ReadEnds(_) =>
    case ReadHandled(i, calls) => HandledKeeps(st, i, calls);
  }

  /** Send-queue safety and buffer conservation, in every run. */
  lemma {:induction false} RunIsSendSafe(st: Conn, run: seq<Event>)
    requires Legal(st, run) && (IsNew(st) || SendSafe(st))
    ensures SendSafe(Run(st, run))
    decreases |run|
  {
    assert SendSafe(st);
    if run != [] {
      StepKeepsSafe(st, run[0]);
      RunIsSendSafe(Step(st, run[0]), run[1..]);
    }
  }

  // ---------------------------------------------------------------- bytes on the wire

  ghost function Concat(chunks: seq<Bytes>): Bytes {
    if chunks == [] then [] else chunks[0] + Concat(chunks[1..])
  }

  lemma {:induction false} ConcatAppends(a: seq<Bytes>, b: seq<Bytes>)
    ensures Concat(a + b) == Concat(a) + Concat(b)
  {
    if a == [] {
      assert a + b == b;
    } else {
      assert (a + b)[0] == a[0] && (a + b)[1..] == a[1..] + b;
      ConcatAppends(a[1..], b);
    }
  }

  /** What is on the wire, followed by what is queued, is what was submitted. */
  ghost predicate Conserved(st: Conn) { st.wire + Concat(st.queue) == Concat(st.submitted) }

  lemma ConservedMeansPopped(st: Conn)
    requires SendSafe(st)
    ensures Conserved(st) <==> st.wire == Concat(st.popped)
  {
    ConcatAppends(st.popped, st.queue);
    var all, queued := Concat(st.submitted), Concat(st.queue);
    if Conserved(st) {
      assert st.wire == all[..|all| - |queued|] == Concat(st.popped);
    }
  }

  /** A completion is exact when a success moved the whole buffer and a failure moved nothing. */
  ghost predicate Exact(st: Conn, e: Event) {
    e.SendDone? && st.writesInFlight != [] ==>
      e.moved == if e.error then 0 else |st.writesInFlight[0]|
  }

  lemma StepConserves(st: Conn, e: Event)
    requires SendSafe(st) && Conserved(st) && Enabled(st, e)
    ensures Conserved(Step(st, e)) <==> Exact(st, e)
  {
    var st' := Step(st, e);
    StepKeepsSafe(st, e);
    ConservedMeansPopped(st);
    ConservedMeansPopped(st');
    match e
    case Api(call) => DoCallKeeps(st, call);
    case Receive =>
    case SendDone(error, moved) =>
      var front := st.queue[0];
      ConcatAppends(st.popped, [front]);
      assert Concat([front]) == front + Concat([front][1..]) == front;
      assert st'.wire == st.wire + front[..moved];
      assert |st'.wire| == |st.wire| + moved;
      assert front[..|front|] == front && st.wire + front[..0] == st.wire;
    case ReadEnds(_) =>
    case ReadHandled(i, calls) => HandledKeeps(st, i, calls);
  }

  ghost predicate ConservedThroughout(st: Conn, run: seq<Event>)
    requires Legal(st, run)
    decreases |run|
  {
    Conserved(st) && (run != [] ==> ConservedThroughout(Step(st, run[0]), run[1..]))
  }

  ghost predicate AllExact(st: Conn, run: seq<Event>)
    requires Legal(st, run)
    decreases |run|
  {
    run != [] ==> Exact(st, run[0]) && AllExact(Step(st, run[0]), run[1..])
  }

  /** Byte conservation fails in general: `async_write_some` may move part of a buffer, and the whole buffer is
      popped. A run conserves bytes in all its states if and only if every completion in it was exact. */
  lemma {:induction false} WireConservedIff(st: Conn, run: seq<Event>)
    requires Legal(st, run) && (IsNew(st) || (SendSafe(st) && Conserved(st)))
    ensures ConservedThroughout(st, run) <==> AllExact(st, run)
    decreases |run|
  {
    assert SendSafe(st) && Conserved(st);
    if run != [] {
      StepKeepsSafe(st, run[0]);
      StepConserves(st, run[0]);
      if Exact(st, run[0]) {
        WireConservedIff(Step(st, run[0]), run[1..]);
      }
    }
  }

  /** One short write on a new connection: the second byte is neither sent nor queued. */
  lemma ShortWriteLoses(st: Conn)
    requires IsNew(st)
    ensures var run := [Api(CallSend([1, 2])), SendDone(false, 1)];
            Legal(st, run) && Run(st, run).wire == [1] && Run(st, run).queue == [] && Run(st, run).submitted == [[1, 2]]
  {
    var run := [Api(CallSend([1, 2])), SendDone(false, 1)];
    var st1 := Step(st, run[0]);
    assert st1.writesInFlight == [[1, 2]] && st1.queue == [[1, 2]];
    var st2 := Step(st1, run[1]);
    var rest := run[1..];
    assert rest[0] == run[1] && rest[1..] == [];
    assert st2.queue == [] && st2.wire == [] + [1, 2][..1];
    assert Enabled(st1, rest[0]) && Step(st1, rest[0]) == st2;
    assert Legal(st2, []) && Legal(st1, rest) && Run(st1, rest) == Run(st2, []) == st2;
  }

  // ---------------------------------------------------------------- draining

  ghost predicate OnlyCompletions(run: seq<Event>) { forall i :: 0 <= i < |run| ==> run[i].SendDone? }

  ghost function Failures(run: seq<Event>): nat {
    if run == [] then 0 else (if run[0].SendDone? && run[0].error then 1 else 0) + Failures(run[1..])
  }

  ghost function Successes(run: seq<Event>): nat {
    if run == [] then 0 else (if run[0].SendDone? && !run[0].error then 1 else 0) + Successes(run[1..])
  }

  lemma {:induction false} SuccessOrFailure(run: seq<Event>)
    requires OnlyCompletions(run)
    ensures Successes(run) + Failures(run) == |run|
  {
    if run != [] { SuccessOrFailure(run[1..]); }
  }

  ghost predicate CanComplete(st: Conn) { exists error, moved :: Enabled(st, SendDone(error, moved)) }

  ghost predicate Drained(st: Conn, st': Conn, n: nat) {
    && n <= |st.queue|
    && st'.queue == st.queue[n..]
    && st'.popped == st.popped + st.queue[..n]
  }

  lemma DrainOneMore(st: Conn, st1: Conn, st': Conn, n: nat)
    requires st.queue != [] && st1.queue == st.queue[1..] && st1.popped == st.popped + [st.queue[0]]
    requires Drained(st1, st', n)
    ensures Drained(st, st', n + 1)
  {
    assert st.queue[1..][n..] == st.queue[n + 1..];
    assert [st.queue[0]] + st.queue[1..][..n] == st.queue[..n + 1];
    assert st'.popped == st.popped + ([st.queue[0]] + st.queue[1..][..n]);
  }

  lemma CompletionStep(st: Conn, e: Event)
    requires SendSafe(st) && Enabled(st, e) && e.SendDone?
    ensures st.queue != []
    ensures Step(st, e).queue == if e.error then st.queue else st.queue[1..]
    ensures Step(st, e).popped == if e.error then st.popped else st.popped + [st.queue[0]]
  {
  }

  /** With no new submissions, each success takes exactly the front away and each failure takes nothing. */
  lemma {:induction false} CompletionsDrain(st: Conn, run: seq<Event>)
    requires SendSafe(st) && Legal(st, run) && OnlyCompletions(run)
    ensures Drained(st, Run(st, run), Successes(run))
    decreases |run|
  {
    if run == [] {
      assert st.queue[..0] == [] && st.queue[0..] == st.queue;
    } else {
      var st1 := Step(st, run[0]);
      StepKeepsSafe(st, run[0]);
      CompletionStep(st, run[0]);
      CompletionsDrain(st1, run[1..]);
      if !run[0].error {
        DrainOneMore(st, st1, Run(st1, run[1..]), Successes(run[1..]));
      }
    }
  }

  lemma CanCompleteIffQueued(st: Conn)
    requires SendSafe(st)
    ensures CanComplete(st) <==> st.queue != []
  {
    if st.queue != [] {
      assert Enabled(st, SendDone(false, 0));
    }
  }

  lemma DrainedLength(st: Conn, st': Conn, n: nat)
    requires Drained(st, st', n)
    ensures st'.queue == [] <==> n == |st.queue|
    ensures n <= |st.queue|
  {
  }

  /** What is left to do once `n` buffers have left a queue. */
  lemma AfterCompletions(st: Conn, st': Conn, n: nat)
    requires SendSafe(st') && Drained(st, st', n)
    ensures n <= |st.queue|
    ensures st'.queue == [] <==> n == |st.queue|
    ensures CanComplete(st') <==> n != |st.queue|
  {
    CanCompleteIffQueued(st');
    DrainedLength(st, st', n);
  }

  /** Drain: under a budget of `e` failures every schedule of completions is finite, and it can be extended
      until it has emptied a queue of n buffers, which is when it holds n completions beside its failures. */
  lemma Drains(st: Conn, run: seq<Event>, e: nat)
    requires SendSafe(st) && Legal(st, run) && OnlyCompletions(run) && Failures(run) <= e
    ensures |run| <= |st.queue| + e
    ensures CanComplete(Run(st, run)) <==> |run| < |st.queue| + Failures(run)
    ensures Run(st, run).queue == [] <==> |run| == |st.queue| + Failures(run)
  {
    SuccessOrFailure(run);
    RunIsSendSafe(st, run);
    CompletionsDrain(st, run);
    AfterCompletions(st, Run(st, run), Successes(run));
  }

  lemma SuccessPops(st: Conn, e: Event)
    requires SendSafe(st) && Enabled(st, e)
    ensures |Step(st, e).popped| == |st.popped| + (if e.SendDone? && !e.error then 1 else 0)
    ensures !(e.SendDone? && !e.error) ==> Step(st, e).popped == st.popped && st.queue <= Step(st, e).queue
  {
    match e
    case Api(call) => DoCallKeeps(st, call);
    case Receive =>
    case SendDone(_, _) => CompletionStep(st, e);
    case ReadEnds(_) =>
    case ReadHandled(i, calls) => HandledKeeps(st, i, calls);
  }

  /** Retry without end: nothing but a success takes a buffer off the queue. So in a run without one, closed or not,
      the queue only grows and one write of the same front is in flight throughout. */
  lemma {:induction false} OnlySuccessesPop(st: Conn, run: seq<Event>)
    requires SendSafe(st) && Legal(st, run)
    ensures |Run(st, run).popped| == |st.popped| + Successes(run)
    ensures Successes(run) == 0 ==> Run(st, run).popped == st.popped && st.queue <= Run(st, run).queue
    ensures Successes(run) == 0 && st.queue != [] ==> Run(st, run).writesInFlight == [st.queue[0]]
    decreases |run|
  {
    RunIsSendSafe(st, run);
    if run != [] {
      StepKeepsSafe(st, run[0]);
      SuccessPops(st, run[0]);
      OnlySuccessesPop(Step(st, run[0]), run[1..]);
    }
  }

  // ---------------------------------------------------------------- closing

  lemma StepKeepsClosedOnce(st: Conn, e: Event)
    requires ClosedOnce(st) && Enabled(st, e)
    ensures ClosedOnce(Step(st, e))
    ensures st.status == Closed ==> StillClosed(st, Step(st, e))
  {
    match e
    case Api(call) => DoCallKeeps(st, call);
    case Receive =>
    case SendDone(_, _) =>
    case ReadEnds(_) =>
    case ReadHandled(i, calls) => HandledKeeps(st, i, calls);
  }

  /** On a connection nobody connects again, `Closed` is absorbing, whatever the callbacks do. */
  lemma {:induction false} RunClosesOnce(st: Conn, run: seq<Event>)
    requires Legal(st, run) && (IsNew(st) || ClosedOnce(st))
    ensures ClosedOnce(Run(st, run))
    ensures st.status == Closed ==> StillClosed(st, Run(st, run))
    decreases |run|
  {
    assert ClosedOnce(st);
    if run != [] {
      StepKeepsClosedOnce(st, run[0]);
      RunClosesOnce(Step(st, run[0]), run[1..]);
    }
  }

  /** Over a whole life, which the destructor ends with a close, the connection closes exactly once, and the
      disconnect callback runs once if it was set at that moment and not at all if it was not, whatever the
      callbacks and the setters do before and after. */
  lemma LifeClosesExactlyOnce(st: Conn, run: seq<Event>, reaction: seq<Call>)
    requires IsNew(st) && Legal(st, run)
    ensures var last, dead := Run(st, run), Close(Run(st, run), reaction);
            && dead.status == Closed && dead.closes == 1
            && dead.fired == (if dead.closedWith == Some(true) then 1 else 0)
            && dead.closedWith == if last.status == Closed then last.closedWith else Some(last.hasDisconnectCallback)
  {
    RunClosesOnce(st, run);
    CloseKeeps(Run(st, run), reaction);
    if Run(st, run).status != Closed { CloseRemembers(Run(st, run), reaction); }
  }

  lemma CloseRemembers(st: Conn, reaction: seq<Call>)
    requires st.status != Closed
    ensures Close(st, reaction).closedWith == Some(st.hasDisconnectCallback)
  {
    if st.hasDisconnectCallback {
      DoCallsKeep(st.(status := Closed, closes := st.closes + 1, closedWith := Some(true), fired := st.fired + 1),
                  reaction);
    }
  }

  // ---------------------------------------------------------------- receiving

  ghost function ChunkOf(a: Arrival): seq<Bytes> { if a.Chunk? then [a.bytes] else [] }

  /** The chunks among some reads that have ended. */
  ghost function Chunks(arrivals: seq<Arrival>): seq<Bytes> {
    if arrivals == [] then [] else ChunkOf(arrivals[0]) + Chunks(arrivals[1..])
  }

  lemma {:induction false} ChunksAppend(a: seq<Arrival>, b: seq<Arrival>)
    ensures Chunks(a + b) == Chunks(a) + Chunks(b)
  {
    if a == [] {
      assert a + b == b;
    } else {
      assert (a + b)[0] == a[0] && (a + b)[1..] == a[1..] + b;
      ChunksAppend(a[1..], b);
    }
  }

  lemma ChunksAround(arrivals: seq<Arrival>, i: nat)
    requires i < |arrivals|
    ensures Chunks(arrivals) == Chunks(arrivals[..i]) + (ChunkOf(arrivals[i]) + Chunks(arrivals[i + 1..]))
    ensures Chunks(arrivals[..i] + arrivals[i + 1..]) == Chunks(arrivals[..i]) + Chunks(arrivals[i + 1..])
  {
    assert arrivals == arrivals[..i] + arrivals[i..];
    assert arrivals[i..][1..] == arrivals[i + 1..];
    ChunksAppend(arrivals[..i], arrivals[i..]);
    ChunksAppend(arrivals[..i], arrivals[i + 1..]);
  }

  lemma ChunksOfOne(a: Arrival)
    ensures Chunks([a]) == ChunkOf(a)
  {
    assert [a][1..] == [];
  }

  lemma {:induction false} ChunksAtMost(arrivals: seq<Arrival>)
    ensures |Chunks(arrivals)| <= |arrivals|
  {
    if arrivals != [] { ChunksAtMost(arrivals[1..]); }
  }

  /** The reads that are in flight or have ended with a chunk that is still to be handled. */
  ghost function DataReads(st: Conn): nat { st.readsInFlight + |Chunks(st.arrivals)| }

  /** The chunks delivered, and those that wait for delivery. */
  ghost function Stream(st: Conn): seq<Bytes> { st.delivered + Chunks(st.arrivals) }

  /** Every chunk that waits is still what the front of the array holds. */
  ghost predicate Intact(st: Conn) {
    forall a :: a in st.arrivals && a.Chunk? ==> a.bytes <= st.buffer
  }

  ghost predicate Fits(st: Conn) {
    forall a :: a in st.arrivals ==> |BytesOf(a)| <= |st.buffer|
  }

  /** What the peer's chunks were, in the order they came, read off the run alone. */
  ghost function Arrived(run: seq<Event>): seq<Bytes> {
    if run == [] then [] else (if run[0].ReadEnds? then ChunkOf(run[0].arrival) else []) + Arrived(run[1..])
  }

  ghost function Starts(run: seq<Event>): nat {
    if run == [] then 0 else (if run[0].Receive? then 1 else 0) + Starts(run[1..])
  }

  ghost function FailedReads(run: seq<Event>): nat {
    if run == [] then 0
    else (if run[0].ReadEnds? && run[0].arrival.Failed? then 1 else 0) + FailedReads(run[1..])
  }

  /** A chunk is handled while no receive callback is set. */
  ghost predicate IsUnheard(st: Conn, e: Event)
    requires Enabled(st, e)
  {
    e.ReadHandled? && st.arrivals[e.i].Chunk? && !st.hasReceiveCallback
  }

  ghost function Unheard(st: Conn, run: seq<Event>): nat
    requires Legal(st, run)
    decreases |run|
  {
    if run == [] then 0 else (if IsUnheard(st, run[0]) then 1 else 0) + Unheard(Step(st, run[0]), run[1..])
  }

  /** Nothing of the stream is lost, changed or put out of order. */
  ghost predicate Conserves(st: Conn, run: seq<Event>)
    requires Legal(st, run)
  {
    Stream(Run(st, run)) == Stream(st) + Arrived(run)
  }

  lemma StreamStep(st: Conn, e: Event)
    requires Enabled(st, e)
    ensures DataReads(Step(st, e)) as int ==
              DataReads(st) + (if e.Receive? then 1 else 0) -
              (if e.ReadEnds? && e.arrival.Failed? then 1 else 0)
    ensures |Stream(Step(st, e))| + (if IsUnheard(st, e) then 1 else 0) ==
              |Stream(st)| + (if e.ReadEnds? && e.arrival.Chunk? then 1 else 0)
    ensures |Step(st, e).buffer| == |st.buffer|
  {
    match e
    case Api(call) => DoCallKeeps(st, call);
    case Receive =>
    case SendDone(_, _) =>
    case ReadEnds(a) =>
      ChunksAppend(st.arrivals, [a]);
      ChunksOfOne(a);
    case ReadHandled(i, calls) =>
      HandledKeeps(st, i, calls);
      ChunksAround(st.arrivals, i);
  }

  /** A chunk that comes while none waits. */
  lemma EndsAlone(st: Conn, a: Arrival)
    requires Enabled(st, ReadEnds(a)) && (a.Failed? ==> Intact(st)) && (a.Chunk? ==> Chunks(st.arrivals) == [])
    ensures Intact(Arrive(st, a))
  {
    forall b | b in st.arrivals && b.Chunk? ensures a.Failed? {
      var i :| 0 <= i < |st.arrivals| && st.arrivals[i] == b;
      ChunksAround(st.arrivals, i);
    }
    var st' := Arrive(st, a);
    assert BytesOf(a) <= st'.buffer;
    assert a.Failed? ==> st'.buffer == st.buffer;
  }

  lemma OneAtMost(a: seq<Bytes>, b: seq<Bytes>, c: seq<Bytes>)
    requires |a + (b + c)| <= 1
    ensures if b == [] then a + (b + c) == a + c else a + (b + c) == b && a + c == []
  {
  }

  /** The one chunk that waits is handled. */
  lemma HandledAlone(arrivals: seq<Arrival>, i: nat)
    requires i < |arrivals| && |Chunks(arrivals)| <= 1
    ensures var rest := Chunks(arrivals[..i] + arrivals[i + 1..]);
            if arrivals[i].Failed? then rest == Chunks(arrivals)
            else Chunks(arrivals) == [arrivals[i].bytes] && rest == []
  {
    ChunksAround(arrivals, i);
    OneAtMost(Chunks(arrivals[..i]), ChunkOf(arrivals[i]), Chunks(arrivals[i + 1..]));
  }

  lemma TakeKeepsIntact(st: Conn, i: nat, st': Conn)
    requires i < |st.arrivals| && Intact(st) && st'.arrivals == Take(st, i).arrivals && st'.buffer == st.buffer
    ensures Intact(st')
  {
  }

  lemma HandledOneRead(st: Conn, i: nat, calls: seq<Call>)
    requires Enabled(st, ReadHandled(i, calls)) && Intact(st) && DataReads(st) <= 1
    ensures Intact(Step(st, ReadHandled(i, calls)))
    ensures st.hasReceiveCallback || st.arrivals[i].Failed? ==> Stream(Step(st, ReadHandled(i, calls))) == Stream(st)
  {
    var a, st' := st.arrivals[i], Step(st, ReadHandled(i, calls));
    HandledKeeps(st, i, calls);
    HandledAlone(st.arrivals, i);
    TakeKeepsIntact(st, i, st');
    assert a in st.arrivals;
    if a.Chunk? && st.hasReceiveCallback {
      FrontOf(st.buffer, a.bytes);
      assert st'.delivered + [] == st'.delivered;
    }
  }

  lemma FrontOf(buffer: Bytes, c: Bytes)
    requires c <= buffer
    ensures buffer[..|c|] == c
  {
  }

  /** While one read at most carries data, its chunk stays in the array until it is handled. */
  lemma OneReadStep(st: Conn, e: Event)
    requires Enabled(st, e) && Intact(st) && DataReads(st) <= 1
    ensures Intact(Step(st, e))
    ensures !IsUnheard(st, e) ==> Stream(Step(st, e)) == Stream(st) + Arrived([e])
  {
    assert [e][1..] == [];
    match e
    case Api(call) => DoCallKeeps(st, call);
    case Receive =>
    case SendDone(_, _) =>
    case ReadEnds(a) =>
      ChunksAppend(st.arrivals, [a]);
      ChunksOfOne(a);
      EndsAlone(st, a);
    case ReadHandled(i, calls) => HandledOneRead(st, i, calls);
  }

  /** The reads in flight and the chunks that wait are the reads started by hand less the reads that failed; and
      as many chunks get lost as were handled with no callback set. */
  lemma {:induction false} ReadsAreCounted(st: Conn, run: seq<Event>)
    requires Legal(st, run)
    ensures DataReads(Run(st, run)) as int == DataReads(st) + Starts(run) - FailedReads(run)
    ensures |Stream(Run(st, run))| + Unheard(st, run) == |Stream(st)| + |Arrived(run)|
    decreases |run|
  {
    if run != [] {
      StreamStep(st, run[0]);
      ReadsAreCounted(Step(st, run[0]), run[1..]);
    }
  }

  lemma {:induction false} HeardIsConserved(st: Conn, run: seq<Event>)
    requires Legal(st, run) && Intact(st) && DataReads(st) + Starts(run) <= 1 && Unheard(st, run) == 0
    ensures Conserves(st, run)
    decreases |run|
  {
    if run != [] {
      StreamStep(st, run[0]);
      OneReadStep(st, run[0]);
      HeardIsConserved(Step(st, run[0]), run[1..]);
      ArrivedSplits(run[0], run[1..], Stream(st));
      assert run == [run[0]] + run[1..];
    }
  }

  lemma ArrivedSplits(e: Event, run: seq<Event>, before: seq<Bytes>)
    ensures Arrived([e] + run) == Arrived([e]) + Arrived(run)
    ensures before + Arrived([e] + run) == before + Arrived([e]) + Arrived(run)
  {
    assert ([e] + run)[1..] == run && [e][1..] == [];
  }

  /** With one read that carries data, what was received and what was delivered or waits for delivery are the same
      chunks, byte for byte and in order, if and only if a callback was set whenever a chunk was handled. */
  lemma ReceiveStreamIff(st: Conn, run: seq<Event>)
    requires Legal(st, run) && Intact(st) && DataReads(st) + Starts(run) <= 1
    ensures Conserves(st, run) <==> Unheard(st, run) == 0
  {
    ReadsAreCounted(st, run);
    if Unheard(st, run) == 0 {
      HeardIsConserved(st, run);
    }
  }

  /** An accepted connection is told to receive once: it never has two reads that carry data, and after a failed
      read it has none, ever. */
  lemma AcceptedReadsOnce(st: Conn, run: seq<Event>)
    requires IsNew(st) && Legal(st, run) && Starts(run) <= 1
    ensures DataReads(Run(st, run)) <= 1
    ensures FailedReads(run) > 0 ==> DataReads(Run(st, run)) == 0
    ensures Stream(Run(st, run)) == Arrived(run) <==> Unheard(st, run) == 0
  {
    ReadsAreCounted(st, run);
    ReceiveStreamIff(st, run);
    assert Stream(st) == [] && Stream(st) + Arrived(run) == Arrived(run);
  }

  // ---------------------------------------------------------------- more than one read on the one array

  /** A run without further starts in which every chunk is heard, and which does not deliver what was received. */
  ghost predicate Breaks(st: Conn, run: seq<Event>) {
    Legal(st, run) && Starts(run) == 0 && Unheard(st, run) == 0 && !Conserves(st, run)
  }

  /** A step that conserves the stream may come before a run that does not. */
  lemma BreaksLater(st: Conn, e: Event, run: seq<Event>)
    requires Enabled(st, e) && !e.Receive? && !IsUnheard(st, e) && Breaks(Step(st, e), run)
    requires Stream(Step(st, e)) == Stream(st) + Arrived([e])
    ensures Breaks(st, [e] + run)
  {
    var all := [e] + run;
    assert all[0] == e && all[1..] == run;
    ArrivedSplits(e, run, Stream(st));
  }

  lemma BreaksNow(st: Conn, e: Event)
    requires Enabled(st, e) && !e.Receive? && !IsUnheard(st, e)
    requires Stream(Step(st, e)) != Stream(st) + Arrived([e])
    ensures Breaks(st, [e])
  {
    assert [e][1..] == [];
    assert Run(Step(st, e), []) == Step(st, e);
  }

  lemma {:induction false} FirstChunk(arrivals: seq<Arrival>) returns (i: nat)
    requires Chunks(arrivals) != []
    ensures i < |arrivals| && arrivals[i].Chunk? && Chunks(arrivals[..i]) == []
  {
    if arrivals[0].Chunk? {
      i := 0;
    } else {
      var j := FirstChunk(arrivals[1..]);
      i := j + 1;
      assert arrivals[..i][1..] == arrivals[1..][..j];
    }
  }

  /** Handling the first chunk that waits, by a callback that calls nothing. */
  lemma HandleFirst(st: Conn, i: nat)
    requires i < |st.arrivals| && st.arrivals[i].Chunk? && Chunks(st.arrivals[..i]) == []
    requires st.hasReceiveCallback && Fits(st)
    ensures Enabled(st, ReadHandled(i, []))
    ensures var st', c := Step(st, ReadHandled(i, [])), st.arrivals[i].bytes;
            && st' == Take(st, i).(readsInFlight := st.readsInFlight + 1, delivered := st'.delivered)
            && |Chunks(st'.arrivals)| == |Chunks(st.arrivals)| - 1
            && (Stream(st') == Stream(st) <==> c <= st.buffer)
  {
    var c := st.arrivals[i].bytes;
    assert |BytesOf(st.arrivals[i])| <= |st.buffer|;
    ChunksAround(st.arrivals, i);
    assert Chunks(st.arrivals) == [c] + Chunks(st.arrivals[i + 1..]);
    assert Chunks(Take(st, i).arrivals) == Chunks(st.arrivals[i + 1..]);
    assert c <= st.buffer <==> st.buffer[..|c|] == c;
    SameButFor(st.delivered, st.buffer[..|c|], c, Chunks(st.arrivals[i + 1..]));
  }

  lemma TakeKeepsFits(st: Conn, i: nat, st': Conn)
    requires i < |st.arrivals| && Fits(st) && st'.arrivals == Take(st, i).arrivals && st'.buffer == st.buffer
    ensures Fits(st')
  {
  }

  lemma TakeKeepsStale(st: Conn, i: nat, st': Conn)
    requires i < |st.arrivals| && !Intact(st) && (st.arrivals[i].Chunk? ==> st.arrivals[i].bytes <= st.buffer)
    requires st'.arrivals == Take(st, i).arrivals && st'.buffer == st.buffer
    ensures !Intact(st')
  {
    var a :| a in st.arrivals && a.Chunk? && !(a.bytes <= st.buffer);
    var k :| 0 <= k < |st.arrivals| && st.arrivals[k] == a;
    assert a == st'.arrivals[if k < i then k else k - 1];
  }

  lemma StaleWaits(st: Conn)
    requires !Intact(st)
    ensures Chunks(st.arrivals) != []
  {
    var a :| a in st.arrivals && a.Chunk? && !(a.bytes <= st.buffer);
    var k :| 0 <= k < |st.arrivals| && st.arrivals[k] == a;
    ChunksAround(st.arrivals, k);
  }

  lemma SameButFor(a: seq<Bytes>, x: Bytes, y: Bytes, b: seq<Bytes>)
    ensures a + [x] + b == a + ([y] + b) <==> x == y
  {
    assert (a + [x] + b)[|a|] == x && (a + ([y] + b))[|a|] == y;
    assert a + [x] + b == a + ([x] + b);
  }

  /** A chunk that is no longer in the array gets delivered as something else. */
  lemma {:induction false} BreakStale(st: Conn) returns (run: seq<Event>)
    requires st.hasReceiveCallback && Fits(st) && !Intact(st)
    ensures Breaks(st, run)
    decreases |st.arrivals|
  {
    StaleWaits(st);
    var i := FirstChunk(st.arrivals);
    var e := ReadHandled(i, []);
    HandleFirst(st, i);
    assert [e][1..] == [];
    if st.arrivals[i].bytes <= st.buffer {
      var st' := Step(st, e);
      TakeKeepsFits(st, i, st');
      TakeKeepsStale(st, i, st');
      var more := BreakStale(st');
      BreaksLater(st, e, more);
      run := [e] + more;
    } else {
      BreaksNow(st, e);
      run := [e];
    }
  }

  lemma Regrouped(a: seq<Bytes>, b: seq<Bytes>, c: seq<Bytes>)
    ensures a + (b + c) == a + b + c
  {
  }

  lemma FilledFits(st: Conn, a: Arrival)
    requires st.readsInFlight > 0 && |BytesOf(a)| <= |st.buffer| && Fits(st)
    ensures Fits(Arrive(st, a))
  {
    assert |Arrive(st, a).buffer| == |st.buffer|;
  }

  lemma Filled(st: Conn, c: Bytes)
    requires st.readsInFlight > 0 && |c| <= |st.buffer| && Fits(st)
    ensures var st' := Step(st, ReadEnds(Chunk(c)));
            && Fits(st') && Stream(st') == Stream(st) + [c] && Arrived([ReadEnds(Chunk(c))]) == [c]
            && Chunks(st'.arrivals) == Chunks(st.arrivals) + [c]
  {
    var a := Chunk(c);
    ChunksAppend(st.arrivals, [a]);
    ChunksOfOne(a);
    Regrouped(st.delivered, Chunks(st.arrivals), [c]);
    FilledFits(st, a);
    assert [ReadEnds(a)][1..] == [];
  }

  /** A read that ends while a chunk waits: with another first byte it overwrites it, and an empty chunk it can
      overtake. */
  lemma BreakOverlap(st: Conn) returns (run: seq<Event>)
    requires st.hasReceiveCallback && Fits(st) && |st.buffer| > 0 && st.readsInFlight > 0 && Chunks(st.arrivals) != []
    ensures Breaks(st, run)
  {
    var i := FirstChunk(st.arrivals);
    var c := st.arrivals[i].bytes;
    if c == [] {
      run := BreakOvertaken(st, i);
    } else {
      var other: Bytes := if c[0] == 0 then [1] else [0];
      var e := ReadEnds(Chunk(other));
      Filled(st, other);
      var st' := Step(st, e);
      assert st.arrivals[i] in st'.arrivals && st'.buffer[0] == other[0] != c[0];
      var more := BreakStale(st');
      BreaksLater(st, e, more);
      run := [e] + more;
    }
  }

  /** The last chunk that waits is handled first, by a callback that calls nothing. */
  lemma HandleLast(st: Conn, arrivals: seq<Arrival>, c: Bytes)
    requires st.hasReceiveCallback && st.arrivals == arrivals + [Chunk(c)] && c <= st.buffer
    ensures Enabled(st, ReadHandled(|arrivals|, []))
    ensures Stream(Step(st, ReadHandled(|arrivals|, []))) == st.delivered + [c] + Chunks(arrivals)
  {
    var n := |arrivals|;
    assert st.arrivals[n] == Chunk(c) && st.arrivals[..n] + st.arrivals[n + 1..] == arrivals;
    HandledKeeps(st, n, []);
    FrontOf(st.buffer, c);
  }

  lemma OutOfOrder(delivered: seq<Bytes>, chunks: seq<Bytes>, c: Bytes)
    requires chunks != [] && chunks[0] != c
    ensures delivered + [c] + chunks != delivered + chunks + [c]
  {
    assert (delivered + [c] + chunks)[|delivered|] == c && (delivered + chunks + [c])[|delivered|] == chunks[0];
  }

  /** The first chunk that waits is empty, and the one that comes after it is handled before it. */
  lemma BreakOvertaken(st: Conn, i: nat) returns (run: seq<Event>)
    requires st.hasReceiveCallback && Fits(st) && |st.buffer| > 0 && st.readsInFlight > 0
    requires i < |st.arrivals| && st.arrivals[i] == Chunk([]) && Chunks(st.arrivals[..i]) == []
    ensures Breaks(st, run)
  {
    var e, e1 := ReadEnds(Chunk([1])), ReadHandled(|st.arrivals|, []);
    Filled(st, [1]);
    var st1 := Step(st, e);
    HandleLast(st1, st.arrivals, [1]);
    ChunksAround(st.arrivals, i);
    OutOfOrder(st.delivered, Chunks(st.arrivals), [1]);
    assert [e1][1..] == [] && Stream(st1) + Arrived([e1]) == Stream(st1);
    BreaksNow(st1, e1);
    BreaksLater(st, e, [e1]);
    run := [e] + [e1];
  }

  /** Two reads that carry data are enough. */
  lemma BreakTwo(st: Conn) returns (run: seq<Event>)
    requires st.hasReceiveCallback && Fits(st) && |st.buffer| > 0 && DataReads(st) >= 2
    ensures Breaks(st, run)
  {
    if !Intact(st) {
      run := BreakStale(st);
    } else if Chunks(st.arrivals) == [] {
      var e := ReadEnds(Chunk([0]));
      Filled(st, [0]);
      var more := BreakOverlap(Step(st, e));
      BreaksLater(st, e, more);
      run := [e] + more;
    } else if st.readsInFlight == 0 {
      var i := FirstChunk(st.arrivals);
      var e := ReadHandled(i, []);
      HandleFirst(st, i);
      TakeKeepsFits(st, i, Step(st, e));
      assert st.arrivals[i] in st.arrivals && [e][1..] == [];
      var more := BreakOverlap(Step(st, e));
      BreaksLater(st, e, more);
      run := [e] + more;
    } else {
      run := BreakOverlap(st);
    }
  }

  /** All runs from `st` with at most `n` starts by hand that leave no chunk unheard conserve the stream. */
  ghost predicate AlwaysConserves(st: Conn, n: nat) {
    forall run :: Legal(st, run) && Starts(run) <= n && Unheard(st, run) == 0 ==> Conserves(st, run)
  }

  lemma NotAlways(st: Conn, e: Event, n: nat, n': nat)
    requires Enabled(st, e) && !IsUnheard(st, e) && !e.ReadEnds? && Stream(Step(st, e)) == Stream(st)
    requires !AlwaysConserves(Step(st, e), n) && n' == n + (if e.Receive? then 1 else 0)
    ensures !AlwaysConserves(st, n')
  {
    var st' := Step(st, e);
    var run :| Legal(st', run) && Starts(run) <= n && Unheard(st', run) == 0 && !Conserves(st', run);
    var all := [e] + run;
    assert all[0] == e && all[1..] == run;
    assert Arrived(all) == Arrived(run);
    assert Legal(st, all) && Unheard(st, all) == 0 && !Conserves(st, all);
  }

  lemma {:induction false} TooManyReads(st: Conn, n: nat)
    requires st.hasReceiveCallback && Fits(st) && |st.buffer| > 0 && Intact(st) && DataReads(st) + n > 1
    ensures !AlwaysConserves(st, n)
    decreases n
  {
    if DataReads(st) >= 2 {
      var run := BreakTwo(st);
      assert Starts(run) <= n;
    } else {
      TooManyReads(Step(st, Receive), n - 1);
      NotAlways(st, Receive, n - 1, n);
    }
  }

  /** Exact condition: with up to `n` more reads started by hand, delivery from the one array can be relied on if
      and only if there is one read altogether, and a chunk that waits is still in the array. */
  lemma OneArrayOneRead(st: Conn, n: nat)
    requires Fits(st) && |st.buffer| > 0
    ensures AlwaysConserves(st, n) <==> DataReads(st) + n <= 1 && Intact(st)
  {
    if DataReads(st) + n <= 1 && Intact(st) {
      forall run | Legal(st, run) && Starts(run) <= n && Unheard(st, run) == 0 ensures Conserves(st, run) {
        ReceiveStreamIff(st, run);
      }
    } else {
      var e := Api(CallSetReceive(true));
      var st' := Step(st, e);
      if Intact(st) {
        TooManyReads(st', n);
      } else {
        assert !Intact(st');
        var run := BreakStale(st');
      }
      NotAlways(st, e, n, n);
    }
  }

  /** So a new connection may be told to receive once, and no more often. */
  lemma OneStartOnly(st: Conn, n: nat)
    requires IsNew(st)
    ensures AlwaysConserves(st, n) <==> n <= 1
  {
    OneArrayOneRead(st, n);
  }

  /** Every state of a life meets what the exact condition asks of one. */
  lemma {:induction false} RunKeepsFits(st: Conn, run: seq<Event>)
    requires Legal(st, run) && Fits(st)
    ensures Fits(Run(st, run)) && |Run(st, run).buffer| == |st.buffer|
    decreases |run|
  {
    if run != [] {
      StreamStep(st, run[0]);
      if run[0].Api? {
        DoCallKeeps(st, run[0].call);
      } else if run[0].ReadHandled? {
        HandledKeeps(st, run[0].i, run[0].calls);
        TakeKeepsFits(st, run[0].i, Step(st, run[0]));
      }
      RunKeepsFits(Step(st, run[0]), run[1..]);
    }
  }

  /** So the exact condition is about every state of every life. */
  lemma OneArrayOneReadInEveryLife(st: Conn, run: seq<Event>, n: nat)
    requires IsNew(st) && Legal(st, run)
    ensures AlwaysConserves(Run(st, run), n) <==> DataReads(Run(st, run)) + n <= 1 && Intact(Run(st, run))
  {
    RunKeepsFits(st, run);
    OneArrayOneRead(Run(st, run), n);
  }

  /** A read that ends leaves a waiting chunk in the array if and only if it brings the same bytes as far as both
      reach: what lies behind a chunk in the array is what lay there before. */
  lemma OverwriteIff(st: Conn, c: Bytes, a: Arrival)
    requires Enabled(st, ReadEnds(a)) && c <= st.buffer
    ensures c <= Arrive(st, a).buffer <==> AgreeOnCommonPrefix(c, BytesOf(a))
    ensures |Arrive(st, a).buffer| == |st.buffer| && BytesOf(a) <= Arrive(st, a).buffer
  {
    var d, b := BytesOf(a), Arrive(st, a).buffer;
    assert forall i :: 0 <= i < |b| ==> b[i] == if i < |d| then d[i] else st.buffer[i];
    if AgreeOnCommonPrefix(c, d) {
      assert forall i :: 0 <= i < |c| ==> c[i] == b[i];
    }
  }

  /** Two reads that end before either is handled: the second chunk is delivered twice and the first is lost. */
  lemma SecondReadLoses(st: Conn)
    requires IsNew(st)
    ensures var st1 := DoCall(st, CallSetReceive(true));
            var run := [Receive, Receive, ReadEnds(Chunk([1])), ReadEnds(Chunk([2])),
                        ReadHandled(0, []), ReadHandled(0, [])];
            Legal(st1, run) && Run(st1, run).delivered == [[2], [2]]
  {
  }

  // ---------------------------------------------------------------- the two orders the code gets wrong

  /** `handle_receive` in the order of the code: the next read is armed on the same array first. `early` is
      what that read has already put there when the callback runs, if anything. */
  function HandleReceiveRearmFirst(st: Conn, size: nat, early: Option<Bytes>, calls: seq<Call>): Conn
    requires size <= |st.buffer| && (early.Some? ==> |early.value| <= |st.buffer|)
  {
    var st1 := StartReceive(st);
    var st2 := if early.Some? then st1.(buffer := early.value + st1.buffer[|early.value|..]) else st1;
    OnReceived(st2, size, calls)
  }

  ghost predicate AgreeOnCommonPrefix(a: Bytes, b: Bytes) {
    forall i :: 0 <= i < |a| && i < |b| ==> a[i] == b[i]
  }

  /** Arming first delivers the chunk that was received if and only if the next read has not yet filled the
      array, or has filled it with the same bytes. */
  lemma RearmFirstIff(st: Conn, chunk: Bytes, early: Option<Bytes>, calls: seq<Call>)
    requires st.hasReceiveCallback && st.readsInFlight > 0
    requires |chunk| <= |st.buffer| && (early.Some? ==> |early.value| <= |st.buffer|)
    ensures HandleReceiveRearmFirst(EndRead(st, chunk), |chunk|, early, calls).delivered == st.delivered + [chunk]
            <==> early.None? || AgreeOnCommonPrefix(chunk, early.value)
  {
    var st1 := StartReceive(EndRead(st, chunk));
    var st2 := if early.Some? then st1.(buffer := early.value + st1.buffer[|early.value|..]) else st1;
    var got := st2.buffer[..|chunk|];
    DoCallsKeep(st2.(delivered := st2.delivered + [got]), calls);
    assert (st.delivered + [got])[|st.delivered|] == got;
    assert (st.delivered + [chunk])[|st.delivered|] == chunk;
    if early.Some? {
      assert forall i :: 0 <= i < |chunk| ==>
          got[i] == if i < |early.value| then early.value[i] else chunk[i];
      if got == chunk {
        assert forall i :: 0 <= i < |chunk| && i < |early.value| ==> chunk[i] == got[i];
      } else {
        var i :| 0 <= i < |chunk| && got[i] != chunk[i];
      }
    } else {
      assert got == chunk;
    }
  }

  lemma RearmFirstFrame(st: Conn, chunk: Bytes, early: Option<Bytes>, calls: seq<Call>)
    requires st.readsInFlight > 0 && |chunk| <= |st.buffer| && (early.Some? ==> |early.value| <= |st.buffer|)
    ensures var st1 := HandleReceiveRearmFirst(EndRead(st, chunk), |chunk|, early, calls);
            && st1.readsInFlight == st.readsInFlight && |st1.buffer| == |st.buffer|
            && |st1.delivered| == |st.delivered| + (if st.hasReceiveCallback then 1 else 0)
            && st.delivered <= st1.delivered
  {
    var st1 := StartReceive(EndRead(st, chunk));
    var st2 := if early.Some? then st1.(buffer := early.value + st1.buffer[|early.value|..]) else st1;
    DoCallsKeep(st2.(delivered := st2.delivered + [st2.buffer[..|chunk|]]), calls);
  }

  /** What the read after the first chunk has put into the array by the time that chunk is delivered. */
  function NextOf(chunks: seq<Bytes>, early: seq<bool>): Option<Bytes>
    requires |early| == |chunks|
  {
    if |chunks| > 1 && early[0] then Some(chunks[1]) else None
  }

  ghost predicate CodeOrderInput(st: Conn, chunks: seq<Bytes>, early: seq<bool>, calls: seq<seq<Call>>) {
    && st.readsInFlight > 0 && |early| == |chunks| && |calls| == |chunks|
    && forall i :: 0 <= i < |chunks| ==> |chunks[i]| <= |st.buffer|
  }

  /** A stream of chunks through the code's order; `early[i]` says whether the chunk after the `i`-th had already
      landed in the array when the `i`-th was delivered, and `calls[i]` is what the callback does with it. */
  ghost function CodeOrderRun(st: Conn, chunks: seq<Bytes>, early: seq<bool>, calls: seq<seq<Call>>): Conn
    requires CodeOrderInput(st, chunks, early, calls)
    decreases |chunks|
  {
    if chunks == [] then st
    else
      RearmFirstFrame(st, chunks[0], NextOf(chunks, early), calls[0]);
      var st' := HandleReceiveRearmFirst(EndRead(st, chunks[0]), |chunks[0]|, NextOf(chunks, early), calls[0]);
      CodeOrderRun(st', chunks[1..], early[1..], calls[1..])
  }

  /** A callback is set whenever a chunk comes. */
  ghost predicate CodeOrderHeard(st: Conn, chunks: seq<Bytes>, early: seq<bool>, calls: seq<seq<Call>>)
    requires CodeOrderInput(st, chunks, early, calls)
    decreases |chunks|
  {
    chunks != [] ==>
      && st.hasReceiveCallback
      && (RearmFirstFrame(st, chunks[0], NextOf(chunks, early), calls[0]);
          var st' := HandleReceiveRearmFirst(EndRead(st, chunks[0]), |chunks[0]|, NextOf(chunks, early), calls[0]);
          CodeOrderHeard(st', chunks[1..], early[1..], calls[1..]))
  }

  ghost predicate Harmless(chunks: seq<Bytes>, early: seq<bool>)
    requires |early| == |chunks|
  {
    forall i :: 0 <= i < |chunks| - 1 && early[i] ==> AgreeOnCommonPrefix(chunks[i], chunks[i + 1])
  }

  /** The code's order delivers a received stream, whatever the callbacks call, if and only if one was set for every
      chunk and no chunk overtook a different one. */
  lemma {:induction false} CodeOrderStreamIff(st: Conn, chunks: seq<Bytes>, early: seq<bool>, calls: seq<seq<Call>>)
    requires CodeOrderInput(st, chunks, early, calls)
    ensures CodeOrderRun(st, chunks, early, calls).delivered == st.delivered + chunks <==>
            CodeOrderHeard(st, chunks, early, calls) && Harmless(chunks, early)
    ensures |CodeOrderRun(st, chunks, early, calls).delivered| <= |st.delivered| + |chunks|
    ensures st.delivered <= CodeOrderRun(st, chunks, early, calls).delivered
    decreases |chunks|
  {
    if chunks != [] {
      var next := NextOf(chunks, early);
      var st1 := HandleReceiveRearmFirst(EndRead(st, chunks[0]), |chunks[0]|, next, calls[0]);
      RearmFirstFrame(st, chunks[0], next, calls[0]);
      CodeOrderStreamIff(st1, chunks[1..], early[1..], calls[1..]);
      if st.hasReceiveCallback {
        RearmFirstIff(st, chunks[0], next, calls[0]);
        SplitAt(st.delivered, st1.delivered, CodeOrderRun(st, chunks, early, calls).delivered, chunks);
        HarmlessSplit(chunks, early);
      }
    }
  }

  /** No call in `calls`, nested ones included, clears the receive callback. */
  ghost predicate NeverClears(calls: seq<Call>)
    decreases calls, 0
  {
    calls == [] || (NeverClearsOne(calls[0]) && NeverClears(calls[1..]))
  }

  ghost predicate NeverClearsOne(call: Call)
    decreases call
  {
    match call
    case CallSetReceive(on) => on
    case CallClose(reaction) => NeverClears(reaction)
    case _ => true
  }

  lemma {:induction false} CloseKeepsReceiver(st: Conn, reaction: seq<Call>)
    requires st.hasReceiveCallback && NeverClears(reaction)
    ensures Close(st, reaction).hasReceiveCallback
    decreases reaction, 1
  {
    if st.status != Closed && st.hasDisconnectCallback {
      CallsKeepReceiver(st.(status := Closed, closes := st.closes + 1, closedWith := Some(true), fired := st.fired + 1),
                        reaction);
    }
  }

  lemma {:induction false} CallsKeepReceiver(st: Conn, calls: seq<Call>)
    requires st.hasReceiveCallback && NeverClears(calls)
    ensures DoCalls(st, calls).hasReceiveCallback
    decreases calls, 0
  {
    if calls != [] {
      if calls[0].CallClose? { CloseKeepsReceiver(st, calls[0].reaction); }
      CallsKeepReceiver(DoCall(st, calls[0]), calls[1..]);
    }
  }

  /** A stream whose callbacks leave the callback set is heard, so then it all depends on what overtook what. */
  lemma {:induction false} UnclearedIsHeard(st: Conn, chunks: seq<Bytes>, early: seq<bool>, calls: seq<seq<Call>>)
    requires CodeOrderInput(st, chunks, early, calls)
    requires st.hasReceiveCallback && forall i :: 0 <= i < |calls| ==> NeverClears(calls[i])
    ensures CodeOrderHeard(st, chunks, early, calls)
    decreases |chunks|
  {
    if chunks != [] {
      var next := NextOf(chunks, early);
      var st1 := StartReceive(EndRead(st, chunks[0]));
      var st2 := if next.Some? then st1.(buffer := next.value + st1.buffer[|next.value|..]) else st1;
      CallsKeepReceiver(st2.(delivered := st2.delivered + [st2.buffer[..|chunks[0]|]]), calls[0]);
      RearmFirstFrame(st, chunks[0], next, calls[0]);
      UnclearedIsHeard(HandleReceiveRearmFirst(EndRead(st, chunks[0]), |chunks[0]|, next, calls[0]),
                       chunks[1..], early[1..], calls[1..]);
    }
  }

  lemma SplitAt(a: seq<Bytes>, b: seq<Bytes>, c: seq<Bytes>, chunks: seq<Bytes>)
    requires a <= b <= c && chunks != [] && |b| == |a| + 1
    ensures c == a + chunks <==> b == a + [chunks[0]] && c == b + chunks[1..]
  {
    assert a + chunks == a + [chunks[0]] + chunks[1..];
    if c == a + chunks {
      assert b == c[..|a| + 1] == a + [chunks[0]];
    }
  }

  lemma HarmlessSplit(chunks: seq<Bytes>, early: seq<bool>)
    requires |early| == |chunks| && chunks != []
    ensures Harmless(chunks, early) <==>
            && (early[0] && |chunks| > 1 ==> AgreeOnCommonPrefix(chunks[0], chunks[1]))
            && Harmless(chunks[1..], early[1..])
  {
    if Harmless(chunks[1..], early[1..]) {
      forall i | 0 < i < |chunks| - 1 && early[i] ensures AgreeOnCommonPrefix(chunks[i], chunks[i + 1]) {
        assert early[1..][i - 1] && chunks[1..][i - 1] == chunks[i] && chunks[1..][i] == chunks[i + 1];
      }
    }
    if Harmless(chunks, early) {
      forall i | 0 <= i < |chunks| - 2 && early[1..][i]
        ensures AgreeOnCommonPrefix(chunks[1..][i], chunks[1..][i + 1])
      {
        assert early[i + 1] && chunks[1..][i] == chunks[i + 1];
      }
    }
  }

  /** Two one-byte chunks, the second landing early: the first is lost and the second delivered twice. */
  lemma CodeOrderLoses(st: Conn)
    requires st.hasReceiveCallback && st.readsInFlight > 0 && |st.buffer| == MAX_BUFFER_SIZE
    ensures CodeOrderRun(st, [[1], [2]], [true, false], [[], []]).delivered != st.delivered + [[1], [2]]
  {
    var chunks: seq<Bytes> := [[1], [2]];
    CodeOrderStreamIff(st, chunks, [true, false], [[], []]);
    assert !AgreeOnCommonPrefix(chunks[0], chunks[1]) by { assert chunks[0][0] != chunks[1][0]; }
  }

  function Front(queue: seq<Bytes>): Option<Bytes> { if queue == [] then None else Some(queue[0]) }

  /** `async_send` as written: the idle path sends `front()` without having queued the new buffer. */
  function LiteralAsyncSend(st: Conn, data: Bytes): Option<Conn> {
    if st.queue != [] || st.sending then
      Some(st.(queue := st.queue + [data], submitted := st.submitted + [data]))
    else LiteralStartWrite(st)
  }

  function LiteralStartWrite(st: Conn): Option<Conn> {
    match Front(st.queue)
    case None => None
    case Some(front) =>
      Some(st.(sending := true, started := st.started + 1, writesInFlight := st.writesInFlight + [front]))
  }

  /** The code and the append-first reading differ exactly on an idle connection, where the code is undefined:
      so the first send on a new connection is always undefined, and no write is ever started. */
  lemma LiteralSendUndefinedIffIdle(st: Conn, data: Bytes)
    ensures LiteralAsyncSend(st, data) == None <==> st.queue == [] && !st.sending
    ensures LiteralAsyncSend(st, data).Some? ==> LiteralAsyncSend(st, data).value == AsyncSend(st, data)
    ensures LiteralAsyncSend(st, data).Some? ==> LiteralAsyncSend(st, data).value.started == st.started
    ensures IsNew(st) ==> LiteralAsyncSend(st, data) == None
  {
  }
}
