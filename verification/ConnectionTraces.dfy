/** What a run does to the outside, read off the run. The reference here knows no connection: only whether one is
    closed, which callbacks are set, and which reads wait for their handler. Everything a connection records of
    itself, and everything it sends, is proved to be what the reference says. */
module ConnectionTraces {
  import opened Options
  import opened ConnectionSpec
  import opened ConnectionRuns

  datatype Flags = Flags(closed: bool, receiver: bool, watcher: bool)

  /** What happens, in order. `Shut` says whether the disconnect callback was called. */
  datatype Action =
    | Sent(data: Bytes)
    | Shut(told: bool)
    | ReceiverSet(on: bool)
    | WatcherSet(on: bool)

  // ---------------------------------------------------------------- the reference

  function FlagsAfter(f: Flags, acts: seq<Action>): Flags
    decreases |acts|
  {
    if acts == [] then f
    else
      var before := FlagsAfter(f, acts[..|acts| - 1]);
      match acts[|acts| - 1]
      case Sent(_) => before
      case Shut(_) => before.(closed := true)
      case ReceiverSet(on) => before.(receiver := on)
      case WatcherSet(on) => before.(watcher := on)
  }

  /** The actions of a call. A close of a closed connection is none; another one calls the disconnect callback if it
      is set, and that calls in turn. */
  function Acts(f: Flags, call: Call): seq<Action>
    decreases call
  {
    match call
    case CallSend(data) => [Sent(data)]
    case CallSetReceive(on) => [ReceiverSet(on)]
    case CallSetDisconnected(on) => [WatcherSet(on)]
    case CallClose(reaction) =>
      if f.closed then [] else if f.watcher then [Shut(true)] + ActsAll(f.(closed := true), reaction) else [Shut(false)]
  }

  function ActsAll(f: Flags, calls: seq<Call>): seq<Action>
    decreases calls, 0
  {
    if calls == [] then [] else Acts(f, calls[0]) + ActsAll(FlagsAfter(f, Acts(f, calls[0])), calls[1..])
  }

  /** The actions of an event, where `waiting` are the reads that have ended: a failed read closes, and a chunk goes to
      the receive callback if it is set. */
  function EventActs(f: Flags, waiting: seq<Arrival>, e: Event): seq<Action> {
    match e
    case Api(call) => Acts(f, call)
    case ReadHandled(i, calls) =>
      if i >= |waiting| then []
      else if waiting[i].Failed? then Acts(f, CallClose(calls))
      else if f.receiver then ActsAll(f, calls)
      else []
    case _ => []
  }

  function WaitingAfter(waiting: seq<Arrival>, e: Event): seq<Arrival> {
    match e
    case ReadEnds(a) => waiting + [a]
    case ReadHandled(i, _) => if i >= |waiting| then waiting else waiting[..i] + waiting[i + 1..]
    case _ => waiting
  }

  function Trace(f: Flags, waiting: seq<Arrival>, run: seq<Event>): seq<Action>
    decreases |run|
  {
    if run == [] then []
    else
      var acts := EventActs(f, waiting, run[0]);
      acts + Trace(FlagsAfter(f, acts), WaitingAfter(waiting, run[0]), run[1..])
  }

  // ---------------------------------------------------------------- what an observer counts

  function SentIn(acts: seq<Action>): seq<Bytes> {
    if acts == [] then [] else (if acts[0].Sent? then [acts[0].data] else []) + SentIn(acts[1..])
  }

  function Shuts(acts: seq<Action>): nat {
    if acts == [] then 0 else (if acts[0].Shut? then 1 else 0) + Shuts(acts[1..])
  }

  function Told(acts: seq<Action>): nat {
    if acts == [] then 0 else (if acts[0] == Shut(true) then 1 else 0) + Told(acts[1..])
  }

  function FlagsOf(st: Conn): Flags { Flags(st.status == Closed, st.hasReceiveCallback, st.hasDisconnectCallback) }

  /** From `st` to `st'` exactly `acts` happened. */
  ghost predicate Does(st: Conn, acts: seq<Action>, st': Conn) {
    && st'.submitted == st.submitted + SentIn(acts)
    && st'.closes == st.closes + Shuts(acts)
    && st'.fired == st.fired + Told(acts)
    && FlagsOf(st') == FlagsAfter(FlagsOf(st), acts)
  }

  lemma {:induction false} FlagsAppend(f: Flags, a: seq<Action>, b: seq<Action>)
    ensures FlagsAfter(f, a + b) == FlagsAfter(FlagsAfter(f, a), b)
    decreases |b|
  {
    if b == [] {
      assert a + b == a;
    } else {
      var n := |b| - 1;
      assert (a + b)[..|a + b| - 1] == a + b[..n];
      FlagsAppend(f, a, b[..n]);
    }
  }

  lemma {:induction false} CountsAppend(a: seq<Action>, b: seq<Action>)
    ensures SentIn(a + b) == SentIn(a) + SentIn(b)
    ensures Shuts(a + b) == Shuts(a) + Shuts(b) && Told(a + b) == Told(a) + Told(b)
  {
    if a == [] {
      assert a + b == b;
    } else {
      assert (a + b)[0] == a[0] && (a + b)[1..] == a[1..] + b;
      CountsAppend(a[1..], b);
    }
  }

  lemma DoesNothing(st: Conn, st': Conn)
    requires st'.submitted == st.submitted && st'.closes == st.closes && st'.fired == st.fired
    requires FlagsOf(st') == FlagsOf(st)
    ensures Does(st, [], st')
  {
  }

  lemma DoesBoth(st: Conn, a: seq<Action>, st1: Conn, b: seq<Action>, st2: Conn)
    requires Does(st, a, st1) && Does(st1, b, st2)
    ensures Does(st, a + b, st2)
  {
    CountsAppend(a, b);
    FlagsAppend(FlagsOf(st), a, b);
  }

  lemma OneAction(f: Flags, a: Action)
    ensures SentIn([a]) == (if a.Sent? then [a.data] else [])
    ensures Shuts([a]) == (if a.Shut? then 1 else 0) && Told([a]) == (if a == Shut(true) then 1 else 0)
    ensures FlagsAfter(f, [a]) == match a
                                  case Sent(_) => f
                                  case Shut(_) => f.(closed := true)
                                  case ReceiverSet(on) => f.(receiver := on)
                                  case WatcherSet(on) => f.(watcher := on)
  {
    assert [a][1..] == [] && [a][..0] == [];
    assert FlagsAfter(f, [a][..0]) == f;
  }

  // ---------------------------------------------------------------- the machine does what the reference says

  lemma SendDoes(st: Conn, data: Bytes)
    ensures Does(st, [Sent(data)], AsyncSend(st, data))
    ensures AsyncSend(st, data).queue == st.queue + [data]
  {
    OneAction(FlagsOf(st), Sent(data));
  }

  lemma {:induction false} CloseDoes(st: Conn, reaction: seq<Call>)
    ensures Does(st, Acts(FlagsOf(st), CallClose(reaction)), Close(st, reaction))
    decreases reaction, 1
  {
    if st.status == Closed {
      DoesNothing(st, st);
    } else {
      var told := st.hasDisconnectCallback;
      OneAction(FlagsOf(st), Shut(told));
      if told {
        var st1 := st.(status := Closed, closes := st.closes + 1, closedWith := Some(true), fired := st.fired + 1);
        assert Does(st, [Shut(true)], st1);
        CallsDo(st1, reaction);
        DoesBoth(st, [Shut(true)], st1, ActsAll(FlagsOf(st1), reaction), DoCalls(st1, reaction));
      }
    }
  }

  lemma {:induction false} CallDoes(st: Conn, call: Call)
    ensures Does(st, Acts(FlagsOf(st), call), DoCall(st, call))
    decreases call
  {
    match call
    case CallSend(data) => SendDoes(st, data);
    case CallClose(reaction) => CloseDoes(st, reaction);
    case CallSetReceive(on) => OneAction(FlagsOf(st), ReceiverSet(on));
    case CallSetDisconnected(on) => OneAction(FlagsOf(st), WatcherSet(on));
  }

  lemma {:induction false} CallsDo(st: Conn, calls: seq<Call>)
    ensures Does(st, ActsAll(FlagsOf(st), calls), DoCalls(st, calls))
    decreases calls, 0
  {
    if calls == [] {
      DoesNothing(st, st);
    } else {
      var st1 := DoCall(st, calls[0]);
      CallDoes(st, calls[0]);
      CallsDo(st1, calls[1..]);
      DoesBoth(st, Acts(FlagsOf(st), calls[0]), st1, ActsAll(FlagsOf(st1), calls[1..]), DoCalls(st, calls));
    }
  }

  /** A read that is handled: a failure closes, and a chunk runs the receive callback if it is set. */
  lemma HandledDoes(st: Conn, i: nat, calls: seq<Call>)
    requires Enabled(st, ReadHandled(i, calls))
    ensures Does(st, EventActs(FlagsOf(st), st.arrivals, ReadHandled(i, calls)), Step(st, ReadHandled(i, calls)))
  {
    var st1, st' := Take(st, i), Step(st, ReadHandled(i, calls));
    DoesNothing(st, st1);
    if st.arrivals[i].Failed? {
      CloseDoes(st1, calls);
      DoesBoth(st, [], st1, Acts(FlagsOf(st1), CallClose(calls)), st');
      assert [] + Acts(FlagsOf(st1), CallClose(calls)) == Acts(FlagsOf(st1), CallClose(calls));
    } else if st.hasReceiveCallback {
      var st2 := st1.(delivered := st1.delivered + [st1.buffer[..|st.arrivals[i].bytes|]]);
      DoesNothing(st, st2);
      CallsDo(st2, calls);
      var st3 := DoCalls(st2, calls);
      DoesBoth(st, [], st2, ActsAll(FlagsOf(st2), calls), st3);
      assert [] + ActsAll(FlagsOf(st2), calls) == ActsAll(FlagsOf(st2), calls);
      assert st' == StartReceive(st3);
    }
  }

  lemma StepDoes(st: Conn, e: Event)
    requires Enabled(st, e)
    ensures Does(st, EventActs(FlagsOf(st), st.arrivals, e), Step(st, e))
    ensures Step(st, e).arrivals == WaitingAfter(st.arrivals, e)
  {
    match e
    case Api(call) =>
      CallDoes(st, call);
      DoCallKeeps(st, call);
    case Receive => DoesNothing(st, Step(st, e));
    case SendDone(_, _) => DoesNothing(st, Step(st, e));
    case ReadEnds(_) => DoesNothing(st, Step(st, e));
    case ReadHandled(i, calls) =>
      HandledDoes(st, i, calls);
      HandledKeeps(st, i, calls);
  }

  /** The buffers submitted, the closes, the calls of the disconnect callback and the flags of a connection are, over
      every run, what the reference reads off the run. */
  lemma {:induction false} RunDoes(st: Conn, run: seq<Event>)
    requires Legal(st, run)
    ensures Does(st, Trace(FlagsOf(st), st.arrivals, run), Run(st, run))
    decreases |run|
  {
    if run == [] {
      DoesNothing(st, st);
    } else {
      var st1 := Step(st, run[0]);
      StepDoes(st, run[0]);
      RunDoes(st1, run[1..]);
      DoesBoth(st, EventActs(FlagsOf(st), st.arrivals, run[0]), st1,
               Trace(FlagsOf(st1), st1.arrivals, run[1..]), Run(st, run));
    }
  }

  // ---------------------------------------------------------------- a new connection

  const NEW := Flags(false, false, false)

  /** What a run of a new connection does. */
  function TraceOf(run: seq<Event>): seq<Action> { Trace(NEW, [], run) }

  /** First in, first out, against the run: the buffers popped, followed by those still queued, are the buffers the
      calls of the run sent, in order; and the connection has closed, and told the game, as often as the run says. */
  lemma LifeDoes(st: Conn, run: seq<Event>)
    requires IsNew(st) && Legal(st, run)
    ensures var last, acts := Run(st, run), TraceOf(run);
            && last.popped + last.queue == SentIn(acts)
            && (last.status == Closed <==> Shuts(acts) > 0)
            && last.closes == Shuts(acts) <= 1 && last.fired == Told(acts)
  {
    RunDoes(st, run);
    RunIsSendSafe(st, run);
    RunClosesOnce(st, run);
    assert st.submitted + SentIn(TraceOf(run)) == SentIn(TraceOf(run));
  }

  /** In every state of a run the wire, followed by what is queued, carries `sent` and what the run sends on from it. */
  ghost predicate CarriesThroughout(st: Conn, f: Flags, waiting: seq<Arrival>, sent: seq<Bytes>, run: seq<Event>)
    requires Legal(st, run)
    decreases |run|
  {
    && st.wire + Concat(st.queue) == Concat(sent)
    && (run != [] ==>
          var acts := EventActs(f, waiting, run[0]);
          CarriesThroughout(Step(st, run[0]), FlagsAfter(f, acts), WaitingAfter(waiting, run[0]), sent + SentIn(acts),
                            run[1..]))
  }

  lemma {:induction false} CarriesIsConserved(st: Conn, run: seq<Event>)
    requires Legal(st, run)
    ensures CarriesThroughout(st, FlagsOf(st), st.arrivals, st.submitted, run) <==> ConservedThroughout(st, run)
    decreases |run|
  {
    if run != [] {
      StepDoes(st, run[0]);
      CarriesIsConserved(Step(st, run[0]), run[1..]);
    }
  }

  /** Bytes against the run: in all states of a life the wire and the queue carry just the buffers sent so far, if and
      only if every completion was exact. */
  lemma BytesCarriedIff(st: Conn, run: seq<Event>)
    requires IsNew(st) && Legal(st, run)
    ensures CarriesThroughout(st, NEW, [], [], run) <==> AllExact(st, run)
  {
    CarriesIsConserved(st, run);
    WireConservedIff(st, run);
  }

  // ---------------------------------------------------------------- the wire, exact or not

  /** What completions put on the wire, where `sent` are all buffers ever sent and `done` of them are through: each
      moves bytes from the front of the buffer next in turn, and a success is through with it. */
  function WireOf(sent: seq<Bytes>, done: nat, run: seq<Event>): Bytes
    decreases |run|
  {
    if run == [] then []
    else if run[0].SendDone? then
      (if done < |sent| && run[0].moved <= |sent[done]| then sent[done][..run[0].moved] else []) +
      WireOf(sent, done + (if run[0].error then 0 else 1), run[1..])
    else WireOf(sent, done, run[1..])
  }

  lemma WireStep(st: Conn, e: Event)
    requires SendSafe(st) && Enabled(st, e)
    ensures e.SendDone? ==>
              && st.queue != [] && e.moved <= |st.queue[0]| && Step(st, e).wire == st.wire + st.queue[0][..e.moved]
              && Step(st, e).completed == st.completed + 1
    ensures !e.SendDone? ==> Step(st, e).wire == st.wire && Step(st, e).completed == st.completed
  {
    match e
    case Api(call) => DoCallKeeps(st, call);
    case ReadHandled(i, calls) => HandledKeeps(st, i, calls);
    case _ =>
  }

  lemma RunGrowsSubmitted(st: Conn, run: seq<Event>)
    requires Legal(st, run)
    ensures st.submitted <= Run(st, run).submitted
  {
    RunDoes(st, run);
  }

  lemma FrontIsNext(popped: seq<Bytes>, queue: seq<Bytes>, all: seq<Bytes>)
    requires queue != [] && popped + queue <= all
    ensures |popped| < |all| && all[|popped|] == queue[0]
  {
    assert (popped + queue)[|popped|] == queue[0];
  }

  /** The wire carries, completion by completion, what the run and the buffers it sent say. */
  lemma {:induction false} WireFollowsRun(st: Conn, run: seq<Event>)
    requires SendSafe(st) && Legal(st, run)
    ensures Run(st, run).wire == st.wire + WireOf(Run(st, run).submitted, |st.popped|, run)
    decreases |run|
  {
    if run != [] {
      var st1, all := Step(st, run[0]), Run(st, run).submitted;
      StepKeepsSafe(st, run[0]);
      SuccessPops(st, run[0]);
      WireStep(st, run[0]);
      WireFollowsRun(st1, run[1..]);
      RunGrowsSubmitted(st, run);
      if run[0].SendDone? { FrontIsNext(st.popped, st.queue, all); }
    }
  }

  /** The wire of a life, read off the run alone. */
  lemma LifeOnTheWire(st: Conn, run: seq<Event>)
    requires IsNew(st) && Legal(st, run)
    ensures Run(st, run).wire == WireOf(SentIn(TraceOf(run)), 0, run)
  {
    WireFollowsRun(st, run);
    RunDoes(st, run);
    assert st.submitted + SentIn(TraceOf(run)) == SentIn(TraceOf(run));
    assert st.wire + WireOf(SentIn(TraceOf(run)), 0, run) == WireOf(SentIn(TraceOf(run)), 0, run);
  }

  // ---------------------------------------------------------------- a failed read closes

  lemma {:induction false} ClosedStays(f: Flags, acts: seq<Action>)
    requires f.closed
    ensures FlagsAfter(f, acts).closed
    decreases |acts|
  {
    if acts != [] { ClosedStays(f, acts[..|acts| - 1]); }
  }

  lemma CloseShuts(f: Flags, reaction: seq<Call>)
    ensures FlagsAfter(f, Acts(f, CallClose(reaction))).closed
  {
    OneAction(f, Shut(f.watcher));
    if !f.closed && f.watcher {
      var f1 := f.(closed := true);
      FlagsAppend(f, [Shut(true)], ActsAll(f1, reaction));
      ClosedStays(f1, ActsAll(f1, reaction));
    }
  }

  /** None of the calls closes. */
  predicate NoClose(calls: seq<Call>) { forall i :: 0 <= i < |calls| ==> !calls[i].CallClose? }

  lemma {:induction false} NoCloseStaysOpen(f: Flags, calls: seq<Call>)
    requires NoClose(calls)
    ensures FlagsAfter(f, ActsAll(f, calls)).closed == f.closed
    decreases |calls|
  {
    if calls != [] {
      var acts := Acts(f, calls[0]);
      assert |acts| == 1 && acts == [acts[0]];
      OneAction(f, acts[0]);
      FlagsAppend(f, acts, ActsAll(FlagsAfter(f, acts), calls[1..]));
      NoCloseStaysOpen(FlagsAfter(f, acts), calls[1..]);
    }
  }

  /** The game makes no close call by itself or from the receive callback. */
  predicate GameNeverCloses(waiting: seq<Arrival>, run: seq<Event>)
    decreases |run|
  {
    run != [] ==>
      && (match run[0]
          case Api(call) => !call.CallClose?
          case ReadHandled(i, calls) => i < |waiting| && waiting[i].Chunk? ==> NoClose(calls)
          case _ => true)
      && GameNeverCloses(WaitingAfter(waiting, run[0]), run[1..])
  }

  /** The handler of a failed read has run. */
  predicate FailureHandled(waiting: seq<Arrival>, run: seq<Event>)
    decreases |run|
  {
    && run != []
    && ((run[0].ReadHandled? && run[0].i < |waiting| && waiting[run[0].i].Failed?) ||
        FailureHandled(WaitingAfter(waiting, run[0]), run[1..]))
  }

  lemma EventShuts(f: Flags, waiting: seq<Arrival>, e: Event)
    requires GameNeverCloses(waiting, [e])
    ensures FlagsAfter(f, EventActs(f, waiting, e)).closed <==>
              f.closed || (e.ReadHandled? && e.i < |waiting| && waiting[e.i].Failed?)
  {
    match e
    case Api(call) =>
      assert EventActs(f, waiting, e) == [Acts(f, call)[0]];
      OneAction(f, Acts(f, call)[0]);
    case ReadHandled(i, calls) =>
      if i < |waiting| {
        if waiting[i].Failed? { CloseShuts(f, calls); } else { NoCloseStaysOpen(f, calls); }
      }
    case _ =>
  }

  lemma {:induction false} TraceShutsIff(f: Flags, waiting: seq<Arrival>, run: seq<Event>)
    requires GameNeverCloses(waiting, run)
    ensures FlagsAfter(f, Trace(f, waiting, run)).closed <==> f.closed || FailureHandled(waiting, run)
    decreases |run|
  {
    if run != [] {
      var acts := EventActs(f, waiting, run[0]);
      var f1, waiting1 := FlagsAfter(f, acts), WaitingAfter(waiting, run[0]);
      assert [run[0]][1..] == [];
      EventShuts(f, waiting, run[0]);
      TraceShutsIff(f1, waiting1, run[1..]);
      FlagsAppend(f, acts, Trace(f1, waiting1, run[1..]));
    }
  }

  /** A client that goes away: a connection that the game never closes ends closed if and only if the handler of a
      failed read has run. */
  lemma ClosedIffFailureHandled(st: Conn, run: seq<Event>)
    requires IsNew(st) && Legal(st, run) && GameNeverCloses([], run)
    ensures Run(st, run).status == Closed <==> FailureHandled([], run)
  {
    RunDoes(st, run);
    TraceShutsIff(NEW, [], run);
  }

  /** Any read in flight can fail, and the handler of the failure closes the connection at once, calls the disconnect
      callback if it is set, and starts no other read. */
  lemma FailureCloses(st: Conn, calls: seq<Call>)
    requires st.readsInFlight > 0
    ensures var run := [ReadEnds(Failed), ReadHandled(|st.arrivals|, calls)];
            && Legal(st, run)
            && var last := Run(st, run);
               && last.status == Closed && last.readsInFlight == st.readsInFlight - 1
               && last.arrivals == st.arrivals && last.delivered == st.delivered
               && (st.status != Closed ==> last.closedWith == Some(st.hasDisconnectCallback))
               && last.fired >= st.fired + if st.status != Closed && st.hasDisconnectCallback then 1 else 0
  {
    var n := |st.arrivals|;
    var run := [ReadEnds(Failed), ReadHandled(n, calls)];
    var st1 := Step(st, run[0]);
    assert st1.buffer == st.buffer;
    assert st1.arrivals[..n] + st1.arrivals[n + 1..] == st.arrivals;
    var last := Step(st1, run[1]);
    assert run[1..] == [run[1]] && [run[1]][1..] == [];
    assert Legal(st1, run[1..]) && Run(st1, run[1..]) == last;
    HandledKeeps(st1, n, calls);
    var st2 := Take(st1, n);
    CloseKeeps(st2, calls);
    CloseDoes(st2, calls);
    if st.status != Closed {
      CloseRemembers(st2, calls);
      CountsAppend([Shut(true)], ActsAll(FlagsOf(st).(closed := true), calls));
      OneAction(FlagsOf(st), Shut(true));
    }
  }
}
