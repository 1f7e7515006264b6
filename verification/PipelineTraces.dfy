/** What a run of the whole server means for one connection, for the index, and for a client that waits: each is read
    off the run. */
module PipelineTraces {
  import opened Options
  import opened GameSpec
  import opened Pipeline
  import Cn = ConnectionSpec
  import Reg = Registries
  import Runs = ConnectionRuns
  import Traces = ConnectionTraces
  import Login = LoginServices

  // ---------------------------------------------------------------- the answer to a client

  /** What an offered connection comes to: it is refused without a callback, a login service or a login section;
      accepted without an entity for any class but one; and otherwise logged in. */
  lemma OfferIs(cfg: Config, s: State, k: nat)
    requires Possible(cfg, s, Offer(k))
    ensures var stage := Step(cfg, s, Offer(k)).stages[k];
            && (stage == Dropped <==> !(cfg.callback && cfg.loginService && cfg.login.Some?))
            && (stage == Creating <==>
                  cfg.callback && cfg.loginService && cfg.login.Some? && cfg.login.value.entityClass == "ServerEntity")
            && (stage in {Dropped, Creating, Answered(None)})
  {
  }

  /** The safe configurations, written out: nobody is ever served, or everybody gets an entity with a network
      component. */
  lemma SafeIs(cfg: Config)
    ensures Safe(cfg) <==>
              || !cfg.tcp || !cfg.callback || !cfg.loginService || cfg.login.None?
              || (cfg.login.value.entityClass == "ServerEntity" && "NetworkComponent" in cfg.login.value.components)
  {
  }

  /** A login gives its entity what the configuration lists. */
  lemma InitIs(cfg: Config, s: State, k: nat, c: nat)
    requires Inv(cfg, s) && Possible(cfg, s, Init(k, c))
    ensures cfg.login.Some?
    ensures Step(cfg, s, Init(k, c)).game == InitEntity(s.game, s.stages[k].e, cfg.login.value.components, c)
  {
    LoginIsAt(cfg, s.game, s.stages, k);
  }

  // ---------------------------------------------------------------- what the outside can do at any time

  /** Any accept can fail, which ends accepting. */
  lemma AcceptCanFail(cfg: Config, run: seq<Event>, k: nat)
    requires Legal(cfg, run) && Reg.Distinct(cfg.stream) && At(After(cfg, run), k, Armed)
    ensures Legal(cfg, run + [AcceptFailed(k)]) && AcceptEnded(After(cfg, run + [AcceptFailed(k)]))
  {
    Extend(cfg, run, AcceptFailed(k));
    RunKeepsAccept(cfg, run);
    OnlyOneWaits(After(cfg, run).running, After(cfg, run).stages, k);
  }

  /** Whatever an accepted connection's socket can do it can do in any company; the game can make any call on a
      connection that a component has; and any id can be destroyed, and anything else made, at any time. */
  lemma NothingIsHindered(cfg: Config, s: State, k: nat, event: Cn.Event, id: string, e: nat)
    requires s.stages.Keys == s.conns.Keys
    ensures k in s.conns && s.stages[k] != Armed && Cn.Enabled(s.conns[k], event) && !event.Receive? && !event.Api? ==>
              Possible(cfg, s, OnConnection(k, event))
    ensures k in s.conns && s.stages[k] != Armed && event.Api? &&
            (exists c :: c in s.game.connection && s.game.connection[c] == Some(k)) ==>
              Possible(cfg, s, OnConnection(k, event))
    ensures Possible(cfg, s, Destroy(id, true))
    ensures (forall j, e' :: j in s.stages ==> s.stages[j] != Made(e') && s.stages[j] != Ready(e')) ==>
              Possible(cfg, s, Destroy(id, false))
    ensures e !in s.game.ids && e !in s.game.graph.comps ==> Possible(cfg, s, OthersGenerate(e))
    ensures e !in s.game.ids && e !in s.game.graph.comps && (forall i: nat :: cfg.stream(i) != id) ==>
              Possible(cfg, s, OthersCreate(id, e))
  {
  }

  // ---------------------------------------------------------------- one connection of many

  /** The event of connection `k` that `ev` is, if it is one. */
  ghost function EventBy(ev: Event, k: nat): seq<Cn.Event> {
    match ev
    case StartRead(k') => if k' == k then [Cn.Receive] else []
    case OnConnection(k', event) => if k' == k then [event] else []
    case _ => []
  }

  /** The events of connection `k`, in order. */
  ghost function EventsOf(run: seq<Event>, k: nat): seq<Cn.Event>
    decreases |run|
  {
    if run == [] then [] else EventsOf(run[..|run| - 1], k) + EventBy(run[|run| - 1], k)
  }

  lemma {:induction false} RunOneMore(st: Cn.Conn, run: seq<Cn.Event>, e: Cn.Event)
    requires Cn.Legal(st, run) && Cn.Enabled(Cn.Run(st, run), e)
    ensures Cn.Legal(st, run + [e]) && Cn.Run(st, run + [e]) == Cn.Step(Cn.Run(st, run), e)
    decreases |run|
  {
    var all := run + [e];
    if run == [] {
      assert all == [e] && all[1..] == [];
      assert Cn.Run(Cn.Step(st, e), []) == Cn.Step(st, e);
    } else {
      assert all[0] == run[0] && all[1..] == run[1..] + [e];
      RunOneMore(Cn.Step(st, run[0]), run[1..], e);
    }
  }

  lemma {:induction false} StartsAppend(run: seq<Cn.Event>, e: Cn.Event)
    ensures Runs.Starts(run + [e]) == Runs.Starts(run) + if e.Receive? then 1 else 0
  {
    if run == [] {
      assert run + [e] == [e] && [e][1..] == [];
    } else {
      assert (run + [e])[0] == run[0] && (run + [e])[1..] == run[1..] + [e];
      StartsAppend(run[1..], e);
    }
  }

  /** Connection `k` is where a machine that was new gets by the events `own`. */
  ghost predicate IsRunOf(s: State, own: seq<Cn.Event>, k: nat, born: Cn.Conn) {
    && Cn.IsNew(born) && Cn.Legal(born, own)
    && k in s.conns && k in s.stages && s.conns[k] == Cn.Run(born, own)
    && Runs.Starts(own) == if s.stages[k].Serving? then 1 else 0
  }

  /** The step of one event, seen from connection `k`. */
  lemma SeenFrom(cfg: Config, s: State, ev: Event, k: nat)
    requires Possible(cfg, s, ev) && s.stages.Keys == s.conns.Keys
    ensures Step(cfg, s, ev).stages.Keys == Step(cfg, s, ev).conns.Keys
    ensures k !in s.conns ==>
              && EventBy(ev, k) == []
              && (k in Step(cfg, s, ev).conns ==>
                    Cn.IsNew(Step(cfg, s, ev).conns[k]) && !Step(cfg, s, ev).stages[k].Serving?)
    ensures k in s.conns ==>
              var s' := Step(cfg, s, ev);
              && k in s'.conns
              && if EventBy(ev, k) == [] then
                   s'.conns[k] == s.conns[k] && (s'.stages[k].Serving? <==> s.stages[k].Serving?)
                 else
                   var e := EventBy(ev, k)[0];
                   && EventBy(ev, k) == [e]
                   && Cn.Enabled(s.conns[k], e) && s'.conns[k] == Cn.Step(s.conns[k], e)
                   && (e.Receive? ==> !s.stages[k].Serving? && s'.stages[k].Serving?)
                   && (!e.Receive? ==> s'.stages[k] == s.stages[k])
  {
  }

  lemma GoesOn(cfg: Config, s: State, own: seq<Cn.Event>, k: nat, born: Cn.Conn, ev: Event)
    requires Possible(cfg, s, ev) && s.stages.Keys == s.conns.Keys && IsRunOf(s, own, k, born)
    ensures IsRunOf(Step(cfg, s, ev), own + EventBy(ev, k), k, born)
  {
    SeenFrom(cfg, s, ev, k);
    hide Step, Possible, EventBy;
    if EventBy(ev, k) == [] {
      assert own + EventBy(ev, k) == own;
    } else {
      RunOneMore(born, own, EventBy(ev, k)[0]);
      StartsAppend(own, EventBy(ev, k)[0]);
    }
  }

  /** In every interleaving each connection goes its own way: it is in the state its own events alone lead to. */
  lemma {:induction false} ConnectionIsItsRun(cfg: Config, run: seq<Event>, k: nat) returns (born: Cn.Conn)
    requires Legal(cfg, run)
    ensures After(cfg, run).stages.Keys == After(cfg, run).conns.Keys
    ensures if k in After(cfg, run).conns then IsRunOf(After(cfg, run), EventsOf(run, k), k, born)
            else EventsOf(run, k) == []
    decreases |run|
  {
    born := NewConn();
    if run != [] {
      var before, ev := run[..|run| - 1], run[|run| - 1];
      var s := After(cfg, before);
      born := ConnectionIsItsRun(cfg, before, k);
      SeenFrom(cfg, s, ev, k);
      hide Step, EventBy;
      if k in s.conns {
        GoesOn(cfg, s, EventsOf(before, k), k, born, ev);
      } else if k in After(cfg, run).conns {
        born := After(cfg, run).conns[k];
      }
    }
  }

  /** So what is proved of one connection holds of each of many: it sends what its own events sent, in that order and
      with that on the wire; it delivers what it received if and only if every chunk was heard; and it has closed, and
      told the game, as often as its own events say. */
  lemma EachConnectionIsSound(cfg: Config, run: seq<Event>, k: nat) returns (born: Cn.Conn)
    requires Legal(cfg, run) && k in After(cfg, run).conns
    ensures IsRunOf(After(cfg, run), EventsOf(run, k), k, born)
    ensures var own, conn := EventsOf(run, k), After(cfg, run).conns[k];
            var acts := Traces.TraceOf(own);
            && conn.popped + conn.queue == Traces.SentIn(acts)
            && conn.wire == Traces.WireOf(Traces.SentIn(acts), 0, own)
            && conn.closes == Traces.Shuts(acts) <= 1 && conn.fired == Traces.Told(acts)
            && (Runs.Stream(conn) == Runs.Arrived(own) <==> Runs.Unheard(born, own) == 0)
  {
    born := ConnectionIsItsRun(cfg, run, k);
    Traces.LifeDoes(born, EventsOf(run, k));
    Traces.LifeOnTheWire(born, EventsOf(run, k));
    Runs.AcceptedReadsOnce(born, EventsOf(run, k));
  }

  // ---------------------------------------------------------------- the index

  /** How many ids have been drawn. */
  function Draws(run: seq<Event>): nat
    decreases |run|
  {
    if run == [] then 0
    else Draws(run[..|run| - 1]) + if run[|run| - 1].Create? || run[|run| - 1].OthersGenerate? then 1 else 0
  }

  /** The call of the factory that an event makes, if it makes one, once `drawn` ids have been drawn. */
  function CallBy(cfg: Config, drawn: nat, ev: Event): seq<Reg.Call<nat>> {
    match ev
    case Create(_, e) => [Reg.Created(cfg.stream(drawn), e)]
    case OthersGenerate(e) => [Reg.Created(cfg.stream(drawn), e)]
    case OthersCreate(id, e) => [Reg.Created(id, e)]
    case Destroy(id, _) => [Reg.Destroyed(id)]
    case _ => []
  }

  /** The calls of the factory that a run makes. */
  function HistoryOf(cfg: Config, run: seq<Event>): seq<Reg.Call<nat>>
    decreases |run|
  {
    if run == [] then []
    else HistoryOf(cfg, run[..|run| - 1]) + CallBy(cfg, Draws(run[..|run| - 1]), run[|run| - 1])
  }

  lemma ReplayOneMore(history: seq<Reg.Call<nat>>, call: Reg.Call<nat>)
    ensures Reg.Replay(history + [call]) == Reg.After(Reg.Replay(history), call)
  {
    assert (history + [call])[..|history|] == history;
  }

  lemma IndexStep(cfg: Config, s: State, ev: Event)
    requires Possible(cfg, s, ev)
    ensures var calls := CallBy(cfg, s.drawn, ev);
            && |calls| <= 1
            && Step(cfg, s, ev).game.registry ==
                 if calls == [] then s.game.registry else Reg.After(s.game.registry, calls[0])
  {
    match ev
    case Destroy(id, _) => assert id !in s.game.registry ==> s.game.registry - {id} == s.game.registry;
    case _ =>
  }

  /** The index of the factory is, in every interleaving, what the calls made so far leave. */
  lemma {:induction false} IndexIsReplay(cfg: Config, run: seq<Event>)
    requires Legal(cfg, run)
    ensures After(cfg, run).drawn == Draws(run)
    ensures After(cfg, run).game.registry == Reg.Replay(HistoryOf(cfg, run))
    decreases |run|
  {
    if run != [] {
      var before, ev := run[..|run| - 1], run[|run| - 1];
      var s, history, calls := After(cfg, before), HistoryOf(cfg, before), CallBy(cfg, Draws(before), ev);
      IndexIsReplay(cfg, before);
      IndexStep(cfg, s, ev);
      DrawnGrows(cfg, s, ev);
      hide Step, CallBy, Reg.Replay;
      if calls == [] {
        assert history + calls == history;
      } else {
        assert calls == [calls[0]];
        ReplayOneMore(history, calls[0]);
      }
    }
  }

  // ---------------------------------------------------------------- no client is stuck

  lemma {:induction false} Bound(s: set<nat>) returns (b: nat)
    ensures forall x :: x in s ==> x < b
    decreases s
  {
    b := 0;
    if s != {} {
      var x :| x in s;
      var b' := Bound(s - {x});
      b := if x < b' then b' else x + 1;
      forall y | y in s ensures y < b {
        if y != x { assert y in s - {x}; }
      }
    }
  }

  function Rank(stage: Stage): nat {
    match stage
    case Armed => 0
    case Accepted => 1
    case Offering => 2
    case Creating => 3
    case Made(_) => 4
    case Ready(_) => 5
    case Answered(_) => 6
    case Serving(_) => 7
    case Dropped => 7
  }

  /** The event is possible, takes connection `k` on, and drops it only if it has just been offered and is refused. */
  ghost predicate TakesOn(cfg: Config, s: State, k: nat, ev: Event) {
    && Possible(cfg, s, ev) && k in s.stages && k in Step(cfg, s, ev).stages
    && Rank(Step(cfg, s, ev).stages[k]) > Rank(s.stages[k])
    && (Step(cfg, s, ev).stages[k] == Dropped <==> s.stages[k] == Offering && Decision(cfg) == Dropped)
  }

  lemma CanCreate(cfg: Config, s: State, k: nat) returns (ev: Event)
    requires At(s, k, Creating)
    ensures TakesOn(cfg, s, k, ev)
  {
    var e := Bound(s.game.ids.Keys + s.game.graph.comps.Keys);
    ev := Create(k, e);
    assert e !in s.game.ids.Keys + s.game.graph.comps.Keys;
  }

  lemma CanInit(cfg: Config, s: State, k: nat, e: nat) returns (ev: Event)
    requires At(s, k, Made(e)) && e in s.game.graph.comps
    ensures TakesOn(cfg, s, k, ev)
  {
    var c := Bound(s.game.graph.owner.Keys);
    ev := Init(k, c);
    assert c !in s.game.graph.owner.Keys;
  }

  lemma CanRearm(cfg: Config, s: State, k: nat) returns (ev: Event)
    requires At(s, k, Accepted)
    ensures TakesOn(cfg, s, k, ev)
  {
    var next := Bound(s.stages.Keys);
    ev := Rearm(k, next, NewConn());
    assert next !in s.stages.Keys;
  }

  lemma CanMove(cfg: Config, s: State, k: nat) returns (ev: Event)
    requires k in s.stages && k in s.conns
    requires s.stages[k].Armed? || s.stages[k].Offering? || s.stages[k].Ready? || s.stages[k].Answered?
    ensures TakesOn(cfg, s, k, ev)
  {
    match s.stages[k]
    case Armed => ev := AcceptDone(k);
    case Offering => ev := Offer(k);
    case Ready(_) => ev := Bind(k);
    case Answered(_) => ev := StartRead(k);
  }

  /** A connection that is neither served nor dropped can always go on, whatever the others do. */
  lemma NextStep(cfg: Config, s: State, k: nat) returns (ev: Event)
    requires Inv(cfg, s) && k in s.stages && Rank(s.stages[k]) < 7
    ensures TakesOn(cfg, s, k, ev)
  {
    ConnIsAt(s.stages, s.conns, k);
    LoginIsAt(cfg, s.game, s.stages, k);
    hide ConnInv, AcceptInv, GameInv, LoginInv, HoldInv, ConnOk, TakesOn;
    match s.stages[k]
    case Accepted => ev := CanRearm(cfg, s, k);
    case Creating => ev := CanCreate(cfg, s, k);
    case Made(e) => ev := CanInit(cfg, s, k, e);
    case _ => ev := CanMove(cfg, s, k);
  }

  /** A decision that is no refusal shows in every later stage. */
  lemma StageShowsDecision(cfg: Config, s: State, k: nat)
    requires Inv(cfg, s) && k in s.stages && s.stages[k].Serving?
    ensures Decision(cfg) != Dropped
  {
    LoginIsAt(cfg, s.game, s.stages, k);
  }

  lemma OneStepOn(cfg: Config, run: seq<Event>, s: State, k: nat) returns (ev: Event, s': State)
    requires Legal(cfg, run) && s == After(cfg, run) && Reg.Distinct(cfg.stream)
    requires k in s.stages && Rank(s.stages[k]) < 7
    ensures Legal(cfg, run + [ev]) && s' == After(cfg, run + [ev])
    ensures k in s'.stages && Rank(s'.stages[k]) > Rank(s.stages[k])
    ensures s'.stages[k] == Dropped <==> s.stages[k] == Offering && Decision(cfg) == Dropped
  {
    RunKeepsInv(cfg, run);
    ev := NextStep(cfg, s, k);
    Extend(cfg, run, ev);
    s' := Step(cfg, s, ev);
    hide Step, Inv, Possible, Legal, After, Decision;
  }

  lemma ServedMeansNotRefused(cfg: Config, run: seq<Event>, s: State, k: nat)
    requires Legal(cfg, run) && s == After(cfg, run) && Reg.Distinct(cfg.stream)
    requires k in s.stages && s.stages[k].Serving?
    ensures Decision(cfg) != Dropped
  {
    RunKeepsInv(cfg, run);
    StageShowsDecision(cfg, s, k);
  }

  /** Every client that has come can still be served, if and only if the configuration does not refuse it: some
      continuation of the run ends with it served, or else dropped. */
  lemma {:induction false} EndsServed(cfg: Config, run: seq<Event>, s: State, k: nat)
    returns (more: seq<Event>, s': State)
    requires Legal(cfg, run) && s == After(cfg, run) && Reg.Distinct(cfg.stream)
    requires k in s.stages && s.stages[k] != Dropped
    ensures Legal(cfg, run + more) && s' == After(cfg, run + more) && k in s'.stages
    ensures if Decision(cfg) == Dropped then s'.stages[k] == Dropped else s'.stages[k].Serving?
    decreases 7 - Rank(s.stages[k])
  {
    hide Legal, After, Decision;
    more, s' := [], s;
    assert run + more == run;
    if s.stages[k].Serving? {
      ServedMeansNotRefused(cfg, run, s, k);
    } else {
      var ev;
      ev, s' := OneStepOn(cfg, run, s, k);
      more := [ev];
      if s'.stages[k] != Dropped {
        var rest;
        rest, s' := EndsServed(cfg, run + [ev], s', k);
        more := [ev] + rest;
        assert run + [ev] + rest == run + more;
      }
    }
  }
}
