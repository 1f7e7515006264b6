/** Accepting, logging in and reading, for any number of connections at once. Each step below is one that the
    threads of the server take atomically; a run interleaves the steps of all connections, and of anything else
    that creates entities. Connections, entities and components are numbered. */
module Pipeline {
  import opened Options
  import opened Ownership
  import opened Registries
  import opened DisconnectHandlers
  import opened GameSpec
  import Cn = ConnectionSpec
  import Runs = ConnectionRuns
  import Login = LoginServices

  /** What is settled before the server starts: whether it serves TCP, whether the game has registered its
      callback, whether the service table has a login service, the login configuration, and the generator. */
  datatype Config = Config(
    tcp: bool,
    callback: bool,
    loginService: bool,
    login: Option<Login.LoginConfig>,
    stream: nat -> string)

  /** How far `handle_tcp_accept` and the login it leads to have come for a connection. */
  datatype Stage =
    | Armed                         // an accept is outstanding on it
    | Accepted                      // accepted, the next accept not yet armed
    | Offering                      // about to be given to the game
    | Creating                      // the login is about to create its entity
    | Made(e: nat)                  // entity created and indexed
    | Ready(e: nat)                 // components initialised
    | Answered(bound: Option<nat>)  // the game has said yes
    | Serving(bound: Option<nat>)   // told to receive
    | Dropped                       // refused, or the accept failed

  type World = Game<nat, nat, nat>

  datatype State = State(running: bool, stages: map<nat, Stage>, conns: map<nat, Cn.Conn>, game: World, drawn: nat)

  const Initial := State(false, map[], map[], Game(map[], map[], Empty(), map[], map[]), 0)

  datatype Event =
    | Start(k: nat, conn: Cn.Conn)
    | AcceptDone(k: nat)
    | AcceptFailed(k: nat)
    | Rearm(k: nat, next: nat, conn: Cn.Conn)
    | Offer(k: nat)
    | Create(k: nat, e: nat)
    | Init(k: nat, c: nat)
    | Bind(k: nat)
    | StartRead(k: nat)
    | OnConnection(k: nat, event: Cn.Event)
    | OthersCreate(id: string, e: nat)
    | OthersGenerate(e: nat)
    | Destroy(id: string, othersHold: bool)

  predicate At(s: State, k: nat, stage: Stage) { k in s.stages && s.stages[k] == stage }

  ghost predicate NewConnection(s: State, k: nat, conn: Cn.Conn) { k !in s.stages && Cn.IsNew(conn) }

  ghost predicate NewEntityId(s: State, e: nat) { e !in s.game.ids && e !in s.game.graph.comps }

  /** Some component has the connection: it is through a component that the game gets at one. */
  ghost predicate Reachable(g: World, k: nat) { exists c :: c in g.connection && g.connection[c] == Some(k) }

  /** A login that is setting the entity up holds it. */
  ghost predicate LoginHolds(stages: map<nat, Stage>, e: nat) {
    exists k :: k in stages && (stages[k] == Made(e) || stages[k] == Ready(e))
  }

  ghost predicate Possible(cfg: Config, s: State, ev: Event) {
    match ev
    case Start(k, conn) => NewConnection(s, k, conn)
    case AcceptDone(k) => At(s, k, Armed)
    case AcceptFailed(k) => At(s, k, Armed)
    case Rearm(k, next, conn) => At(s, k, Accepted) && NewConnection(s, next, conn)
    case Offer(k) => At(s, k, Offering)
    case Create(k, e) => At(s, k, Creating) && NewEntityId(s, e)
    case Init(k, c) =>
      && k in s.stages && s.stages[k].Made? && s.stages[k].e in s.game.graph.comps
      && c !in s.game.graph.owner
    case Bind(k) => k in s.stages && s.stages[k].Ready?
    case StartRead(k) => k in s.stages && s.stages[k].Answered? && k in s.conns
    case OnConnection(k, event) =>
      && k in s.stages && s.stages[k] != Armed && k in s.conns && Cn.Enabled(s.conns[k], event)
      && !event.Receive? && (event.Api? ==> Reachable(s.game, k))
    case OthersCreate(id, e) => NewEntityId(s, e) && forall i: nat :: cfg.stream(i) != id
    case OthersGenerate(e) => NewEntityId(s, e)
    case Destroy(id, othersHold) =>
      id in s.game.registry && LoginHolds(s.stages, s.game.registry[id]) ==> othersHold
  }

  function Move(s: State, k: nat, stage: Stage): State { s.(stages := s.stages[k := stage]) }

  function Arm(s: State, k: nat, conn: Cn.Conn): State {
    s.(stages := s.stages[k := Armed], conns := s.conns[k := conn])
  }

  /** What the callback of the game decides: `GameMains.GameMain.OnClientConnected` is proved to decide so. */
  function Decision(cfg: Config): Stage {
    if !cfg.callback then Dropped
    else
      match Login.Decide(cfg.loginService, cfg.login)
      case Refuse => Dropped
      case AcceptOnly => Answered(None)
      case MakeEntity => Creating
  }

  function Generate(cfg: Config, s: State, e: nat): State {
    s.(game := CreateEntity(s.game, cfg.stream(s.drawn), e), drawn := s.drawn + 1)
  }

  function Names(cfg: Config): seq<string> { if cfg.login.Some? then cfg.login.value.components else [] }

  ghost function Step(cfg: Config, s: State, ev: Event): State
    requires Possible(cfg, s, ev)
  {
    match ev
    case Start(k, conn) => if s.running || !cfg.tcp then s else Arm(s, k, conn).(running := true)
    case AcceptDone(k) => Move(s, k, Accepted)
    case AcceptFailed(k) => Move(s, k, Dropped)
    case Rearm(k, next, conn) => Arm(Move(s, k, Offering), next, conn)
    case Offer(k) => Move(s, k, Decision(cfg))
    case Create(k, e) => Move(Generate(cfg, s, e), k, Made(e))
    case Init(k, c) =>
      var e := s.stages[k].e;
      Move(s.(game := InitEntity(s.game, e, Names(cfg), c)), k, Ready(e))
    case Bind(k) =>
      var e := s.stages[k].e;
      Move(s.(game := BindLogin(s.game, e, k)), k, Answered(Some(e)))
    case StartRead(k) =>
      Move(s.(conns := s.conns[k := Cn.StartReceive(s.conns[k])]), k, Serving(s.stages[k].bound))
    case OnConnection(k, event) => s.(conns := s.conns[k := Cn.Step(s.conns[k], event)])
    case OthersCreate(id, e) => s.(game := CreateEntity(s.game, id, e))
    case OthersGenerate(e) => Generate(cfg, s, e)
    case Destroy(id, othersHold) => s.(game := DestroyEntity(s.game, id, othersHold))
  }

  ghost predicate Legal(cfg: Config, run: seq<Event>)
    decreases |run|, 0
  {
    run == [] || (Legal(cfg, run[..|run| - 1]) && Possible(cfg, After(cfg, run[..|run| - 1]), run[|run| - 1]))
  }

  ghost function After(cfg: Config, run: seq<Event>): State
    requires Legal(cfg, run)
    decreases |run|, 1
  {
    if run == [] then Initial else Step(cfg, After(cfg, run[..|run| - 1]), run[|run| - 1])
  }

  // ---------------------------------------------------------------- the property

  /** The registered entity with this id has a network component that holds connection `k`. */
  ghost predicate HeldBy(s: State, k: nat, id: string) {
    && id in s.game.registry
    && Has(s.game.graph, s.game.registry[id], NETWORK_COMPONENT)
    && var c := s.game.graph.comps[s.game.registry[id]][NETWORK_COMPONENT];
       c in s.game.connection && s.game.connection[c] == Some(k)
  }

  ghost predicate HeldByExactlyOne(s: State, k: nat) {
    exists id :: HeldBy(s, k, id) && forall id' :: HeldBy(s, k, id') ==> id' == id
  }

  /** The reads of a connection that are in flight or whose handler is still to run. */
  function Reads(conn: Cn.Conn): nat { conn.readsInFlight + |conn.arrivals| }

  /** All operations of a connection that are outstanding: each has a handler bound to the bare object. */
  function Operations(conn: Cn.Conn): nat { Reads(conn) + |conn.writesInFlight| }

  /** The id of `e` has been destroyed since `e` was made. */
  ghost predicate DestroyedSince(cfg: Config, run: seq<Event>, e: nat)
    requires Legal(cfg, run)
    decreases |run|
  {
    && run != []
    && (DestroyedSince(cfg, run[..|run| - 1], e) || Destroys(After(cfg, run[..|run| - 1]), run[|run| - 1], e))
  }

  ghost predicate Destroys(s: State, ev: Event, e: nat) { ev.Destroy? && e in s.game.ids && s.game.ids[e] == ev.id }

  /** The login is over and has an entity. */
  predicate IsBound(stage: Stage) { (stage.Answered? || stage.Serving?) && stage.bound.Some? }

  /** The entity of the login of `k` has been destroyed. */
  ghost predicate EntityDestroyed(cfg: Config, run: seq<Event>, k: nat)
    requires Legal(cfg, run) && k in After(cfg, run).stages
  {
    var stage := After(cfg, run).stages[k];
    IsBound(stage) && DestroyedSince(cfg, run, stage.bound.value)
  }

  /** Every connection with an operation outstanding is held by exactly one registered entity, up to the moment the
      entity of its login is destroyed and not beyond. */
  ghost predicate ActiveHeld(cfg: Config, run: seq<Event>)
    requires Legal(cfg, run)
  {
    var s := After(cfg, run);
    forall k :: k in s.conns && Operations(s.conns[k]) > 0 ==>
      k in s.stages && (HeldByExactlyOne(s, k) <==> !EntityDestroyed(cfg, run, k))
  }

  /** The configurations under which active connections are held: nothing is ever read, or logins make a server
      entity with a network component. */
  predicate Safe(cfg: Config) {
    || !cfg.tcp || Decision(cfg) == Dropped
    || (Decision(cfg) == Creating && NETWORK_COMPONENT in Names(cfg))
  }

  // ---------------------------------------------------------------- the invariant

  /** The entity a login has made for a connection. */
  function EntityOf(stage: Stage): Option<nat> {
    match stage
    case Made(e) => Some(e)
    case Ready(e) => Some(e)
    case Answered(bound) => bound
    case Serving(bound) => bound
    case _ => None
  }

  predicate Waiting(stage: Stage) { stage.Armed? || stage.Accepted? }

  /** A connection reads only where it was told to, and then once; it writes only once it reads or a component has
      it; its machine is sound. */
  ghost predicate ConnOk(stage: Stage, conn: Cn.Conn) {
    && Reads(conn) <= (if stage.Serving? then 1 else 0)
    && (conn.writesInFlight != [] ==> stage.Serving? || IsBound(stage))
    && Runs.SendSafe(conn) && Runs.ClosedOnce(conn) && Runs.Intact(conn)
  }

  ghost predicate ConnInv(stages: map<nat, Stage>, conns: map<nat, Cn.Conn>) {
    && stages.Keys == conns.Keys
    && (forall k :: k in conns ==> ConnOk(stages[k], conns[k]))
  }

  /** One accept is outstanding at most. */
  ghost predicate AcceptInv(running: bool, stages: map<nat, Stage>) {
    && (!running ==> stages == map[])
    && (forall k, k' :: k in stages && k' in stages && Waiting(stages[k]) && Waiting(stages[k']) ==> k == k')
  }

  /** The factory index and the ownership graph. */
  ghost predicate GameInv(cfg: Config, g: World, drawn: nat) {
    && g.graph.comps.Keys <= g.ids.Keys
    && Owned(g.graph)
    && g.connection.Keys == g.handlers.Keys
    && g.connection.Keys <= g.graph.owner.Keys
    && (forall id :: id in g.registry ==>
          g.registry[id] in g.graph.comps && g.registry[id] in g.ids && g.ids[g.registry[id]] == id)
    && (forall i: nat :: i >= drawn ==> cfg.stream(i) !in g.registry)
  }

  ghost predicate Registered(g: World, e: nat) { e in g.ids && g.ids[e] in g.registry && g.registry[g.ids[e]] == e }

  /** Logins: each has its own entity, at the point of its set-up that its stage tells. */
  ghost predicate LoginInv(cfg: Config, g: World, stages: map<nat, Stage>) {
    && (forall k :: k in stages && EntityOf(stages[k]).Some? ==> EntityOf(stages[k]).value in g.ids)
    && (forall k, k' :: k in stages && k' in stages && SameEntity(stages[k], stages[k']) ==> k == k')
    && (forall k :: k in stages ==> StageInv(cfg, g, stages[k]))
  }

  predicate SameEntity(a: Stage, b: Stage) { EntityOf(a).Some? && EntityOf(a) == EntityOf(b) }

  ghost predicate StageInv(cfg: Config, g: World, stage: Stage) {
    match stage
    case Creating => Decision(cfg) == Creating
    case Made(e) => Decision(cfg) == Creating && e in g.graph.comps && g.graph.comps[e] == map[]
    case Ready(e) => Decision(cfg) == Creating && e in g.graph.comps && Equipped(cfg, g, e)
    case Answered(bound) => BoundInv(cfg, g, bound)
    case Serving(bound) => BoundInv(cfg, g, bound)
    case _ => true
  }

  ghost predicate BoundInv(cfg: Config, g: World, bound: Option<nat>) {
    match bound
    case Some(e) => Decision(cfg) == Creating && (e in g.graph.comps ==> Equipped(cfg, g, e))
    case None => Decision(cfg) == Answered(None)
  }

  /** The entity has the network component exactly if the configuration lists it, and the component its own state. */
  ghost predicate Equipped(cfg: Config, g: World, e: nat) {
    && (Has(g.graph, e, NETWORK_COMPONENT) <==> NETWORK_COMPONENT in Names(cfg))
    && (Has(g.graph, e, NETWORK_COMPONENT) ==> g.graph.comps[e][NETWORK_COMPONENT] in g.connection)
  }

  ghost predicate NetworkOf(g: World, e: nat, c: nat) {
    Has(g.graph, e, NETWORK_COMPONENT) && g.graph.comps[e][NETWORK_COMPONENT] == c
  }

  ghost predicate ComponentState(g: World, c: nat, connection: Option<nat>) {
    && c in g.connection && g.connection[c] == connection && c in g.handlers
    && g.handlers[c] == if connection.Some? then [(LOGIN_SERVICE, LoginDisconnected)] else []
  }

  /** The component of a login that is over has the connection. */
  ghost predicate LoginsHold(g: World, stages: map<nat, Stage>) {
    forall k, c :: k in stages && IsBound(stages[k]) && NetworkOf(g, stages[k].bound.value, c) ==>
      ComponentState(g, c, Some(k))
  }

  /** A component that has a connection was made by the login of that connection, and remembers its entity. */
  ghost predicate HoldersLogin(g: World, stages: map<nat, Stage>) {
    forall c :: c in g.connection ==>
      && ComponentState(g, c, g.connection[c])
      && (g.connection[c].Some? ==>
            var k := g.connection[c].value;
            && k in stages && IsBound(stages[k])
            && c in g.graph.owner && g.graph.owner[c] == Some(stages[k].bound.value))
  }

  /** Bound connections and the components that hold them point at each other, while the entity lives. */
  ghost predicate HoldInv(g: World, stages: map<nat, Stage>) { LoginsHold(g, stages) && HoldersLogin(g, stages) }

  ghost predicate Inv(cfg: Config, s: State) {
    && ConnInv(s.stages, s.conns) && AcceptInv(s.running, s.stages)
    && GameInv(cfg, s.game, s.drawn) && LoginInv(cfg, s.game, s.stages) && HoldInv(s.game, s.stages)
  }

  // The parts of the invariant, one at a time: a proof that only passes them on hides them.

  lemma ConnIsAt(stages: map<nat, Stage>, conns: map<nat, Cn.Conn>, k: nat)
    requires ConnInv(stages, conns) && k in stages
    ensures k in conns && ConnOk(stages[k], conns[k])
  {
  }

  lemma LoginIsAt(cfg: Config, g: World, stages: map<nat, Stage>, k: nat)
    requires LoginInv(cfg, g, stages) && k in stages
    ensures StageInv(cfg, g, stages[k])
    ensures EntityOf(stages[k]).Some? ==> EntityOf(stages[k]).value in g.ids
  {
  }

  lemma OwnEntity(cfg: Config, g: World, stages: map<nat, Stage>, k: nat, e: nat)
    requires LoginInv(cfg, g, stages) && k in stages && EntityOf(stages[k]) == Some(e)
    ensures e in g.ids && forall j :: j in stages && j != k ==> EntityOf(stages[j]) != Some(e)
  {
    assert forall j :: j in stages && j != k ==> !SameEntity(stages[j], stages[k]);
  }

  lemma OnlyOneWaits(running: bool, stages: map<nat, Stage>, k: nat)
    requires AcceptInv(running, stages) && k in stages && Waiting(stages[k])
    ensures running && forall j :: j in stages && j != k ==> !Waiting(stages[j])
  {
  }

  lemma GraphIsOwned(cfg: Config, g: World, drawn: nat)
    requires GameInv(cfg, g, drawn)
    ensures Owned(g.graph) && g.connection.Keys == g.handlers.Keys <= g.graph.owner.Keys
  {
  }

  // ---------------------------------------------------------------- what a step leaves intact

  /** A stage may become another one that stands for the same login at the same point. */
  ghost predicate SameLogin(cfg: Config, g: World, a: Stage, b: Stage) {
    EntityOf(a) == EntityOf(b) && IsBound(a) == IsBound(b) && (StageInv(cfg, g, a) ==> StageInv(cfg, g, b))
  }

  /** The stages change, and no login moves on. */
  ghost predicate SameLogins(cfg: Config, g: World, stages: map<nat, Stage>, stages': map<nat, Stage>) {
    && (forall j :: j in stages ==> j in stages' && SameLogin(cfg, g, stages[j], stages'[j]))
    && (forall j :: j in stages' && j !in stages ==> stages'[j] == Armed)
  }

  lemma SameLoginsKeep(cfg: Config, g: World, stages: map<nat, Stage>, stages': map<nat, Stage>)
    requires LoginInv(cfg, g, stages) && HoldInv(g, stages) && SameLogins(cfg, g, stages, stages')
    ensures LoginInv(cfg, g, stages') && HoldInv(g, stages')
  {
    assert forall j :: j in stages' && EntityOf(stages'[j]).Some? ==>
        j in stages && EntityOf(stages[j]) == EntityOf(stages'[j]);
    assert forall j :: j in stages' && IsBound(stages'[j]) ==>
        j in stages && IsBound(stages[j]) && stages'[j].bound == stages[j].bound;
  }

  lemma MoveKeepsConns(s: State, k: nat, stage: Stage)
    requires ConnInv(s.stages, s.conns) && AcceptInv(s.running, s.stages) && k in s.stages
    requires (Waiting(stage) ==> Waiting(s.stages[k])) && ConnOk(stage, s.conns[k])
    ensures ConnInv(s.stages[k := stage], s.conns) && AcceptInv(s.running, s.stages[k := stage])
  {
  }

  lemma MoveKeeps(cfg: Config, s: State, k: nat, stage: Stage)
    requires Inv(cfg, s) && k in s.stages && SameLogin(cfg, s.game, s.stages[k], stage)
    requires (Waiting(stage) ==> Waiting(s.stages[k])) && ConnOk(stage, s.conns[k])
    ensures Inv(cfg, Move(s, k, stage))
  {
    hide ConnInv, AcceptInv, GameInv, LoginInv, HoldInv;
    MoveKeepsConns(s, k, stage);
    SameLoginsKeep(cfg, s.game, s.stages, s.stages[k := stage]);
  }

  lemma ArmKeepsConns(s: State, k: nat, conn: Cn.Conn)
    requires ConnInv(s.stages, s.conns) && AcceptInv(s.running, s.stages) && NewConnection(s, k, conn)
    requires forall j :: j in s.stages ==> !Waiting(s.stages[j])
    ensures ConnInv(s.stages[k := Armed], s.conns[k := conn]) && AcceptInv(true, s.stages[k := Armed])
  {
  }

  lemma ArmKeeps(cfg: Config, s: State, k: nat, conn: Cn.Conn)
    requires Inv(cfg, s) && NewConnection(s, k, conn)
    requires forall j :: j in s.stages ==> !Waiting(s.stages[j])
    ensures Inv(cfg, Arm(s, k, conn).(running := true))
  {
    hide ConnInv, AcceptInv, GameInv, LoginInv, HoldInv;
    ArmKeepsConns(s, k, conn);
    SameLoginsKeep(cfg, s.game, s.stages, s.stages[k := Armed]);
  }

  lemma ConnKeeps(cfg: Config, s: State, k: nat, conn: Cn.Conn)
    requires Inv(cfg, s) && k in s.stages && ConnOk(s.stages[k], conn)
    ensures Inv(cfg, s.(conns := s.conns[k := conn]))
  {
    assert ConnInv(s.stages, s.conns[k := conn]);
  }

  // ---------------------------------------------------------------- what a change to the game objects keeps

  /** Whatever there was is still there, unchanged, and what is new is an entity without components. */
  ghost predicate Grows(g: World, g': World) {
    && (forall e :: e in g.ids ==> e in g'.ids)
    && (forall e :: e in g.graph.comps ==> e in g'.graph.comps && g'.graph.comps[e] == g.graph.comps[e])
    && (forall e :: e in g'.graph.comps && e !in g.graph.comps ==> e !in g.ids && g'.graph.comps[e] == map[])
    && g'.graph.owner == g.graph.owner && g'.connection == g.connection && g'.handlers == g.handlers
  }

  lemma GrowthKeepsLogins(cfg: Config, g: World, g': World, stages: map<nat, Stage>)
    requires LoginInv(cfg, g, stages) && HoldInv(g, stages) && Grows(g, g')
    ensures LoginInv(cfg, g', stages) && HoldInv(g', stages)
  {
    forall k | k in stages ensures StageInv(cfg, g', stages[k]) {
      assert StageInv(cfg, g, stages[k]);
      assert EntityOf(stages[k]).Some? ==> EntityOf(stages[k]).value in g.ids;
    }
    assert forall e, c :: NetworkOf(g', e, c) <==> NetworkOf(g, e, c);
  }

  lemma CreateGrows(cfg: Config, g: World, drawn: nat, id: string, e: nat)
    requires GameInv(cfg, g, drawn) && e !in g.ids
    ensures Grows(g, CreateEntity(g, id, e))
  {
  }

  /** `drawn'` is how far the generator has come after an entity was created under `id`. */
  lemma CreateKeepsGame(cfg: Config, g: World, drawn: nat, id: string, e: nat, drawn': nat)
    requires GameInv(cfg, g, drawn) && e !in g.ids && drawn' >= drawn
    requires forall i: nat :: i >= drawn' ==> cfg.stream(i) != id
    ensures GameInv(cfg, CreateEntity(g, id, e), drawn')
  {
  }

  lemma OthersKeep(cfg: Config, s: State, id: string, e: nat, drawn': nat)
    requires Inv(cfg, s) && NewEntityId(s, e) && drawn' >= s.drawn
    requires forall i: nat :: i >= drawn' ==> cfg.stream(i) != id
    ensures Inv(cfg, s.(game := CreateEntity(s.game, id, e), drawn := drawn'))
  {
    hide ConnInv, AcceptInv, GameInv, LoginInv, HoldInv;
    CreateKeepsGame(cfg, s.game, s.drawn, id, e, drawn');
    CreateGrows(cfg, s.game, s.drawn, id, e);
    GrowthKeepsLogins(cfg, s.game, CreateEntity(s.game, id, e), s.stages);
  }

  /** One login moves on, and the others are where they were. */
  lemma LoginMoves(cfg: Config, g: World, stages: map<nat, Stage>, k: nat, stage: Stage)
    requires LoginInv(cfg, g, stages) && k in stages && StageInv(cfg, g, stage)
    requires EntityOf(stage).Some? ==> EntityOf(stage).value in g.ids
    requires EntityOf(stage).Some? ==> forall j :: j in stages && j != k ==> EntityOf(stages[j]) != EntityOf(stage)
    ensures LoginInv(cfg, g, stages[k := stage])
  {
  }

  lemma HoldMoves(g: World, stages: map<nat, Stage>, k: nat, stage: Stage)
    requires HoldInv(g, stages) && k in stages && !IsBound(stages[k]) && !IsBound(stage)
    ensures HoldInv(g, stages[k := stage])
  {
    assert forall j :: j in stages && IsBound(stages[j]) ==> j != k;
  }

  lemma NewEntityUnused(cfg: Config, g: World, stages: map<nat, Stage>, e: nat)
    requires LoginInv(cfg, g, stages) && e !in g.ids
    ensures forall j :: j in stages ==> EntityOf(stages[j]) != Some(e)
  {
  }

  /** The entity a login creates is new, and no other login has it. */
  lemma CreateKeeps(cfg: Config, s: State, k: nat, e: nat)
    requires Inv(cfg, s) && At(s, k, Creating) && NewEntityId(s, e) && Distinct(cfg.stream)
    ensures Inv(cfg, Move(Generate(cfg, s, e), k, Made(e)))
  {
    hide ConnInv, AcceptInv, GameInv, LoginInv, HoldInv;
    var g' := CreateEntity(s.game, cfg.stream(s.drawn), e);
    ConnIsAt(s.stages, s.conns, k);
    OthersKeep(cfg, s, cfg.stream(s.drawn), e, s.drawn + 1);
    MoveKeepsConns(s, k, Made(e));
    NewEntityUnused(cfg, s.game, s.stages, e);
    LoginIsAt(cfg, s.game, s.stages, k);
    LoginMoves(cfg, g', s.stages, k, Made(e));
    HoldMoves(g', s.stages, k, Made(e));
  }

  // ---------------------------------------------------------------- one login at a time

  /** Only what belongs to entity `e` has changed. */
  ghost predicate OnlyEntity(g: World, g': World, e: nat) {
    && g'.registry == g.registry && g'.ids == g.ids
    && g'.graph.comps.Keys == g.graph.comps.Keys
    && (forall e' :: e' in g.graph.comps && e' != e ==> g'.graph.comps[e'] == g.graph.comps[e'])
    && g.connection.Keys <= g'.connection.Keys
  }

  lemma StageKept(cfg: Config, g: World, g': World, e: nat, stage: Stage)
    requires OnlyEntity(g, g', e) && StageInv(cfg, g, stage) && EntityOf(stage) != Some(e)
    ensures StageInv(cfg, g', stage)
  {
  }

  lemma LoginAdvances(cfg: Config, g: World, stages: map<nat, Stage>, k: nat, stage: Stage, g': World, e: nat)
    requires LoginInv(cfg, g, stages) && k in stages && EntityOf(stages[k]) == Some(e) && EntityOf(stage) == Some(e)
    requires OnlyEntity(g, g', e) && StageInv(cfg, g', stage)
    ensures LoginInv(cfg, g', stages[k := stage])
  {
    var stages' := stages[k := stage];
    forall j | j in stages' ensures StageInv(cfg, g', stages'[j]) {
      if j != k {
        assert !SameEntity(stages[j], stages[k]);
        StageKept(cfg, g, g', e, stages[j]);
      }
    }
    assert forall j :: j in stages' ==> EntityOf(stages'[j]) == EntityOf(stages[j]);
    assert forall j, j' :: j in stages' && j' in stages' && SameEntity(stages'[j], stages'[j']) ==>
        SameEntity(stages[j], stages[j']);
  }

  lemma InitKeepsGame(cfg: Config, g: World, drawn: nat, e: nat, c: nat)
    requires GameInv(cfg, g, drawn) && e in g.graph.comps && c !in g.graph.owner
    ensures GameInv(cfg, InitEntity(g, e, Names(cfg), c), drawn)
  {
    InitComponentsIs(g.graph, e, Names(cfg), c);
    AddKeepsOwned(g.graph, e, NETWORK_COMPONENT, c);
    var g' := InitEntity(g, e, Names(cfg), c);
    assert g'.graph.comps.Keys == g.graph.comps.Keys;
    assert Owned(g'.graph);
  }

  lemma AddToEmpty(g: Graph<nat, nat>, e: nat, c: nat)
    requires e in g.comps && g.comps[e] == map[]
    ensures var h := Add(g, e, NETWORK_COMPONENT, c);
            h.comps == g.comps[e := map[NETWORK_COMPONENT := c]] && h.owner == g.owner[c := Some(e)]
  {
  }

  /** What `init_components` changes on an entity without components. */
  lemma InitChanges(g: World, e: nat, names: seq<string>, c: nat)
    requires e in g.graph.comps && g.graph.comps[e] == map[] && c !in g.graph.owner && c !in g.connection
    ensures var g' := InitEntity(g, e, names, c);
            if NETWORK_COMPONENT in names then
              && OnlyEntity(g, g', e) && NetworkOf(g', e, c) && g'.graph.owner == g.graph.owner[c := Some(e)]
              && g'.connection == g.connection[c := None] && g'.handlers == g.handlers[c := []]
            else g' == g
  {
    InitComponentsIs(g.graph, e, names, c);
    AddToEmpty(g.graph, e, c);
  }

  lemma InitKeepsLoginsHold(cfg: Config, g: World, stages: map<nat, Stage>, k: nat, e: nat, c: nat, g': World)
    requires LoginInv(cfg, g, stages) && LoginsHold(g, stages) && k in stages && stages[k] == Made(e)
    requires c !in g.connection && OnlyEntity(g, g', e)
    requires g'.connection == g.connection[c := None] && g'.handlers == g.handlers[c := []]
    ensures LoginsHold(g', stages)
  {
    OwnEntity(cfg, g, stages, k, e);
    hide LoginInv;
    forall j, d | j in stages && IsBound(stages[j]) && NetworkOf(g', stages[j].bound.value, d)
      ensures ComponentState(g', d, Some(j))
    {
      assert EntityOf(stages[j]) != Some(e) && NetworkOf(g, stages[j].bound.value, d);
    }
  }

  lemma InitKeepsHoldersLogin(g: World, stages: map<nat, Stage>, e: nat, c: nat, g': World)
    requires HoldersLogin(g, stages) && c !in g.connection && g'.graph.owner == g.graph.owner[c := Some(e)]
    requires g'.connection == g.connection[c := None] && g'.handlers == g.handlers[c := []]
    ensures HoldersLogin(g', stages)
  {
    assert forall d :: d in g.connection ==> ComponentState(g, d, g.connection[d]);
  }

  lemma InitKeeps(cfg: Config, s: State, k: nat, e: nat, c: nat)
    requires Inv(cfg, s) && At(s, k, Made(e)) && e in s.game.graph.comps && c !in s.game.graph.owner
    ensures Inv(cfg, Move(s.(game := InitEntity(s.game, e, Names(cfg), c)), k, Ready(e)))
  {
    hide ConnInv, AcceptInv, GameInv, LoginInv, LoginsHold, HoldersLogin;
    var g' := InitEntity(s.game, e, Names(cfg), c);
    LoginIsAt(cfg, s.game, s.stages, k);
    GraphIsOwned(cfg, s.game, s.drawn);
    ConnIsAt(s.stages, s.conns, k);
    InitKeepsGame(cfg, s.game, s.drawn, e, c);
    MoveKeepsConns(s, k, Ready(e));
    InitChanges(s.game, e, Names(cfg), c);
    LoginAdvances(cfg, s.game, s.stages, k, Ready(e), g', e);
    if NETWORK_COMPONENT in Names(cfg) {
      InitKeepsLoginsHold(cfg, s.game, s.stages, k, e, c, g');
      InitKeepsHoldersLogin(s.game, s.stages, e, c, g');
    }
    HoldMoves(g', s.stages, k, Ready(e));
  }

  /** The component of a login that is not bound yet holds nothing. */
  lemma UnboundHoldsNothing(cfg: Config, g: World, stages: map<nat, Stage>, k: nat, e: nat, c: nat)
    requires Owned(g.graph) && LoginInv(cfg, g, stages) && HoldInv(g, stages)
    requires k in stages && stages[k] == Ready(e) && NetworkOf(g, e, c)
    ensures ComponentState(g, c, None)
  {
    assert StageInv(cfg, g, Ready(e));
    if g.connection[c].Some? {
      var j := g.connection[c].value;
      assert g.graph.owner[c] == Some(e);
      assert SameEntity(stages[j], stages[k]);
      assert false;
    }
  }

  /** What the end of a login changes. */
  lemma BindChanges(g: World, e: nat, c: nat, k: nat)
    requires NetworkOf(g, e, c) && ComponentState(g, c, None)
    ensures var g' := BindLogin(g, e, k);
            && g'.graph == g.graph && g'.registry == g.registry && g'.ids == g.ids
            && g'.connection == g.connection[c := Some(k)]
            && g'.handlers == g.handlers[c := [(LOGIN_SERVICE, LoginDisconnected)]]
  {
    var none: seq<Entry<Handler>> := [];
    assert Register(none, LOGIN_SERVICE, LoginDisconnected) == [(LOGIN_SERVICE, LoginDisconnected)];
  }

  /** Another login's component is another component. */
  lemma OthersComponent(cfg: Config, g: World, stages: map<nat, Stage>, k: nat, j: nat, c: nat, d: nat, e: nat)
    requires Owned(g.graph) && LoginInv(cfg, g, stages) && HoldInv(g, stages)
    requires k in stages && stages[k] == Ready(e) && NetworkOf(g, e, c)
    requires j in stages && IsBound(stages[j]) && NetworkOf(g, stages[j].bound.value, d)
    ensures d != c && ComponentState(g, d, Some(j))
  {
    assert !SameEntity(stages[j], stages[k]);
    assert g.graph.owner[c] == Some(e) && g.graph.owner[d] == Some(stages[j].bound.value);
  }

  lemma BindKeepsHold(cfg: Config, g: World, stages: map<nat, Stage>, k: nat, e: nat, c: nat, g': World)
    requires Owned(g.graph) && LoginInv(cfg, g, stages) && HoldInv(g, stages)
    requires k in stages && stages[k] == Ready(e) && NetworkOf(g, e, c) && c in g.connection
    requires g'.graph == g.graph && g'.connection == g.connection[c := Some(k)]
    requires g'.handlers == g.handlers[c := [(LOGIN_SERVICE, LoginDisconnected)]]
    ensures HoldInv(g', stages[k := Answered(Some(e))])
  {
    var stages' := stages[k := Answered(Some(e))];
    assert forall e', d :: NetworkOf(g', e', d) <==> NetworkOf(g, e', d);
    assert forall d, x :: d != c ==> (ComponentState(g', d, x) <==> ComponentState(g, d, x));
    assert ComponentState(g', c, Some(k));
    forall j, d | j in stages' && IsBound(stages'[j]) && NetworkOf(g', stages'[j].bound.value, d)
      ensures ComponentState(g', d, Some(j))
    {
      if j != k {
        OthersComponent(cfg, g, stages, k, j, c, d, e);
      }
    }
  }

  lemma UnheldAnswers(g: World, stages: map<nat, Stage>, k: nat, e: nat)
    requires HoldInv(g, stages) && k in stages && stages[k] == Ready(e) && !Has(g.graph, e, NETWORK_COMPONENT)
    ensures HoldInv(g, stages[k := Answered(Some(e))])
  {
    assert forall j :: j in stages && IsBound(stages[j]) ==> j != k;
  }

  lemma BindKeepsGame(cfg: Config, g: World, drawn: nat, c: nat, g': World)
    requires GameInv(cfg, g, drawn) && c in g.connection
    requires g'.registry == g.registry && g'.ids == g.ids && g'.graph == g.graph
    requires g'.connection.Keys == g.connection.Keys + {c} && g'.handlers.Keys == g.handlers.Keys + {c}
    ensures GameInv(cfg, g', drawn)
  {
  }

  lemma BindKeeps(cfg: Config, s: State, k: nat, e: nat)
    requires Inv(cfg, s) && At(s, k, Ready(e))
    ensures Inv(cfg, Move(s.(game := BindLogin(s.game, e, k)), k, Answered(Some(e))))
  {
    hide ConnInv, AcceptInv, GameInv, LoginInv, HoldInv;
    var g, g', stage := s.game, BindLogin(s.game, e, k), Answered(Some(e));
    LoginIsAt(cfg, g, s.stages, k);
    GraphIsOwned(cfg, g, s.drawn);
    ConnIsAt(s.stages, s.conns, k);
    MoveKeepsConns(s, k, stage);
    if Has(g.graph, e, NETWORK_COMPONENT) {
      var c := g.graph.comps[e][NETWORK_COMPONENT];
      UnboundHoldsNothing(cfg, g, s.stages, k, e, c);
      BindChanges(g, e, c, k);
      BindKeepsGame(cfg, g, s.drawn, c, g');
      BindKeepsHold(cfg, g, s.stages, k, e, c, g');
    } else {
      UnheldAnswers(g, s.stages, k, e);
    }
    LoginAdvances(cfg, g, s.stages, k, stage, g', e);
  }

  // ---------------------------------------------------------------- every run

  lemma StartKeeps(cfg: Config, s: State, k: nat, conn: Cn.Conn)
    requires Inv(cfg, s) && NewConnection(s, k, conn)
    ensures Inv(cfg, Step(cfg, s, Start(k, conn)))
  {
    if !s.running && cfg.tcp { ArmKeeps(cfg, s, k, conn); }
  }

  lemma RearmKeeps(cfg: Config, s: State, k: nat, next: nat, conn: Cn.Conn)
    requires Inv(cfg, s) && At(s, k, Accepted) && NewConnection(s, next, conn)
    ensures Inv(cfg, Arm(Move(s, k, Offering), next, conn))
  {
    hide ConnInv, AcceptInv, GameInv, LoginInv, HoldInv;
    var s1 := Move(s, k, Offering);
    ConnIsAt(s.stages, s.conns, k);
    OnlyOneWaits(s.running, s.stages, k);
    MoveKeeps(cfg, s, k, Offering);
    ArmKeeps(cfg, s1, next, conn);
  }

  lemma StartReadKeeps(cfg: Config, s: State, k: nat)
    requires Inv(cfg, s) && k in s.stages && s.stages[k].Answered?
    ensures Inv(cfg, Step(cfg, s, StartRead(k)))
  {
    hide ConnInv, AcceptInv, GameInv, LoginInv, HoldInv;
    var stage := Serving(s.stages[k].bound);
    ConnIsAt(s.stages, s.conns, k);
    var conn := Cn.StartReceive(s.conns[k]);
    MoveKeeps(cfg, s, k, stage);
    ConnKeeps(cfg, Move(s, k, stage), k, conn);
    assert Move(s, k, stage).(conns := Move(s, k, stage).conns[k := conn]) == Step(cfg, s, StartRead(k));
  }

  /** What a connection does by itself adds no read, and a write only if the game or a callback sends. */
  lemma ConnectionOperates(conn: Cn.Conn, event: Cn.Event)
    requires Cn.Enabled(conn, event) && !event.Receive?
    ensures Reads(Cn.Step(conn, event)) <= Reads(conn)
    ensures Cn.Step(conn, event).writesInFlight != [] && conn.writesInFlight == [] ==>
              event.Api? || (event.ReadHandled? && Reads(conn) > 0)
  {
    if event.Api? {
      Runs.DoCallKeeps(conn, event.call);
    } else if event.ReadHandled? {
      Runs.HandledKeeps(conn, event.i, event.calls);
    }
  }

  lemma ConnectionStaysSound(conn: Cn.Conn, event: Cn.Event)
    requires Cn.Enabled(conn, event) && Reads(conn) <= 1
    requires Runs.SendSafe(conn) && Runs.ClosedOnce(conn) && Runs.Intact(conn)
    ensures var conn' := Cn.Step(conn, event); Runs.SendSafe(conn') && Runs.ClosedOnce(conn') && Runs.Intact(conn')
  {
    Runs.StepKeepsSafe(conn, event);
    Runs.StepKeepsClosedOnce(conn, event);
    Runs.ChunksAtMost(conn.arrivals);
    Runs.OneReadStep(conn, event);
  }

  lemma ReachableIsBound(g: World, stages: map<nat, Stage>, k: nat)
    requires HoldInv(g, stages) && Reachable(g, k)
    ensures k in stages && IsBound(stages[k])
  {
    var c :| c in g.connection && g.connection[c] == Some(k);
  }

  lemma ConnectionKeeps(cfg: Config, s: State, k: nat, event: Cn.Event)
    requires Inv(cfg, s) && Possible(cfg, s, OnConnection(k, event))
    ensures Inv(cfg, Step(cfg, s, OnConnection(k, event)))
  {
    assert ConnOk(s.stages[k], s.conns[k]);
    ConnectionOperates(s.conns[k], event);
    ConnectionStaysSound(s.conns[k], event);
    if event.Api? { ReachableIsBound(s.game, s.stages, k); }
    ConnKeeps(cfg, s, k, Cn.Step(s.conns[k], event));
  }

  lemma DestroyKeepsGame(cfg: Config, g: World, drawn: nat, id: string, othersHold: bool)
    requires GameInv(cfg, g, drawn)
    ensures GameInv(cfg, DestroyEntity(g, id, othersHold), drawn)
  {
  }

  /** What a destruction leaves of the logins and of what holds their connections. */
  lemma DestroyKeepsLogins(cfg: Config, g: World, stages: map<nat, Stage>, id: string, othersHold: bool)
    requires LoginInv(cfg, g, stages) && HoldInv(g, stages)
    requires id in g.registry && LoginHolds(stages, g.registry[id]) ==> othersHold
    ensures var g' := DestroyEntity(g, id, othersHold); LoginInv(cfg, g', stages) && HoldInv(g', stages)
  {
    var g' := DestroyEntity(g, id, othersHold);
    assert forall e, c :: NetworkOf(g', e, c) ==> NetworkOf(g, e, c);
    forall k | k in stages ensures StageInv(cfg, g', stages[k]) {
      assert StageInv(cfg, g, stages[k]);
    }
  }

  lemma DestroyKeeps(cfg: Config, s: State, id: string, othersHold: bool)
    requires Inv(cfg, s) && Possible(cfg, s, Destroy(id, othersHold))
    ensures Inv(cfg, Step(cfg, s, Destroy(id, othersHold)))
  {
    DestroyKeepsGame(cfg, s.game, s.drawn, id, othersHold);
    DestroyKeepsLogins(cfg, s.game, s.stages, id, othersHold);
  }

  lemma AcceptStepKeeps(cfg: Config, s: State, ev: Event)
    requires Inv(cfg, s) && Possible(cfg, s, ev)
    requires ev.Start? || ev.AcceptDone? || ev.AcceptFailed? || ev.Rearm? || ev.Offer? || ev.StartRead?
    ensures Inv(cfg, Step(cfg, s, ev))
  {
    hide ConnInv, AcceptInv, GameInv, LoginInv, HoldInv;
    if !ev.Start? {
      ConnIsAt(s.stages, s.conns, ev.k);
      LoginIsAt(cfg, s.game, s.stages, ev.k);
    }
    match ev
    case Start(k, conn) => StartKeeps(cfg, s, k, conn);
    case AcceptDone(k) => MoveKeeps(cfg, s, k, Accepted);
    case AcceptFailed(k) => MoveKeeps(cfg, s, k, Dropped);
    case Rearm(k, next, conn) => RearmKeeps(cfg, s, k, next, conn);
    case Offer(k) => MoveKeeps(cfg, s, k, Decision(cfg));
    case StartRead(k) => StartReadKeeps(cfg, s, k);
  }

  lemma GameStepKeeps(cfg: Config, s: State, ev: Event)
    requires Inv(cfg, s) && Possible(cfg, s, ev) && Distinct(cfg.stream)
    requires ev.Create? || ev.Init? || ev.Bind? || ev.OthersCreate? || ev.OthersGenerate?
    ensures Inv(cfg, Step(cfg, s, ev))
  {
    match ev
    case Create(k, e) => CreateKeeps(cfg, s, k, e);
    case Init(k, c) => InitKeeps(cfg, s, k, s.stages[k].e, c);
    case Bind(k) => BindKeeps(cfg, s, k, s.stages[k].e);
    case OthersCreate(id, e) => OthersKeep(cfg, s, id, e, s.drawn);
    case OthersGenerate(e) => OthersKeep(cfg, s, cfg.stream(s.drawn), e, s.drawn + 1);
  }

  lemma StepKeepsInv(cfg: Config, s: State, ev: Event)
    requires Inv(cfg, s) && Possible(cfg, s, ev) && Distinct(cfg.stream)
    ensures Inv(cfg, Step(cfg, s, ev))
  {
    if ev.OnConnection? {
      ConnectionKeeps(cfg, s, ev.k, ev.event);
    } else if ev.Destroy? {
      DestroyKeeps(cfg, s, ev.id, ev.othersHold);
    } else if ev.Create? || ev.Init? || ev.Bind? || ev.OthersCreate? || ev.OthersGenerate? {
      GameStepKeeps(cfg, s, ev);
    } else {
      AcceptStepKeeps(cfg, s, ev);
    }
  }

  lemma {:induction false} RunKeepsInv(cfg: Config, run: seq<Event>)
    requires Legal(cfg, run) && Distinct(cfg.stream)
    ensures Inv(cfg, After(cfg, run))
    ensures !cfg.tcp ==> After(cfg, run).stages == map[]
    decreases |run|
  {
    if run != [] {
      RunKeepsInv(cfg, run[..|run| - 1]);
      StepKeepsInv(cfg, After(cfg, run[..|run| - 1]), run[|run| - 1]);
    }
  }

  // ---------------------------------------------------------------- logins over a run

  lemma {:induction false} DestroyedWasMade(cfg: Config, run: seq<Event>, e: nat)
    requires Legal(cfg, run) && DestroyedSince(cfg, run, e)
    ensures e in After(cfg, run).game.ids
    decreases |run|
  {
    var before := run[..|run| - 1];
    if DestroyedSince(cfg, before, e) { DestroyedWasMade(cfg, before, e); }
    IdsGrow(cfg, After(cfg, before), run[|run| - 1], e);
  }

  lemma {:induction false} NoneDestroyed(cfg: Config, run: seq<Event>, e: nat)
    requires Legal(cfg, run) && NoDestroy(run)
    ensures !DestroyedSince(cfg, run, e)
    decreases |run|
  {
    if run != [] { NoneDestroyed(cfg, run[..|run| - 1], e); }
  }

  ghost predicate NoDestroy(run: seq<Event>) { forall i :: 0 <= i < |run| ==> !run[i].Destroy? }

  lemma CreateKeepsRegistered(g: World, id: string, e: nat, e': nat)
    requires e in g.ids && e' !in g.ids
    ensures Registered(CreateEntity(g, id, e'), e) <==> Registered(g, e)
  {
  }

  lemma DestroyKeepsRegistered(g: World, id: string, othersHold: bool, e: nat)
    requires e in g.ids
    ensures Registered(DestroyEntity(g, id, othersHold), e) <==> Registered(g, e) && g.ids[e] != id
  {
  }

  /** An entity that exists stays registered until its id is destroyed, and does not become registered. */
  lemma RegisteredStep(cfg: Config, s: State, ev: Event, e: nat)
    requires Possible(cfg, s, ev) && e in s.game.ids
    ensures Registered(Step(cfg, s, ev).game, e) <==> Registered(s.game, e) && !Destroys(s, ev, e)
  {
    match ev
    case Create(_, e') => CreateKeepsRegistered(s.game, cfg.stream(s.drawn), e, e');
    case OthersGenerate(e') => CreateKeepsRegistered(s.game, cfg.stream(s.drawn), e, e');
    case OthersCreate(id, e') => CreateKeepsRegistered(s.game, id, e, e');
    case Destroy(id, othersHold) => DestroyKeepsRegistered(s.game, id, othersHold, e);
    case _ =>
  }

  /** The entity of a login was its entity before, unless it has just been made. */
  lemma LoginComesFrom(cfg: Config, s: State, ev: Event, k: nat, e: nat)
    requires Possible(cfg, s, ev) && k in Step(cfg, s, ev).stages
    requires EntityOf(Step(cfg, s, ev).stages[k]) == Some(e)
    ensures ev == Create(k, e) || (k in s.stages && EntityOf(s.stages[k]) == Some(e))
  {
  }

  lemma MadeIsRegistered(cfg: Config, s: State, k: nat, e: nat)
    requires GameInv(cfg, s.game, s.drawn) && Possible(cfg, s, Create(k, e))
    ensures Registered(Step(cfg, s, Create(k, e)).game, e)
  {
  }

  /** The entity of a login is registered until its id is destroyed, and not beyond, in every interleaving. */
  lemma {:induction false} RegisteredIffNotDestroyed(cfg: Config, run: seq<Event>, k: nat, e: nat)
    requires Legal(cfg, run) && Distinct(cfg.stream)
    requires k in After(cfg, run).stages && EntityOf(After(cfg, run).stages[k]) == Some(e)
    ensures Registered(After(cfg, run).game, e) <==> !DestroyedSince(cfg, run, e)
    decreases |run|
  {
    var before, ev := run[..|run| - 1], run[|run| - 1];
    var s := After(cfg, before);
    RunKeepsInv(cfg, before);
    LoginComesFrom(cfg, s, ev, k, e);
    if ev == Create(k, e) {
      MadeIsRegistered(cfg, s, k, e);
      if DestroyedSince(cfg, before, e) { DestroyedWasMade(cfg, before, e); }
    } else {
      OwnEntity(cfg, s.game, s.stages, k, e);
      RegisteredStep(cfg, s, ev, e);
      RegisteredIffNotDestroyed(cfg, before, k, e);
    }
  }

  /** The ids of logins differ from each other and from all that are still to be drawn. */
  ghost predicate IdsApart(cfg: Config, s: State) {
    && (forall k, k' :: k in s.stages && k' in s.stages && SameId(s.game, s.stages[k], s.stages[k']) ==> k == k')
    && (forall k :: k in s.stages && EntityOf(s.stages[k]).Some? && EntityOf(s.stages[k]).value in s.game.ids ==>
          IdDrawn(cfg, s.game.ids[EntityOf(s.stages[k]).value], s.drawn))
  }

  ghost predicate SameId(g: World, a: Stage, b: Stage) {
    && EntityOf(a).Some? && EntityOf(a).value in g.ids && EntityOf(b).Some? && EntityOf(b).value in g.ids
    && g.ids[EntityOf(a).value] == g.ids[EntityOf(b).value]
  }

  ghost predicate IdDrawn(cfg: Config, id: string, drawn: nat) { forall i: nat :: i >= drawn ==> cfg.stream(i) != id }

  /** The id of the entity of a login: just drawn, or what it was. */
  lemma IdOfLogin(cfg: Config, s: State, ev: Event, k: nat, e: nat)
    requires LoginInv(cfg, s.game, s.stages) && Possible(cfg, s, ev) && k in Step(cfg, s, ev).stages
    requires EntityOf(Step(cfg, s, ev).stages[k]) == Some(e)
    ensures e in Step(cfg, s, ev).game.ids
    ensures var id := Step(cfg, s, ev).game.ids[e];
            if ev == Create(k, e) then id == cfg.stream(s.drawn)
            else k in s.stages && EntityOf(s.stages[k]) == Some(e) && e in s.game.ids && id == s.game.ids[e]
  {
    LoginComesFrom(cfg, s, ev, k, e);
    if ev != Create(k, e) {
      OwnEntity(cfg, s.game, s.stages, k, e);
      IdsGrow(cfg, s, ev, e);
    }
  }

  lemma IdsGrow(cfg: Config, s: State, ev: Event, e: nat)
    requires Possible(cfg, s, ev) && e in s.game.ids
    ensures e in Step(cfg, s, ev).game.ids && Step(cfg, s, ev).game.ids[e] == s.game.ids[e]
  {
  }

  lemma DrawnGrows(cfg: Config, s: State, ev: Event)
    requires Possible(cfg, s, ev)
    ensures Step(cfg, s, ev).drawn == s.drawn + if ev.Create? || ev.OthersGenerate? then 1 else 0
  {
  }

  lemma IdStaysDrawn(cfg: Config, s: State, ev: Event, k: nat, e: nat)
    requires LoginInv(cfg, s.game, s.stages) && IdsApart(cfg, s) && Possible(cfg, s, ev) && Distinct(cfg.stream)
    requires k in Step(cfg, s, ev).stages && EntityOf(Step(cfg, s, ev).stages[k]) == Some(e)
    ensures e in Step(cfg, s, ev).game.ids && IdDrawn(cfg, Step(cfg, s, ev).game.ids[e], Step(cfg, s, ev).drawn)
  {
    IdOfLogin(cfg, s, ev, k, e);
    DrawnGrows(cfg, s, ev);
    if ev != Create(k, e) {
      assert IdDrawn(cfg, s.game.ids[e], s.drawn);
    }
  }

  lemma TwoStayApart(cfg: Config, s: State, ev: Event, k: nat, e: nat, k': nat, e': nat)
    requires LoginInv(cfg, s.game, s.stages) && IdsApart(cfg, s) && Possible(cfg, s, ev)
    requires k in Step(cfg, s, ev).stages && EntityOf(Step(cfg, s, ev).stages[k]) == Some(e)
    requires k' in Step(cfg, s, ev).stages && EntityOf(Step(cfg, s, ev).stages[k']) == Some(e') && k != k'
    ensures e in Step(cfg, s, ev).game.ids && e' in Step(cfg, s, ev).game.ids
    ensures Step(cfg, s, ev).game.ids[e] != Step(cfg, s, ev).game.ids[e']
  {
    IdOfLogin(cfg, s, ev, k, e);
    IdOfLogin(cfg, s, ev, k', e');
    if ev == Create(k, e) {
      assert IdDrawn(cfg, s.game.ids[e'], s.drawn);
    } else if ev == Create(k', e') {
      assert IdDrawn(cfg, s.game.ids[e], s.drawn);
    } else {
      assert !SameId(s.game, s.stages[k], s.stages[k']);
    }
  }

  lemma IdsStayApart(cfg: Config, s: State, ev: Event)
    requires LoginInv(cfg, s.game, s.stages) && IdsApart(cfg, s) && Possible(cfg, s, ev) && Distinct(cfg.stream)
    ensures IdsApart(cfg, Step(cfg, s, ev))
  {
    var s' := Step(cfg, s, ev);
    forall k | k in s'.stages && EntityOf(s'.stages[k]).Some? && EntityOf(s'.stages[k]).value in s'.game.ids
      ensures IdDrawn(cfg, s'.game.ids[EntityOf(s'.stages[k]).value], s'.drawn)
    {
      IdStaysDrawn(cfg, s, ev, k, EntityOf(s'.stages[k]).value);
    }
    forall k, k' | k in s'.stages && k' in s'.stages && SameId(s'.game, s'.stages[k], s'.stages[k']) ensures k == k' {
      if k != k' {
        TwoStayApart(cfg, s, ev, k, EntityOf(s'.stages[k]).value, k', EntityOf(s'.stages[k']).value);
      }
    }
  }

  lemma {:induction false} RunKeepsIdsApart(cfg: Config, run: seq<Event>)
    requires Legal(cfg, run) && Distinct(cfg.stream)
    ensures IdsApart(cfg, After(cfg, run))
    decreases |run|
  {
    if run != [] {
      var before := run[..|run| - 1];
      RunKeepsInv(cfg, before);
      RunKeepsIdsApart(cfg, before);
      IdsStayApart(cfg, After(cfg, before), run[|run| - 1]);
    }
  }

  /** Distinct connections get distinct entities with distinct ids, in every interleaving, and each is registered
      under its id until that is destroyed. */
  lemma LoginsAreDistinct(cfg: Config, run: seq<Event>, k: nat, k': nat)
    requires Legal(cfg, run) && Distinct(cfg.stream) && k != k'
    requires k in After(cfg, run).stages && k' in After(cfg, run).stages
    requires EntityOf(After(cfg, run).stages[k]).Some? && EntityOf(After(cfg, run).stages[k']).Some?
    ensures var s := After(cfg, run);
            var e, e' := EntityOf(s.stages[k]).value, EntityOf(s.stages[k']).value;
            && e != e' && e in s.game.ids && e' in s.game.ids && s.game.ids[e] != s.game.ids[e']
            && (Registered(s.game, e) <==> !DestroyedSince(cfg, run, e))
  {
    RunKeepsInv(cfg, run);
    RunKeepsIdsApart(cfg, run);
    var s := After(cfg, run);
    var e, e' := EntityOf(s.stages[k]).value, EntityOf(s.stages[k']).value;
    OwnEntity(cfg, s.game, s.stages, k, e);
    OwnEntity(cfg, s.game, s.stages, k', e');
    assert !SameId(s.game, s.stages[k], s.stages[k']);
    RegisteredIffNotDestroyed(cfg, run, k, e);
  }

  /** In every interleaving one accept at most is outstanding, no connection has two reads outstanding or reads
      before it was told to, and each connection keeps its send queue, closes once, and still has in its array the
      chunk that waits for delivery. */
  lemma ConnectionsStaySound(cfg: Config, run: seq<Event>, k: nat)
    requires Legal(cfg, run) && Distinct(cfg.stream) && k in After(cfg, run).conns
    ensures var s := After(cfg, run);
            && k in s.stages && Reads(s.conns[k]) <= (if s.stages[k].Serving? then 1 else 0)
            && Runs.SendSafe(s.conns[k]) && Runs.ClosedOnce(s.conns[k]) && Runs.Intact(s.conns[k])
            && (Waiting(s.stages[k]) ==> forall j :: j in s.stages && Waiting(s.stages[j]) ==> j == k)
  {
    RunKeepsInv(cfg, run);
    assert ConnOk(After(cfg, run).stages[k], After(cfg, run).conns[k]);
  }

  /** Nothing waits to be accepted, and the server counts as running. */
  ghost predicate AcceptEnded(s: State) { s.running && forall j :: j in s.stages ==> !Waiting(s.stages[j]) }

  lemma EndedStaysEnded(cfg: Config, s: State, ev: Event)
    requires AcceptEnded(s) && Possible(cfg, s, ev)
    ensures AcceptEnded(Step(cfg, s, ev)) && Step(cfg, s, ev).stages.Keys == s.stages.Keys
  {
  }

  ghost predicate NoAcceptFailed(run: seq<Event>) { forall i :: 0 <= i < |run| ==> !run[i].AcceptFailed? }

  ghost predicate SomeoneWaits(stages: map<nat, Stage>) { exists j :: j in stages && Waiting(stages[j]) }

  /** An accept passes from connection to connection, and only a failure takes it away. */
  lemma WaitingPassesOn(cfg: Config, s: State, ev: Event)
    requires AcceptInv(s.running, s.stages) && Possible(cfg, s, ev) && SomeoneWaits(s.stages)
    ensures SomeoneWaits(Step(cfg, s, ev).stages) <==> !ev.AcceptFailed?
  {
    var j :| j in s.stages && Waiting(s.stages[j]);
    var stages := Step(cfg, s, ev).stages;
    if ev.AcceptFailed? {
      assert forall i :: i in stages && i != j ==> stages[i] == s.stages[i];
    } else if ev.Rearm? {
      assert ev.next in stages && Waiting(stages[ev.next]);
    } else {
      assert j in stages && Waiting(stages[j]);
    }
  }

  /** Accepting is where it should be, given that no accept has failed, or that one has. */
  ghost predicate Accepting(s: State, noneFailed: bool) {
    if s.running then SomeoneWaits(s.stages) <==> noneFailed else noneFailed
  }

  lemma AcceptingStep(cfg: Config, s: State, ev: Event, noneFailed: bool)
    requires AcceptInv(s.running, s.stages) && Possible(cfg, s, ev) && Accepting(s, noneFailed)
    ensures Accepting(Step(cfg, s, ev), noneFailed && !ev.AcceptFailed?)
  {
    if SomeoneWaits(s.stages) {
      WaitingPassesOn(cfg, s, ev);
    } else if s.running {
      EndedStaysEnded(cfg, s, ev);
    } else if ev.Start? && cfg.tcp {
      assert Step(cfg, s, ev).stages[ev.k] == Armed;
    }
  }

  lemma FailedSplits(run: seq<Event>)
    requires run != []
    ensures NoAcceptFailed(run) <==> NoAcceptFailed(run[..|run| - 1]) && !run[|run| - 1].AcceptFailed?
  {
    assert forall i :: 0 <= i < |run| - 1 ==> run[i] == run[..|run| - 1][i];
  }

  lemma RunKeepsAccept(cfg: Config, run: seq<Event>)
    requires Legal(cfg, run) && Distinct(cfg.stream)
    ensures AcceptInv(After(cfg, run).running, After(cfg, run).stages)
  {
    RunKeepsInv(cfg, run);
  }

  /** A server that counts as running accepts if and only if no accept has failed, in every interleaving. */
  lemma {:induction false} AcceptingIffNoneFailed(cfg: Config, run: seq<Event>)
    requires Legal(cfg, run) && Distinct(cfg.stream)
    ensures After(cfg, run).running ==> (SomeoneWaits(After(cfg, run).stages) <==> NoAcceptFailed(run))
    ensures !After(cfg, run).running ==> NoAcceptFailed(run)
    decreases |run|
  {
    if run != [] {
      var before := run[..|run| - 1];
      RunKeepsAccept(cfg, before);
      AcceptingIffNoneFailed(cfg, before);
      AcceptingStep(cfg, After(cfg, before), run[|run| - 1], NoAcceptFailed(before));
      FailedSplits(run);
    }
  }

  /** One failed accept ends accepting for good, in every continuation: no connection is ever made again, although
      the server keeps the status of a running one, in which a later `start` arms nothing. */
  lemma {:induction false} AcceptFailureIsFinal(cfg: Config, run: seq<Event>, k: nat, more: seq<Event>)
    requires Legal(cfg, run + [AcceptFailed(k)] + more) && Legal(cfg, run) && Distinct(cfg.stream)
    ensures AcceptEnded(After(cfg, run + [AcceptFailed(k)] + more))
    ensures After(cfg, run + [AcceptFailed(k)] + more).stages.Keys == After(cfg, run).stages.Keys
    decreases |more|
  {
    var all := run + [AcceptFailed(k)] + more;
    if more == [] {
      assert all[..|all| - 1] == run && all[|all| - 1] == AcceptFailed(k);
      RunKeepsAccept(cfg, run);
      OnlyOneWaits(After(cfg, run).running, After(cfg, run).stages, k);
    } else {
      var n := |more| - 1;
      assert all[..|all| - 1] == run + [AcceptFailed(k)] + more[..n] && all[|all| - 1] == more[n];
      AcceptFailureIsFinal(cfg, run, k, more[..n]);
      EndedStaysEnded(cfg, After(cfg, all[..|all| - 1]), more[n]);
    }
  }

  /** A login's connection is held while its entity is registered. */
  lemma BoundIsHeld(cfg: Config, s: State, k: nat)
    requires Inv(cfg, s) && k in s.stages && IsBound(s.stages[k]) && NETWORK_COMPONENT in Names(cfg)
    requires Registered(s.game, s.stages[k].bound.value)
    ensures HeldByExactlyOne(s, k)
  {
    var e := s.stages[k].bound.value;
    assert StageInv(cfg, s.game, s.stages[k]);
    var c := s.game.graph.comps[e][NETWORK_COMPONENT];
    assert NetworkOf(s.game, e, c) && ComponentState(s.game, c, Some(k));
    assert HeldBy(s, k, s.game.ids[e]);
    forall id | HeldBy(s, k, id) ensures id == s.game.ids[e] {
      HolderIsTheEntity(cfg, s, k, id);
    }
  }

  /** Whatever holds a connection is the entity of its login. */
  lemma HolderIsTheEntity(cfg: Config, s: State, k: nat, id: string)
    requires GameInv(cfg, s.game, s.drawn) && HoldInv(s.game, s.stages) && HeldBy(s, k, id)
    ensures k in s.stages && IsBound(s.stages[k])
    ensures s.game.registry[id] == s.stages[k].bound.value && s.game.ids[s.stages[k].bound.value] == id
  {
    var c := s.game.graph.comps[s.game.registry[id]][NETWORK_COMPONENT];
    assert s.game.connection[c] == Some(k);
    assert s.game.graph.owner[c] == Some(s.game.registry[id]);
  }

  lemma HeldIffRegistered(cfg: Config, s: State, k: nat)
    requires Inv(cfg, s) && k in s.stages && IsBound(s.stages[k]) && NETWORK_COMPONENT in Names(cfg)
    ensures HeldByExactlyOne(s, k) <==> Registered(s.game, s.stages[k].bound.value)
  {
    if Registered(s.game, s.stages[k].bound.value) {
      BoundIsHeld(cfg, s, k);
    } else if id :| HeldBy(s, k, id) {
      HolderIsTheEntity(cfg, s, k, id);
      assert Registered(s.game, s.stages[k].bound.value);
    }
  }

  /** A connection that a login bound is held until the id of its entity is destroyed, and not beyond. */
  lemma HeldIffNotDestroyed(cfg: Config, run: seq<Event>, k: nat)
    requires Legal(cfg, run) && Distinct(cfg.stream) && NETWORK_COMPONENT in Names(cfg)
    requires k in After(cfg, run).stages && IsBound(After(cfg, run).stages[k])
    ensures HeldByExactlyOne(After(cfg, run), k) <==> !EntityDestroyed(cfg, run, k)
  {
    hide ConnInv, AcceptInv, GameInv, LoginInv, HoldInv;
    hide HeldByExactlyOne;
    var s := After(cfg, run);
    RunKeepsInv(cfg, run);
    HeldIffRegistered(cfg, s, k);
    RegisteredIffNotDestroyed(cfg, run, k, s.stages[k].bound.value);
  }

  /** Where an operation is outstanding the login is over; and under a safe configuration it has an entity. */
  lemma ActiveIsBound(cfg: Config, s: State, k: nat)
    requires Inv(cfg, s) && Safe(cfg) && cfg.tcp && k in s.conns && Operations(s.conns[k]) > 0
    ensures k in s.stages && IsBound(s.stages[k]) && NETWORK_COMPONENT in Names(cfg)
  {
    assert ConnOk(s.stages[k], s.conns[k]);
    assert StageInv(cfg, s.game, s.stages[k]);
  }

  /** The first half: under a safe configuration, every connection with an operation outstanding is held, in every
      interleaving, until the entity of its login is destroyed. */
  lemma SafeHolds(cfg: Config, run: seq<Event>)
    requires Safe(cfg) && Distinct(cfg.stream) && Legal(cfg, run)
    ensures ActiveHeld(cfg, run)
    ensures NoDestroy(run) ==>
              forall k :: k in After(cfg, run).conns && Operations(After(cfg, run).conns[k]) > 0 ==>
                HeldByExactlyOne(After(cfg, run), k)
  {
    RunKeepsInv(cfg, run);
    var s := After(cfg, run);
    forall k | k in s.conns && Operations(s.conns[k]) > 0
      ensures k in s.stages && (HeldByExactlyOne(s, k) <==> !EntityDestroyed(cfg, run, k))
      ensures NoDestroy(run) ==> HeldByExactlyOne(s, k)
    {
      ActiveIsBound(cfg, s, k);
      HeldIffNotDestroyed(cfg, run, k);
      if NoDestroy(run) { NoneDestroyed(cfg, run, s.stages[k].bound.value); }
    }
  }

  /** For a connection set up by login: a disconnect of the component that holds it calls the login handler once, with
      the id of that component's own entity, while the entity lives; and the factory finds the entity under that id
      until the id is destroyed, and not beyond. */
  lemma DisconnectFindsEntity(cfg: Config, run: seq<Event>, k: nat)
    requires Safe(cfg) && Distinct(cfg.stream) && Legal(cfg, run)
    requires k in After(cfg, run).stages && IsBound(After(cfg, run).stages[k])
    ensures var s := After(cfg, run);
            var e := s.stages[k].bound.value;
            && e in s.game.ids
            && (Lookup(s.game.registry, s.game.ids[e]) == Some(e) <==> !DestroyedSince(cfg, run, e))
            && (!DestroyedSince(cfg, run, e) ==> e in s.game.graph.comps)
            && (e in s.game.graph.comps ==> DisconnectCalls(s.game, e))
  {
    hide ConnInv, AcceptInv, GameInv, LoginInv, HoldInv;
    RunKeepsInv(cfg, run);
    var s := After(cfg, run);
    var e := s.stages[k].bound.value;
    GraphIsOwned(cfg, s.game, s.drawn);
    OwnEntity(cfg, s.game, s.stages, k, e);
    RegisteredIffNotDestroyed(cfg, run, k, e);
    RegisteredIsFound(cfg, s.game, s.drawn, e);
    LivingDisconnects(cfg, s.game, s.stages, k, e);
  }

  /** The network component of `e` belongs to it, and its disconnect runs the login handler once with the id of `e`. */
  ghost predicate DisconnectCalls(g: World, e: nat) {
    && Has(g.graph, e, NETWORK_COMPONENT) && e in g.ids
    && var c := g.graph.comps[e][NETWORK_COMPONENT];
       && VisibleOwner(g.graph, c) == Some(e) && c in g.handlers
       && Calls(g.handlers[c], Some(g.ids[e])) == [(LoginDisconnected, g.ids[e])]
  }

  lemma RegisteredIsFound(cfg: Config, g: World, drawn: nat, e: nat)
    requires GameInv(cfg, g, drawn) && e in g.ids
    ensures Lookup(g.registry, g.ids[e]) == Some(e) <==> Registered(g, e)
    ensures Registered(g, e) ==> e in g.graph.comps
  {
  }

  lemma LivingDisconnects(cfg: Config, g: World, stages: map<nat, Stage>, k: nat, e: nat)
    requires Owned(g.graph) && LoginInv(cfg, g, stages) && HoldInv(g, stages) && Safe(cfg)
    requires cfg.tcp && k in stages && IsBound(stages[k]) && stages[k].bound == Some(e)
    ensures e in g.graph.comps ==> DisconnectCalls(g, e)
  {
    assert StageInv(cfg, g, stages[k]);
    OwnEntity(cfg, g, stages, k, e);
    if e in g.graph.comps {
      assert ComponentState(g, g.graph.comps[e][NETWORK_COMPONENT], Some(k));
    }
  }

  // ---------------------------------------------------------------- and only under such configurations

  function NewConn(): (conn: Cn.Conn)
    ensures Cn.IsNew(conn)
  {
    Cn.Conn(Cn.StatusNone, [], false, seq(Cn.MAX_BUFFER_SIZE, _ => 0), false, false,
            [], 0, [], [], [], [], 0, 0, [], 0, None, 0)
  }

  lemma Extend(cfg: Config, run: seq<Event>, ev: Event)
    requires Legal(cfg, run) && Possible(cfg, After(cfg, run), ev)
    ensures Legal(cfg, run + [ev]) && After(cfg, run + [ev]) == Step(cfg, After(cfg, run), ev)
    ensures NoDestroy(run) && !ev.Destroy? ==> NoDestroy(run + [ev])
  {
    assert (run + [ev])[..|run|] == run;
  }

  lemma ReachOffering(cfg: Config) returns (run: seq<Event>)
    requires cfg.tcp
    ensures Legal(cfg, run) && At(After(cfg, run), 0, Offering) && 0 in After(cfg, run).conns
    ensures Reads(After(cfg, run).conns[0]) == 0 && NoDestroy(run)
    ensures After(cfg, run).game == Initial.game && After(cfg, run).drawn == 0
  {
    run := [];
    Extend(cfg, run, Start(0, NewConn()));
    run := run + [Start(0, NewConn())];
    Extend(cfg, run, AcceptDone(0));
    run := run + [AcceptDone(0)];
    Extend(cfg, run, Rearm(0, 1, NewConn()));
    run := run + [Rearm(0, 1, NewConn())];
  }

  /** A login whose entity has no network component. */
  lemma ReachAnswered(cfg: Config, start: seq<Event>) returns (run: seq<Event>)
    requires Legal(cfg, start) && At(After(cfg, start), 0, Creating) && 0 in After(cfg, start).conns
    requires After(cfg, start).game == Initial.game && Reads(After(cfg, start).conns[0]) == 0 && NoDestroy(start)
    requires NETWORK_COMPONENT !in Names(cfg)
    ensures Legal(cfg, run) && At(After(cfg, run), 0, Answered(Some(0))) && 0 in After(cfg, run).conns
    ensures After(cfg, run).game.connection == map[] && Reads(After(cfg, run).conns[0]) == 0 && NoDestroy(run)
  {
    run := start;
    Extend(cfg, run, Create(0, 0));
    run := run + [Create(0, 0)];
    assert After(cfg, run).game.graph.comps == map[0 := map[]];
    InitComponentsIs(After(cfg, run).game.graph, 0, Names(cfg), 0);
    Extend(cfg, run, Init(0, 0));
    run := run + [Init(0, 0)];
    assert After(cfg, run).game.graph.comps == map[0 := map[]];
    Extend(cfg, run, Bind(0));
    run := run + [Bind(0)];
  }

  /** A login that leaves its connection unheld, although nothing is destroyed. */
  lemma ReachUnheld(cfg: Config) returns (run: seq<Event>)
    requires !Safe(cfg)
    ensures Legal(cfg, run) && NoDestroy(run) && !ActiveHeld(cfg, run)
  {
    run := ReachOffering(cfg);
    Extend(cfg, run, Offer(0));
    run := run + [Offer(0)];
    if Decision(cfg) == Creating {
      run := ReachAnswered(cfg, run);
    }
    assert After(cfg, run).game.connection == map[];
    Extend(cfg, run, StartRead(0));
    run := run + [StartRead(0)];
    var s := After(cfg, run);
    assert Reads(s.conns[0]) == 1 && forall id :: !HeldBy(s, 0, id);
    if IsBound(s.stages[0]) { NoneDestroyed(cfg, run, s.stages[0].bound.value); }
  }

  /** Connections with an operation outstanding are held in every state of every interleaving, just until the entity
      of their login is destroyed, if and only if the configuration is safe. */
  lemma ActiveHeldIffSafe(cfg: Config)
    requires Distinct(cfg.stream)
    ensures (forall run :: Legal(cfg, run) ==> ActiveHeld(cfg, run)) <==> Safe(cfg)
  {
    if Safe(cfg) {
      forall run | Legal(cfg, run) ensures ActiveHeld(cfg, run) {
        SafeHolds(cfg, run);
      }
    } else {
      var run := ReachUnheld(cfg);
    }
  }
}
