/** The service table of the game, and the hand-over of accepted connections to the login service. */
module GameMains {
  import opened Options
  import opened Decimal
  import opened Registries
  import opened AsioTcpConnections
  import opened Entities
  import opened EntityFactories
  import opened ServiceTables
  import opened GameSpec
  import Login = LoginServices

  class GameMain {
    const ip: string
    const port: Int32
    const loginConfig: Option<Login.LoginConfig>
    const factory: EntityFactory
    var gameServices: map<string, seq<Entity>>
    var createHandlers: set<string>

    /** A service in the table stands alone under its name, was made here, and is in the factory under its id. */
    ghost predicate Valid(w: World)
      reads this, factory, factory.uuid, w, w.entities, w.components, set e: Entity | e in w.entities :: e.proxy
    {
      && factory.Valid(w) && factory.IdsAhead() && Distinct(factory.uuid.stream)
      && AllAlone(gameServices, w)
    }

    ghost predicate AllAlone(table: Table<Entity>, w: World)
      reads factory, w, set e: Entity | e in w.entities :: e.proxy
    {
      forall name :: name in table ==>
        |table[name]| == 1 && table[name][0] in w.entities && Settled(table[name][0], w)
    }

    ghost predicate Settled(e: Entity, w: World)
      reads factory, w, e.proxy
    {
      && e in w.entities && e.id in factory.entities && factory.entities[e.id] == e
      && e.entityType == ServiceEntity && e.proxy.ip == ip && e.proxy.port == port
    }

    /** `configured`: the configuration names an address; only then are the create handlers loaded. */
    constructor (configured: bool, ip: string, port: Int32, loginConfig: Option<Login.LoginConfig>,
                 factory: EntityFactory, ghost w: World)
      requires factory.Valid(w) && factory.IdsAhead() && Distinct(factory.uuid.stream)
      ensures Valid(w) && gameServices == map[] && this.factory == factory && this.loginConfig == loginConfig
      ensures this.ip == (if configured then ip else "127.0.0.1")
      ensures this.port == (if configured then port else 8080)
      ensures createHandlers == if configured then {"LoginService"} else {}
    {
      this.ip := if configured then ip else "127.0.0.1";
      this.port := if configured then port else 8080;
      this.loginConfig, this.factory, gameServices := loginConfig, factory, map[];
      createHandlers := if configured then {LOGIN_SERVICE} else {};
    }

    /** A creation leaves the services there are as they are. */
    twostate lemma StaySettled(new w: World)
      requires old(allocated(w)) && old(w.entities) <= w.entities
      requires Registered(old(factory.entities), factory.entities)
      requires forall e :: e in old(w.entities) ==> unchanged(e.proxy)
      ensures forall e :: e in old(w.entities) && old(Settled(e, w)) ==> Settled(e, w)
      ensures old(AllAlone(gameServices, w)) ==> AllAlone(old(gameServices), w)
    {
    }

    lemma RecordKeepsAlone(table: Table<Entity>, name: string, e: Entity, w: World)
      requires AllAlone(table, w) && e in w.entities && Settled(e, w)
      ensures AllAlone(Record(table, name, e), w)
    {
    }

    /** `made` is the service created, if one was; `threw` is the exception for an unknown name. */
    method InitGameService(name: string, ghost w: World) returns (threw: bool, ghost made: Option<Entity>)
      requires Valid(w)
      modifies this`gameServices, factory, factory.uuid, w
      ensures Valid(w)
      ensures threw <==> name != "" && name !in createHandlers
      ensures made.Some? <==> name != "" && !threw
      ensures gameServices == if made.Some? then Record(old(gameServices), name, made.value) else old(gameServices)
      ensures made.None? ==> unchanged(factory) && unchanged(factory.uuid) && unchanged(w)
      ensures made.Some? ==> fresh(made.value) && made.value.id !in old(factory.entities) && Settled(made.value, w)
      ensures made.Some? ==>
                made.value.entityType == ServiceEntity && made.value.proxy.ip == ip && made.value.proxy.port == port
      ensures made.Some? ==> factory.entities == old(factory.entities)[made.value.id := made.value]
      ensures factory.history == old(factory.history) + Creations([made])
      ensures forall e :: e in old(w.entities) && old(Settled(e, w)) ==> Settled(e, w)
    {
      hide EntityFactory.Snapshot, EntityFactory.Valid, AllAlone;
      threw, made := false, None;
      if name == "" {
        return;
      }
      if name in createHandlers {
        var service := factory.CreateEntity(ServiceEntity, ip, port, w);
        StaySettled(w);
        RecordKeepsAlone(gameServices, name, service, w);
        gameServices := Record(gameServices, name, service);
        made := Some(service);
      } else {
        threw := true;
      }
    }

    /** The creations a pass over the names has asked the factory for, in order. */
    static ghost function Creations(made: seq<Option<Entity>>): seq<Call<Entity>> {
      if made == [] then []
      else
        var n := |made| - 1;
        Creations(made[..n]) + if made[n].Some? then [Created(made[n].value.id, made[n].value)] else []
    }

    static lemma CreationsStep(made: seq<Option<Entity>>, one: Option<Entity>)
      ensures Creations(made + [one]) == Creations(made) + Creations([one])
    {
      assert (made + [one])[..|made|] == made && [one][..0] == [];
    }

    /** Creations take nothing out of the index. */
    static lemma {:induction false} CreationsKeep(history: seq<Call<Entity>>, made: seq<Option<Entity>>)
      ensures Registered(Replay(history), Replay(history + Creations(made)))
    {
      var all := history + Creations(made);
      if made == [] {
        assert all == history;
      } else {
        var n := |made| - 1;
        CreationsKeep(history, made[..n]);
        if made[n].Some? {
          assert all[..|all| - 1] == history + Creations(made[..n]);
          assert all[|all| - 1] == Created(made[n].value.id, made[n].value);
        } else {
          assert Creations(made) == Creations(made[..n]);
        }
      }
    }

    /** Every service in `made` is new. */
    twostate predicate AllNew(new made: seq<Option<Entity>>) {
      forall i :: 0 <= i < |made| && made[i].Some? ==> fresh(made[i].value)
    }

    /** No service comes twice in `made`. */
    static ghost predicate NoneTwice(made: seq<Option<Entity>>) {
      forall i, j :: 0 <= i < j < |made| && made[i].Some? ==> made[i] != made[j]
    }

    static lemma OneMore(made: seq<Option<Entity>>, one: Option<Entity>)
      requires NoneTwice(made) && (one.Some? ==> one !in made)
      ensures NoneTwice(made + [one])
    {
    }

    twostate lemma OneMoreSettled(new made: seq<Option<Entity>>, new one: Option<Entity>, new w: World)
      requires old(allocated(w) && allocated(made) && AllSettled(made, w))
      requires one.Some? ==> Settled(one.value, w)
      requires forall e :: e in old(w.entities) && old(Settled(e, w)) ==> Settled(e, w)
      ensures AllSettled(made + [one], w)
    {
      forall i | 0 <= i < |made| && made[i].Some? ensures Settled(made[i].value, w) {
        assert old(Settled(made[i].value, w));
      }
    }

    ghost predicate AllSettled(made: seq<Option<Entity>>, w: World)
      reads factory, w, set i | 0 <= i < |made| && made[i].Some? :: made[i].value.proxy
    {
      forall i :: 0 <= i < |made| && made[i].Some? ==> Settled(made[i].value, w)
    }

    /** A pass over `names`: from which table and history of the factory to which. */
    static ghost predicate Passed(table: Table<Entity>, history: seq<Call<Entity>>, names: seq<string>,
                                  made: seq<Option<Entity>>, table': Table<Entity>, history': seq<Call<Entity>>)
    {
      && MadeForNames(names, made) && NoneTwice(made)
      && table' == Fold(table, names, made)
      && history' == history + Creations(made)
    }

    static lemma PassedNone(table: Table<Entity>, history: seq<Call<Entity>>)
      ensures Passed(table, history, [], [], table, history)
    {
    }

    static lemma PassOneMore(table: Table<Entity>, history: seq<Call<Entity>>, names: seq<string>, i: nat,
                             made: seq<Option<Entity>>, one: Option<Entity>,
                             table': Table<Entity>, history': seq<Call<Entity>>)
      requires i < |names| && Passed(table, history, names[..i], made, table', history')
      requires (one.Some? <==> names[i] != "") && (one.Some? ==> one !in made)
      ensures Passed(table, history, names[..i + 1], made + [one],
                     if one.Some? then Record(table', names[i], one.value) else table', history' + Creations([one]))
    {
      FoldStep(table, names, i, made, one);
      CreationsStep(made, one);
      OneMore(made, one);
      assert history + (Creations(made) + Creations([one])) == history + Creations(made) + Creations([one]);
    }

    /** The loop over the configured names, up to the first unknown one. */
    method InitGameServices(names: seq<string>, ghost w: World) returns (threw: bool, ghost made: seq<Option<Entity>>)
      requires Valid(w)
      modifies this`gameServices, factory, factory.uuid, w
      ensures Valid(w)
      ensures threw <==> AcceptedPrefix(names, createHandlers) < |names|
      ensures Passed(old(gameServices), old(factory.history), names[..AcceptedPrefix(names, createHandlers)], made,
                     gameServices, factory.history)
      ensures AllSettled(made, w) && AllNew(made)
    {
      PassedNone(gameServices, factory.history);
      hide Valid, Settled, Passed;
      threw, made := false, [];
      ghost var k := AcceptedPrefix(names, createHandlers);
      var i := 0;
      while i < |names|
        invariant 0 <= i <= k
        invariant Valid(w) && !threw
        invariant Passed(old(gameServices), old(factory.history), names[..i], made, gameServices, factory.history)
        invariant AllSettled(made, w) && AllNew(made)
      {
        ghost var table, history := gameServices, factory.history;
        label before:
        ghost var one;
        threw, one := InitGameService(names[i], w);
        if threw {
          assert i == k;
          return;
        }
        assert i < k;
        PassOneMore(old(gameServices), old(factory.history), names, i, made, one, table, history);
        OneMoreSettled@before(made, one, w);
        made := made + [one];
        i := i + 1;
      }
      assert names[..i] == names;
    }

    /** The table is the fold over the longest prefix of the list with no unknown name; an exception leaves it there.
        `made[i]` is the service the factory made for the `i`-th name, if that is not empty. So from an empty table
        every name has the service made for its last place. `None` is a configuration without a service section. */
    method InitAllGameServices(services: Option<seq<string>>, ghost w: World)
      returns (threw: bool, ghost made: seq<Option<Entity>>)
      requires Valid(w)
      modifies this`gameServices, factory, factory.uuid, w
      ensures Valid(w)
      ensures services.None? ==> !threw && made == [] && gameServices == old(gameServices)
      ensures services.Some? ==>
                var k := AcceptedPrefix(services.value, createHandlers);
                && (threw <==> k < |services.value|)
                && (threw <==> exists i ::
                      0 <= i < |services.value| && services.value[i] != "" && services.value[i] !in createHandlers)
                && (forall i :: 0 <= i < k ==> services.value[i] == "" || services.value[i] in createHandlers)
                && (threw ==> services.value[k] != "" && services.value[k] !in createHandlers)
                && MadeForNames(services.value[..k], made)
                && gameServices == Fold(old(gameServices), services.value[..k], made)
                && (old(gameServices) == map[] ==> HoldsLastCreated(gameServices, services.value[..k], made))
      ensures factory.history == old(factory.history) + Creations(made)
      ensures AllSettled(made, w) && AllNew(made) && NoneTwice(made)
      ensures Registered(old(factory.entities), factory.entities)
    {
      if services.None? {
        return false, [];
      }
      threw, made := InitGameServices(services.value, w);
      CreationsKeep(old(factory.history), made);
      FoldHoldsLastCreated(services.value[..AcceptedPrefix(services.value, createHandlers)], made);
    }

    /** Whatever was in the index still is. */
    static ghost predicate Registered(before: map<string, Entity>, after: map<string, Entity>) {
      forall id :: id in before ==> id in after && after[id] == before[id]
    }

    /** The service under a name: what all three lookups agree on. */
    function Service(name: string, ghost w: World): (e: Entity?)
      requires Valid(w)
      reads this, factory, factory.uuid, w, w.entities, w.components, set e: Entity | e in w.entities :: e.proxy
      ensures e != null <==> name in gameServices
      ensures e != null ==> gameServices[name] == [e] && Settled(e, w)
    {
      if name in gameServices then gameServices[name][0] else null
    }

    method GetGameService(name: string, ghost w: World) returns (e: Entity?)
      requires Valid(w)
      ensures e == Service(name, w)
    {
      if name in gameServices {
        return gameServices[name][0];
      }
      return null;
    }

    method GetGameServiceById(name: string, id: string, ghost w: World) returns (e: Entity?)
      requires Valid(w)
      ensures e == if Service(name, w) != null && Service(name, w).id == id then Service(name, w) else null
    {
      if name in gameServices {
        var services := gameServices[name];
        for i := 0 to |services|
          invariant forall j :: 0 <= j < i ==> services[j].id != id
        {
          if services[i].id == id {
            return services[i];
          }
        }
      }
      return null;
    }

    method GetLocalGameService(name: string, ghost w: World) returns (e: Entity?)
      requires Valid(w)
      ensures e == Service(name, w)
    {
      if name in gameServices {
        var services := gameServices[name];
        for i := 0 to |services|
          invariant forall j :: 0 <= j < i ==> !services[j].IsLocal(ip, port)
        {
          if services[i].IsLocal(ip, port) {
            return services[i];
          }
        }
      }
      return null;
    }

    /** Without a login service the connection is refused; otherwise the login service decides. */
    method OnClientConnected(connection: AsioTcpConnection, ghost w: World) returns (ok: bool, e: Entity?)
      requires Valid(w)
      modifies factory, factory.uuid, w
      ensures Valid(w)
      ensures ok <==> "LoginService" in gameServices && loginConfig.Some?
      ensures e != null <==> ok && loginConfig.value.entityClass == "ServerEntity"
      ensures ok <==> Login.Decide("LoginService" in gameServices, loginConfig) != Login.Refuse
      ensures e == null ==> unchanged(factory) && unchanged(factory.uuid) && unchanged(w)
      ensures e != null ==>
                && fresh(e) && e.id !in old(factory.entities) && e.proxy.ip == ip && e.proxy.port == port
                && factory.entities == old(factory.entities)[e.id := e]
                && Login.LoggedIn(factory, w, e, connection, loginConfig.value)
    {
      hide EntityFactory.Snapshot;
      var service := GetGameService(LOGIN_SERVICE, w);
      if service == null {
        return false, null;
      }
      ok, e := Login.OnClientConnected(service, loginConfig, factory, connection, w);
      StaySettled(w);
    }
  }
}
