/** The login service: an entity for every accepted connection, as the configuration describes it. */
module LoginServices {
  import opened Options
  import opened DisconnectHandlers
  import opened AsioTcpConnections
  import G = Ownership
  import opened GameSpec
  import opened Entities
  import opened EntityFactories
  import opened Registries

  datatype LoginConfig = LoginConfig(entityClass: string, entityType: string, components: seq<string>)

  const SERVER_ENTITY := "ServerEntity"

  /** What becomes of an accepted connection. */
  datatype Answer = Refuse | AcceptOnly | MakeEntity

  function Decide(loginService: bool, config: Option<LoginConfig>): (answer: Answer)
    ensures answer == Refuse <==> !(loginService && config.Some?)
    ensures answer == MakeEntity <==> loginService && config.Some? && config.value.entityClass == "ServerEntity"
  {
    if !loginService || config.None? then Refuse
    else if config.value.entityClass == SERVER_ENTITY then MakeEntity
    else AcceptOnly
  }

  /** Everything a login made: the entity under a new id, and its network component if it is configured. */
  ghost predicate LoggedIn(f: EntityFactory, w: World, e: Entity, connection: AsioTcpConnection, config: LoginConfig)
    requires f.Valid(w)
    reads f, f.uuid, w, w.entities, w.components
  {
    && e in w.entities && e.id in f.entities && f.entities[e.id] == e
    && e.entityType == TypeFromString(config.entityType)
    && ("NetworkComponent" in config.components <==> e.GetComponent("NetworkComponent") != null)
    && ("NetworkComponent" in config.components ==>
          var c := e.GetComponent("NetworkComponent");
          && c.connection == connection
          && c.GetOwner() == e
          && c.disconnectHandlers == [("LoginService", LoginDisconnected)])
  }

  /** The last part of a login: hand the connection to the network component. */
  method Bind(network: Component, connection: AsioTcpConnection, ghost w: World)
    requires network in w.components
    modifies network`connection, network`disconnectHandlers
    ensures network.connection == connection
    ensures network.disconnectHandlers == Register(old(network.disconnectHandlers), LOGIN_SERVICE, LoginDisconnected)
    ensures w.Connections() == old(w.Connections())[network := Some(connection)]
    ensures w.Handlers() == old(w.Handlers())[network := network.disconnectHandlers]
  {
    network.SetConnection(connection);
    var _ := network.RegisterDisconnectHandler(LOGIN_SERVICE, LoginDisconnected);
    w.Networked(network);
  }

  /** The part of a login after the creation of `e`: the configured components and the connection. */
  method SetUp(e: Entity, names: seq<string>, connection: AsioTcpConnection, ghost w: World)
    returns (network: Component?)
    requires e.In(w) && e.components == map[]
    modifies e`components, w`components
    ensures e.In(w) && network == e.GetComponent(G.NETWORK_COMPONENT)
    ensures network != null <==> G.NETWORK_COMPONENT in names
    ensures network == null ==> unchanged(w) && w.Graph() == old(w.Graph())
    ensures network != null ==>
              && fresh(network) && network.owner == e && network.connection == connection
              && network.disconnectHandlers == [(LOGIN_SERVICE, LoginDisconnected)]
              && w.components == old(w.components) + {network}
              && w.Graph() == G.Add(old(w.Graph()), e, G.NETWORK_COMPONENT, network)
              && w.Connections() == old(w.Connections())[network := Some(connection)]
              && w.Handlers() == old(w.Handlers())[network := [(LOGIN_SERVICE, LoginDisconnected)]]
  {
    ghost var g, connections, handlers := w.Graph(), w.Connections(), w.Handlers();
    if |names| > 0 {
      ghost var made := e.InitComponents(names, w);
      if made != null { G.InitComponentsIs(g, e, names, made); }
    }
    network := e.GetComponent(G.NETWORK_COMPONENT);
    if network != null {
      Bind(network, connection, w);
      Overwrite(connections, network, None, Some(connection));
      Overwrite(handlers, network, [], [(LOGIN_SERVICE, LoginDisconnected)]);
    }
  }

  /** `self` is the service's own entity; `config` is the login section of the game configuration, if there is one.
      `e` is the entity made, if one was. */
  method OnClientConnected(self: Entity, config: Option<LoginConfig>, factory: EntityFactory,
                           connection: AsioTcpConnection, ghost w: World)
    returns (ok: bool, e: Entity?)
    requires factory.Valid(w) && factory.IdsAhead() && Distinct(factory.uuid.stream)
    requires self in w.entities
    modifies factory, factory.uuid, w
    ensures factory.Valid(w) && factory.IdsAhead()
    ensures ok <==> config.Some?
    ensures e != null <==> config.Some? && config.value.entityClass == "ServerEntity"
    ensures e != null ==> e.entityType == TypeFromString(config.value.entityType)
    ensures e == null ==> unchanged(factory) && unchanged(factory.uuid) && unchanged(w)
    ensures e != null ==> fresh(e.proxy) && e.proxy.ip == self.proxy.ip && e.proxy.port == self.proxy.port
    ensures e != null ==>
              && fresh(e) && e.id == factory.uuid.stream(old(factory.uuid.drawn)) && e.id !in old(factory.entities)
              && factory.entities == old(factory.entities)[e.id := e]
              && w.entities == old(w.entities) + {e}
              && LoggedIn(factory, w, e, connection, config.value)
    ensures e != null && e.GetComponent(G.NETWORK_COMPONENT) != null ==>
              factory.Snapshot(w) == LogIn(old(factory.Snapshot(w)), e.id, e, config.value.components,
                                           e.GetComponent(G.NETWORK_COMPONENT), connection)
    ensures e != null && e.GetComponent(G.NETWORK_COMPONENT) == null ==>
              factory.Snapshot(w) == CreateEntity(old(factory.Snapshot(w)), e.id, e)
  {
    ghost var before := factory.Snapshot(w);
    e := null;
    if config.None? {
      return false, null;
    }
    if config.value.entityClass == SERVER_ENTITY {
      var entity := factory.CreateEntity(TypeFromString(config.value.entityType), self.proxy.ip, self.proxy.port, w);
      e := entity;
      label made:
      var network := SetUp(entity, config.value.components, connection, w);
      factory.StaysValid@made(w);
      if network != null {
        LogInIs(before, e.id, e, config.value.components, network, connection);
      }
    }
    return true, e;
  }

  /** The login handler looks the entity up; nothing is unregistered yet. */
  method OnClientDisconnected(factory: EntityFactory, id: string, ghost w: World) returns (e: Entity?)
    requires factory.Valid(w)
    ensures e == if id in factory.entities then factory.entities[id] else null
  {
    e := factory.GetEntity(id, w);
  }

  /** A disconnect of a component set up by login runs the login handler once, and its lookup finds the entity
      that owns the component. */
  method DisconnectFindsEntity(factory: EntityFactory, e: Entity, connection: AsioTcpConnection, config: LoginConfig,
                               ghost w: World)
    returns (found: Entity?)
    requires factory.Valid(w) && LoggedIn(factory, w, e, connection, config)
    requires G.NETWORK_COMPONENT in config.components
    ensures found == e
  {
    var network := e.GetComponent(G.NETWORK_COMPONENT);
    var calls := network.HandleDisconnect();
    assert calls == [(LoginDisconnected, e.id)];
    found := OnClientDisconnected(factory, calls[0].1, w);
  }
}
