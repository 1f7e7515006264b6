/** The game objects as values: the factory index, the ownership graph and the network components. `E`, `C` and
    `K` are the identities of entities, components and connections. */
module GameSpec {
  import opened Options
  import opened Ownership
  import opened Registries
  import opened DisconnectHandlers

  /** The functions registered as disconnect handlers: the login service's, and any others. */
  datatype Handler = LoginDisconnected | OtherHandler(tag: nat)

  datatype Game<E(==), C(==), K> = Game(
    registry: Registry<E>,
    ids: map<E, string>,
    graph: Graph<E, C>,
    connection: map<C, Option<K>>,
    handlers: map<C, seq<Entry<Handler>>>)

  const LOGIN_SERVICE := "LoginService"

  /** `create_entity` and `create_entity_with_id`, with the id settled: the entity is made, then indexed. */
  function CreateEntity<E(==), C(==), K>(g: Game<E, C, K>, id: string, e: E): Game<E, C, K> {
    g.(registry := Emplace(g.registry, id, e), ids := g.ids[e := id], graph := NewEntity(g.graph, e))
  }

  /** `destroy_entity`; `othersHold`: a shared pointer outside the index holds the entity. */
  function DestroyEntity<E(==), C(==), K>(g: Game<E, C, K>, id: string, othersHold: bool): Game<E, C, K> {
    if id !in g.registry then g
    else
      var g1 := g.(registry := g.registry - {id});
      if othersHold then g1 else g1.(graph := Destruct(g1.graph, g.registry[id]))
  }

  lemma DestroyIs<E, C, K>(g: Game<E, C, K>, id: string, othersHold: bool, g': Game<E, C, K>)
    requires g'.registry == g.registry - {id} && g'.ids == g.ids
    requires g'.connection == g.connection && g'.handlers == g.handlers
    requires g'.graph == if id in g.registry && !othersHold then Destruct(g.graph, g.registry[id]) else g.graph
    ensures g' == DestroyEntity(g, id, othersHold)
  {
    assert id !in g.registry ==> g.registry - {id} == g.registry;
  }

  /** A network component as constructed, without a connection or handlers. */
  function NewNetworkComponent<E(==), C(==), K>(g: Game<E, C, K>, c: C): Game<E, C, K> {
    g.(connection := g.connection[c := None], handlers := g.handlers[c := []])
  }

  /** `init_components`; `c` is the network component made if one is. */
  function InitEntity<E(==), C(==), K>(g: Game<E, C, K>, e: E, names: seq<string>, c: C): Game<E, C, K>
    requires e in g.graph.comps
  {
    var g1 := g.(graph := InitComponents(g.graph, e, names, c));
    if NETWORK_COMPONENT in names && !Has(g.graph, e, NETWORK_COMPONENT) then NewNetworkComponent(g1, c) else g1
  }

  /** The end of a login: the network component, if there is one, takes the connection and the login handler. */
  function BindLogin<E(==), C(==), K>(g: Game<E, C, K>, e: E, k: K): Game<E, C, K> {
    if !Has(g.graph, e, NETWORK_COMPONENT) then g
    else
      var c := g.graph.comps[e][NETWORK_COMPONENT];
      var hs := if c in g.handlers then g.handlers[c] else [];
      g.(connection := g.connection[c := Some(k)],
         handlers := g.handlers[c := Register(hs, LOGIN_SERVICE, LoginDisconnected)])
  }

  /** One whole login. */
  function LogIn<E(==), C(==), K>(g: Game<E, C, K>, id: string, e: E, names: seq<string>, c: C, k: K): Game<E, C, K> {
    BindLogin(InitEntity(CreateEntity(g, id, e), e, names, c), e, k)
  }

  lemma Overwrite<K, V>(m: map<K, V>, k: K, v: V, v': V)
    ensures m[k := v][k := v'] == m[k := v']
  {
  }

  /** A login in one piece: the entity is indexed, and its network component holds the connection and the login
      handler; without a network component in the configuration the connection is not held at all. */
  lemma LogInIs<E, C, K>(g: Game<E, C, K>, id: string, e: E, names: seq<string>, c: C, k: K)
    ensures LogIn(g, id, e, names, c, k) ==
            if "NetworkComponent" in names
            then Game(Emplace(g.registry, id, e), g.ids[e := id],
                      Add(NewEntity(g.graph, e), e, "NetworkComponent", c),
                      g.connection[c := Some(k)],
                      g.handlers[c := [("LoginService", LoginDisconnected)]])
            else g.(registry := Emplace(g.registry, id, e), ids := g.ids[e := id], graph := NewEntity(g.graph, e))
  {
    var g1 := CreateEntity(g, id, e);
    InitComponentsIs(g1.graph, e, names, c);
    if NETWORK_COMPONENT in names {
      Overwrite(g.connection, c, None, Some(k));
      Overwrite(g.handlers, c, [], [(LOGIN_SERVICE, LoginDisconnected)]);
      var none: seq<Entry<Handler>> := [];
      assert Register(none, LOGIN_SERVICE, LoginDisconnected) == [(LOGIN_SERVICE, LoginDisconnected)];
    }
  }
}
