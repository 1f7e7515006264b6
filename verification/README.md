# A verified model of the game server engine

The engine accepts TCP connections, makes an entity for each of them through a login service, and keeps a
connection alive through the network component of its entity. This project models the parts of it that carry
state and proves what they keep, in Dafny 4.11.

- `Decimal`, `EntityProxy`: the position `ip_port_id` of a server entity, printed and parsed, over all strings,
  with `size_t` wrap-around and the bounded conversions `std::to_string` and `std::stoi`.
- `ConnectionSpec`, `ConnectionRuns`, `ConnectionTraces`, `AsioTcpConnection`: one connection as a machine whose
  completions come in any order; what every run keeps; what a run sends, puts on the wire and closes, read off the run
  by a reference that knows no connection; and the object, proved method by method and run by run to follow the machine.
- `Ownership`, `Registry`, `Handlers`: the graph of entities and components, the factory index, and the
  disconnect handlers, each with its operations on values and theorems over all runs.
- `GameSpec`, `Entities`, `EntityFactory`, `LoginService`, `ServiceTable`, `GameMain`: the objects of the game,
  whose methods are proved to change a snapshot of all objects as the operations on values do.
- `Pipeline`: accepting, logging in, reading, writing and destroying entities, for any number of connections whose
  steps interleave.
- `PipelineTraces`: the same seen from one connection, from the index, and from a client that waits to be served.

The class hierarchy is flattened: `Entities.Entity` is `Entity` with `ServerEntity`, `Entities.Component` is
`Component` with `NetworkComponent`, and the login service is its methods over its own entity. Weak pointers are
references that read as null once the entity is destructed. Callbacks of the game are given by the calls they make
on their connection, nested closes included; a callback that throws is one that stops calling. Ghost parameters of
type `World` name all entities and components, so that a method can state what it leaves alone.

## Where the code is undefined or contradicts its comments

- `async_send` (src/network/asio_tcp_connection.cpp:174-200): the idle path calls `front()` on the list it has
  just found empty. The model queues the buffer first, as the comment at 176 and the pop at 214 require.
  `LiteralSendUndefinedIffIdle` shows that this is the only difference.
- `handle_receive` (src/network/asio_tcp_connection.cpp:274-276) arms the next read on the one receive array before
  it delivers. The machine delivers first; `RearmFirstIff` and `CodeOrderStreamIff` say exactly when the order of
  the code delivers the same bytes.
- `async_write_some` may move part of a buffer, and `handle_send` pops all of it. The machine does so too, and
  `WireConservedIff` says exactly when no byte is lost or sent twice.
- Every read fills the one receive array, and a handler runs some time after its read has ended. In the machine these
  are two steps, in any order with others. `OneArrayOneRead` says exactly when delivery can be relied on; a server
  that tells each accepted connection to receive once meets that (`ConnectionsStaySound`).
- `delete_component<T>()` (src/game/basic/entity.h:163-178) has the owner release on the miss branch, behind
  `end()`. The model releases on the hit branch; `LiteralDeleteNeverTight` is about the code as it stands.
- `destroy_entity` (src/game/basic/entity_factory.cpp:44-73) uses the iterator after `erase`, or when it is
  `end()`. The model takes the pointer out, erases, and then flags or destructs the entity; a missing id is a no-op.
- `UUID::get` (src/game/basic/uuid.h:28-33) announces the current id but returns the next one. The model follows
  the code; every returned id is new either way.
- `delete_all_components` (src/game/basic/entity.cpp:25-32) clears the map without releasing owners. The model
  follows the code; `DeleteAllKeepsTightIff` gives the consequence.
- `get_type_from_string` (src/game/basic/server_entity.cpp:39-62) does not know `kFreelyCombinedEntity`
  (`TypeNamesIff`).
- Nothing in the repository installs a disconnect callback, calls `handle_disconnect` or destroys an entity; the fan-out
  theorems and those about destroyed entities are about what such a call does.

## Model

| member | source | states |
|---|---|---|
| Decimal.StoiIsTheGrammar | src/game/basic/entity.h:47 | the port conversion accepts exactly the texts whose decimal prefix lies in `int`, with that number; out of range and no prefix are the two exceptions, each characterised both ways |
| Decimal.StoiUndoesToString | src/game/basic/entity.h:30-47 | `std::stoi` undoes `std::to_string` on every `int`, whatever non-digit text follows |
| Decimal.PrintedIff | src/game/basic/entity.h:30 | the printed text of a number is a minus sign exactly if it is negative, and then the one text without superfluous zeros whose digits, each times the power of ten of its place, add up to the magnitude |
| Decimal.ValueIsPlaces | src/game/basic/entity.h:47 | the value the conversion computes is that sum over the places |
| Decimal.AlphabetIs | src/game/basic/entity.h:47 | the digits, blanks, signs and bounds of the conversion, written out |
| Decimal.LeadingIsIgnored | src/game/basic/entity.h:47 | a leading blank, or a plus sign before a digit, changes nothing |
| Decimal.MinusNegates | src/game/basic/entity.h:47 | a minus sign before a digit negates |
| Decimal.DigitLoop | src/game/basic/entity.h:47 | the digit loop detects overflow exactly when the digits denote too large a magnitude, and its accumulator is typed by the magnitudes an `int` can have |
| Decimal.StoiLoop | src/game/basic/entity.h:47 | the conversion with bounded arithmetic gives the result, and the exception, of the unbounded one |
| EntityProxies.FieldsOf | src/game/basic/entity.h:44-48 | on any string all three `substr` calls return, and what they return is the string cut at its first and last underscore |
| EntityProxies.CutsOnce | src/game/basic/entity.h:44-48 | the cut of a string is unique |
| EntityProxies.ParseFailsOnlyOnThePort | src/game/basic/entity.h:40-57 | parsing succeeds exactly when the port text has a decimal prefix in range, and yields the cut; it never fails in `substr` |
| EntityProxies.RoundTripIff | src/game/basic/entity.h:28-51 | parsing a printed position recovers ip, port and id if and only if neither ip nor id has an underscore |
| EntityProxies.ParsedIsNormal | src/game/basic/entity.h:28-57 | for every accepted string, printing the fields and parsing again gives the same fields |
| EntityProxies.SharesIff | src/game/basic/entity.h:28-31 | an entity shares its printed position with another one if and only if a port could also be read out of its ip, behind an underscore, or out of its id, before one |
| EntityProxies.GetPosLayout | src/game/basic/entity.h:28-31 | a printed position is the ip, the printed port and the id, in this order, with one underscore between each two |
| EntityProxies.GetPosInjective | src/game/basic/entity.h:28-31 | an entity without underscores in ip and id shares its printed position with no other entity at all |
| EntityProxies.GetPosCollides | src/game/basic/entity.h:28-31 | two entities that print alike, and one with an underscore that prints like no other |
| EntityProxies.FactoryIdsRoundTrip | src/game/basic/server_entity.cpp:6-10 | a server entity with a generated id is recovered from its position when its ip has no underscore |
| EntityProxies.EntityProxy.ParsePos | src/game/basic/entity.h:40-57 | the fields after a call: all on success, and on failure only the ip; after a success the printed position parses to the same fields |
| EntityProxies.EntityProxy.SetProxy | src/game/basic/entity.h:59-65 | the three fields are set and the proxy is valid; its printed position parses back to them if and only if ip and id have no underscore |
| ConnectionRuns.RunIsSendSafe | src/network/asio_tcp_connection.cpp:174-227 | in every run a write is in flight exactly when the queue is nonempty, it is one and carries the front, and popped buffers followed by queued ones are the submitted ones in order |
| ConnectionRuns.StepConserves | src/network/asio_tcp_connection.cpp:203-227 | a step keeps wire bytes plus queued bytes equal to submitted bytes if and only if its completion moved all of the buffer on success and nothing on failure |
| ConnectionRuns.WireConservedIff | src/network/asio_tcp_connection.cpp:174-237 | a run conserves bytes in all its states if and only if every completion in it was exact |
| ConnectionRuns.ShortWriteLoses | src/network/asio_tcp_connection.cpp:210-216 | a two-byte buffer of which one byte is moved loses the other |
| ConnectionRuns.CompletionsDrain | src/network/asio_tcp_connection.cpp:203-227 | without new submissions, successes take buffers off the front one by one and failures take none |
| ConnectionRuns.Drains | src/network/asio_tcp_connection.cpp:203-227 | with at most e failures every schedule of completions has at most n + e steps, goes on until the queue of n is empty, and then has n steps beside its failures |
| ConnectionRuns.OnlySuccessesPop | src/network/asio_tcp_connection.cpp:210-227 | in every run exactly the successful completions pop; so without one the queue only grows and a write of the same front stays in flight, on a closed connection too |
| ConnectionRuns.RunClosesOnce | src/network/asio_tcp_connection.cpp:280-303 | in every run, setters and nested closes included, the connection closes at most once, and the disconnect callback runs with it exactly if it was set then; closed stays closed |
| ConnectionRuns.CloseRemembers | src/network/asio_tcp_connection.cpp:280-303 | whether the callback runs is settled by whether it was set when the close came, whatever the callback itself then sets |
| ConnectionRuns.LifeClosesExactlyOnce | src/network/asio_tcp_connection.cpp:58-61 | over a life that the destructor ends there is exactly one close, and one call of the disconnect callback or none as it was set or not at that moment |
| ConnectionRuns.ReadsAreCounted | src/network/asio_tcp_connection.cpp:256-277 | the reads in flight and the chunks that wait for their handler are the reads started by hand less the failed ones; as many chunks are lost as were handled with no callback set |
| ConnectionRuns.ReceiveStreamIff | src/network/asio_tcp_connection.cpp:256-277 | with one read on the array, delivered and waiting chunks are the chunks received, byte for byte and in order, if and only if a callback was set whenever one was handled |
| ConnectionRuns.OneArrayOneRead | src/network/asio_tcp_connection.cpp:256-277 | from any state in which waiting chunks fit the array, and with up to n more starts, every run in which all chunks are heard delivers the stream if and only if there is one read altogether and a waiting chunk is still in the array |
| ConnectionRuns.OneArrayOneReadInEveryLife | src/network/asio_tcp_connection.cpp:256-277 | the same exact condition for every state that a run of a new connection reaches |
| ConnectionRuns.OneStartOnly | src/network/asio_server.cpp:120-127 | a new connection delivers every stream if and only if it is told to receive once at most |
| ConnectionRuns.OverwriteIff | src/network/asio_tcp_connection.cpp:256-262 | a read that ends leaves a waiting chunk in the array if and only if it brings the same bytes as far as both reach |
| ConnectionRuns.SecondReadLoses | src/network/asio_tcp_connection.cpp:256-277 | two reads on the one array that both end before a handler runs: the second chunk is delivered twice |
| ConnectionRuns.AcceptedReadsOnce | src/network/asio_server.cpp:120-127 | a connection told to receive once never has two reads that carry data, none after a failed one, and its stream is the one received if and only if every chunk was heard |
| ConnectionRuns.RearmFirstIff | src/network/asio_tcp_connection.cpp:274-276 | arming before delivering passes on the received chunk if and only if the next read has not filled the array yet, or with the same bytes |
| ConnectionRuns.CodeOrderStreamIff | src/network/asio_tcp_connection.cpp:265-277 | over a whole stream, whatever the callbacks call, the order of the code delivers what was received if and only if a callback was set for every chunk and no chunk overtook a different one |
| ConnectionRuns.UnclearedIsHeard | src/network/asio_tcp_connection.cpp:320-333 | a callback is set for every chunk if it is set at first and no call, nested ones included, clears it |
| ConnectionRuns.CodeOrderLoses | src/network/asio_tcp_connection.cpp:274-276 | a stream of two one-byte chunks that it does not deliver |
| ConnectionRuns.LiteralSendUndefinedIffIdle | src/network/asio_tcp_connection.cpp:177-194 | the code as written is undefined exactly on an idle connection, so on the first send, and agrees with the model otherwise |
| ConnectionTraces.RunDoes | src/network/asio_tcp_connection.cpp:174-333 | over every run, the buffers submitted, the closes, the calls of the disconnect callback and the flags of a connection are those the reference reads off the run, calls nested in callbacks included |
| ConnectionTraces.LifeDoes | src/network/asio_tcp_connection.cpp:174-237 | first in, first out against the run: buffers popped and then queued are the ones the calls of the run sent, in order; and the connection closes, once at most, as the run says |
| ConnectionTraces.BytesCarriedIff | src/network/asio_tcp_connection.cpp:174-237 | in all states of a life, wire and queue carry just the buffers the run has sent so far, if and only if every completion was exact |
| ConnectionTraces.LifeOnTheWire | src/network/asio_tcp_connection.cpp:203-237 | the wire of a life, exact or not: each completion moves bytes from the front of the buffer next in turn, and a success is through with it |
| ConnectionTraces.ClosedIffFailureHandled | src/network/asio_tcp_connection.cpp:265-272 | a connection that the game never closes ends closed if and only if the handler of a failed read has run |
| ConnectionTraces.FailureCloses | src/network/asio_tcp_connection.cpp:265-303 | any read in flight can fail; its handler closes the connection, calls the disconnect callback if it is set, delivers nothing and starts no other read |
| AsioTcpConnections.AsioTcpConnection.constructor | src/network/asio_tcp_connection.h:82-88 | a new connection has nothing queued or in flight, no callback, and a receive array of 1024 bytes |
| AsioTcpConnections.AsioTcpConnection.SetReceiveCallback | src/network/connection.h:67 | the receive callback is set or cleared, and nothing else |
| AsioTcpConnections.AsioTcpConnection.SetDisconnectedCallback | src/network/connection.h:52 | the disconnect callback is set or cleared, and nothing else |
| AsioTcpConnections.AsioTcpConnection.Take | src/network/asio_tcp_connection.cpp:174-303 | every event that is possible takes the object where the step of the machine takes its state |
| AsioTcpConnections.AsioTcpConnection.Live | src/network/asio_tcp_connection.cpp:174-303 | refinement over whole runs: the object ends every legal run in the state the machine ends it in, so the theorems about runs are about the object |
| AsioTcpConnections.AsioTcpConnection.AsyncSend | src/network/asio_tcp_connection.cpp:174-200 | the whole state moves as the machine's send; the result is true exactly when the write starts now |
| AsioTcpConnections.AsioTcpConnection.HandleSend | src/network/asio_tcp_connection.cpp:203-237 | the whole state moves as the machine's completion, on which `RunIsSendSafe`, `WireConservedIff` and `Drains` rest |
| AsioTcpConnections.AsioTcpConnection.StartReceive | src/network/asio_tcp_connection.cpp:256-262 | one more read is in flight and nothing else changes |
| AsioTcpConnections.AsioTcpConnection.HandleReceive | src/network/asio_tcp_connection.cpp:265-277 | an error closes and arms nothing; otherwise the front of the array is delivered and a read armed |
| AsioTcpConnections.AsioTcpConnection.OnReceived | src/network/asio_tcp_connection.cpp:320-333 | the bytes at the front of the array go to the callback, if set, whatever it then calls on the connection |
| AsioTcpConnections.AsioTcpConnection.Close | src/network/asio_tcp_connection.cpp:280-303 | a closed connection is left alone; an open one closes before the callback runs, whatever that then calls |
| Ownership.HeldOnce | src/game/basic/entity.h:122-159 | in a sound graph no component is in two maps, or twice in one |
| Ownership.PlacesAre | src/game/basic/entity.h:122-195 | every operation by its places, a refused or missing one included: which entities there are and what is held where, in terms of what was before |
| Ownership.OwnersAre | src/game/basic/entity.h:122-195 | every operation by its components: whose owner is set, to what, and of which type they are, and that all others stay as they were |
| Ownership.OwnedIffCareful | src/game/basic/entity.h:122-195 | over every run on any number of entities, every component in a map sits under its own type and points back to that entity in all states, if and only if every attach was refused or of a component held nowhere under its own type |
| Ownership.TightIffTidy | src/game/basic/component.cpp:12-23 | besides, a component whose owner can be locked sits in that owner's map in all states, destructions included, if and only if also `delete_all_components` only ever cleared what held nothing |
| Ownership.DeletedIsFree | src/game/basic/entity.h:162-195 | a deleted component is held nowhere and has no owner, no other place in any map has changed, and deleting by type and by handle agree |
| Ownership.DeleteThenAttachMoves | src/game/basic/entity.h:142-195 | deleting a component and attaching it elsewhere moves it: it is held there and only there |
| Ownership.AttachKeepsOwnedIff | src/game/basic/entity.h:142-159 | attaching keeps the graph sound if and only if it is refused, or the component is held nowhere and comes under its own type |
| Ownership.AttachingHeldBreaks | src/game/basic/entity.h:142-159 | a run that puts one component into two maps |
| Ownership.DeleteAllKeepsTightIff | src/game/basic/entity.cpp:25-32 | clearing an entity leaves no dangling owner if and only if it held nothing |
| Ownership.LiteralDeleteNeverTight | src/game/basic/entity.h:162-178 | the code as written, where it is defined, always leaves a component pointing at an entity that no longer holds it |
| Ownership.InitComponentsIs | src/game/basic/entity.cpp:53-63 | a configured list adds the network component once if it names it, however often, and nothing otherwise |
| Registries.LookupIsHistory | src/game/basic/entity_factory.cpp:31-48 | over every history, a lookup finds the first entity created under the id since its last destruction, and null exactly if there is none |
| Registries.Uuid.Get | src/game/basic/uuid.h:28-33 | every id returned is the one just drawn and differs from all drawn before |
| DisconnectHandlers.FirstRegistrationWins | src/game/component/network_component.cpp:47-56 | after any registrations the entries are in key order and a name has its first handler, both ways |
| DisconnectHandlers.LessIsLexicographic | src/game/component/network_component.h:44 | key order is the order of a dictionary: the lesser character at the first difference decides, and a text comes before its continuations |
| DisconnectHandlers.FanOut | src/game/component/network_component.cpp:29-56 | a disconnect makes one call for each registered name and none twice, in key order, of its first handler, with the owner's id; and none without an owner |
| GameSpec.LogInIs | src/game/service/login_service.cpp:44-61 | what one login adds: the indexed entity, and the network component with the connection and the login handler if it is configured |
| Entities.TypeNamesIff | src/game/basic/server_entity.cpp:39-62 | a type is configured by its own name, written out, and every other name means a service entity; so the freely combined type is not configured by its own |
| Entities.Component.GetOwner | src/game/basic/component.cpp:12-23 | the owner is seen exactly while there is one and it lives |
| Entities.Component.RegisterDisconnectHandler | src/game/component/network_component.cpp:47-56 | a taken name is refused and leaves the handlers as they are |
| Entities.Component.HandleDisconnect | src/game/component/network_component.cpp:29-44 | the calls made, in order, with the owner's id; none without a live owner |
| Entities.Entity.constructor | src/game/basic/server_entity.cpp:6-10 | an entity without components joins the graph, with a valid proxy of its id, ip and port |
| Entities.Entity.AddComponent | src/game/basic/entity.h:122-139 | the graph changes as `Ownership.Add`; an existing component is returned and nothing changes |
| Entities.Entity.IsLocal | src/game/basic/server_entity.cpp:27-36 | an entity is local exactly where its address is, and a mirror entity nowhere |
| Entities.Entity.AttachComponent | src/game/basic/entity.h:142-159 | the graph changes as `Ownership.Attach` |
| Entities.Entity.DeleteComponent | src/game/basic/entity.h:162-178 | the graph changes as `Ownership.DeleteKind` |
| Entities.Entity.DeleteComponentHandle | src/game/basic/entity.h:181-195 | the graph changes as `Ownership.DeleteHandle` |
| Entities.Entity.DeleteAllComponents | src/game/basic/entity.cpp:25-32 | the graph changes as `Ownership.DeleteAll` |
| Entities.Entity.Destruct | src/game/basic/entity.cpp:16-22 | the entity leaves the graph |
| Entities.Entity.InitComponents | src/game/basic/entity.cpp:53-63 | the loop over the names changes the graph as `Ownership.InitComponents` |
| EntityFactories.EntityFactory.GetEntity | src/game/basic/entity_factory.cpp:31-39 | the entity found has the id asked for and is the first created under it since its last destruction |
| EntityFactories.EntityFactory.CreateEntity | src/game/basic/entity_factory.h:35-55 | the new entity is indexed under a new id, equal to its own |
| EntityFactories.EntityFactory.CreateEntityWithId | src/game/basic/entity_factory.h:58-69 | an id that is taken keeps its entity; the new one is returned all the same |
| EntityFactories.EntityFactory.DestroyEntity | src/game/basic/entity_factory.cpp:42-74 | the snapshot of all objects changes by the removal of the id, and of the entity too if nothing else holds it; if others do it is flagged |
| ServiceTables.TableIsLastCreated | src/game/game_main.cpp:130-134 | the fold from an empty table holds a list under a name exactly if it is the one entry made for the last place of that name |
| ServiceTables.FoldHoldsLastCreated | src/game/game_main.cpp:101-135 | the same for the whole table: its names are the configured ones, each with the entry made for its last place |
| ServiceTables.FoldIsSingletons | src/game/game_main.cpp:130-134 | every list in the table has one element, so its front exists |
| GameMains.GameMain.InitGameService | src/game/game_main.cpp:32-55 | an empty name is passed over, a name without a handler throws, and a known one has the factory create a new service entity at the address of the game, which is then in its index and alone in the table under the name |
| GameMains.GameMain.constructor | src/game/game_main.cpp:10-26 | the address is the configured one or the default, and the one create handler, for "LoginService", is there exactly if an address is configured |
| GameMains.GameMain.InitAllGameServices | src/game/game_main.cpp:101-116 | it throws exactly if some listed name is neither empty nor known, at the first such; up to there the factory creates one new service for each nonempty name, in order and all distinct; from an empty table, each name then has the service created last for it |
| GameMains.GameMain.GetGameService | src/game/game_main.cpp:57-65 | the one service under the name, or null |
| GameMains.GameMain.GetGameServiceById | src/game/game_main.cpp:68-82 | the same service for its own id, null for any other |
| GameMains.GameMain.GetLocalGameService | src/game/game_main.cpp:85-99 | the same service as the plain lookup, for every name |
| GameMains.GameMain.OnClientConnected | src/game/game_main.cpp:118-127 | the connection is accepted exactly with a "LoginService" in the table and a login section, and an entity made exactly if that asks for a "ServerEntity"; `Pipeline` decides the same |
| LoginServices.OnClientConnected | src/game/service/login_service.cpp:29-70 | accepted exactly with a login section; the snapshot of all objects changes by one login under a new id, of an entity of the configured type at the address of the service; for another class nothing is created |
| LoginServices.DisconnectFindsEntity | src/game/service/login_service.cpp:72-86 | a disconnect after a login calls the login handler once and its lookup finds the entity of the component |
| Pipeline.RunKeepsInv | src/network/asio_server.cpp:109-128 | in every interleaving, connections, index, graph and logins agree with each other |
| Pipeline.ConnectionsStaySound | src/network/asio_server.cpp:73-128 | in every interleaving one accept at most is outstanding, and every connection reads only after it was told to, once, keeps its queue, closes once, and has the chunk that waits for delivery still in its array |
| Pipeline.AcceptingIffNoneFailed | src/network/asio_server.cpp:75-128 | in every interleaving, a server that counts as running has a connection waiting to be accepted if and only if no accept has failed |
| Pipeline.AcceptFailureIsFinal | src/network/asio_server.cpp:109-114 | after one failed accept no connection is ever made again, in every continuation, although the server keeps the status of a running one, in which a later `start` arms nothing |
| Pipeline.LoginsAreDistinct | src/game/service/login_service.cpp:44-53 | distinct connections get distinct entities with distinct ids, and each is registered under its id until that is destroyed |
| Pipeline.RegisteredIffNotDestroyed | src/game/basic/entity_factory.cpp:42-48 | in every interleaving the entity of a login is registered if and only if its id has not been destroyed since it was made |
| Pipeline.HeldIffNotDestroyed | src/game/basic/entity_factory.cpp:42-74 | in every interleaving a connection bound by a login to a network component is held by exactly one registered entity if and only if the id of its entity has not been destroyed |
| Pipeline.SafeHolds | src/game/service/login_service.cpp:44-61 | with a login of class ServerEntity and a network component configured, every connection with a read or a write outstanding is held by exactly one registered entity until the entity of its login is destroyed |
| Pipeline.ReachUnheld | src/game/service/login_service.cpp:44-69 | under any other configuration that reads at all, a run without destructions ends with a reading connection that no entity holds |
| Pipeline.ActiveHeldIffSafe | src/game/service/login_service.cpp:29-70 | in every state of every interleaving, all connections with an operation outstanding are held just until the entity of their login is destroyed, if and only if the configuration is safe |
| Pipeline.DisconnectFindsEntity | src/game/component/network_component.cpp:29-44 | in every interleaving, a disconnect of the component of a logged-in connection whose entity lives calls the login handler once with the id of that entity, under which it is found if and only if the id has not been destroyed |
| PipelineTraces.OfferIs | src/game/game_main.cpp:118-127 | an offered connection is dropped exactly without a callback, a login service or a login section, and gets an entity exactly if that asks for a "ServerEntity" |
| PipelineTraces.SafeIs | src/game/service/login_service.cpp:29-61 | the safe configurations, written out |
| PipelineTraces.AcceptCanFail | src/network/asio_server.cpp:109-114 | any outstanding accept can fail, and that ends accepting |
| PipelineTraces.ConnectionIsItsRun | src/network/asio_server.cpp:109-128 | in every interleaving each connection is in the state that its own events, read off the run, lead a new one to; and it was told to receive exactly if it is served |
| PipelineTraces.EachConnectionIsSound | src/network/asio_tcp_connection.cpp:174-333 | so each of many connections sends, puts on the wire, delivers and closes what its own events say |
| PipelineTraces.IndexIsReplay | src/game/basic/entity_factory.cpp:31-48 | in every interleaving the index is what the calls of the factory made so far leave |
| PipelineTraces.EndsServed | src/network/asio_server.cpp:109-128 | after every run, a client that has come and has not been dropped is served in some continuation if the configuration does not refuse it, and dropped in some if it does |

## Left out

- Sockets, resolver, acceptor options, threads and `io_context`: only "operation started" and "completion delivered
  with an error flag and a byte count" remain, in any order.
- Data races on unsynchronised maps and on the receive array: each step of `Pipeline` and each handler is atomic.
- `connect`, `async_connect` and `handle_connect`: a late completion overwrites the closed status, and nothing says
  what is meant; the public status setter likewise.
- `AsioServer` as an object: `start`, `start_tcp_accept` and `handle_tcp_accept` are steps of `Pipeline` only;
  `stop` and `wait` join threads and are not part of this model.
- The lifetime of buffers: `async_send` keeps a view of the caller's memory, and the model takes its bytes at the call.
- EntityFactories.EntityFactory.DestroyEntity: reference counts are not modelled; whether a shared pointer outside the
  index holds the entity (src/game/basic/entity_factory.cpp:55-61) is a parameter that the caller owes.
- What a callback does beside sending, closing and setting callbacks: a `start_receive` from a callback is an event of
  its own after it, which in `Pipeline` only the server makes, and a callback that replaces itself takes effect once
  it has returned.
- The destruction of a connection with its last holder: in `Pipeline` it goes on, and `ActiveHeldIffSafe` says exactly
  when an operation is outstanding on one that no registered entity holds. The game calls a connection only through a
  component that has it, or from a callback.
- The generator of ids is a stream taken to be without repetition; ids given to `create_entity_with_id` in
  `Pipeline` are taken to be outside it.
- A component constructed directly with an owner that does not hold it: the constructor is used by `add_component`,
  or without an owner.
- Handlers that register or remove handlers while `handle_disconnect` runs.
- `before_destruct` of components, `update`, `render`, `ClientEntity`, names: no effect on the modelled state.
- Configuration files, arguments, JSON and logging: the service list and the login section are inputs.
- UDP: empty in the source.
