/** `RprUsdLightRegistry` (rprUsd/lightRegistry.cpp): lights by USD path,
    and per-path clients whose callbacks hear about changes. */
module LightRegistry {
  import opened Wrappers

  /** A light handle, a client object and a callback, each by identity. */
  type Light = nat
  type Client = nat
  type Callback = nat

  datatype Registry = Registry(lights: map<string, Light>, clients: map<string, map<Client, Callback>>)

  /** One callback invocation; `light` is None for a null light. */
  datatype Notification = Notification(client: Client, callback: Callback, light: Option<Light>)

  const Empty: Registry := Registry(map[], map[])

  /** The calls made to every client of `path`. */
  function NotifyClients(r: Registry, path: string, light: Option<Light>): (ns: set<Notification>)
    ensures forall n :: n in ns <==>
      path in r.clients && n.client in r.clients[path] && n.callback == r.clients[path][n.client] && n.light == light
  {
    if path !in r.clients then {}
    else set c | c in r.clients[path] :: Notification(c, r.clients[path][c], light)
  }

  /** `Register`: insert or overwrite the light, then call the path's
      clients with it. */
  function Register(r: Registry, path: string, light: Light): (res: (Registry, set<Notification>))
    ensures res.0.lights == r.lights[path := light]
    ensures res.0.clients == r.clients
    ensures res.1 == NotifyClients(r, path, Some(light))
  {
    (r.(lights := r.lights[path := light]), NotifyClients(r, path, Some(light)))
  }

  /** `Release`: erase the light and call the path's clients with null. */
  function Release(r: Registry, path: string): (res: (Registry, set<Notification>))
    ensures path !in res.0.lights
    ensures forall p :: p != path ==> (p in res.0.lights <==> p in r.lights)
    ensures forall p :: p != path && p in r.lights ==> res.0.lights[p] == r.lights[p]
    ensures res.0.clients == r.clients
    ensures res.1 == NotifyClients(r, path, None)
  {
    (r.(lights := r.lights - {path}), NotifyClients(r, path, None))
  }

  /** The light `Get` returns: the registered one, or null. */
  function Lookup(r: Registry, path: string): (l: Option<Light>)
    ensures l.Some? <==> path in r.lights
    ensures l.Some? ==> l.value == r.lights[path]
  {
    if path in r.lights then Some(r.lights[path]) else None
  }

  /** `Get` as written: for a path that already has clients the caller's
      callback goes into a copy of the client map, so the registry keeps
      its old clients; only a path without clients gets a new map. */
  function GetAsWritten(r: Registry, path: string, callback: Callback, client: Client): (res: (Registry, Option<Light>))
    ensures res.1 == Lookup(r, path)
    ensures path in r.clients ==> res.0 == r
    ensures path !in r.clients ==> res.0.clients == r.clients[path := map[client := callback]] && res.0.lights == r.lights
  {
    if path in r.clients then (r, Lookup(r, path))
    else (r.(clients := r.clients[path := map[client := callback]]), Lookup(r, path))
  }

  /** `Get` as evidently intended: the caller is added to (or updated in)
      the path's client map. */
  function Get(r: Registry, path: string, callback: Callback, client: Client): (res: (Registry, Option<Light>))
    ensures res.1 == Lookup(r, path)
    ensures res.0.lights == r.lights
    ensures path in res.0.clients && client in res.0.clients[path] && res.0.clients[path][client] == callback
    ensures forall c :: c != client ==>
      (c in res.0.clients[path] <==> path in r.clients && c in r.clients[path])
    ensures forall p :: p != path ==> (p in res.0.clients <==> p in r.clients)
    ensures forall p :: p != path && p in r.clients ==> res.0.clients[p] == r.clients[p]
  {
    var existing := if path in r.clients then r.clients[path] else map[];
    (r.(clients := r.clients[path := existing[client := callback]]), Lookup(r, path))
  }

  /** `ReleaseClient` as written: the client is erased from a copy, so the
      registry only loses the paths whose sole client it was. */
  function ReleaseClientAsWritten(r: Registry, client: Client): (res: Registry)
    ensures res.lights == r.lights
    ensures forall p :: p in res.clients <==> p in r.clients && r.clients[p] - {client} != map[]
    ensures forall p :: p in res.clients ==> res.clients[p] == r.clients[p]
  {
    r.(clients := map p | p in r.clients && r.clients[p] - {client} != map[] :: r.clients[p])
  }

  /** `ReleaseClient` as evidently intended: the client leaves every map and
      maps left empty are dropped. */
  function ReleaseClient(r: Registry, client: Client): (res: Registry)
    ensures res.lights == r.lights
    ensures forall p :: p in res.clients ==> client !in res.clients[p]
    ensures forall p :: p in res.clients <==> p in r.clients && r.clients[p] - {client} != map[]
    ensures forall p, c :: p in res.clients && c != client ==>
      (c in res.clients[p] <==> c in r.clients[p])
  {
    r.(clients := map p | p in r.clients && r.clients[p] - {client} != map[] :: r.clients[p] - {client})
  }

  /** No path keeps an empty client map. */
  predicate NoEmptyClientMaps(r: Registry) {
    forall p :: p in r.clients ==> r.clients[p] != map[]
  }

  lemma OperationsKeepClientMapsNonEmpty(r: Registry, path: string, light: Light, callback: Callback, client: Client)
    requires NoEmptyClientMaps(r)
    ensures NoEmptyClientMaps(Register(r, path, light).0)
    ensures NoEmptyClientMaps(Release(r, path).0)
    ensures NoEmptyClientMaps(Get(r, path, callback, client).0)
    ensures NoEmptyClientMaps(ReleaseClient(r, client))
  {
    var g := Get(r, path, callback, client).0;
    assert client in g.clients[path];
  }

  /** Registering, then asking, yields the new light; releasing, then
      asking, yields null. */
  lemma RegisterThenGet(r: Registry, path: string, light: Light, callback: Callback, client: Client)
    ensures Get(Register(r, path, light).0, path, callback, client).1 == Some(light)
    ensures Get(Release(r, path).0, path, callback, client).1 == None
  {
  }

  /** A client that asked for a light hears about the next registration of
      that path, and stops hearing once released. */
  lemma {:induction false} GetSubscribes(r: Registry, path: string, light: Light, callback: Callback, client: Client)
    ensures var r1 := Get(r, path, callback, client).0;
      Notification(client, callback, Some(light)) in Register(r1, path, light).1
    ensures var r1 := ReleaseClient(Get(r, path, callback, client).0, client);
      forall n :: n in Register(r1, path, light).1 ==> n.client != client
  {
    var r1 := Get(r, path, callback, client).0;
    assert client in r1.clients[path] && r1.clients[path][client] == callback;
  }

  /** As written, a second client of a path is never subscribed: with client
      1 already listening on `/light`, client 2's `Get` leaves it out of the
      next notification. */
  lemma SecondClientNotSubscribedAsWritten()
    ensures var r := Registry(map[], map["/light" := map[1 := 10]]);
      var r1 := GetAsWritten(r, "/light", 20, 2).0;
      Register(r1, "/light", 7).1 == {Notification(1, 10, Some(7))}
  {
    var r := Registry(map[], map["/light" := map[1 := 10]]);
    var r1 := GetAsWritten(r, "/light", 20, 2).0;
    var ns := Register(r1, "/light", 7).1;
    assert Notification(1, 10, Some(7)) in ns;
    forall n | n in ns ensures n == Notification(1, 10, Some(7)) {
      assert n.client in map[1 := 10];
    }
  }

  /** As written, a released client sharing a path with another client is
      still called back on the next registration. */
  lemma ReleasedClientStillCalledAsWritten()
    ensures var r := Registry(map[], map["/light" := map[1 := 10, 2 := 20]]);
      Notification(1, 10, Some(7)) in Register(ReleaseClientAsWritten(r, 1), "/light", 7).1
  {
    var r := Registry(map[], map["/light" := map[1 := 10, 2 := 20]]);
    assert 2 in r.clients["/light"] - {1};
  }
}
