/** Connecting, reconnecting, teardown and tunnel timers of clients
    (server/clients/client_service.go, server/client_listener.go), as a state
    machine over steps.

    Client records and tunnels are objects and are told apart by object number,
    so that a stale reference held by an old connection's handler or timer stays
    what it is: one to an object that may no longer be the stored one. */
module Sessions {
  import opened Options

  type ClientId = string
  type Credential = string
  type Conn = nat
  type ClientObj = nat
  type TunnelObj = nat

  /** A tunnel: its object, its number within the client, the connection it runs
      over, and the name of its downstream route, if it has one. */
  datatype Tunnel = Tunnel(obj: TunnelObj, id: nat, conn: Conn, route: Option<string>)

  /** clientdata.Client. `obsolete` records that it has been disconnected for so
      long that lookups ignore it. */
  datatype Client = Client(
    id: ClientId, credential: Credential, session: string, conn: Conn, connected: bool, obsolete: bool,
    tunnels: seq<Tunnel>, lastTunnelId: nat)

  /** Deployment settings. `deleteOnDisconnect`: disconnected clients are not kept. */
  datatype Config = Config(multiuseCreds: bool, deleteOnDisconnect: bool)

  datatype State = State(
    objs: map<ClientObj, Client>,          // every client object there ever was
    repo: map<ClientId, ClientObj>,        // the stored record of each client id
    routes: set<string>,                   // downstream routes
    handlers: map<Conn, ClientObj>,        // connections waiting for their teardown
    timers: set<(ClientObj, Tunnel)>,      // armed idle and auto-close timers
    nextTunnel: TunnelObj,
    conns: set<Conn>,                      // connections seen
    latest: map<ClientId, Conn>)           // connection of the latest successful start

  function Initial(): State {
    State(map[], map[], {}, map[], {}, 0, {}, map[])
  }

  /** Where a start fails, other than by being refused. */
  datatype Fault = NoFault | Early | TunnelsFail(started: nat) | SaveFails

  datatype Request = Request(id: ClientId, credential: Credential, session: string, conn: Conn, tunnels: nat)

  datatype Step =
    | Start(r: Request, obj: ClientObj, fault: Fault)
    | AddTunnel(id: ClientId, route: Option<string>)
    | Teardown(conn: Conn)
    | TimerFires(obj: ClientObj, t: Tunnel)
    | RepeatedRequest(id: ClientId)
    | Heartbeat(id: ClientId)
    | PingFails(id: ClientId)
    | Delete(id: ClientId)
    | Expire(id: ClientId)

  /** GetByID: obsolete records are not found. */
  predicate Known(s: State, id: ClientId) {
    id in s.repo && s.repo[id] in s.objs && !s.objs[s.repo[id]].obsolete
  }

  function Record(s: State, id: ClientId): Client
    requires Known(s, id)
  {
    s.objs[s.repo[id]]
  }

  predicate Active(s: State, id: ClientId) {
    id in s.repo && s.repo[id] in s.objs && s.objs[s.repo[id]].connected
  }

  /** isClientAuthIDInUse. */
  predicate CredentialInUse(s: State, credential: Credential, id: ClientId) {
    exists other :: other in s.repo && other != id && Known(s, other) && Record(s, other).credential == credential
  }

  /** StartClient's checks against an existing record. */
  predicate RefusedByRecord(c: Config, s: State, r: Request) {
    && Known(s, r.id)
    && var stored := Record(s, r.id);
       || (stored.connected && !(r.session != "" && r.session == stored.session))
       || (!c.multiuseCreds && stored.credential != "" && stored.credential != r.credential)
  }

  predicate Refused(c: Config, s: State, r: Request) {
    RefusedByRecord(c, s, r) || (!c.multiuseCreds && CredentialInUse(s, r.credential, r.id))
  }

  function RoutesOf(tunnels: seq<Tunnel>): set<string> {
    set t | t in tunnels && t.route.Some? :: t.route.value
  }

  /** releaseTunnelsForReconnect: the routes of the old record go. */
  function Released(s: State, id: ClientId): State {
    if Known(s, id) then s.(routes := s.routes - RoutesOf(Record(s, id).tunnels)) else s
  }

  /** The tunnels a start creates. Requested by the agent, they have no route. */
  function Fresh(first: TunnelObj, firstId: nat, conn: Conn, n: nat): (ts: seq<Tunnel>)
    ensures |ts| == n
  {
    seq(n, k requires 0 <= k < n => Tunnel(first + k, firstId + k, conn, None))
  }

  /** NewClientFromConnRequest and the tunnels started for it: the existing object
      is overwritten in place, or a new one made. */
  function TakenOver(s: State, r: Request, obj: ClientObj, started: nat): Client {
    var n := if obj in s.objs then s.objs[obj].lastTunnelId else 0;
    Client(r.id, r.credential, r.session, r.conn, true, false,
           Fresh(s.nextTunnel, n + 1, r.conn, started), n + started)
  }

  /** The object a start works on. */
  predicate RightObject(s: State, r: Request, obj: ClientObj) {
    if Known(s, r.id) then obj == s.repo[r.id] else obj !in s.objs
  }

  predicate Enabled(c: Config, s: State, step: Step) {
    match step
    case Start(r, obj, fault) =>
      && r.conn !in s.conns && RightObject(s, r, obj)
      && (fault.TunnelsFail? ==> fault.started < r.tunnels)
    case AddTunnel(id, _) => Active(s, id)
    case Teardown(conn) => conn in s.handlers
    case TimerFires(obj, t) => (obj, t) in s.timers
    case RepeatedRequest(id) => Active(s, id)
    case Heartbeat(id) => Known(s, id)
    case PingFails(id) => Active(s, id)
    case Delete(id) => id in s.repo
    case Expire(id) => id in s.repo && s.repo[id] in s.objs && !s.objs[s.repo[id]].connected
  }

  function Put(s: State, obj: ClientObj, client: Client): State {
    s.(objs := s.objs[obj := client])
  }

  /** StartClient: the connection has been seen. */
  function Begun(s: State, r: Request): State {
    s.(conns := s.conns + {r.conn})
  }

  /** The old listeners and routes released, the record taken over in memory. */
  function Taking(s: State, r: Request, obj: ClientObj, started: nat): State {
    Put(Released(Begun(s, r), r.id), obj, TakenOver(s, r, obj, started))
      .(nextTunnel := s.nextTunnel + started)
  }

  /** The start succeeded: the record is saved, a handler waits for the
      connection to end, and the tunnels' timers are armed. */
  function Registered(s: State, r: Request, obj: ClientObj): State
    requires obj in s.objs
  {
    s.(repo := s.repo[r.id := obj], handlers := s.handlers[r.conn := obj],
       timers := s.timers + (set t | t in s.objs[obj].tunnels :: (obj, t)),
       latest := s.latest[r.id := r.conn])
  }

  function Started(c: Config, s: State, r: Request, obj: ClientObj, fault: Fault): State {
    if fault.Early? || RefusedByRecord(c, s, r) then Begun(s, r)
    else if !c.multiuseCreds && CredentialInUse(s, r.credential, r.id) then Released(Begun(s, r), r.id)
    else if fault == NoFault then Registered(Taking(s, r, obj, r.tunnels), r, obj)
    else Taking(s, r, obj, if fault.TunnelsFail? then fault.started else r.tunnels)
  }

  /** Terminate. */
  function Terminated(c: Config, s: State, obj: ClientObj): State
    requires obj in s.objs
  {
    var id := s.objs[obj].id;
    if c.deleteOnDisconnect then s.(repo := s.repo - {id})
    else
      var s1 := Put(s, obj, s.objs[obj].(connected := false, obsolete := false));
      if Known(s1, id) then s1.(repo := s1.repo[id := obj]) else s1
  }

  function Apply(c: Config, s: State, step: Step): State
    requires Enabled(c, s, step)
  {
    match step
    case Start(r, obj, fault) => Started(c, s, r, obj, fault)
    case AddTunnel(id, route) =>
      var obj := s.repo[id];
      var stored := s.objs[obj];
      var t := Tunnel(s.nextTunnel, stored.lastTunnelId + 1, stored.conn, route);
      Put(s, obj, stored.(tunnels := stored.tunnels + [t], lastTunnelId := stored.lastTunnelId + 1))
        .(nextTunnel := s.nextTunnel + 1, timers := s.timers + {(obj, t)},
          routes := if route.Some? then s.routes + {route.value} else s.routes)
    case Teardown(conn) =>
      var obj := s.handlers[conn];
      var s1 := s.(handlers := s.handlers - {conn}, timers := set e | e in s.timers && e.1.conn != conn);
      if obj in s.objs && s.objs[obj].conn == conn then Terminated(c, s1, obj) else s1
    case TimerFires(obj, t) =>
      var s1 := s.(timers := s.timers - {(obj, t)});
      if obj in s.objs && t in s.objs[obj].tunnels then
        var stored := s.objs[obj];
        var kept := Keep(stored.tunnels, t.id);
        Put(s1, obj, stored.(tunnels := kept))
          .(routes := if t.route.Some? then s.routes - {t.route.value} else s.routes,
            repo := s.repo[stored.id := obj])
      else s1
    case RepeatedRequest(id) => Terminated(c, s, s.repo[id])
    case Heartbeat(id) => Put(s, s.repo[id], s.objs[s.repo[id]].(connected := true))
    case PingFails(id) => Put(s, s.repo[id], s.objs[s.repo[id]].(connected := false, obsolete := false))
    case Delete(id) => s.(repo := s.repo - {id})
    case Expire(id) => Put(s, s.repo[id], s.objs[s.repo[id]].(obsolete := true))
  }

  /** RemoveTunnelByID. */
  function Keep(tunnels: seq<Tunnel>, id: nat): seq<Tunnel> {
    if tunnels == [] then []
    else
      var n := |tunnels| - 1;
      Keep(tunnels[..n], id) + if tunnels[n].id == id then [] else [tunnels[n]]
  }

  ghost predicate Run(c: Config, states: seq<State>, steps: seq<Step>) {
    && |states| == |steps| + 1
    && states[0] == Initial()
    && forall k :: 0 <= k < |steps| ==> Enabled(c, states[k], steps[k]) && states[k + 1] == Apply(c, states[k], steps[k])
  }

  // --- What holds of every object, in every run -------------------------------------------

  /** A client's tunnels all run over its current connection and have numbers of
      their own. */
  ghost predicate GoodClient(s: State, c: Client) {
    && (forall i :: 0 <= i < |c.tunnels| ==>
          c.tunnels[i].conn == c.conn && c.tunnels[i].id <= c.lastTunnelId)
    && (forall i, j :: 0 <= i < j < |c.tunnels| ==> c.tunnels[i].id != c.tunnels[j].id)
    && c.conn in s.conns && (c.obsolete ==> !c.connected)
  }

  ghost predicate ObjectInv(s: State) {
    && (forall obj :: obj in s.objs ==> GoodClient(s, s.objs[obj]))
    && (forall id :: id in s.repo ==> s.repo[id] in s.objs && s.objs[s.repo[id]].id == id)
    && (forall conn :: conn in s.handlers ==> s.handlers[conn] in s.objs && conn in s.conns)
    && (forall id :: id in s.latest ==> s.latest[id] in s.conns)
  }

  lemma GoodClientFrame(s: State, s': State, c: Client)
    requires GoodClient(s, c) && s.conns <= s'.conns
    ensures GoodClient(s', c)
  {}

  lemma {:induction false} KeepIsFilter(tunnels: seq<Tunnel>, id: nat)
    ensures forall t :: t in Keep(tunnels, id) <==> t in tunnels && t.id != id
    ensures |Keep(tunnels, id)| <= |tunnels|
  {
    if tunnels != [] {
      KeepIsFilter(tunnels[..|tunnels| - 1], id);
    }
  }

  ghost predicate DistinctIds(tunnels: seq<Tunnel>) {
    forall i, j :: 0 <= i < j < |tunnels| ==> tunnels[i].id != tunnels[j].id
  }

  lemma {:induction false} KeepDistinct(tunnels: seq<Tunnel>, id: nat)
    requires DistinctIds(tunnels)
    ensures DistinctIds(Keep(tunnels, id))
  {
    if tunnels != [] {
      var n := |tunnels| - 1;
      var front := Keep(tunnels[..n], id);
      KeepDistinct(tunnels[..n], id);
      KeepIsFilter(tunnels[..n], id);
      forall i | 0 <= i < |front| ensures front[i].id != tunnels[n].id {
        assert front[i] in tunnels[..n];
      }
    }
  }

  lemma KeepGood(s: State, c: Client, id: nat)
    requires GoodClient(s, c)
    ensures GoodClient(s, c.(tunnels := Keep(c.tunnels, id)))
  {
    KeepDistinct(c.tunnels, id);
    KeepIsFilter(c.tunnels, id);
    var kept := Keep(c.tunnels, id);
    forall i | 0 <= i < |kept| ensures kept[i].conn == c.conn && kept[i].id <= c.lastTunnelId {
      assert kept[i] in c.tunnels;
    }
  }

  lemma PutKeepsObjects(s: State, obj: ClientObj, client: Client)
    requires ObjectInv(s) && GoodClient(s, client)
    requires obj in s.objs ==> s.objs[obj].id == client.id
    ensures ObjectInv(Put(s, obj, client))
  {
    var s' := Put(s, obj, client);
    forall o | o in s'.objs ensures GoodClient(s', s'.objs[o]) {
      GoodClientFrame(s, s', s'.objs[o]);
    }
  }

  /** Steps that leave objects, records and connections alone. */
  lemma ObjectsFrame(s: State, s': State)
    requires ObjectInv(s)
    requires s'.objs == s.objs && s'.conns == s.conns && s'.latest == s.latest
    requires forall conn :: conn in s'.handlers ==> conn in s.handlers && s'.handlers[conn] == s.handlers[conn]
    requires forall id :: id in s'.repo ==> s'.repo[id] in s.objs && s.objs[s'.repo[id]].id == id
    ensures ObjectInv(s')
  {
    forall o | o in s'.objs ensures GoodClient(s', s'.objs[o]) {
      GoodClientFrame(s, s', s.objs[o]);
    }
  }

  lemma TakenOverIsGood(s: State, r: Request, obj: ClientObj, started: nat)
    ensures GoodClient(s.(conns := s.conns + {r.conn}), TakenOver(s, r, obj, started))
  {}

  lemma TakenOverId(s: State, r: Request, obj: ClientObj, started: nat)
    ensures TakenOver(s, r, obj, started).id == r.id && TakenOver(s, r, obj, started).conn == r.conn
    ensures TakenOver(s, r, obj, started).credential == r.credential && !TakenOver(s, r, obj, started).obsolete
  {}

  lemma BegunKeepsObjects(s: State, r: Request)
    requires ObjectInv(s)
    ensures ObjectInv(Begun(s, r)) && ObjectInv(Released(Begun(s, r), r.id))
  {
    hide GoodClient;
    var s0 := Begun(s, r);
    forall o | o in s0.objs ensures GoodClient(s0, s0.objs[o]) {
      GoodClientFrame(s, s0, s.objs[o]);
    }
    ObjectsFrame(s0, Released(s0, r.id));
  }

  lemma TakingKeepsObjects(s: State, r: Request, obj: ClientObj, started: nat)
    requires ObjectInv(s) && RightObject(s, r, obj)
    ensures ObjectInv(Taking(s, r, obj, started))
  {
    hide GoodClient, TakenOver;
    BegunKeepsObjects(s, r);
    var s1 := Released(Begun(s, r), r.id);
    var client := TakenOver(s, r, obj, started);
    TakenOverIsGood(s, r, obj, started);
    TakenOverId(s, r, obj, started);
    GoodClientFrame(Begun(s, r), s1, client);
    PutKeepsObjects(s1, obj, client);
    ObjectsFrame(Put(s1, obj, client), Taking(s, r, obj, started));
  }

  lemma RegisteredKeepsObjects(s: State, r: Request, obj: ClientObj)
    requires ObjectInv(s) && obj in s.objs && s.objs[obj].id == r.id && r.conn in s.conns
    ensures ObjectInv(Registered(s, r, obj))
  {
    hide GoodClient;
    var s' := Registered(s, r, obj);
    forall o | o in s'.objs ensures GoodClient(s', s'.objs[o]) {
      GoodClientFrame(s, s', s.objs[o]);
    }
  }

  lemma StartKeepsObjects(c: Config, s: State, r: Request, obj: ClientObj, fault: Fault)
    requires ObjectInv(s) && Enabled(c, s, Start(r, obj, fault))
    ensures ObjectInv(Started(c, s, r, obj, fault))
  {
    hide CredentialInUse, RefusedByRecord, TakenOver, GoodClient, ObjectInv;
    BegunKeepsObjects(s, r);
    TakingKeepsObjects(s, r, obj, r.tunnels);
    TakenOverId(s, r, obj, r.tunnels);
    RegisteredKeepsObjects(Taking(s, r, obj, r.tunnels), r, obj);
    if fault.TunnelsFail? {
      TakingKeepsObjects(s, r, obj, fault.started);
    }
  }

  lemma TerminatedKeepsObjects(c: Config, s: State, obj: ClientObj)
    requires ObjectInv(s) && obj in s.objs
    ensures ObjectInv(Terminated(c, s, obj))
  {
    var client := s.objs[obj].(connected := false, obsolete := false);
    assert GoodClient(s, s.objs[obj]);
    assert GoodClient(s, client);
    hide GoodClient;
    PutKeepsObjects(s, obj, client);
    var s1 := Put(s, obj, client);
    ObjectsFrame(if c.deleteOnDisconnect then s else s1, Terminated(c, s, obj));
  }

  lemma AddTunnelKeepsObjects(c: Config, s: State, id: ClientId, route: Option<string>)
    requires ObjectInv(s) && Enabled(c, s, AddTunnel(id, route))
    ensures ObjectInv(Apply(c, s, AddTunnel(id, route)))
  {
    var obj := s.repo[id];
    var stored := s.objs[obj];
    var t := Tunnel(s.nextTunnel, stored.lastTunnelId + 1, stored.conn, route);
    var client := stored.(tunnels := stored.tunnels + [t], lastTunnelId := stored.lastTunnelId + 1);
    assert GoodClient(s, stored);
    assert GoodClient(s, client);
    hide GoodClient;
    PutKeepsObjects(s, obj, client);
    ObjectsFrame(Put(s, obj, client), Apply(c, s, AddTunnel(id, route)));
  }

  lemma TimerKeepsObjects(c: Config, s: State, obj: ClientObj, t: Tunnel)
    requires ObjectInv(s) && Enabled(c, s, TimerFires(obj, t))
    ensures ObjectInv(Apply(c, s, TimerFires(obj, t)))
  {
    hide GoodClient, Keep;
    var s1 := s.(timers := s.timers - {(obj, t)});
    ObjectsFrame(s, s1);
    if obj in s.objs && t in s.objs[obj].tunnels {
      KeepGood(s, s.objs[obj], t.id);
      var client := s.objs[obj].(tunnels := Keep(s.objs[obj].tunnels, t.id));
      GoodClientFrame(s, s1, client);
      PutKeepsObjects(s1, obj, client);
      ObjectsFrame(Put(s1, obj, client), Apply(c, s, TimerFires(obj, t)));
    }
  }

  lemma FlagsKeepObjects(s: State, obj: ClientObj, connected: bool, obsolete: bool)
    requires ObjectInv(s) && obj in s.objs && (obsolete ==> !connected)
    ensures ObjectInv(Put(s, obj, s.objs[obj].(connected := connected, obsolete := obsolete)))
  {
    assert GoodClient(s, s.objs[obj]);
    PutKeepsObjects(s, obj, s.objs[obj].(connected := connected, obsolete := obsolete));
  }

  lemma ObjectStep(c: Config, s: State, step: Step)
    requires ObjectInv(s) && Enabled(c, s, step)
    ensures ObjectInv(Apply(c, s, step))
  {
    hide GoodClient, Started, Terminated, Keep;
    match step
    case Start(r, obj, fault) => StartKeepsObjects(c, s, r, obj, fault);
    case AddTunnel(id, route) => AddTunnelKeepsObjects(c, s, id, route);
    case Teardown(conn) =>
      var s1 := s.(handlers := s.handlers - {conn}, timers := set e | e in s.timers && e.1.conn != conn);
      ObjectsFrame(s, s1);
      TerminatedKeepsObjects(c, s1, s.handlers[conn]);
    case TimerFires(obj, t) => TimerKeepsObjects(c, s, obj, t);
    case RepeatedRequest(id) => TerminatedKeepsObjects(c, s, s.repo[id]);
    case Heartbeat(id) => FlagsKeepObjects(s, s.repo[id], true, false);
    case PingFails(id) => FlagsKeepObjects(s, s.repo[id], false, false);
    case Delete(id) => ObjectsFrame(s, Apply(c, s, step));
    case Expire(id) => FlagsKeepObjects(s, s.repo[id], false, true);
  }

  lemma {:induction false} ObjectInvariant(c: Config, states: seq<State>, steps: seq<Step>, k: nat)
    requires Run(c, states, steps) && k < |states|
    ensures ObjectInv(states[k])
  {
    hide Apply, Enabled;
    if k > 0 {
      ObjectInvariant(c, states, steps, k - 1);
      ObjectStep(c, states[k - 1], steps[k - 1]);
    }
  }

  /** Armed timers and stored records are of clients that have started. */
  ghost predicate ArmedInv(s: State) {
    && (forall e :: e in s.timers ==> e.0 in s.objs && s.objs[e.0].id in s.latest)
    && (forall id :: id in s.repo ==> id in s.latest)
  }

  lemma TerminatedKeepsArmed(c: Config, s: State, obj: ClientObj)
    requires ObjectInv(s) && ArmedInv(s) && obj in s.objs
    ensures ArmedInv(Terminated(c, s, obj))
  {
    hide GoodClient;
  }

  lemma TakingKeepsArmed(s: State, r: Request, obj: ClientObj, started: nat)
    requires ObjectInv(s) && ArmedInv(s) && RightObject(s, r, obj)
    ensures
      var s' := Taking(s, r, obj, started);
      ArmedInv(s') && obj in s'.objs && s'.objs[obj].id == r.id
  {
    hide GoodClient, TakenOver;
    TakenOverId(s, r, obj, started);
  }

  lemma StartKeepsArmed(c: Config, s: State, r: Request, obj: ClientObj, fault: Fault)
    requires ObjectInv(s) && ArmedInv(s) && Enabled(c, s, Start(r, obj, fault))
    ensures ArmedInv(Started(c, s, r, obj, fault))
  {
    hide ObjectInv, Taking, CredentialInUse, RefusedByRecord;
    TakingKeepsArmed(s, r, obj, if fault.TunnelsFail? then fault.started else r.tunnels);
  }

  lemma ArmedStep(c: Config, s: State, step: Step)
    requires ObjectInv(s) && ArmedInv(s) && Enabled(c, s, step)
    ensures ArmedInv(Apply(c, s, step))
  {
    hide GoodClient, Started, Keep;
    match step
    case Start(r, obj, fault) => StartKeepsArmed(c, s, r, obj, fault);
    case Teardown(conn) =>
      hide Terminated;
      var s1 := s.(handlers := s.handlers - {conn}, timers := set e | e in s.timers && e.1.conn != conn);
      ObjectsFrame(s, s1);
      TerminatedKeepsArmed(c, s1, s.handlers[conn]);
    case RepeatedRequest(id) =>
      hide Terminated;
      TerminatedKeepsArmed(c, s, s.repo[id]);
    case TimerFires(_, _) => TimerKeepsArmed(c, s, step);
    case _ => UpdateKeepsArmed(c, s, step);
  }

  lemma TimerKeepsArmed(c: Config, s: State, step: Step)
    requires ObjectInv(s) && ArmedInv(s) && Enabled(c, s, step) && step.TimerFires?
    ensures ArmedInv(Apply(c, s, step))
  {
    hide GoodClient, Keep;
  }

  lemma UpdateKeepsArmed(c: Config, s: State, step: Step)
    requires ObjectInv(s) && ArmedInv(s) && Enabled(c, s, step)
    requires step.AddTunnel? || step.Heartbeat? || step.PingFails? || step.Delete? || step.Expire?
    ensures ArmedInv(Apply(c, s, step))
  {
    hide GoodClient;
  }

  lemma {:induction false} ArmedInvariant(c: Config, states: seq<State>, steps: seq<Step>, k: nat)
    requires Run(c, states, steps) && k < |states|
    ensures ArmedInv(states[k])
  {
    hide Apply, Enabled;
    if k > 0 {
      ArmedInvariant(c, states, steps, k - 1);
      ObjectInvariant(c, states, steps, k - 1);
      ArmedStep(c, states[k - 1], steps[k - 1]);
    }
  }

  // --- What timers and teardowns do to current sessions -----------------------------------

  /** The stored record of a client id is the same object with the same content. */
  predicate SameRecord(s: State, s': State, id: ClientId) {
    && id in s.repo && id in s'.repo && s'.repo[id] == s.repo[id]
    && s.repo[id] in s.objs && s.repo[id] in s'.objs && s'.objs[s.repo[id]] == s.objs[s.repo[id]]
  }

  /** After a reconnect has taken a record over, a timer of the connection before
      changes no tunnel, route or record, even if a current tunnel has the same
      number; it only disarms itself. */
  lemma SupersededTimerHarmless(c: Config, states: seq<State>, steps: seq<Step>, k: nat, obj: ClientObj, t: Tunnel)
    requires Run(c, states, steps) && k < |states| && (obj, t) in states[k].timers
    requires obj in states[k].objs && t.conn != states[k].objs[obj].conn
    ensures Apply(c, states[k], TimerFires(obj, t)) == states[k].(timers := states[k].timers - {(obj, t)})
  {
    ObjectInvariant(c, states, steps, k);
    var s := states[k];
    assert GoodClient(s, s.objs[obj]);
    assert t !in s.objs[obj].tunnels;
  }

  /** In every run, a timer leaves a known record as it is exactly unless the
      object it holds belongs to that id and still lists the tunnel, be that
      object the record or one the record has replaced. */
  lemma TimerLeavesRecordIff(c: Config, states: seq<State>, steps: seq<Step>, k: nat, obj: ClientObj, t: Tunnel, id: ClientId)
    requires Run(c, states, steps) && k < |states| && (obj, t) in states[k].timers && Known(states[k], id)
    ensures
      var s := states[k];
      && obj in s.objs
      && (SameRecord(s, Apply(c, s, TimerFires(obj, t)), id) <==> !(s.objs[obj].id == id && t in s.objs[obj].tunnels))
  {
    ObjectInvariant(c, states, steps, k);
    ArmedInvariant(c, states, steps, k);
    var s := states[k];
    KeepIsFilter(s.objs[obj].tunnels, t.id);
    hide GoodClient, Keep;
    if s.objs[obj].id == id && t in s.objs[obj].tunnels {
      assert t !in Keep(s.objs[obj].tunnels, t.id);
    }
  }

  /** In every run, a timer takes the route of a tunnel of a known record away
      exactly if its own tunnel goes by the same route and the object it holds
      still lists it. */
  lemma TimerTakesRouteIff(c: Config, states: seq<State>, steps: seq<Step>, k: nat, obj: ClientObj, t: Tunnel, id: ClientId, u: Tunnel)
    requires Run(c, states, steps) && k < |states| && (obj, t) in states[k].timers && Known(states[k], id)
    requires u in Record(states[k], id).tunnels && u.route.Some? && u.route.value in states[k].routes
    ensures
      var s := states[k];
      && obj in s.objs
      && (u.route.value !in Apply(c, s, TimerFires(obj, t)).routes <==> t in s.objs[obj].tunnels && t.route == u.route)
  {
    ArmedInvariant(c, states, steps, k);
  }

  /** A timer of a current tunnel removes that tunnel and no other, although it
      removes by number. */
  lemma CurrentTimerRemovesOwnTunnel(c: Config, states: seq<State>, steps: seq<Step>, k: nat, obj: ClientObj, t: Tunnel, u: Tunnel)
    requires Run(c, states, steps) && k < |states| && (obj, t) in states[k].timers
    requires obj in states[k].objs && t in states[k].objs[obj].tunnels
    ensures
      var s' := Apply(c, states[k], TimerFires(obj, t));
      u in s'.objs[obj].tunnels <==> u in states[k].objs[obj].tunnels && u != t
  {
    ObjectInvariant(c, states, steps, k);
    var s := states[k];
    assert GoodClient(s, s.objs[obj]);
    KeepIsFilter(s.objs[obj].tunnels, t.id);
  }

  /** In every run, a teardown leaves the known record of a client id as it is,
      unless the object its handler holds belongs to that id and still carries
      the handler's connection, and there is something to change: records are
      deleted on disconnect, the record is another object, or it is connected. */
  lemma TeardownLeavesRecordIff(c: Config, states: seq<State>, steps: seq<Step>, k: nat, conn: Conn, id: ClientId)
    requires Run(c, states, steps) && k < |states| && conn in states[k].handlers && Known(states[k], id)
    ensures
      var s, obj := states[k], states[k].handlers[conn];
      && obj in s.objs
      && (SameRecord(s, Apply(c, s, Teardown(conn)), id) <==>
            !(s.objs[obj].conn == conn && s.objs[obj].id == id
              && (c.deleteOnDisconnect || s.repo[id] != obj || s.objs[obj].connected)))
  {
    ObjectInvariant(c, states, steps, k);
    hide GoodClient;
  }
}
