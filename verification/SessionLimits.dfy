/** Runs of the session machine in which a record, a credential or a route is
    lost: the cases the exact conditions on timers, teardowns and records shut
    out. */
module SessionLimits {
  import opened Options
  import opened Sessions
  import SessionRecords

  ghost predicate Reachable(c: Config, s: State) {
    exists states, steps :: Run(c, states, steps) && states[|states| - 1] == s
  }

  lemma ReachInitial(c: Config)
    ensures Reachable(c, Initial())
  {
    assert Run(c, [Initial()], []);
  }

  lemma ReachStep(c: Config, s: State, step: Step)
    requires Reachable(c, s) && Enabled(c, s, step)
    ensures Reachable(c, Apply(c, s, step))
  {
    hide Apply, Enabled;
    var states, steps :| Run(c, states, steps) && states[|states| - 1] == s;
    assert Run(c, states + [Apply(c, s, step)], steps + [step]);
  }

  /** A start of a new client that succeeds without tunnels. */
  function Joined(s: State, r: Request, obj: ClientObj): State {
    var client := Client(r.id, r.credential, r.session, r.conn, true, false, [], 0);
    s.(objs := s.objs[obj := client], repo := s.repo[r.id := obj], conns := s.conns + {r.conn},
       handlers := s.handlers[r.conn := obj], latest := s.latest[r.id := r.conn])
  }

  lemma ReachJoined(c: Config, s: State, r: Request, obj: ClientObj)
    requires Reachable(c, s) && r.conn !in s.conns && r.tunnels == 0
    requires !Known(s, r.id) && obj !in s.objs && !Refused(c, s, r)
    ensures Reachable(c, Joined(s, r, obj))
  {
    hide Reachable;
    var step := Start(r, obj, NoFault);
    ReachStep(c, s, step);
    var client := Client(r.id, r.credential, r.session, r.conn, true, false, [], 0);
    assert TakenOver(s, r, obj, 0) == client;
    assert Apply(c, s, step).timers == s.timers + (set t | t in client.tunnels :: (obj, t)) == s.timers;
    assert Apply(c, s, step) == Joined(s, r, obj);
  }

  /** The state after one client has connected over connection 1. */
  function OneClient(id: ClientId, credential: Credential): State {
    State(map[0 := Client(id, credential, "s", 1, true, false, [], 0)], map[id := 0], {}, map[1 := 0], {}, 0, {1},
          map[id := 1])
  }

  lemma ReachOneClient(c: Config, id: ClientId, credential: Credential)
    ensures Reachable(c, OneClient(id, credential))
  {
    hide Reachable;
    ReachInitial(c);
    var r := Request(id, credential, "s", 1, 0);
    ReachJoined(c, Initial(), r, 0);
    assert Joined(Initial(), r, 0) == OneClient(id, credential);
  }

  /** The client's record was deleted and it has registered again. */
  function Again(id: ClientId, credential: Credential, another: Credential): State {
    var one := OneClient(id, credential);
    Joined(one.(repo := map[]), Request(id, another, "t", 2, 0), 1)
  }

  lemma ReachAgain(c: Config, id: ClientId, credential: Credential, another: Credential)
    ensures Reachable(c, Again(id, credential, another))
  {
    hide Reachable;
    ReachOneClient(c, id, credential);
    var one := OneClient(id, credential);
    ReachStep(c, one, Delete(id));
    assert Apply(c, one, Delete(id)) == one.(repo := map[]);
    ReachJoined(c, one.(repo := map[]), Request(id, another, "t", 2, 0), 1);
  }

  /** A reconnect that takes the record over and then cannot save it: the record
      stays connected, over a connection whose start failed and which no handler
      will ever tear down, while the teardown of the old connection ignores it. */
  lemma FailedStartKeepsRecord(c: Config, id: ClientId, credential: Credential) returns (s: State)
    ensures Reachable(c, s) && id in s.repo && s.repo[id] in s.objs
    ensures s.objs[s.repo[id]].connected && s.objs[s.repo[id]].conn == 2 && id in s.latest && s.latest[id] == 1 && 2 !in s.handlers
    ensures 1 in s.handlers && SameRecord(s, Apply(c, s, Teardown(1)), id)
  {
    hide Reachable;
    ReachOneClient(c, id, credential);
    var s1 := OneClient(id, credential);
    var step := Start(Request(id, credential, "s", 2, 0), 0, SaveFails);
    ReachStep(c, s1, step);
    s := Apply(c, s1, step);
    assert !CredentialInUse(s1, credential, id);
    assert s.objs[0].conn == 2;
  }

  /** Once a record has been deleted and the client has registered again, the
      teardown of the old connection writes the old object back over it. */
  lemma StaleTeardownReplacesRecord(c: Config, id: ClientId, credential: Credential) returns (s: State)
    requires !c.deleteOnDisconnect
    ensures Reachable(c, s) && id in s.latest && s.latest[id] == 2 && 2 in s.handlers
    ensures id in s.repo && s.repo[id] in s.objs && s.repo[id] != s.handlers[2] && !s.objs[s.repo[id]].connected
    ensures !SessionRecords.CarriesLatest(s, id)
  {
    hide Reachable;
    ReachAgain(c, id, credential, credential);
    var before := Again(id, credential, credential);
    ReachStep(c, before, Teardown(1));
    s := Apply(c, before, Teardown(1));
  }

  /** If it registered with another credential, the id is bound to the old one
      again, although it was known all along. */
  lemma StaleTeardownRebindsId(c: Config, id: ClientId, credential: Credential, another: Credential) returns (s: State)
    requires !c.deleteOnDisconnect && credential != another
    ensures Reachable(c, s) && Enabled(c, s, Teardown(1)) && Known(s, id) && Known(Apply(c, s, Teardown(1)), id)
    ensures Record(s, id).credential == another && Record(Apply(c, s, Teardown(1)), id).credential == credential
  {
    hide Reachable;
    ReachAgain(c, id, credential, another);
    s := Again(id, credential, another);
  }

  /** A record that went obsolete while its connection lingered comes back to life
      at the teardown, although another id may have taken its credential. */
  lemma StaleTeardownSharesCredential(c: Config, a: ClientId, b: ClientId, credential: Credential) returns (s: State)
    requires !c.deleteOnDisconnect && a != b
    ensures Reachable(c, s) && Known(s, a) && Known(s, b)
    ensures Record(s, a).credential == Record(s, b).credential
  {
    hide Reachable;
    ReachOneClient(c, a, credential);
    var s1 := OneClient(a, credential);
    ReachStep(c, s1, PingFails(a));
    var s2 := Apply(c, s1, PingFails(a));
    ReachStep(c, s2, Expire(a));
    var s3 := Apply(c, s2, Expire(a));
    assert s3.objs[0].obsolete && !Known(s3, a);
    var r := Request(b, credential, "t", 2, 0);
    ReachJoined(c, s3, r, 1);
    var s4 := Joined(s3, r, 1);
    ReachStep(c, s4, Teardown(1));
    s := Apply(c, s4, Teardown(1));
  }

  /** After AddTunnel on the only record of a state. */
  function Routed(s: State, obj: ClientObj, t: Tunnel): State
    requires obj in s.objs && t.route.Some?
  {
    s.(objs := s.objs[obj := s.objs[obj].(tunnels := s.objs[obj].tunnels + [t], lastTunnelId := s.objs[obj].lastTunnelId + 1)],
       nextTunnel := s.nextTunnel + 1, timers := s.timers + {(obj, t)}, routes := s.routes + {t.route.value})
  }

  lemma ReachRouted(c: Config, s: State, id: ClientId, obj: ClientObj, t: Tunnel)
    requires Reachable(c, s) && Active(s, id) && s.repo[id] == obj && t.route.Some?
    requires t == Tunnel(s.nextTunnel, s.objs[obj].lastTunnelId + 1, s.objs[obj].conn, t.route)
    ensures Reachable(c, Routed(s, obj, t))
  {
    hide Reachable;
    ReachStep(c, s, AddTunnel(id, t.route));
    assert Apply(c, s, AddTunnel(id, t.route)) == Routed(s, obj, t);
  }

  /** The first client's tunnel, then the tunnel after it registered again; both
      go by the same route. */
  const OLD_TUNNEL := Tunnel(0, 1, 1, Some("r"))
  const NEW_TUNNEL := Tunnel(1, 1, 2, Some("r"))

  lemma ReachTwoRoutes(c: Config, id: ClientId, credential: Credential) returns (s: State)
    ensures Reachable(c, s) && Known(s, id) && id in s.latest && s.latest[id] == 2
    ensures s.repo == map[id := 1] && 0 in s.objs && s.objs[0].id == id && s.objs[0].tunnels == [OLD_TUNNEL]
    ensures Record(s, id).tunnels == [NEW_TUNNEL] && s.routes == {"r"} && (0, OLD_TUNNEL) in s.timers
  {
    hide Reachable;
    ReachOneClient(c, id, credential);
    var s1 := OneClient(id, credential);
    ReachRouted(c, s1, id, 0, OLD_TUNNEL);
    var s2 := Routed(s1, 0, OLD_TUNNEL);
    ReachStep(c, s2, Delete(id));
    var s3 := Apply(c, s2, Delete(id));
    var r := Request(id, credential, "t", 2, 0);
    ReachJoined(c, s3, r, 1);
    var s4 := Joined(s3, r, 1);
    ReachRouted(c, s4, id, 1, NEW_TUNNEL);
    s := Routed(s4, 1, NEW_TUNNEL);
  }

  /** A timer of a connection that was superseded by a new registration, not by a
      takeover: it takes away the route the current tunnel goes by, and puts the
      old object back as the record. */
  lemma OldTimerTakesCurrentRoute(c: Config, id: ClientId, credential: Credential) returns (s: State)
    ensures Reachable(c, s) && Known(s, id) && NEW_TUNNEL in Record(s, id).tunnels && "r" in s.routes
    ensures Enabled(c, s, TimerFires(0, OLD_TUNNEL)) && id in s.latest && OLD_TUNNEL.conn != s.latest[id]
    ensures
      var s' := Apply(c, s, TimerFires(0, OLD_TUNNEL));
      "r" !in s'.routes && id in s'.repo && s'.repo[id] == 0 && s.repo[id] != 0
  {
    hide Reachable;
    s := ReachTwoRoutes(c, id, credential);
    hide Keep;
    assert NEW_TUNNEL in Record(s, id).tunnels;
    assert OLD_TUNNEL in s.objs[0].tunnels;
  }
}
