/** What every run of the session machine keeps true of stored client records:
    which connection a record carries, and which credentials records hold. A
    record is written by starts, and by teardowns and timers that store the
    object they hold; each statement says exactly which of these steps break it. */
module SessionRecords {
  import opened Options
  import opened Sessions

  // --- What a step does to the record of a client id ---------------------------------------

  /** A teardown or timer that stores the object it holds under its client id. */
  predicate Stores(c: Config, s: State, step: Step) {
    match step
    case Teardown(conn) =>
      && conn in s.handlers && s.handlers[conn] in s.objs && !c.deleteOnDisconnect
      && var obj := s.handlers[conn];
         var id := s.objs[obj].id;
         s.objs[obj].conn == conn && id in s.repo && (s.repo[id] == obj || Known(s, id))
    case TimerFires(obj, t) => obj in s.objs && t in s.objs[obj].tunnels
    case _ => false
  }

  function Held(c: Config, s: State, step: Step): (obj: ClientObj)
    requires Stores(c, s, step)
    ensures obj in s.objs
  {
    if step.Teardown? then s.handlers[step.conn] else step.obj
  }

  /** The object a step stores is of this client id. */
  predicate StoresFor(c: Config, s: State, step: Step, id: ClientId) {
    Stores(c, s, step) && s.objs[Held(c, s, step)].id == id
  }

  /** A start for the client id that is accepted and goes through. */
  predicate Succeeds(c: Config, s: State, step: Step, id: ClientId) {
    step.Start? && step.r.id == id && step.fault == NoFault && !Refused(c, s, step.r)
  }

  /** A start that is accepted for a known client id, and fails after it has
      overwritten the record. */
  predicate FailsLate(c: Config, s: State, step: Step, id: ClientId) {
    && step.Start? && step.r.id == id && (step.fault.TunnelsFail? || step.fault.SaveFails?)
    && !Refused(c, s, step.r) && Known(s, id)
  }

  /** The record goes, or keeps its object, connection and credential; it does
      not become known again. */
  ghost predicate Shrinks(s: State, s': State, id: ClientId) {
    && (id in s'.latest <==> id in s.latest) && (id in s.latest ==> s'.latest[id] == s.latest[id])
    && (id in s'.repo ==>
          && id in s.repo && s'.repo[id] == s.repo[id]
          && s.repo[id] in s.objs && s'.repo[id] in s'.objs
          && s'.objs[s'.repo[id]].conn == s.objs[s.repo[id]].conn
          && s'.objs[s'.repo[id]].credential == s.objs[s.repo[id]].credential
          && (Known(s', id) ==> Known(s, id)))
  }

  /** The record of `id` is `obj`, with this connection and credential. */
  ghost predicate Holds(s: State, id: ClientId, obj: ClientObj, conn: Conn, credential: Credential) {
    && id in s.repo && s.repo[id] == obj && obj in s.objs
    && s.objs[obj].conn == conn && s.objs[obj].credential == credential
  }

  lemma TerminatedShrinks(c: Config, s: State, obj: ClientObj, id: ClientId)
    requires ObjectInv(s) && obj in s.objs
    requires s.objs[obj].id in s.repo ==>
               || c.deleteOnDisconnect
               || (s.repo[s.objs[obj].id] != obj && !Known(s, s.objs[obj].id))
               || (s.repo[s.objs[obj].id] == obj && !s.objs[obj].obsolete)
    ensures Shrinks(s, Terminated(c, s, obj), id)
  {
    hide GoodClient;
  }

  lemma PutShrinks(s: State, obj: ClientObj, client: Client, id: ClientId)
    requires ObjectInv(s) && obj in s.objs
    requires client.conn == s.objs[obj].conn && client.credential == s.objs[obj].credential
    requires s.objs[obj].obsolete ==> client.obsolete
    ensures Shrinks(s, Put(s, obj, client), id)
  {
    hide GoodClient;
  }

  /** Only the objects, the records and the successful starts matter. */
  lemma ShrinksFrame(s: State, t: State, s': State, t': State, id: ClientId)
    requires Shrinks(t, t', id)
    requires t.objs == s.objs && t.repo == s.repo && t.latest == s.latest
    requires t'.objs == s'.objs && t'.repo == s'.repo && t'.latest == s'.latest
    ensures Shrinks(s, s', id)
  {
    assert Known(t, id) == Known(s, id) && Known(t', id) == Known(s', id);
  }

  lemma SameShrinks(s: State, s': State, id: ClientId)
    requires ObjectInv(s) && s'.objs == s.objs && s'.repo == s.repo && s'.latest == s.latest
    ensures Shrinks(s, s', id)
  {
    hide GoodClient;
  }

  lemma UpdateShrinks(c: Config, s: State, step: Step, id: ClientId)
    requires ObjectInv(s) && Enabled(c, s, step)
    requires step.AddTunnel? || step.Heartbeat? || step.PingFails? || step.Delete? || step.Expire?
    ensures Shrinks(s, Apply(c, s, step), id)
  {
    if step.Delete? {
      hide GoodClient;
    } else {
      assert GoodClient(s, s.objs[s.repo[step.id]]);
      hide GoodClient, Shrinks;
      var obj, s' := s.repo[step.id], Apply(c, s, step);
      PutShrinks(s, obj, s'.objs[obj], id);
      ShrinksFrame(s, s, s', Put(s, obj, s'.objs[obj]), id);
    }
  }

  lemma TeardownShrinks(c: Config, s: State, conn: Conn, id: ClientId)
    requires ObjectInv(s) && Enabled(c, s, Teardown(conn)) && !Stores(c, s, Teardown(conn))
    ensures Shrinks(s, Apply(c, s, Teardown(conn)), id)
  {
    hide GoodClient, Terminated, Shrinks;
    var s1 := s.(handlers := s.handlers - {conn}, timers := set e | e in s.timers && e.1.conn != conn);
    ObjectsFrame(s, s1);
    var obj := s.handlers[conn];
    if s.objs[obj].conn == conn {
      assert Known(s1, s.objs[obj].id) == Known(s, s.objs[obj].id);
      TerminatedShrinks(c, s1, obj, id);
      ShrinksFrame(s, s1, Apply(c, s, Teardown(conn)), Terminated(c, s1, obj), id);
    } else {
      SameShrinks(s, s1, id);
    }
  }

  /** Steps that neither start a client nor store an object. */
  lemma OtherStepShrinks(c: Config, s: State, step: Step, id: ClientId)
    requires ObjectInv(s) && Enabled(c, s, step) && !step.Start? && !Stores(c, s, step)
    ensures Shrinks(s, Apply(c, s, step), id)
  {
    match step
    case Teardown(conn) => TeardownShrinks(c, s, conn, id);
    case TimerFires(obj, t) => SameShrinks(s, Apply(c, s, step), id);
    case RepeatedRequest(other) =>
      assert GoodClient(s, s.objs[s.repo[other]]);
      hide GoodClient, Terminated, Shrinks;
      TerminatedShrinks(c, s, s.repo[other], id);
    case _ => UpdateShrinks(c, s, step, id);
  }

  /** A step that stores its object leaves the records of all other ids alone. */
  lemma StoreEffect(c: Config, s: State, step: Step)
    requires ObjectInv(s) && Enabled(c, s, step) && Stores(c, s, step)
    ensures
      var s', obj := Apply(c, s, step), Held(c, s, step);
      var id := s.objs[obj].id;
      && s'.latest == s.latest && s'.repo == s.repo[id := obj]
      && Holds(s', id, obj, s.objs[obj].conn, s.objs[obj].credential)
      && (Known(s', id) <==> step.Teardown? || !s.objs[obj].obsolete)
      && (forall other :: other in s.repo && other != id ==>
            s.repo[other] != obj && s.repo[other] in s'.objs && s'.objs[s.repo[other]] == s.objs[s.repo[other]])
  {
    hide GoodClient, Keep;
  }

  /** What a start does to the record of its own id, and to the others. */
  lemma StartEffect(c: Config, s: State, step: Step, id: ClientId)
    requires ObjectInv(s) && Enabled(c, s, step) && step.Start?
    ensures
      var s' := Apply(c, s, step);
      var r, obj := step.r, step.obj;
      && (Succeeds(c, s, step, id) ==>
            Holds(s', id, obj, r.conn, r.credential) && Known(s', id) && id in s'.latest && s'.latest[id] == r.conn)
      && (FailsLate(c, s, step, id) ==>
            && Holds(s', id, obj, r.conn, r.credential) && s'.repo == s.repo && s'.latest == s.latest
            && Known(s', id))
      && (!Succeeds(c, s, step, id) && !FailsLate(c, s, step, id) ==>
            Shrinks(s, s', id) && (Known(s', id) <==> Known(s, id)))
  {
    hide ObjectInv, Apply, Refused, Shrinks;
    if Succeeds(c, s, step, id) {
      SuccessEffect(c, s, step);
    } else if FailsLate(c, s, step, id) {
      LateFailureEffect(c, s, step);
    } else {
      StartLeaves(c, s, step, id);
      UntouchedShrinks(s, Apply(c, s, step), id);
    }
  }

  lemma SuccessEffect(c: Config, s: State, step: Step)
    requires ObjectInv(s) && Enabled(c, s, step) && step.Start? && Succeeds(c, s, step, step.r.id)
    ensures
      var s', r := Apply(c, s, step), step.r;
      && Holds(s', r.id, step.obj, r.conn, r.credential) && Known(s', r.id)
      && r.id in s'.latest && s'.latest[r.id] == r.conn
  {
    hide ObjectInv, Taking, CredentialInUse, RefusedByRecord;
    TakingKeepsOthers(s, step.r, step.obj, step.r.tunnels);
  }

  lemma LateFailureEffect(c: Config, s: State, step: Step)
    requires ObjectInv(s) && Enabled(c, s, step) && step.Start? && FailsLate(c, s, step, step.r.id)
    ensures
      var s', r := Apply(c, s, step), step.r;
      && Holds(s', r.id, step.obj, r.conn, r.credential) && Known(s', r.id)
      && s'.repo == s.repo && s'.latest == s.latest
  {
    hide ObjectInv, Taking, CredentialInUse, RefusedByRecord;
    var fault := step.fault;
    TakingKeepsOthers(s, step.r, step.obj, if fault.TunnelsFail? then fault.started else step.r.tunnels);
  }

  lemma StartLeaves(c: Config, s: State, step: Step, id: ClientId)
    requires ObjectInv(s) && Enabled(c, s, step) && step.Start?
    requires !Succeeds(c, s, step, id) && !FailsLate(c, s, step, id)
    ensures
      var s' := Apply(c, s, step);
      && (id in s'.latest <==> id in s.latest) && (id in s.latest ==> s'.latest[id] == s.latest[id])
      && (id in s'.repo <==> id in s.repo)
      && (id in s.repo ==>
            && s'.repo[id] == s.repo[id] && s.repo[id] in s.objs && s.repo[id] in s'.objs
            && s'.objs[s.repo[id]] == s.objs[s.repo[id]])
  {
    assert id in s.repo ==> s.repo[id] in s.objs;
    hide ObjectInv, Taking, Refused, Started;
    var r, fault := step.r, step.fault;
    StartedIs(c, s, r, step.obj, fault);
    TakingKeepsOthers(s, r, step.obj, if fault.TunnelsFail? then fault.started else r.tunnels);
  }

  /** A start that is refused, or fails early, changes no record; any other takes
      the record over and registers it if nothing fails. */
  lemma StartedIs(c: Config, s: State, r: Request, obj: ClientObj, fault: Fault)
    requires RightObject(s, r, obj)
    ensures
      var s' := Started(c, s, r, obj, fault);
      var taking := Taking(s, r, obj, if fault.TunnelsFail? then fault.started else r.tunnels);
      && obj in taking.objs
      && if fault.Early? || Refused(c, s, r) then s'.objs == s.objs && s'.repo == s.repo && s'.latest == s.latest
         else s' == if fault == NoFault then Registered(taking, r, obj) else taking
  {
    hide CredentialInUse, RefusedByRecord, TakenOver, RoutesOf;
  }

  lemma UntouchedShrinks(s: State, s': State, id: ClientId)
    requires (id in s'.latest <==> id in s.latest) && (id in s.latest ==> s'.latest[id] == s.latest[id])
    requires id in s'.repo <==> id in s.repo
    requires id in s.repo ==>
               && s'.repo[id] == s.repo[id] && s.repo[id] in s.objs && s.repo[id] in s'.objs
               && s'.objs[s.repo[id]] == s.objs[s.repo[id]]
    ensures Shrinks(s, s', id) && (Known(s', id) <==> Known(s, id))
  {}

  lemma TakingKeepsOthers(s: State, r: Request, obj: ClientObj, started: nat)
    requires ObjectInv(s) && RightObject(s, r, obj)
    ensures
      var s' := Taking(s, r, obj, started);
      && s'.repo == s.repo && s'.latest == s.latest && obj in s'.objs && s.objs.Keys <= s'.objs.Keys
      && s'.objs[obj].conn == r.conn && s'.objs[obj].credential == r.credential && !s'.objs[obj].obsolete
      && (forall id :: id in s.repo && id != r.id ==> s.repo[id] != obj && s'.objs[s.repo[id]] == s.objs[s.repo[id]])
      && (r.id in s.repo && !Known(s, r.id) ==> s.repo[r.id] != obj && s'.objs[s.repo[r.id]] == s.objs[s.repo[r.id]])
  {
    hide GoodClient, TakenOver;
    TakenOverId(s, r, obj, started);
  }

  /** A connected client is not taken over by a request that does not carry its
      session: whatever else the request says, nothing changes. */
  lemma ConnectedIsProtected(c: Config, s: State, r: Request, obj: ClientObj, fault: Fault)
    requires Enabled(c, s, Start(r, obj, fault)) && Known(s, r.id) && Record(s, r.id).connected
    requires r.session == "" || r.session != Record(s, r.id).session
    ensures Apply(c, s, Start(r, obj, fault)) == s.(conns := s.conns + {r.conn})
  {}

  /** A start that nothing goes wrong in makes its object the record, over its
      connection, exactly if: a connected record is asked for with its own session;
      and, with per-client credentials, a known record has no credential or this
      one, and no other known id has it. */
  lemma AcceptedIff(c: Config, s: State, r: Request, obj: ClientObj)
    requires ObjectInv(s) && Enabled(c, s, Start(r, obj, NoFault))
    ensures
      var s' := Apply(c, s, Start(r, obj, NoFault));
      (r.id in s'.repo && s'.repo[r.id] in s'.objs && s'.objs[s'.repo[r.id]].conn == r.conn) <==>
        && (Known(s, r.id) && Record(s, r.id).connected ==> r.session != "" && r.session == Record(s, r.id).session)
        && (!c.multiuseCreds ==>
              && (Known(s, r.id) ==> Record(s, r.id).credential in {"", r.credential})
              && forall id :: id in s.repo && id != r.id && Known(s, id) ==> Record(s, id).credential != r.credential)
  {
    var step := Start(r, obj, NoFault);
    if r.id in s.repo {
      assert GoodClient(s, s.objs[s.repo[r.id]]);
    }
    StartEffect(c, s, step, r.id);
    hide GoodClient, Apply;
  }

  /** What an accepted start builds: as many tunnels as were asked for, over its
      connection, numbered on from the object's last number, without routes, each
      with its timer armed; the routes of the record before go. */
  lemma SuccessBuilds(c: Config, s: State, r: Request, obj: ClientObj)
    requires Enabled(c, s, Start(r, obj, NoFault)) && !Refused(c, s, r)
    ensures
      var s' := Apply(c, s, Start(r, obj, NoFault));
      && obj in s'.objs && s'.objs[obj].connected && s'.objs[obj].session == r.session
      && r.conn in s'.handlers && s'.handlers[r.conn] == obj
      && (var tunnels := s'.objs[obj].tunnels;
          && |tunnels| == r.tunnels
          && (forall k :: 0 <= k < |tunnels| ==>
                && tunnels[k].conn == r.conn && tunnels[k].route == None && (obj, tunnels[k]) in s'.timers
                && tunnels[k].id == (if obj in s.objs then s.objs[obj].lastTunnelId else 0) + 1 + k))
      && (forall t :: Known(s, r.id) && t in Record(s, r.id).tunnels && t.route.Some? ==> t.route.value !in s'.routes)
  {
    hide CredentialInUse, RefusedByRecord;
    var s' := Apply(c, s, Start(r, obj, NoFault));
    forall k | 0 <= k < |s'.objs[obj].tunnels| ensures (obj, s'.objs[obj].tunnels[k]) in s'.timers {
      assert s'.objs[obj].tunnels[k] in s'.objs[obj].tunnels;
    }
  }

  /** A teardown of the connection a record carries ends the session: the record is
      gone where disconnected clients are not kept, and otherwise stays, known and
      disconnected, with its tunnels; no timer of that connection is left. */
  lemma TeardownEndsSession(c: Config, s: State, conn: Conn, id: ClientId)
    requires ObjectInv(s) && Enabled(c, s, Teardown(conn)) && Known(s, id)
    requires s.handlers[conn] == s.repo[id] && Record(s, id).conn == conn
    ensures
      var s' := Apply(c, s, Teardown(conn));
      && conn !in s'.handlers && (forall e :: e in s'.timers ==> e.1.conn != conn)
      && if c.deleteOnDisconnect then id !in s'.repo
         else Known(s', id) && Record(s', id) == Record(s, id).(connected := false)
  {
    hide GoodClient;
  }

  /** A tunnel added to an active client is the last of its record, runs over its
      connection under a number of its own, has its route and its timer. */
  lemma AddTunnelAdds(c: Config, s: State, id: ClientId, route: Option<string>)
    requires ObjectInv(s) && Enabled(c, s, AddTunnel(id, route))
    ensures
      var s', obj := Apply(c, s, AddTunnel(id, route)), s.repo[id];
      && obj in s'.objs && s'.repo == s.repo
      && var before, tunnels := s.objs[obj].tunnels, s'.objs[obj].tunnels;
         && |tunnels| == |before| + 1 && tunnels[..|before|] == before
         && var t := tunnels[|before|];
            && t.conn == s.objs[obj].conn && t.route == route && (obj, t) in s'.timers
            && (forall u :: u in before ==> u.id < t.id)
            && (route.Some? ==> route.value in s'.routes)
  {
    assert GoodClient(s, s.objs[s.repo[id]]);
    hide GoodClient;
    assert forall u :: u in s.objs[s.repo[id]].tunnels ==> u.id <= s.objs[s.repo[id]].lastTunnelId by {
      TunnelNumbers(s, s.repo[id]);
    }
  }

  lemma TunnelNumbers(s: State, obj: ClientObj)
    requires obj in s.objs && GoodClient(s, s.objs[obj])
    ensures forall u :: u in s.objs[obj].tunnels ==> u.id <= s.objs[obj].lastTunnelId
  {}

  /** A failed ping disconnects a client and keeps it known; a heartbeat connects it
      again; a client that stays away too long is no longer known. */
  lemma PresenceFollows(c: Config, s: State, id: ClientId)
    requires ObjectInv(s) && id in s.repo
    ensures Enabled(c, s, PingFails(id)) ==>
              var s' := Apply(c, s, PingFails(id));
              Known(s', id) && !Active(s', id) && Record(s', id) == s.objs[s.repo[id]].(connected := false, obsolete := false)
    ensures Enabled(c, s, Heartbeat(id)) ==>
              var s' := Apply(c, s, Heartbeat(id));
              Known(s', id) && Active(s', id) && Record(s', id) == s.objs[s.repo[id]].(connected := true)
    ensures Enabled(c, s, Expire(id)) ==> !Known(Apply(c, s, Expire(id)), id)
    ensures Enabled(c, s, Delete(id)) && id !in Apply(c, s, Delete(id)).repo
    ensures Enabled(c, s, RepeatedRequest(id)) ==> !Active(Apply(c, s, RepeatedRequest(id)), id)
  {
    hide GoodClient;
  }

  // --- The connection a record carries ------------------------------------------------------

  /** A step that stores an object which is not the record of its id. */
  predicate Replaces(c: Config, s: State, step: Step, id: ClientId) {
    StoresFor(c, s, step, id) && !(id in s.repo && s.repo[id] == Held(c, s, step))
  }

  /** The record is given another connection than that of the latest successful
      start: by a start that fails late, or by a store of an object that carries
      another one. */
  predicate Diverts(c: Config, s: State, step: Step, id: ClientId) {
    || FailsLate(c, s, step, id)
    || (Replaces(c, s, step, id) && id in s.latest && s.objs[Held(c, s, step)].conn != s.latest[id])
  }

  /** The record is given that connection: by a successful start, or by a store
      of an object that carries it. */
  predicate Restores(c: Config, s: State, step: Step, id: ClientId) {
    || Succeeds(c, s, step, id)
    || (Replaces(c, s, step, id) && id in s.latest && s.objs[Held(c, s, step)].conn == s.latest[id])
  }

  ghost predicate Diverted(c: Config, states: seq<State>, steps: seq<Step>, k: nat, id: ClientId)
    requires k < |states| == |steps| + 1
  {
    exists i :: 0 <= i < k && Diverts(c, states[i], steps[i], id)
             && forall j :: i < j < k ==> !Restores(c, states[j], steps[j], id)
  }

  ghost predicate CarriesLatest(s: State, id: ClientId) {
    id in s.repo && s.repo[id] in s.objs && id in s.latest && s.objs[s.repo[id]].conn == s.latest[id]
  }

  /** One step: whatever the record carried before, it carries the latest
      connection after a restoring step, not after a diverting one, and keeps
      what it had otherwise. */
  lemma ConnectionStep(c: Config, s: State, step: Step, id: ClientId)
    requires ObjectInv(s) && ArmedInv(s) && Enabled(c, s, step) && id in Apply(c, s, step).repo
    ensures
      var s' := Apply(c, s, step);
      && !(Diverts(c, s, step, id) && Restores(c, s, step, id))
      && (Restores(c, s, step, id) ==> CarriesLatest(s', id))
      && (Diverts(c, s, step, id) ==> !CarriesLatest(s', id))
      && (!Restores(c, s, step, id) && !Diverts(c, s, step, id) ==>
            id in s.repo && (CarriesLatest(s', id) <==> CarriesLatest(s, id)))
  {
    hide GoodClient, Apply, TakenOver, CredentialInUse, RefusedByRecord;
    if step.Start? {
      hide Stores;
      StartEffect(c, s, step, id);
      StartIsNoStore(c, s, step);
      StartConnIsNew(c, s, step);
    } else if Stores(c, s, step) {
      StoreEffect(c, s, step);
      hide Stores;
      StoreIsNoStart(c, s, step);
      HeldHasStarted(c, s, step);
    } else {
      OtherStepShrinks(c, s, step, id);
    }
  }

  lemma StartIsNoStore(c: Config, s: State, step: Step)
    requires step.Start?
    ensures !Stores(c, s, step)
  {}

  lemma StoreIsNoStart(c: Config, s: State, step: Step)
    requires Stores(c, s, step)
    ensures !step.Start?
  {}

  lemma StartConnIsNew(c: Config, s: State, step: Step)
    requires step.Start? && Enabled(c, s, step)
    ensures step.r.conn !in s.conns
  {}

  lemma HeldHasStarted(c: Config, s: State, step: Step)
    requires ArmedInv(s) && Enabled(c, s, step) && Stores(c, s, step)
    ensures s.objs[Held(c, s, step)].id in s.latest
  {}

  /** In every run, a stored record carries the connection of the latest
      successful start for its id exactly when no step has diverted it since it
      was last restored. */
  lemma {:induction false} RecordCarriesLatestIff(c: Config, states: seq<State>, steps: seq<Step>, k: nat, id: ClientId)
    requires Run(c, states, steps) && k < |states| && id in states[k].repo
    ensures CarriesLatest(states[k], id) <==> !Diverted(c, states, steps, k, id)
  {
    hide Apply, Enabled, Diverts, Restores, CarriesLatest, ObjectInv, ArmedInv;
    assert states[0] == Initial();
    if k > 0 {
      ObjectInvariant(c, states, steps, k - 1);
      ArmedInvariant(c, states, steps, k - 1);
      assert states[k] == Apply(c, states[k - 1], steps[k - 1]);
      ConnectionStep(c, states[k - 1], steps[k - 1], id);
      DivertedStep(c, states, steps, k, id);
      if !Restores(c, states[k - 1], steps[k - 1], id) && !Diverts(c, states[k - 1], steps[k - 1], id) {
        RecordCarriesLatestIff(c, states, steps, k - 1, id);
      }
    }
  }

  lemma DivertedStep(c: Config, states: seq<State>, steps: seq<Step>, k: nat, id: ClientId)
    requires 0 < k < |states| == |steps| + 1
    requires !(Diverts(c, states[k - 1], steps[k - 1], id) && Restores(c, states[k - 1], steps[k - 1], id))
    ensures
      var s, step := states[k - 1], steps[k - 1];
      Diverted(c, states, steps, k, id) <==>
        Diverts(c, s, step, id) || (Diverted(c, states, steps, k - 1, id) && !Restores(c, s, step, id))
  {
    hide Diverts, Restores;
  }

  /** `latest` is what the steps say it is. */
  lemma {:induction false} LatestIsLastSuccess(c: Config, states: seq<State>, steps: seq<Step>, k: nat, i: nat, id: ClientId)
    requires Run(c, states, steps) && i < k < |states| && Succeeds(c, states[i], steps[i], id)
    requires forall j :: i < j < k ==> !Succeeds(c, states[j], steps[j], id)
    ensures id in states[k].latest && states[k].latest[id] == steps[i].r.conn
    decreases k
  {
    hide Apply, Enabled, Succeeds;
    ObjectInvariant(c, states, steps, k - 1);
    assert states[k] == Apply(c, states[k - 1], steps[k - 1]);
    if i < k - 1 {
      LatestIsLastSuccess(c, states, steps, k - 1, i, id);
      LatestStep(c, states[k - 1], steps[k - 1], id);
    } else {
      StartSets(c, states[i], steps[i], id);
    }
  }

  lemma StartSets(c: Config, s: State, step: Step, id: ClientId)
    requires ObjectInv(s) && Enabled(c, s, step) && Succeeds(c, s, step, id)
    ensures var s' := Apply(c, s, step); id in s'.latest && s'.latest[id] == step.r.conn
  {
    hide ObjectInv, CredentialInUse, RefusedByRecord;
    StartEffect(c, s, step, id);
  }

  lemma LatestStep(c: Config, s: State, step: Step, id: ClientId)
    requires ObjectInv(s) && Enabled(c, s, step) && !Succeeds(c, s, step, id) && id in s.latest
    ensures var s' := Apply(c, s, step); id in s'.latest && s'.latest[id] == s.latest[id]
  {
    hide ObjectInv, Apply, CredentialInUse, RefusedByRecord;
    if step.Start? {
      StartEffect(c, s, step, id);
    } else if Stores(c, s, step) {
      StoreEffect(c, s, step);
    } else {
      OtherStepShrinks(c, s, step, id);
    }
  }

  // --- Credentials ----------------------------------------------------------------------------

  /** No two known client ids share a credential. */
  ghost predicate CredentialInv(s: State) {
    forall a, b :: a in s.repo && b in s.repo && a != b && Known(s, a) && Known(s, b) ==>
      Record(s, a).credential != Record(s, b).credential
  }

  /** A teardown or timer stores an object as a known record whose credential
      another known client id has by now. */
  predicate Clashes(c: Config, s: State, step: Step) {
    && Stores(c, s, step)
    && var held := s.objs[Held(c, s, step)];
       (step.Teardown? || !held.obsolete) && CredentialInUse(s, held.credential, held.id)
  }

  lemma StartKeepsCredentials(c: Config, s: State, step: Step)
    requires ObjectInv(s) && CredentialInv(s) && !c.multiuseCreds && Enabled(c, s, step) && step.Start?
    ensures CredentialInv(Apply(c, s, step))
  {
    hide ObjectInv, Apply, RefusedByRecord;
    var s' := Apply(c, s, step);
    forall a, b | a in s'.repo && b in s'.repo && a != b && Known(s', a) && Known(s', b)
      ensures Record(s', a).credential != Record(s', b).credential
    {
      StartEffect(c, s, step, a);
      StartEffect(c, s, step, b);
    }
  }

  /** The records of the other ids, before and after a store. */
  lemma StoreLeavesOthers(c: Config, s: State, step: Step, other: ClientId)
    requires ObjectInv(s) && Enabled(c, s, step) && Stores(c, s, step) && other != s.objs[Held(c, s, step)].id
    ensures
      var s' := Apply(c, s, step);
      && (other in s'.repo <==> other in s.repo) && (Known(s', other) <==> Known(s, other))
      && (Known(s, other) ==> Record(s', other) == Record(s, other))
  {
    StoreEffect(c, s, step);
    hide ObjectInv, Apply, Stores;
  }

  lemma ClashBreaksCredentials(c: Config, s: State, step: Step)
    requires ObjectInv(s) && Enabled(c, s, step) && Clashes(c, s, step)
    ensures !CredentialInv(Apply(c, s, step))
  {
    hide ObjectInv, Enabled, Apply, Stores;
    StoreEffect(c, s, step);
    var held := s.objs[Held(c, s, step)];
    var other :| other in s.repo && other != held.id && Known(s, other) && Record(s, other).credential == held.credential;
    StoreLeavesOthers(c, s, step, other);
    assert Known(Apply(c, s, step), other) && Known(Apply(c, s, step), held.id);
  }

  lemma StoreKeepsCredentials(c: Config, s: State, step: Step)
    requires ObjectInv(s) && CredentialInv(s) && Enabled(c, s, step) && Stores(c, s, step) && !Clashes(c, s, step)
    ensures CredentialInv(Apply(c, s, step))
  {
    StoreEffect(c, s, step);
    hide ObjectInv, Apply, Stores;
    var s', held := Apply(c, s, step), s.objs[Held(c, s, step)];
    forall a, b | a in s'.repo && b in s'.repo && a != b && Known(s', a) && Known(s', b)
      ensures Record(s', a).credential != Record(s', b).credential
    {
      if a != held.id {
        StoreLeavesOthers(c, s, step, a);
      }
      if b != held.id {
        StoreLeavesOthers(c, s, step, b);
      }
    }
  }

  lemma OthersKeepCredentials(c: Config, s: State, step: Step)
    requires ObjectInv(s) && CredentialInv(s) && Enabled(c, s, step) && !step.Start? && !Stores(c, s, step)
    ensures CredentialInv(Apply(c, s, step))
  {
    hide ObjectInv, Apply, Stores;
    var s' := Apply(c, s, step);
    forall a, b | a in s'.repo && b in s'.repo && a != b && Known(s', a) && Known(s', b)
      ensures Record(s', a).credential != Record(s', b).credential
    {
      OtherStepShrinks(c, s, step, a);
      OtherStepShrinks(c, s, step, b);
    }
  }

  /** One step: exactly the clashing ones make two known client ids share a
      credential. */
  lemma CredentialStepIff(c: Config, s: State, step: Step)
    requires ObjectInv(s) && CredentialInv(s) && !c.multiuseCreds && Enabled(c, s, step)
    ensures CredentialInv(Apply(c, s, step)) <==> !Clashes(c, s, step)
  {
    hide ObjectInv, CredentialInv, Apply;
    if step.Start? {
      StartKeepsCredentials(c, s, step);
    } else if Stores(c, s, step) {
      if Clashes(c, s, step) {
        ClashBreaksCredentials(c, s, step);
      } else {
        StoreKeepsCredentials(c, s, step);
      }
    } else {
      OthersKeepCredentials(c, s, step);
    }
  }

  lemma NoRecords()
    ensures CredentialInv(Initial())
  {}

  /** With per-client credentials, every run up to a state keeps all credentials
      unique exactly when none of its steps clashed. */
  lemma {:induction false} CredentialsAreUniqueIff(c: Config, states: seq<State>, steps: seq<Step>, n: nat)
    requires Run(c, states, steps) && n < |states| && !c.multiuseCreds
    ensures (forall k :: 0 <= k <= n ==> CredentialInv(states[k])) <==>
            (forall k :: 0 <= k < n ==> !Clashes(c, states[k], steps[k]))
  {
    hide Apply, Enabled, Clashes, CredentialInv, ObjectInv;
    NoRecords();
    if n > 0 {
      CredentialsAreUniqueIff(c, states, steps, n - 1);
      ObjectInvariant(c, states, steps, n - 1);
      assert states[n] == Apply(c, states[n - 1], steps[n - 1]);
      if CredentialInv(states[n - 1]) {
        CredentialStepIff(c, states[n - 1], steps[n - 1]);
      }
    }
  }

  /** A teardown or timer stores an object of this id that holds another
      credential than the known record. */
  predicate Rebinds(c: Config, s: State, step: Step, id: ClientId)
    requires Known(s, id)
  {
    StoresFor(c, s, step, id) && s.objs[Held(c, s, step)].credential != Record(s, id).credential
  }

  /** One step: a client id that stays known and is bound to a credential keeps
      it exactly unless the step rebinds it. */
  lemma BoundStepIff(c: Config, s: State, step: Step, id: ClientId)
    requires ObjectInv(s) && Enabled(c, s, step) && !c.multiuseCreds
    requires Known(s, id) && Known(Apply(c, s, step), id) && Record(s, id).credential != ""
    ensures Record(Apply(c, s, step), id).credential == Record(s, id).credential <==> !Rebinds(c, s, step, id)
  {
    if step.Start? {
      hide ObjectInv, Apply, CredentialInUse;
      StartEffect(c, s, step, id);
    } else if Stores(c, s, step) {
      StoreEffect(c, s, step);
      hide ObjectInv, Apply, Stores;
    } else {
      hide ObjectInv, Apply;
      OtherStepShrinks(c, s, step, id);
    }
  }

  /** With per-client credentials, a client id that stays known keeps the
      credential it is bound to exactly when no step rebinds it. */
  lemma {:induction false} CredentialKeptIff(c: Config, states: seq<State>, steps: seq<Step>, j: nat, k: nat, id: ClientId)
    requires Run(c, states, steps) && j <= k < |states| && !c.multiuseCreds
    requires forall i :: j <= i <= k ==> Known(states[i], id)
    requires Record(states[j], id).credential != ""
    ensures (forall i :: j <= i <= k ==> Record(states[i], id).credential == Record(states[j], id).credential) <==>
            (forall i :: j <= i < k ==> !Rebinds(c, states[i], steps[i], id))
    decreases k
  {
    hide Apply, Enabled, Rebinds, Known, Record, ObjectInv;
    if j < k {
      CredentialKeptIff(c, states, steps, j, k - 1, id);
      ObjectInvariant(c, states, steps, k - 1);
      assert states[k] == Apply(c, states[k - 1], steps[k - 1]);
      if Record(states[k - 1], id).credential == Record(states[j], id).credential {
        BoundStepIff(c, states[k - 1], steps[k - 1], id);
      }
    }
  }
}
