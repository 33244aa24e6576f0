/** The agent's table of UDP connections (client/udp.go): one read loop, and one
    receive loop per connection, sharing two maps under a mutex. Each locked
    region is one step, and a run is any interleaving of the loops' steps. */
module UdpTable {
  import opened Options

  type Id = string
  type Conn = nat

  const TIMEOUT := 15

  /** The maps. */
  datatype Table = Table(conns: map<Id, Conn>, lastActive: map<Id, int>)

  function Added(t: Table, id: Id, conn: Conn, now: int): Table {
    Table(t.conns[id := conn], t.lastActive[id := now])
  }

  function Closed(t: Table, id: Id): Table {
    if id in t.conns then Table(t.conns - {id}, t.lastActive - {id}) else t
  }

  function Marked(t: Table, id: Id, now: int): Table {
    t.(lastActive := t.lastActive[id := now])
  }

  /** The locked regions, as udpHandler runs them. */
  class UdpHandler {
    var conns: map<Id, Conn>
    var lastActive: map<Id, int>

    ghost function View(): Table
      reads this
    {
      Table(conns, lastActive)
    }

    /** getConn; `dialed` is absent when dialing fails. A receive loop is started
        exactly when `added`. */
    method GetConn(id: Id, dialed: Option<Conn>, now: int) returns (conn: Option<Conn>, added: bool)
      modifies this
      ensures id in old(conns) ==> conn == Some(old(conns)[id]) && !added && View() == old(View())
      ensures id !in old(conns) && dialed.None? ==> conn == None && !added && View() == old(View())
      ensures id !in old(conns) && dialed.Some? ==> conn == dialed && added && View() == Added(old(View()), id, dialed.value, now)
    {
      if id in conns {
        return Some(conns[id]), false;
      }
      if dialed.None? {
        return None, false;
      }
      lastActive := lastActive[id := now];
      conns := conns[id := dialed.value];
      return dialed, true;
    }

    /** close; returns the connection it shut. */
    method Close(id: Id) returns (shut: Option<Conn>)
      modifies this
      ensures View() == Closed(old(View()), id)
      ensures shut == if id in old(conns) then Some(old(conns)[id]) else None
    {
      if id !in conns {
        return None;
      }
      shut := Some(conns[id]);
      conns := conns - {id};
      lastActive := lastActive - {id};
    }

    /** isActive: an unknown source counts as active. */
    method IsActive(id: Id, now: int) returns (active: bool)
      ensures active <==> id !in lastActive || now - lastActive[id] < TIMEOUT
    {
      active := if id in lastActive then now - lastActive[id] < TIMEOUT else true;
    }

    method SetActive(id: Id, now: int)
      modifies this`lastActive
      ensures View() == Marked(old(View()), id, now)
    {
      lastActive := lastActive[id := now];
    }
  }

  // --- Interleavings ---------------------------------------------------------------------

  /** A receive loop that has not finished: the source it was started for, and
      whether it has left its loop and is about to call close. */
  datatype Loop = Loop(id: Id, leaving: bool)

  /** The read loop, between its locked regions. */
  datatype Reader = Idle | Holding(id: Id, conn: Conn) | Writing(id: Id, conn: Conn) | Stopped

  datatype State = State(
    t: Table,
    reader: Reader,
    loops: map<Conn, Loop>,
    alive: set<Conn>,                // connections that are not shut
    dialed: set<Conn>,                 // connections ever dialed
    closes: seq<(Conn, Option<Conn>)>, // for each close: whose loop, and what it shut
    badWrites: nat)                    // writes to a connection already shut

  datatype Step =
    | Receives(id: Id, conn: Conn, now: int) // the read loop decodes a packet and gets a connection
    | DialFails(id: Id)
    | ReaderMarks(now: int)
    | Writes(ok: bool)
    | ReaderEnds
    | LoopMarks(conn: Conn, now: int)
    | LoopLeaves(conn: Conn)
    | LoopCloses(conn: Conn)

  function Initial(): State {
    State(Table(map[], map[]), Idle, map[], {}, {}, [], 0)
  }

  predicate Enabled(s: State, step: Step) {
    match step
    case Receives(id, conn, _) => s.reader == Idle && (id in s.t.conns || conn !in s.dialed)
    case DialFails(id) => s.reader == Idle && id !in s.t.conns
    case ReaderMarks(_) => s.reader.Holding?
    case Writes(_) => s.reader.Writing?
    case ReaderEnds => s.reader == Idle
    case LoopMarks(conn, _) => conn in s.loops && !s.loops[conn].leaving
    case LoopLeaves(conn) => conn in s.loops && !s.loops[conn].leaving
    case LoopCloses(conn) => conn in s.loops && s.loops[conn].leaving
  }

  function Apply(s: State, step: Step): State
    requires Enabled(s, step)
  {
    match step
    case Receives(id, conn, now) =>
      if id in s.t.conns then s.(reader := Holding(id, s.t.conns[id]))
      else s.(t := Added(s.t, id, conn, now), reader := Holding(id, conn), loops := s.loops[conn := Loop(id, false)],
              alive := s.alive + {conn}, dialed := s.dialed + {conn})
    case DialFails(_) => s.(reader := Stopped)
    case ReaderMarks(now) =>
      s.(t := Marked(s.t, s.reader.id, now), reader := Writing(s.reader.id, s.reader.conn))
    case Writes(ok) =>
      if s.reader.conn in s.alive then s.(reader := if ok then Idle else Stopped)
      else s.(reader := Stopped, badWrites := s.badWrites + 1)
    case ReaderEnds => s.(reader := Stopped)
    case LoopMarks(conn, now) => s.(t := Marked(s.t, s.loops[conn].id, now))
    case LoopLeaves(conn) => s.(loops := s.loops[conn := s.loops[conn].(leaving := true)])
    case LoopCloses(conn) =>
      var id := s.loops[conn].id;
      var shut := if id in s.t.conns then Some(s.t.conns[id]) else None;
      s.(t := Closed(s.t, id), loops := s.loops - {conn}, closes := s.closes + [(conn, shut)],
         alive := if shut.Some? then s.alive - {shut.value} else s.alive)
  }

  ghost predicate Run(states: seq<State>, steps: seq<Step>) {
    && |states| == |steps| + 1
    && states[0] == Initial()
    && forall k :: 0 <= k < |steps| ==> Enabled(states[k], steps[k]) && states[k + 1] == Apply(states[k], steps[k])
  }

  ghost predicate Inv(s: State) {
    && (forall id :: id in s.t.conns ==>
          && s.t.conns[id] in s.loops && s.loops[s.t.conns[id]].id == id
          && id in s.t.lastActive)
    && (forall conn :: conn in s.loops ==> s.loops[conn].id in s.t.conns && s.t.conns[s.loops[conn].id] == conn)
    && s.alive == s.loops.Keys && s.alive <= s.dialed
    && (forall i :: 0 <= i < |s.closes| ==> s.closes[i].1 == Some(s.closes[i].0))
    && (s.reader.Holding? || s.reader.Writing? ==> s.reader.conn in s.dialed)
    && (s.reader.Holding? || s.reader.Writing? ==>
          (s.reader.conn in s.alive ==> s.reader.id in s.t.conns && s.t.conns[s.reader.id] == s.reader.conn))
  }

  lemma ReceiveKeepsInv(s: State, id: Id, conn: Conn, now: int)
    requires Inv(s) && Enabled(s, Receives(id, conn, now))
    ensures Inv(Apply(s, Receives(id, conn, now)))
  {}

  lemma CloseKeepsInv(s: State, conn: Conn)
    requires Inv(s) && Enabled(s, LoopCloses(conn))
    ensures Inv(Apply(s, LoopCloses(conn)))
  {}

  lemma OthersKeepInv(s: State, step: Step)
    requires Inv(s) && Enabled(s, step) && !step.Receives? && !step.LoopCloses?
    ensures Inv(Apply(s, step))
  {}

  lemma {:induction false} RunInvariant(states: seq<State>, steps: seq<Step>, k: nat)
    requires Run(states, steps) && k < |states|
    ensures Inv(states[k])
  {
    hide Apply, Enabled;
    if k > 0 {
      RunInvariant(states, steps, k - 1);
      var s, step := states[k - 1], steps[k - 1];
      if step.Receives? {
        ReceiveKeepsInv(s, step.id, step.conn, step.now);
      } else if step.LoopCloses? {
        CloseKeepsInv(s, step.conn);
      } else {
        OthersKeepInv(s, step);
      }
    }
  }

  /** In every interleaving, storing a connection and running its receive loop are
      the same thing: the table is a bijection onto the unfinished loops, every
      stored connection has a timestamp, and only stored connections are open. */
  lemma TableMatchesLoops(states: seq<State>, steps: seq<Step>, k: nat, id: Id, conn: Conn)
    requires Run(states, steps) && k < |states|
    ensures
      var s := states[k];
      && ((id in s.t.conns && s.t.conns[id] == conn) <==> (conn in s.loops && s.loops[conn].id == id))
      && (id in s.t.conns ==> id in s.t.lastActive)
      && (conn in s.alive <==> conn in s.loops)
  {
    RunInvariant(states, steps, k);
  }

  /** In every interleaving, each close shuts exactly the connection its own loop
      was started for. */
  lemma ClosesOwnConnection(states: seq<State>, steps: seq<Step>, k: nat, i: nat)
    requires Run(states, steps) && k < |states| && i < |states[k].closes|
    ensures states[k].closes[i].1 == Some(states[k].closes[i].0)
  {
    RunInvariant(states, steps, k);
  }

  /** The read loop may still find its connection shut when it writes: exactly
      when the table no longer holds that connection for the packet's source. */
  lemma WriteFailsIff(states: seq<State>, steps: seq<Step>, k: nat)
    requires Run(states, steps) && k < |states| && states[k].reader.Writing?
    ensures
      var s := states[k];
      Apply(s, Writes(true)).badWrites == s.badWrites + 1 <==>
        !(s.reader.id in s.t.conns && s.t.conns[s.reader.id] == s.reader.conn)
  {
    RunInvariant(states, steps, k);
  }

  /** A timestamp that belongs to no connection. */
  predicate Orphaned(s: State, id: Id) {
    id in s.t.lastActive && id !in s.t.conns
  }

  /** The read loop marks a source that is no longer stored. */
  predicate MarksUnstored(s: State, step: Step, id: Id) {
    step.ReaderMarks? && s.reader.Holding? && s.reader.id == id && id !in s.t.conns
  }

  /** A packet of the source gets it a connection. */
  predicate Serves(step: Step, id: Id) {
    step.Receives? && step.id == id
  }

  lemma OrphanStep(s: State, step: Step, id: Id)
    requires Inv(s) && Enabled(s, step)
    ensures Orphaned(Apply(s, step), id) <==> MarksUnstored(s, step, id) || (Orphaned(s, id) && !Serves(step, id))
  {}

  /** In every interleaving, a source has a timestamp without a connection exactly
      when the read loop marked it after it was closed, and no packet of it has
      come in since. */
  lemma {:induction false} OrphanedIff(states: seq<State>, steps: seq<Step>, k: nat, id: Id)
    requires Run(states, steps) && k < |states|
    ensures Orphaned(states[k], id) <==>
              exists i :: 0 <= i < k && MarksUnstored(states[i], steps[i], id) && forall j :: i < j < k ==> !Serves(steps[j], id)
  {
    hide Apply, Enabled, MarksUnstored, Inv;
    assert states[0] == Initial();
    if k > 0 {
      OrphanedIff(states, steps, k - 1, id);
      RunInvariant(states, steps, k - 1);
      OrphanStep(states[k - 1], steps[k - 1], id);
      if Orphaned(states[k - 1], id) && !Serves(steps[k - 1], id) {
        var i :| 0 <= i < k - 1 && MarksUnstored(states[i], steps[i], id) && forall j :: i < j < k - 1 ==> !Serves(steps[j], id);
        assert forall j :: i < j < k ==> !Serves(steps[j], id);
      }
    }
  }

  /** It happens when the receive loop closes between the two locked regions; the
      read loop then also leaves a timestamp behind that belongs to no connection. */
  lemma CloseOvertakesWrite(id: Id) returns (states: seq<State>, steps: seq<Step>)
    ensures Run(states, steps) && |states| == 6
    ensures states[5].reader == Stopped && states[5].badWrites == 1
    ensures id in states[5].t.lastActive && id !in states[5].t.conns
  {
    steps := [Receives(id, 1, 0), LoopLeaves(1), LoopCloses(1), ReaderMarks(1), Writes(true)];
    var s1 := Apply(Initial(), steps[0]);
    var s2 := Apply(s1, steps[1]);
    var s3 := Apply(s2, steps[2]);
    var s4 := Apply(s3, steps[3]);
    assert s4.reader == Writing(id, 1) && 1 !in s4.alive;
    var s5 := Apply(s4, steps[4]);
    states := [Initial(), s1, s2, s3, s4, s5];
  }

  /** The instant at which a step sees the source active: a packet that gets a new
      connection, or a mark of either loop. */
  function SeenAt(s: State, step: Step, id: Id): Option<int> {
    match step
    case Receives(i, _, now) => if i == id && id !in s.t.conns then Some(now) else None
    case ReaderMarks(now) => if s.reader.Holding? && s.reader.id == id then Some(now) else None
    case LoopMarks(conn, now) => if conn in s.loops && s.loops[conn].id == id then Some(now) else None
    case _ => None
  }

  lemma TimestampStep(s: State, step: Step, id: Id)
    requires Enabled(s, step) && id in Apply(s, step).t.lastActive
    ensures
      var seen, last := SeenAt(s, step, id), Apply(s, step).t.lastActive[id];
      if seen.Some? then last == seen.value else id in s.t.lastActive && last == s.t.lastActive[id]
  {}

  /** In every interleaving, a timestamp is the instant at which its source was last
      seen active. */
  lemma {:induction false} TimestampIsLatest(states: seq<State>, steps: seq<Step>, k: nat, id: Id) returns (i: nat)
    requires Run(states, steps) && k < |states| && id in states[k].t.lastActive
    ensures i < k && SeenAt(states[i], steps[i], id) == Some(states[k].t.lastActive[id])
    ensures forall j :: i < j < k ==> SeenAt(states[j], steps[j], id) == None
  {
    hide Apply, Enabled, SeenAt;
    assert states[0] == Initial();
    TimestampStep(states[k - 1], steps[k - 1], id);
    if SeenAt(states[k - 1], steps[k - 1], id).Some? {
      i := k - 1;
    } else {
      i := TimestampIsLatest(states, steps, k - 1, id);
    }
  }

  /** The read loop stops exactly when dialing or writing fails, its connection is
      shut, or the stream ends; after any other write it waits for the next packet. */
  lemma ReaderStopsIff(s: State, step: Step)
    requires Enabled(s, step) && s.reader != Stopped
    ensures
      var s' := Apply(s, step);
      && (s'.reader == Stopped <==>
            step.DialFails? || step.ReaderEnds? || (step.Writes? && (!step.ok || s.reader.conn !in s.alive)))
      && (step.Writes? && s'.reader != Stopped ==> s'.reader == Idle)
  {}
}
