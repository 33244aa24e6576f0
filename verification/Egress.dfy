/** Choosing the way out: the transport chain (client/transport/transport.go),
    the candidate list and the sweep over it (client/client.go).

    Trimming, URL parsing and the recognition of .onion addresses are
    parameters, and so is what each dial comes to: a sweep dials a candidate at
    most once, so the outcome is a function of the candidate. */
module Egress {
  import opened Options
  import Wildcards

  datatype Url = Url(scheme: string, host: string)

  datatype Kind = Direct | Socks5 | Connect

  datatype Transport = Transport(kind: Kind, spec: string, url: Option<Url>) {
    predicate IsDirect() {
      kind.Direct?
    }
  }

  const DIRECT := "direct"

  /** What strings.TrimSpace and url.Parse answer. */
  datatype Syntax = Syntax(trim: string -> string, parse: string -> Option<Url>)

  /** A proxy URL of a supported kind. */
  ghost predicate IsProxy(syntax: Syntax, text: string) {
    && (exists i :: 0 <= i <= |text| && Wildcards.OccursAt(text, "://", i))
    && syntax.parse(text).Some? && syntax.parse(text).value.host != ""
    && syntax.parse(text).value.scheme in {"socks", "socks5", "socks5h", "http"}
  }

  /** ParseSpec; no answer is an error. */
  function ParseSpec(syntax: Syntax, spec: string): (r: Option<Transport>)
    ensures r.Some? <==> syntax.trim(spec) == DIRECT || (syntax.trim(spec) != "" && IsProxy(syntax, syntax.trim(spec)))
    ensures r.Some? ==> (r.value.IsDirect() <==> syntax.trim(spec) == DIRECT)
    ensures r.Some? && !r.value.IsDirect() ==>
              && r.value.url == syntax.parse(syntax.trim(spec))
              && (r.value.kind.Connect? <==> r.value.url.value.scheme == "http")
    ensures r.Some? ==> (r.value.IsDirect() <==> r.value.url.None?)
  {
    var trimmed := syntax.trim(spec);
    if trimmed == "" then
      None
    else if trimmed == DIRECT then
      Some(Transport(Direct, trimmed, None))
    else if Wildcards.Index(trimmed, "://") < 0 then
      None
    else
      var parsed := syntax.parse(trimmed);
      if parsed.None? || parsed.value.host == "" then
        None
      else if parsed.value.scheme in ["socks", "socks5", "socks5h"] then
        Some(Transport(Socks5, trimmed, parsed))
      else if parsed.value.scheme == "http" then
        Some(Transport(Connect, trimmed, parsed))
      else
        None
  }

  datatype Built = Chain(chain: seq<Transport>) | Empty | Bad(at: nat)

  /** The entry can stand at position i of the list. */
  predicate Acceptable(syntax: Syntax, specs: seq<string>, i: nat)
    requires i < |specs|
  {
    var t := ParseSpec(syntax, specs[i]);
    t.Some? && (t.value.IsDirect() ==> i == |specs| - 1)
  }

  /** Nothing but the last transport is direct. */
  ghost predicate DirectLast(chain: seq<Transport>) {
    forall i :: 0 <= i < |chain| - 1 ==> !chain[i].IsDirect()
  }

  /** BuildChain: every entry becomes a transport, in order, or the first entry
      that cannot stand where it is gets named. */
  method BuildChain(syntax: Syntax, specs: seq<string>) returns (built: Built)
    ensures built.Chain? <==> specs != [] && forall i :: 0 <= i < |specs| ==> Acceptable(syntax, specs, i)
    ensures built.Chain? ==>
              && |built.chain| == |specs|
              && (forall i :: 0 <= i < |specs| ==> ParseSpec(syntax, specs[i]) == Some(built.chain[i]))
              && DirectLast(built.chain)
              && (HasDirect(built.chain) <==> syntax.trim(specs[|specs| - 1]) == DIRECT)
    ensures built.Bad? ==>
              && built.at < |specs|
              && !Acceptable(syntax, specs, built.at)
              && forall i :: 0 <= i < built.at ==> Acceptable(syntax, specs, i)
    ensures built.Empty? <==> specs == []
  {
    if |specs| == 0 {
      return Empty;
    }
    var chain := [];
    for i := 0 to |specs|
      invariant |chain| == i
      invariant forall k :: 0 <= k < i ==>
                  Acceptable(syntax, specs, k) && ParseSpec(syntax, specs[k]) == Some(chain[k])
    {
      var t := ParseSpec(syntax, specs[i]);
      if t.None? {
        assert !Acceptable(syntax, specs, i);
        return Bad(i);
      }
      if t.value.IsDirect() && i != |specs| - 1 {
        assert !Acceptable(syntax, specs, i);
        return Bad(i);
      }
      chain := chain + [t.value];
    }
    built := Chain(chain);
    assert Acceptable(syntax, specs, |specs| - 1);
    assert chain[|specs| - 1] == ParseSpec(syntax, specs[|specs| - 1]).value;
  }

  ghost predicate HasDirect(chain: seq<Transport>) {
    exists i :: 0 <= i < |chain| && chain[i].IsDirect()
  }

  datatype Candidate = Candidate(transport: Transport, server: string, index: nat)

  /** The agent's configuration, as far as the sweep reads it. */
  datatype Config = Config(chain: seq<Transport>, server: string, fallbackServers: seq<string>) {
    function Servers(): seq<string> {
      [server] + fallbackServers
    }
  }

  predicate Usable(onion: string -> bool, t: Transport, server: string) {
    server != "" && !(t.IsDirect() && onion(server))
  }

  /** A place in the grid of transports and servers. */
  datatype Spot = Spot(t: nat, s: nat)

  /** Transport first, server second. */
  predicate Before(p: Spot, q: Spot) {
    p.t < q.t || (p.t == q.t && p.s < q.s)
  }

  ghost predicate UsableSpot(onion: string -> bool, config: Config, p: Spot) {
    p.t < |config.chain| && p.s < |config.Servers()| && Usable(onion, config.chain[p.t], config.Servers()[p.s])
  }

  ghost predicate Ordered(spots: seq<Spot>) {
    forall j, k :: 0 <= j < k < |spots| ==> Before(spots[j], spots[k])
  }

  /** The spots are those of the usable combinations up to `end`, each once, in
      the order of `Before`. */
  ghost predicate Covers(onion: string -> bool, config: Config, spots: seq<Spot>, end: Spot) {
    && Ordered(spots)
    && (forall p :: p in spots <==> UsableSpot(onion, config, p) && Before(p, end))
  }

  /** The candidates stand at those spots, numbered by position. */
  ghost predicate StandsAt(config: Config, out: seq<Candidate>, spots: seq<Spot>) {
    && |out| == |spots|
    && forall k :: 0 <= k < |out| ==>
         && spots[k].t < |config.chain|
         && spots[k].s < |config.Servers()|
         && out[k] == Candidate(config.chain[spots[k].t], config.Servers()[spots[k].s], k)
  }

  ghost predicate Enumerates(onion: string -> bool, config: Config, out: seq<Candidate>, spots: seq<Spot>) {
    StandsAt(config, out, spots) && Covers(onion, config, spots, Spot(|config.chain|, 0))
  }

  /** candidates. */
  method Candidates(onion: string -> bool, config: Config) returns (out: seq<Candidate>)
    ensures exists spots :: Enumerates(onion, config, out, spots)
  {
    var servers := config.Servers();
    out := [];
    ghost var spots := [];
    for i := 0 to |config.chain|
      invariant StandsAt(config, out, spots)
      invariant Covers(onion, config, spots, Spot(i, 0))
    {
      var t := config.chain[i];
      for j := 0 to |servers|
        invariant StandsAt(config, out, spots)
        invariant Covers(onion, config, spots, Spot(i, j))
      {
        ghost var here := Spot(i, j);
        NextSpot(onion, config, spots, here);
        if servers[j] == "" {
          continue;
        }
        if t.IsDirect() && onion(servers[j]) {
          continue;
        }
        out := out + [Candidate(t, servers[j], |out|)];
        spots := spots + [here];
      }
      NextRow(onion, config, spots, i);
    }
    assert Enumerates(onion, config, out, spots);
  }

  lemma NextSpot(onion: string -> bool, config: Config, spots: seq<Spot>, here: Spot)
    requires Covers(onion, config, spots, here)
    ensures UsableSpot(onion, config, here) ==> Covers(onion, config, spots + [here], Spot(here.t, here.s + 1))
    ensures !UsableSpot(onion, config, here) ==> Covers(onion, config, spots, Spot(here.t, here.s + 1))
  {
    var next := Spot(here.t, here.s + 1);
    assert forall p :: Before(p, next) <==> Before(p, here) || p == here;
    forall j | 0 <= j < |spots| ensures Before(spots[j], here) {
      assert spots[j] in spots;
    }
  }

  lemma NextRow(onion: string -> bool, config: Config, spots: seq<Spot>, i: nat)
    requires Covers(onion, config, spots, Spot(i, |config.Servers()|))
    ensures Covers(onion, config, spots, Spot(i + 1, 0))
  {
  }

  /** The list is determined by the configuration. */
  lemma CandidatesAreUnique(onion: string -> bool, config: Config,
                            a: seq<Candidate>, p: seq<Spot>, b: seq<Candidate>, q: seq<Spot>)
    requires Enumerates(onion, config, a, p) && Enumerates(onion, config, b, q)
    ensures a == b
  {
    assert forall s :: s in p <==> s in q;
    OrderedUnique(p, q);
  }

  lemma {:induction false} OrderedUnique(p: seq<Spot>, q: seq<Spot>)
    requires Ordered(p) && Ordered(q)
    requires forall s :: s in p <==> s in q
    ensures p == q
    decreases |p|
  {
    assert p != [] ==> p[0] in q;
    assert q != [] ==> q[0] in p;
    if p != [] {
      assert p[0] == q[0];
      forall s ensures s in p[1..] <==> s in q[1..] {
        InTail(p, s);
        InTail(q, s);
      }
      OrderedUnique(p[1..], q[1..]);
      assert p == [p[0]] + p[1..] && q == [q[0]] + q[1..];
    }
  }

  lemma InTail(p: seq<Spot>, s: Spot)
    requires p != [] && Ordered(p)
    ensures s in p[1..] <==> s in p && s != p[0]
  {
    if s in p[1..] {
      var k :| 0 <= k < |p| - 1 && p[1..][k] == s;
      assert Before(p[0], p[k + 1]);
    }
  }

  /** Every server over one transport comes before any server over a later one. */
  lemma TransportMajor(onion: string -> bool, config: Config, out: seq<Candidate>, spots: seq<Spot>, j: nat, k: nat)
    requires Enumerates(onion, config, out, spots)
    requires j < |out| && k < |out| && spots[j].t < spots[k].t
    ensures j < k
  {
  }

  /** The direct candidates are the end of the list. */
  lemma DirectIsSuffix(onion: string -> bool, config: Config, out: seq<Candidate>, spots: seq<Spot>, j: nat, k: nat)
    requires Enumerates(onion, config, out, spots) && DirectLast(config.chain)
    requires j <= k < |out| && out[j].transport.IsDirect()
    ensures out[k].transport.IsDirect()
  {
    if j < k {
      assert Before(spots[j], spots[k]);
    }
  }

  datatype Outcome = Connected | Refused | Failed(error: string)

  datatype Sweep = Selected(candidate: Candidate, alert: bool) | Stopped | AllFailed(errors: seq<string>) | NoCandidates

  /** The dials follow the list, and go on only after a failure that is no refusal. */
  ghost predicate Swept(outcome: Candidate -> Outcome, out: seq<Candidate>, dialled: seq<Candidate>) {
    && dialled <= out
    && forall k :: 0 <= k < |dialled| - 1 ==> outcome(dialled[k]).Failed?
  }

  /** connectToMainOrFallback, with the candidates it dialled in order. `alert`
      is the downgrade line of logSelectedCandidate. */
  method ConnectToMainOrFallback(onion: string -> bool, config: Config, outcome: Candidate -> Outcome)
    returns (sweep: Sweep, dialled: seq<Candidate>, ghost out: seq<Candidate>, ghost spots: seq<Spot>)
    ensures Enumerates(onion, config, out, spots)
    ensures Swept(outcome, out, dialled)
    ensures sweep.NoCandidates? <==> out == []
    ensures sweep.Selected? ==>
              && dialled != [] && sweep.candidate == dialled[|dialled| - 1]
              && outcome(sweep.candidate).Connected?
              && (sweep.alert <==> sweep.candidate.transport.IsDirect() && |config.chain| > 1)
    ensures sweep.Stopped? ==> dialled != [] && outcome(dialled[|dialled| - 1]).Refused?
    ensures sweep.AllFailed? ==>
              && dialled == out && |sweep.errors| == |out|
              && forall k :: 0 <= k < |out| ==> outcome(out[k]) == Failed(sweep.errors[k])
  {
    var candidates;
    candidates := Candidates(onion, config);
    spots :| Enumerates(onion, config, candidates, spots);
    out := candidates;
    dialled := [];
    if |candidates| == 0 {
      return NoCandidates, dialled, out, spots;
    }
    var failures := [];
    for i := 0 to |candidates|
      invariant dialled == candidates[..i]
      invariant |failures| == i
      invariant forall k :: 0 <= k < i ==> outcome(candidates[k]) == Failed(failures[k])
    {
      var cand := candidates[i];
      dialled := dialled + [cand];
      match outcome(cand)
      case Connected =>
        return Selected(cand, cand.transport.IsDirect() && |config.chain| > 1), dialled, out, spots;
      case Refused =>
        return Stopped, dialled, out, spots;
      case Failed(error) =>
        failures := failures + [error];
    }
    sweep := AllFailed(failures);
  }

  /** The network is dialled directly only after every usable combination over
      any other transport was dialled and failed without a refusal, and never
      towards an onion address. */
  lemma DirectOnlyAfterEveryProxy(onion: string -> bool, config: Config, outcome: Candidate -> Outcome,
                                  out: seq<Candidate>, spots: seq<Spot>, dialled: seq<Candidate>, d: nat)
    requires Enumerates(onion, config, out, spots) && DirectLast(config.chain)
    requires Swept(outcome, out, dialled)
    requires d < |dialled| && dialled[d].transport.IsDirect()
    ensures HasDirect(config.chain)
    ensures !onion(dialled[d].server)
    ensures forall p :: UsableSpot(onion, config, p) && !config.chain[p.t].IsDirect() ==>
              exists k :: 0 <= k < d && spots[k] == p && outcome(dialled[k]).Failed?
  {
    assert dialled[d] == out[d] && spots[d] in spots;
    forall p | UsableSpot(onion, config, p) && !config.chain[p.t].IsDirect()
      ensures exists k :: 0 <= k < d && spots[k] == p && outcome(dialled[k]).Failed?
    {
      assert p in spots;
      var k :| 0 <= k < |spots| && spots[k] == p;
      assert !out[k].transport.IsDirect();
      if d <= k {
        DirectIsSuffix(onion, config, out, spots, d, k);
      }
      assert dialled[k] == out[k];
    }
  }

  /** A connection over a transport means that every usable combination over an
      earlier transport failed without a refusal. */
  lemma LaterOnlyAfterEarlier(onion: string -> bool, config: Config, outcome: Candidate -> Outcome,
                              out: seq<Candidate>, spots: seq<Spot>, dialled: seq<Candidate>, d: nat, p: Spot)
    requires Enumerates(onion, config, out, spots) && Swept(outcome, out, dialled)
    requires d < |dialled| && UsableSpot(onion, config, p) && p.t < spots[d].t
    ensures exists k :: 0 <= k < d && spots[k] == p && outcome(dialled[k]).Failed?
  {
    assert p in spots;
    var k :| 0 <= k < |spots| && spots[k] == p;
    TransportMajor(onion, config, out, spots, k, d);
    assert dialled[k] == out[k];
  }

  /** The downgrade line is written exactly for a direct connection of an agent
      that has some other transport configured. */
  lemma AlertIffDowngrade(onion: string -> bool, config: Config, out: seq<Candidate>, spots: seq<Spot>, k: nat)
    requires Enumerates(onion, config, out, spots) && DirectLast(config.chain) && k < |out|
    ensures (out[k].transport.IsDirect() && |config.chain| > 1) <==>
            (out[k].transport.IsDirect() && exists i :: 0 <= i < |config.chain| && !config.chain[i].IsDirect())
  {
    if |config.chain| > 1 {
      assert !config.chain[0].IsDirect();
    }
    if out[k].transport.IsDirect() && |config.chain| == 1 {
      assert out[k].transport == config.chain[0];
    }
  }

  /** Every candidate names a configured server over a configured transport, never an
      empty address, never an onion address directly; and every such combination is a
      candidate. */
  lemma CandidatesAre(onion: string -> bool, config: Config, out: seq<Candidate>, spots: seq<Spot>, t: nat, server: string)
    requires Enumerates(onion, config, out, spots) && t < |config.chain|
    ensures
      (exists k :: 0 <= k < |out| && spots[k].t == t && out[k].server == server) <==>
        && server != "" && (server == config.server || server in config.fallbackServers)
        && !(config.chain[t].IsDirect() && onion(server))
  {
    var servers := config.Servers();
    if exists k :: 0 <= k < |out| && spots[k].t == t && out[k].server == server {
      var k :| 0 <= k < |out| && spots[k].t == t && out[k].server == server;
      assert spots[k] in spots && UsableSpot(onion, config, spots[k]);
      assert servers[spots[k].s] == server;
    }
    if server != "" && server in servers && !(config.chain[t].IsDirect() && onion(server)) {
      var i :| 0 <= i < |servers| && servers[i] == server;
      assert UsableSpot(onion, config, Spot(t, i)) && Spot(t, i) in spots;
      var k :| 0 <= k < |spots| && spots[k] == Spot(t, i);
      assert out[k].server == server;
    }
  }

  /** The first candidate is the main server over the first transport, where that
      can be used. */
  lemma PreferredIsFirst(onion: string -> bool, config: Config, out: seq<Candidate>, spots: seq<Spot>)
    requires Enumerates(onion, config, out, spots) && config.chain != []
    requires config.server != "" && !(config.chain[0].IsDirect() && onion(config.server))
    ensures out != [] && out[0] == Candidate(config.chain[0], config.server, 0)
  {
    assert UsableSpot(onion, config, Spot(0, 0)) && Spot(0, 0) in spots;
    var k :| 0 <= k < |spots| && spots[k] == Spot(0, 0);
    assert k > 0 ==> Before(spots[0], spots[k]);
  }

  /** Over one transport the main server comes first, then the fallbacks in the order
      they are configured. */
  lemma ServersInOrder(onion: string -> bool, config: Config, out: seq<Candidate>, spots: seq<Spot>, j: nat, k: nat)
    requires Enumerates(onion, config, out, spots) && j < k < |out| && spots[j].t == spots[k].t
    ensures spots[j].s < spots[k].s
    ensures 0 < spots[k].s <= |config.fallbackServers| && out[k].server == config.fallbackServers[spots[k].s - 1]
    ensures out[j].server == if spots[j].s == 0 then config.server else config.fallbackServers[spots[j].s - 1]
  {
    assert Before(spots[j], spots[k]);
  }
}
