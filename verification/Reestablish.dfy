/** Which stored tunnels a reconnecting client gets back
    (getTunnelsToReestablish in server/clients/client_service.go). */
module Reestablish {
  import opened Options

  /** models.Remote; `rest` stands for the columns the matching never reads. */
  datatype Remote = Remote(
    localHost: string, localPort: string, localPortRandom: bool,
    remoteHost: string, remotePort: string, protocol: string,
    acl: Option<string>, rest: seq<string>)
  {
    predicate IsLocalSpecified() {
      localHost != "" && localPort != ""
    }

    /** Remote(): net.JoinHostPort brackets a host that contains a colon. */
    function Target(): string {
      if ':' in remoteHost then "[" + remoteHost + "]:" + remotePort else remoteHost + ":" + remotePort
    }

    /** String(). */
    function Text(): string {
      localHost + ":" + localPort + ":" + Target()
      + (if protocol != "tcp" then "/" + protocol else "")
      + (match acl case None => "" case Some(a) => "(acl:" + a + ")")
    }
  }

  /** The test by which a request claims a stored tunnel: phase one compares the
      whole text, phase two the target and ACL of a randomly placed tunnel. */
  predicate Compatible(x: Remote, o: Remote) {
    if x.IsLocalSpecified() then x.Text() == o.Text()
    else o.localPortRandom && x.Target() == o.Target() && x.acl == o.acl
  }

  /** Interchangeable for a request without a local side. */
  predicate SameClass(a: Remote, b: Remote) {
    a.localPortRandom == b.localPortRandom && a.Target() == b.Target() && a.acl == b.acl
  }

  /** The first unmarked stored tunnel `x` is compatible with, from `from` on. */
  function FirstFree(stored: seq<Remote>, marked: seq<bool>, x: Remote, from: nat): (i: int)
    requires |marked| == |stored| && from <= |stored|
    ensures i == -1 || from <= i < |stored|
    ensures i >= 0 ==> !marked[i] && Compatible(x, stored[i])
    ensures forall k :: from <= k < (if i == -1 then |stored| else i) ==> marked[k] || !Compatible(x, stored[k])
    decreases |stored| - from
  {
    if from == |stored| then -1
    else if !marked[from] && Compatible(x, stored[from]) then from
    else FirstFree(stored, marked, x, from + 1)
  }

  /** One phase: the requests that do (or do not) specify a local side each mark
      the first stored tunnel left for them; `None` when one finds nothing. */
  function Phase(stored: seq<Remote>, wanted: seq<Option<Remote>>, specified: bool, marked: seq<bool>, k: nat)
    : (r: Option<seq<bool>>)
    requires |marked| == |stored| && k <= |wanted|
    ensures r.Some? ==> |r.value| == |stored|
    decreases |wanted| - k
  {
    if k == |wanted| then Some(marked)
    else if !InPhase(wanted[k], specified) then Phase(stored, wanted, specified, marked, k + 1)
    else
      var i := FirstFree(stored, marked, wanted[k].value, 0);
      if i == -1 then None else Phase(stored, wanted, specified, marked[i := true], k + 1)
  }

  predicate InPhase(x: Option<Remote>, specified: bool) {
    x.Some? && x.value.IsLocalSpecified() == specified
  }

  /** A stored tunnel as it is asked for again: a random port is not kept. */
  function Renewed(o: Remote): Remote {
    if o.localPortRandom then o.(localHost := "", localPort := "") else o
  }

  function Left(stored: seq<Remote>, marked: seq<bool>): seq<Remote>
    requires |marked| == |stored|
  {
    if stored == [] then []
    else
      var n := |stored| - 1;
      Left(stored[..n], marked[..n]) + if marked[n] then [] else [Renewed(stored[n])]
  }

  /** A tunnel as it is asked for again: the same in everything but the local side,
      which a random port leaves open. */
  predicate SameTunnel(o: Remote, r: Remote) {
    && r.remoteHost == o.remoteHost && r.remotePort == o.remotePort && r.protocol == o.protocol
    && r.acl == o.acl && r.rest == o.rest && r.localPortRandom == o.localPortRandom
    && if o.localPortRandom then r.localHost == "" && r.localPort == ""
       else r.localHost == o.localHost && r.localPort == o.localPort
  }

  /** The result lists, in order, exactly the stored tunnels at the positions that
      are not marked. */
  ghost predicate Returns(stored: seq<Remote>, marked: seq<bool>, result: seq<Remote>, at: seq<nat>)
    requires |marked| == |stored|
  {
    && |at| == |result|
    && (forall k :: 0 < k < |at| ==> at[k - 1] < at[k])
    && (forall i: nat :: i in at <==> i < |stored| && !marked[i])
    && (forall k :: 0 <= k < |at| ==> at[k] in at && SameTunnel(stored[at[k]], result[k]))
  }

  lemma RenewedIsSame(o: Remote)
    ensures SameTunnel(o, Renewed(o))
  {}

  /** One more stored tunnel, marked or not. */
  lemma OneMore(stored: seq<Remote>, marked: seq<bool>, result: seq<Remote>, at: seq<nat>, o: Remote, mark: bool)
    requires |marked| == |stored| && Returns(stored, marked, result, at)
    ensures Returns(stored + [o], marked + [mark], if mark then result else result + [Renewed(o)],
                    if mark then at else at + [|stored|])
  {
    hide SameTunnel, Renewed;
    RenewedIsSame(o);
    var n := |stored|;
    var more := if mark then at else at + [n];
    forall i: nat ensures i in more <==> i < n + 1 && !(marked + [mark])[i] {
      assert i in more <==> i in at || (!mark && i == n);
    }
    forall k | 0 < k < |more| ensures more[k - 1] < more[k] {
      assert at != [] ==> at[|at| - 1] in at;
    }
  }

  lemma {:induction false} LeftReturns(stored: seq<Remote>, marked: seq<bool>) returns (at: seq<nat>)
    requires |marked| == |stored|
    ensures Returns(stored, marked, Left(stored, marked), at)
  {
    hide Returns, Renewed;
    if stored == [] {
      at := [];
      NothingLeft();
      assert marked == [];
    } else {
      var n := |stored| - 1;
      var before := LeftReturns(stored[..n], marked[..n]);
      OneMore(stored[..n], marked[..n], Left(stored[..n], marked[..n]), before, stored[n], marked[n]);
      at := if marked[n] then before else before + [n];
      assert stored[..n] + [stored[n]] == stored && marked[..n] + [marked[n]] == marked;
      var left := Left(stored[..n], marked[..n]);
      assert Left(stored, marked) == if marked[n] then left else left + [Renewed(stored[n])];
    }
  }

  lemma NothingLeft()
    ensures Returns([], [], [], [])
  {}

  /** The marks a successful call ends with. */
  function Marks(stored: seq<Remote>, wanted: seq<Option<Remote>>): (r: Option<seq<bool>>)
    ensures r.Some? ==> |r.value| == |stored|
  {
    if |wanted| > |stored| then None
    else
      var first := Phase(stored, wanted, true, seq(|stored|, _ => false), 0);
      if first.None? then None else Phase(stored, wanted, false, first.value, 0)
  }

  /** getTunnelsToReestablish. Go returns a nil slice both for giving up (`None`
      here) and for having nothing left to re-establish. */
  method GetTunnelsToReestablish(stored: seq<Remote>, wanted: seq<Option<Remote>>) returns (r: Option<seq<Remote>>)
    ensures r.Some? <==> Marks(stored, wanted).Some?
    ensures r.Some? ==> r.value == Left(stored, Marks(stored, wanted).value)
    ensures r.Some? ==> exists at :: Returns(stored, Marks(stored, wanted).value, r.value, at)
  {
    if |wanted| > |stored| {
      return None;
    }
    var marked := new bool[|stored|](_ => false);
    assert marked[..] == seq(|stored|, _ => false);
    var ok := MarkPhase(stored, wanted, true, marked);
    if !ok {
      return None;
    }
    ok := MarkPhase(stored, wanted, false, marked);
    if !ok {
      return None;
    }
    var res := [];
    for i := 0 to |stored|
      invariant res == Left(stored[..i], marked[..i])
    {
      assert stored[..i + 1][..i] == stored[..i] && marked[..i + 1][..i] == marked[..i];
      if marked[i] {
        continue;
      }
      res := res + [Renewed(stored[i])];
    }
    assert stored[..|stored|] == stored && marked[..|stored|] == marked[..];
    ghost var at := LeftReturns(stored, marked[..]);
    r := Some(res);
  }

  /** The loops labelled loop1 (`specified`) and loop2. */
  method MarkPhase(stored: seq<Remote>, wanted: seq<Option<Remote>>, specified: bool, marked: array<bool>)
    returns (ok: bool)
    requires marked.Length == |stored|
    modifies marked
    ensures ok <==> Phase(stored, wanted, specified, old(marked[..]), 0).Some?
    ensures ok ==> marked[..] == Phase(stored, wanted, specified, old(marked[..]), 0).value
  {
    ghost var start := marked[..];
    for k := 0 to |wanted|
      invariant Phase(stored, wanted, specified, start, 0) == Phase(stored, wanted, specified, marked[..], k)
    {
      if wanted[k].None? || wanted[k].value.IsLocalSpecified() != specified {
        continue;
      }
      var found := false;
      for i := 0 to |stored|
        invariant !found
        invariant FirstFree(stored, marked[..], wanted[k].value, 0) == FirstFree(stored, marked[..], wanted[k].value, i)
        invariant Phase(stored, wanted, specified, start, 0) == Phase(stored, wanted, specified, marked[..], k)
      {
        if !marked[i] && Compatible(wanted[k].value, stored[i]) {
          ghost var before := marked[..];
          marked[i] := true;
          assert marked[..] == before[i := true];
          found := true;
          break;
        }
      }
      if !found {
        return false;
      }
    }
    return true;
  }

  /** An IPv6 target is written in brackets, so that the port can be told from it; no
      other is. */
  lemma TargetForm(r: Remote)
    requires r.remoteHost != "" && r.remoteHost[0] != '['
    ensures ':' in r.remoteHost <==> r.Target()[0] == '['
    ensures var n := |r.Target()| - |r.remotePort|; n > 0 && r.Target()[n..] == r.remotePort && r.Target()[n - 1] == ':'
  {}
}
