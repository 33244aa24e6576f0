/** Soundness and completeness of the two-phase greedy matching, and exactly
    which stored tunnels it is complete for. */
module ReestablishMatching {
  import opened Reestablish
  import opened Options

  /** An injection from the requests that are present to compatible stored
      tunnels; an absent (nil) request is sent to -1. */
  ghost predicate Matching(stored: seq<Remote>, wanted: seq<Option<Remote>>, f: seq<int>) {
    && |f| == |wanted|
    && (forall k :: 0 <= k < |f| ==> f[k] == -1 || Sends(stored, wanted, f, k))
    && (forall k :: 0 <= k < |f| ==> (f[k] == -1 <==> wanted[k].None?))
    && Injective(f)
  }

  ghost predicate Sends(stored: seq<Remote>, wanted: seq<Option<Remote>>, f: seq<int>, k: nat)
    requires |f| == |wanted| && k < |f|
  {
    wanted[k].Some? && 0 <= f[k] < |stored| && Compatible(wanted[k].value, stored[f[k]])
  }

  ghost predicate Injective(f: seq<int>) {
    forall j, k :: 0 <= j < k < |f| && f[j] != -1 ==> f[j] != f[k]
  }

  /** What the marks stand for halfway through: the requests served so far. */
  ghost predicate Partial(stored: seq<Remote>, wanted: seq<Option<Remote>>, f: seq<int>, marked: seq<bool>) {
    && |f| == |wanted| && |marked| == |stored|
    && (forall k :: 0 <= k < |f| ==> f[k] == -1 || Sends(stored, wanted, f, k))
    && Injective(f)
    && (forall i :: 0 <= i < |marked| ==> (marked[i] <==> i in f))
  }

  ghost predicate Extends(g: seq<int>, f: seq<int>) {
    |g| == |f| && forall k :: 0 <= k < |f| && f[k] != -1 ==> g[k] == f[k]
  }

  /** Nothing from position `k` on that belongs to this phase is served yet. */
  ghost predicate Unserved(wanted: seq<Option<Remote>>, specified: bool, f: seq<int>, k: nat)
    requires |f| == |wanted|
  {
    forall j :: k <= j < |f| && InPhase(wanted[j], specified) ==> f[j] == -1
  }

  ghost predicate Served(wanted: seq<Option<Remote>>, specified: bool, f: seq<int>, k: nat)
    requires |f| == |wanted|
  {
    forall j :: 0 <= j < k && j < |f| && InPhase(wanted[j], specified) ==> f[j] != -1
  }

  lemma ServeOne(stored: seq<Remote>, wanted: seq<Option<Remote>>, f: seq<int>, marked: seq<bool>, k: nat, i: nat)
    requires Partial(stored, wanted, f, marked) && k < |f| && f[k] == -1 && wanted[k].Some?
    requires i < |stored| && !marked[i] && Compatible(wanted[k].value, stored[i])
    ensures Partial(stored, wanted, f[k := i], marked[i := true])
  {
    var f', marked' := f[k := i], marked[i := true];
    forall j | 0 <= j < |f'| ensures f'[j] == -1 || Sends(stored, wanted, f', j) {
      assert f[j] == -1 || Sends(stored, wanted, f, j);
    }
    forall n | 0 <= n < |marked'| ensures marked'[n] <==> n in f' {
      if n == i {
        assert f'[k] == i;
      } else if n in f {
        var j :| 0 <= j < |f| && f[j] == n;
        assert f'[j] == n;
      }
    }
  }

  /** A phase that succeeds serves exactly its own requests. */
  lemma {:induction false} PhaseSound(stored: seq<Remote>, wanted: seq<Option<Remote>>, specified: bool, marked: seq<bool>, k: nat, f: seq<int>)
    returns (f': seq<int>)
    requires Partial(stored, wanted, f, marked) && k <= |wanted|
    requires Phase(stored, wanted, specified, marked, k).Some?
    requires Unserved(wanted, specified, f, k) && Served(wanted, specified, f, k)
    ensures Partial(stored, wanted, f', Phase(stored, wanted, specified, marked, k).value)
    ensures Extends(f', f) && Served(wanted, specified, f', |wanted|)
    ensures forall j :: 0 <= j < |f| && !InPhase(wanted[j], specified) ==> f'[j] == f[j]
    decreases |wanted| - k
  {
    hide Compatible, Sends;
    if k == |wanted| {
      f' := f;
    } else if !InPhase(wanted[k], specified) {
      f' := PhaseSound(stored, wanted, specified, marked, k + 1, f);
    } else {
      var i := FirstFree(stored, marked, wanted[k].value, 0);
      ServeOne(stored, wanted, f, marked, k, i);
      f' := PhaseSound(stored, wanted, specified, marked[i := true], k + 1, f[k := i]);
    }
  }

  function Nowhere(n: nat): seq<int> {
    seq(n, _ => -1)
  }

  lemma NothingServed(stored: seq<Remote>, wanted: seq<Option<Remote>>)
    ensures Partial(stored, wanted, Nowhere(|wanted|), seq(|stored|, _ => false))
  {}

  /** Soundness: the marks of a successful call are the image of an injection
      from the requests that are present to compatible stored tunnels. */
  lemma MarksSound(stored: seq<Remote>, wanted: seq<Option<Remote>>) returns (f: seq<int>)
    requires Marks(stored, wanted).Some?
    ensures Matching(stored, wanted, f)
    ensures forall i :: 0 <= i < |stored| ==> (Marks(stored, wanted).value[i] <==> i in f)
  {
    var clear: seq<bool> := seq(|stored|, _ => false);
    NothingServed(stored, wanted);
    var first := Phase(stored, wanted, true, clear, 0).value;
    var f1 := PhaseSound(stored, wanted, true, clear, 0, Nowhere(|wanted|));
    f := PhaseSound(stored, wanted, false, first, 0, f1);
    forall k | 0 <= k < |f| ensures f[k] == -1 <==> wanted[k].None? {
      if wanted[k].Some? {
        assert InPhase(wanted[k], true) || InPhase(wanted[k], false);
      }
    }
  }

  /** No randomly placed tunnel comes before one of the same text but another
      class. Tunnels with pairwise different texts are a special case. */
  ghost predicate Orderly(stored: seq<Remote>) {
    forall i, j :: 0 <= i < j < |stored| && stored[i].Text() == stored[j].Text() && stored[i].localPortRandom
      ==> SameClass(stored[i], stored[j])
  }

  /** A request is served as it was asked: with a local side, by a tunnel of the same
      text; without one, by a tunnel on a random port with the same target and access
      list. */
  lemma ServedAsAsked(stored: seq<Remote>, wanted: seq<Option<Remote>>, f: seq<int>, k: nat)
    requires Matching(stored, wanted, f) && k < |wanted| && wanted[k].Some?
    ensures 0 <= f[k] < |stored|
    ensures
      var x, o := wanted[k].value, stored[f[k]];
      if x.localHost != "" && x.localPort != "" then x.Text() == o.Text()
      else o.localPortRandom && x.Target() == o.Target() && x.acl == o.acl
  {
    assert Sends(stored, wanted, f, k);
  }

  /** Between tunnels with the same local side and target, the text tells access
      lists apart, and protocols apart. */
  lemma TextTells(a: Remote, b: Remote)
    requires a.localHost == b.localHost && a.localPort == b.localPort && a.Target() == b.Target()
    ensures a.protocol == b.protocol ==> (a.Text() == b.Text() <==> a.acl == b.acl)
    ensures a.acl == b.acl ==> (a.Text() == b.Text() <==> a.protocol == b.protocol)
  {
    var head := a.localHost + ":" + a.localPort + ":" + a.Target();
    var pa, pb := if a.protocol != "tcp" then "/" + a.protocol else "", if b.protocol != "tcp" then "/" + b.protocol else "";
    var la, lb := match a.acl case None => "" case Some(x) => "(acl:" + x + ")", match b.acl case None => "" case Some(x) => "(acl:" + x + ")";
    assert a.Text() == head + pa + la && b.Text() == head + pb + lb;
    if a.Text() == b.Text() {
      if a.protocol == b.protocol {
        SameEnd(head + pa, la, lb);
        AclTells(a.acl, b.acl);
      }
      if a.acl == b.acl {
        SameMiddle(head, pa, pb, la);
        if a.protocol != "tcp" && b.protocol != "tcp" {
          SameEnd("/", a.protocol, b.protocol);
        }
      }
    }
  }

  lemma SameEnd(head: string, x: string, y: string)
    requires head + x == head + y
    ensures x == y
  {
    assert (head + x)[|head|..] == x && (head + y)[|head|..] == y;
  }

  lemma SameMiddle(head: string, x: string, y: string, tail: string)
    requires head + x + tail == head + y + tail
    ensures x == y
  {
    assert |x| == |y|;
    assert (head + x + tail)[|head|..|head| + |x|] == x && (head + y + tail)[|head|..|head| + |y|] == y;
  }

  lemma AclTells(a: Option<string>, b: Option<string>)
    requires (match a case None => "" case Some(x) => "(acl:" + x + ")") == (match b case None => "" case Some(x) => "(acl:" + x + ")")
    ensures a == b
  {
    if a.Some? && b.Some? {
      SameMiddle("(acl:", a.value, b.value, ")");
    }
  }

  /** What becomes of the stored tunnels when a call succeeds: each is either
      claimed by exactly one request or returned, and none is both. */
  lemma ClaimedOrReturned(stored: seq<Remote>, wanted: seq<Option<Remote>>) returns (f: seq<int>, at: seq<nat>)
    requires Marks(stored, wanted).Some?
    ensures Matching(stored, wanted, f)
    ensures Returns(stored, Marks(stored, wanted).value, Left(stored, Marks(stored, wanted).value), at)
    ensures forall i :: 0 <= i < |stored| ==> (i in f <==> i !in at)
  {
    hide Marks, Left, Matching;
    f := MarksSound(stored, wanted);
    at := LeftReturns(stored, Marks(stored, wanted).value);
  }

  /** The exchange step: a matching that extends what is served so far can be
      changed to serve the next request greedily. */
  lemma Exchange(stored: seq<Remote>, wanted: seq<Option<Remote>>, specified: bool, f: seq<int>, marked: seq<bool>, k: nat, g: seq<int>)
    returns (g': seq<int>)
    requires Orderly(stored) && Partial(stored, wanted, f, marked)
    requires k < |f| && f[k] == -1 && InPhase(wanted[k], specified)
    requires !specified ==> Served(wanted, true, f, |f|)
    requires Matching(stored, wanted, g) && Extends(g, f)
    ensures var i := FirstFree(stored, marked, wanted[k].value, 0);
            i != -1 && Matching(stored, wanted, g') && Extends(g', f[k := i])
  {
    hide Compatible, Orderly;
    var x := wanted[k].value;
    var i := FirstFree(stored, marked, x, 0);
    var j := g[k];
    assert Sends(stored, wanted, g, k);
    assert !marked[j];
    assert 0 <= i <= j;
    if i == j {
      g' := g;
    } else if i !in g {
      g' := g[k := i];
      Reroute(stored, wanted, g, k, i);
    } else {
      var y :| 0 <= y < |g| && g[y] == i;
      assert f[y] == -1;
      assert Sends(stored, wanted, g, y);
      SwapIsCompatible(stored, x, wanted[y].value, i, j);
      g' := g[k := i][y := j];
      Swap(stored, wanted, g, k, y);
    }
  }

  lemma SwapIsCompatible(stored: seq<Remote>, x: Remote, y: Remote, i: nat, j: nat)
    requires i < j < |stored| && Orderly(stored)
    requires Compatible(x, stored[i]) && Compatible(x, stored[j]) && Compatible(y, stored[i])
    requires !x.IsLocalSpecified() ==> !y.IsLocalSpecified()
    ensures Compatible(y, stored[j])
  {}

  lemma Reroute(stored: seq<Remote>, wanted: seq<Option<Remote>>, g: seq<int>, k: nat, i: nat)
    requires Matching(stored, wanted, g) && k < |g| && wanted[k].Some?
    requires i < |stored| && i !in g && Compatible(wanted[k].value, stored[i])
    ensures Matching(stored, wanted, g[k := i])
  {
    var g' := g[k := i];
    forall n | 0 <= n < |g'| ensures g'[n] == -1 || Sends(stored, wanted, g', n) {
      assert g[n] == -1 || Sends(stored, wanted, g, n);
    }
  }

  lemma Swap(stored: seq<Remote>, wanted: seq<Option<Remote>>, g: seq<int>, k: nat, y: nat)
    requires Matching(stored, wanted, g) && k < |g| && y < |g| && k != y
    requires wanted[k].Some? && wanted[y].Some?
    requires Compatible(wanted[k].value, stored[g[y]]) && Compatible(wanted[y].value, stored[g[k]])
    ensures Matching(stored, wanted, g[k := g[y]][y := g[k]])
  {
    hide Compatible, Injective;
    var g' := g[k := g[y]][y := g[k]];
    forall n | 0 <= n < |g'| ensures g'[n] == -1 || Sends(stored, wanted, g', n) {
      assert g[n] == -1 || Sends(stored, wanted, g, n);
    }
    SwapInjective(g, k, y);
  }

  lemma SwapInjective(g: seq<int>, k: nat, y: nat)
    requires Injective(g) && k < |g| && y < |g| && k != y
    ensures Injective(g[k := g[y]][y := g[k]])
  {}

  lemma {:induction false} PhaseComplete(stored: seq<Remote>, wanted: seq<Option<Remote>>, specified: bool, marked: seq<bool>, k: nat, f: seq<int>, g: seq<int>)
    returns (f': seq<int>, g': seq<int>)
    requires Orderly(stored) && Partial(stored, wanted, f, marked) && k <= |wanted|
    requires Unserved(wanted, specified, f, k) && Served(wanted, specified, f, k)
    requires !specified ==> Served(wanted, true, f, |f|)
    requires Matching(stored, wanted, g) && Extends(g, f)
    ensures Phase(stored, wanted, specified, marked, k).Some?
    ensures Partial(stored, wanted, f', Phase(stored, wanted, specified, marked, k).value)
    ensures Served(wanted, specified, f', |wanted|)
    ensures forall j :: 0 <= j < |f| && !InPhase(wanted[j], specified) ==> f'[j] == f[j]
    ensures Matching(stored, wanted, g') && Extends(g', f')
    decreases |wanted| - k
  {
    hide Compatible, Sends, Matching, Orderly;
    if k == |wanted| {
      f', g' := f, g;
    } else if !InPhase(wanted[k], specified) {
      f', g' := PhaseComplete(stored, wanted, specified, marked, k + 1, f, g);
    } else {
      var h := Exchange(stored, wanted, specified, f, marked, k, g);
      var i := FirstFree(stored, marked, wanted[k].value, 0);
      ServeOne(stored, wanted, f, marked, k, i);
      f', g' := PhaseComplete(stored, wanted, specified, marked[i := true], k + 1, f[k := i], h);
    }
  }

  /** Completeness: for orderly stored tunnels, a call whose requests have a
      matching succeeds. */
  lemma MarksComplete(stored: seq<Remote>, wanted: seq<Option<Remote>>, g: seq<int>)
    requires Orderly(stored) && |wanted| <= |stored| && Matching(stored, wanted, g)
    ensures Marks(stored, wanted).Some?
  {
    var clear: seq<bool> := seq(|stored|, _ => false);
    NothingServed(stored, wanted);
    var f1, g1 := PhaseComplete(stored, wanted, true, clear, 0, Nowhere(|wanted|), g);
    var first := Phase(stored, wanted, true, clear, 0).value;
    var f2, g2 := PhaseComplete(stored, wanted, false, first, 0, f1, g1);
  }

  ghost predicate Solvable(stored: seq<Remote>, wanted: seq<Option<Remote>>) {
    exists f :: Matching(stored, wanted, f)
  }

  /** For orderly stored tunnels the code gives up exactly when the list of
      requests, absent ones included, is longer than the list of tunnels, or no
      matching exists. */
  lemma GivesUpIff(stored: seq<Remote>, wanted: seq<Option<Remote>>)
    requires Orderly(stored)
    ensures Marks(stored, wanted).None? <==> |wanted| > |stored| || !Solvable(stored, wanted)
  {
    if Marks(stored, wanted).Some? {
      var f := MarksSound(stored, wanted);
    } else if |wanted| <= |stored| && Solvable(stored, wanted) {
      var g :| Matching(stored, wanted, g);
      MarksComplete(stored, wanted, g);
    }
  }

  /** The length test counts absent requests: with one of them beside a request
      for every stored tunnel, the code gives up although all can be served. */
  lemma AbsentRequestGivesUp(x: Remote)
    requires x.IsLocalSpecified()
    ensures Orderly([x]) && Solvable([x], [Some(x), None]) && Marks([x], [Some(x), None]).None?
  {
    assert Matching([x], [Some(x), None], [0, -1]);
  }

  lemma DistinctTextsAreOrderly(stored: seq<Remote>)
    requires forall i, j :: 0 <= i < j < |stored| ==> stored[i].Text() != stored[j].Text()
    ensures Orderly(stored)
  {}

  // --- Orderly is exactly what completeness needs --------------------------------

  /** `c` equal requests one after the other. */
  function Repeat(stored: seq<Remote>, x: Remote, marked: seq<bool>, c: nat): (r: Option<seq<bool>>)
    requires |marked| == |stored|
    ensures r.Some? ==> |r.value| == |stored|
    decreases c
  {
    if c == 0 then Some(marked)
    else
      var i := FirstFree(stored, marked, x, 0);
      if i == -1 then None else Repeat(stored, x, marked[i := true], c - 1)
  }

  function FreeCount(stored: seq<Remote>, x: Remote, marked: seq<bool>): nat
    requires |marked| == |stored|
  {
    if stored == [] then 0
    else
      var n := |stored| - 1;
      FreeCount(stored[..n], x, marked[..n]) + if !marked[n] && Compatible(x, stored[n]) then 1 else 0
  }

  lemma {:induction false} FreeCountMark(stored: seq<Remote>, x: Remote, marked: seq<bool>, i: nat)
    requires |marked| == |stored| && i < |stored| && !marked[i]
    ensures FreeCount(stored, x, marked) ==
              FreeCount(stored, x, marked[i := true]) + if Compatible(x, stored[i]) then 1 else 0
  {
    hide Compatible;
    var n := |stored| - 1;
    if i == n {
      assert marked[i := true][..n] == marked[..n];
    } else {
      assert marked[i := true][..n] == marked[..n][i := true];
      FreeCountMark(stored[..n], x, marked[..n], i);
    }
  }

  lemma {:induction false} FreeCountZero(stored: seq<Remote>, x: Remote, marked: seq<bool>)
    requires |marked| == |stored|
    requires forall k :: 0 <= k < |stored| ==> marked[k] || !Compatible(x, stored[k])
    ensures FreeCount(stored, x, marked) == 0
  {
    hide Compatible;
    if stored != [] {
      FreeCountZero(stored[..|stored| - 1], x, marked[..|stored| - 1]);
    }
  }

  lemma {:induction false} RepeatIff(stored: seq<Remote>, x: Remote, marked: seq<bool>, c: nat)
    requires |marked| == |stored|
    ensures Repeat(stored, x, marked, c).Some? <==> c <= FreeCount(stored, x, marked)
    decreases c
  {
    hide Compatible;
    if c > 0 {
      var i := FirstFree(stored, marked, x, 0);
      if i == -1 {
        FreeCountZero(stored, x, marked);
      } else {
        FreeCountMark(stored, x, marked, i);
        RepeatIff(stored, x, marked[i := true], c - 1);
      }
    }
  }

  lemma {:induction false} RepeatOneMore(stored: seq<Remote>, x: Remote, marked: seq<bool>, c: nat)
    requires |marked| == |stored| && Repeat(stored, x, marked, c).Some?
    ensures var m := Repeat(stored, x, marked, c).value;
            Repeat(stored, x, marked, c + 1) == Repeat(stored, x, m, 1)
    decreases c
  {
    hide Compatible;
    if c > 0 {
      RepeatOneMore(stored, x, marked[FirstFree(stored, marked, x, 0) := true], c - 1);
    }
  }

  /** Repeating a request works its way up to any tunnel it is compatible with,
      without having touched anything above. */
  lemma {:induction false} ReachTunnel(stored: seq<Remote>, x: Remote, i: nat, clear: seq<bool>, c: nat) returns (c': nat)
    requires |clear| == |stored| && i < |stored| && Compatible(x, stored[i])
    requires Repeat(stored, x, clear, c).Some?
    requires var m := Repeat(stored, x, clear, c).value;
             !m[i] && forall t :: 0 <= t < |m| && m[t] ==> t < FirstFree(stored, m, x, 0)
    ensures Repeat(stored, x, clear, c').Some?
    ensures var m := Repeat(stored, x, clear, c').value;
            FirstFree(stored, m, x, 0) == i && forall t :: 0 <= t < |m| && m[t] ==> t < i
    decreases i - FirstFree(stored, Repeat(stored, x, clear, c).value, x, 0)
  {
    hide Compatible;
    var m := Repeat(stored, x, clear, c).value;
    var n := FirstFree(stored, m, x, 0);
    if n == i {
      c' := c;
    } else {
      RepeatOneMore(stored, x, clear, c);
      var m' := m[n := true];
      assert Repeat(stored, x, m, 1) == Some(m') by {
        assert Repeat(stored, x, m', 0) == Some(m');
      }
      var n' := FirstFree(stored, m', x, 0);
      assert n < n' <= i;
      c' := ReachTunnel(stored, x, i, clear, c + 1);
    }
  }

  function Copies(x: Remote, a: nat, u: Remote, b: nat): (w: seq<Option<Remote>>)
    ensures |w| == a + b
    ensures forall k :: 0 <= k < a ==> w[k] == Some(x)
    ensures forall k :: a <= k < a + b ==> w[k] == Some(u)
  {
    seq(a, _ => Some(x)) + seq(b, _ => Some(u))
  }

  lemma {:induction false} PhaseOfCopies(stored: seq<Remote>, x: Remote, a: nat, u: Remote, b: nat, marked: seq<bool>, k: nat)
    requires |marked| == |stored| && k <= a + b && x.IsLocalSpecified() && !u.IsLocalSpecified()
    ensures var w := Copies(x, a, u, b);
            && Phase(stored, w, true, marked, k) == Repeat(stored, x, marked, if k < a then a - k else 0)
            && Phase(stored, w, false, marked, k) == Repeat(stored, u, marked, if k < a then b else a + b - k)
    decreases a + b - k
  {
    hide Compatible, Copies;
    var w := Copies(x, a, u, b);
    if k < a + b {
      PhaseOfCopies(stored, x, a, u, b, marked, k + 1);
      var i := FirstFree(stored, marked, w[k].value, 0);
      if i != -1 {
        PhaseOfCopies(stored, x, a, u, b, marked[i := true], k + 1);
      }
    }
  }

  /** Serving a stretch of equal requests. */
  lemma {:induction false} ServeCopies(stored: seq<Remote>, wanted: seq<Option<Remote>>, x: Remote, f: seq<int>, marked: seq<bool>, k: nat, c: nat)
    returns (f': seq<int>)
    requires Partial(stored, wanted, f, marked) && k + c <= |wanted|
    requires forall j :: k <= j < k + c ==> wanted[j] == Some(x) && f[j] == -1
    requires Repeat(stored, x, marked, c).Some?
    ensures Partial(stored, wanted, f', Repeat(stored, x, marked, c).value)
    ensures forall j :: 0 <= j < |f| && !(k <= j < k + c) ==> f'[j] == f[j]
    ensures forall j :: k <= j < k + c ==> f'[j] != -1
    decreases c
  {
    hide Compatible, Sends;
    if c == 0 {
      f' := f;
    } else {
      var i := FirstFree(stored, marked, x, 0);
      ServeOne(stored, wanted, f, marked, k, i);
      f' := ServeCopies(stored, wanted, x, f[k := i], marked[i := true], k + 1, c - 1);
    }
  }

  /** Where two tunnels of the same text break the order, there are requests
      that have a matching and for which the code gives up all the same. */
  lemma DisorderDefeatsGreedy(stored: seq<Remote>, i: nat, j: nat) returns (wanted: seq<Option<Remote>>)
    requires i < j < |stored| && stored[i].IsLocalSpecified()
    requires stored[i].Text() == stored[j].Text() && stored[i].localPortRandom && !SameClass(stored[i], stored[j])
    ensures forall k :: 0 <= k < |wanted| ==> wanted[k].Some?
    ensures |wanted| <= |stored| && Solvable(stored, wanted) && Marks(stored, wanted).None?
  {
    var x, u := stored[i], stored[i].(localHost := "");
    var clear: seq<bool> := seq(|stored|, _ => false);
    assert Repeat(stored, x, clear, 0) == Some(clear);
    var c := ReachTunnel(stored, x, i, clear, 0);
    var m := Repeat(stored, x, clear, c).value;
    var n := FreeCount(stored, u, m[j := true]);
    wanted := Copies(x, c + 1, u, n);
    GreedyMisses(stored, x, u, i, j, clear, c, n);
    AlternativeServes(stored, x, u, i, j, c, n);
    NoMoreThanStored(stored, wanted);
  }

  lemma NoMoreThanStored(stored: seq<Remote>, wanted: seq<Option<Remote>>)
    requires Solvable(stored, wanted) && forall k :: 0 <= k < |wanted| ==> wanted[k].Some?
    ensures |wanted| <= |stored|
  {
    hide Compatible;
    var f :| Matching(stored, wanted, f);
    forall k | 0 <= k < |f| ensures 0 <= f[k] < |stored| {
      assert f[k] == -1 || Sends(stored, wanted, f, k);
    }
    Pigeonhole(f, |stored|);
  }

  lemma GreedyMisses(stored: seq<Remote>, x: Remote, u: Remote, i: nat, j: nat, clear: seq<bool>, c: nat, n: nat)
    requires i < j < |stored| && |clear| == |stored| && clear == seq(|stored|, _ => false)
    requires x.IsLocalSpecified() && !u.IsLocalSpecified()
    requires Compatible(u, stored[i]) && !Compatible(u, stored[j])
    requires Repeat(stored, x, clear, c).Some?
    requires var m := Repeat(stored, x, clear, c).value;
             FirstFree(stored, m, x, 0) == i && !m[j] && n == FreeCount(stored, u, m[j := true])
    ensures Marks(stored, Copies(x, c + 1, u, n)).None?
  {
    hide Compatible, Copies, FirstFree, FreeCount;
    var m := Repeat(stored, x, clear, c).value;
    RepeatOneMore(stored, x, clear, c);
    assert !m[i];
    assert Repeat(stored, x, m, 1) == Some(m[i := true]) by {
      assert Repeat(stored, x, m[i := true], 0) == Some(m[i := true]);
    }
    FreeCountMark(stored, u, m, i);
    FreeCountMark(stored, u, m, j);
    PhaseOfCopies(stored, x, c + 1, u, n, clear, 0);
    PhaseOfCopies(stored, x, c + 1, u, n, m[i := true], 0);
    RepeatIff(stored, u, m[i := true], n);
  }

  lemma AlternativeServes(stored: seq<Remote>, x: Remote, u: Remote, i: nat, j: nat, c: nat, n: nat)
    requires i < j < |stored| && Compatible(x, stored[j])
    requires var clear := seq(|stored|, _ => false);
             Repeat(stored, x, clear, c).Some? &&
             var m := Repeat(stored, x, clear, c).value;
             !m[j] && n == FreeCount(stored, u, m[j := true])
    ensures Solvable(stored, Copies(x, c + 1, u, n))
  {
    hide Compatible, Copies, FreeCount, Sends;
    var clear: seq<bool> := seq(|stored|, _ => false);
    var wanted := Copies(x, c + 1, u, n);
    var m := Repeat(stored, x, clear, c).value;
    NothingServed(stored, wanted);
    var f := ServeCopies(stored, wanted, x, Nowhere(|wanted|), clear, 0, c);
    ServeOne(stored, wanted, f, m, c, j);
    RepeatIff(stored, u, m[j := true], n);
    var f' := ServeCopies(stored, wanted, u, f[c := j], m[j := true], c + 1, n);
    assert Matching(stored, wanted, f');
  }

  lemma {:induction false} Pigeonhole(f: seq<int>, n: nat)
    requires Injective(f) && forall k :: 0 <= k < |f| ==> 0 <= f[k] < n
    ensures |f| <= n
    decreases n
  {
    if k :| 0 <= k < |f| && f[k] == n - 1 {
      var g := f[..k] + f[k + 1..];
      forall a, b | 0 <= a < b < |g| ensures g[a] != g[b] {
        assert g[a] == f[if a < k then a else a + 1] && g[b] == f[if b < k then b else b + 1];
      }
      Pigeonhole(g, n - 1);
    } else if f != [] {
      assert 0 <= f[0] < n;
      Pigeonhole(f, n - 1);
    }
  }

  /** The greedy code finds a matching whenever there is one, for every list of
      requests, exactly when the stored tunnels are orderly. */
  lemma CompleteIffOrderly(stored: seq<Remote>)
    requires forall i :: 0 <= i < |stored| ==> stored[i].IsLocalSpecified()
    ensures Orderly(stored) <==>
              forall wanted :: |wanted| <= |stored| && Solvable(stored, wanted) ==> Marks(stored, wanted).Some?
  {
    hide Marks, Matching, SameClass;
    if Orderly(stored) {
      forall wanted | |wanted| <= |stored| && Solvable(stored, wanted) ensures Marks(stored, wanted).Some? {
        GivesUpIff(stored, wanted);
      }
    } else {
      var i, j :| 0 <= i < j < |stored| && stored[i].Text() == stored[j].Text()
        && stored[i].localPortRandom && !SameClass(stored[i], stored[j]);
      var wanted := DisorderDefeatsGreedy(stored, i, j);
    }
  }
}
