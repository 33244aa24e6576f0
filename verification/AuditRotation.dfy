/** Rotation of the audit-log database (server/auditlog/rotation.go), on a file
    system in which every step may fail.

    A directory maps file names to the entries stored in them. Each attempt
    comes with the faults it meets, so a statement about every attempt is a
    statement about every combination of faults. */
module AuditRotation {
  import opened RotatedNames
  import opened Sequences
  import Wildcards
  import AuditChain

  type Entry = AuditChain.Entry
  type Files = map<string, seq<Entry>>

  /** The provider's database handle: absent, or present and maybe closed. */
  datatype Handle = Missing | Present(closed: bool)

  /** Opening a database creates the file if it is not there. A failed attempt
      may have created it already. */
  datatype OpenOutcome = Opens | FailsBefore | FailsAfterCreating

  datatype Faults = Faults(
    close: bool, stat: bool, rename: bool, open: OpenOutcome,
    restore: bool, reopen: OpenOutcome, removeAt: nat)

  datatype Outcome = Done | Failed | Panicked

  datatype State = State(files: Files, handle: Handle)

  function WithLive(files: Files): (r: Files)
    ensures forall n :: n in files ==> n in r && r[n] == files[n]
  {
    if LIVE in files then files else files[LIVE := []]
  }

  function AfterOpening(files: Files, o: OpenOutcome): Files {
    if o == FailsBefore then files else WithLive(files)
  }

  function Move(files: Files, from: string, to: string): Files
    requires from in files
  {
    (files - {from})[to := files[from]]
  }

  function Reopened(files: Files, o: OpenOutcome): State {
    State(AfterOpening(files, o), if o == Opens then Present(false) else Missing)
  }

  /** rotate, up to the pruning of old files. */
  function Rotated(s: State, name: string, f: Faults): (State, Outcome) {
    if s.handle == Missing then (s, Panicked)
    else if f.close then (s.(handle := Present(true)), Failed)
    else if f.stat || name in s.files || f.rename || LIVE !in s.files then
      (Reopened(s.files, f.reopen), Failed)
    else
      var moved := Move(s.files, LIVE, name);
      var created := AfterOpening(moved, f.open);
      if f.open == Opens then (State(created, Present(false)), Done)
      else if f.restore then (Reopened(created, f.reopen), Failed)
      else (Reopened(Move(created, name, LIVE), f.reopen), Failed)
  }

  /** filepath.Glob followed by sort.Strings: the names the pattern covers, in
      increasing order. */
  ghost predicate IsListing(listing: seq<string>, files: Files) {
    && Sorted(listing)
    && (forall n :: n in listing <==> n in files && Wildcards.Glob(PATTERN, n))
  }

  /** The names a prune removes before the removal numbered `removeAt` fails. */
  function Victims(listing: seq<string>, retention: int, removeAt: nat): seq<string> {
    if retention <= 0 || |listing| <= retention then []
    else
      var surplus := |listing| - retention;
      listing[..if removeAt < surplus then removeAt else surplus]
  }

  class RotationProvider {
    var files: Files
    var handle: Handle
    const retention: int

    ghost function View(): State
      reads this
    {
      State(files, handle)
    }

    constructor (files: Files, retention: int)
      ensures this.files == files && this.retention == retention && handle == Present(false)
    {
      this.files, this.retention, handle := files, retention, Present(false);
    }

    /** newSQLiteProvider on the data directory. */
    method OpenLive(o: OpenOutcome) returns (ok: bool)
      modifies this`files
      ensures files == AfterOpening(old(files), o) && (ok <==> o == Opens)
    {
      if o != FailsBefore && LIVE !in files {
        files := files[LIVE := []];
      }
      ok := o == Opens;
    }

    method Reopen(o: OpenOutcome)
      modifies this
      ensures View() == Reopened(old(files), o)
    {
      var ok := OpenLive(o);
      handle := if ok then Present(false) else Missing;
    }

    /** rotate. */
    method Rotate(now: Instant, f: Faults) returns (outcome: Outcome)
      modifies this
      ensures RotateStep(old(View()), now, f, retention, View(), outcome)
    {
      if handle.Missing? {
        return Panicked; // the method call on a nil provider
      }
      if f.close {
        handle := Present(true);
        return Failed;
      }
      var rotatedFn := RotatedName(now);
      if rotatedFn in files || f.stat {
        Reopen(f.reopen);
        return Failed;
      }
      if f.rename || LIVE !in files {
        Reopen(f.reopen);
        return Failed;
      }
      files := Move(files, LIVE, rotatedFn);
      var ok := OpenLive(f.open);
      if !ok {
        if !f.restore {
          files := Move(files, rotatedFn, LIVE);
        }
        Reopen(f.reopen);
        return Failed;
      }
      handle := Present(false);
      PruneRotated(f.removeAt);
      return Done;
    }

    /** pruneRotated; the removal numbered `removeAt` fails, if it is reached. */
    method PruneRotated(removeAt: nat)
      modifies this`files
      ensures PruneStep(old(files), retention, removeAt, files)
    {
      hide Wildcards.Glob, LexLess, IsListing;
      var matches := SortedListing(files);
      if retention <= 0 || |matches| <= retention {
        assert files - ElementsOf(Victims(matches, retention, removeAt)) == files;
        return;
      }
      ghost var before := files;
      var surplus := matches[..|matches| - retention];
      for i := 0 to |surplus|
        invariant i <= removeAt && files == before - ElementsOf(surplus[..i])
      {
        if i == removeAt {
          assert surplus[..i] == Victims(matches, retention, removeAt);
          return;
        }
        assert surplus[..i + 1] == surplus[..i] + [surplus[i]];
        files := files - {surplus[i]};
      }
      assert surplus[..|surplus|] == Victims(matches, retention, removeAt);
    }
  }

  ghost predicate PruneStep(files: Files, retention: int, removeAt: nat, files': Files) {
    exists listing :: IsListing(listing, files)
                   && files' == files - ElementsOf(Victims(listing, retention, removeAt))
  }

  /** One whole call of rotate. */
  ghost predicate RotateStep(s: State, now: Instant, f: Faults, retention: int, s': State, outcome: Outcome) {
    var r := Rotated(s, RotatedName(now), f);
    && outcome == r.1
    && if outcome == Done
       then s'.handle == r.0.handle && PruneStep(r.0.files, retention, f.removeAt, s'.files)
       else s' == r.0
  }

  // --- Listing a directory ------------------------------------------------------------

  ghost predicate Sorted(names: seq<string>) {
    forall i, j :: 0 <= i < j < |names| ==> LexLess(names[i], names[j])
  }

  function Insert(names: seq<string>, n: string): seq<string> {
    if names == [] || LexLess(n, names[0]) then [n] + names
    else if n == names[0] then names
    else [names[0]] + Insert(names[1..], n)
  }

  lemma {:induction false} InsertSorted(names: seq<string>, n: string)
    requires Sorted(names)
    ensures Sorted(Insert(names, n))
    ensures forall m :: m in Insert(names, n) <==> m in names || m == n
  {
    if names != [] {
      LexTotal(n, names[0]);
      if LexLess(n, names[0]) {
        forall j | 0 <= j < |names| ensures LexLess(n, names[j]) {
          if j > 0 {
            LexTransitive(n, names[0], names[j]);
          }
        }
      } else if n != names[0] {
        InsertSorted(names[1..], n);
        var rest := Insert(names[1..], n);
        forall j | 0 <= j < |rest| ensures LexLess(names[0], rest[j]) {
          assert rest[j] in rest;
          if rest[j] != n {
            var k :| 0 <= k < |names[1..]| && names[1..][k] == rest[j];
            assert LexLess(names[0], names[k + 1]);
          }
        }
      }
    }
  }

  /** filepath.Glob followed by sort.Strings. */
  method SortedListing(files: Files) returns (listing: seq<string>)
    ensures IsListing(listing, files)
  {
    hide Wildcards.Glob, LexLess;
    var left := files.Keys;
    listing := [];
    while left != {}
      invariant left <= files.Keys && Sorted(listing)
      invariant forall n :: n in listing <==> n in files && n !in left && Wildcards.Glob(PATTERN, n)
    {
      var n :| n in left;
      left := left - {n};
      var covered := Wildcards.Matches(x => x, PATTERN, n);
      if covered {
        InsertSorted(listing, n);
        listing := Insert(listing, n);
      }
    }
  }

  // --- Conservation ----------------------------------------------------------------------

  /** All entries in a directory, with how often each occurs. */
  ghost function Total(files: Files): multiset<Entry>
    decreases |files|
  {
    if files == map[] then multiset{}
    else
      var n :| n in files;
      assert |files - {n}| < |files| by { Smaller(files, n); }
      multiset(files[n]) + Total(files - {n})
  }

  lemma Smaller(files: Files, n: string)
    requires n in files
    ensures |files - {n}| == |files| - 1
  {
    assert (files - {n}).Keys == files.Keys - {n};
  }

  /** The total does not depend on the order the files are added up in. */
  lemma {:induction false} TotalPick(files: Files, n: string)
    requires n in files
    ensures Total(files) == multiset(files[n]) + Total(files - {n})
    decreases |files|
  {
    var m :| m in files && Total(files) == multiset(files[m]) + Total(files - {m});
    if m != n {
      Smaller(files, m);
      Smaller(files, n);
      TotalPick(files - {m}, n);
      TotalPick(files - {n}, m);
      assert files - {m} - {n} == files - {n} - {m};
    }
  }

  lemma TotalPut(files: Files, n: string, c: seq<Entry>)
    requires n in files ==> files[n] == []
    ensures Total(files[n := c]) == Total(files) + multiset(c)
  {
    TotalPick(files[n := c], n);
    if n in files {
      TotalPick(files, n);
      assert files[n := c] - {n} == files - {n};
    } else {
      assert files[n := c] - {n} == files;
    }
  }

  lemma TotalMove(files: Files, from: string, to: string)
    requires from in files && from != to && (to in files ==> files[to] == [])
    ensures Total(Move(files, from, to)) == Total(files)
  {
    TotalPick(files, from);
    TotalPut(files - {from}, to, files[from]);
  }

  lemma TotalAfterOpening(files: Files, o: OpenOutcome)
    ensures Total(AfterOpening(files, o)) == Total(files)
  {
    if LIVE !in files {
      TotalPut(files, LIVE, []);
    }
  }

  /** Every rotated file of `s` is still there, unchanged. */
  predicate KeepsRotated(s: Files, s': Files) {
    forall n :: n in s && n != LIVE ==> n in s' && s'[n] == s[n]
  }

  /** The live entries are in one place: still live, or under the new name. */
  predicate LiveSurvives(s: Files, name: string, s': Files) {
    LIVE in s ==>
      || (LIVE in s' && s'[LIVE] == s[LIVE])
      || (name !in s && name in s' && s'[name] == s[LIVE] && (LIVE in s' ==> s'[LIVE] == []))
  }

  /** Whatever fails, an attempt loses no entry, duplicates none and overwrites
      no rotated file; when it succeeds the live file starts empty. */
  lemma RotatedConserves(s: State, name: string, f: Faults)
    requires name != LIVE
    ensures
      var r := Rotated(s, name, f);
      && Total(r.0.files) == Total(s.files)
      && KeepsRotated(s.files, r.0.files)
      && LiveSurvives(s.files, name, r.0.files)
      && (r.1 == Done ==> LIVE in s.files && r.0.files == s.files[name := s.files[LIVE]][LIVE := []])
  {
    hide Total;
    TotalAfterOpening(s.files, f.reopen);
    if LIVE in s.files && name !in s.files {
      var moved := Move(s.files, LIVE, name);
      TotalMove(s.files, LIVE, name);
      TotalAfterOpening(moved, f.open);
      var created := AfterOpening(moved, f.open);
      TotalAfterOpening(created, f.reopen);
      TotalMove(created, name, LIVE);
      TotalAfterOpening(Move(created, name, LIVE), f.reopen);
    }
  }

  /** The same files with the same content, but for an empty live file created
      where there was none. */
  predicate Undone(s: Files, s': Files) {
    s' == s || s' == WithLive(s)
  }

  /** A failed attempt is undone, unless opening the new database and then
      moving the old one back both failed. */
  lemma FailedIsUndoneIff(s: State, name: string, f: Faults)
    requires name != LIVE && Rotated(s, name, f).1 == Failed
    ensures
      var moved := !f.close && !f.stat && !f.rename && name !in s.files && LIVE in s.files;
      Undone(s.files, Rotated(s, name, f).0.files) <==> !(moved && f.open != Opens && f.restore)
  {
    if LIVE in s.files && name !in s.files {
      var moved := Move(s.files, LIVE, name);
      assert Move(AfterOpening(moved, f.open), name, LIVE) == s.files;
      assert name in AfterOpening(AfterOpening(moved, f.open), f.reopen);
    }
  }

  /** After an attempt the provider takes saves exactly when it succeeded, or got
      past closing and could reopen the database. */
  lemma TakesSavesIff(s: State, name: string, f: Faults)
    requires name != LIVE && s.handle.Present?
    ensures
      var r := Rotated(s, name, f);
      Accepts(r.0) <==> r.1 == Done || (!f.close && f.reopen == Opens)
  {}

  /** When an attempt succeeds: nothing fails on the way, there is a live file, and
      the name is free. */
  lemma SucceedsIff(s: State, name: string, f: Faults)
    ensures Rotated(s, name, f).1 == Done <==>
              && s.handle.Present? && !f.close && !f.stat && !f.rename && f.open == Opens
              && LIVE in s.files && name !in s.files
  {}

  /** An attempt dies on a nil provider exactly when the one before it could not
      reopen the database: it got past closing, did not finish, and the reopen
      failed. */
  lemma NextAttemptPanicsIff(s: State, name: string, f: Faults, name': string, f': Faults)
    requires s.handle.Present?
    ensures
      var r := Rotated(s, name, f);
      Rotated(r.0, name', f').1 == Panicked <==> !f.close && r.1 == Failed && f.reopen != Opens
  {}

  /** Such a pair of attempts exists: a rename and then the reopen fail. */
  lemma PanicIsReachable(s: State, name: string, name': string)
    requires s.handle == Present(false)
    ensures
      var f := Faults(false, false, true, Opens, false, FailsBefore, 0);
      Rotated(Rotated(s, name, f).0, name', f).1 == Panicked
  {
    NextAttemptPanicsIff(s, name, Faults(false, false, true, Opens, false, FailsBefore, 0),
                         name', Faults(false, false, true, Opens, false, FailsBefore, 0));
  }

  // --- What a prune keeps -------------------------------------------------------------------

  function Restrict(files: Files, names: set<string>): Files {
    map n | n in files && n in names :: files[n]
  }

  lemma TotalEmpty()
    ensures Total(map[]) == multiset{}
  {}

  lemma {:induction false} TotalSplit(files: Files, names: set<string>)
    ensures Total(files) == Total(files - names) + Total(Restrict(files, names))
    decreases |files|
  {
    hide Total;
    if n :| n in files {
      Smaller(files, n);
      TotalPick(files, n);
      TotalSplit(files - {n}, names);
      if n in names {
        assert (files - {n}) - names == files - names;
        assert Restrict(files - {n}, names) == Restrict(files, names) - {n};
        TotalPick(Restrict(files, names), n);
      } else {
        assert (files - {n}) - names == (files - names) - {n};
        assert Restrict(files - {n}, names) == Restrict(files, names);
        TotalPick(files - names, n);
      }
    } else {
      assert files == map[] && files - names == map[] && Restrict(files, names) == map[];
      TotalEmpty();
    }
  }

  /** The listed names greater than `n`. */
  ghost function Newer(listing: seq<string>, n: string): set<string> {
    set m | m in listing && LexLess(n, m)
  }

  lemma SortedIsDistinct(names: seq<string>)
    requires Sorted(names)
    ensures |ElementsOf(names)| == |names|
  {
    hide LexLess;
    forall i, j | 0 <= i < j < |names| ensures names[i] != names[j] {
      LexTotal(names[i], names[j]);
    }
    CardinalityOfElements(names);
  }

  lemma CountNewer(listing: seq<string>, i: nat)
    requires Sorted(listing) && i < |listing|
    ensures |Newer(listing, listing[i])| == |listing| - 1 - i
  {
    hide LexLess;
    var tail := listing[i + 1..];
    SortedIsDistinct(tail);
    forall m ensures m in Newer(listing, listing[i]) <==> m in ElementsOf(tail) {
      if m in listing {
        var k :| 0 <= k < |listing| && listing[k] == m;
        LexTotal(listing[i], m);
        if k > i {
          assert tail[k - i - 1] == m;
        }
      }
    }
    assert Newer(listing, listing[i]) == ElementsOf(tail);
  }

  /** The listed names smaller than `n`. */
  ghost function Older(listing: seq<string>, n: string): set<string> {
    set m | m in listing && LexLess(m, n)
  }

  lemma CountOlder(listing: seq<string>, i: nat)
    requires Sorted(listing) && i < |listing|
    ensures |Older(listing, listing[i])| == i
  {
    hide LexLess;
    var front := listing[..i];
    SortedIsDistinct(front);
    forall m ensures m in Older(listing, listing[i]) <==> m in ElementsOf(front) {
      if m in listing {
        var k :| 0 <= k < |listing| && listing[k] == m;
        LexTotal(m, listing[i]);
        if k < i {
          assert front[k] == m;
        }
      }
    }
    assert Older(listing, listing[i]) == ElementsOf(front);
  }

  /** What a prune keeps: every file the pattern does not cover; everything without
      a retention; of the covered names the `retention` greatest; and, if a removal
      fails, all but as many of the smallest as were removed before it. */
  lemma PruneKeepsGreatest(files: Files, retention: int, removeAt: nat, listing: seq<string>, n: string)
    requires IsListing(listing, files) && n in files
    ensures
      n in files - ElementsOf(Victims(listing, retention, removeAt)) <==>
        || n !in listing || retention <= 0
        || |Newer(listing, n)| < retention || |Older(listing, n)| >= removeAt
  {
    hide LexLess, Wildcards.Glob;
    if n in listing {
      var i :| 0 <= i < |listing| && listing[i] == n;
      CountNewer(listing, i);
      CountOlder(listing, i);
      var victims := Victims(listing, retention, removeAt);
      assert victims == listing[..|victims|];
      if i < |victims| {
        assert victims[i] == n;
      } else if n in victims {
        var k :| 0 <= k < |victims| && listing[k] == n;
        LexTotal(n, n);
      }
    }
  }

  // --- Runs -----------------------------------------------------------------------------------

  /** Save stores an entry when a database is open, and fails otherwise. */
  predicate Accepts(s: State) {
    s.handle == Present(false) && LIVE in s.files
  }

  lemma RotatedNameIsNotLive(now: Instant)
    ensures RotatedName(now) != LIVE
  {
    assert |RotatedName(now)| > |LIVE|;
  }
}
