/** The audit log over its whole life: saves, restarts and rotations together, on
    a directory of database files (server/auditlog/sqlite.go and rotation.go). */
module AuditFiles {
  import opened Framing
  import opened AuditChain
  import opened RotatedNames
  import Sequences
  import Wildcards
  import AuditWriter
  import AuditRotation

  /** The directory, the provider's handle, and the chain head it has cached. */
  datatype State = State(
    files: AuditRotation.Files, handle: AuditRotation.Handle, keyed: bool, lastSeq: Int64, lastMAC: Text)

  datatype Op =
    | SaveOp(e: Entry, inserts: bool)
    | Restart(keyed: bool, o: AuditRotation.OpenOutcome)
    | RotateOp(now: Instant, f: AuditRotation.Faults)

  function Disk(s: State): AuditRotation.State {
    AuditRotation.State(s.files, s.handle)
  }

  /** The provider of the live file, as the writer sees it. */
  function Writer(s: State): AuditWriter.State {
    AuditWriter.State(if LIVE in s.files then s.files[LIVE] else [], s.keyed, s.lastSeq, s.lastMAC)
  }

  /** The head has just been loaded from the live file. */
  ghost predicate Loaded(digest: Digest, s: State) {
    AuditWriter.HeadLoaded(Writer(s).table, AuditWriter.KeyOf(digest, s.keyed), s.lastSeq, s.lastMAC)
  }

  ghost predicate Step(digest: Digest, s: State, op: Op, retention: int, s': State) {
    match op
    case SaveOp(e, inserts) =>
      if AuditRotation.Accepts(Disk(s)) then
        var w := Writer(s);
        && (s.keyed || AuditWriter.Unnumbered(e))
        && var w' := AuditWriter.Saved(AuditWriter.KeyOf(digest, s.keyed), w, e, inserts && |w.table| < AuditWriter.MAX_ROWS);
           s' == s.(files := s.files[LIVE := w'.table], lastSeq := w'.lastSeq, lastMAC := w'.lastMAC)
      else s' == s
    case Restart(keyed, o) =>
      Disk(s') == AuditRotation.Reopened(s.files, o) && s'.keyed == keyed && Loaded(digest, s')
    case RotateOp(now, f) =>
      && (exists outcome :: AuditRotation.RotateStep(Disk(s), now, f, retention, Disk(s'), outcome))
      && s'.keyed == s.keyed
      && (s'.handle == AuditRotation.Present(false) ==> Loaded(digest, s'))
  }

  /** No provider is open yet, and the files hold pre-chain rows only. */
  ghost predicate Init(s: State) {
    && s.handle == AuditRotation.Missing
    && forall n :: n in s.files ==>
         |s.files[n]| <= AuditWriter.MAX_ROWS && forall e :: e in s.files[n] ==> AuditWriter.Unnumbered(e)
  }

  ghost predicate Run(digest: Digest, states: seq<State>, ops: seq<Op>, retention: int) {
    && |states| == |ops| + 1
    && Init(states[0])
    && forall i :: 0 <= i < |ops| ==> Step(digest, states[i], ops[i], retention, states[i + 1])
  }

  /** A file the writer could have produced: its chained rows are numbered 1..n,
      linked and MACed. */
  ghost predicate GoodFile(digest: Digest, table: seq<Entry>) {
    AuditWriter.Inv(digest, AuditWriter.State(table, false, 0, []))
  }

  ghost predicate Inv(digest: Digest, s: State) {
    && (forall n :: n in s.files ==> GoodFile(digest, s.files[n]))
    && (s.handle == AuditRotation.Present(false) ==> LIVE in s.files && AuditWriter.Inv(digest, Writer(s)))
  }

  lemma EmptyIsGood(digest: Digest)
    ensures GoodFile(digest, [])
  {}

  lemma PlainIsGood(digest: Digest, table: seq<Entry>)
    requires |table| <= AuditWriter.MAX_ROWS && forall e :: e in table ==> AuditWriter.Unnumbered(e)
    ensures GoodFile(digest, table)
  {
    AuditWriter.NoneChained(table);
  }

  lemma LoadedIsGood(digest: Digest, s: State)
    requires GoodFile(digest, Writer(s).table) && Loaded(digest, s)
    ensures AuditWriter.Inv(digest, Writer(s))
  {
    hide AuditWriter.Inv, AuditWriter.HeadLoaded;
    AuditWriter.RestartPreserves(digest, AuditWriter.State(Writer(s).table, false, 0, []), Writer(s), s.keyed);
  }

  lemma WriterIsGood(digest: Digest, w: AuditWriter.State)
    requires AuditWriter.Inv(digest, w)
    ensures GoodFile(digest, w.table)
  {}

  /** A rotation moves contents around and adds empty files. */
  lemma ContentsAreOld(s: AuditRotation.State, name: string, f: AuditRotation.Faults, n: string)
    requires name != LIVE && n in AuditRotation.Rotated(s, name, f).0.files
    ensures
      var c := AuditRotation.Rotated(s, name, f).0.files[n];
      c == [] || exists m :: m in s.files && s.files[m] == c
  {}

  lemma LiveIsThere(s: AuditRotation.State, name: string, f: AuditRotation.Faults)
    requires name != LIVE && AuditRotation.Rotated(s, name, f).0.handle == AuditRotation.Present(false)
    ensures LIVE in AuditRotation.Rotated(s, name, f).0.files
  {}

  lemma PruneSparesLive(files: AuditRotation.Files, retention: int, removeAt: nat, files': AuditRotation.Files)
    requires AuditRotation.PruneStep(files, retention, removeAt, files')
    ensures forall n :: n in files' ==> n in files && files'[n] == files[n]
    ensures LIVE in files ==> LIVE in files'
  {
    hide Wildcards.Glob;
    var listing :| AuditRotation.IsListing(listing, files)
                && files' == files - Sequences.ElementsOf(AuditRotation.Victims(listing, retention, removeAt));
    PatternMeans(LIVE);
    assert LIVE !in listing;
    assert forall n :: n in AuditRotation.Victims(listing, retention, removeAt) ==> n in listing;
  }

  lemma RotateKeepsInv(digest: Digest, s: State, now: Instant, f: AuditRotation.Faults, retention: int, s': State)
    requires Inv(digest, s) && Step(digest, s, RotateOp(now, f), retention, s')
    ensures Inv(digest, s')
  {
    hide AuditWriter.Inv, Loaded, RotatedName, AuditRotation.PruneStep, GoodFile;
    AuditRotation.RotatedNameIsNotLive(now);
    var name := RotatedName(now);
    var r := AuditRotation.Rotated(Disk(s), name, f).0;
    EmptyIsGood(digest);
    forall n | n in r.files ensures GoodFile(digest, r.files[n]) {
      ContentsAreOld(Disk(s), name, f, n);
    }
    if AuditRotation.Rotated(Disk(s), name, f).1 == AuditRotation.Done {
      PruneSparesLive(r.files, retention, f.removeAt, s'.files);
    }
    if s'.handle == AuditRotation.Present(false) {
      LiveIsThere(Disk(s), name, f);
      LoadedIsGood(digest, s');
    }
  }

  lemma SaveKeepsInv(digest: Digest, s: State, e: Entry, inserts: bool, retention: int, s': State)
    requires Inv(digest, s) && Step(digest, s, SaveOp(e, inserts), retention, s')
    ensures Inv(digest, s')
  {
    hide AuditWriter.Inv, GoodFile;
    if AuditRotation.Accepts(Disk(s)) {
      var w := Writer(s);
      AuditWriter.SavePreserves(digest, w, e, inserts && |w.table| < AuditWriter.MAX_ROWS);
      assert Writer(s') == AuditWriter.Saved(AuditWriter.KeyOf(digest, s.keyed), w, e, inserts && |w.table| < AuditWriter.MAX_ROWS);
      WriterIsGood(digest, Writer(s'));
    }
  }

  lemma RestartKeepsInv(digest: Digest, s: State, keyed: bool, o: AuditRotation.OpenOutcome, retention: int, s': State)
    requires Inv(digest, s) && Step(digest, s, Restart(keyed, o), retention, s')
    ensures Inv(digest, s')
  {
    hide AuditWriter.Inv, Loaded, GoodFile;
    EmptyIsGood(digest);
    if s'.handle == AuditRotation.Present(false) {
      LoadedIsGood(digest, s');
    }
  }

  lemma {:induction false} RunInvariant(digest: Digest, states: seq<State>, ops: seq<Op>, retention: int, k: nat)
    requires Run(digest, states, ops, retention) && k < |states|
    ensures Inv(digest, states[k])
  {
    hide Step, GoodFile, AuditWriter.Inv;
    if k == 0 {
      forall n | n in states[0].files ensures GoodFile(digest, states[0].files[n]) {
        PlainIsGood(digest, states[0].files[n]);
      }
    } else {
      RunInvariant(digest, states, ops, retention, k - 1);
      match ops[k - 1]
      case SaveOp(e, inserts) => SaveKeepsInv(digest, states[k - 1], e, inserts, retention, states[k]);
      case Restart(keyed, o) => RestartKeepsInv(digest, states[k - 1], keyed, o, retention, states[k]);
      case RotateOp(now, f) => RotateKeepsInv(digest, states[k - 1], now, f, retention, states[k]);
    }
  }

  /** Over every run of saves, restarts and rotations, whatever fails, each file
      on disk, live or rotated, is accepted by verification: in whatever order the
      database returns ties, its chained rows come back as written, numbered from
      one and intact. */
  lemma EveryFileVerifies(digest: Digest, states: seq<State>, ops: seq<Op>, retention: int, k: nat, n: string, rows: seq<Entry>)
    requires Run(digest, states, ops, retention) && k < |states| && n in states[k].files
    requires AuditWriter.OrderedBySeq(rows, states[k].files[n])
    ensures Chained(rows) == Chained(states[k].files[n]) && Intact(digest, Chained(rows))
    ensures forall i :: 0 <= i < |Chained(rows)| ==> Chained(rows)[i].body.seqNo == i + 1
  {
    hide Run, Chained, Intact;
    RunInvariant(digest, states, ops, retention, k);
    var w := AuditWriter.State(states[k].files[n], false, 0, []);
    assert GoodFile(digest, states[k].files[n]);
    AuditWriter.ReadBackIntact(digest, w, rows);
    var c := Chained(states[k].files[n]);
    forall i | 0 <= i < |c| ensures c[i].body.seqNo == i + 1 {
      assert AuditWriter.GoodRow(digest, c, i);
    }
  }

  // --- Conservation --------------------------------------------------------------------------

  /** The row an operation adds to the log, if any. */
  function Added(digest: Digest, s: State, op: Op): multiset<Entry> {
    if op.SaveOp? && AuditRotation.Accepts(Disk(s)) && op.inserts && |Writer(s).table| < AuditWriter.MAX_ROWS
    then multiset{AuditWriter.Numbered(AuditWriter.KeyOf(digest, s.keyed), s.lastSeq, s.lastMAC, op.e)}
    else multiset{}
  }

  /** The rows in the files a rotation prunes. */
  ghost function Pruned(s: State, op: Op, s': State): multiset<Entry> {
    if op.RotateOp? then
      var files := AuditRotation.Rotated(Disk(s), RotatedName(op.now), op.f).0.files;
      AuditRotation.Total(AuditRotation.Restrict(files, files.Keys - s'.files.Keys))
    else multiset{}
  }

  lemma SaveConserves(digest: Digest, s: State, op: Op, retention: int, s': State)
    requires Step(digest, s, op, retention, s') && op.SaveOp?
    ensures AuditRotation.Total(s'.files) == AuditRotation.Total(s.files) + Added(digest, s, op)
  {
    hide AuditRotation.Total, AuditWriter.Numbered;
    if AuditRotation.Accepts(Disk(s)) {
      AuditRotation.TotalPick(s.files, LIVE);
      AuditRotation.TotalPick(s'.files, LIVE);
      assert s'.files - {LIVE} == s.files - {LIVE};
    }
  }

  lemma RotateConserves(digest: Digest, s: State, op: Op, retention: int, s': State)
    requires Step(digest, s, op, retention, s') && op.RotateOp?
    ensures AuditRotation.Total(s'.files) + Pruned(s, op, s') == AuditRotation.Total(s.files)
  {
    hide AuditRotation.Total, AuditRotation.IsListing, RotatedName, AuditRotation.Rotated, Loaded;
    AuditRotation.RotatedNameIsNotLive(op.now);
    var name := RotatedName(op.now);
    AuditRotation.RotatedConserves(Disk(s), name, op.f);
    var r := AuditRotation.Rotated(Disk(s), name, op.f);
    var gone := r.0.files.Keys - s'.files.Keys;
    assert r.0.files - gone == s'.files by {
      if r.1 == AuditRotation.Done {
        PruneTakesFiles(r.0.files, retention, op.f.removeAt, s'.files);
      }
    }
    AuditRotation.TotalSplit(r.0.files, gone);
  }

  lemma PruneTakesFiles(files: AuditRotation.Files, retention: int, removeAt: nat, files': AuditRotation.Files)
    requires AuditRotation.PruneStep(files, retention, removeAt, files')
    ensures files - (files.Keys - files'.Keys) == files'
  {
    hide AuditRotation.IsListing;
  }

  /** Any sequence of operations, from any state. */
  ghost predicate Steps(digest: Digest, states: seq<State>, ops: seq<Op>, retention: int) {
    && |states| == |ops| + 1
    && forall i :: 0 <= i < |ops| ==> Step(digest, states[i], ops[i], retention, states[i + 1])
  }

  function AddedUpTo(digest: Digest, states: seq<State>, ops: seq<Op>, k: nat): multiset<Entry>
    requires k < |states| == |ops| + 1
  {
    if k == 0 then multiset{} else AddedUpTo(digest, states, ops, k - 1) + Added(digest, states[k - 1], ops[k - 1])
  }

  ghost function PrunedUpTo(states: seq<State>, ops: seq<Op>, k: nat): multiset<Entry>
    requires k < |states| == |ops| + 1
  {
    if k == 0 then multiset{} else PrunedUpTo(states, ops, k - 1) + Pruned(states[k - 1], ops[k - 1], states[k])
  }

  /** Over every run of saves, failed inserts, restarts and rotations, whatever
      fails, the rows in the directory and those in pruned files are exactly the
      rows that were there at the start and those that were saved since. */
  lemma {:induction false} RunConserves(digest: Digest, states: seq<State>, ops: seq<Op>, retention: int, k: nat)
    requires Steps(digest, states, ops, retention) && k < |states|
    ensures AuditRotation.Total(states[k].files) + PrunedUpTo(states, ops, k) ==
              AuditRotation.Total(states[0].files) + AddedUpTo(digest, states, ops, k)
  {
    hide AuditRotation.Total, Step, Added, Pruned;
    if k > 0 {
      RunConserves(digest, states, ops, retention, k - 1);
      StepConserves(digest, states[k - 1], ops[k - 1], retention, states[k]);
      Rebalance(AuditRotation.Total(states[0].files), AuditRotation.Total(states[k - 1].files), AuditRotation.Total(states[k].files),
                PrunedUpTo(states, ops, k - 1), Pruned(states[k - 1], ops[k - 1], states[k]),
                AddedUpTo(digest, states, ops, k - 1), Added(digest, states[k - 1], ops[k - 1]));
    }
  }

  lemma Rebalance(start: multiset<Entry>, before: multiset<Entry>, after: multiset<Entry>,
                  gone: multiset<Entry>, goes: multiset<Entry>, come: multiset<Entry>, comes: multiset<Entry>)
    requires before + gone == start + come && after + goes == before + comes
    ensures after + (gone + goes) == start + (come + comes)
  {
    calc {
      after + (gone + goes);
      (after + goes) + gone;
      (before + comes) + gone;
      (before + gone) + comes;
      (start + come) + comes;
      start + (come + comes);
    }
  }

  lemma StepConserves(digest: Digest, s: State, op: Op, retention: int, s': State)
    requires Step(digest, s, op, retention, s')
    ensures AuditRotation.Total(s'.files) + Pruned(s, op, s') == AuditRotation.Total(s.files) + Added(digest, s, op)
  {
    hide AuditRotation.Total;
    match op
    case SaveOp(_, _) => SaveConserves(digest, s, op, retention, s');
    case Restart(_, o) => AuditRotation.TotalAfterOpening(s.files, o);
    case RotateOp(_, _) => RotateConserves(digest, s, op, retention, s');
  }

  // --- What is recorded -----------------------------------------------------------------------

  /** What rows record, with how often each fact occurs. */
  ghost function Facts(rows: multiset<Entry>): multiset<AuditWriter.Event>
    decreases |rows|
  {
    if rows == multiset{} then multiset{}
    else
      var e :| e in rows;
      Facts(rows - multiset{e}) + multiset{AuditWriter.Fact(e)}
  }

  lemma {:induction false} FactsPick(rows: multiset<Entry>, e: Entry)
    requires e in rows
    ensures Facts(rows) == Facts(rows - multiset{e}) + multiset{AuditWriter.Fact(e)}
    decreases |rows|
  {
    hide AuditWriter.Fact, Facts;
    var x := FactsStart(rows);
    if x != e {
      WithoutBoth(rows, x, e);
      FactsPick(rows - multiset{x}, e);
      FactsPick(rows - multiset{e}, x);
      WithBoth(Facts(rows - multiset{x} - multiset{e}), AuditWriter.Fact(x), AuditWriter.Fact(e));
    }
  }

  lemma WithoutBoth<T>(m: multiset<T>, x: T, y: T)
    requires x in m && y in m && x != y
    ensures m - multiset{x} - multiset{y} == m - multiset{y} - multiset{x}
    ensures y in m - multiset{x} && x in m - multiset{y}
  {}

  lemma WithBoth<T>(m: multiset<T>, x: T, y: T)
    ensures m + multiset{x} + multiset{y} == m + multiset{y} + multiset{x}
  {}

  lemma FactsStart(rows: multiset<Entry>) returns (e: Entry)
    requires rows != multiset{}
    ensures e in rows && Facts(rows) == Facts(rows - multiset{e}) + multiset{AuditWriter.Fact(e)}
  {
    e :| e in rows && Facts(rows) == Facts(rows - multiset{e}) + multiset{AuditWriter.Fact(e)};
  }

  lemma {:induction false} FactsAdd(a: multiset<Entry>, b: multiset<Entry>)
    ensures Facts(a + b) == Facts(a) + Facts(b)
    decreases |b|
  {
    NoFacts();
    hide Facts, AuditWriter.Fact;
    if b == multiset{} {
      assert a + b == a;
    } else {
      var e :| e in b;
      FactsAdd(a, b - multiset{e});
      FactsPick(b, e);
      FactsPick(a + b, e);
      assert a + b - multiset{e} == a + (b - multiset{e});
      assert Facts(a) + Facts(b - multiset{e}) + multiset{AuditWriter.Fact(e)} ==
             Facts(a) + (Facts(b - multiset{e}) + multiset{AuditWriter.Fact(e)});
    }
  }

  /** A save that reaches an open database which inserts the row. */
  predicate Takes(s: State, op: Op) {
    op.SaveOp? && AuditRotation.Accepts(Disk(s)) && op.inserts && |Writer(s).table| < AuditWriter.MAX_ROWS
  }

  /** The facts handed over in saves that were taken. */
  function RecordedUpTo(states: seq<State>, ops: seq<Op>, k: nat): multiset<AuditWriter.Event>
    requires k < |states| == |ops| + 1
  {
    if k == 0 then multiset{}
    else
      RecordedUpTo(states, ops, k - 1) +
      if Takes(states[k - 1], ops[k - 1]) then multiset{AuditWriter.Fact(ops[k - 1].e)} else multiset{}
  }

  lemma AddedRecords(digest: Digest, s: State, op: Op)
    ensures Facts(Added(digest, s, op)) == if Takes(s, op) then multiset{AuditWriter.Fact(op.e)} else multiset{}
  {
    hide AuditWriter.Numbered, AuditWriter.Fact;
    if Takes(s, op) {
      var key := AuditWriter.KeyOf(digest, s.keyed);
      var row := AuditWriter.Numbered(key, s.lastSeq, s.lastMAC, op.e);
      AuditWriter.RowRecordsEntry(key, s.lastSeq, s.lastMAC, op.e);
      FactsPick(multiset{row}, row);
    }
  }

  lemma {:induction false} AddedUpToRecords(digest: Digest, states: seq<State>, ops: seq<Op>, k: nat)
    requires k < |states| == |ops| + 1
    ensures Facts(AddedUpTo(digest, states, ops, k)) == RecordedUpTo(states, ops, k)
  {
    hide Added, Takes, Facts;
    if k == 0 {
      NoFacts();
    } else {
      AddedUpToRecords(digest, states, ops, k - 1);
      AddedRecords(digest, states[k - 1], ops[k - 1]);
      FactsAdd(AddedUpTo(digest, states, ops, k - 1), Added(digest, states[k - 1], ops[k - 1]));
    }
  }

  lemma NoFacts()
    ensures Facts(multiset{}) == multiset{}
  {}

  /** Over every run of saves, failed inserts, restarts and rotations, whatever
      fails, the log and the pruned files together record exactly what was recorded
      at the start and what the saves that were taken handed over. */
  lemma RunRecordsEverything(digest: Digest, states: seq<State>, ops: seq<Op>, retention: int, k: nat)
    requires Steps(digest, states, ops, retention) && k < |states|
    ensures Facts(AuditRotation.Total(states[k].files)) + Facts(PrunedUpTo(states, ops, k)) ==
              Facts(AuditRotation.Total(states[0].files)) + RecordedUpTo(states, ops, k)
  {
    hide Facts, AuditRotation.Total, PrunedUpTo, AddedUpTo, Step;
    RunConserves(digest, states, ops, retention, k);
    FactsAdd(AuditRotation.Total(states[k].files), PrunedUpTo(states, ops, k));
    FactsAdd(AuditRotation.Total(states[0].files), AddedUpTo(digest, states, ops, k));
    AddedUpToRecords(digest, states, ops, k);
  }

  /** After a rotation that succeeded, or got past closing and could reopen the
      database, a save that inserts adds its entry to the live file. */
  lemma SaveAfterRotation(digest: Digest, s: State, now: Instant, f: AuditRotation.Faults, retention: int, s1: State,
                          e: Entry, s2: State)
    requires s.handle.Present? && Step(digest, s, RotateOp(now, f), retention, s1)
    requires AuditRotation.Rotated(Disk(s), RotatedName(now), f).1 == AuditRotation.Done || (!f.close && f.reopen == AuditRotation.Opens)
    requires |Writer(s1).table| < AuditWriter.MAX_ROWS && Step(digest, s1, SaveOp(e, true), retention, s2)
    ensures
      && LIVE in s1.files && LIVE in s2.files
      && var n := |s1.files[LIVE]|;
         && |s2.files[LIVE]| == n + 1 && s2.files[LIVE][..n] == s1.files[LIVE]
         && AuditWriter.Fact(s2.files[LIVE][n]) == AuditWriter.Fact(e)
  {
    hide AuditWriter.Numbered, AuditWriter.Fact, RotatedName, AuditRotation.PruneStep, AuditRotation.Rotated, Loaded;
    AuditRotation.RotatedNameIsNotLive(now);
    var name := RotatedName(now);
    AuditRotation.TakesSavesIff(Disk(s), name, f);
    var r := AuditRotation.Rotated(Disk(s), name, f);
    if r.1 == AuditRotation.Done {
      PruneSparesLive(r.0.files, retention, f.removeAt, s1.files);
    }
    assert AuditRotation.Accepts(Disk(s1));
    AuditWriter.RowRecordsEntry(AuditWriter.KeyOf(digest, s1.keyed), s1.lastSeq, s1.lastMAC, e);
  }
}
