/** The audit-log writer with its cached chain head (server/auditlog/sqlite.go).

    The SQL table is a sequence of rows in insertion order. An insert may fail,
    and always fails once the table holds 2^63 - 1 rows, the number of row ids
    SQLite has. A restart replaces the provider over the same table, with the
    key or without it. */
module AuditWriter {
  import opened Framing
  import opened AuditChain
  import opened Options

  const MAX_ROWS := TWO_63 - 1

  /** A row of the table with the greatest sequence number. Which one the query
      returns is up to the database when several rows share it. */
  ghost predicate IsMaxRow(table: seq<Entry>, e: Entry) {
    e in table && forall f :: f in table ==> f.body.seqNo <= e.body.seqNo
  }

  /** SQLiteProvider: `key` is the keyed MAC, absent when no key is set. */
  class SQLiteProvider {
    var table: seq<Entry>
    const key: Option<Digest>
    var lastSeq: Int64
    var lastMAC: Text

    /** newSQLiteProvider over an existing table: loadChainHead seeds the head. */
    constructor (table: seq<Entry>, key: Option<Digest>)
      ensures this.table == table && this.key == key
      ensures HeadLoaded(table, key, lastSeq, lastMAC)
    {
      var seqNo: Int64, mac: Text := 0, [];
      if key.Some? && table != [] {
        var best := table[0];
        for i := 1 to |table|
          invariant IsMaxRow(table[..i], best)
        {
          assert table[..i + 1] == table[..i] + [table[i]];
          if table[i].body.seqNo > best.body.seqNo {
            best := table[i];
          }
        }
        assert table[..|table|] == table;
        seqNo, mac := best.body.seqNo, best.mac;
      }
      this.table, this.key := table, key;
      lastSeq, lastMAC := seqNo, mac;
    }

    ghost function View(): State
      reads this
    {
      State(table, key.Some?, lastSeq, lastMAC)
    }

    /** Save. `inserts` is the database's answer to the INSERT. */
    method Save(entry: Entry, inserts: bool) returns (ok: bool)
      modifies this
      ensures ok <==> inserts && |old(table)| < MAX_ROWS
      ensures View() == Saved(key, old(View()), entry, ok)
      ensures table == if ok then old(table) + [table[|table| - 1]] else old(table)
      ensures ok ==> Fact(table[|table| - 1]) == Fact(entry)
    {
      var e := entry;
      if key.Some? {
        e := e.(body := e.body.(seqNo := Wrap(lastSeq + 1)));
        e := e.(body := e.body.(prevMAC := lastMAC));
        e := e.(mac := key.value(e.body));
      }
      ok := inserts && |table| < MAX_ROWS;
      if !ok {
        return;
      }
      table := table + [e];
      RowRecordsEntry(key, old(lastSeq), old(lastMAC), entry);
      if key.Some? {
        lastSeq := e.body.seqNo;
        lastMAC := e.mac;
      }
    }

    /** Verify. `rows` is what the database answers to a SELECT of the whole
        table ordered by sequence number; ties may come in any order. Without a
        key the result is not valid, unlike verifyChain's. */
    method Verify(rows: seq<Entry>) returns (res: ChainVerification)
      requires OrderedBySeq(rows, table)
      ensures key.None? ==> !res.enabled && !res.valid && res.checked == 0
      ensures key.Some? ==> res.enabled && (res.valid <==> Intact(key.value, Chained(rows)))
      ensures key.Some? && Inv(key.value, View()) ==> res.valid && res.checked == |Chained(table)|
      ensures key.Some? && !res.valid ==> exists k :: NamesFirstFault(key.value, Chained(rows), k, res)
    {
      if key.None? {
        return ChainVerification(false, 0, false, 0, "", None);
      }
      res := VerifyChain(key, rows);
      if Inv(key.value, View()) {
        ReadBackIntact(key.value, View(), rows);
      }
    }
  }

  /** What loadChainHead leaves in the cached head. */
  ghost predicate HeadLoaded(table: seq<Entry>, key: Option<Digest>, seqNo: Int64, mac: Text) {
    if key.None? || table == [] then seqNo == 0 && mac == []
    else exists e :: IsMaxRow(table, e) && seqNo == e.body.seqNo && mac == e.mac
  }

  /** The row Save writes for `e`. */
  function Numbered(key: Option<Digest>, lastSeq: Int64, lastMAC: Text, e: Entry): Entry {
    match key
    case None => e
    case Some(digest) =>
      var body := e.body.(seqNo := Wrap(lastSeq + 1), prevMAC := lastMAC);
      Entry(body, digest(body))
  }

  /** What an entry records, apart from its place in the chain. */
  datatype Event = Event(timestamp: Int64, fields: seq<Text>)

  function Fact(e: Entry): Event {
    Event(e.body.timestamp, AuditedFields(e.body)[1..])
  }

  /** The row that is stored for an entry records what the entry does, with or
      without a key. */
  lemma RowRecordsEntry(key: Option<Digest>, lastSeq: Int64, lastMAC: Text, e: Entry)
    ensures Fact(Numbered(key, lastSeq, lastMAC, e)) == Fact(e)
  {
    var row := Numbered(key, lastSeq, lastMAC, e);
    assert AuditedFields(row.body)[1..] == AuditedFields(e.body)[1..];
  }

  // --- Runs -----------------------------------------------------------------

  /** Between two operations: the table and the running provider's state. */
  datatype State = State(table: seq<Entry>, keyed: bool, lastSeq: Int64, lastMAC: Text)

  datatype Op =
    | SaveOp(e: Entry, inserts: bool)
    | Restart(keyed: bool)

  /** An entry as AuditLog.Entry hands it out: no number, no MAC. */
  predicate Unnumbered(e: Entry) {
    e.body.seqNo == 0 && e.mac == []
  }

  function Saved(key: Option<Digest>, s: State, e: Entry, ok: bool): State {
    var row := Numbered(key, s.lastSeq, s.lastMAC, e);
    if !ok then s
    else if key.None? then s.(table := s.table + [row])
    else s.(table := s.table + [row], lastSeq := row.body.seqNo, lastMAC := row.mac)
  }

  function KeyOf(digest: Digest, keyed: bool): Option<Digest> {
    if keyed then Some(digest) else None
  }

  ghost predicate Step(digest: Digest, s: State, op: Op, s': State) {
    match op
    case SaveOp(e, inserts) =>
      && (s.keyed || Unnumbered(e))
      && s' == Saved(KeyOf(digest, s.keyed), s, e, inserts && |s.table| < MAX_ROWS)
    case Restart(keyed) =>
      && s'.table == s.table && s'.keyed == keyed
      && HeadLoaded(s.table, KeyOf(digest, keyed), s'.lastSeq, s'.lastMAC)
  }

  /** The provider just opened over a table that holds pre-chain rows only. */
  ghost predicate Init(digest: Digest, s: State) {
    && |s.table| <= MAX_ROWS
    && (forall e :: e in s.table ==> Unnumbered(e))
    && HeadLoaded(s.table, KeyOf(digest, s.keyed), s.lastSeq, s.lastMAC)
  }

  /** A run of saves, failed inserts and restarts. */
  ghost predicate Run(digest: Digest, states: seq<State>, ops: seq<Op>) {
    && |states| == |ops| + 1
    && Init(digest, states[0])
    && forall i :: 0 <= i < |ops| ==> Step(digest, states[i], ops[i], states[i + 1])
  }

  predicate GoodRow(digest: Digest, c: seq<Entry>, i: nat)
    requires i < |c|
  {
    && c[i].body.seqNo == i + 1
    && c[i].body.prevMAC == (if i == 0 then [] else c[i - 1].mac)
    && c[i].mac == digest(c[i].body)
  }

  /** Numbered 1..n, linked from the empty MAC, with good MACs. */
  predicate WellChained(digest: Digest, c: seq<Entry>) {
    forall i :: 0 <= i < |c| ==> GoodRow(digest, c, i)
  }

  /** The cached head is the last chained row. */
  predicate HeadIsLast(c: seq<Entry>, lastSeq: Int64, lastMAC: Text) {
    lastSeq == |c| && lastMAC == if c == [] then [] else c[|c| - 1].mac
  }

  ghost predicate Inv(digest: Digest, s: State) {
    var c := Chained(s.table);
    && |c| <= |s.table| <= MAX_ROWS
    && WellChained(digest, c)
    && (forall e :: e in s.table ==> e in c || Unnumbered(e))
    && (s.keyed ==> HeadIsLast(c, s.lastSeq, s.lastMAC))
  }

  lemma SavePreserves(digest: Digest, s: State, e: Entry, ok: bool)
    requires Inv(digest, s) && (s.keyed || Unnumbered(e))
    requires ok ==> |s.table| < MAX_ROWS
    ensures Inv(digest, Saved(KeyOf(digest, s.keyed), s, e, ok))
  {
    hide Chained;
    if ok {
      var row := Numbered(KeyOf(digest, s.keyed), s.lastSeq, s.lastMAC, e);
      var c, c' := Chained(s.table), Chained(s.table + [row]);
      ChainedSnoc(s.table, row);
      forall i | 0 <= i < |c'| ensures GoodRow(digest, c', i) {
        if i < |c| {
          assert GoodRow(digest, c, i);
        }
      }
    }
  }

  /** A restart with the key finds the last chained row again, however many
      unchained rows were written in between. */
  lemma RestartPreserves(digest: Digest, s: State, s': State, keyed: bool)
    requires Inv(digest, s) && Step(digest, s, Restart(keyed), s')
    ensures Inv(digest, s')
  {
    hide Chained;
    if keyed && s.table != [] {
      var c := Chained(s.table);
      var e :| IsMaxRow(s.table, e) && s'.lastSeq == e.body.seqNo && s'.lastMAC == e.mac;
      if c != [] {
        ChainedIn(s.table);
        var last := c[|c| - 1];
        assert GoodRow(digest, c, |c| - 1);
        assert last in s.table;
        assert e in c;
        var i :| 0 <= i < |c| && c[i] == e;
        assert GoodRow(digest, c, i);
      }
    }
  }

  lemma {:induction false} ChainedIn(rows: seq<Entry>)
    ensures forall e :: e in Chained(rows) ==> e in rows
  {
    if rows != [] {
      ChainedIn(rows[..|rows| - 1]);
    }
  }

  lemma {:induction false} NoneChained(rows: seq<Entry>)
    requires forall e :: e in rows ==> Unnumbered(e)
    ensures Chained(rows) == []
  {
    if rows != [] {
      assert rows[|rows| - 1] in rows;
      NoneChained(rows[..|rows| - 1]);
    }
  }

  /** Every state of every run. */
  lemma {:induction false} RunInvariant(digest: Digest, states: seq<State>, ops: seq<Op>, i: nat)
    requires Run(digest, states, ops) && i < |states|
    ensures Inv(digest, states[i])
  {
    if i == 0 {
      NoneChained(states[0].table);
    } else {
      RunInvariant(digest, states, ops, i - 1);
      assert Step(digest, states[i - 1], ops[i - 1], states[i]);
      match ops[i - 1]
      case SaveOp(e, inserts) =>
        var s := states[i - 1];
        SavePreserves(digest, s, e, inserts && |s.table| < MAX_ROWS);
      case Restart(keyed) =>
        RestartPreserves(digest, states[i - 1], states[i], keyed);
    }
  }

  // --- Reading back -----------------------------------------------------------

  ghost predicate SortedBySeq(rows: seq<Entry>) {
    forall i, j :: 0 <= i < j < |rows| ==> rows[i].body.seqNo <= rows[j].body.seqNo
  }

  ghost predicate OrderedBySeq(rows: seq<Entry>, table: seq<Entry>) {
    multiset(rows) == multiset(table) && SortedBySeq(rows)
  }

  lemma {:induction false} ChainedCount(rows: seq<Entry>, e: Entry)
    ensures multiset(Chained(rows))[e] == if e.body.seqNo == 0 then 0 else multiset(rows)[e]
  {
    if rows != [] {
      ChainedCount(rows[..|rows| - 1], e);
      assert rows == rows[..|rows| - 1] + [rows[|rows| - 1]];
    }
  }

  lemma {:induction false} ChainedSorted(rows: seq<Entry>)
    requires SortedBySeq(rows)
    ensures SortedBySeq(Chained(rows))
  {
    if rows != [] {
      var front := rows[..|rows| - 1];
      ChainedSorted(front);
      ChainedIn(front);
      forall i | 0 <= i < |Chained(front)|
        ensures Chained(front)[i].body.seqNo <= rows[|rows| - 1].body.seqNo
      {
        assert Chained(front)[i] in front;
      }
    }
  }

  lemma SameLast(a: seq<Entry>, c: seq<Entry>)
    requires SortedBySeq(a) && multiset(a) == multiset(c) && |a| == |c| > 0
    requires forall i :: 0 <= i < |c| ==> c[i].body.seqNo == i + 1
    ensures a[|a| - 1] == c[|c| - 1]
  {
    var n := |c| - 1;
    assert c[n] in multiset(a);
    var k :| 0 <= k <= n && a[k] == c[n];
    assert a[n] in multiset(c);
    var l :| 0 <= l <= n && c[l] == a[n];
  }

  lemma DropLast(a: seq<Entry>, c: seq<Entry>)
    requires multiset(a) == multiset(c) && |a| == |c| > 0 && a[|a| - 1] == c[|c| - 1]
    ensures multiset(a[..|a| - 1]) == multiset(c[..|c| - 1])
  {
    var n := |a| - 1;
    assert a == a[..n] + [a[n]] && c == c[..n] + [c[n]];
    assert multiset(a[..n]) == multiset(a) - multiset{a[n]};
    assert multiset(c[..n]) == multiset(c) - multiset{c[n]};
  }

  /** There is one way to put rows numbered 1..n in order. */
  lemma {:induction false} NumberedOrderUnique(a: seq<Entry>, c: seq<Entry>)
    requires SortedBySeq(a) && multiset(a) == multiset(c)
    requires forall i :: 0 <= i < |c| ==> c[i].body.seqNo == i + 1
    ensures a == c
  {
    assert |a| == |multiset(a)| == |multiset(c)| == |c|;
    if c != [] {
      var n := |c| - 1;
      SameLast(a, c);
      DropLast(a, c);
      NumberedOrderUnique(a[..n], c[..n]);
      assert a == a[..n] + [a[n]] && c == c[..n] + [c[n]];
    }
  }

  /** Whatever order ties come back in, verification sees the chained rows in
      the order they were written, and accepts them. */
  lemma ReadBackIntact(digest: Digest, s: State, rows: seq<Entry>)
    requires Inv(digest, s) && OrderedBySeq(rows, s.table)
    ensures Chained(rows) == Chained(s.table)
    ensures Intact(digest, Chained(rows))
  {
    hide Chained;
    var a, c := Chained(rows), Chained(s.table);
    forall e ensures multiset(a)[e] == multiset(c)[e] {
      ChainedCount(rows, e);
      ChainedCount(s.table, e);
    }
    ChainedSorted(rows);
    forall i | 0 <= i < |c| ensures c[i].body.seqNo == i + 1 {
      assert GoodRow(digest, c, i);
    }
    NumberedOrderUnique(a, c);
    WellChainedIsIntact(digest, c);
  }

  lemma WellChainedIsIntact(digest: Digest, c: seq<Entry>)
    requires WellChained(digest, c) && |c| <= MAX_ROWS
    ensures Intact(digest, c)
  {
    forall i | 0 <= i < |c| ensures FaultAt(digest, c, i) == NoFault {
      assert GoodRow(digest, c, i);
      if i > 0 {
        assert GoodRow(digest, c, i - 1);
      }
    }
  }

  lemma {:induction false} ChainedNonzero(rows: seq<Entry>, i: nat)
    requires i < |Chained(rows)|
    ensures Chained(rows)[i].body.seqNo != 0
  {
    var front := rows[..|rows| - 1];
    if i < |Chained(front)| {
      ChainedNonzero(front, i);
    }
  }

  /** After any run, a non-empty table that verification accepts and that ends
      at the provider's cached head can only be the real chained rows with some
      of the oldest missing, and is all of them when it starts at number 1,
      unless two rows collide. */
  lemma RunTamperEvident(digest: Digest, states: seq<State>, ops: seq<Op>, i: nat, rows: seq<Entry>)
    requires Run(digest, states, ops) && i < |states| && states[i].keyed
    requires Intact(digest, Chained(rows)) && Chained(rows) != [] && Chained(states[i].table) != []
    requires Chained(rows)[|Chained(rows)| - 1].mac == states[i].lastMAC
    ensures
      var a, c := Chained(rows), Chained(states[i].table);
      || Collision(digest, a, c)
      || (|a| <= |c| && a == c[|c| - |a|..] && (a[0].body.seqNo == 1 ==> a == c))
  {
    hide Chained;
    var s := states[i];
    RunInvariant(digest, states, ops, i);
    var a, c := Chained(rows), Chained(s.table);
    WellChainedIsIntact(digest, c);
    ChainAgreement(digest, rows, s.table);
    assert GoodRow(digest, c, 0);
    if |a| > |c| && c == a[|a| - |c|..] {
      var k := |a| - |c|;
      assert a[k] == c[0];
      assert FaultAt(digest, a, k) == NoFault;
      ChainedNonzero(rows, k - 1);
    } else if |a| <= |c| && a == c[|c| - |a|..] {
      assert a[0] == c[|c| - |a|];
      assert GoodRow(digest, c, |c| - |a|);
    }
  }
}
