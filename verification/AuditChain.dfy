/** The keyed hash chain of the audit log (server/auditlog/chain.go).

    The keyed HMAC is a parameter, an arbitrary function from bytes to text.
    Nothing is assumed about it: where a statement needs two different inputs
    to have different MACs, a failure shows up in the conclusion as an explicit
    pair of colliding rows. */
module AuditChain {
  import opened Framing
  import opened Options

  type Mac = seq<Byte> -> Text

  /** The columns a MAC covers. `timestamp` is the instant in nanoseconds;
      `seqNo == 0` marks a row written before the chain existed or without a key. */
  datatype Content = Content(
    seqNo: Int64, timestamp: Int64, prevMAC: Text, application: Text,
    action: Text, username: Text, remoteIP: Text, id: Text, clientID: Text,
    clientHostName: Text, request: Text, response: Text)

  /** A stored row. */
  datatype Entry = Entry(body: Content, mac: Text)

  function AuditedFields(r: Content): seq<Text> {
    [r.prevMAC, r.application, r.action, r.username, r.remoteIP, r.id,
     r.clientID, r.clientHostName, r.request, r.response]
  }

  /** The bytes computeMAC feeds to the hash, in the order it writes them. */
  function Canonical(r: Content): seq<Byte> {
    Frame(r.seqNo, r.timestamp, AuditedFields(r))
  }

  function Frame(a: int, b: int, fs: seq<Text>): seq<Byte> {
    Uint64(a) + Uint64(b) + Fields(fs)
  }

  /** computeMAC for a fixed key, as a function of the content. */
  type Digest = Content -> Text

  function ComputeMAC(hmac: Mac): Digest {
    r => hmac(Canonical(r))
  }

  lemma FrameInjective(a: int, b: int, fs: seq<Text>, c: int, d: int, gs: seq<Text>)
    requires |fs| == |gs| && Frame(a, b, fs) == Frame(c, d, gs)
    ensures a % TWO_64 == c % TWO_64 && b % TWO_64 == d % TWO_64 && fs == gs
  {
    var s, t := Frame(a, b, fs), Frame(c, d, gs);
    assert s[..8] == Uint64(a) && t[..8] == Uint64(c);
    assert s[8..16] == Uint64(b) && t[8..16] == Uint64(d);
    assert s[16..] == Fields(fs) && t[16..] == Fields(gs);
    Uint64Injective(a, c);
    Uint64Injective(b, d);
    FieldsInjective(fs, gs);
  }

  lemma AuditedFieldsInjective(q: Content, r: Content)
    requires AuditedFields(q) == AuditedFields(r)
    requires q.seqNo == r.seqNo && q.timestamp == r.timestamp
    ensures q == r
  {
    var fs, gs := AuditedFields(q), AuditedFields(r);
    assert fs[0] == gs[0] && fs[1] == gs[1] && fs[2] == gs[2] && fs[3] == gs[3] && fs[4] == gs[4];
    assert fs[5] == gs[5] && fs[6] == gs[6] && fs[7] == gs[7] && fs[8] == gs[8] && fs[9] == gs[9];
  }

  /** The serialisation is unambiguous: equal bytes come from equal content. */
  lemma CanonicalInjective(q: Content, r: Content)
    requires Canonical(q) == Canonical(r)
    ensures q == r
  {
    hide Fields, Uint64;
    FrameInjective(q.seqNo, q.timestamp, AuditedFields(q), r.seqNo, r.timestamp, AuditedFields(r));
    AuditedFieldsInjective(q, r);
  }

  /** The two numbers and the ten fields that bytes hold, if they hold just that. */
  function Read(b: seq<Byte>): Option<(Int64, Int64, seq<seq<Byte>>)> {
    if |b| < 16 then None
    else
      match ReadFields(b[16..], 10)
      case None => None
      case Some(fs) => Some((Wrap(Value(b[..8])), Wrap(Value(b[8..16])), fs))
  }

  /** The serialisation can be read back: number, timestamp and, in this order, link,
      application, action, user, address, id, client, host name, request, response. */
  lemma ReadBack(r: Content)
    ensures Read(Canonical(r)) ==
              Some((r.seqNo, r.timestamp,
                    [r.prevMAC, r.application, r.action, r.username, r.remoteIP, r.id,
                     r.clientID, r.clientHostName, r.request, r.response]))
  {
    hide Fields, Uint64, ReadFields, Value;
    var fs := AuditedFields(r);
    var b := Canonical(r);
    assert b[..8] == Uint64(r.seqNo) && b[8..16] == Uint64(r.timestamp) && b[16..] == Fields(fs);
    ReadInt64(r.seqNo);
    ReadInt64(r.timestamp);
    ReadBackFields(fs);
  }

  /** The rows verification looks at. */
  function Chained(rows: seq<Entry>): seq<Entry> {
    if rows == [] then []
    else
      var c := Chained(rows[..|rows| - 1]);
      var last := rows[|rows| - 1];
      if last.body.seqNo == 0 then c else c + [last]
  }

  lemma {:induction false} ChainedPrefix(rows: seq<Entry>, k: nat)
    requires k <= |rows|
    ensures Chained(rows[..k]) <= Chained(rows)
    ensures k == 0 ==> Chained(rows[..k]) == []
    decreases |rows|
  {
    if k < |rows| {
      assert rows[..|rows| - 1][..k] == rows[..k];
      ChainedPrefix(rows[..|rows| - 1], k);
    } else {
      assert rows[..k] == rows;
    }
  }

  lemma ChainedSnoc(rows: seq<Entry>, e: Entry)
    ensures Chained(rows + [e]) == if e.body.seqNo == 0 then Chained(rows) else Chained(rows) + [e]
  {
    assert (rows + [e])[..|rows|] == rows;
  }

  /** What is wrong with one chained row, in the order the checks are made. */
  datatype Fault = NoFault | Gap | Link | BadMac {
    function Kind(): string {
      match this case NoFault => "" case Gap => "gap" case Link => "link" case BadMac => "mac"
    }
  }

  function FaultAt(digest: Digest, c: seq<Entry>, i: nat): Fault
    requires i < |c|
  {
    if i > 0 && c[i].body.seqNo != Wrap(c[i - 1].body.seqNo + 1) then Gap
    else if i > 0 && c[i].body.prevMAC != c[i - 1].mac then Link
    else if digest(c[i].body) != c[i].mac then BadMac
    else NoFault
  }

  /** The kind of fault that is reported of a row: of its number first, then of its
      link, then of its own MAC; the first row's number and link are not looked at. */
  lemma FaultMeans(digest: Digest, c: seq<Entry>, i: nat)
    requires i < |c|
    ensures
      var number := i > 0 ==> (c[i].body.seqNo - c[i - 1].body.seqNo - 1) % TWO_64 == 0;
      var link := i > 0 ==> c[i].body.prevMAC == c[i - 1].mac;
      FaultAt(digest, c, i).Kind() ==
        if !number then "gap" else if !link then "link" else if c[i].mac != digest(c[i].body) then "mac" else ""
  {}

  /** Every number, link and MAC of the chained rows holds. */
  predicate Intact(digest: Digest, c: seq<Entry>) {
    forall i :: 0 <= i < |c| ==> FaultAt(digest, c, i) == NoFault
  }

  datatype ChainVerification = ChainVerification(
    enabled: bool, checked: nat, valid: bool, breakSeq: Int64, breakKind: string,
    oldestTS: Option<Int64>)

  /** `k` is the first faulty chained row, and `res` names it. */
  predicate NamesFirstFault(digest: Digest, c: seq<Entry>, k: nat, res: ChainVerification) {
    && k < |c|
    && FaultAt(digest, c, k) != NoFault
    && (forall i :: 0 <= i < k ==> FaultAt(digest, c, i) == NoFault)
    && res.breakSeq == c[k].body.seqNo
    && res.breakKind == FaultAt(digest, c, k).Kind()
    && res.checked == k
  }

  /** verifyChain. */
  method VerifyChain(key: Option<Digest>, rows: seq<Entry>) returns (res: ChainVerification)
    ensures res.enabled <==> key.Some?
    ensures key.None? ==> res.valid && res.checked == 0 && res.oldestTS == None
    ensures key.Some? ==> (res.valid <==> Intact(key.value, Chained(rows)))
    ensures key.Some? && res.valid ==> res.checked == |Chained(rows)|
    ensures key.Some? && !res.valid ==> exists k :: NamesFirstFault(key.value, Chained(rows), k, res)
    ensures res.valid ==> res.breakSeq == 0 && res.breakKind == ""
    ensures key.Some? ==> res.oldestTS == if Chained(rows) == [] then None else Some(Chained(rows)[0].body.timestamp)
  {
    hide Chained, Wrap;
    if key.None? {
      return ChainVerification(false, 0, true, 0, "", None);
    }
    var digest := key.value;
    var checked, oldestTS := 0, None;
    var prevMAC: Text, prevSeq: Int64, started := [], 0, false;
    ghost var c := Chained(rows);
    ChainedPrefix(rows, 0);
    assert rows[..0] == [];
    for n := 0 to |rows|
      invariant checked == |Chained(rows[..n])|
      invariant Chained(rows[..n]) <= c
      invariant forall i :: 0 <= i < checked ==> FaultAt(digest, c, i) == NoFault
      invariant started <==> checked > 0
      invariant started ==> prevMAC == c[checked - 1].mac && prevSeq == c[checked - 1].body.seqNo
      invariant oldestTS == if started then Some(c[0].body.timestamp) else None
    {
      var e := rows[n];
      assert rows[..n + 1] == rows[..n] + [e];
      ChainedSnoc(rows[..n], e);
      ChainedPrefix(rows, n + 1);
      if e.body.seqNo == 0 {
        continue;
      }
      assert c[checked] == Chained(rows[..n + 1])[checked] == e;
      var fault := NoFault;
      if !started {
        started := true;
        oldestTS := Some(e.body.timestamp);
      } else if e.body.seqNo != Wrap(prevSeq + 1) {
        fault := Gap;
      } else if e.body.prevMAC != prevMAC {
        fault := Link;
      }
      if fault == NoFault && digest(e.body) != e.mac {
        fault := BadMac;
      }
      assert fault == FaultAt(digest, c, checked);
      if fault != NoFault {
        res := ChainVerification(true, checked, false, e.body.seqNo, fault.Kind(), oldestTS);
        assert NamesFirstFault(digest, c, checked, res);
        return;
      }
      checked := checked + 1;
      prevMAC := e.mac;
      prevSeq := e.body.seqNo;
    }
    assert rows[..|rows|] == rows;
    res := ChainVerification(true, checked, true, 0, "", oldestTS);
  }

  /** Two rows of different content whose MACs agree. */
  ghost predicate Collision(digest: Digest, a: seq<Entry>, b: seq<Entry>) {
    exists i, j :: 0 <= i < |a| && 0 <= j < |b| && Collides(digest, a[i], b[j])
  }

  ghost predicate Collides(digest: Digest, e: Entry, f: Entry) {
    e.body != f.body && digest(e.body) == digest(f.body)
  }

  lemma IntactPrefix(digest: Digest, c: seq<Entry>, k: nat)
    requires k <= |c| && Intact(digest, c)
    ensures Intact(digest, c[..k])
  {
    forall i | 0 <= i < k ensures FaultAt(digest, c[..k], i) == NoFault {
      assert FaultAt(digest, c, i) == NoFault;
    }
  }

  /** Hash-chain agreement on chained rows: the last MAC pins down everything
      before it, or two rows collide. */
  lemma {:induction false} SuffixAgreement(digest: Digest, a: seq<Entry>, b: seq<Entry>)
    requires a != [] && |a| <= |b| && Intact(digest, a) && Intact(digest, b)
    requires a[|a| - 1].mac == b[|b| - 1].mac
    ensures a == b[|b| - |a|..] || Collision(digest, a, b)
    decreases |a|
  {
    var m, n := |a| - 1, |b| - 1;
    assert FaultAt(digest, a, m) == NoFault && FaultAt(digest, b, n) == NoFault;
    if a[m].body != b[n].body {
      assert Collides(digest, a[m], b[n]);
    } else {
      assert a[m] == b[n];
      if m == 0 {
        assert a == [a[m]] && b[n..] == [b[n]];
      } else {
        IntactPrefix(digest, a, m);
        IntactPrefix(digest, b, n);
        SuffixAgreement(digest, a[..m], b[..n]);
        if !Collision(digest, a[..m], b[..n]) {
          assert a == a[..m] + [a[m]];
          assert b[|b| - |a|..] == b[..n][|b| - |a|..] + [b[n]];
        } else {
          var i, j :| 0 <= i < m && 0 <= j < n && Collides(digest, a[..m][i], b[..n][j]);
          assert Collides(digest, a[i], b[j]);
        }
      }
    }
  }

  /** Hash-chain agreement as the verifier sees it: two accepted tables whose
      last chained rows carry the same MAC hold the same chained rows, up to
      rows missing at the old end of one of them. */
  lemma ChainAgreement(digest: Digest, rows: seq<Entry>, others: seq<Entry>)
    requires Intact(digest, Chained(rows)) && Intact(digest, Chained(others))
    requires Chained(rows) != [] && Chained(others) != []
    requires Chained(rows)[|Chained(rows)| - 1].mac == Chained(others)[|Chained(others)| - 1].mac
    ensures
      var a, b := Chained(rows), Chained(others);
      Collision(digest, a, b) || (if |a| <= |b| then a == b[|b| - |a|..] else b == a[|a| - |b|..])
  {
    hide Chained, FaultAt;
    var a, b := Chained(rows), Chained(others);
    if |a| <= |b| {
      SuffixAgreement(digest, a, b);
    } else {
      SuffixAgreement(digest, b, a);
      if Collision(digest, b, a) {
        var i, j :| 0 <= i < |b| && 0 <= j < |a| && Collides(digest, b[i], a[j]);
        assert Collides(digest, a[j], b[i]);
      }
    }
  }

  /** Numbers advance by one, modulo 2^64, along an intact chain. */
  lemma {:induction false} IntactNumbers(digest: Digest, c: seq<Entry>, i: nat, j: nat)
    requires i <= j < |c| && Intact(digest, c)
    ensures (c[j].body.seqNo - c[i].body.seqNo - (j - i)) % TWO_64 == 0
    decreases j - i
  {
    if i < j {
      IntactNumbers(digest, c, i, j - 1);
      assert FaultAt(digest, c, j) == NoFault;
    }
  }

  /** Removing a stretch of rows from the inside of an intact chain always
      breaks it, at the row that follows the hole. (A stretch of exactly a
      multiple of 2^64 rows would be needed to restore the numbering.) */
  lemma InteriorDeletionDetected(digest: Digest, c: seq<Entry>, i: nat, j: nat)
    requires 0 < i < j < |c| && Intact(digest, c)
    requires (j - i) % TWO_64 != 0
    ensures FaultAt(digest, c[..i] + c[j..], i) == Gap
    ensures forall n :: 0 <= n < i ==> FaultAt(digest, c[..i] + c[j..], n) == NoFault
  {
    var d := c[..i] + c[j..];
    assert d[i] == c[j] && d[i - 1] == c[i - 1];
    IntactNumbers(digest, c, i - 1, j);
    forall n | 0 <= n < i ensures FaultAt(digest, d, n) == NoFault {
      assert FaultAt(digest, c, n) == NoFault;
    }
  }

  /** The rows at the given positions. */
  function Picked(c: seq<Entry>, idx: seq<nat>): (d: seq<Entry>)
    requires forall n :: 0 <= n < |idx| ==> idx[n] < |c|
    ensures |d| == |idx| && forall n :: 0 <= n < |idx| ==> d[n] == c[idx[n]]
  {
    seq(|idx|, n requires 0 <= n < |idx| => c[idx[n]])
  }

  /** Positions of rows that are left when others are removed. */
  predicate Subset(c: seq<Entry>, idx: seq<nat>) {
    && (forall n :: 0 <= n < |idx| ==> idx[n] < |c|)
    && (forall n :: 0 < n < |idx| ==> idx[n - 1] < idx[n])
  }

  /** Nothing is missing between the first and the last of them. */
  predicate Contiguous(idx: seq<nat>) {
    forall n :: 0 < n < |idx| ==> idx[n] == idx[n - 1] + 1
  }

  /** Whatever rows are removed from an intact chain, a row that is left is faulty
      exactly if rows are missing right before it and others are left before
      those, and then it is a gap. */
  lemma FaultAfterHole(digest: Digest, c: seq<Entry>, idx: seq<nat>, n: nat)
    requires Intact(digest, c) && Subset(c, idx) && n < |idx| && |c| <= TWO_64
    ensures FaultAt(digest, Picked(c, idx), n) == if n > 0 && idx[n] != idx[n - 1] + 1 then Gap else NoFault
  {
    assert FaultAt(digest, c, idx[n]) == NoFault;
    if n > 0 {
      assert idx[n - 1] < idx[n];
      IntactNumbers(digest, c, idx[n - 1], idx[n]);
    }
  }

  /** Removing rows, in any number of places, goes unnoticed exactly when what is
      left is one contiguous stretch: losses at the ends are invisible, and no
      other loss is. */
  lemma DeletionUndetectedIff(digest: Digest, c: seq<Entry>, idx: seq<nat>)
    requires Intact(digest, c) && Subset(c, idx) && |c| <= TWO_64
    ensures Intact(digest, Picked(c, idx)) <==> Contiguous(idx)
  {
    hide FaultAt;
    var d := Picked(c, idx);
    if Intact(digest, d) {
      forall n | 0 < n < |idx| ensures idx[n] == idx[n - 1] + 1 {
        FaultAfterHole(digest, c, idx, n);
        assert FaultAt(digest, d, n) == NoFault;
      }
    }
    if Contiguous(idx) {
      forall n | 0 <= n < |d| ensures FaultAt(digest, d, n) == NoFault {
        FaultAfterHole(digest, c, idx, n);
      }
    }
  }

  /** What the chain cannot see: any contiguous stretch of an intact chain is
      itself intact, so rows lost at either end go unnoticed. */
  lemma EndDeletionUndetected(digest: Digest, c: seq<Entry>, i: nat, j: nat)
    requires i <= j <= |c| && Intact(digest, c)
    ensures Intact(digest, c[i..j])
  {
    forall n | 0 <= n < j - i ensures FaultAt(digest, c[i..j], n) == NoFault {
      assert FaultAt(digest, c, i + n) == NoFault;
    }
  }

  /** Editing the audited content of any row of an intact chain is reported,
      unless the edited row collides with the original. */
  lemma EditDetected(digest: Digest, c: seq<Entry>, i: nat, e: Entry)
    requires i < |c| && Intact(digest, c)
    requires e.mac == c[i].mac && e != c[i]
    ensures !Intact(digest, c[i := e]) || Collides(digest, e, c[i])
  {
    assert FaultAt(digest, c, i) == NoFault;
    if Intact(digest, c[i := e]) {
      assert FaultAt(digest, c[i := e], i) == NoFault;
    }
  }

  /** A colliding pair under the keyed MAC is a collision of the HMAC itself:
      two different byte strings with the same image. */
  lemma CollisionIsHmacCollision(hmac: Mac, e: Entry, f: Entry)
    requires Collides(ComputeMAC(hmac), e, f)
    ensures Canonical(e.body) != Canonical(f.body)
    ensures hmac(Canonical(e.body)) == hmac(Canonical(f.body))
  {
    if Canonical(e.body) == Canonical(f.body) {
      CanonicalInjective(e.body, f.body);
    }
  }
}
