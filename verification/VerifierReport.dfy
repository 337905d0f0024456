/** What every entry and every defect of the collecting verifier's report says. */
module VerifierReport {
  import opened Base
  import opened Cbor
  import opened Crypto
  import opened Attest
  import opened Threshold
  import opened ThresholdReport
  import opened Envelope
  import opened Projection
  import opened Chain
  import opened Verifier
  import opened VerifierLaws
  import opened Tampering

  // The hash row j has to carry: 32 zero bytes for the first, then what the row before it hands on, which is its
  // own hash, or, where it cannot be read, the one recorded for it.
  function HashBefore(c: Suite, rows: seq<Row>, j: nat): Bytes
    requires j <= |rows|
  {
    if j == 0 then GENESIS_PREV else NextHash(c, rows[j - 1], HashBefore(c, rows, j - 1))
  }

  // What row j contributes.
  function RowAt(c: Suite, trust: TrustRoot, rows: seq<Row>, j: nat): Option<RowResult>
    requires j < |rows|
  {
    CheckRow(c, trust, rows[j], j, HashBefore(c, rows, j))
  }

  // ----- The report, row by row -----

  // The items and defects are those of rows i.., each under its own index.
  ghost predicate Collected(c: Suite, trust: TrustRoot, rows: seq<Row>, i: nat, items: seq<Item>, defects: seq<Defect>)
    requires i <= |rows|
  {
    && |items| == |rows| - i
    && (forall a :: 0 <= a < |items| ==> ItemAt(c, trust, rows, i + a, items[a]))
    && forall d :: d in defects <==> DefectAt(c, trust, rows, i, d)
  }

  ghost predicate ItemAt(c: Suite, trust: TrustRoot, rows: seq<Row>, j: int, item: Item) {
    0 <= j < |rows| && RowAt(c, trust, rows, j).Some? && item == RowAt(c, trust, rows, j).value.item
  }

  ghost predicate DefectAt(c: Suite, trust: TrustRoot, rows: seq<Row>, i: nat, d: Defect) {
    && i <= d.index < |rows| && RowAt(c, trust, rows, d.index).Some?
    && d.kind in RowAt(c, trust, rows, d.index).value.kinds
  }

  lemma {:induction false} AtMembers(i: nat, kinds: seq<DefectKind>, d: Defect)
    ensures d in At(i, kinds) <==> d.index == i && d.kind in kinds
  {
    if d.index == i && d.kind in kinds {
      var k :| 0 <= k < |kinds| && kinds[k] == d.kind;
      assert At(i, kinds)[k] == d;
    }
  }

  lemma {:induction false} CollectedFrom(c: Suite, trust: TrustRoot, rows: seq<Row>, i: nat)
    requires i <= |rows|
    requires VerifyFrom(c, trust, rows, i, HashBefore(c, rows, i)).Some?
    ensures var r := VerifyFrom(c, trust, rows, i, HashBefore(c, rows, i)).value; Collected(c, trust, rows, i, r.0, r.1)
    decreases |rows| - i
  {
    hide CheckRow, HashBefore;
    if i < |rows| {
      HandedOn(c, trust, rows, i);
      var x := RowAt(c, trust, rows, i).value;
      CollectedFrom(c, trust, rows, i + 1);
      var rest := VerifyFrom(c, trust, rows, i + 1, HashBefore(c, rows, i + 1)).value;
      hide VerifyFrom;
      CollectedStep(c, trust, rows, i, x, rest.0, rest.1);
    }
  }

  lemma {:induction false} HandedOn(c: Suite, trust: TrustRoot, rows: seq<Row>, i: nat)
    requires i < |rows|
    ensures RowAt(c, trust, rows, i).Some? ==> RowAt(c, trust, rows, i).value.next == HashBefore(c, rows, i + 1)
  {
    var prev := HashBefore(c, rows, i);
    CheckRowRaises(c, trust, rows[i], i, prev);
    hide CheckRow, RowRaises, NextHash, CleanRow;
    if RowAt(c, trust, rows, i).Some? { CheckedRow(c, trust, rows[i], i, prev); }
  }

  lemma {:induction false} CollectedStep(c: Suite, trust: TrustRoot, rows: seq<Row>, i: nat, x: RowResult,
      items: seq<Item>, defects: seq<Defect>)
    requires i < |rows| && RowAt(c, trust, rows, i) == Some(x)
    requires Collected(c, trust, rows, i + 1, items, defects)
    ensures Collected(c, trust, rows, i, [x.item] + items, At(i, x.kinds) + defects)
  {
    hide RowAt, At;
    var all := At(i, x.kinds) + defects;
    forall d ensures d in all <==> DefectAt(c, trust, rows, i, d) {
      AtMembers(i, x.kinds, d);
      assert d in all <==> d in At(i, x.kinds) || d in defects;
      assert d in defects <==> DefectAt(c, trust, rows, i + 1, d);
    }
    forall a | 0 <= a < |[x.item] + items| ensures ItemAt(c, trust, rows, i + a, ([x.item] + items)[a]) {
      if a > 0 { assert ItemAt(c, trust, rows, i + 1 + (a - 1), items[a - 1]); }
    }
  }

  // ----- What one row contributes -----

  // The row, which carries envelope e, fails in this way.
  ghost predicate EnvelopeFails(c: Suite, trust: TrustRoot, e: Dac, recHash: Text, before: Bytes, k: DefectKind) {
    match k
    case InvalidEnvelope => false
    case PrevMismatch => e.prev != before
    case RecordHashMismatch => !Recorded(c, e, recHash)
    case SignatureInvalid => !AuthorSigned(c, e)
    case SetProblem(p) => p != AuthorSignatureInvalid && SetReported(c, e, p)
    case KeyNotTrusted => trust.Some? && !trust.value(e.producerId, e.producerPk)
  }

  ghost predicate Fails(c: Suite, trust: TrustRoot, row: Row, before: Bytes, k: DefectKind) {
    match Env(row)
    case None => k == InvalidEnvelope
    case Some(e) => EnvelopeFails(c, trust, e, row.recHash, before, k)
  }

  // The recorded hash is the hex of the hash of the record message.
  ghost predicate Recorded(c: Suite, e: Dac, recHash: Text) {
    Message(e).Some? && Hex(c.hash(Message(e).value)) == recHash
  }

  // The author's signature verifies under the author's key.
  ghost predicate AuthorSigned(c: Suite, e: Dac) {
    && e.signatures.Some? && SigningBytes(ToMap(e)).Some?
    && c.verify(e.signatures.value.author.publicKey, SigningBytes(ToMap(e)).value, e.signatures.value.author.signature)
  }

  ghost predicate SetReported(c: Suite, e: Dac, p: Problem) {
    && e.signatures.Some? && SigningBytes(ToMap(e)).Some?
    && Reported(c, e.signatures.value, SigningBytes(ToMap(e)).value, None, p)
  }

  // How many attestors have signed.
  ghost function Attestors(c: Suite, e: Dac): nat {
    if e.signatures.Some? && SigningBytes(ToMap(e)).Some? then
      |Good(c, e.signatures.value, SigningBytes(ToMap(e)).value, None)|
    else 0
  }

  lemma {:induction false} SetProblemsMember(ps: seq<Problem>, k: DefectKind)
    ensures k in SetProblems(ps) <==> k.SetProblem? && k.problem in ps && k.problem != AuthorSignatureInvalid
  {
    if ps != [] { SetProblemsMember(ps[1..], k); }
  }

  lemma {:induction false} KindsMember(c: Suite, trust: TrustRoot, row: Row, e: Dac, m: Bytes, prev: Bytes, r: Report,
      k: DefectKind)
    ensures k in RowKinds(c, trust, row, e, m, prev, r) <==>
      || (k == PrevMismatch && e.prev != prev)
      || (k == RecordHashMismatch && Hex(c.hash(m)) != row.recHash)
      || (k == SignatureInvalid && !r.authorOk)
      || (k.SetProblem? && k.problem in r.problems && k.problem != AuthorSignatureInvalid)
      || (k == KeyNotTrusted && Trusted(trust, e) == Some(false))
  {
    hide Hex, Trusted, SetProblems;
    SetProblemsMember(r.problems, k);
  }

  lemma {:induction false} FailsIff(c: Suite, trust: TrustRoot, row: Row, i: nat, before: Bytes, k: DefectKind)
    requires Sound(c) && CheckRow(c, trust, row, i, before).Some?
    ensures k in CheckRow(c, trust, row, i, before).value.kinds <==> Fails(c, trust, row, before, k)
  {
    hide Sound, FromProjection, VerifyReport, Hex, FromHex, RowKinds, ToMap, SigSetMap, Reported;
    if Env(row).Some? {
      var e := Env(row).value;
      var s, message := e.signatures.value, SigningBytes(ToMap(e)).value;
      KindsMember(c, trust, row, e, Message(e).value, before, VerifyReport(c, s, message, None), k);
      FieldsMean(c, s, message, None);
      ProblemsMean(c, s, message, None);
    }
  }

  // What an entry says, but for ok.
  ghost predicate EntrySays(c: Suite, trust: TrustRoot, e: Dac, i: nat, item: Item) {
    && item.Checked? && item.index == i && item.id == e.claimId && item.kind == e.kind && item.producer == e.producerId
    && (item.signatureValid <==> AuthorSigned(c, e)) && item.attestors == Attestors(c, e)
    && item.trusted == (if trust.None? then None else Some(trust.value(e.producerId, e.producerPk)))
  }

  ghost predicate Says(c: Suite, trust: TrustRoot, row: Row, i: nat, item: Item) {
    match Env(row)
    case None => item == Unreadable(i)
    case Some(e) => EntrySays(c, trust, e, i, item)
  }

  lemma {:induction false} SaysIff(c: Suite, trust: TrustRoot, row: Row, i: nat, before: Bytes)
    requires Sound(c) && CheckRow(c, trust, row, i, before).Some?
    ensures var r := CheckRow(c, trust, row, i, before).value;
      Says(c, trust, row, i, r.item) && (r.item.Checked? ==> (r.item.ok <==> r.kinds == []))
  {
    hide Sound, FromProjection, VerifyReport, Hex, FromHex, RowKinds, ToMap, SigSetMap, Good;
    if Env(row).Some? {
      var e := Env(row).value;
      FieldsMean(c, e.signatures.value, SigningBytes(ToMap(e)).value, None);
    }
  }

  // ----- The order of the defects -----

  // Within a row, first the envelope, then the link, the hash, the author, the set's problems, the trust root.
  function KindRank(k: DefectKind): nat {
    match k
    case InvalidEnvelope => 0
    case PrevMismatch => 1
    case RecordHashMismatch => 2
    case SignatureInvalid => 3
    case SetProblem(p) => 4 + Rank(p)
    case KeyNotTrusted => 9
  }

  ghost predicate RankedKinds(ks: seq<DefectKind>, n: nat) {
    && (forall i :: 0 <= i < |ks| ==> KindRank(ks[i]) < n)
    && forall i, j :: 0 <= i < j < |ks| ==> KindRank(ks[i]) < KindRank(ks[j])
  }

  lemma {:induction false} OneKind(ks: seq<DefectKind>, b: bool, k: DefectKind, n: nat)
    requires RankedKinds(ks, n) && n <= KindRank(k)
    ensures RankedKinds(ks + Given(b, k), KindRank(k) + 1)
  {
    hide KindRank;
  }

  lemma {:induction false} RankedWider(ks: seq<DefectKind>, n: nat, m: nat)
    requires RankedKinds(ks, n) && n <= m
    ensures RankedKinds(ks, m)
  {
    hide KindRank;
  }

  ghost predicate RankedFrom(ps: seq<Problem>, n: nat) {
    && (forall i :: 0 <= i < |ps| ==> n <= Rank(ps[i]))
    && forall i, j :: 0 <= i < j < |ps| ==> Rank(ps[i]) < Rank(ps[j])
  }

  lemma {:induction false} RankedRest(ps: seq<Problem>, n: nat)
    requires RankedFrom(ps, n) && ps != []
    ensures n <= Rank(ps[0]) && RankedFrom(ps[1..], Rank(ps[0]) + 1)
  {
    hide Rank;
  }

  lemma {:induction false} ManyKinds(ks: seq<DefectKind>, ps: seq<Problem>, n: nat)
    requires n <= 5 && RankedKinds(ks, 4 + n) && RankedFrom(ps, n)
    ensures RankedKinds(ks + SetProblems(ps), 9)
    decreases |ps|
  {
    hide KindRank, RankedKinds, RankedFrom, Rank;
    if ps == [] {
      assert ks + SetProblems([]) == ks;
      RankedWider(ks, 4 + n, 9);
    } else {
      var p := ps[0];
      ProblemRank(p);
      RankedRest(ps, n);
      var more := ks + Given(p != AuthorSignatureInvalid, SetProblem(p));
      OneKind(ks, p != AuthorSignatureInvalid, SetProblem(p), 4 + n);
      ManyKinds(more, ps[1..], Rank(p) + 1);
      assert SetProblems(ps) == Given(p != AuthorSignatureInvalid, SetProblem(p)) + SetProblems(ps[1..]);
      assert ks + SetProblems(ps) == more + SetProblems(ps[1..]);
    }
  }

  lemma {:induction false} ProblemRank(p: Problem)
    ensures KindRank(SetProblem(p)) == 4 + Rank(p) && Rank(p) < 5
  {}

  lemma {:induction false} RankedZero(ps: seq<Problem>)
    requires forall i, j :: 0 <= i < j < |ps| ==> Rank(ps[i]) < Rank(ps[j])
    ensures RankedFrom(ps, 0)
  {}

  lemma {:induction false} EmptyRanked()
    ensures RankedKinds([], 0)
  {}

  lemma {:induction false} KindsRanked(c: Suite, trust: TrustRoot, row: Row, e: Dac, m: Bytes, prev: Bytes,
      s: SignatureSet, message: Bytes)
    ensures RankedKinds(RowKinds(c, trust, row, e, m, prev, VerifyReport(c, s, message, None)), 10)
  {
    var r := VerifyReport(c, s, message, None);
    ProblemList(c, s, message, None);
    hide VerifyReport, Hex, Trusted, SetProblems, Given, RankedKinds, Rank;
    FlaggedKinds(e.prev != prev, Hex(c.hash(m)) != row.recHash, !r.authorOk, r.problems,
      Trusted(trust, e) == Some(false));
  }

  lemma {:induction false} FlaggedKinds(a: bool, b: bool, c: bool, ps: seq<Problem>, d: bool)
    requires forall i, j :: 0 <= i < j < |ps| ==> Rank(ps[i]) < Rank(ps[j])
    ensures RankedKinds(Given(a, PrevMismatch) + Given(b, RecordHashMismatch) + Given(c, SignatureInvalid)
        + SetProblems(ps) + Given(d, KeyNotTrusted), 10)
  {
    RankedZero(ps);
    hide SetProblems, Given, RankedKinds, RankedFrom;
    EmptyRanked();
    var w := [] + Given(a, PrevMismatch);
    assert w == Given(a, PrevMismatch);
    OneKind([], a, PrevMismatch, 0);
    var x := w + Given(b, RecordHashMismatch);
    OneKind(w, b, RecordHashMismatch, 2);
    var y := x + Given(c, SignatureInvalid);
    OneKind(x, c, SignatureInvalid, 3);
    ManyKinds(y, ps, 0);
    OneKind(y + SetProblems(ps), d, KeyNotTrusted, 9);
  }

  lemma {:induction false} RowRanked(c: Suite, trust: TrustRoot, rows: seq<Row>, i: nat)
    requires i < |rows| && RowAt(c, trust, rows, i).Some?
    ensures RankedKinds(RowAt(c, trust, rows, i).value.kinds, 10)
  {
    hide FromProjection, VerifyReport, Hex, FromHex, RowKinds, ToMap, SigSetMap, HashBefore;
    var row := rows[i];
    if Env(row).Some? && Message(Env(row).value).Some? {
      var e := Env(row).value;
      KindsRanked(c, trust, row, e, Message(e).value, HashBefore(c, rows, i), e.signatures.value,
        SigningBytes(ToMap(e)).value);
    }
  }

  // By row, and within a row by kind; so no defect is listed twice.
  ghost predicate InReportOrder(ds: seq<Defect>) {
    forall a, b :: 0 <= a < b < |ds| ==> Comes(ds[a], ds[b])
  }

  predicate Comes(x: Defect, y: Defect) {
    x.index < y.index || (x.index == y.index && KindRank(x.kind) < KindRank(y.kind))
  }

  lemma {:induction false} OrderStep(i: nat, kinds: seq<DefectKind>, ds: seq<Defect>)
    requires RankedKinds(kinds, 10) && InReportOrder(ds) && forall b :: 0 <= b < |ds| ==> i < ds[b].index
    ensures InReportOrder(At(i, kinds) + ds)
  {
    hide KindRank;
    var xs := At(i, kinds);
    assert forall a :: 0 <= a < |xs| ==> xs[a] == Defect(i, kinds[a]);
  }

  lemma {:induction false} OrderedFrom(c: Suite, trust: TrustRoot, rows: seq<Row>, i: nat)
    requires i <= |rows|
    requires VerifyFrom(c, trust, rows, i, HashBefore(c, rows, i)).Some?
    ensures var ds := VerifyFrom(c, trust, rows, i, HashBefore(c, rows, i)).value.1;
      InReportOrder(ds) && forall b :: 0 <= b < |ds| ==> i <= ds[b].index
    decreases |rows| - i
  {
    hide CheckRow, HashBefore, RankedKinds, Comes;
    if i < |rows| {
      HandedOn(c, trust, rows, i);
      RowRanked(c, trust, rows, i);
      OrderedFrom(c, trust, rows, i + 1);
      OrderStep(i, RowAt(c, trust, rows, i).value.kinds,
        VerifyFrom(c, trust, rows, i + 1, HashBefore(c, rows, i + 1)).value.1);
    }
  }

  // ----- The whole report -----

  // In every report there is one entry a row, in order. An unreadable row's says so; any other carries its
  // envelope's id, kind and producer, whether the author's signature verifies, how many attestors do, what the
  // trust root says, and ok exactly when no defect has its index. A defect is listed exactly when the row fails
  // in that way, once, by row and kind; and the report is ok when none is.
  lemma {:induction false} ReportMeans(c: Suite, trust: TrustRoot, rows: seq<Row>, r: StoreReport)
    requires Sound(c) && VerifyStore(c, trust, rows) == Some(r)
    ensures |r.entries| == |rows| && (r.ok <==> r.defects == []) && InReportOrder(r.defects)
    ensures forall d :: d in r.defects <==> DefectMeans(c, trust, rows, d)
    ensures forall i: nat :: i < |rows| ==> EntryMeans(c, trust, rows, i, r)
  {
    hide Sound, VerifyFrom, CheckRow, EntryMeans, DefectMeans, Collected, InReportOrder;
    CollectedFrom(c, trust, rows, 0);
    OrderedFrom(c, trust, rows, 0);
    CollectedAll(c, trust, rows, r.entries, r.defects);
    forall d ensures d in r.defects <==> DefectMeans(c, trust, rows, d) {
      DefectIff(c, trust, rows, r.entries, r.defects, d);
    }
    forall i: nat | i < |rows| ensures EntryMeans(c, trust, rows, i, r) {
      EntryAt(c, trust, rows, i, r);
    }
  }

  ghost predicate DefectMeans(c: Suite, trust: TrustRoot, rows: seq<Row>, d: Defect) {
    d.index < |rows| && Fails(c, trust, rows[d.index], HashBefore(c, rows, d.index), d.kind)
  }

  ghost predicate EntryMeans(c: Suite, trust: TrustRoot, rows: seq<Row>, i: nat, r: StoreReport) {
    && i < |rows| == |r.entries|
    && Says(c, trust, rows[i], i, r.entries[i])
    && (r.entries[i].Checked? ==> (r.entries[i].ok <==> forall d :: d in r.defects ==> d.index != i))
  }

  lemma {:induction false} CollectedAll(c: Suite, trust: TrustRoot, rows: seq<Row>, items: seq<Item>,
    defects: seq<Defect>)
    requires Collected(c, trust, rows, 0, items, defects)
    ensures |items| == |rows|
  {
    hide RowAt, DefectAt;
  }

  lemma {:induction false} DefectIff(c: Suite, trust: TrustRoot, rows: seq<Row>, items: seq<Item>, defects: seq<Defect>,
      d: Defect)
    requires Sound(c) && Collected(c, trust, rows, 0, items, defects)
    ensures d in defects <==> DefectMeans(c, trust, rows, d)
  {
    hide Sound, CheckRow, Fails, HashBefore;
    if d.index < |rows| {
      assert ItemAt(c, trust, rows, d.index, items[d.index]);
      FailsIff(c, trust, rows[d.index], d.index, HashBefore(c, rows, d.index), d.kind);
    }
  }

  lemma {:induction false} EntryAt(c: Suite, trust: TrustRoot, rows: seq<Row>, i: nat, r: StoreReport)
    requires Sound(c) && i < |rows| && Collected(c, trust, rows, 0, r.entries, r.defects)
    ensures EntryMeans(c, trust, rows, i, r)
  {
    hide Sound, CheckRow, HashBefore, Says;
    assert ItemAt(c, trust, rows, i, r.entries[i]);
    SaysIff(c, trust, rows[i], i, HashBefore(c, rows, i));
    var x := RowAt(c, trust, rows, i).value;
    if x.kinds != [] { assert DefectAt(c, trust, rows, 0, Defect(i, x.kinds[0])); }
    assert forall d :: d in r.defects && d.index == i ==> d.kind in x.kinds;
  }
}
