/** What the collect-everything report says: agreement with the early-exit check, and locality of damage. */
module VerifierLaws {
  import opened Base
  import opened Cbor
  import opened Crypto
  import opened Attest
  import opened Threshold
  import opened Envelope
  import opened Projection
  import opened Chain
  import opened Verifier

  function MessageOf(row: Row): Option<Bytes> {
    match Env(row)
    case None => None
    case Some(e) => Message(e)
  }

  // The record hash recomputed for a row, where there is one.
  function HashOf(c: Suite, row: Row): Bytes {
    if MessageOf(row).Some? then c.hash(MessageOf(row).value) else []
  }

  // The row passes every check against the expected predecessor hash.
  predicate CleanRow(c: Suite, trust: TrustRoot, row: Row, prev: Bytes) {
    && Env(row).Some? && Message(Env(row).value).Some?
    && Env(row).value.prev == prev
    && Hex(HashOf(c, row)) == row.recHash
    && VerifyReport(c, Env(row).value.signatures.value, SigningBytes(ToMap(Env(row).value)).value, None).ok
    && Trusted(trust, Env(row).value) != Some(false)
  }

  lemma {:induction false} NoSetProblems(ps: seq<Problem>)
    ensures SetProblems(ps) == [] && AuthorSignatureInvalid !in ps <==> ps == []
  {
    if ps != [] { assert ps[0] in ps; }
  }

  lemma {:induction false} KindsEmpty(c: Suite, trust: TrustRoot, row: Row, e: Dac, m: Bytes, prev: Bytes,
      s: SignatureSet, message: Bytes)
    ensures RowKinds(c, trust, row, e, m, prev, VerifyReport(c, s, message, None)) == [] <==>
      && e.prev == prev && Hex(c.hash(m)) == row.recHash
      && VerifyReport(c, s, message, None).ok && Trusted(trust, e) != Some(false)
  {
    var r := VerifyReport(c, s, message, None);
    OkMeans(c, s, message, None);
    AuthorProblem(c, s, message);
    hide VerifyReport, Hex, Trusted;
    NoSetProblems(r.problems);
    KindsOf(c, trust, row, e, m, prev, r);
  }

  lemma {:induction false} KindsOf(c: Suite, trust: TrustRoot, row: Row, e: Dac, m: Bytes, prev: Bytes, r: Report)
    ensures RowKinds(c, trust, row, e, m, prev, r) == [] <==>
      && e.prev == prev && Hex(c.hash(m)) == row.recHash && r.authorOk
      && SetProblems(r.problems) == [] && Trusted(trust, e) != Some(false)
  {
    hide Hex, Trusted, SetProblems;
    var kinds := RowKinds(c, trust, row, e, m, prev, r);
    var rest := SetProblems(r.problems) + Given(Trusted(trust, e) == Some(false), KeyNotTrusted);
    assert kinds == Given(e.prev != prev, PrevMismatch) + Given(Hex(c.hash(m)) != row.recHash, RecordHashMismatch)
      + Given(!r.authorOk, SignatureInvalid) + rest;
  }

  lemma {:induction false} AuthorProblem(c: Suite, s: SignatureSet, message: Bytes)
    ensures var r := VerifyReport(c, s, message, None);
      r.authorOk <==> AuthorSignatureInvalid !in r.problems
  {
    hide Sorted, Signed;
  }

  // A row is reported without defects exactly when it is clean, and then its own hash is expected next.
  lemma {:induction false} CleanIff(c: Suite, trust: TrustRoot, row: Row, i: nat, prev: Bytes)
    ensures CheckRow(c, trust, row, i, prev).Some? && CheckRow(c, trust, row, i, prev).value.kinds == []
      <==> CleanRow(c, trust, row, prev)
    ensures CleanRow(c, trust, row, prev) ==>
      CheckRow(c, trust, row, i, prev).value.next == HashOf(c, row)
  {
    hide FromProjection, VerifyReport, Hex, FromHex, RowKinds, ToMap, SigSetMap, Trusted;
    if Env(row).Some? && Message(Env(row).value).Some? {
      var e := Env(row).value;
      KindsEmpty(c, trust, row, e, Message(e).value, prev, e.signatures.value, SigningBytes(ToMap(e)).value);
    }
  }

  // No row from i on has a defect.
  predicate CleanFrom(c: Suite, trust: TrustRoot, rows: seq<Row>, i: nat, prev: Bytes)
    requires i <= |rows|
  {
    VerifyFrom(c, trust, rows, i, prev).Some? && VerifyFrom(c, trust, rows, i, prev).value.1 == []
  }

  lemma {:induction false} CleanFromStep(c: Suite, trust: TrustRoot, rows: seq<Row>, i: nat, prev: Bytes)
    requires i < |rows|
    ensures CleanFrom(c, trust, rows, i, prev) <==>
      && CleanRow(c, trust, rows[i], prev)
      && CleanFrom(c, trust, rows, i + 1, HashOf(c, rows[i]))
  {
    hide CheckRow, CleanRow, Env, Message;
    CleanIff(c, trust, rows[i], i, prev);
  }

  // ----- When there is no report -----

  // An exception escapes on this row, whatever comes before it and whoever is trusted: it parses but is unsigned
  // or has no encoding, or it does not parse and its recorded hash is not hex.
  predicate RowRaises(row: Row) {
    if Env(row).Some? then Message(Env(row).value).None? else row.recHash != [] && FromHex(row.recHash).None?
  }

  lemma {:induction false} CheckRowRaises(c: Suite, trust: TrustRoot, row: Row, i: nat, prev: Bytes)
    ensures CheckRow(c, trust, row, i, prev).None? <==> RowRaises(row)
  {
    hide FromProjection, VerifyReport, Hex, FromHex, RowKinds, ToMap, SigSetMap, Trusted;
  }

  lemma {:induction false} NoReportFrom(c: Suite, trust: TrustRoot, rows: seq<Row>, i: nat, prev: Bytes)
    requires i <= |rows|
    ensures VerifyFrom(c, trust, rows, i, prev).None? <==> exists k :: i <= k < |rows| && RowRaises(rows[k])
    decreases |rows| - i
  {
    hide CheckRow, RowRaises;
    if i < |rows| {
      CheckRowRaises(c, trust, rows[i], i, prev);
      var r := CheckRow(c, trust, rows[i], i, prev);
      if r.Some? { NoReportFrom(c, trust, rows, i + 1, r.value.next); }
    }
  }

  // There is no report exactly when some row, anywhere in the store, raises.
  lemma {:induction false} NoReportIff(c: Suite, trust: TrustRoot, rows: seq<Row>)
    ensures VerifyStore(c, trust, rows).None? <==> exists k :: 0 <= k < |rows| && RowRaises(rows[k])
  {
    hide VerifyFrom, RowRaises;
    NoReportFrom(c, trust, rows, 0, GENESIS_PREV);
  }

  // ----- The two verifiers compared -----

  // The author's signature verifies under the key the envelope carries: only the early-exit check asks this.
  predicate RowSelf(c: Suite, row: Row) {
    Env(row).Some? && SelfVerifies(c, Env(row).value)
  }

  // The signature set's own report is ok, and the producer is trusted: only the collecting verifier asks this.
  predicate RowReportOk(c: Suite, trust: TrustRoot, row: Row) {
    && Env(row).Some? && MessageOf(row).Some?
    && VerifyReport(c, Env(row).value.signatures.value, SigningBytes(ToMap(Env(row).value)).value, None).ok
    && Trusted(trust, Env(row).value) != Some(false)
  }

  predicate ReportOk(c: Suite, trust: TrustRoot, rows: seq<Row>) {
    VerifyStore(c, trust, rows).Some? && VerifyStore(c, trust, rows).value.ok
  }

  ghost predicate AllSelf(c: Suite, rows: seq<Row>) {
    forall j :: 0 <= j < |rows| ==> RowSelf(c, rows[j])
  }

  ghost predicate AllReportsOk(c: Suite, trust: TrustRoot, rows: seq<Row>) {
    forall j :: 0 <= j < |rows| ==> RowReportOk(c, trust, rows[j])
  }

  lemma {:induction false} RowsCompared(c: Suite, trust: TrustRoot, row: Row, prev: Bytes)
    ensures CleanRow(c, trust, row, prev) && RowSelf(c, row) <==> LinksTo(c, row, prev) && RowReportOk(c, trust, row)
    ensures CleanRow(c, trust, row, prev) ==> RowReportOk(c, trust, row)
    ensures LinksTo(c, row, prev) ==> RowSelf(c, row) && RowHash(c, row) == HashOf(c, row)
  {
    hide FromProjection, Hex, ToMap, SigSetMap, Encode, VerifyReport, Trusted;
  }

  lemma {:induction false} ComparedFrom(c: Suite, trust: TrustRoot, rows: seq<Row>, i: nat, prev: Bytes)
    requires i <= |rows|
    ensures CleanFrom(c, trust, rows, i, prev) && AllSelf(c, rows[i..])
      <==> CheckFrom(c, rows[i..], prev) == Accepted && AllReportsOk(c, trust, rows[i..])
    decreases |rows| - i
  {
    hide CleanRow, RowSelf, RowReportOk, RowSound, Env, Message, MessageOf, HashOf, RowHash, LinksTo, VerifyFrom;
    if i == |rows| {
      NothingLeft(c, trust, rows, prev);
    } else {
      var row, rest := rows[i], rows[i + 1..];
      assert rows[i..] == [row] + rest;
      CleanFromStep(c, trust, rows, i, prev);
      RowsCompared(c, trust, row, prev);
      CheckStep(c, rows[i..], prev);
      FirstAndRest(c, trust, row, rest);
      hide CleanFrom, CheckFrom, AllSelf, AllReportsOk;
      ComparedFrom(c, trust, rows, i + 1, HashOf(c, row));
    }
  }

  lemma {:induction false} NothingLeft(c: Suite, trust: TrustRoot, rows: seq<Row>, prev: Bytes)
    ensures CleanFrom(c, trust, rows, |rows|, prev)
  {
    hide CheckRow;
  }

  lemma {:induction false} FirstAndRest(c: Suite, trust: TrustRoot, row: Row, rest: seq<Row>)
    ensures AllSelf(c, [row] + rest) <==> RowSelf(c, row) && AllSelf(c, rest)
    ensures AllReportsOk(c, trust, [row] + rest) <==> RowReportOk(c, trust, row) && AllReportsOk(c, trust, rest)
  {
    hide RowSelf, RowReportOk;
    var all := [row] + rest;
    assert all[0] == row && forall j :: 0 <= j < |rest| ==> all[j + 1] == rest[j];
  }

  // On every store: the report is ok and every envelope verifies under the key it carries, exactly when the
  // early-exit check returns true and every signature set is ok by its own report.
  lemma {:induction false} VerifiersCompared(c: Suite, trust: TrustRoot, rows: seq<Row>)
    ensures ReportOk(c, trust, rows) && AllSelf(c, rows) <==> Check(c, rows) == Accepted && AllReportsOk(c, trust, rows)
  {
    hide VerifyFrom, CheckFrom, AllSelf, AllReportsOk;
    ComparedFrom(c, trust, rows, 0, GENESIS_PREV);
    assert rows[0..] == rows;
  }

  // So after an ok report the early-exit check can still return false, exactly when some author's key is not
  // the one the envelope carries; it does not raise.
  lemma {:induction false} AfterOkReport(c: Suite, trust: TrustRoot, rows: seq<Row>)
    requires ReportOk(c, trust, rows)
    ensures Check(c, rows) == (if AllSelf(c, rows) then Accepted else Rejected)
  {
    hide VerifyFrom, CheckFrom, AllSelf, AllReportsOk, RowRaises, RaisesAt;
    VerifiersCompared(c, trust, rows);
    ReportsFrom(c, trust, rows, 0, GENESIS_PREV);
    assert rows[0..] == rows;
    NoReportIff(c, trust, rows);
    CheckRaisesIff(c, rows, GENESIS_PREV);
    if k: nat :| RaisesAt(c, rows, GENESIS_PREV, k) { RaisesBoth(c, rows, k); }
  }

  lemma {:induction false} RaisesBoth(c: Suite, rows: seq<Row>, k: nat)
    requires RaisesAt(c, rows, GENESIS_PREV, k)
    ensures k < |rows| && RowRaises(rows[k])
  {
    hide CheckFrom, Env, Message, RowHash;
  }

  // A clean store's signature sets are all ok.
  lemma {:induction false} ReportsFrom(c: Suite, trust: TrustRoot, rows: seq<Row>, i: nat, prev: Bytes)
    requires i <= |rows| && CleanFrom(c, trust, rows, i, prev)
    ensures AllReportsOk(c, trust, rows[i..])
    decreases |rows| - i
  {
    hide CleanRow, RowReportOk, RowSound, Env, Message, MessageOf, HashOf, RowHash, LinksTo, CleanFrom;
    if i < |rows| {
      assert rows[i..] == [rows[i]] + rows[i + 1..];
      CleanFromStep(c, trust, rows, i, prev);
      RowsCompared(c, trust, rows[i], prev);
      FirstAndRest(c, trust, rows[i], rows[i + 1..]);
      ReportsFrom(c, trust, rows, i + 1, HashOf(c, rows[i]));
    }
  }

  // What every substrate emits today: the producer signs alone, under its own key.
  predicate AuthorAlone(e: Dac) {
    && e.signatures.Some? && e.signatures.value.author.publicKey == e.producerPk
    && e.signatures.value.attestors == [] && Required(e.signatures.value) == 0
  }

  predicate AuthorOnlyRow(row: Row) {
    Env(row).Some? ==> AuthorAlone(Env(row).value)
  }

  lemma {:induction false} SelfIsReport(c: Suite, row: Row)
    requires AuthorOnlyRow(row) && MessageOf(row).Some?
    ensures RowSelf(c, row) <==> RowReportOk(c, None, row)
  {
    hide FromProjection, Hex, ToMap, SigSetMap, Encode;
    var e := Env(row).value;
    OkMeans(c, e.signatures.value, SigningBytes(ToMap(e)).value, None);
    hide VerifyReport;
  }

  lemma {:induction false} RowMessages(c: Suite, row: Row)
    ensures RowReportOk(c, None, row) ==> MessageOf(row).Some?
    ensures RowSound(c, row) ==> MessageOf(row).Some? && RowSelf(c, row)
  {
    hide FromProjection, Hex, ToMap, SigSetMap, Encode, VerifyReport;
  }

  // On author-only rows the two verdicts coincide: the report is ok exactly when the check returns true.
  lemma {:induction false} VerifiersAgree(c: Suite, rows: seq<Row>)
    requires forall j :: 0 <= j < |rows| ==> AuthorOnlyRow(rows[j])
    ensures ReportOk(c, None, rows) <==> Check(c, rows) == Accepted
  {
    hide AuthorOnlyRow, RowSelf, RowReportOk, VerifyFrom, CheckFrom, MessageOf, RowSound, LinksTo;
    VerifiersCompared(c, None, rows);
    forall j | 0 <= j < |rows|
      ensures MessageOf(rows[j]).Some? ==> (RowSelf(c, rows[j]) <==> RowReportOk(c, None, rows[j]))
      ensures RowReportOk(c, None, rows[j]) ==> MessageOf(rows[j]).Some?
    {
      if MessageOf(rows[j]).Some? { SelfIsReport(c, rows[j]); }
      RowMessages(c, rows[j]);
    }
    if ReportOk(c, None, rows) {
      ReportsFrom(c, None, rows, 0, GENESIS_PREV);
      assert rows[0..] == rows;
    }
    if Check(c, rows) == Accepted {
      CheckIffLinked(c, rows, GENESIS_PREV);
      forall j | 0 <= j < |rows| ensures RowSelf(c, rows[j]) && MessageOf(rows[j]).Some? {
        assert RowLinked(c, rows, GENESIS_PREV, j);
        LinkedSound(c, rows, j);
        RowMessages(c, rows[j]);
      }
    }
  }

  lemma {:induction false} LinkedSound(c: Suite, rows: seq<Row>, j: nat)
    requires j < |rows| && RowLinked(c, rows, GENESIS_PREV, j)
    ensures RowSound(c, rows[j])
  {
    hide RowSound, RowHash, Env;
  }
}
