/** What altering a stored row does to either verifier. */
module Tampering {
  import opened Base
  import opened Cbor
  import opened CborTheorems
  import opened Schema
  import opened Crypto
  import opened Attest
  import opened Threshold
  import opened Envelope
  import opened Projection
  import opened Chain
  import opened Verifier
  import opened VerifierLaws

  // ----- Columns no verifier reads -----

  // The same json and the same recorded hash in every row.
  ghost predicate SameRead(a: seq<Row>, b: seq<Row>) {
    |a| == |b| && forall i :: 0 <= i < |a| ==> a[i].json == b[i].json && a[i].recHash == b[i].recHash
  }

  lemma {:induction false} SameReadCheck(c: Suite, a: seq<Row>, b: seq<Row>, prev: Bytes)
    requires SameRead(a, b)
    ensures CheckFrom(c, a, prev) == CheckFrom(c, b, prev)
    decreases |a|
  {
    hide FromProjection, Message, SelfVerifies, Hex;
    if a != [] && Env(a[0]).Some? && Message(Env(a[0]).value).Some? {
      SameReadCheck(c, a[1..], b[1..], c.hash(Message(Env(a[0]).value).value));
    }
  }

  lemma {:induction false} SameReadReport(c: Suite, trust: TrustRoot, a: seq<Row>, b: seq<Row>, i: nat, prev: Bytes)
    requires SameRead(a, b) && i <= |a|
    ensures VerifyFrom(c, trust, a, i, prev) == VerifyFrom(c, trust, b, i, prev)
    decreases |a| - i
  {
    hide CheckRow;
    if i < |a| {
      SameReadRow(c, trust, a[i], b[i], i, prev);
      var r := CheckRow(c, trust, a[i], i, prev);
      if r.Some? { SameReadReport(c, trust, a, b, i + 1, r.value.next); }
    }
  }

  lemma {:induction false} SameReadRow(c: Suite, trust: TrustRoot, a: Row, b: Row, i: nat, prev: Bytes)
    requires a.json == b.json && a.recHash == b.recHash
    ensures CheckRow(c, trust, a, i, prev) == CheckRow(c, trust, b, i, prev)
  {
    hide FromProjection, Message, VerifyReport, Hex, FromHex, ToMap, SigSetMap, Trusted, SetProblems;
  }

  // Whatever is written into the id, prev_hash, status and monitor_id columns, neither verdict changes.
  lemma {:induction false} ColumnsUnseen(c: Suite, trust: TrustRoot, rows: seq<Row>, k: nat, row: Row)
    requires k < |rows| && row.json == rows[k].json && row.recHash == rows[k].recHash
    ensures Check(c, rows[k := row]) == Check(c, rows)
    ensures VerifyStore(c, trust, rows[k := row]) == VerifyStore(c, trust, rows)
  {
    hide VerifyFrom, CheckFrom;
    SameReadCheck(c, rows[k := row], rows, GENESIS_PREV);
    SameReadReport(c, trust, rows[k := row], rows, 0, GENESIS_PREV);
  }

  // ----- Equal envelopes have equal messages -----

  lemma {:induction false} AlikeMaps(a: Dac, b: Dac)
    requires Alike(a, b)
    ensures Encode(ToMap(a)) == Encode(ToMap(b))
  {
    var fs, gs := EnvelopeFields(a), EnvelopeFields(b);
    EnvelopeNames();
    hide Encode, Normal, Names, Only, Fields, Project, Key, EnvelopeFields, Get;
    AlikeFields(a, b);
    hide Alike;
    RecordReads(ENVELOPE_KEYS, fs);
    RecordReads(ENVELOPE_KEYS, gs);
    TextFields(fs);
    TextFields(gs);
    NormalByFields(Fields(ENVELOPE_KEYS, fs), Fields(ENVELOPE_KEYS, gs), ENVELOPE_KEYS);
    EncodeNormal(ToMap(a));
    EncodeNormal(ToMap(b));
  }

  lemma {:induction false} TextFields(fs: seq<Option<Value>>)
    requires |fs| == 13
    ensures TextKeyed(Fields(ENVELOPE_KEYS, fs))
  {
    EnvelopeNames();
    hide Fields, Key;
    FieldsHave(ENVELOPE_KEYS, fs);
  }

  lemma {:induction false} AlikeFields(a: Dac, b: Dac)
    requires Alike(a, b)
    ensures forall i :: 0 <= i < 13 ==> NormalField(EnvelopeFields(a)[i]) == NormalField(EnvelopeFields(b)[i])
  {
    hide Normal, ConfMap, ValMap, ParentValues;
    var fs, gs := EnvelopeFields(a), EnvelopeFields(b);
    assert fs[..12] == gs[..12];
    assert forall i :: 0 <= i < 12 ==> fs[i] == fs[..12][i] && gs[i] == gs[..12][i];
  }

  lemma {:induction false} AlikeMessages(a: Dac, b: Dac)
    requires Alike(a, b)
    ensures Message(a) == Message(b) && a.signatures == b.signatures && a.prev == b.prev
    ensures forall c: Suite :: SelfVerifies(c, a) == SelfVerifies(c, b)
  {
    AlikeMaps(a, b);
    hide Encode, ToMap, SigSetMap, DOMAIN_DAC;
  }

  // ----- One altered row, by the early-exit check -----

  // The hash row k has to carry.
  function Before(c: Suite, rows: seq<Row>, k: nat): Bytes
    requires k < |rows|
  {
    if k == 0 then GENESIS_PREV else RowHash(c, rows[k - 1])
  }

  // The same signed content under the same recorded hash.
  ghost predicate SameRecord(a: Row, b: Row) {
    SameEnvelope(a, b) && a.recHash == b.recHash
  }

  lemma {:induction false} AlteredLinks(c: Suite, rows: seq<Row>, k: nat, row: Row)
    requires Linked(c, rows, GENESIS_PREV) && k < |rows|
    ensures Linked(c, rows[k := row], GENESIS_PREV) <==>
      LinksTo(c, row, Before(c, rows, k)) && SameNext(c, rows, k, row)
  {
    hide LinksTo, RowHash, Linked, Before, SameNext;
    if Linked(c, rows[k := row], GENESIS_PREV) { NewLinks(c, rows, k, row, rows[k := row], Before(c, rows, k)); }
    if LinksTo(c, row, Before(c, rows, k)) && SameNext(c, rows, k, row) {
      NewLinked(c, rows, k, row);
    }
  }

  // The altered row hands its successor, if there is one, the same hash.
  predicate SameNext(c: Suite, rows: seq<Row>, k: nat, row: Row) {
    k + 1 < |rows| ==> RowHash(c, row) == RowHash(c, rows[k])
  }

  lemma {:induction false} NewLinks(c: Suite, rows: seq<Row>, k: nat, row: Row, more: seq<Row>, before: Bytes)
    requires k < |rows| && more == rows[k := row] && before == Before(c, rows, k)
    requires Linked(c, rows, GENESIS_PREV) && Linked(c, more, GENESIS_PREV)
    ensures LinksTo(c, row, before) && SameNext(c, rows, k, row)
  {
    hide LinksTo, RowHash, Linked;
    LinkedAt(c, more, k);
    if k + 1 < |rows| {
      LinkedAt(c, more, k + 1);
      LinkedAt(c, rows, k + 1);
      OnePredecessor(c, rows[k + 1], RowHash(c, row), RowHash(c, rows[k]));
    }
  }

  lemma {:induction false} NewLinked(c: Suite, rows: seq<Row>, k: nat, row: Row)
    requires k < |rows| && LinksTo(c, row, Before(c, rows, k))
    requires SameNext(c, rows, k, row)
    requires Linked(c, rows, GENESIS_PREV)
    ensures Linked(c, rows[k := row], GENESIS_PREV)
  {
    var more := rows[k := row];
    hide LinksTo, RowHash, RowLinked, Before;
    forall i | 0 <= i < |more| ensures RowLinked(c, more, GENESIS_PREV, i) {
      assert RowLinked(c, rows, GENESIS_PREV, i);
      NewLinkedAt(c, rows, k, row, i);
    }
  }

  lemma {:induction false} NewLinkedAt(c: Suite, rows: seq<Row>, k: nat, row: Row, i: nat)
    requires k < |rows| && i < |rows| && LinksTo(c, row, Before(c, rows, k))
    requires i == k + 1 ==> RowHash(c, row) == RowHash(c, rows[k])
    requires RowLinked(c, rows, GENESIS_PREV, i)
    ensures RowLinked(c, rows[k := row], GENESIS_PREV, i)
  {
    hide LinksTo, RowHash;
  }

  lemma {:induction false} OnePredecessor(c: Suite, row: Row, a: Bytes, b: Bytes)
    requires LinksTo(c, row, a) && LinksTo(c, row, b)
    ensures a == b
  {
    hide RowSound, Env;
  }

  lemma {:induction false} SameRecordLinks(c: Suite, a: Row, b: Row, prev: Bytes)
    requires SameRecord(a, b) && LinksTo(c, b, prev)
    ensures LinksTo(c, a, prev) && RowHash(c, a) == RowHash(c, b)
  {
    hide FromProjection, Message, SelfVerifies, Hex, Alike;
    AlikeMessages(Env(a).value, Env(b).value);
  }

  lemma {:induction false} SameHashRecord(c: Suite, rows: seq<Row>, k: nat, row: Row)
    requires k < |rows| && RowSound(c, rows[k]) && RowSound(c, row) && RowHash(c, row) == RowHash(c, rows[k])
    requires CollisionFree(c, Messages([row]) + Messages(rows))
    ensures SameRecord(row, rows[k])
  {
    var ms := Messages([row]) + Messages(rows);
    hide RowSound, RowHash, SameEnvelope, CollisionFree, Env, Message, Messages;
    assert [row][0] == row;
    InMessages(c, [row], 0, ms);
    InMessages(c, rows, k, ms);
    SameHashAlike(c, row, rows[k], ms);
    RecHash(c, row);
    RecHash(c, rows[k]);
  }

  // In an accepted store, one altered row goes unnoticed by the early-exit check exactly when it still holds
  // the same signed content under the same recorded hash, or it is the last one and a sound row in its own
  // right that links to its predecessor: the head of the chain is not anchored anywhere else.
  lemma {:induction false} AlteredRow(c: Suite, rows: seq<Row>, k: nat, row: Row)
    requires k < |rows| && Check(c, rows) == Accepted && CollisionFree(c, Messages([row]) + Messages(rows))
    ensures Check(c, rows[k := row]) == Accepted <==>
      if k + 1 < |rows| then SameRecord(row, rows[k]) else LinksTo(c, row, Before(c, rows, k))
  {
    hide CheckFrom, Linked, LinksTo, RowHash, SameRecord, CollisionFree, Messages;
    CheckIffLinked(c, rows, GENESIS_PREV);
    CheckIffLinked(c, rows[k := row], GENESIS_PREV);
    AlteredLinks(c, rows, k, row);
    LinkedAt(c, rows, k);
    if SameRecord(row, rows[k]) { SameRecordLinks(c, row, rows[k], Before(c, rows, k)); }
    if LinksTo(c, row, Before(c, rows, k)) && RowHash(c, row) == RowHash(c, rows[k]) {
      LinkedSounds(c, row, rows[k], Before(c, rows, k));
      SameHashRecord(c, rows, k, row);
    }
  }

  lemma {:induction false} LinkedAt(c: Suite, rows: seq<Row>, k: nat)
    requires Linked(c, rows, GENESIS_PREV) && k < |rows|
    ensures LinksTo(c, rows[k], Before(c, rows, k))
  {
    hide LinksTo, RowHash;
    assert RowLinked(c, rows, GENESIS_PREV, k);
  }

  lemma {:induction false} LinkedSounds(c: Suite, a: Row, b: Row, prev: Bytes)
    requires LinksTo(c, a, prev) && LinksTo(c, b, prev)
    ensures RowSound(c, a) && RowSound(c, b)
  {
    hide RowSound, Env;
  }

  // Nor is the length: leaving out rows at the end of an accepted store leaves an accepted store.
  lemma {:induction false} Truncated(c: Suite, rows: seq<Row>, n: nat)
    requires n <= |rows| && Check(c, rows) == Accepted
    ensures Check(c, rows[..n]) == Accepted
  {
    hide CheckFrom, LinksTo, RowHash;
    CheckIffLinked(c, rows, GENESIS_PREV);
    CheckIffLinked(c, rows[..n], GENESIS_PREV);
    forall i | 0 <= i < n ensures RowLinked(c, rows[..n], GENESIS_PREV, i) {
      assert RowLinked(c, rows, GENESIS_PREV, i);
    }
  }

  // ----- One altered row, by the collecting verifier -----

  ghost function Indexes(ds: seq<Defect>): set<nat> {
    set k | 0 <= k < |ds| :: ds[k].index
  }

  lemma {:induction false} IndexesSplit(i: nat, kinds: seq<DefectKind>, ds: seq<Defect>)
    ensures Indexes(At(i, kinds) + ds) == (if kinds == [] then {} else {i}) + Indexes(ds)
  {
    var all := At(i, kinds) + ds;
    forall x ensures x in Indexes(all) <==> (kinds != [] && x == i) || x in Indexes(ds) {
      if kinds != [] && x == i { assert all[0].index == i; }
      if x in Indexes(ds) {
        var k :| 0 <= k < |ds| && ds[k].index == x;
        assert all[|kinds| + k] == ds[k];
      }
      if x in Indexes(all) {
        var k :| 0 <= k < |all| && all[k].index == x;
        if k >= |kinds| { assert ds[k - |kinds|] == all[k]; }
      }
    }
  }

  lemma {:induction false} NoIndexes()
    ensures Indexes([]) == {}
  {}

  // The rows with defects, among rows i..
  ghost function Where(c: Suite, trust: TrustRoot, rows: seq<Row>, i: nat, prev: Bytes): Option<set<nat>>
    requires i <= |rows|
  {
    match VerifyFrom(c, trust, rows, i, prev)
    case None => None
    case Some(r) => Some(Indexes(r.1))
  }

  function Including(i: nat, kinds: seq<DefectKind>, rest: Option<set<nat>>): Option<set<nat>> {
    match rest
    case None => None
    case Some(ks) => Some(if kinds == [] then ks else {i} + ks)
  }

  lemma {:induction false} WhereStep(c: Suite, trust: TrustRoot, rows: seq<Row>, i: nat, prev: Bytes, x: RowResult)
    requires i < |rows| && CheckRow(c, trust, rows[i], i, prev) == Some(x)
    ensures Where(c, trust, rows, i, prev) == Including(i, x.kinds, Where(c, trust, rows, i + 1, x.next))
  {
    hide CheckRow, Indexes;
    var rest := VerifyFrom(c, trust, rows, i + 1, x.next);
    if rest.Some? {
      IndexesSplit(i, x.kinds, rest.value.1);
      assert {} + Indexes(rest.value.1) == Indexes(rest.value.1);
    }
  }

  lemma {:induction false} WhereClean(c: Suite, trust: TrustRoot, rows: seq<Row>, i: nat, prev: Bytes)
    requires i <= |rows| && CleanFrom(c, trust, rows, i, prev)
    ensures Where(c, trust, rows, i, prev) == Some({})
  {
    hide VerifyFrom, Indexes;
    NoIndexes();
  }

  lemma {:induction false} WhereEnd(c: Suite, trust: TrustRoot, rows: seq<Row>, prev: Bytes)
    ensures Where(c, trust, rows, |rows|, prev) == Some({})
  {
    hide CheckRow, Indexes;
    NoIndexes();
  }

  // A change to an earlier row does not reach row i, given the same expected hash.
  lemma {:induction false} SuffixSame(c: Suite, trust: TrustRoot, rows: seq<Row>, k: nat, row: Row, i: nat, prev: Bytes)
    requires k < i <= |rows|
    ensures Where(c, trust, rows[k := row], i, prev) == Where(c, trust, rows, i, prev)
    decreases |rows| - i
  {
    hide CheckRow, Indexes;
    if i < |rows| {
      var r := CheckRow(c, trust, rows[i], i, prev);
      if r.Some? {
        SuffixSame(c, trust, rows, k, row, i + 1, r.value.next);
        hide Where, VerifyFrom;
        WhereStep(c, trust, rows, i, prev, r.value);
        WhereStep(c, trust, rows[k := row], i, prev, r.value);
      }
    }
  }

  // The hash expected of the row after this one; an unreadable row passes on the one recorded for it.
  function NextHash(c: Suite, row: Row, prev: Bytes): Bytes {
    if Env(row).Some? then HashOf(c, row) else AfterBad(row, prev).GetOr([])
  }

  lemma {:induction false} CheckedRow(c: Suite, trust: TrustRoot, row: Row, i: nat, prev: Bytes)
    requires !RowRaises(row)
    ensures CheckRow(c, trust, row, i, prev).Some?
    ensures var r := CheckRow(c, trust, row, i, prev).value;
      (r.kinds == [] <==> CleanRow(c, trust, row, prev)) && r.next == NextHash(c, row, prev)
  {
    CheckRowRaises(c, trust, row, i, prev);
    CleanIff(c, trust, row, i, prev);
    hide FromProjection, VerifyReport, Hex, FromHex, RowKinds, ToMap, SigSetMap, Trusted, CleanRow;
  }

  // The hash a clean store expects row k to carry.
  function Expected(c: Suite, rows: seq<Row>, i: nat, prev: Bytes, k: nat): Bytes
    requires i <= k < |rows|
  {
    if k == i then prev else HashOf(c, rows[k - 1])
  }

  // Which of n rows have defects once row k of a clean store is altered: row k unless it is clean where it
  // stands, and its successor when it is handed another hash than before.
  function Damaged(n: nat, k: nat, clean: bool, sameNext: bool): set<nat> {
    (if clean then {} else {k}) + (if k + 1 < n && !sameNext then {k + 1} else {})
  }

  function DamagedBy(c: Suite, trust: TrustRoot, rows: seq<Row>, k: nat, row: Row, prev: Bytes): set<nat>
    requires k < |rows|
  {
    Damaged(|rows|, k, CleanRow(c, trust, row, prev), NextHash(c, row, prev) == HashOf(c, rows[k]))
  }

  lemma {:induction false} AlteredFrom(c: Suite, trust: TrustRoot, rows: seq<Row>, k: nat, row: Row, i: nat,
      prev: Bytes)
    requires i <= k < |rows| && CleanFrom(c, trust, rows, i, prev) && !RowRaises(row)
    ensures Where(c, trust, rows[k := row], i, prev)
      == Some(DamagedBy(c, trust, rows, k, row, Expected(c, rows, i, prev, k)))
    decreases k - i
  {
    hide CheckRow, CleanRow, RowRaises, HashOf, Where, CleanFrom, DamagedBy;
    CleanFromStep(c, trust, rows, i, prev);
    if i < k {
      CleanRowNext(c, trust, rows[i], i, prev);
      AlteredFrom(c, trust, rows, k, row, i + 1, HashOf(c, rows[i]));
      WhereStep(c, trust, rows[k := row], i, prev, CheckRow(c, trust, rows[i], i, prev).value);
    } else {
      AlteredAt(c, trust, rows, k, row, prev);
    }
  }

  lemma {:induction false} AlteredAt(c: Suite, trust: TrustRoot, rows: seq<Row>, k: nat, row: Row, prev: Bytes)
    requires k < |rows| && !RowRaises(row)
    requires CleanFrom(c, trust, rows, k + 1, HashOf(c, rows[k]))
    ensures Where(c, trust, rows[k := row], k, prev) == Some(DamagedBy(c, trust, rows, k, row, prev))
  {
    hide RowRaises, HashOf, NextHash, CheckRow, CleanRow, Where, CleanFrom;
    var h, next := HashOf(c, rows[k]), NextHash(c, row, prev);
    CheckedRow(c, trust, row, k, prev);
    SuffixSame(c, trust, rows, k, row, k + 1, next);
    WhereStep(c, trust, rows[k := row], k, prev, CheckRow(c, trust, row, k, prev).value);
    var none: set<nat> := {};
    assert {k} + none == {k} && none + none == none && none + {k + 1} == {k + 1} && {k + 1} + none == {k + 1};
    if k + 1 == |rows| {
      WhereEnd(c, trust, rows, next);
    } else if next == h {
      WhereClean(c, trust, rows, k + 1, h);
    } else {
      CleanFromStep(c, trust, rows, k + 1, h);
      UnlinkedRow(c, trust, rows[k + 1], k + 1, h, next);
      WhereStep(c, trust, rows, k + 1, next, CheckRow(c, trust, rows[k + 1], k + 1, next).value);
      WhereClean(c, trust, rows, k + 2, HashOf(c, rows[k + 1]));
    }
  }

  lemma {:induction false} CleanRowNext(c: Suite, trust: TrustRoot, row: Row, i: nat, prev: Bytes)
    requires CleanRow(c, trust, row, prev)
    ensures CheckRow(c, trust, row, i, prev).Some?
    ensures var r := CheckRow(c, trust, row, i, prev).value; r.kinds == [] && r.next == HashOf(c, row)
  {
    hide Env, Message, HashOf, CheckRow, CleanRow;
    CleanIff(c, trust, row, i, prev);
  }

  // A clean row checked against another predecessor hash has a defect, and nothing else changes.
  lemma {:induction false} UnlinkedRow(c: Suite, trust: TrustRoot, row: Row, i: nat, prev: Bytes, other: Bytes)
    requires CleanRow(c, trust, row, prev) && prev != other
    ensures CheckRow(c, trust, row, i, other).Some? && CheckRow(c, trust, row, i, other).value.kinds != []
    ensures CheckRow(c, trust, row, i, other).value.next == HashOf(c, row)
  {
    CleanIff(c, trust, row, i, other);
    hide FromProjection, VerifyReport, Hex, FromHex, RowKinds, ToMap, SigSetMap, Trusted;
  }

  // The rows with defects, if there is a report.
  ghost function DefectRows(c: Suite, trust: TrustRoot, rows: seq<Row>): Option<set<nat>> {
    match VerifyStore(c, trust, rows)
    case None => None
    case Some(r) => Some(Indexes(r.defects))
  }

  lemma {:induction false} DefectRowsFrom(c: Suite, trust: TrustRoot, rows: seq<Row>)
    ensures DefectRows(c, trust, rows) == Where(c, trust, rows, 0, GENESIS_PREV)
  {
    hide VerifyFrom, Indexes;
  }

  // In a clean store, whatever one row is altered to, the defects stay at that row and its successor, and this
  // is exactly where they are; an exception escapes exactly when it escapes on the altered row.
  lemma {:induction false} AlteredDefects(c: Suite, trust: TrustRoot, rows: seq<Row>, k: nat, row: Row)
    requires k < |rows|
    requires ReportOk(c, trust, rows)
    ensures DefectRows(c, trust, rows[k := row])
         == if RowRaises(row) then None
            else Some(DamagedBy(c, trust, rows, k, row, Expected(c, rows, 0, GENESIS_PREV, k)))
  {
    var more := rows[k := row];
    hide VerifyStore, RowRaises, Indexes, DamagedBy, Expected, Where, CleanFrom;
    OkIsClean(c, trust, rows);
    if RowRaises(row) {
      assert more[k] == row;
      NoReportIff(c, trust, more);
    } else {
      AlteredFrom(c, trust, rows, k, row, 0, GENESIS_PREV);
      DefectRowsFrom(c, trust, more);
    }
  }

  lemma {:induction false} OkIsClean(c: Suite, trust: TrustRoot, rows: seq<Row>)
    ensures ReportOk(c, trust, rows) <==> CleanFrom(c, trust, rows, 0, GENESIS_PREV)
  {
    hide VerifyFrom;
  }

  lemma {:induction false} DefectsOrNone(c: Suite, trust: TrustRoot, rows: seq<Row>)
    ensures ReportOk(c, trust, rows) <==> DefectRows(c, trust, rows) == Some({})
  {
    hide VerifyFrom;
    NoIndexes();
    if VerifyStore(c, trust, rows).Some? {
      var ds := VerifyStore(c, trust, rows).value.defects;
      if ds != [] { assert ds[0].index in Indexes(ds); }
    }
  }

  lemma {:induction false} CleanNext(c: Suite, trust: TrustRoot, row: Row, prev: Bytes)
    requires CleanRow(c, trust, row, prev)
    ensures !RowRaises(row) && NextHash(c, row, prev) == HashOf(c, row) && MessageOf(row).Some?
    ensures row.recHash == Hex(HashOf(c, row)) && Env(row).Some? && Env(row).value.prev == prev
  {
    hide FromProjection, VerifyReport, Hex, ToMap, SigSetMap, Trusted;
  }

  lemma {:induction false} SameRecordClean(c: Suite, trust: TrustRoot, a: Row, b: Row, prev: Bytes)
    requires SameRecord(a, b) && CleanRow(c, trust, b, prev)
    ensures CleanRow(c, trust, a, prev) && HashOf(c, a) == HashOf(c, b)
  {
    hide FromProjection, Message, VerifyReport, Hex, Alike, ToMap;
    AlikeMessages(Env(a).value, Env(b).value);
    AlikeSigned(trust, Env(a).value, Env(b).value);
  }

  lemma {:induction false} AlikeSigned(trust: TrustRoot, a: Dac, b: Dac)
    requires Alike(a, b)
    ensures SigningBytes(ToMap(a)) == SigningBytes(ToMap(b)) && Trusted(trust, a) == Trusted(trust, b)
  {
    AlikeMaps(a, b);
    hide Encode, ToMap, DOMAIN_DAC, Normal;
  }

  // In a clean store, one altered row goes unnoticed by the collecting verifier exactly when it still holds the
  // same signed content under the same recorded hash, or it is the last one and clean where it stands.
  lemma {:induction false} AlteredReport(c: Suite, trust: TrustRoot, rows: seq<Row>, k: nat, row: Row)
    requires k < |rows| && ReportOk(c, trust, rows) && CollisionFree(c, Messages([row]) + Messages(rows))
    ensures ReportOk(c, trust, rows[k := row]) <==>
      if k + 1 < |rows| then SameRecord(row, rows[k])
      else CleanRow(c, trust, row, Expected(c, rows, 0, GENESIS_PREV, k))
  {
    var prev := Expected(c, rows, 0, GENESIS_PREV, k);
    hide ReportOk, DefectRows, CleanRow, HashOf, NextHash, RowRaises, SameRecord, CollisionFree, Messages, Env,
      MessageOf, DamagedBy;
    CleanAtStart(c, trust, rows, k);
    AlteredDefects(c, trust, rows, k, row);
    DefectsOrNone(c, trust, rows[k := row]);
    CleanNext(c, trust, rows[k], prev);
    if CleanRow(c, trust, row, prev) {
      CleanNext(c, trust, row, prev);
      if HashOf(c, row) == HashOf(c, rows[k]) { SameHashSame(c, rows, k, row); }
    }
    if SameRecord(row, rows[k]) {
      SameRecordClean(c, trust, row, rows[k], prev);
      CleanNext(c, trust, row, prev);
    }
    EmptyDamage(c, trust, rows, k, row, prev);
  }

  lemma {:induction false} EmptyDamage(c: Suite, trust: TrustRoot, rows: seq<Row>, k: nat, row: Row, prev: Bytes)
    requires k < |rows|
    ensures DamagedBy(c, trust, rows, k, row, prev) == {} <==>
      CleanRow(c, trust, row, prev) && (k + 1 == |rows| || NextHash(c, row, prev) == HashOf(c, rows[k]))
  {
    hide CleanRow, NextHash, HashOf;
    assert !CleanRow(c, trust, row, prev) ==> k in DamagedBy(c, trust, rows, k, row, prev);
    assert k + 1 < |rows| && NextHash(c, row, prev) != HashOf(c, rows[k]) ==>
      k + 1 in DamagedBy(c, trust, rows, k, row, prev);
  }

  lemma {:induction false} SameHashSame(c: Suite, rows: seq<Row>, k: nat, row: Row)
    requires k < |rows| && MessageOf(row).Some? && MessageOf(rows[k]).Some? && HashOf(c, row) == HashOf(c, rows[k])
    requires row.recHash == Hex(HashOf(c, row)) && rows[k].recHash == Hex(HashOf(c, rows[k]))
    requires CollisionFree(c, Messages([row]) + Messages(rows))
    ensures SameRecord(row, rows[k])
  {
    hide MessageOf, HashOf, Hex, SameEnvelope, CollisionFree, Messages;
    if !SameEnvelope(row, rows[k]) { DifferentHash(c, rows, k, row); }
  }

  // The row expected hash and all, at any place of a clean store.
  lemma {:induction false} CleanAt(c: Suite, trust: TrustRoot, rows: seq<Row>, i: nat, prev: Bytes, k: nat)
    requires i <= k < |rows| && CleanFrom(c, trust, rows, i, prev)
    ensures CleanRow(c, trust, rows[k], Expected(c, rows, i, prev, k))
    decreases k - i
  {
    hide CleanFrom, CleanRow, HashOf;
    CleanFromStep(c, trust, rows, i, prev);
    if i < k { CleanAt(c, trust, rows, i + 1, HashOf(c, rows[i]), k); }
  }

  lemma {:induction false} DifferentHash(c: Suite, rows: seq<Row>, k: nat, row: Row)
    requires k < |rows| && MessageOf(row).Some? && MessageOf(rows[k]).Some? && !SameEnvelope(row, rows[k])
    requires CollisionFree(c, Messages([row]) + Messages(rows))
    ensures HashOf(c, row) != HashOf(c, rows[k])
  {
    var m, n := MessageOf(row).value, MessageOf(rows[k]).value;
    hide Env, Message, MessageOf, HashOf, Alike, ValidSigSet, SchemaValid, Ordered;
    assert [row][0] == row;
    assert m in Messages([row]) && n in Messages(rows);
    if m == n {
      EnvValid(row);
      EnvValid(rows[k]);
      MessageSigned(Env(row).value);
      MessageSigned(Env(rows[k]).value);
      EqualMessagesAlike(Env(row).value, Env(rows[k]).value);
    }
  }

  // ----- Rewriting the json alone -----

  // What the row becomes: unreadable, or a signed envelope other than the one it held.
  ghost predicate Rewritten(c: Suite, rows: seq<Row>, k: nat, row: Row)
    requires k < |rows|
  {
    || Env(row).None?
    || (MessageOf(row).Some? && !SameEnvelope(row, rows[k]) && CollisionFree(c, Messages([row]) + Messages(rows)))
  }

  lemma {:induction false} RewrittenRow(c: Suite, trust: TrustRoot, rows: seq<Row>, k: nat, row: Row, prev: Bytes)
    requires Sound(c) && k < |rows| && CleanRow(c, trust, rows[k], prev)
    requires row == rows[k].(json := row.json) && Rewritten(c, rows, k, row)
    ensures !RowRaises(row) && !CleanRow(c, trust, row, prev)
    ensures NextHash(c, row, prev) == HashOf(c, rows[k]) <==> Env(row).None?
  {
    var h := HashOf(c, rows[k]);
    hide CleanRow, Hex, FromHex, HashOf, SameEnvelope, CollisionFree, Messages, Env, Message;
    CleanNext(c, trust, rows[k], prev);
    HashLength(c, rows[k]);
    HexReads(h);
    HexNonEmpty(h);
    RewrittenNext(c, row, prev, h);
    if Env(row).Some? { DifferentHash(c, rows, k, row); }
    if CleanRow(c, trust, row, prev) {
      CleanNext(c, trust, row, prev);
      HexInjective(HashOf(c, row), h);
    }
  }

  lemma {:induction false} HashLength(c: Suite, row: Row)
    requires Sound(c) && MessageOf(row).Some?
    ensures |HashOf(c, row)| == 32
  {
    hide MessageOf;
  }

  lemma {:induction false} RewrittenNext(c: Suite, row: Row, prev: Bytes, h: Bytes)
    requires row.recHash != [] && FromHex(row.recHash) == Some(h) && (Env(row).Some? ==> MessageOf(row).Some?)
    ensures !RowRaises(row) && NextHash(c, row, prev) == (if Env(row).Some? then HashOf(c, row) else h)
  {
    hide FromProjection, FromHex, HashOf, Message;
  }

  // In a store that verifies clean, replacing the json of row k by content that does not parse, or that
  // is a signed envelope different from the original, yields defects at exactly row k, or at exactly
  // rows k and k + 1, and never further.
  lemma {:induction false} DefectsAreLocal(c: Suite, trust: TrustRoot, rows: seq<Row>, k: nat, row: Row)
    requires k < |rows| && row == rows[k].(json := row.json) && Rewritten(c, rows, k, row)
    requires Sound(c)
    requires ReportOk(c, trust, rows)
    ensures DefectRows(c, trust, rows[k := row])
         == Some(if Env(row).None? || k + 1 == |rows| then {k} else {k, k + 1})
  {
    hide VerifyStore, ReportOk, DefectRows, Rewritten, Sound, CleanRow, NextHash, HashOf, RowRaises, Env, DamagedBy,
      Expected;
    var prev := Expected(c, rows, 0, GENESIS_PREV, k);
    CleanAtStart(c, trust, rows, k);
    AlteredDefects(c, trust, rows, k, row);
    RewrittenRow(c, trust, rows, k, row, prev);
    LocalDamage(c, trust, rows, k, row, prev);
  }

  lemma {:induction false} LocalDamage(c: Suite, trust: TrustRoot, rows: seq<Row>, k: nat, row: Row, prev: Bytes)
    requires k < |rows| && !CleanRow(c, trust, row, prev)
    requires NextHash(c, row, prev) == HashOf(c, rows[k]) <==> Env(row).None?
    ensures DamagedBy(c, trust, rows, k, row, prev) == if Env(row).None? || k + 1 == |rows| then {k} else {k, k + 1}
  {
    hide CleanRow, NextHash, HashOf, Env;
    assert {k} + {k + 1} == {k, k + 1} && {k} + {} == {k};
  }

  lemma {:induction false} CleanAtStart(c: Suite, trust: TrustRoot, rows: seq<Row>, k: nat)
    requires k < |rows| && ReportOk(c, trust, rows)
    ensures CleanRow(c, trust, rows[k], Expected(c, rows, 0, GENESIS_PREV, k))
  {
    hide VerifyFrom, CleanRow, HashOf;
    CleanAt(c, trust, rows, 0, GENESIS_PREV, k);
  }
}
