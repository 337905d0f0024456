/** The collect-everything verifier: every defect of every row, recovering after a bad one. */
module Verifier {
  import opened Base
  import opened Cbor
  import opened Crypto
  import opened Attest
  import opened Threshold
  import opened Envelope
  import opened Projection
  import opened Chain

  datatype DefectKind =
    | InvalidEnvelope
    | PrevMismatch
    | RecordHashMismatch
    | SignatureInvalid
    | SetProblem(problem: Problem)
    | KeyNotTrusted

  datatype Defect = Defect(index: nat, kind: DefectKind)

  datatype Item =
    | Unreadable(index: nat)
    | Checked(index: nat, id: Bytes, kind: Text, producer: Text, signatureValid: bool, attestors: nat,
              trusted: Option<bool>, ok: bool)

  datatype StoreReport = StoreReport(entries: seq<Item>, defects: seq<Defect>, ok: bool)

  // Whether the trust root, when there is one, vouches for a producer's key.
  type TrustRoot = Option<(Text, Bytes) -> bool>

  // What one row contributes, given the expected predecessor hash; None where an exception escapes.
  datatype RowResult = RowResult(item: Item, kinds: seq<DefectKind>, next: Bytes)

  function Given(b: bool, k: DefectKind): seq<DefectKind> {
    if b then [k] else []
  }

  // Set problems other than the author's signature, which is reported under its own name.
  function SetProblems(ps: seq<Problem>): seq<DefectKind> {
    if ps == [] then []
    else (if ps[0] == AuthorSignatureInvalid then [] else [SetProblem(ps[0])]) + SetProblems(ps[1..])
  }

  function Trusted(trust: TrustRoot, e: Dac): Option<bool> {
    if trust.None? then None else Some(trust.value(e.producerId, e.producerPk))
  }

  // After an unreadable row the recorded hash is taken on faith; an empty one keeps the old value.
  function AfterBad(row: Row, prev: Bytes): Option<Bytes> {
    if row.recHash == [] then Some(prev) else FromHex(row.recHash)
  }

  function RowKinds(c: Suite, trust: TrustRoot, row: Row, e: Dac, m: Bytes, prev: Bytes, r: Report): seq<DefectKind> {
    Given(e.prev != prev, PrevMismatch)
    + Given(Hex(c.hash(m)) != row.recHash, RecordHashMismatch)
    + Given(!r.authorOk, SignatureInvalid)
    + SetProblems(r.problems)
    + Given(Trusted(trust, e) == Some(false), KeyNotTrusted)
  }

  function CheckRow(c: Suite, trust: TrustRoot, row: Row, i: nat, prev: Bytes): Option<RowResult> {
    match Env(row)
    case None =>
      (match AfterBad(row, prev)
       case None => None
       case Some(next) => Some(RowResult(Unreadable(i), [InvalidEnvelope], next)))
    case Some(e) =>
      if Message(e).None? then None
      else
        var m := Message(e).value;
        var r := VerifyReport(c, e.signatures.value, SigningBytes(ToMap(e)).value, None);
        var kinds := RowKinds(c, trust, row, e, m, prev, r);
        Some(RowResult(
          Checked(i, e.claimId, e.kind, e.producerId, r.authorOk, |r.valid|, Trusted(trust, e), kinds == []),
          kinds, c.hash(m)))
  }

  function At(i: nat, kinds: seq<DefectKind>): (r: seq<Defect>)
    ensures |r| == |kinds|
  {
    seq(|kinds|, k requires 0 <= k < |kinds| => Defect(i, kinds[k]))
  }

  // Rows i.. checked from the expected hash prev: their items and defects, in order.
  function VerifyFrom(c: Suite, trust: TrustRoot, rows: seq<Row>, i: nat, prev: Bytes): Option<(seq<Item>, seq<Defect>)>
    requires i <= |rows|
    decreases |rows| - i
  {
    if i == |rows| then Some(([], []))
    else
      match CheckRow(c, trust, rows[i], i, prev)
      case None => None
      case Some(r) =>
        match VerifyFrom(c, trust, rows, i + 1, r.next)
        case None => None
        case Some(rest) => Some(([r.item] + rest.0, At(i, r.kinds) + rest.1))
  }

  function VerifyStore(c: Suite, trust: TrustRoot, rows: seq<Row>): Option<StoreReport> {
    match VerifyFrom(c, trust, rows, 0, GENESIS_PREV)
    case None => None
    case Some(r) => Some(StoreReport(r.0, r.1, r.1 == []))
  }

  // ----- The loop -----

  function Join(items: seq<Item>, defects: seq<Defect>, r: Option<(seq<Item>, seq<Defect>)>): Option<(seq<Item>,
      seq<Defect>)> {
    match r
    case None => None
    case Some(p) => Some((items + p.0, defects + p.1))
  }

  // None when an exception escapes: an unsigned or unencodable envelope, or a recorded hash that is not hex.
  method VerifyDacStore(c: Suite, trust: TrustRoot, rows: seq<Row>) returns (r: Option<StoreReport>)
    ensures r == VerifyStore(c, trust, rows)
  {
    hide CheckRow;
    var entries: seq<Item>, defects: seq<Defect> := [], [];
    var prev := GENESIS_PREV;
    JoinNothing(VerifyFrom(c, trust, rows, 0, prev));
    for i := 0 to |rows|
      invariant VerifyFrom(c, trust, rows, 0, GENESIS_PREV)
        == Join(entries, defects, VerifyFrom(c, trust, rows, i, prev))
    {
      var row := VerifyRow(c, trust, rows[i], i, prev);
      if row.None? { return None; }
      JoinMore(entries, defects, row.value.item, At(i, row.value.kinds),
        VerifyFrom(c, trust, rows, i + 1, row.value.next));
      entries := entries + [row.value.item];
      defects := defects + At(i, row.value.kinds);
      prev := row.value.next;
    }
    assert entries + [] == entries && defects + [] == defects;
    return Some(StoreReport(entries, defects, defects == []));
  }

  method VerifyRow(c: Suite, trust: TrustRoot, row: Row, i: nat, prev: Bytes) returns (r: Option<RowResult>)
    ensures r == CheckRow(c, trust, row, i, prev)
  {
    hide FromProjection, VerifyReport, Hex, FromHex, Encode, RowKinds, ToMap, SigSetMap;
    var env := Env(row);
    if env.None? {
      var next := AfterBad(row, prev);
      return if next.None? then None else Some(RowResult(Unreadable(i), [InvalidEnvelope], next.value));
    }
    var e := env.value;
    var m := Message(e);
    if m.None? { return None; }
    var report := Verify(c, e.signatures.value, SigningBytes(ToMap(e)).value, None);
    var kinds := CollectKinds(c, trust, row, e, m.value, prev, report);
    return Some(RowResult(
      Checked(i, e.claimId, e.kind, e.producerId, report.authorOk, |report.valid|, Trusted(trust, e), kinds == []),
      kinds, c.hash(m.value)));
  }

  method CollectKinds(c: Suite, trust: TrustRoot, row: Row, e: Dac, m: Bytes, prev: Bytes,
      r: Report) returns (kinds: seq<DefectKind>)
    ensures kinds == RowKinds(c, trust, row, e, m, prev, r)
  {
    hide Hex, Trusted, SetProblems;
    kinds := [];
    if e.prev != prev { kinds := kinds + [PrevMismatch]; }
    if Hex(c.hash(m)) != row.recHash { kinds := kinds + [RecordHashMismatch]; }
    if !r.authorOk { kinds := kinds + [SignatureInvalid]; }
    assert kinds == Given(e.prev != prev, PrevMismatch) + Given(Hex(c.hash(m)) != row.recHash, RecordHashMismatch)
      + Given(!r.authorOk, SignatureInvalid);
    kinds := AddSetProblems(kinds, r.problems);
    if Trusted(trust, e) == Some(false) { kinds := kinds + [KeyNotTrusted]; }
  }

  method AddSetProblems(kinds: seq<DefectKind>, problems: seq<Problem>) returns (r: seq<DefectKind>)
    ensures r == kinds + SetProblems(problems)
  {
    r := kinds;
    for j := 0 to |problems|
      invariant r == kinds + SetProblems(problems[..j])
    {
      SetProblemsSnoc(problems[..j], problems[j]);
      assert problems[..j + 1] == problems[..j] + [problems[j]];
      if problems[j] != AuthorSignatureInvalid { r := r + [SetProblem(problems[j])]; }
    }
    assert problems[..|problems|] == problems;
  }

  lemma {:induction false} SetProblemsSnoc(ps: seq<Problem>, p: Problem)
    ensures SetProblems(ps + [p]) == SetProblems(ps) + (if p == AuthorSignatureInvalid then [] else [SetProblem(p)])
  {
    if ps == [] {
      assert [] + [p] == [p];
      assert SetProblems([p][1..]) == [];
    } else {
      assert (ps + [p])[1..] == ps[1..] + [p];
      SetProblemsSnoc(ps[1..], p);
    }
  }

  lemma {:induction false} JoinNothing(r: Option<(seq<Item>, seq<Defect>)>)
    ensures Join([], [], r) == r
  {
    if r.Some? { assert [] + r.value.0 == r.value.0 && [] + r.value.1 == r.value.1; }
  }

  lemma {:induction false} JoinMore(items: seq<Item>, defects: seq<Defect>, x: Item, ds: seq<Defect>,
      r: Option<(seq<Item>, seq<Defect>)>)
    ensures Join(items, defects, Join([x], ds, r)) == Join(items + [x], defects + ds, r)
  {
    if r.Some? {
      assert items + ([x] + r.value.0) == items + [x] + r.value.0;
      assert defects + (ds + r.value.1) == defects + ds + r.value.1;
    }
  }
}
