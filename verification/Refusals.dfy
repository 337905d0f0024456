/** Exactly when a request is refused. */
module Refusals {
  import opened Base
  import opened Cbor
  import opened Schema
  import opened Encodable
  import opened Crypto
  import opened Attest
  import opened Threshold
  import opened Envelope
  import opened Wire
  import opened Propagation
  import opened Projection
  import opened Chain
  import opened Claims
  import opened Graph
  import opened Store
  import opened Issuing
  import RunLaws

  // ----- The request -----

  lemma {:induction false} SealedIff(c: Suite, m: Claim, e: Dac, secret: Bytes)
    requires Sound(c) && ToV1(m) == Some(e)
    ensures Sealed(c, m, secret).Some? <==> Encode(ToMap(e)).Some?
  {
    hide Encode, ToMap, ToV1, SigSetMap, Hex, ValidSigSet, Sound, DOMAIN_DAC;
    if Encode(ToMap(e)).Some? {
      var s := AuthorOnly(c, secret, ToMap(e), None).value;
      AuthorOnlyProper(c, secret, ToMap(e), s);
      AuthorSetEncodes(s);
    }
  }

  lemma {:induction false} NewRowIff(c: Suite, m: Claim, e: Dac, s: SignatureSet)
    requires ToV1(m) == Some(e) && e.signatures == Some(s) && Encode(ToMap(e)).Some? && Encode(SigSetMap(s)).Some?
    ensures NewRow(c, m).Some?
  {
    hide Encode, ToMap, ToV1, SigSetMap, Hex, Fields, ProjFields;
  }

  // What a caller can check beforehand: every parent is in the store and can be read back, the times are in
  // range, the id is free, and nothing in the request is too long for a 64-bit head.
  predicate Acceptable(s: State, r: Request, own: Confidence) {
    && (forall k :: 0 <= k < |r.parents| ==> KnownParent(s.rows, r.parents[k]))
    && TimesFit(r) && RowOf(s.rows, r.id).None? && RequestFits(r, own)
  }

  predicate KnownParent(rows: seq<Row>, id: Bytes) {
    RowOf(rows, id).Some? && RowReadable(RowOf(rows, id).value)
  }

  predicate TimesFit(r: Request) {
    && -1.0 < r.now * 1000000.0 <= US_MAX as real
    && 0.0 <= r.until * 1000000.0 < US_MAX as real + 1.0
  }

  predicate RequestFits(r: Request, own: Confidence) {
    && InHead(|r.kind|) && InHead(|r.producerId|) && InHead(|CanonicalIds(r.parents)|) && ConfFits(own)
      && TextFits(r.monitor)
  }

  // The envelope a request would sign: the combined attributes, linked to the head.
  ghost function NewEnvelope(c: Suite, s: State, r: Request, own: Confidence): Dac
    requires ParentRows(s.rows, r.parents) && OwnTerms(r, own).Some?
  {
    Unsigned(c, r, own, Combined(OwnTerms(r, own).value, ParentTerms(s.rows, r.parents)), r.parents,
      HeadHash(c, s.rows))
  }

  lemma {:induction false} TimesIff(r: Request, own: Confidence)
    ensures OwnTerms(r, own).Some? <==> TimesFit(r)
  {}

  lemma {:induction false} NewEnvelopeEncodes(c: Suite, s: State, r: Request, own: Confidence)
    requires ParentRows(s.rows, r.parents) && OwnTerms(r, own).Some? && SchemaValid(NewEnvelope(c, s, r, own))
    ensures Encode(ToMap(NewEnvelope(c, s, r, own))).Some? <==> RequestFits(r, own)
  {
    hide SchemaValid, Encode, ToMap, ParentTerms, ParentRows, OwnTerms, Combined, CanonicalIds, HeadHash, InHead,
      InSignedHead;
    EnvelopeEncodes(NewEnvelope(c, s, r, own));
  }

  lemma {:induction false} ParentsKnown(c: Suite, rows: seq<Row>, ids: seq<Bytes>)
    requires AllStored(rows)
    ensures RereadAll(c, rows, ids).Some? <==> forall k :: 0 <= k < |ids| ==> KnownParent(rows, ids[k])
    ensures RereadAll(c, rows, ids).Some? ==> ParentRows(rows, ids)
  {
    hide RereadAll, RunLaws.Parent, KnownParent;
    RunLaws.RereadAllAt(c, rows, ids);
    forall k | 0 <= k < |ids|
      ensures RunLaws.Parent(c, rows, ids[k]).Some? <==> KnownParent(rows, ids[k])
      ensures KnownParent(rows, ids[k]) ==> RowOf(rows, ids[k]).Some?
    {
      OneParent(c, rows, ids[k]);
    }
  }

  lemma {:induction false} OneParent(c: Suite, rows: seq<Row>, id: Bytes)
    requires AllStored(rows)
    ensures RunLaws.Parent(c, rows, id).Some? <==> KnownParent(rows, id)
    ensures KnownParent(rows, id) ==> RowOf(rows, id).Some?
  {
    hide Stored, RowOf, Reread, TermsOf, RowTerms, RowReadable;
    RowOfMeans(rows, id);
    if RowOf(rows, id).Some? { RereadStored(c, RowOf(rows, id).value); }
  }

  // Once the parents are read and the times fit, sealing and appending decide.
  lemma {:induction false} SignedIff(c: Suite, s: State, r: Request, own: Confidence)
    requires Sound(c) && WellFormed(c, s) && InRangeRequest(r, own)
    requires RereadAll(c, s.rows, r.parents).Some? && OwnTerms(r, own).Some?
    ensures SignedClaim(c, s, r, own).Some? <==> RequestFits(r, own)
    ensures SignedClaim(c, s, r, own).Some? ==> NewRow(c, SignedClaim(c, s, r, own).value).Some?
    ensures SignedClaim(c, s, r, own).Some? ==> SignedClaim(c, s, r, own).value.id == r.id
  {
    hide Sound, InRangeRequest, Linked, DistinctIds, EdgesMatch, ParentsEarlier, MonotoneRows, Sealed, Draft,
      Combined, Stored, OwnTerms, HeadOf, ToV1, NewRow, HeadHash, Unsigned, ToMap, Encode, ParentRows, RereadAll,
      ParentTerms, AllTerms, Ids;
    HeadIs(c, s);
    ParentsKnown(c, s.rows, r.parents);
    hide KnownParent, RequestFits, SchemaValid;
    var ms, head, t := RereadAll(c, s.rows, r.parents).value, HeadHash(c, s.rows), Derived(c, s, r, own).value;
    RereadIds(c, s.rows, r.parents, ms);
    DerivedValid(c, s, r, own, ms);
    AllTermsAre(c, s.rows, r.parents, ms);
    DraftDenotes(c, r, own, t, ms, head);
    SealedIff(c, Draft(c, r, own, t, ms, head), NewEnvelope(c, s, r, own), r.secret);
    UnsignedValid(c, r, own, t, r.parents, head);
    NewEnvelopeEncodes(c, s, r, own);
    if SignedClaim(c, s, r, own).Some? {
      SealedRest(c, Draft(c, r, own, t, ms, head), r.secret);
      DraftRest(c, r, own, t, ms, head);
      SealedStores(c, r, own, t, ms, head);
    }
  }

  lemma {:induction false} SealedStores(c: Suite, r: Request, own: Confidence, t: Terms, ms: seq<Claim>, head: Bytes)
    requires Sound(c) && InRangeRequest(r, own) && ValidTerms(t) && |head| == 32
    requires forall k :: 0 <= k < |ms| ==> |Ids(ms)[k]| == 16
    requires Sealed(c, Draft(c, r, own, t, ms, head), r.secret).Some?
    ensures NewRow(c, Sealed(c, Draft(c, r, own, t, ms, head), r.secret).value).Some?
  {
    hide Sound, InRangeRequest, ValidTerms, Sealed, Draft, Unsigned, SchemaValid, SelfVerifies, ToMap, ToV1, Ids,
      NewRow, Encode, SigSetMap;
    var d, u := Draft(c, r, own, t, ms, head), Unsigned(c, r, own, t, Ids(ms), head);
    DraftDenotes(c, r, own, t, ms, head);
    UnsignedValid(c, r, own, t, Ids(ms), head);
    DraftRest(c, r, own, t, ms, head);
    SealedDenotes(c, d, u, r.secret);
    SealedIff(c, d, u, r.secret);
    var s := AuthorOnly(c, r.secret, ToMap(u), None).value;
    AuthorSetEncodes(s);
    SameMapUnsigned(u.(signatures := Some(s)));
    assert u.(signatures := Some(s)).(signatures := None) == u;
    NewRowIff(c, Sealed(c, d, r.secret).value, u.(signatures := Some(s)), s);
  }

  // A request to a well-formed store is refused exactly when it is not acceptable.
  lemma {:induction false} IssueIff(c: Suite, s: State, r: Request, own: Confidence)
    requires Sound(c) && WellFormed(c, s) && InRangeRequest(r, own)
    ensures AfterIssue(c, s, r, own).Some? <==> Acceptable(s, r, own)
  {
    hide Sound, InRangeRequest, Linked, DistinctIds, EdgesMatch, ParentsEarlier, MonotoneRows, Stored, OwnTerms,
      RequestFits, TimesFit, KnownParent, SignedClaim, NewRow, RowOf, RereadAll, ParentRows;
    ParentsKnown(c, s.rows, r.parents);
    TimesIff(r, own);
    SignedNeeds(c, s, r, own);
    if RereadAll(c, s.rows, r.parents).Some? && OwnTerms(r, own).Some? { SignedIff(c, s, r, own); }
  }

  lemma {:induction false} SignedNeeds(c: Suite, s: State, r: Request, own: Confidence)
    ensures SignedClaim(c, s, r, own).Some? ==> RereadAll(c, s.rows, r.parents).Some? && OwnTerms(r, own).Some?
  {
    hide RereadAll, OwnTerms, Sealed, Draft, Combined;
  }
}
