/** What an issued claim says, over the fields of the request itself. */
module Attributes {
  import opened Base
  import opened Cbor
  import opened Crypto
  import opened Envelope
  import opened ClaimLaws
  import opened Propagation
  import opened Quantize
  import opened Projection
  import opened Chain
  import opened Claims
  import opened Graph
  import opened Store
  import opened Substrate
  import opened Issuing

  // n is the first microsecond not before x seconds, the last one not after.
  ghost predicate FirstAfter(n: int, x: real) { n as real - 1.0 < x * 1000000.0 <= n as real }
  ghost predicate LastBefore(n: int, x: real) { n as real <= x * 1000000.0 < n as real + 1.0 }

  // The request's own attributes before anything is combined.
  ghost predicate Own(r: Request, own: Confidence, t: Terms) {
    && t.valuePpm == own.valuePpm && t.alphaPpm == own.alphaPpm
    && FirstAfter(t.issuedAt, r.now) && LastBefore(t.expiresAt, r.until)
    && t.classification == r.classification && t.requiresHitl == r.requiresHitl && t.status == Valid
  }

  lemma {:induction false} OwnTermsMean(r: Request, own: Confidence, t: Terms)
    ensures OwnTerms(r, own) == Some(t) <==>
      Own(r, own, t) && 0 <= t.issuedAt <= 253402300799999999 && 0 <= t.expiresAt <= 253402300799999999
  {
    CeilMeans(r.now, t.issuedAt);
    FloorMeans(r.until, t.expiresAt);
    hide SecondsToUsCeil, SecondsToUsFloor, FirstAfter, LastBefore;
  }

  lemma {:induction false} CeilMeans(x: real, n: int)
    ensures SecondsToUsCeil(x) == Some(n) <==> FirstAfter(n, x) && 0 <= n <= 253402300799999999
  {}

  lemma {:induction false} FloorMeans(x: real, n: int)
    ensures SecondsToUsFloor(x) == Some(n) <==> LastBefore(n, x) && 0 <= n <= 253402300799999999
  {}

  // What is copied from the request, the signing key and the chain.
  ghost predicate Copied(c: Suite, r: Request, own: Confidence, head: Bytes, e: Dac) {
    && e.kind == r.kind && e.payloadHash == c.hash(r.payload) && e.producerId == r.producerId
    && e.producerPk == c.publicKey(r.secret) && e.claimId == r.id && e.prev == head
    && e.confidence.methodName == own.methodName && e.confidence.interval == own.interval
    && e.validity.monitor == r.monitor && e.ext.None?
    && (forall p :: p in e.parents <==> p in r.parents) && StrictlyIncreasing(e.parents)
  }

  // The same in the runtime's claim, in hex.
  ghost predicate Returned(c: Suite, e: Dac, row: Row, m: Claim) {
    && m.kind == e.kind && m.payloadHash == Hex(e.payloadHash) && m.producerId == e.producerId
    && |c.hash(e.producerPk)| == 32 && m.producerFpr == Hex(c.hash(e.producerPk)[..8])
    && m.producerPk == Hex(e.producerPk)
    && m.parents == e.parents && m.confidence == e.confidence && m.validity == e.validity
    && m.classification == e.classification && m.requiresHitl == e.requiresHitl && m.id == e.claimId
    && m.prevHash == Hex(e.prev) && row.prevHash == Hex(e.prev)
  }

  // The claim never says more than its issuer did.
  ghost predicate NoStronger(r: Request, own: Confidence, e: Dac) {
    && e.confidence.valuePpm <= own.valuePpm && e.confidence.alphaPpm >= own.alphaPpm
    && e.validity.issuedAt as real >= r.now * 1000000.0
    && (e.validity.status == Valid ==> e.validity.expiresAt as real <= r.until * 1000000.0)
    && e.validity.issuedAt <= e.validity.expiresAt
    && (e.validity.expiresAt as real > r.until * 1000000.0 ==> e.validity.expiresAt == e.validity.issuedAt)
    && e.classification >= r.classification && (r.requiresHitl ==> e.requiresHitl)
    && (e.classification >= 3 ==> e.requiresHitl)
  }

  // Without parents it says exactly what its issuer did, except for a window that holds no microsecond.
  ghost predicate Exactly(r: Request, own: Confidence, e: Dac) {
    && e.confidence == own && e.classification == r.classification
    && (e.requiresHitl <==> r.requiresHitl || r.classification >= 3)
    && FirstAfter(e.validity.issuedAt, r.now)
    && (e.validity.status == Valid ==> LastBefore(e.validity.expiresAt, r.until))
    && (e.validity.status == Valid <==> e.validity.issuedAt as real <= r.until * 1000000.0)
    && (e.validity.status != Valid ==> e.validity.status == Stale && e.validity.expiresAt == e.validity.issuedAt)
  }

  // What a stored parent says, under the status its row has now.
  ghost predicate Says(row: Row, p: Terms) {
    && Env(row).Some? && p.valuePpm == Env(row).value.confidence.valuePpm
    && p.alphaPpm == Env(row).value.confidence.alphaPpm && p.issuedAt == Env(row).value.validity.issuedAt
    && p.expiresAt == Env(row).value.validity.expiresAt && p.classification == Env(row).value.classification
    && p.requiresHitl == Env(row).value.requiresHitl && p.status == row.status
  }

  ghost predicate ParentsSay(rows: seq<Row>, ids: seq<Bytes>, ps: seq<Terms>) {
    |ps| == |ids| && forall k :: 0 <= k < |ids| ==> RowOf(rows, ids[k]).Some? && Says(RowOf(rows, ids[k]).value, ps[k])
  }

  // Every attribute is the issuer's own or some parent's, and the weakest of them; end is the earliest end.
  ghost predicate Weakest(t: Terms, ps: seq<Terms>, end: int, e: Dac) {
    && Least(e.confidence.valuePpm, Coverage, t, ps) && Greatest(e.confidence.alphaPpm, Alpha, t, ps)
    && Greatest(e.validity.issuedAt, Start, t, ps) && Least(end, End, t, ps)
    && e.validity.expiresAt == (if end < e.validity.issuedAt then e.validity.issuedAt else end)
    && Greatest(e.classification, Class, t, ps)
    && (e.requiresHitl <==> t.requiresHitl || SomeHitl(ps) || e.classification >= 3)
    && e.validity.status == (if end < e.validity.issuedAt || SomeNotValid(ps) then Stale else Valid)
  }

  // The attributes of an issued claim: weakest over the issuer's, quantized, and every parent's.
  lemma {:induction false} IssuedCombines(c: Suite, s: State, r: Request, own: Confidence)
      returns (row: Row, e: Dac, t: Terms, ps: seq<Terms>, end: int)
    requires Sound(c) && WellFormed(c, s) && InRangeRequest(r, own) && AfterIssue(c, s, r, own).Some?
    ensures AfterIssue(c, s, r, own).value.rows == s.rows + [row] && Env(row) == Some(e)
    ensures Composed(c, s, r, own, row, e)
    ensures Own(r, own, t) && ParentsSay(s.rows, r.parents, ps) && Weakest(t, ps, end, e)
  {
    hide Sound, InRangeRequest, AfterIssue, Own, Combined, MeetAll, SignedTerms, RowOf, Linked, EdgesMatch,
      ParentsEarlier, MonotoneRows, OwnTerms, ParentTerms, Says, Weakest, Composed, RowSound, RowHash, HeadHash, Env,
      Settled, ToProjection, Stored, Hex, CanonicalIds, DistinctIds;
    row, e := IssueMeans(c, s, r, own);
    t, ps := OwnTerms(r, own).value, ParentTerms(s.rows, r.parents);
    end := MeetAll(t, ps).expiresAt;
    OwnTermsMean(r, own, t);
    ParentsAre(s.rows, r.parents);
    WeakestMeans(t, ps, e);
  }

  lemma {:induction false} ParentsAre(rows: seq<Row>, ids: seq<Bytes>)
    requires AllStored(rows) && ParentRows(rows, ids)
    ensures ParentsSay(rows, ids, ParentTerms(rows, ids))
  {
    hide Env, Holds, RowOf;
    forall k | 0 <= k < |ids| ensures Says(RowOf(rows, ids[k]).value, ParentTerms(rows, ids)[k]) {
      RowOfMeans(rows, ids[k]);
    }
  }

  lemma {:induction false} WeakestMeans(t: Terms, ps: seq<Terms>, e: Dac)
    requires SignedTerms(e) == Combined(t, ps)
    ensures Weakest(t, ps, MeetAll(t, ps).expiresAt, e)
  {
    CombinedMeans(t, ps);
    hide Combined, MeetAll, Least, Greatest, SomeHitl, SomeNotValid;
  }

  lemma {:induction false} WeakestNoStronger(r: Request, own: Confidence, t: Terms, ps: seq<Terms>, end: int, e: Dac)
    requires Own(r, own, t) && Weakest(t, ps, end, e)
    ensures NoStronger(r, own, e)
  {
    hide SomeHitl, SomeNotValid;
  }

  lemma {:induction false} WeakestAlone(r: Request, own: Confidence, t: Terms, ps: seq<Terms>, end: int, e: Dac)
    requires Own(r, own, t) && Weakest(t, ps, end, e) && ps == []
    requires e.confidence.methodName == own.methodName && e.confidence.interval == own.interval
    ensures Exactly(r, own, e)
  {}

  lemma {:induction false} UnsignedCopies(c: Suite, r: Request, own: Confidence, t: Terms, head: Bytes, e: Dac)
    requires e == Unsigned(c, r, own, t, r.parents, head).(signatures := e.signatures)
    ensures Copied(c, r, own, head, e)
    ensures e.confidence == own.(valuePpm := t.valuePpm, alphaPpm := t.alphaPpm)
  {
    CanonicalMeans(r.parents);
    hide CanonicalIds, StrictlyIncreasing;
  }

  lemma {:induction false} DraftReturns(c: Suite, r: Request, own: Confidence, t: Terms, ms: seq<Claim>, head: Bytes,
      row: Row, e: Dac)
    requires Sound(c) && Ids(ms) == r.parents
      && e == Unsigned(c, r, own, t, r.parents, head).(signatures := e.signatures)
    requires Sealed(c, Draft(c, r, own, t, ms, head), r.secret).Some?
    requires row.prevHash == Sealed(c, Draft(c, r, own, t, ms, head), r.secret).value.prevHash
    ensures Returned(c, e, row, Sealed(c, Draft(c, r, own, t, ms, head), r.secret).value)
  {
    hide Sealed, CanonicalIds, Ids, Hex;
    SealedRest(c, Draft(c, r, own, t, ms, head), r.secret);
  }

  lemma {:induction false} SignedReturns(c: Suite, s: State, r: Request, own: Confidence, row: Row, e: Dac)
    requires Sound(c) && WellFormed(c, s)
    requires Composed(c, s, r, own, row, e)
    ensures Returned(c, e, row, SignedClaim(c, s, r, own).value)
  {
    hide Sound, WellFormed, RereadAll, OwnTerms, Sealed, Draft, Unsigned, Ids, HeadHash, Returned, ToV1, Combined,
      HeadOf;
    var ms := RereadAll(c, s.rows, r.parents).value;
    HeadIs(c, s);
    ParentIds(c, s, r.parents, ms);
    DraftReturns(c, r, own, Derived(c, s, r, own).value, ms, HeadHash(c, s.rows), row, e);
  }

  lemma {:induction false} ParentIds(c: Suite, s: State, ids: seq<Bytes>, ms: seq<Claim>)
    requires RereadAll(c, s.rows, ids) == Some(ms)
    requires WellFormed(c, s)
    ensures Ids(ms) == ids
  {
    hide RereadAll, Ids, AllStored;
    RereadIds(c, s.rows, ids, ms);
  }

  // The new row, its envelope and the claim returned, field by field over the request; the caller's confidence
  // is left as the claim's.
  lemma {:induction false} IssuedSays(c: Suite, s: State, r: Request, own: Confidence)
      returns (row: Row, e: Dac, m: Claim)
    requires Sound(c) && WellFormed(c, s) && InRangeRequest(r, own) && AfterIssue(c, s, r, own).Some?
    ensures AfterIssue(c, s, r, own).value.rows == s.rows + [row] && Env(row) == Some(e)
    ensures SignedClaim(c, s, r, own) == Some(m) && ToV1(m) == Some(e)
    ensures Copied(c, r, own, HeadHash(c, s.rows), e) && Returned(c, e, row, m)
    ensures NoStronger(r, own, e) && (r.parents == [] ==> Exactly(r, own, e))
    ensures Weakened(own, Derived(c, s, r, own)) == e.confidence
  {
    hide Sound, InRangeRequest, WellFormed, AfterIssue, Own, Weakest, ToV1, Env, Copied, Returned, NoStronger,
      Exactly, Derived, SignedClaim, Unsigned, HeadHash, RowOf;
    var t, ps, end;
    row, e, t, ps, end := IssuedCombines(c, s, r, own);
    m := SignedClaim(c, s, r, own).value;
    UnsignedCopies(c, r, own, Derived(c, s, r, own).value, HeadHash(c, s.rows), e);
    SignedReturns(c, s, r, own, row, e);
    WeakestNoStronger(r, own, t, ps, end, e);
    if r.parents == [] { WeakestAlone(r, own, t, ps, end, e); }
  }

  // The envelope any claim denotes: its hex texts as bytes, and no signature set for an empty text.
  lemma {:induction false} Denotes(m: Claim, e: Dac)
    requires ToV1(m) == Some(e)
    ensures FromHex(m.payloadHash) == Some(e.payloadHash) && FromHex(m.producerPk) == Some(e.producerPk)
    ensures e.kind == m.kind && e.producerId == m.producerId && e.parents == m.parents && e.claimId == m.id
    ensures e.confidence == m.confidence && e.validity == m.validity
    ensures e.classification == m.classification && e.requiresHitl == m.requiresHitl && e.ext.None?
    ensures if m.prevHash == [] then e.prev == GENESIS_PREV else FromHex(m.prevHash) == Some(e.prev)
    ensures m.sig == [] ==> e.signatures.None?
  {
    hide FromHex, ReadSig;
    UnsignedText();
  }

  lemma {:induction false} UnsignedText()
    ensures ReadSig(Some(Tstr([]))) == Some(None)
  {
    hide FromHex, Decode;
  }
}
