/** What a store reached by issuing holds, and that one more issue keeps it so. */
module Issuing {
  import opened Base
  import opened Cbor
  import opened Crypto
  import opened Attest
  import opened Threshold
  import opened Envelope
  import opened Wire
  import opened Propagation
  import opened Projection
  import opened Chain
  import opened Claims
  import opened ClaimLaws
  import opened Graph
  import opened Store
  import VerifierLaws

  // What every stored row is: the view of a schema-valid envelope under the row's id and monitor. The column
  // says VALID only where the signed status does.
  ghost predicate Holds(row: Row, e: Dac) {
    && Env(row) == Some(e) && Settled(e) && ToProjection(e).Some? && row.json == ToProjection(e)
    && e.claimId == row.id && e.validity.monitor == row.monitor && e.ext.None? && VerifierLaws.AuthorAlone(e)
    && (row.status == Valid ==> e.validity.status == Valid)
  }

  ghost predicate Stored(row: Row) {
    Env(row).Some? && Holds(row, Env(row).value)
  }

  function ParentsOf(row: Row): seq<Bytes> {
    match Env(row)
    case None => []
    case Some(e) => e.parents
  }

  // What propagation reads off a row: its envelope's attributes, under the column's status.
  function RowTerms(row: Row): Terms {
    match Env(row)
    case None => Terms(0, 0, 0, 0, 0, false, row.status)
    case Some(e) => SignedTerms(e).(status := row.status)
  }

  function SignedTerms(e: Dac): Terms {
    Terms(e.confidence.valuePpm, e.confidence.alphaPpm, e.validity.issuedAt, e.validity.expiresAt, e.classification,
          e.requiresHitl, e.validity.status)
  }

  // ----- Re-reading the parents -----

  lemma {:induction false} RereadStored(c: Suite, row: Row)
    requires Stored(row)
    ensures Reread(c, row).Some? <==> RowReadable(row)
    ensures Reread(c, row).Some? ==> Reread(c, row).value.id == row.id && TermsOf(Reread(c, row).value) == RowTerms(row)
    ensures |row.id| == 16
  {
    var e := Env(row).value;
    ProjectionSigned(e);
    SchemaId(e);
    hide SchemaValid, SigHex, ToProjection, Reread, Env, Readable;
    RereadTerms(c, row, e);
  }

  // The row's interval, if any, can be rendered, so the row can be read back.
  predicate RowReadable(row: Row) {
    match Env(row)
    case None => false
    case Some(e) => Readable(e.confidence)
  }

  lemma {:induction false} ProjectionSigned(e: Dac)
    ensures ToProjection(e).Some? <==> SigHex(e.signatures).Some?
  {
    hide SigHex;
  }

  lemma {:induction false} SchemaId(e: Dac)
    requires SchemaValid(e)
    ensures |e.claimId| == 16
  {}

  // Each parent comes back with its own row's attributes and current status.
  lemma {:induction false} RereadAllMeans(c: Suite, rows: seq<Row>, ids: seq<Bytes>)
    requires forall i :: 0 <= i < |rows| ==> Stored(rows[i])
    requires RereadAll(c, rows, ids).Some?
    ensures var ms := RereadAll(c, rows, ids).value;
      Ids(ms) == ids && forall k :: 0 <= k < |ids| ==>
        RowOf(rows, ids[k]).Some? && AllTerms(ms)[k] == RowTerms(RowOf(rows, ids[k]).value) && |ids[k]| == 16
  {
    hide Stored, Reread, RowOf, TermsOf, RowTerms, RowReadable;
    if ids != [] {
      var n := |ids| - 1;
      RereadAllMeans(c, rows, ids[..n]);
      RowOfMeans(rows, ids[n]);
      RereadStored(c, RowOf(rows, ids[n]).value);
      assert ids == ids[..n] + [ids[n]];
    }
  }

  // ----- The new claim -----

  // The envelope a request leads to, before it is signed.
  function Unsigned(c: Suite, r: Request, own: Confidence, t: Terms, parents: seq<Bytes>, head: Bytes): Dac {
    Dac(r.kind, c.hash(r.payload), r.producerId, c.publicKey(r.secret), CanonicalIds(parents),
        own.(valuePpm := t.valuePpm, alphaPpm := t.alphaPpm), Validity(r.monitor, t.issuedAt, t.expiresAt, t.status),
        t.classification, t.requiresHitl, head, r.id, None, None)
  }

  // The caller's inputs are in range, as the constructors and the class lattice document.
  ghost predicate InRangeRequest(r: Request, own: Confidence) {
    ValidConf(own) && 0 <= r.classification <= CLS_REGULATED && |r.id| == 16
  }

  ghost predicate ValidTerms(t: Terms) {
    && 0 <= t.valuePpm <= PPM_MAX && 0 <= t.alphaPpm <= PPM_MAX
    && 0 <= t.issuedAt <= t.expiresAt <= US_MAX
    && 0 <= t.classification <= CLS_REGULATED && (t.classification >= CLS_REGULATED ==> t.requiresHitl)
  }

  // The clamp and the forced gate keep combined attributes inside the schema.
  lemma {:induction false} CombinedValid(own: Terms, ps: seq<Terms>)
    requires 0 <= own.valuePpm <= PPM_MAX && 0 <= own.alphaPpm <= PPM_MAX && 0 <= own.classification <= CLS_REGULATED
    requires 0 <= own.issuedAt <= US_MAX && 0 <= own.expiresAt <= US_MAX
    requires forall i :: 0 <= i < |ps| ==> ValidTerms(ps[i])
    ensures ValidTerms(Combined(own, ps))
  {
    CombinedMeans(own, ps);
    hide MeetAll, Combined;
  }

  lemma {:induction false} StoredTermsValid(row: Row)
    requires Stored(row)
    ensures ValidTerms(RowTerms(row))
  {
    hide Env, ToProjection, IdsAscending;
  }

  lemma {:induction false} DraftDenotes(c: Suite, r: Request, own: Confidence, t: Terms, ms: seq<Claim>, head: Bytes)
    requires |head| == 32
    ensures ToV1(Draft(c, r, own, t, ms, head)) == Some(Unsigned(c, r, own, t, Ids(ms), head))
  {
    hide Hex, FromHex, ReadSig, CanonicalIds, Ids;
    NoSig();
    HexReads(c.hash(r.payload));
    HexReads(c.publicKey(r.secret));
    HexReads(head);
    HexNonEmpty(head);
  }

  lemma {:induction false} UnsignedValid(c: Suite, r: Request, own: Confidence, t: Terms, parents: seq<Bytes>,
      head: Bytes)
    requires Sound(c) && InRangeRequest(r, own) && ValidTerms(t) && |head| == 32
    requires forall i :: 0 <= i < |parents| ==> |parents[i]| == 16
    ensures SchemaValid(Unsigned(c, r, own, t, parents, head))
  {
    hide CanonicalIds, Less;
    CanonicalMeans(parents);
    var ids := CanonicalIds(parents);
    forall i | 0 <= i < |ids| ensures |ids[i]| == 16 { assert ids[i] in parents; }
  }

  // The sealed claim denotes the envelope with its author-only signature set, which verifies.
  lemma {:induction false} SealedDenotes(c: Suite, m: Claim, e: Dac, secret: Bytes)
    requires Sound(c) && ToV1(m) == Some(e) && e.signatures.None? && SchemaValid(e)
      && e.producerPk == c.publicKey(secret)
    requires Sealed(c, m, secret).Some?
    ensures var s := AuthorOnly(c, secret, ToMap(e), None);
      && s.Some? && ToV1(Sealed(c, m, secret).value) == Some(e.(signatures := s))
      && ValidSigSet(s.value) && Ordered(s.value) == s.value && SelfVerifies(c, e.(signatures := s))
      && VerifierLaws.AuthorAlone(e.(signatures := s))
  {
    var s := AuthorOnly(c, secret, ToMap(e), None).value;
    AuthorOnlyProper(c, secret, ToMap(e), s);
    hide Sound, ReadSig, FromHex, Hex, SigSetMap, Encode, SchemaValid, ValidSigSet, Ordered, ToMap, AuthorOnly;
    SigReads(s);
    SealVerifies(c, e, secret, s);
    hide SelfVerifies;
    SealedSig(c, m, e, secret, s);
  }

  lemma {:induction false} SealedSig(c: Suite, m: Claim, e: Dac, secret: Bytes, s: SignatureSet)
    requires ToV1(m) == Some(e) && AuthorOnly(c, secret, ToMap(e), None) == Some(s) && Encode(SigSetMap(s)).Some?
    requires ReadSig(Some(Tstr(Hex(Encode(SigSetMap(s)).value)))) == Some(Some(s))
    ensures Sealed(c, m, secret).Some? && ToV1(Sealed(c, m, secret).value) == Some(e.(signatures := Some(s)))
  {
    hide ReadSig, FromHex, Hex, SigSetMap, Encode, ToMap, AuthorOnly;
  }

  lemma {:induction false} AuthorOnlyProper(c: Suite, secret: Bytes, struct: Value, s: SignatureSet)
    requires Sound(c) && AuthorOnly(c, secret, struct, None) == Some(s)
    ensures ValidSigSet(s) && Ordered(s) == s
    ensures SigningBytes(struct).Some? && c.verify(c.publicKey(secret), SigningBytes(struct).value, s.author.signature)
  {
    hide SigningBytes;
  }

  lemma {:induction false} SealVerifies(c: Suite, e: Dac, secret: Bytes, s: SignatureSet)
    requires e.producerPk == c.publicKey(secret) && e.signatures.None?
    requires SigningBytes(ToMap(e)).Some?
      && c.verify(c.publicKey(secret), SigningBytes(ToMap(e)).value, s.author.signature)
    ensures SelfVerifies(c, e.(signatures := Some(s)))
  {
    hide SigningBytes, ToMap;
    SameMapUnsigned(e.(signatures := Some(s)));
    assert e.(signatures := Some(s)).(signatures := None) == e;
  }

  lemma {:induction false} NewRowSound(c: Suite, m: Claim, e: Dac)
    requires ToV1(m) == Some(e) && Settled(e) && SelfVerifies(c, e) && e.ext.None? && VerifierLaws.AuthorAlone(e)
    requires m.id == e.claimId && m.validity == e.validity && NewRow(c, m).Some?
    ensures var row := NewRow(c, m).value;
      && Holds(row, e) && Stored(row) && RowSound(c, row) && row.id == m.id && row.status == e.validity.status
      && row.recHash == Hex(RowHash(c, row)) && RowHash(c, row) == c.hash(Message(e).value)
  {
    hide Message, SchemaValid, ValidSigSet, Ordered, SigningBytes, ToMap, Hex, ToProjection, FromProjection, ToV1;
    MessageSigned(e);
    ProjectionRoundTrip(e);
    assert e.(signatures := Some(e.signatures.value)) == e;
  }

  // ----- What every reachable store keeps -----

  // The edges are exactly the parent lists, and parents come earlier in the chain.
  ghost predicate EdgesMatch(rows: seq<Row>, edges: seq<Edge>) {
    && (forall e :: e in edges ==>
      exists i :: 0 <= i < |rows| && rows[i].id == e.child && e.parent in ParentsOf(rows[i]))
    && (forall i, p :: 0 <= i < |rows| && p in ParentsOf(rows[i]) ==> Edge(p, rows[i].id) in edges)
  }

  ghost predicate ParentsEarlier(rows: seq<Row>) {
    forall i, p :: 0 <= i < |rows| && p in ParentsOf(rows[i]) ==> exists j :: 0 <= j < i && rows[j].id == p
  }

  // From parent to child the signed attributes only get weaker, and no VALID row has a parent that is not.
  ghost predicate MonotoneRows(rows: seq<Row>) {
    forall i, j :: 0 <= i < |rows| && 0 <= j < |rows| && rows[j].id in ParentsOf(rows[i]) ==>
      WeakerRow(rows[i], rows[j])
  }

  ghost predicate WeakerRow(row: Row, parent: Row) {
    && Env(row).Some? && Env(parent).Some?
    && Weaker(SignedTerms(Env(row).value), SignedTerms(Env(parent).value))
    && (parent.status != Valid ==> row.status != Valid)
  }

  ghost predicate AllStored(rows: seq<Row>) {
    forall i :: 0 <= i < |rows| ==> Stored(rows[i])
  }

  ghost predicate WellFormed(c: Suite, s: State) {
    && DistinctIds(s.rows) && AllStored(s.rows) && Linked(c, s.rows, GENESIS_PREV) && s.last == LastRec(s.rows)
    && EdgesMatch(s.rows, s.edges) && ParentsEarlier(s.rows) && MonotoneRows(s.rows)
  }

  // ----- One more claim -----

  // What a successful issue adds: the row, and the envelope it holds.
  ghost predicate Extends(c: Suite, s: State, r: Request, own: Confidence, t: State, row: Row, e: Dac) {
    && t == State(s.rows + [row], s.edges + EdgesTo(e.parents, row.id), row.recHash)
    && Holds(row, e) && RowSound(c, row) && row.recHash == Hex(RowHash(c, row))
    && row.id == r.id && row.monitor == r.monitor && row.status == e.validity.status
    && RowOf(s.rows, r.id).None? && e.parents == CanonicalIds(r.parents) && e.prev == HeadHash(c, s.rows)
    && OwnTerms(r, own).Some? && ParentRows(s.rows, r.parents)
    && SignedTerms(e) == Combined(OwnTerms(r, own).value, ParentTerms(s.rows, r.parents))
  }

  // The envelope is the unsigned one the request leads to, signed, and the claim returned denotes it.
  ghost predicate Composed(c: Suite, s: State, r: Request, own: Confidence, row: Row, e: Dac) {
    && Derived(c, s, r, own).Some? && SignedClaim(c, s, r, own).Some?
    && e == Unsigned(c, r, own, Derived(c, s, r, own).value, r.parents,
      HeadHash(c, s.rows)).(signatures := e.signatures)
    && ToV1(SignedClaim(c, s, r, own).value) == Some(e)
    && row.prevHash == SignedClaim(c, s, r, own).value.prevHash
  }

  ghost predicate ParentRows(rows: seq<Row>, ids: seq<Bytes>) {
    forall k :: 0 <= k < |ids| ==> RowOf(rows, ids[k]).Some?
  }

  ghost function ParentTerms(rows: seq<Row>, ids: seq<Bytes>): (r: seq<Terms>)
    requires ParentRows(rows, ids)
    ensures |r| == |ids|
  {
    seq(|ids|, k requires 0 <= k < |ids| => RowTerms(RowOf(rows, ids[k]).value))
  }

  lemma {:induction false} HeadIs(c: Suite, s: State)
    requires Sound(c) && WellFormed(c, s)
    ensures HeadOf(s.last) == Some(HeadHash(c, s.rows)) && |HeadHash(c, s.rows)| == 32
  {
    hide Hex, FromHex, Env, Message, SelfVerifies, DistinctIds, AllStored, EdgesMatch, ParentsEarlier, MonotoneRows,
      BigEndian;
    if s.rows != [] {
      var n := |s.rows| - 1;
      assert RowLinked(c, s.rows, GENESIS_PREV, n);
      RecHash(c, s.rows[n]);
      HexReads(RowHash(c, s.rows[n]));
      HexNonEmpty(RowHash(c, s.rows[n]));
    }
  }

  lemma {:induction false} DerivedValid(c: Suite, s: State, r: Request, own: Confidence, ms: seq<Claim>)
    requires AllStored(s.rows) && InRangeRequest(r, own) && RereadAll(c, s.rows, r.parents) == Some(ms)
    requires Derived(c, s, r, own).Some?
    ensures OwnTerms(r, own).Some? && Derived(c, s, r, own) == Some(Combined(OwnTerms(r, own).value, AllTerms(ms)))
    ensures ValidTerms(Derived(c, s, r, own).value)
  {
    var ps, rows := AllTerms(ms), s.rows;
    hide Combined, RereadAll, Stored, RowTerms, RowOf, ValidTerms;
    RereadAllMeans(c, rows, r.parents);
    forall i | 0 <= i < |ps| ensures ValidTerms(ps[i]) {
      var id := r.parents[i];
      RowOfMeans(rows, id);
      StoredTermsValid(RowOf(rows, id).value);
    }
    CombinedValid(OwnTerms(r, own).value, ps);
  }

  lemma {:induction false} AllTermsAre(c: Suite, rows: seq<Row>, ids: seq<Bytes>, ms: seq<Claim>)
    requires AllStored(rows) && RereadAll(c, rows, ids) == Some(ms)
    ensures ParentRows(rows, ids) && AllTerms(ms) == ParentTerms(rows, ids)
  {
    hide RereadAll, Stored, RowTerms, RowOf;
    RereadAllMeans(c, rows, ids);
  }

  lemma {:induction false} SettledSigned(u: Dac, s: SignatureSet)
    requires SchemaValid(u) && ValidSigSet(s) && Ordered(s) == s
    ensures Settled(u.(signatures := Some(s)))
  {
    hide SchemaValid, ValidSigSet, Ordered;
    ValidWhateverSigned(u, Some(s));
  }

  // Sealing fills in the signature text and nothing else.
  lemma {:induction false} SealedRest(c: Suite, m: Claim, secret: Bytes)
    requires Sealed(c, m, secret).Some?
    ensures Sealed(c, m, secret).value == m.(sig := Sealed(c, m, secret).value.sig)
  {
    hide ToV1, AuthorOnly, Hex, Encode;
  }

  lemma {:induction false} DraftRest(c: Suite, r: Request, own: Confidence, t: Terms, ms: seq<Claim>, head: Bytes)
    ensures var d, u := Draft(c, r, own, t, ms, head), Unsigned(c, r, own, t, Ids(ms), head);
      && d.id == r.id && d.validity == u.validity && d.parents == u.parents
      && u.claimId == r.id && u.signatures.None? && u.ext.None? && u.prev == head && u.validity.monitor == r.monitor
      && u.parents == CanonicalIds(Ids(ms)) && u.producerPk == c.publicKey(r.secret) && SignedTerms(u) == t
      && u.validity.status == t.status
  {
    hide Hex, CanonicalIds, Ids, Fingerprint;
  }

  lemma {:induction false} IssueMeans(c: Suite, s: State, r: Request, own: Confidence) returns (row: Row, e: Dac)
    requires Sound(c) && WellFormed(c, s) && InRangeRequest(r, own) && AfterIssue(c, s, r, own).Some?
    ensures Extends(c, s, r, own, AfterIssue(c, s, r, own).value, row, e)
    ensures Composed(c, s, r, own, row, e)
  {
    hide Sound, InRangeRequest, Linked, DistinctIds, EdgesMatch, ParentsEarlier, MonotoneRows, RereadAll, Sealed,
      Draft, Combined, Stored, OwnTerms, HeadOf, ToV1, NewRow, Hex, RowSound, Holds, CanonicalIds, HeadHash;
    hide Unsigned, SchemaValid, Settled, SelfVerifies, ValidSigSet, Ordered, AuthorOnly, ToMap, InRangeRequest,
      ParentTerms, AllTerms, Ids;
    var ms, head := RereadAll(c, s.rows, r.parents).value, HeadHash(c, s.rows);
    var t := Derived(c, s, r, own).value;
    HeadIs(c, s);
    RereadIds(c, s.rows, r.parents, ms);
    DerivedValid(c, s, r, own, ms);
    AllTermsAre(c, s.rows, r.parents, ms);
    hide RereadAll, ParentRows;
    var d := Draft(c, r, own, t, ms, head);
    var m := Sealed(c, d, r.secret).value;
    e := SignedEnvelope(c, r, own, t, ms, head);
    SealedRest(c, d, r.secret);
    DraftRest(c, r, own, t, ms, head);
    NewRowSound(c, m, e);
    row := NewRow(c, m).value;
    RowFrom(c, m);
  }

  lemma {:induction false} RowFrom(c: Suite, m: Claim)
    requires NewRow(c, m).Some?
    ensures NewRow(c, m).value.monitor == m.validity.monitor && NewRow(c, m).value.id == m.id
    ensures NewRow(c, m).value.prevHash == m.prevHash
  {}

  lemma {:induction false} RereadIds(c: Suite, rows: seq<Row>, ids: seq<Bytes>, ms: seq<Claim>)
    requires AllStored(rows) && RereadAll(c, rows, ids) == Some(ms)
    ensures Ids(ms) == ids && forall k :: 0 <= k < |ids| ==> |ids[k]| == 16
  {
    hide RereadAll, Stored, RowTerms, RowOf;
    RereadAllMeans(c, rows, ids);
  }

  lemma {:induction false} SignedEnvelope(c: Suite, r: Request, own: Confidence, t: Terms, ms: seq<Claim>,
      head: Bytes) returns (e: Dac)
    requires Sound(c) && InRangeRequest(r, own) && ValidTerms(t) && |head| == 32
    requires forall k :: 0 <= k < |ms| ==> |Ids(ms)[k]| == 16
    requires Sealed(c, Draft(c, r, own, t, ms, head), r.secret).Some?
    ensures ToV1(Sealed(c, Draft(c, r, own, t, ms, head), r.secret).value) == Some(e)
    ensures e == Unsigned(c, r, own, t, Ids(ms), head).(signatures := e.signatures)
    ensures Settled(e) && SelfVerifies(c, e) && VerifierLaws.AuthorAlone(e)
  {
    hide VerifierLaws.AuthorAlone, Sound, InRangeRequest, ValidTerms, Sealed, Draft, Unsigned, SchemaValid, Settled,
      SelfVerifies, ValidSigSet, Ordered, AuthorOnly, ToMap, ToV1, Ids;
    var d, u := Draft(c, r, own, t, ms, head), Unsigned(c, r, own, t, Ids(ms), head);
    DraftDenotes(c, r, own, t, ms, head);
    UnsignedValid(c, r, own, t, Ids(ms), head);
    DraftRest(c, r, own, t, ms, head);
    SealedDenotes(c, d, u, r.secret);
    e := u.(signatures := AuthorOnly(c, r.secret, ToMap(u), None));
    SettledSigned(u, e.signatures.value);
  }
}
