/** Re-reading is exact: what a stored claim comes back as, any number of times. */
module ClaimLaws {
  import opened Base
  import opened Cbor
  import opened Schema
  import opened Crypto
  import opened Attest
  import opened Threshold
  import opened Envelope
  import opened Propagation
  import opened Quantize
  import opened Projection
  import opened Chain
  import opened Claims

  // The claim that denotes e, with the given status and signature text.
  function ClaimOf(c: Suite, e: Dac, status: Status, sig: Text): Claim {
    Claim(e.kind, Hex(e.payloadHash), e.producerId, Hex(Fingerprint(c, e.producerPk)), Hex(e.producerPk), e.parents,
          e.confidence, e.validity.(status := status), e.classification, e.requiresHitl, e.claimId, Hex(e.prev), sig)
  }

  lemma {:induction false} ConfView(x: Confidence)
    requires ValidConf(x)
    ensures ViewConf(ConfMap(x)) == if Readable(x) then Some(x) else None
  {
    OtherNames();
    hide Renders, Names, Fields, Project, Key, Only, Normal, NormalAll;
    RecordProject(CONF_KEYS, ConfFields(x));
  }

  lemma {:induction false} ValView(w: Validity, status: Status)
    requires ValidWindow(w)
    ensures ViewVal(ValMap(w), status) == Some(w.(status := status))
  {
    OtherNames();
    StatusIsText(w.status);
    hide Names, Fields, Project, Key, Only, Normal, NormalAll, StatusText;
    RecordProject(VAL_KEYS, ValFields(w));
  }

  lemma {:induction false} IdsView(ids: seq<Bytes>)
    requires IdsAscending(ids)
    ensures ViewIds(Arr(HexValues(ids))) == Some(ids) && CanonicalIds(ids) == ids
  {
    hide Less, HexItems, HexValues, CanonicalIds;
    HexItemsRead(ids);
    CanonicalFixed(ids);
  }

  lemma {:induction false} FieldsView(c: Suite, e: Dac, status: Status, sig: Text)
    requires SchemaValid(e)
    ensures ViewFields(c, ProjFields(e, sig), status)
         == if Readable(e.confidence) then Some(ClaimOf(c, e, status, sig)) else None
  {
    hide Readable, Hex, FromHex, ConfMap, ValMap, HexValues, IdsAscending, ValidConf, ValidWindow, IsExt, ViewConf,
      ViewVal, ViewIds, CanonicalIds;
    ConfView(e.confidence);
    ValView(e.validity, status);
    IdsView(e.parents);
    HexReads(e.claimId);
    HexReads(e.producerPk);
  }

  // What a row holding the view of e is re-read as.
  lemma {:induction false} RereadView(c: Suite, row: Row, e: Dac)
    requires SchemaValid(e) && SigHex(e.signatures).Some? && row.json == ToProjection(e)
    ensures Reread(c, row)
         == if Readable(e.confidence) then Some(ClaimOf(c, e, row.status, SigHex(e.signatures).value)) else None
  {
    var sig := SigHex(e.signatures).value;
    hide SchemaValid, ProjFields, Project, Fields, Names, Only, Key, ViewFields, ClaimOf, SigHex, Normal, NormalAll,
      ToProjection, Readable;
    ProjNames();
    RecordProject(PROJ_KEYS, ProjFields(e, sig));
    FieldsView(c, e, row.status, sig);
    ViewIs(e);
  }

  lemma {:induction false} ViewIs(e: Dac)
    requires SigHex(e.signatures).Some?
    ensures ToProjection(e) == Some(Map(Fields(PROJ_KEYS, ProjFields(e, SigHex(e.signatures).value))))
  {
    hide SigHex, ProjFields, Fields;
  }

  // A stored envelope in the form the reader produces.
  ghost predicate Settled(e: Dac) {
    && SchemaValid(e)
    && (e.signatures.Some? ==> ValidSigSet(e.signatures.value) && Ordered(e.signatures.value) == e.signatures.value)
  }

  // The envelope such a claim denotes.
  lemma {:induction false} ClaimDenotes(c: Suite, e: Dac, status: Status)
    requires Settled(e) && SigHex(e.signatures).Some?
    ensures ToV1(ClaimOf(c, e, status, SigHex(e.signatures).value))
         == Some(e.(validity := e.validity.(status := status), ext := None))
  {
    hide Hex, FromHex, ReadSig, SigHex, SchemaValid, ValidSigSet, Ordered, Settled;
    SettledMeans(e);
    SigHexReads(e.signatures);
    HexReads(e.payloadHash);
    HexReads(e.producerPk);
    HexReads(e.prev);
    HexNonEmpty(e.prev);
  }

  lemma {:induction false} SettledMeans(e: Dac)
    requires Settled(e)
    ensures |e.prev| == 32
    ensures e.signatures.Some? ==> ValidSigSet(e.signatures.value) && Ordered(e.signatures.value) == e.signatures.value
  {
    hide ValidSigSet, Ordered;
  }

  // A claim can be re-read exactly when its interval can be rendered. Re-reading keeps every field but the
  // status, which is the column's, and ext, which is dropped; so the claim denotes the stored envelope, and
  // has its record hash, exactly when the column still holds the signed status and there is no ext. Storing
  // its view again changes nothing, however often.
  lemma {:induction false} RereadExact(c: Suite, row: Row, e: Dac)
    requires Settled(e) && ToProjection(e).Some? && row.json == ToProjection(e)
    ensures Reread(c, row).Some? <==> Readable(e.confidence)
    ensures Readable(e.confidence) ==> RereadIs(c, row, e)
  {
    hide Settled, SigHex, ClaimOf, Reread, ToV1, ToProjection, Readable, RereadIs;
    SignedView(e);
    RereadView(c, row, e);
    ClaimDenotes(c, e, row.status);
    if Readable(e.confidence) { SameOrNot(c, row, e); }
  }

  lemma {:induction false} SignedView(e: Dac)
    requires Settled(e) && ToProjection(e).Some?
    ensures SigHex(e.signatures).Some? && SchemaValid(e)
  {
    hide SigHex, SchemaValid, ValidSigSet, Ordered;
  }

  lemma {:induction false} SameOrNot(c: Suite, row: Row, e: Dac)
    requires row.json == ToProjection(e) && Reread(c, row).Some?
    requires ToV1(Reread(c, row).value) == Some(e.(validity := e.validity.(status := row.status), ext := None))
    ensures RereadIs(c, row, e)
  {
    hide Reread, ToV1, ToProjection, Message;
  }

  // Any interval whose mantissas are in range and whose exponents do not exceed 240 can be rendered.
  lemma {:induction false} UsuallyReadable(x: Confidence)
    requires ValidConf(x) && (x.interval.Some? ==> x.interval.value.loExp <= 240 && x.interval.value.hiExp <= 240)
    ensures Readable(x)
  {
    hide Displays;
    if x.interval.Some? {
      SmallDisplays(x.interval.value.loMantissa, x.interval.value.loExp);
      SmallDisplays(x.interval.value.hiMantissa, x.interval.value.hiExp);
    }
  }

  // The schema does not bound the exponents: [1 * 10^400, 1 * 10^400] is a valid interval that cannot be.
  lemma {:induction false} ValidButUnreadable(name: Text)
    ensures var x := Confidence(name, 0, 0, Some(Interval(1, 400, 1, 400))); ValidConf(x) && !Readable(x)
  {
    LargeOverflows();
    hide Displays;
  }

  ghost predicate RereadIs(c: Suite, row: Row, e: Dac) {
    && Reread(c, row).Some? && ToV1(Reread(c, row).value).Some?
    && var back := ToV1(Reread(c, row).value).value;
      && back == e.(validity := e.validity.(status := row.status), ext := None)
      && (back == e <==> row.status == e.validity.status && e.ext.None?)
      && (back == e ==> Message(back) == Message(e) && ToProjection(back) == row.json)
  }

  ghost predicate HasTerms(m: Claim, e: Dac, status: Status) {
    && m.id == e.claimId
    && TermsOf(m) == Terms(e.confidence.valuePpm, e.confidence.alphaPpm, e.validity.issuedAt, e.validity.expiresAt,
                           e.classification, e.requiresHitl, status)
  }

  lemma {:induction false} RereadTerms(c: Suite, row: Row, e: Dac)
    requires SchemaValid(e) && SigHex(e.signatures).Some? && row.json == ToProjection(e)
    ensures Reread(c, row).Some? <==> Readable(e.confidence)
    ensures Reread(c, row).Some? ==> HasTerms(Reread(c, row).value, e, row.status)
  {
    hide SchemaValid, SigHex, Reread, Hex, Fingerprint, ToProjection, Readable;
    RereadView(c, row, e);
  }
}
