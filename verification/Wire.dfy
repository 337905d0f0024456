/** The wire form of a signed envelope, and its round trips in both directions. */
module Wire {
  import opened Base
  import opened Cbor
  import opened CborLaws
  import opened CborTheorems
  import opened Schema
  import opened Attest
  import opened Envelope
  import opened Encodable

  function WireFields(e: Dac): (r: seq<Option<Value>>)
    requires e.signatures.Some?
    ensures |r| == 2
  {
    [Some(ToMap(e)), Some(SigSetMap(e.signatures.value))]
  }

  function WireMap(e: Dac): Value
    requires e.signatures.Some?
  {
    Map(Fields(WIRE_KEYS, WireFields(e)))
  }

  function EncodeEnvelope(e: Dac): Option<Bytes> {
    if e.signatures.None? then None else Encode(WireMap(e))
  }

  function ReadWire(v: Value): Option<Dac> {
    if !v.Map? || !Only(v.entries, WIRE_KEYS) then None
    else
      var f := Project(v.entries, WIRE_KEYS);
      if f[0].None? || f[1].None? then None
      else
        var e, s := FromMap(f[0].value), ReadSignatureSet(f[1].value);
        if e.None? || s.None? then None else Some(e.value.(signatures := s))
  }

  function DecodeEnvelope(data: Bytes): Option<Dac> {
    match Decode(data)
    case None => None
    case Some(v) => ReadWire(v)
  }

  // ----- Written envelopes are proper dicts -----

  ghost predicate AllProper(vals: seq<Option<Value>>) {
    forall i :: 0 <= i < |vals| && vals[i].Some? ==> NoClash(vals[i].value)
  }

  ghost predicate AllScalarKeys(vals: seq<Option<Value>>) {
    forall i :: 0 <= i < |vals| && vals[i].Some? ==> ScalarKeys(vals[i].value)
  }

  lemma {:induction false} FieldsProper(keys: seq<Value>, vals: seq<Option<Value>>)
    requires |keys| == |vals| && Names(keys) && AllProper(vals)
    ensures NoClash(Map(Fields(keys, vals)))
    ensures ScalarKeys(Map(Fields(keys, vals))) <==> AllScalarKeys(vals)
  {
    FieldsHave(keys, vals);
    FieldItems(keys, vals);
    hide Fields, Names, AllProper, AllScalarKeys, Get, Only;
  }

  lemma {:induction false} FieldItems(keys: seq<Value>, vals: seq<Option<Value>>)
    requires |keys| == |vals| && AllProper(vals)
    ensures forall i :: 0 <= i < |Fields(keys, vals)| ==> NoClash(Fields(keys, vals)[i].val)
    ensures (forall i :: 0 <= i < |Fields(keys, vals)| ==> ScalarKeys(Fields(keys, vals)[i].val))
      <==> AllScalarKeys(vals)
  {
    hide NoClash, ScalarKeys;
    if keys != [] {
      FieldItems(keys[1..], vals[1..]);
      var fs, rest := Fields(keys, vals), Fields(keys[1..], vals[1..]);
      assert AllScalarKeys(vals) <==> AllScalarKeys(vals[1..]) && (vals[0].Some? ==> ScalarKeys(vals[0].value)) by {
        assert forall i :: 0 < i < |vals| ==> vals[i] == vals[1..][i - 1];
      }
      if vals[0].Some? {
        assert fs == [Entry(keys[0], vals[0].value)] + rest;
        forall i | 0 <= i < |rest| ensures rest[i] == fs[i + 1] {}
        if forall i :: 0 <= i < |fs| ==> ScalarKeys(fs[i].val) { assert ScalarKeys(fs[0].val); }
      }
    }
  }

  // A value all of whose parts are scalars or arrays.
  predicate Mapless(v: Value) {
    match v
    case Map(_) => false
    case Arr(items) => forall i :: 0 <= i < |items| ==> Mapless(items[i])
    case _ => true
  }

  lemma {:induction false} MaplessProper(v: Value)
    requires Mapless(v)
    ensures NoClash(v) && ScalarKeys(v)
  {
    match v
    case Arr(items) =>
      forall i | 0 <= i < |items| ensures NoClash(items[i]) && ScalarKeys(items[i]) { MaplessProper(items[i]); }
    case _ =>
  }

  lemma {:induction false} RecordProper(keys: seq<Value>, vals: seq<Option<Value>>)
    requires |keys| == |vals| && Names(keys)
    requires forall i :: 0 <= i < |vals| && vals[i].Some? ==> Mapless(vals[i].value)
    ensures NoClash(Map(Fields(keys, vals))) && ScalarKeys(Map(Fields(keys, vals)))
  {
    forall i | 0 <= i < |vals| && vals[i].Some? ensures NoClash(vals[i].value) && ScalarKeys(vals[i].value) {
      MaplessProper(vals[i].value);
    }
    hide Fields, Names, NoClash, ScalarKeys, Mapless;
    FieldsProper(keys, vals);
  }

  lemma {:induction false} MaplessPair(m: int, e: int)
    ensures Mapless(Arr([Int(m), Int(e)]))
  {}

  lemma {:induction false} ConfProper(c: Confidence)
    ensures NoClash(ConfMap(c)) && ScalarKeys(ConfMap(c))
  {
    OtherNames();
    hide Names;
    if c.interval.Some? {
      var iv := c.interval.value;
      MaplessPair(iv.loMantissa, iv.loExp);
      MaplessPair(iv.hiMantissa, iv.hiExp);
      assert Mapless(IntervalValue(iv));
    }
    hide IntervalValue, Fields, NoClash, ScalarKeys;
    assert forall i :: 0 <= i < 4 && ConfFields(c)[i].Some? ==> Mapless(ConfFields(c)[i].value);
    RecordProper(CONF_KEYS, ConfFields(c));
  }

  lemma {:induction false} ValProper(w: Validity)
    ensures NoClash(ValMap(w)) && ScalarKeys(ValMap(w))
  {
    OtherNames();
    StatusIsText(w.status);
    hide Names, StatusText;
    assert forall i :: 0 <= i < 4 && ValFields(w)[i].Some? ==> Mapless(ValFields(w)[i].value);
    RecordProper(VAL_KEYS, ValFields(w));
  }

  lemma {:induction false} AttestationProper(a: Attestation)
    ensures NoClash(AttestationMap(a)) && ScalarKeys(AttestationMap(a))
  {
    KeysAreNames();
    assert forall i :: 0 <= i < 3 && AttestationFields(a)[i].Some? ==> Mapless(AttestationFields(a)[i].value);
    hide Names;
    RecordProper(ATTESTATION_KEYS, AttestationFields(a));
  }

  lemma {:induction false} PolicyProper(p: Policy)
    ensures NoClash(PolicyMap(p)) && ScalarKeys(PolicyMap(p))
  {
    KeysAreNames();
    assert forall i :: 0 <= i < 3 && PolicyFields(p)[i].Some? ==> Mapless(PolicyFields(p)[i].value);
    hide Names;
    RecordProper(POLICY_KEYS, PolicyFields(p));
  }

  lemma {:induction false} SigSetProper(s: SignatureSet)
    ensures NoClash(SigSetMap(s)) && ScalarKeys(SigSetMap(s))
  {
    KeysAreNames();
    AttestationProper(s.author);
    if s.policy.Some? { PolicyProper(s.policy.value); }
    var ats := InOrder(s.attestors);
    forall i | 0 <= i < |ats| ensures NoClash(AttestationMaps(ats)[i]) && ScalarKeys(AttestationMaps(ats)[i]) {
      AttestationProper(ats[i]);
    }
    ArrProper(AttestationMaps(ats));
    var fs := SigSetFields(s);
    hide Names, Fields, NoClash, ScalarKeys, AttestationMap, PolicyMap, AttestationMaps, InOrder;
    assert forall i :: 0 <= i < 3 && fs[i].Some? ==> NoClash(fs[i].value) && ScalarKeys(fs[i].value);
    FieldsProper(SIGSET_KEYS, fs);
  }

  lemma {:induction false} ArrProper(items: seq<Value>)
    requires forall i :: 0 <= i < |items| ==> NoClash(items[i]) && ScalarKeys(items[i])
    ensures NoClash(Arr(items)) && ScalarKeys(Arr(items))
  {}

  // The only part of an envelope that can hold foreign dicts is ext.
  lemma {:induction false} EnvelopeProper(e: Dac)
    requires e.ext.Some? ==> NoClash(e.ext.value)
    ensures NoClash(ToMap(e))
    ensures ScalarKeys(ToMap(e)) <==> (e.ext.Some? ==> ScalarKeys(e.ext.value))
  {
    hide Names, Fields, ConfMap, ValMap, ParentValues, AllProper, AllScalarKeys, NoClash, ScalarKeys, Key,
      EnvelopeFields;
    EnvelopeNames();
    FieldsFine(e);
    LastDecides(EnvelopeFields(e));
    FieldsProper(ENVELOPE_KEYS, EnvelopeFields(e));
  }

  lemma {:induction false} FieldsFine(e: Dac)
    ensures var fs := EnvelopeFields(e);
      && Fine(fs[0]) && Fine(fs[1]) && Fine(fs[2]) && Fine(fs[3]) && Fine(fs[4]) && Fine(fs[5]) && Fine(fs[6])
      && Fine(fs[7]) && Fine(fs[8]) && Fine(fs[9]) && Fine(fs[10]) && Fine(fs[11]) && fs[12] == e.ext
  {
    hide ConfMap, ValMap, ParentValues, NoClash, ScalarKeys;
    ConfProper(e.confidence);
    ValProper(e.validity);
    ParentsProper(e.parents);
    FineScalar(Int(1)); FineScalar(Bstr(e.claimId)); FineScalar(Tstr(e.kind)); FineScalar(Bstr(e.payloadHash));
    FineScalar(Tstr(e.producerId)); FineScalar(Bstr(e.producerPk)); FineScalar(Int(e.classification));
    FineScalar(Bool(e.requiresHitl)); FineScalar(Bstr(e.prev));
  }

  lemma {:induction false} ParentsProper(ps: seq<Bytes>)
    ensures Fine(Some(Arr(ParentValues(ps))))
  {
    MaplessProper(Arr(ParentValues(ps)));
  }

  ghost predicate Fine(x: Option<Value>) {
    x.Some? && NoClash(x.value) && ScalarKeys(x.value)
  }

  lemma {:induction false} FineScalar(v: Value)
    requires Scalar(v)
    ensures Fine(Some(v))
  {}

  lemma {:induction false} LastDecides(fs: seq<Option<Value>>)
    requires |fs| == 13 && (fs[12].Some? ==> NoClash(fs[12].value))
    requires Fine(fs[0]) && Fine(fs[1]) && Fine(fs[2]) && Fine(fs[3]) && Fine(fs[4]) && Fine(fs[5])
    requires Fine(fs[6]) && Fine(fs[7]) && Fine(fs[8]) && Fine(fs[9]) && Fine(fs[10]) && Fine(fs[11])
    ensures AllProper(fs) && (AllScalarKeys(fs) <==> (fs[12].Some? ==> ScalarKeys(fs[12].value)))
  {
    hide NoClash, ScalarKeys;
  }

  lemma {:induction false} WireProper(e: Dac)
    requires e.signatures.Some? && (e.ext.Some? ==> NoClash(e.ext.value))
    ensures NoClash(WireMap(e))
    ensures ScalarKeys(WireMap(e)) <==> (e.ext.Some? ==> ScalarKeys(e.ext.value))
  {
    OtherNames();
    EnvelopeProper(e);
    SigSetProper(e.signatures.value);
    hide Names, Fields, NoClash, ScalarKeys, ToMap, SigSetMap;
    TwoDecide(WireFields(e));
    hide AllProper, AllScalarKeys;
    FieldsProper(WIRE_KEYS, WireFields(e));
  }

  lemma {:induction false} TwoDecide(fs: seq<Option<Value>>)
    requires |fs| == 2 && fs[0].Some? && fs[1].Some? && NoClash(fs[0].value) && NoClash(fs[1].value)
    requires ScalarKeys(fs[1].value)
    ensures AllProper(fs) && (AllScalarKeys(fs) <==> ScalarKeys(fs[0].value))
  {}

  // ----- decode(encode(e)) -----

  function ReadBack(e: Dac): Option<Dac>
    requires e.signatures.Some?
  {
    if e.ext.Some? && !ScalarKeys(e.ext.value) then None
    else Some(e.(ext := NormalField(e.ext), signatures := Some(Ordered(e.signatures.value))))
  }

  // A signed, schema-valid envelope has a wire form exactly when all its lengths and integers fit. It is decoded
  // to itself, its attestors in key order and the items of ext in canonical order; or rejected, when some
  // dict inside ext has a tuple as key.
  lemma {:induction false} EnvelopeRoundTrip(e: Dac)
    requires SchemaValid(e) && e.signatures.Some? && ValidSigSet(e.signatures.value)
    requires e.ext.Some? ==> NoClash(e.ext.value)
    ensures EncodeEnvelope(e).Some? <==> EnvelopeFits(e) && SigSetFits(e.signatures.value)
    ensures EncodeEnvelope(e).Some? ==> DecodeEnvelope(EncodeEnvelope(e).value) == ReadBack(e)
  {
    hide SchemaValid, ValidSigSet, NoClash, ScalarKeys, Encode, Decode, WireMap, Normal, ReadWire, Ordered,
      EnvelopeFits, SigSetFits;
    WireEncodes(e);
    WireProper(e);
    if EncodeEnvelope(e).Some? { EncodeDecode(WireMap(e)); }
    WireReads(e);
  }

  lemma {:induction false} WireEncodes(e: Dac)
    requires SchemaValid(e) && e.signatures.Some? && ValidSigSet(e.signatures.value)
    ensures Encode(WireMap(e)).Some? <==> EnvelopeFits(e) && SigSetFits(e.signatures.value)
  {
    hide SchemaValid, ValidSigSet, Encode, Fields, ToMap, SigSetMap, EnvelopeFits, SigSetFits, Key;
    PairMapEncodes(ToMap(e), SigSetMap(e.signatures.value));
    EnvelopeEncodes(e);
    SigSetEncodes(e.signatures.value);
  }

  lemma {:induction false} WireReads(e: Dac)
    requires SchemaValid(e) && e.signatures.Some? && ValidSigSet(e.signatures.value)
    ensures ReadWire(Normal(WireMap(e)))
         == Some(e.(ext := NormalField(e.ext), signatures := Some(Ordered(e.signatures.value))))
  {
    var a, b := ToMap(e), SigSetMap(e.signatures.value);
    hide Normal, Key, FromMap, ReadSignatureSet, SchemaValid, ValidSigSet, ToMap, SigSetMap, Ordered, Names, Only,
      Project, Fields, ReadWire;
    EnvelopeReads(e, Normal(a), true);
    SigSetReads(e.signatures.value, Normal(b));
    WireFieldsNormal(a, b);
    ReadWireFrom(Normal(WireMap(e)), Normal(a), Normal(b));
  }

  lemma {:induction false} ReadWireFrom(v: Value, x: Value, y: Value)
    requires v.Map? && Only(v.entries, WIRE_KEYS) && Project(v.entries, WIRE_KEYS) == [Some(x), Some(y)]
    requires FromMap(x).Some? && ReadSignatureSet(y).Some?
    ensures ReadWire(v) == Some(FromMap(x).value.(signatures := ReadSignatureSet(y)))
  {
    hide FromMap, ReadSignatureSet, Only, Project, Key;
  }

  lemma {:induction false} WireFieldsNormal(a: Value, b: Value)
    ensures var v := Normal(Map(Fields(WIRE_KEYS, [Some(a), Some(b)])));
      v.Map? && Only(v.entries, WIRE_KEYS) && Project(v.entries, WIRE_KEYS) == [Some(Normal(a)), Some(Normal(b))]
  {
    OtherNames();
    var fs := [Some(a), Some(b)];
    hide Names, Only, Fields, Project, Key, Normal;
    RecordProject(WIRE_KEYS, fs);
    assert NormalAll(fs) == [Some(Normal(a)), Some(Normal(b))];
  }

  // ----- encode(decode(data)) -----

  // The accepted bytes are plain: no dict on the wire has clashing keys, the version is the integer 1,
  // and no optional key carries an explicit null.
  predicate PlainWire(data: Bytes)
    requires DecodeEnvelope(data).Some?
  {
    var v := Decode(data).value;
    && NoClash(Parse(data, true).value)
    && PlainEnvelope(Get(v.entries, E).value)
    && NullFree(Get(v.entries, SIG).value)
  }

  lemma {:induction false} ReadWireMeans(v: Value, e: Dac)
    requires ReadWire(v) == Some(e)
    ensures v.Map? && Only(v.entries, WIRE_KEYS)
    ensures Get(v.entries, E).Some? && FromMap(Get(v.entries, E).value) == Some(e.(signatures := None))
    ensures Get(v.entries, SIG).Some? && ReadSignatureSet(Get(v.entries, SIG).value) == e.signatures
    ensures e.signatures.Some?
    ensures Project(v.entries, WIRE_KEYS) == [Get(v.entries, E), Get(v.entries, SIG)]
  {
    hide FromMap, ReadSignatureSet, Get, Only;
    assert Project(v.entries, WIRE_KEYS)[0] == Get(v.entries, E);
    assert Project(v.entries, WIRE_KEYS)[1] == Get(v.entries, SIG);
    FromMapUnsigned(Get(v.entries, E));
  }

  lemma {:induction false} FromMapUnsigned(x: Option<Value>)
    ensures x.Some? && FromMap(x.value).Some? ==> FromMap(x.value).value.signatures.None?
  {}

  // A decoded envelope satisfies the schema and has a valid signature set in canonical order; it
  // re-encodes to the very bytes it was decoded from exactly when those bytes are plain.
  lemma {:induction false} EnvelopeCanonical(data: Bytes, e: Dac)
    requires DecodeEnvelope(data) == Some(e)
    requires NoClash(Parse(data, true).value)
    ensures SchemaValid(e) && e.signatures.Some? && ValidSigSet(e.signatures.value)
    ensures EncodeEnvelope(e) == Some(data) <==> PlainWire(data)
  {
    var v := Parse(data, true).value;
    hide Parse, ReadWire, FromMap, ReadSignatureSet, SchemaValid, ValidSigSet, NoClash, Encode, Normal, Collapse,
      WireMap, PlainEnvelope, NullFree, Get, Ordered;
    Canonical(data, v, [], true);
    assert data[..|data|] == data;
    CollapseFixed(v);
    ReadWireMeans(v, e);
    WireWritten(v, e);
    EncodeNormal(WireMap(e));
    if Encode(WireMap(e)) == Some(data) { NormalUnique(WireMap(e), v); }
  }

  lemma {:induction false} GetNoClash(es: seq<Entry>, k: Value)
    requires forall i :: 0 <= i < |es| ==> NoClash(es[i].val)
    ensures Get(es, k).Some? ==> NoClash(Get(es, k).value)
  {
    if es != [] { GetNoClash(es[1..], k); }
  }

  lemma {:induction false} EntriesNoClash(x: Value)
    requires x.Map? && NoClash(x)
    ensures forall i :: 0 <= i < |x.entries| ==> NoClash(x.entries[i].val)
  {}

  lemma {:induction false} ExtProper(x: Value, e: Dac)
    requires FromMap(x) == Some(e) && NoClash(x)
    ensures e.ext.Some? ==> NoClash(e.ext.value)
  {
    hide FromMap, Get, NoClash, Key;
    ReadsExt(x, e);
    EntriesNoClash(x);
    GetNoClash(x.entries, EXT);
  }

  lemma {:induction false} ReadsExt(x: Value, e: Dac)
    requires FromMap(x) == Some(e)
    ensures x.Map? && (e.ext.Some? ==> Get(x.entries, EXT) == e.ext)
  {
    hide Get, FromFields, Only, Key, IsExt, ParentValues;
    FromFieldsMeans(Project(x.entries, ENVELOPE_KEYS), e);
    assert Project(x.entries, ENVELOPE_KEYS)[12] == Get(x.entries, EXT);
  }

  // The same, for every accepted byte string: what is decoded encodes to the bytes it came from
  // exactly when those bytes are plain.
  lemma {:induction false} EnvelopeReencodes(data: Bytes, e: Dac)
    requires DecodeEnvelope(data) == Some(e)
    ensures EncodeEnvelope(e) == Some(data) <==> PlainWire(data)
  {
    if NoClash(Parse(data, true).value) {
      EnvelopeCanonical(data, e);
    } else {
      hide Parse, ReadWire, Encode, WireMap, NoClash;
      if EncodeEnvelope(e) == Some(data) { ReencodedNoClash(data, e); }
    }
  }

  // What the encoder writes for a decoded envelope has no clashing keys.
  lemma {:induction false} ReencodedNoClash(data: Bytes, e: Dac)
    requires DecodeEnvelope(data) == Some(e) && EncodeEnvelope(e) == Some(data)
    ensures NoClash(Parse(data, true).value)
  {
    var w := Collapse(Parse(data, true).value);
    hide Parse, ReadWire, FromMap, ReadSignatureSet, Encode, Normal, Collapse, WireMap, Get, ScalarKeys, NoClash;
    CollapseNoClash(Parse(data, true).value);
    ReadWireMeans(w, e);
    EntriesNoClash(w);
    GetNoClash(w.entries, E);
    ExtProper(Get(w.entries, E).value, e.(signatures := None));
    WireProper(e);
    AcceptedIffScalarKeys(WireMap(e), []);
    assert data + [] == data;
    NormalNoClash(WireMap(e));
  }

  lemma {:induction false} NormalUnique(a: Value, v: Value)
    requires Encode(a).Some? && Encode(a) == Encode(v) && Normal(v) == v
    ensures Normal(a) == v
  {
    hide Encode, Normal, Parse;
    RoundTrip(a, [], false);
    RoundTrip(v, [], false);
  }

  lemma {:induction false} WireWritten(v: Value, e: Dac)
    requires ReadWire(v) == Some(e) && Normal(v) == v && NoClash(v) && e.signatures.Some?
    requires v.Map? && Only(v.entries, WIRE_KEYS)
    requires Get(v.entries, E).Some? && FromMap(Get(v.entries, E).value) == Some(e.(signatures := None))
    requires Get(v.entries, SIG).Some? && ReadSignatureSet(Get(v.entries, SIG).value) == e.signatures
    requires Project(v.entries, WIRE_KEYS) == [Get(v.entries, E), Get(v.entries, SIG)]
    ensures SchemaValid(e) && ValidSigSet(e.signatures.value)
    ensures Normal(WireMap(e)) == v <==> PlainEnvelope(Get(v.entries, E).value) && NullFree(Get(v.entries, SIG).value)
  {
    OtherNames();
    RecordTextKeyed(v, WIRE_KEYS);
    NormalFields(v, E);
    NormalFields(v, SIG);
    var x, y, s := Get(v.entries, E).value, Get(v.entries, SIG).value, e.signatures.value;
    hide ReadWire, FromMap, ReadSignatureSet, ValidSigSet, NoClash, Normal, PlainEnvelope, NullFree, Get, Ordered,
      ToMap, SigSetMap, Names, Only, Project, TextKeyed, Fields, Key;
    EnvelopeWritten(x, e.(signatures := None));
    SameMapUnsigned(e);
    ValidWhateverSigned(e, None);
    SigSetWritten(y, s);
    RecordSame(v.entries, WIRE_KEYS, WireFields(e));
    TwoFields(ToMap(e), SigSetMap(s), x, y);
  }

  lemma {:induction false} SameMapUnsigned(e: Dac)
    ensures ToMap(e.(signatures := None)) == ToMap(e)
  {
    SameFieldsUnsigned(e);
    hide Fields, EnvelopeFields;
  }

  lemma {:induction false} ValidWhateverSigned(e: Dac, s: Option<SignatureSet>)
    ensures SchemaValid(e.(signatures := s)) <==> SchemaValid(e)
  {
    hide IsExt, ValidConf, ValidWindow, IdsAscending;
  }

  lemma {:induction false} SameFieldsUnsigned(e: Dac)
    ensures EnvelopeFields(e.(signatures := None)) == EnvelopeFields(e)
  {
    hide ConfMap, ValMap, ParentValues;
  }

  lemma {:induction false} TwoFields(a: Value, b: Value, x: Value, y: Value)
    ensures NormalAll([Some(a), Some(b)]) == [Some(x), Some(y)] <==> Normal(a) == x && Normal(b) == y
  {
    hide Normal;
    var n := NormalAll([Some(a), Some(b)]);
    assert n[0] == Some(Normal(a)) && n[1] == Some(Normal(b));
    if n == [Some(x), Some(y)] { assert n[0] == Some(x) && n[1] == Some(y); }
  }
}
