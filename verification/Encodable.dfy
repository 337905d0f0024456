/** Which envelopes have an encoding: those whose integers and lengths fit 64 bits. */
module Encodable {
  import opened Base
  import opened Cbor
  import opened CborTheorems
  import opened Schema
  import opened Attest
  import opened Threshold
  import opened Envelope

  // ----- A small record encodes exactly when its fields do -----

  lemma {:induction false} EntriesEncode(es: seq<Entry>)
    requires forall i :: 0 <= i < |es| ==> Encode(es[i].key).Some? && Encode(es[i].val).Some?
    ensures EncodeEntries(es).Some?
    ensures forall i :: 0 <= i < |es| ==> Some(EncodeEntries(es).value[i].k) == Encode(es[i].key)
  {
    hide Encode;
    if es != [] {
      EntriesEncode(es[1..]);
      EntryEncodes(es[0]);
      assert forall i :: 0 < i < |es| ==> es[i] == es[1..][i - 1];
    }
  }

  lemma {:induction false} EntryEncodes(e: Entry)
    requires Encode(e.key).Some? && Encode(e.val).Some?
    ensures EncodeEntry(e).Some? && Some(EncodeEntry(e).value.k) == Encode(e.key)
  {
    hide Encode;
  }

  lemma {:induction false} KeysApart(ps: seq<Keyed<Bytes>>)
    requires DistinctKeys(ps)
    ensures AllDistinct(ps)
  {
    if ps != [] { KeysApart(ps[1..]); }
  }

  lemma {:induction false} RecordEncodes(keys: seq<Value>, vals: seq<Option<Value>>)
    requires |keys| == |vals| < 24 && Names(keys)
    requires forall i :: 0 <= i < |vals| && vals[i].Some? ==> Encode(vals[i].value).Some?
    ensures Encode(Map(Fields(keys, vals))).Some?
  {
    var es := Fields(keys, vals);
    FieldsShort(keys, vals);
    FieldsHave(keys, vals);
    hide Encode, Fields, Same;
    forall i | 0 <= i < |es| ensures Encode(es[i].key).Some? && Encode(es[i].val).Some? {
      assert es[i].key in keys;
      NameEncodes(es[i].key);
    }
    EntriesEncode(es);
    var ps := EncodeEntries(es).value;
    forall i, j | 0 <= i < j < |ps| ensures ps[i].k != ps[j].k {
      assert es[i].key in keys && es[j].key in keys;
      EncodeInjective(es[i].key, es[j].key);
      SameText(es[i].key, es[j].key);
    }
    KeysApart(ps);
    MapEncodes(es);
  }

  lemma {:induction false} MapEncodes(es: seq<Entry>)
    requires |es| < 24 && EncodeEntries(es).Some? && AllDistinct(EncodeEntries(es).value)
    ensures Encode(Map(es)).Some?
  {}

  lemma {:induction false} FieldsShort(keys: seq<Value>, vals: seq<Option<Value>>)
    requires |keys| == |vals|
    requires forall i :: 0 <= i < |vals| && vals[i].Some? ==> Encode(vals[i].value).Some?
    ensures |Fields(keys, vals)| <= |keys|
    ensures forall i :: 0 <= i < |Fields(keys, vals)| ==> Encode(Fields(keys, vals)[i].val).Some?
  {
    hide Encode;
    if keys != [] { FieldsShort(keys[1..], vals[1..]); }
  }

  // An author-only signature set always encodes.
  lemma {:induction false} AuthorSetEncodes(s: SignatureSet)
    requires ValidSigSet(s) && s.attestors == [] && s.policy.None? && s.author.role.None?
    ensures Encode(SigSetMap(s)).Some?
  {
    KeysAreNames();
    BytesEncode(s.author.publicKey);
    BytesEncode(s.author.signature);
    hide Encode, Names, Fields, Key;
    RecordEncodes(ATTESTATION_KEYS, AttestationFields(s.author));
    RecordEncodes(SIGSET_KEYS, SigSetFields(s));
  }

  lemma {:induction false} BytesEncode(b: Bytes)
    requires |b| < 0x10000
    ensures Encode(Bstr(b)).Some?
  {}

  lemma {:induction false} RecordEncodesIff(keys: seq<Value>, vals: seq<Option<Value>>)
    requires |keys| == |vals| < 24 && Names(keys)
    ensures Encode(Map(Fields(keys, vals))).Some? <==> AllEncode(vals)
  {
    hide Encode, Fields, EncodeEntries;
    if Encode(Map(Fields(keys, vals))).Some? {
      EncodeMap(Fields(keys, vals));
      EntriesSome(Fields(keys, vals));
      FieldsHave(keys, vals);
      forall i | 0 <= i < |vals| && vals[i].Some? ensures Encode(vals[i].value).Some? {
        FieldEncodes(Fields(keys, vals), keys[i]);
      }
    }
    if AllEncode(vals) { RecordEncodes(keys, vals); }
  }

  ghost predicate AllEncode(vals: seq<Option<Value>>) {
    forall i :: 0 <= i < |vals| && vals[i].Some? ==> Encode(vals[i].value).Some?
  }

  lemma {:induction false} FieldEncodes(es: seq<Entry>, k: Value)
    requires TextKeyed(es) && Get(es, k).Some?
    requires forall i :: 0 <= i < |es| ==> EncodeEntry(es[i]).Some?
    ensures Encode(Get(es, k).value).Some?
  {
    hide Encode, Get;
    GetMember(es, k);
    var i :| 0 <= i < |es| && es[i] == Entry(k, Get(es, k).value);
    assert EncodeEntry(es[i]).Some?;
  }

  // ----- The envelope -----

  // A length or a natural number that a head can carry.
  predicate InHead(n: int) {
    n <= UINT64_MAX
  }

  predicate InSignedHead(n: int) {
    -UINT64_MAX - 1 <= n <= UINT64_MAX
  }

  predicate ConfFits(x: Confidence) {
    && InHead(|x.methodName|)
    && (x.interval.Some? ==> InSignedHead(x.interval.value.loExp) && InSignedHead(x.interval.value.hiExp))
  }

  predicate TextFits(x: Option<Text>) {
    x.Some? ==> InHead(|x.value|)
  }

  lemma {:induction false} IntEncodes(n: int)
    ensures Encode(Int(n)).Some? <==> InSignedHead(n)
  {}

  lemma {:induction false} TextEncodes(t: Text)
    ensures Encode(Tstr(t)).Some? <==> InHead(|t|)
  {}

  lemma {:induction false} ArrEncodes(items: seq<Value>)
    ensures Encode(Arr(items)).Some? <==> InHead(|items|) && forall i :: 0 <= i < |items| ==> Encode(items[i]).Some?
  {
    ItemsSome(items);
  }

  lemma {:induction false} PairEncodes(m: int, e: int)
    requires -MANTISSA_ABS_MAX <= m <= MANTISSA_ABS_MAX
    ensures Encode(Arr([Int(m), Int(e)])).Some? <==> InSignedHead(e)
  {
    hide Encode;
    var items := [Int(m), Int(e)];
    ArrEncodes(items);
    IntEncodes(m);
    IntEncodes(e);
    assert items[0] == Int(m) && items[1] == Int(e);
  }

  lemma {:induction false} IntervalEncodes(iv: Interval)
    requires -MANTISSA_ABS_MAX <= iv.loMantissa <= MANTISSA_ABS_MAX
    requires -MANTISSA_ABS_MAX <= iv.hiMantissa <= MANTISSA_ABS_MAX
    ensures Encode(IntervalValue(iv)).Some? <==> InSignedHead(iv.loExp) && InSignedHead(iv.hiExp)
  {
    hide Encode;
    var items := [Arr([Int(iv.loMantissa), Int(iv.loExp)]), Arr([Int(iv.hiMantissa), Int(iv.hiExp)])];
    ArrEncodes(items);
    PairEncodes(iv.loMantissa, iv.loExp);
    PairEncodes(iv.hiMantissa, iv.hiExp);
    assert items[0] == Arr([Int(iv.loMantissa), Int(iv.loExp)]) && items[1] == Arr([Int(iv.hiMantissa), Int(iv.hiExp)]);
  }

  lemma {:induction false} ConfEncodes(x: Confidence)
    requires ValidConf(x)
    ensures Encode(ConfMap(x)).Some? <==> ConfFits(x)
  {
    OtherNames();
    hide Encode, Names, Fields, Key, IntervalValue, InSignedHead, InHead;
    var fs := ConfFields(x);
    RecordEncodesIff(CONF_KEYS, fs);
    TextEncodes(x.methodName);
    SmallInt(x.valuePpm);
    SmallInt(x.alphaPpm);
    if x.interval.Some? { IntervalEncodes(x.interval.value); }
    assert AllEncode(fs) <==> Encode(fs[0].value).Some? && (fs[3].Some? ==> Encode(fs[3].value).Some?);
  }

  lemma {:induction false} SmallInt(n: int)
    requires 0 <= n <= US_MAX
    ensures Encode(Int(n)).Some?
  {}

  lemma {:induction false} StatusEncodes(s: Status)
    ensures Encode(StatusText(s)).Some?
  {
    StatusLength(s);
    hide StatusText, Encode;
    TextEncodes(StatusText(s).text);
  }

  lemma {:induction false} StatusLength(s: Status)
    ensures StatusText(s).Tstr? && |StatusText(s).text| <= 7
  {}

  lemma {:induction false} ValEncodes(w: Validity)
    requires ValidWindow(w)
    ensures Encode(ValMap(w)).Some? <==> TextFits(w.monitor)
  {
    OtherNames();
    hide Encode, Names, Fields, Key, StatusText, InHead;
    var fs := ValFields(w);
    RecordEncodesIff(VAL_KEYS, fs);
    SmallInt(w.issuedAt);
    SmallInt(w.expiresAt);
    StatusEncodes(w.status);
    if w.monitor.Some? { TextEncodes(w.monitor.value); }
    assert AllEncode(fs) <==> (fs[3].Some? ==> Encode(fs[3].value).Some?);
  }

  lemma {:induction false} ParentsEncode(ps: seq<Bytes>)
    requires forall i :: 0 <= i < |ps| ==> |ps[i]| == 16
    ensures Encode(Arr(ParentValues(ps))).Some? <==> InHead(|ps|)
  {
    hide Encode, InHead;
    var items := ParentValues(ps);
    ArrEncodes(items);
    forall i | 0 <= i < |items| ensures Encode(items[i]).Some? { BytesEncode(ps[i]); }
  }

  predicate EnvelopeFits(e: Dac) {
    && InHead(|e.kind|) && InHead(|e.producerId|) && InHead(|e.parents|) && ConfFits(e.confidence)
    && TextFits(e.validity.monitor) && (e.ext.Some? ==> Encode(e.ext.value).Some?)
  }

  // A schema-valid envelope encodes exactly when its texts and its parent list are no longer than a head can
  // say, its interval exponents fit it, and ext, if there is one, encodes.
  lemma {:induction false} EnvelopeEncodes(e: Dac)
    requires SchemaValid(e)
    ensures Encode(ToMap(e)).Some? <==> EnvelopeFits(e)
  {
    EnvelopeNames();
    hide Encode, Names, Fields, Key, ConfMap, ValMap, ParentValues, InHead, ConfFits, TextFits, ValidConf,
      ValidWindow, IsExt, Less;
    var fs := EnvelopeFields(e);
    RecordEncodesIff(ENVELOPE_KEYS, fs);
    SmallInt(1); SmallInt(e.classification); TrueEncodes(e.requiresHitl);
    BytesEncode(e.claimId); BytesEncode(e.payloadHash); BytesEncode(e.producerPk); BytesEncode(e.prev);
    TextEncodes(e.kind);
    TextEncodes(e.producerId);
    ParentsEncode(e.parents);
    ConfEncodes(e.confidence);
    ValEncodes(e.validity);
    SixDecide(fs);
  }

  lemma {:induction false} TrueEncodes(b: bool)
    ensures Encode(Bool(b)).Some?
  {}

  // All fields of an envelope but these always encode.
  lemma {:induction false} SixDecide(fs: seq<Option<Value>>)
    requires |fs| == 13 && (forall i :: 0 <= i < 12 ==> fs[i].Some?)
    requires Encode(fs[0].value).Some? && Encode(fs[1].value).Some? && Encode(fs[3].value).Some?
    requires Encode(fs[5].value).Some? && Encode(fs[9].value).Some? && Encode(fs[10].value).Some?
      && Encode(fs[11].value).Some?
    ensures AllEncode(fs) <==>
      && Encode(fs[2].value).Some? && Encode(fs[4].value).Some? && Encode(fs[6].value).Some?
      && Encode(fs[7].value).Some? && Encode(fs[8].value).Some? && (fs[12].Some? ==> Encode(fs[12].value).Some?)
  {
    hide Encode;
  }

  // ----- The signature set -----

  predicate SigSetFits(s: SignatureSet) {
    && TextFits(s.author.role)
    && InHead(|s.attestors|) && (forall i :: 0 <= i < |s.attestors| ==> TextFits(s.attestors[i].role))
    && (s.policy.Some? ==> InHead(s.policy.value.required) && InHead(s.policy.value.rosterSize))
  }

  lemma {:induction false} AttestationEncodes(a: Attestation)
    requires ValidAttestation(a)
    ensures Encode(AttestationMap(a)).Some? <==> TextFits(a.role)
  {
    KeysAreNames();
    hide Encode, Names, Fields, Key, InHead;
    var fs := AttestationFields(a);
    RecordEncodesIff(ATTESTATION_KEYS, fs);
    BytesEncode(a.publicKey);
    BytesEncode(a.signature);
    if a.role.Some? { TextEncodes(a.role.value); }
    assert AllEncode(fs) <==> (fs[2].Some? ==> Encode(fs[2].value).Some?);
  }

  lemma {:induction false} PolicyEncodes(p: Policy)
    requires ValidPolicy(p)
    ensures Encode(PolicyMap(p)).Some? <==> InHead(p.required) && InHead(p.rosterSize)
  {
    KeysAreNames();
    hide Encode, Names, Fields, Key;
    var fs := PolicyFields(p);
    RecordEncodesIff(POLICY_KEYS, fs);
    IntEncodes(p.required);
    IntEncodes(p.rosterSize);
    if p.rosterHash.Some? { BytesEncode(p.rosterHash.value); }
    assert AllEncode(fs) <==> Encode(fs[0].value).Some? && Encode(fs[1].value).Some?;
  }

  lemma {:induction false} AttestorsEncode(ats: seq<Attestation>)
    requires forall i :: 0 <= i < |ats| ==> ValidAttestation(ats[i])
    ensures Encode(Arr(AttestationMaps(InOrder(ats)))).Some? <==>
      InHead(|ats|) && forall i :: 0 <= i < |ats| ==> TextFits(ats[i].role)
  {
    var sorted := InOrder(ats);
    hide Encode, AttestationMap, InOrder, InHead, TextFits, ValidAttestation, Less;
    InOrderProps(ats);
    InOrderBag(ats);
    ArrEncodes(AttestationMaps(sorted));
    forall i | 0 <= i < |sorted| ensures Encode(AttestationMaps(sorted)[i]).Some? <==> TextFits(sorted[i].role) {
      AttestationEncodes(sorted[i]);
    }
    forall i | 0 <= i < |ats| ensures ats[i] in sorted { assert ats[i] in multiset(sorted); }
    SameRoles(ats, sorted);
    SameRoles(sorted, ats);
  }

  lemma {:induction false} SameRoles(a: seq<Attestation>, b: seq<Attestation>)
    requires forall i :: 0 <= i < |a| ==> a[i] in b
    ensures (forall i :: 0 <= i < |b| ==> TextFits(b[i].role)) ==> forall i :: 0 <= i < |a| ==> TextFits(a[i].role)
  {
    hide TextFits;
    if forall i :: 0 <= i < |b| ==> TextFits(b[i].role) {
      forall i | 0 <= i < |a| ensures TextFits(a[i].role) { var j :| 0 <= j < |b| && b[j] == a[i]; }
    }
  }

  // A valid set encodes exactly when its roles, its attestor list and its policy's numbers fit 64-bit heads.
  lemma {:induction false} SigSetEncodes(s: SignatureSet)
    requires ValidSigSet(s)
    ensures Encode(SigSetMap(s)).Some? <==> SigSetFits(s)
  {
    KeysAreNames();
    hide Encode, Names, Fields, Key, AttestationMap, AttestationMaps, PolicyMap, InOrder, InHead, TextFits,
      ValidAttestation, ValidPolicy, DifferentKeys;
    var fs := SigSetFields(s);
    RecordEncodesIff(SIGSET_KEYS, fs);
    AttestationEncodes(s.author);
    AttestorsEncode(s.attestors);
    ZeroFits();
    if s.policy.Some? { PolicyEncodes(s.policy.value); }
    assert AllEncode(fs) <==>
      && Encode(fs[0].value).Some?
      && (fs[1].Some? ==> Encode(fs[1].value).Some?)
      && (fs[2].Some? ==> Encode(fs[2].value).Some?);
  }

  lemma {:induction false} ZeroFits()
    ensures InHead(0)
  {}

  // The two-field map of the wire form.
  lemma {:induction false} PairMapEncodes(a: Value, b: Value)
    ensures Encode(Map(Fields(WIRE_KEYS, [Some(a), Some(b)]))).Some? <==> Encode(a).Some? && Encode(b).Some?
  {
    OtherNames();
    hide Encode, Names, Fields, Key;
    var fs := [Some(a), Some(b)];
    RecordEncodesIff(WIRE_KEYS, fs);
    assert fs[0] == Some(a) && fs[1] == Some(b);
  }
}
