/** Which field stands under which key, every key written out: as it is written, and as it is read. */
module Spelling {
  import opened Base
  import opened Cbor
  import opened Schema
  import opened Attest
  import opened Envelope
  import opened Wire

  // An ASCII word as text.
  function Word(name: string): Value {
    if Plain(name) then Key(name) else Null
  }

  predicate Plain(name: string) {
    forall i :: 0 <= i < |name| ==> name[i] as int < 128
  }

  // The value under a key, where there is one.
  function At(v: Value, name: string): Option<Value> {
    if v.Map? then Get(v.entries, Word(name)) else None
  }

  lemma {:induction false} ShortWords()
    ensures Word("m") == M && Word("v") == V && Word("a") == A && Word("iv") == IV
    ensures Word("k") == K && Word("s") == S && Word("r") == R && Word("n") == N && Word("e") == E
  {
    hide Key;
  }

  lemma {:induction false} SetWords()
    ensures Word("at") == AT && Word("th") == TH && Word("roster") == ROSTER && Word("sig") == SIG
  {
    hide Key;
  }

  lemma {:induction false} WindowWords()
    ensures Word("iat") == IAT && Word("exp") == EXP && Word("st") == ST && Word("mon") == MON
  {
    hide Key;
  }

  lemma {:induction false} EnvelopeWords()
    ensures Word("v") == V && Word("id") == ID && Word("kind") == KIND && Word("ph") == PH && Word("pid") == PID
    ensures Word("pk") == PK && Word("par") == PAR && Word("conf") == CONF
  {
    hide Key;
  }

  lemma {:induction false} MoreEnvelopeWords()
    ensures Word("val") == VAL && Word("cls") == CLS && Word("hitl") == HITL && Word("prev") == PREV
      && Word("ext") == EXT
  {
    hide Key;
  }

  lemma {:induction false} StatusWords(s: Status)
    ensures StatusWord(s) == StatusText(s)
  {
    hide Key;
  }

  predicate IsMapOf(v: Value, keys: seq<Value>) {
    v.Map? && Only(v.entries, keys)
  }

  predicate IsNat(x: Option<Value>, most: int) {
    IsInt(x) && 0 <= x.value.i <= most
  }

  function OptionalText(x: Option<Value>): Option<Text> {
    if IsText(x) then Some(x.value.text) else None
  }

  // Missing, null or a text.
  predicate MaybeText(x: Option<Value>) {
    x.None? || x.value.Null? || x.value.Tstr?
  }

  // ----- Confidence: m, v, a, iv -----

  predicate SmallInt(n: int) {
    -9_223_372_036_854_775_807 <= n <= 9_223_372_036_854_775_807
  }

  // [[mantissa, exponent], [mantissa, exponent]], the mantissas in 64 signed bits.
  predicate IsInterval(v: Value, iv: Interval) {
    && v == Arr([Arr([Int(iv.loMantissa), Int(iv.loExp)]), Arr([Int(iv.hiMantissa), Int(iv.hiExp)])])
  }

  lemma {:induction false} ConfidenceWritten(x: Confidence)
    ensures var v := ConfMap(x);
      && IsMapOf(v, [Word("m"), Word("v"), Word("a"), Word("iv")])
      && At(v, "m") == Some(Tstr(x.methodName))
      && At(v, "v") == Some(Int(x.valuePpm))
      && At(v, "a") == Some(Int(x.alphaPpm))
      && (At(v, "iv").Some? <==> x.interval.Some?)
      && (x.interval.Some? ==> IsInterval(At(v, "iv").value, x.interval.value))
  {
    OtherNames();
    hide Word, Names, Fields, Key, Only, Project, Normal, NormalAll, Get;
    RecordReads(CONF_KEYS, ConfFields(x));
    ShortWords();
    FourKeys(M, V, A, IV);
  }

  lemma {:induction false} FourKeys(a: Value, b: Value, c: Value, d: Value)
    ensures var ks := [a, b, c, d]; ks[0] == a && ks[1] == b && ks[2] == c && ks[3] == d
  {}

  // What a confidence map has to look like.
  ghost predicate ConfidenceMap(v: Value) {
    && IsMapOf(v, [Word("m"), Word("v"), Word("a"), Word("iv")])
    && IsText(At(v, "m")) && IsNat(At(v, "v"), 1_000_000) && IsNat(At(v, "a"), 1_000_000)
    && (At(v, "iv").None? || At(v, "iv").value.Null? || exists iv ::
          IsInterval(At(v, "iv").value, iv) && SmallInt(iv.loMantissa) && SmallInt(iv.hiMantissa))
  }

  // It is accepted exactly then, and each field is what stands under its key.
  lemma {:induction false} ConfidenceRead(v: Value)
    ensures ReadConf(v).Some? <==> ConfidenceMap(v)
    ensures ReadConf(v).Some? ==>
      var x := ReadConf(v).value;
      && At(v, "m") == Some(Tstr(x.methodName)) && At(v, "v") == Some(Int(x.valuePpm))
        && At(v, "a") == Some(Int(x.alphaPpm))
      && (x.interval.Some? <==> At(v, "iv").Some? && !At(v, "iv").value.Null?)
      && (x.interval.Some? ==> IsInterval(At(v, "iv").value, x.interval.value))
  {
    hide Word, Key, Only, Get;
    if v.Map? {
      var f := Project(v.entries, CONF_KEYS);
      ShortWords();
      assert f[0] == At(v, "m") && f[1] == At(v, "v") && f[2] == At(v, "a") && f[3] == At(v, "iv");
      if f[3].Some? { IntervalRead(f[3].value); }
    }
  }

  lemma {:induction false} IntervalRead(v: Value)
    ensures ReadInterval(v).Some? <==>
      exists iv :: IsInterval(v, iv) && SmallInt(iv.loMantissa) && SmallInt(iv.hiMantissa)
    ensures ReadInterval(v).Some? ==> IsInterval(v, ReadInterval(v).value)
  {
    if ReadInterval(v).Some? { IntervalWritten(v); }
  }

  // ----- Validity: iat, exp, st, mon -----

  function StatusWord(s: Status): Value {
    match s
    case Valid => Word("VALID")
    case Stale => Word("STALE")
    case Revoked => Word("REVOKED")
  }

  lemma {:induction false} ValidityWritten(w: Validity)
    ensures var v := ValMap(w);
      && IsMapOf(v, [Word("iat"), Word("exp"), Word("st"), Word("mon")])
      && At(v, "iat") == Some(Int(w.issuedAt))
      && At(v, "exp") == Some(Int(w.expiresAt))
      && At(v, "st") == Some(StatusWord(w.status))
      && At(v, "mon") == OptText(w.monitor)
  {
    OtherNames();
    hide Word, Names, Fields, Key, Only, Project, Normal, NormalAll, Get;
    RecordReads(VAL_KEYS, ValFields(w));
    WindowWords();
    StatusWords(w.status);
    FourKeys(IAT, EXP, ST, MON);
  }

  ghost predicate ValidityMap(v: Value) {
    && IsMapOf(v, [Word("iat"), Word("exp"), Word("st"), Word("mon")])
    && IsNat(At(v, "iat"), 253_402_300_799_999_999) && IsNat(At(v, "exp"), 253_402_300_799_999_999)
    && At(v, "iat").value.i <= At(v, "exp").value.i
    && At(v, "st") in [Some(Word("VALID")), Some(Word("STALE")), Some(Word("REVOKED"))]
    && MaybeText(At(v, "mon"))
  }

  lemma {:induction false} ValidityRead(v: Value)
    ensures ReadVal(v).Some? <==> ValidityMap(v)
    ensures ReadVal(v).Some? ==>
      var w := ReadVal(v).value;
      && At(v, "iat") == Some(Int(w.issuedAt)) && At(v, "exp") == Some(Int(w.expiresAt))
      && At(v, "st") == Some(StatusWord(w.status)) && w.monitor == OptionalText(At(v, "mon"))
  {
    hide Word, Key, Only, Get;
    if v.Map? {
      var f := Project(v.entries, VAL_KEYS);
      WindowWords();
      StatusWords(Valid);
      StatusWords(Stale);
      StatusWords(Revoked);
      assert f[0] == At(v, "iat") && f[1] == At(v, "exp") && f[2] == At(v, "st") && f[3] == At(v, "mon");
    }
  }

  // ----- The envelope: thirteen keys -----

  ghost predicate EnvelopeKeysOnly(v: Value) {
    IsMapOf(v, [Word("v"), Word("id"), Word("kind"), Word("ph"), Word("pid"), Word("pk"), Word("par"), Word("conf"),
      Word("val"),
                Word("cls"), Word("hitl"), Word("prev"), Word("ext")])
  }

  lemma {:induction false} EnvelopeWrites(e: Dac)
    ensures var v := ToMap(e);
      && EnvelopeKeysOnly(v)
      && At(v, "v") == Some(Int(1)) && At(v, "id") == Some(Bstr(e.claimId)) && At(v, "kind") == Some(Tstr(e.kind))
      && At(v, "ph") == Some(Bstr(e.payloadHash)) && At(v, "pid") == Some(Tstr(e.producerId))
      && At(v, "pk") == Some(Bstr(e.producerPk)) && At(v, "par") == Some(Arr(ParentValues(e.parents)))
      && At(v, "conf") == Some(ConfMap(e.confidence)) && At(v, "val") == Some(ValMap(e.validity))
      && At(v, "cls") == Some(Int(e.classification)) && At(v, "hitl") == Some(Bool(e.requiresHitl))
      && At(v, "prev") == Some(Bstr(e.prev)) && At(v, "ext") == e.ext
  {
    EnvelopeNames();
    hide Word, Names, Fields, Key, Only, Project, Normal, NormalAll, Get, ConfMap, ValMap, ParentValues;
    EnvelopeWords();
    MoreEnvelopeWords();
    RecordReads(ENVELOPE_KEYS, EnvelopeFields(e));
    ThirteenFields(ToMap(e).entries, EnvelopeFields(e));
  }

  // The fields, one by one.
  lemma {:induction false} ThirteenFields(es: seq<Entry>, vals: seq<Option<Value>>)
    requires |vals| == 13 && forall i :: 0 <= i < 13 ==> Get(es, ENVELOPE_KEYS[i]) == vals[i]
    ensures Get(es, V) == vals[0] && Get(es, ID) == vals[1] && Get(es, KIND) == vals[2] && Get(es, PH) == vals[3]
    ensures Get(es, PID) == vals[4] && Get(es, PK) == vals[5] && Get(es, PAR) == vals[6] && Get(es, CONF) == vals[7]
    ensures Get(es, VAL) == vals[8] && Get(es, CLS) == vals[9] && Get(es, HITL) == vals[10] && Get(es, PREV) == vals[11]
    ensures Get(es, EXT) == vals[12]
  {
    hide Key, Get;
    var ks := ENVELOPE_KEYS;
    assert ks[0] == V && ks[1] == ID && ks[2] == KIND && ks[3] == PH && ks[4] == PID && ks[5] == PK && ks[6] == PAR;
    assert ks[7] == CONF && ks[8] == VAL && ks[9] == CLS && ks[10] == HITL && ks[11] == PREV && ks[12] == EXT;
  }

  // 1, or what Python takes for it.
  predicate SaysOne(x: Option<Value>) {
    x == Some(Int(1)) || x == Some(Bool(true)) || x == Some(Float(1.0))
  }

  ghost predicate IdsIn(x: Option<Value>, ids: seq<Bytes>) {
    x == Some(Arr(ParentValues(ids))) && IdsAscending(ids)
  }

  ghost predicate EnvelopeStructure(v: Value) {
    && EnvelopeKeysOnly(v) && SaysOne(At(v, "v"))
    && IsBytes(At(v, "id"), 16) && IsText(At(v, "kind")) && IsBytes(At(v, "ph"), 32) && IsText(At(v, "pid"))
    && IsBytes(At(v, "pk"), 32) && IsBytes(At(v, "prev"), 32) && (exists ids :: IdsIn(At(v, "par"), ids))
    && At(v, "conf").Some? && ConfidenceMap(At(v, "conf").value) && At(v, "val").Some?
      && ValidityMap(At(v, "val").value)
    && IsNat(At(v, "cls"), 3) && At(v, "hitl").Some? && At(v, "hitl").value.Bool?
    && (At(v, "cls") == Some(Int(3)) ==> At(v, "hitl") == Some(Bool(true)))
    && MaybeTextDict(At(v, "ext"))
  }

  // Missing, null, or a dict with text keys only.
  predicate MaybeTextDict(x: Option<Value>) {
    x.Some? && !x.value.Null? ==>
      x.value.Map? && forall i :: 0 <= i < |x.value.entries| ==> x.value.entries[i].key.Tstr?
  }

  // Where each field was found.
  ghost predicate EnvelopeSpelled(v: Value, e: Dac) {
    && At(v, "id") == Some(Bstr(e.claimId)) && At(v, "kind") == Some(Tstr(e.kind))
      && At(v, "ph") == Some(Bstr(e.payloadHash))
    && At(v, "pid") == Some(Tstr(e.producerId)) && At(v, "pk") == Some(Bstr(e.producerPk))
      && IdsIn(At(v, "par"), e.parents)
    && At(v, "conf").Some? && ReadConf(At(v, "conf").value) == Some(e.confidence)
    && At(v, "val").Some? && ReadVal(At(v, "val").value) == Some(e.validity)
    && At(v, "cls") == Some(Int(e.classification)) && At(v, "hitl") == Some(Bool(e.requiresHitl))
    && At(v, "prev") == Some(Bstr(e.prev)) && e.ext == (if At(v, "ext") == Some(Null) then None else At(v, "ext"))
    && e.signatures.None?
  }

  lemma {:induction false} IdsRead(x: Option<Value>)
    ensures (exists ids :: IdsIn(x, ids)) <==> x.Some? && x.value.Arr? && ReadParents(x.value.items, None).Some?
    ensures x.Some? && x.value.Arr? && ReadParents(x.value.items, None).Some? ==>
      IdsIn(x, ReadParents(x.value.items, None).value)
  {
    hide IdsAscending, ParentValues, ReadParents;
    if x.Some? && x.value.Arr? && ReadParents(x.value.items, None).Some? {
      var ids := ReadParents(x.value.items, None).value;
      ParentsWritten(x.value.items, None, ids);
      assert IdsIn(x, ids);
    }
    if ids :| IdsIn(x, ids) {
      ParentsRead(ids, None);
    }
  }

  // The structure is accepted exactly when it looks like that, and each field is what stands under its key.
  lemma {:induction false} EnvelopeRead(v: Value)
    ensures FromMap(v).Some? <==> EnvelopeStructure(v)
    ensures FromMap(v).Some? ==> EnvelopeSpelled(v, FromMap(v).value)
  {
    hide Word, Key, Only, Get, ConfidenceMap, ValidityMap, ReadConf, ReadVal, ReadParents, FromFields, IdsIn;
    EnvelopeWords();
    MoreEnvelopeWords();
    if v.Map? {
      var f := Project(v.entries, ENVELOPE_KEYS);
      ThirteenFields(v.entries, f);
      FieldsRead(f);
      SameStructure(v, f);
    }
  }

  // The same, on the fields in their order.
  ghost predicate FieldStructure(f: seq<Option<Value>>) {
    && |f| == 13 && SaysOne(f[0]) && IsBytes(f[1], 16) && IsText(f[2]) && IsBytes(f[3], 32) && IsText(f[4])
    && IsBytes(f[5], 32) && IsBytes(f[11], 32) && (exists ids :: IdsIn(f[6], ids))
    && f[7].Some? && ConfidenceMap(f[7].value) && f[8].Some? && ValidityMap(f[8].value)
    && IsNat(f[9], 3) && f[10].Some? && f[10].value.Bool? && (f[9] == Some(Int(3)) ==> f[10] == Some(Bool(true)))
    && MaybeTextDict(f[12])
  }

  lemma {:induction false} FieldsRead(f: seq<Option<Value>>)
    requires |f| == 13
    ensures FromFields(f).Some? <==> FieldStructure(f)
    ensures FromFields(f).Some? ==> IdsIn(f[6], FromFields(f).value.parents)
  {
    hide FromFields, FieldStructure, IdsIn;
    if FromFields(f).Some? { FieldsAccepted(f); }
    if FieldStructure(f) { FieldsSuffice(f); }
  }

  lemma {:induction false} FieldsAccepted(f: seq<Option<Value>>)
    requires |f| == 13 && FromFields(f).Some?
    ensures FieldStructure(f) && IdsIn(f[6], FromFields(f).value.parents)
  {
    hide FromFields, FieldStructure, ConfidenceMap, ValidityMap, ReadConf, ReadVal, ReadParents, IdsIn, IdsAscending;
    var e := FromFields(f).value;
    FromFieldsMeans(f, e);
    FromFieldsRest(f);
    ConfidenceRead(f[7].value);
    ValidityRead(f[8].value);
    IdsRead(f[6]);
    StructureOf(f, e);
  }

  lemma {:induction false} StructureOf(f: seq<Option<Value>>, e: Dac)
    requires |f| == 13 && IsOne(f[0]) && IsExt(f[12]) && IdsIn(f[6], e.parents)
    requires f[1] == Some(Bstr(e.claimId)) && f[2] == Some(Tstr(e.kind))
    requires f[3] == Some(Bstr(e.payloadHash)) && f[4] == Some(Tstr(e.producerId)) && f[5] == Some(Bstr(e.producerPk))
    requires f[7].Some? && ConfidenceMap(f[7].value) && f[8].Some? && ValidityMap(f[8].value)
    requires f[9] == Some(Int(e.classification)) && f[10] == Some(Bool(e.requiresHitl)) && f[11] == Some(Bstr(e.prev))
    requires |e.claimId| == 16 && |e.payloadHash| == 32 && |e.producerPk| == 32 && |e.prev| == 32
    requires 0 <= e.classification <= CLS_REGULATED && (e.classification >= CLS_REGULATED ==> e.requiresHitl)
    ensures FieldStructure(f)
  {
    hide ConfidenceMap, ValidityMap, IdsIn;
  }

  lemma {:induction false} FromFieldsRest(f: seq<Option<Value>>)
    requires |f| == 13 && FromFields(f).Some?
    ensures IsOne(f[0]) && IsExt(f[12])
  {
    hide ReadConf, ReadVal, ReadParents;
  }

  lemma {:induction false} FieldsSuffice(f: seq<Option<Value>>)
    requires |f| == 13 && FieldStructure(f)
    ensures FromFields(f).Some?
  {
    hide ConfidenceMap, ValidityMap, ReadConf, ReadVal, ReadParents, IdsIn;
    if f[7].Some? { ConfidenceRead(f[7].value); }
    if f[8].Some? { ValidityRead(f[8].value); }
    IdsRead(f[6]);
  }

  lemma {:induction false} KeysOnly(v: Value)
    ensures EnvelopeKeysOnly(v) <==> IsMapOf(v, ENVELOPE_KEYS)
  {
    hide Word, Key, Only;
    EnvelopeWords();
    MoreEnvelopeWords();
  }

  lemma {:induction false} SameStructure(v: Value, f: seq<Option<Value>>)
    requires v.Map? && f == Project(v.entries, ENVELOPE_KEYS)
    requires FromFields(f).Some? <==> FieldStructure(f)
    requires FromFields(f).Some? ==> IdsIn(f[6], FromFields(f).value.parents)
    ensures FromMap(v).Some? <==> EnvelopeStructure(v)
    ensures FromMap(v).Some? ==> EnvelopeSpelled(v, FromMap(v).value)
  {
    hide Word, Key, Only, Get, ConfidenceMap, ValidityMap, ReadConf, ReadVal, ReadParents, FromFields, IdsIn, IsExt;
    EnvelopeWords();
    MoreEnvelopeWords();
    ThirteenFields(v.entries, f);
    KeysOnly(v);
    hide EnvelopeKeysOnly;
    assert f[0] == At(v, "v") && f[1] == At(v, "id") && f[2] == At(v, "kind") && f[3] == At(v, "ph");
    assert f[4] == At(v, "pid") && f[5] == At(v, "pk") && f[6] == At(v, "par") && f[7] == At(v, "conf");
    assert f[8] == At(v, "val") && f[9] == At(v, "cls") && f[10] == At(v, "hitl") && f[11] == At(v, "prev");
    assert f[12] == At(v, "ext");
    if FromFields(f).Some? { FromFieldsMeans(f, FromFields(f).value); }
  }

  // ----- Signature sets: a, at, th; attestations: k, s, r; policies: n, m, roster -----

  lemma {:induction false} ThreeFieldsOf(es: seq<Entry>, a: Value, b: Value, c: Value, vals: seq<Option<Value>>)
    requires |vals| == 3 && forall i :: 0 <= i < 3 ==> Get(es, [a, b, c][i]) == vals[i]
    ensures Get(es, a) == vals[0] && Get(es, b) == vals[1] && Get(es, c) == vals[2]
  {
    hide Get;
    var ks := [a, b, c];
    assert ks[0] == a && ks[1] == b && ks[2] == c;
  }

  lemma {:induction false} AttestationSpelled(a: Attestation)
    ensures var v := AttestationMap(a);
      && IsMapOf(v, [Word("k"), Word("s"), Word("r")])
      && At(v, "k") == Some(Bstr(a.publicKey)) && At(v, "s") == Some(Bstr(a.signature)) && At(v, "r") == OptText(a.role)
  {
    KeysAreNames();
    hide Word, Names, Fields, Key, Only, Project, Normal, NormalAll, Get;
    ShortWords();
    RecordReads(ATTESTATION_KEYS, AttestationFields(a));
    ThreeFieldsOf(AttestationMap(a).entries, K, S, R, AttestationFields(a));
  }

  lemma {:induction false} AttestationRead(v: Value)
    ensures ReadAttestation(v).Some? <==>
      && IsMapOf(v, [Word("k"), Word("s"), Word("r")])
      && IsBytes(At(v, "k"), 32) && IsBytes(At(v, "s"), 64) && MaybeText(At(v, "r"))
    ensures ReadAttestation(v).Some? ==>
      var a := ReadAttestation(v).value;
      && At(v, "k") == Some(Bstr(a.publicKey)) && At(v, "s") == Some(Bstr(a.signature))
        && a.role == OptionalText(At(v, "r"))
  {
    hide Word, Key, Only, Get;
    ShortWords();
  }

  lemma {:induction false} PolicySpelled(p: Policy)
    ensures var v := PolicyMap(p);
      && IsMapOf(v, [Word("n"), Word("m"), Word("roster")])
      && At(v, "n") == Some(Int(p.required)) && At(v, "m") == Some(Int(p.rosterSize))
      && At(v, "roster") == OptBytes(p.rosterHash)
  {
    KeysAreNames();
    hide Word, Names, Fields, Key, Only, Project, Normal, NormalAll, Get;
    ShortWords();
    SetWords();
    RecordReads(POLICY_KEYS, PolicyFields(p));
    ThreeFieldsOf(PolicyMap(p).entries, N, M, ROSTER, PolicyFields(p));
  }

  lemma {:induction false} PolicyRead(v: Value)
    ensures ReadPolicy(v).Some? <==>
      && IsMapOf(v, [Word("n"), Word("m"), Word("roster")])
      && IsInt(At(v, "n")) && IsInt(At(v, "m")) && 0 <= At(v, "n").value.i <= At(v, "m").value.i
      && (At(v, "roster").Some? && !At(v, "roster").value.Null? ==> IsBytes(At(v, "roster"), 32))
    ensures ReadPolicy(v).Some? ==>
      var p := ReadPolicy(v).value;
      && At(v, "n") == Some(Int(p.required)) && At(v, "m") == Some(Int(p.rosterSize))
      && p.rosterHash == (if IsBytes(At(v, "roster"), 32) then Some(At(v, "roster").value.bytes) else None)
  {
    hide Word, Key, Only, Get;
    ShortWords();
    SetWords();
  }

  lemma {:induction false} SigSetSpelled(s: SignatureSet)
    ensures var v := SigSetMap(s);
      && IsMapOf(v, [Word("a"), Word("at"), Word("th")])
      && At(v, "a") == Some(AttestationMap(s.author))
      && At(v, "at") == (if s.attestors == [] then None else Some(Arr(AttestationMaps(InOrder(s.attestors)))))
      && At(v, "th") == (if s.policy.None? then None else Some(PolicyMap(s.policy.value)))
  {
    KeysAreNames();
    hide Word, Names, Fields, Key, Only, Project, Normal, NormalAll, Get, AttestationMap, AttestationMaps, PolicyMap,
      InOrder;
    ShortWords();
    SetWords();
    RecordReads(SIGSET_KEYS, SigSetFields(s));
    ThreeFieldsOf(SigSetMap(s).entries, A, AT, TH, SigSetFields(s));
  }

  // The attestors in an array: each an attestation, its key above the one before and not the author's.
  ghost predicate AttestorsIn(v: Value, author: Bytes, ats: seq<Attestation>) {
    && v.Arr? && |v.items| == |ats|
    && (forall i :: 0 <= i < |ats| ==> ReadAttestation(v.items[i]) == Some(ats[i]) && ats[i].publicKey != author)
    && forall i, j :: 0 <= i < j < |ats| ==> Less(ats[i].publicKey, ats[j].publicKey)
  }

  lemma {:induction false} AttestorsReadBack(raw: seq<Value>, author: Bytes, prev: Option<Bytes>, ats: seq<Attestation>)
    requires AttestorsIn(Arr(raw), author, ats) && (prev.Some? && ats != [] ==> Less(prev.value, ats[0].publicKey))
    ensures ReadAttestors(raw, author, prev) == Some(ats)
    decreases |raw|
  {
    hide ReadAttestation, Less;
    if raw != [] {
      AttestorsReadBack(raw[1..], author, Some(ats[0].publicKey), ats[1..]);
      assert ats == [ats[0]] + ats[1..];
    }
  }

  ghost predicate SigSetStructure(v: Value, s: SignatureSet) {
    && IsMapOf(v, [Word("a"), Word("at"), Word("th")])
    && At(v, "a").Some? && ReadAttestation(At(v, "a").value) == Some(s.author)
    && (if At(v, "at").None? || At(v, "at").value.Null? then s.attestors == []
        else s.attestors != [] && AttestorsIn(At(v, "at").value, s.author.publicKey, s.attestors))
    && (if At(v, "th").None? then s.policy.None? else s.policy.Some? && ReadPolicy(At(v, "th").value) == s.policy)
  }

  // A set is read exactly where one is spelled.
  lemma {:induction false} SigSetReadAs(v: Value, s: SignatureSet)
    ensures ReadSignatureSet(v) == Some(s) <==> SigSetStructure(v, s)
  {
    hide Word, Key, Only, Get, ReadAttestation, ReadPolicy, ReadAttestors, AttestorsIn;
    ShortWords();
    SetWords();
    if v.Map? {
      var at := Get(v.entries, AT);
      if at.Some? && at.value.Arr? { AttestorsIff(at.value, s.author.publicKey, s.attestors); }
      if at.Some? && !at.value.Arr? { NotArray(at.value, s.author.publicKey, s.attestors); }
    }
  }

  lemma {:induction false} NotArray(v: Value, author: Bytes, ats: seq<Attestation>)
    requires !v.Arr?
    ensures !AttestorsIn(v, author, ats)
  {}

  lemma {:induction false} AttestorsIff(v: Value, author: Bytes, ats: seq<Attestation>)
    requires v.Arr?
    ensures ReadAttestors(v.items, author, None) == Some(ats) <==> AttestorsIn(v, author, ats)
    ensures AttestorsIn(v, author, ats) ==> (v.items == [] <==> ats == [])
  {
    hide ReadAttestation, ReadAttestors, Less;
    if ReadAttestors(v.items, author, None) == Some(ats) { AttestorsWritten(v.items, author, None, ats); }
    if AttestorsIn(v, author, ats) { AttestorsReadBack(v.items, author, None, ats); }
  }

  // ----- The wire form: e, sig -----

  lemma {:induction false} WireSpelled(e: Dac)
    requires e.signatures.Some?
    ensures var v := WireMap(e);
      && IsMapOf(v, [Word("e"), Word("sig")])
      && At(v, "e") == Some(ToMap(e)) && At(v, "sig") == Some(SigSetMap(e.signatures.value))
  {
    OtherNames();
    hide Word, Names, Fields, Key, Only, Project, Normal, NormalAll, Get, ToMap, SigSetMap;
    ShortWords();
    SetWords();
    RecordReads(WIRE_KEYS, WireFields(e));
    var ks := WIRE_KEYS;
    assert ks[0] == E && ks[1] == SIG;
  }

  lemma {:induction false} WireRead(v: Value, e: Dac)
    ensures ReadWire(v) == Some(e) <==>
      && IsMapOf(v, [Word("e"), Word("sig")]) && At(v, "e").Some? && At(v, "sig").Some? && e.signatures.Some?
      && FromMap(At(v, "e").value) == Some(e.(signatures := None))
      && ReadSignatureSet(At(v, "sig").value) == e.signatures
  {
    hide Word, Key, Only, Get, FromMap, ReadSignatureSet;
    ShortWords();
    SetWords();
    if v.Map? {
      var f := Project(v.entries, WIRE_KEYS);
      assert f[0] == Get(v.entries, E) && f[1] == Get(v.entries, SIG);
      Unsigned(f[0]);
    }
  }

  lemma {:induction false} Unsigned(x: Option<Value>)
    ensures x.Some? && FromMap(x.value).Some? ==> FromMap(x.value).value.signatures.None?
  {
    FromMapUnsigned(x);
  }
}
