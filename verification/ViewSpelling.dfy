/** The JSON view and the claim re-read from it, key by key, and the repair of whole floats. */
module ViewSpelling {
  import opened Base
  import opened Cbor
  import opened Schema
  import opened Crypto
  import opened Attest
  import opened Threshold
  import opened Envelope
  import opened Projection
  import opened Chain
  import opened Claims
  import opened Spelling

  // ----- Hex -----

  const DIGITS := "0123456789abcdef"

  // Two digits a byte, the upper half first.
  lemma {:induction false} HexSpelled(b: Bytes, i: nat)
    requires i < |b|
    ensures |Hex(b)| == 2 * |b|
    ensures Hex(b)[2 * i] == DIGITS[b[i] / 16] as int && Hex(b)[2 * i + 1] == DIGITS[b[i] % 16] as int
  {
    DigitSpelled(b[0] / 16);
    DigitSpelled(b[0] % 16);
    if i > 0 {
      HexSpelled(b[1..], i - 1);
      assert b[1..][i - 1] == b[i];
      assert Hex(b)[2..] == Hex(b[1..]);
      assert Hex(b)[2..][2 * (i - 1)] == Hex(b)[2 * i] && Hex(b)[2..][2 * (i - 1) + 1] == Hex(b)[2 * i + 1];
    }
  }

  lemma {:induction false} DigitSpelled(n: int)
    requires 0 <= n < 16
    ensures Digit(n) == DIGITS[n] as int
  {}

  // Reading skips ASCII whitespace between bytes and takes either case; anything else is an error.
  lemma {:induction false} FromHexStep(t: Bytes)
    ensures FromHex([]) == Some([])
    ensures t != [] && t[0] in [9, 10, 11, 12, 13, 32] ==> FromHex(t) == FromHex(t[1..])
    ensures forall n, m :: |t| >= 2 && 0 <= n < 16 && 0 <= m < 16 && SaysDigit(t[0], n) && SaysDigit(t[1], m) ==>
      FromHex(t) == (match FromHex(t[2..]) case None => None case Some(b) => Some([n * 16 + m] + b))
    ensures t != [] && t[0] !in [9, 10, 11, 12, 13, 32] && FromHex(t).Some? ==>
      |t| >= 2 && (exists n :: 0 <= n < 16 && SaysDigit(t[0], n)) && (exists m :: 0 <= m < 16 && SaysDigit(t[1], m))
  {
    forall d: Byte, n | 0 <= n < 16 && SaysDigit(d, n) ensures DigitValue(d) == n && !Space(d) { DigitRead(d, n); }
    if t != [] && t[0] !in [9, 10, 11, 12, 13, 32] && FromHex(t).Some? {
      DigitBack(t[0]);
      DigitBack(t[1]);
    }
  }

  // The character is digit n, in lower or in upper case.
  predicate SaysDigit(d: Byte, n: int)
    requires 0 <= n < 16
  {
    d == DIGITS[n] as int || d == "0123456789ABCDEF"[n] as int
  }

  lemma {:induction false} DigitRead(d: Byte, n: int)
    requires 0 <= n < 16 && SaysDigit(d, n)
    ensures DigitValue(d) == n && !Space(d)
  {}

  lemma {:induction false} DigitBack(d: Byte)
    requires DigitValue(d) != 16
    ensures SaysDigit(d, DigitValue(d))
  {}

  // ----- Whole floats -----

  // A whole float is the integer it equals, any other float is an error, anything else stays.
  function Repaired(x: Value): Option<Value> {
    if !x.Float? then Some(x)
    else if x.r == x.r.Floor as real then Some(Int(x.r.Floor)) else None
  }

  lemma {:induction false} FixFloatMeans(es: seq<Entry>, k: Value)
    ensures FixFloat(es, k).None? <==> Get(es, k).Some? && Repaired(Get(es, k).value).None?
    ensures FixFloat(es, k).Some? ==> FixedOnly(es, FixFloat(es, k).value, k)
  {
    if es != [] && es[0].key != k {
      FixFloatMeans(es[1..], k);
      if FixFloat(es[1..], k).Some? { FixedCons(es[0], es[1..], FixFloat(es[1..], k).value, k); }
      assert es == [es[0]] + es[1..];
    } else if FixFloat(es, k).Some? {
      FixedHead(es, FixFloat(es, k).value, k);
    }
  }

  // The same keys in the same order, the value under k repaired, and every other value as it was.
  ghost predicate FixedOnly(es: seq<Entry>, fs: seq<Entry>, k: Value) {
    && |fs| == |es| && (forall i :: 0 <= i < |es| ==> fs[i].key == es[i].key && (es[i].key != k ==> fs[i] == es[i]))
    && Get(fs, k) == (if Get(es, k).None? then None else Repaired(Get(es, k).value))
    && forall x :: x != k ==> Get(fs, x) == Get(es, x)
  }

  lemma {:induction false} FixedCons(e: Entry, es: seq<Entry>, fs: seq<Entry>, k: Value)
    requires FixedOnly(es, fs, k) && e.key != k
    ensures FixedOnly([e] + es, [e] + fs, k)
  {
    assert ([e] + es)[1..] == es && ([e] + fs)[1..] == fs;
  }

  lemma {:induction false} FixedHead(es: seq<Entry>, fs: seq<Entry>, k: Value)
    requires FixFloat(es, k) == Some(fs) && (es == [] || es[0].key == k)
    ensures FixedOnly(es, fs, k)
  {
    if es != [] { assert fs[1..] == es[1..]; }
  }

  // What number stands under a key: an integer, or a whole float.
  function Whole(x: Option<Value>): Option<int> {
    match x
    case None => None
    case Some(v) => match Repaired(v) case None => None case Some(w) => if w.Int? then Some(w.i) else None
  }

  // In the two sections with numbers, exactly the two named ones are repaired; the section is refused exactly when
  // it is not a dict or one of them is a float that is not whole.
  lemma {:induction false} SectionMeans(v: Value, j: Value, k: Value)
    requires j != k
    ensures FixSection(v, j, k).Some? <==> v.Map? && !BadFloat(Get(v.entries, j)) && !BadFloat(Get(v.entries, k))
    ensures FixSection(v, j, k).Some? ==>
      var w := FixSection(v, j, k).value;
      && w.Map? && Get(w.entries, j) == RepairedAt(Get(v.entries, j))
        && Get(w.entries, k) == RepairedAt(Get(v.entries, k))
      && forall x :: x != j && x != k ==> Get(w.entries, x) == Get(v.entries, x)
  {
    hide FixFloat, Get, Repaired;
    if v.Map? {
      FixFloatMeans(v.entries, j);
      if FixFloat(v.entries, j).Some? { FixFloatMeans(FixFloat(v.entries, j).value, k); }
    }
  }

  predicate BadFloat(x: Option<Value>) {
    x.Some? && Repaired(x.value).None?
  }

  function RepairedAt(x: Option<Value>): Option<Value> {
    match x
    case None => None
    case Some(v) => Repaired(v)
  }

  // ----- Fourteen keys -----

  // The fields of the view, one by one.
  lemma {:induction false} FourteenFields(es: seq<Entry>, vals: seq<Option<Value>>)
    requires |vals| == 14 && forall i :: 0 <= i < 14 ==> Get(es, PROJ_KEYS[i]) == vals[i]
    ensures Get(es, V) == vals[0] && Get(es, ID) == vals[1] && Get(es, KIND) == vals[2] && Get(es, PH) == vals[3]
    ensures Get(es, PID) == vals[4] && Get(es, PK) == vals[5] && Get(es, PAR) == vals[6] && Get(es, CONF) == vals[7]
    ensures Get(es, VAL) == vals[8] && Get(es, CLS) == vals[9] && Get(es, HITL) == vals[10] && Get(es, PREV) == vals[11]
    ensures Get(es, SIG) == vals[12] && Get(es, EXT) == vals[13]
  {
    hide Key, Get;
    var ks := PROJ_KEYS;
    assert ks[0] == V && ks[1] == ID && ks[2] == KIND && ks[3] == PH && ks[4] == PID && ks[5] == PK && ks[6] == PAR;
    assert ks[7] == CONF && ks[8] == VAL && ks[9] == CLS && ks[10] == HITL && ks[11] == PREV && ks[12] == SIG;
    assert ks[13] == EXT;
  }

  lemma {:induction false} ViewAt(v: Value)
    requires v.Map?
    ensures var f := Project(v.entries, PROJ_KEYS);
      && f[0] == At(v, "v") && f[1] == At(v, "id") && f[2] == At(v, "kind") && f[3] == At(v, "ph")
        && f[4] == At(v, "pid")
      && f[5] == At(v, "pk") && f[6] == At(v, "par") && f[7] == At(v, "conf") && f[8] == At(v, "val")
      && f[9] == At(v, "cls") && f[10] == At(v, "hitl") && f[11] == At(v, "prev") && f[12] == At(v, "sig")
      && f[13] == At(v, "ext")
  {
    hide Word, Key, Get;
    EnvelopeWords();
    MoreEnvelopeWords();
    SetWords();
    FourteenFields(v.entries, Project(v.entries, PROJ_KEYS));
  }

  // The view is written with bytes as hex text, the two sections as in the signed structure, and the encoded
  // signature set as hex text, empty where there is none.
  lemma {:induction false} ViewWritten(e: Dac)
    requires ToProjection(e).Some?
    ensures ViewWrites(ToProjection(e).value, e, SetHex(e.signatures))
  {
    var sig := SigHex(e.signatures).value;
    hide Key, Names, Only, Fields, Normal, NormalAll, ProjFields, SetHex, SigHex, ViewWrites;
    ProjNames();
    SigHexIs(e.signatures);
    RecordProject(PROJ_KEYS, ProjFields(e, sig));
    FieldsWritten(ToProjection(e).value, e, sig);
  }

  ghost predicate ViewWrites(v: Value, e: Dac, sig: Text) {
    && v.Map?
    && At(v, "v") == Some(Int(1)) && At(v, "id") == Some(Tstr(Hex(e.claimId))) && At(v, "kind") == Some(Tstr(e.kind))
    && At(v, "ph") == Some(Tstr(Hex(e.payloadHash))) && At(v, "pid") == Some(Tstr(e.producerId))
    && At(v, "pk") == Some(Tstr(Hex(e.producerPk))) && At(v, "par") == Some(Arr(HexValues(e.parents)))
    && At(v, "conf") == Some(ConfMap(e.confidence)) && At(v, "val") == Some(ValMap(e.validity))
    && At(v, "cls") == Some(Int(e.classification)) && At(v, "hitl") == Some(Bool(e.requiresHitl))
    && At(v, "prev") == Some(Tstr(Hex(e.prev))) && At(v, "ext") == e.ext && At(v, "sig") == Some(Tstr(sig))
  }

  lemma {:induction false} FieldsWritten(v: Value, e: Dac, sig: Text)
    requires v.Map? && Project(v.entries, PROJ_KEYS) == ProjFields(e, sig)
    ensures ViewWrites(v, e, sig)
  {
    hide At, Key, Project, ConfMap, ValMap, HexValues, Hex;
    ViewAt(v);
  }

  function SetHex(s: Option<SignatureSet>): Text {
    if s.None? then [] else Hex(Encode(SigSetMap(s.value)).GetOr([]))
  }

  lemma {:induction false} SigHexIs(s: Option<SignatureSet>)
    ensures SigHex(s).Some? ==> SigHex(s).value == SetHex(s)
  {
    hide Encode, SigSetMap, Hex;
  }

  predicate HexOf(x: Option<Value>, b: Bytes) {
    IsText(x) && FromHex(x.value.text) == Some(b)
  }

  // What stands where in a view that is accepted.
  ghost predicate ViewSpelled(v: Value, e: Dac) {
    && HexOf(At(v, "id"), e.claimId) && At(v, "kind") == Some(Tstr(e.kind)) && HexOf(At(v, "ph"), e.payloadHash)
    && At(v, "pid") == Some(Tstr(e.producerId)) && HexOf(At(v, "pk"), e.producerPk) && HexOf(At(v, "prev"), e.prev)
    && At(v, "par").Some? && Iterated(At(v, "par").value).Some?
    && HexItems(Iterated(At(v, "par").value).value) == Some(e.parents)
    && At(v, "cls") == Some(Int(e.classification)) && At(v, "hitl") == Some(Bool(e.requiresHitl))
    && e.ext == (if At(v, "ext") == Some(Null) then None else At(v, "ext"))
    && At(v, "conf").Some? && ConfSpelled(At(v, "conf").value, e.confidence)
    && At(v, "val").Some? && ValSpelled(At(v, "val").value, e.validity)
    && SetSpelled(At(v, "sig"), e.signatures)
  }

  ghost predicate ConfSpelled(v: Value, x: Confidence) {
    && v.Map? && At(v, "m") == Some(Tstr(x.methodName))
    && Whole(At(v, "v")) == Some(x.valuePpm) && Whole(At(v, "a")) == Some(x.alphaPpm)
    && (x.interval.Some? <==> At(v, "iv").Some? && !At(v, "iv").value.Null?)
    && (x.interval.Some? ==> IsInterval(At(v, "iv").value, x.interval.value))
  }

  ghost predicate ValSpelled(v: Value, w: Validity) {
    && v.Map? && Whole(At(v, "iat")) == Some(w.issuedAt) && Whole(At(v, "exp")) == Some(w.expiresAt)
    && At(v, "st") == Some(StatusWord(w.status)) && w.monitor == OptionalText(At(v, "mon"))
  }

  // No set behind a missing or empty value; otherwise the one its hex text decodes to.
  ghost predicate SetSpelled(x: Option<Value>, s: Option<SignatureSet>) {
    if x.None? || !Truthy(x.value) then s.None?
    else
      && IsText(x) && FromHex(x.value.text).Some? && Decode(FromHex(x.value.text).value).Some?
      && s.Some? && ReadSignatureSet(Decode(FromHex(x.value.text).value).value) == s
  }

  lemma {:induction false} ViewRead(v: Value)
    requires FromProjection(v).Some?
    ensures ViewSpelled(v, FromProjection(v).value)
  {
    var f := Project(v.entries, PROJ_KEYS);
    hide Word, Key, Get, Only, Names, Structure, FromMap, ReadSig, Fields, ConfSpelled, ValSpelled, HexItems, Iterated,
      SetSpelled, HexField, FixSection, FromHex;
    var m := Structure(f).value;
    var e := FromMap(Map(Fields(ENVELOPE_KEYS, m))).value;
    hide At, ViewSpelled;
    FieldsSpelled(f, m, e, ReadSig(f[12]).value);
    Assembled(v, f, e, ReadSig(f[12]).value);
  }

  // The same, on the fields in their order.
  ghost predicate FieldSpelled(f: seq<Option<Value>>, e: Dac, s: Option<SignatureSet>) {
    && |f| == 14 && HexOf(f[1], e.claimId) && f[2] == Some(Tstr(e.kind)) && HexOf(f[3], e.payloadHash)
    && f[4] == Some(Tstr(e.producerId)) && HexOf(f[5], e.producerPk) && HexOf(f[11], e.prev)
    && f[6].Some? && Iterated(f[6].value).Some? && HexItems(Iterated(f[6].value).value) == Some(e.parents)
    && f[9] == Some(Int(e.classification)) && f[10] == Some(Bool(e.requiresHitl))
    && e.ext == (if f[13] == Some(Null) then None else f[13])
    && f[7].Some? && ConfSpelled(f[7].value, e.confidence) && f[8].Some? && ValSpelled(f[8].value, e.validity)
    && SetSpelled(f[12], s)
  }

  lemma {:induction false} FieldsSpelled(f: seq<Option<Value>>, m: seq<Option<Value>>, e: Dac, s: Option<SignatureSet>)
    requires |f| == 14 && Structure(f) == Some(m) && |m| == 13
    requires FromMap(Map(Fields(ENVELOPE_KEYS, m))) == Some(e) && ReadSig(f[12]) == Some(s)
    ensures FieldSpelled(f, e, s)
  {
    hide Key, Structure, FromMap, ReadSig, Fields, ConfSpelled, ValSpelled, HexItems, Iterated, SetSpelled, HexField,
      FixSection, FromHex, ParentValues;
    StructureMeans(f, m);
    StructureFields(m, e);
    SameIds(HexItems(Iterated(f[6].value).value).value, e.parents);
    ConfRepaired(f[7].value, e.confidence);
    ValRepaired(f[8].value, e.validity);
    SetBehind(f[12], s);
    HexIs(f[1]); HexIs(f[3]); HexIs(f[5]); HexIs(f[11]);
  }

  lemma {:induction false} Assembled(v: Value, f: seq<Option<Value>>, e: Dac, s: Option<SignatureSet>)
    requires v.Map? && f == Project(v.entries, PROJ_KEYS) && FieldSpelled(f, e, s)
    ensures ViewSpelled(v, e.(signatures := s))
  {
    hide At, Key, Project, ConfSpelled, ValSpelled, HexItems, Iterated, SetSpelled, HexOf;
    ViewAt(v);
  }

  lemma {:induction false} HexIs(x: Option<Value>)
    ensures HexField(x).Some? ==> HexOf(x, HexField(x).value)
  {
    hide FromHex;
  }

  lemma {:induction false} SameIds(a: seq<Bytes>, b: seq<Bytes>)
    requires ParentValues(a) == ParentValues(b)
    ensures a == b
  {
    forall i | 0 <= i < |a| ensures a[i] == b[i] { assert ParentValues(a)[i] == ParentValues(b)[i]; }
  }

  lemma {:induction false} StructureFields(m: seq<Option<Value>>, e: Dac)
    requires |m| == 13 && FromMap(Map(Fields(ENVELOPE_KEYS, m))) == Some(e)
    ensures m[1] == Some(Bstr(e.claimId)) && m[2] == Some(Tstr(e.kind)) && m[3] == Some(Bstr(e.payloadHash))
    ensures m[4] == Some(Tstr(e.producerId)) && m[5] == Some(Bstr(e.producerPk)) && m[11] == Some(Bstr(e.prev))
    ensures m[6] == Some(Arr(ParentValues(e.parents)))
    ensures m[7].Some? && ReadConf(m[7].value) == Some(e.confidence) && m[8].Some?
      && ReadVal(m[8].value) == Some(e.validity)
    ensures m[9] == Some(Int(e.classification)) && m[10] == Some(Bool(e.requiresHitl))
    ensures e.ext == (if m[12] == Some(Null) then None else m[12])
  {
    hide Names, Only, Fields, Project, Key, FromFields, ReadConf, ReadVal, ReadParents, IsExt, ParentValues, Normal,
      NormalAll;
    EnvelopeNames();
    RecordProject(ENVELOPE_KEYS, m);
    FromFieldsMeans(m, e);
    ParentsWritten(m[6].value.items, None, e.parents);
  }

  lemma {:induction false} ConfRepaired(v: Value, x: Confidence)
    requires FixSection(v, V, A).Some? && ReadConf(FixSection(v, V, A).value) == Some(x)
    ensures ConfSpelled(v, x)
  {
    hide Word, Key, Get, Only, FixSection, ReadConf, ConfidenceMap, IsInterval, Repaired;
    ConfKeysDiffer();
    ShortWords();
    SectionMeans(v, V, A);
    ConfidenceRead(FixSection(v, V, A).value);
    WholeIs(Get(v.entries, V), x.valuePpm);
    WholeIs(Get(v.entries, A), x.alphaPpm);
  }

  lemma {:induction false} WholeIs(x: Option<Value>, n: int)
    requires RepairedAt(x) == Some(Int(n))
    ensures Whole(x) == Some(n)
  {}

  lemma {:induction false} ConfKeysDiffer()
    ensures V != A && M != V && M != A && IV != V && IV != A
  {
    hide Names, Key;
    OtherNames();
    NamesDiffer(M, V, A, IV);
  }

  lemma {:induction false} NamesDiffer(a: Value, b: Value, c: Value, d: Value)
    requires Names([a, b, c, d])
    ensures a != b && a != c && a != d && b != c && b != d && c != d
  {
    var ks := [a, b, c, d];
    assert ks[0] == a && ks[1] == b && ks[2] == c && ks[3] == d;
  }

  lemma {:induction false} ValRepaired(v: Value, w: Validity)
    requires FixSection(v, IAT, EXP).Some? && ReadVal(FixSection(v, IAT, EXP).value) == Some(w)
    ensures ValSpelled(v, w)
  {
    hide Word, Key, Get, Only, FixSection, ReadVal, ValidityMap, Repaired, StatusWord, Names;
    OtherNames();
    NamesDiffer(IAT, EXP, ST, MON);
    WindowWords();
    SectionMeans(v, IAT, EXP);
    ValidityRead(FixSection(v, IAT, EXP).value);
    WholeIs(Get(v.entries, IAT), w.issuedAt);
    WholeIs(Get(v.entries, EXP), w.expiresAt);
  }

  lemma {:induction false} SetBehind(x: Option<Value>, s: Option<SignatureSet>)
    requires ReadSig(x) == Some(s)
    ensures SetSpelled(x, s)
  {
    hide FromHex, Decode, ReadSignatureSet;
  }

  // What the structure handed to the schema holds.
  lemma {:induction false} StructureMeans(f: seq<Option<Value>>, m: seq<Option<Value>>)
    requires |f| == 14 && Structure(f) == Some(m)
    ensures |m| == 13 && m[2] == f[2] && m[4] == f[4] && m[9] == f[9] && m[10] == f[10]
    ensures HexField(f[1]).Some? && m[1] == Some(Bstr(HexField(f[1]).value))
    ensures HexField(f[3]).Some? && m[3] == Some(Bstr(HexField(f[3]).value))
    ensures HexField(f[5]).Some? && m[5] == Some(Bstr(HexField(f[5]).value))
    ensures HexField(f[11]).Some? && m[11] == Some(Bstr(HexField(f[11]).value))
    ensures f[6].Some? && Iterated(f[6].value).Some? && HexItems(Iterated(f[6].value).value).Some?
    ensures m[6] == Some(Arr(ParentValues(HexItems(Iterated(f[6].value).value).value)))
    ensures f[7].Some? && FixSection(f[7].value, V, A).Some? && m[7] == FixSection(f[7].value, V, A)
    ensures f[8].Some? && FixSection(f[8].value, IAT, EXP).Some? && m[8] == FixSection(f[8].value, IAT, EXP)
    ensures m[12] == if f[13] == Some(Null) then None else f[13]
  {
    hide HexField, HexItems, Iterated, FixSection, ParentValues, Key;
  }

  // ----- The claim re-read from a row -----

  ghost predicate ReadConfSpelled(v: Value, x: Confidence) {
    && v.Map? && At(v, "m") == Some(Tstr(x.methodName))
    && At(v, "v") == Some(Int(x.valuePpm)) && At(v, "a") == Some(Int(x.alphaPpm))
    && (x.interval.Some? <==> At(v, "iv").Some? && !At(v, "iv").value.Null?)
    && (x.interval.Some? ==> IsInterval(At(v, "iv").value, x.interval.value))
  }

  // The status is the column's, whatever is signed.
  ghost predicate ReadValSpelled(v: Value, w: Validity, status: Status) {
    && v.Map? && At(v, "iat") == Some(Int(w.issuedAt)) && At(v, "exp") == Some(Int(w.expiresAt)) && At(v, "st").Some?
    && w.monitor == OptionalText(At(v, "mon")) && w.status == status
  }

  // What stands where in a view a claim is rebuilt from; the fingerprint is computed from the key.
  ghost predicate ClaimSpelled(c: Suite, v: Value, status: Status, m: Claim) {
    && HexOf(At(v, "id"), m.id) && At(v, "kind") == Some(Tstr(m.kind)) && At(v, "ph") == Some(Tstr(m.payloadHash))
    && At(v, "pid") == Some(Tstr(m.producerId)) && At(v, "pk") == Some(Tstr(m.producerPk))
    && FromHex(m.producerPk).Some? && m.producerFpr == Hex(Fingerprint(c, FromHex(m.producerPk).value))
    && At(v, "par").Some? && ViewIds(At(v, "par").value).Some?
      && m.parents == CanonicalIds(ViewIds(At(v, "par").value).value)
    && At(v, "conf").Some? && ReadConfSpelled(At(v, "conf").value, m.confidence)
    && At(v, "val").Some? && ReadValSpelled(At(v, "val").value, m.validity, status)
    && At(v, "cls") == Some(Int(m.classification)) && At(v, "hitl") == Some(Bool(m.requiresHitl))
    && At(v, "prev") == Some(Tstr(m.prevHash))
    && (if At(v, "sig").None? then m.sig == [] else At(v, "sig") == Some(Tstr(m.sig)))
  }

  lemma {:induction false} RereadSpelled(c: Suite, row: Row)
    requires Reread(c, row).Some?
    ensures row.json.Some? && row.json.value.Map? && ClaimSpelled(c, row.json.value, row.status, Reread(c, row).value)
  {
    var v := row.json.value;
    var f := Project(v.entries, PROJ_KEYS);
    hide Word, Key, Get, ViewConf, ViewVal, ViewIds, CanonicalIds, Fingerprint, Hex, FromHex, ReadConfSpelled,
      ReadValSpelled;
    ViewAt(v);
    var m := Reread(c, row).value;
    ViewFieldsMean(c, f, row.status, m);
    ConfViewed(f[7].value, m.confidence);
    ValViewed(f[8].value, row.status, m.validity);
  }

  lemma {:induction false} ViewFieldsMean(c: Suite, f: seq<Option<Value>>, status: Status, m: Claim)
    requires |f| == 14 && ViewFields(c, f, status) == Some(m)
    ensures HexOf(f[1], m.id) && f[2] == Some(Tstr(m.kind)) && f[3] == Some(Tstr(m.payloadHash))
    ensures f[4] == Some(Tstr(m.producerId)) && f[5] == Some(Tstr(m.producerPk))
    ensures FromHex(m.producerPk).Some? && m.producerFpr == Hex(Fingerprint(c, FromHex(m.producerPk).value))
    ensures f[6].Some? && ViewIds(f[6].value).Some? && m.parents == CanonicalIds(ViewIds(f[6].value).value)
    ensures f[7].Some? && ViewConf(f[7].value) == Some(m.confidence)
    ensures f[8].Some? && ViewVal(f[8].value, status) == Some(m.validity)
    ensures f[9] == Some(Int(m.classification)) && f[10] == Some(Bool(m.requiresHitl))
    ensures f[11] == Some(Tstr(m.prevHash)) && (if f[12].None? then m.sig == [] else f[12] == Some(Tstr(m.sig)))
  {
    hide ViewConf, ViewVal, ViewIds, CanonicalIds, Fingerprint, Hex, FromHex;
  }

  lemma {:induction false} ConfViewed(v: Value, x: Confidence)
    requires ViewConf(v) == Some(x)
    ensures ReadConfSpelled(v, x)
  {
    hide Word, Key, Get, Renders;
    ShortWords();
    FourKeys(M, V, A, IV);
    if x.interval.Some? { PairsViewed(Get(v.entries, IV).value, x.interval.value); }
  }

  lemma {:induction false} PairsViewed(v: Value, iv: Interval)
    requires ViewInterval(v) == Some(iv)
    ensures IsInterval(v, iv)
  {
    hide Renders;
    assert v.items == [v.items[0], v.items[1]];
    assert v.items[0].items == [Int(iv.loMantissa), Int(iv.loExp)];
    assert v.items[1].items == [Int(iv.hiMantissa), Int(iv.hiExp)];
  }

  lemma {:induction false} ValViewed(v: Value, status: Status, w: Validity)
    requires ViewVal(v, status) == Some(w)
    ensures ReadValSpelled(v, w, status)
  {
    hide Word, Key, Get;
    WindowWords();
    FourKeys(IAT, EXP, ST, MON);
  }
}
