/** The v1 DAC envelope: its schema, how it is written as a dict and read back. */
module Envelope {
  import opened Base
  import opened Cbor
  import opened Schema
  import opened Attest

  const PPM_MAX := 1_000_000
  const US_MAX := 253_402_300_799_999_999
  const MANTISSA_ABS_MAX := 0x7FFF_FFFF_FFFF_FFFF
  const CLS_REGULATED := 3

  datatype Status = Valid | Stale | Revoked

  // [mantissa, exp10] endpoints.
  datatype Interval = Interval(loMantissa: int, loExp: int, hiMantissa: int, hiExp: int)

  datatype Confidence = Confidence(methodName: Text, valuePpm: int, alphaPpm: int, interval: Option<Interval>)
  datatype Validity = Validity(monitor: Option<Text>, issuedAt: int, expiresAt: int, status: Status)

  datatype Dac = Dac(
    kind: Text, payloadHash: Bytes, producerId: Text, producerPk: Bytes, parents: seq<Bytes>,
    confidence: Confidence, validity: Validity, classification: int, requiresHitl: bool,
    prev: Bytes, claimId: Bytes, ext: Option<Value>, signatures: Option<SignatureSet>)

  const V := Key("v")
  const ID := Key("id")
  const KIND := Key("kind")
  const PH := Key("ph")
  const PID := Key("pid")
  const PK := Key("pk")
  const PAR := Key("par")
  const CONF := Key("conf")
  const VAL := Key("val")
  const CLS := Key("cls")
  const HITL := Key("hitl")
  const PREV := Key("prev")
  const EXT := Key("ext")
  const MON := Key("mon")
  const IAT := Key("iat")
  const EXP := Key("exp")
  const ST := Key("st")
  const IV := Key("iv")
  const E := Key("e")
  const SIG := Key("sig")
  const ENVELOPE_KEYS := [V, ID, KIND, PH, PID, PK, PAR, CONF, VAL, CLS, HITL, PREV, EXT]
  const CONF_KEYS := [M, V, A, IV]
  const VAL_KEYS := [IAT, EXP, ST, MON]
  const WIRE_KEYS := [E, SIG]

  lemma {:induction false} EnvelopeNames()
    ensures Names(ENVELOPE_KEYS)
  {
    hide Names, Code, Distinct, Key;
    EnvelopeCodes(); EnvelopeCodes2(); CodesDiffer();
    NamesByCode(ENVELOPE_KEYS, [0x17676, 0x26964, 0x46B64, 0x27068, 0x37064, 0x2706B, 0x37072, 0x46366, 0x3766C,
      0x36373,      0x4686C, 0x47076, 0x36574]);
  }

  lemma {:induction false} OtherNames()
    ensures Names(CONF_KEYS) && Names(VAL_KEYS) && Names(WIRE_KEYS)
  {
    hide Names, Code, Key;
    KeyCodes(); EnvelopeCodes(); MoreCodes();
    NamesByCode(CONF_KEYS, [0x16D6D, 0x17676, 0x16161, 0x26976]);
    NamesByCode(VAL_KEYS, [0x36974, 0x36570, 0x27374, 0x36D6E]);
    NamesByCode(WIRE_KEYS, [0x16565, 0x37367]);
  }

  lemma {:induction false} CodesDiffer()
    ensures Distinct([0x17676, 0x26964, 0x46B64, 0x27068, 0x37064, 0x2706B, 0x37072, 0x46366, 0x3766C, 0x36373, 0x4686C,
      0x47076, 0x36574])
  {}

  lemma {:induction false} EnvelopeCodes()
    ensures Code(V) == 0x17676 && Code(ID) == 0x26964 && Code(KIND) == 0x46B64 && Code(PH) == 0x27068
    ensures Code(PID) == 0x37064 && Code(PK) == 0x2706B
  {
    hide Code, Key;
    CodeOf("v"); CodeOf("id"); CodeOf("kind"); CodeOf("ph"); CodeOf("pid"); CodeOf("pk");
  }

  lemma {:induction false} EnvelopeCodes2()
    ensures Code(PAR) == 0x37072 && Code(CONF) == 0x46366 && Code(VAL) == 0x3766C
    ensures Code(CLS) == 0x36373 && Code(HITL) == 0x4686C && Code(PREV) == 0x47076 && Code(EXT) == 0x36574
  {
    hide Code, Key;
    CodeOf("par"); CodeOf("conf"); CodeOf("val"); CodeOf("cls"); CodeOf("hitl"); CodeOf("prev"); CodeOf("ext");
  }

  lemma {:induction false} MoreCodes()
    ensures Code(MON) == 0x36D6E && Code(IAT) == 0x36974 && Code(EXP) == 0x36570 && Code(ST) == 0x27374
      && Code(IV) == 0x26976
    ensures Code(E) == 0x16565 && Code(SIG) == 0x37367
  {
    hide Code, Key;
    CodeOf("mon"); CodeOf("iat"); CodeOf("exp"); CodeOf("st"); CodeOf("iv"); CodeOf("e"); CodeOf("sig");
  }

  // ----- Confidence -----

  function IntervalValue(iv: Interval): Value {
    Arr([Arr([Int(iv.loMantissa), Int(iv.loExp)]), Arr([Int(iv.hiMantissa), Int(iv.hiExp)])])
  }

  function ConfFields(c: Confidence): (r: seq<Option<Value>>)
    ensures |r| == 4
  {
    [Some(Tstr(c.methodName)), Some(Int(c.valuePpm)), Some(Int(c.alphaPpm)),
     if c.interval.None? then None else Some(IntervalValue(c.interval.value))]
  }

  function ConfMap(c: Confidence): Value {
    Map(Fields(CONF_KEYS, ConfFields(c)))
  }

  predicate Endpoint(v: Value) {
    v.Arr? && |v.items| == 2 && v.items[0].Int? && v.items[1].Int?
    && -MANTISSA_ABS_MAX <= v.items[0].i <= MANTISSA_ABS_MAX
  }

  function ReadInterval(v: Value): Option<Interval> {
    if v.Arr? && |v.items| == 2 && Endpoint(v.items[0]) && Endpoint(v.items[1]) then
      Some(Interval(v.items[0].items[0].i, v.items[0].items[1].i, v.items[1].items[0].i, v.items[1].items[1].i))
    else None
  }

  predicate IsPpm(x: Option<Value>) {
    IsInt(x) && 0 <= x.value.i <= PPM_MAX
  }

  function ConfFromFields(f: seq<Option<Value>>): Option<Confidence>
    requires |f| == 4
  {
    var m, v, a, iv := f[0], f[1], f[2], f[3];
    if !IsText(m) || !IsPpm(v) || !IsPpm(a) then None
    else if Absent(iv) then Some(Confidence(m.value.text, v.value.i, a.value.i, None))
    else
      match ReadInterval(iv.value)
      case None => None
      case Some(i) => Some(Confidence(m.value.text, v.value.i, a.value.i, Some(i)))
  }

  function ReadConf(v: Value): Option<Confidence> {
    if !v.Map? || !Only(v.entries, CONF_KEYS) then None
    else ConfFromFields(Project(v.entries, CONF_KEYS))
  }

  predicate ValidConf(c: Confidence) {
    && 0 <= c.valuePpm <= PPM_MAX
    && 0 <= c.alphaPpm <= PPM_MAX
    && (c.interval.Some? ==>
          && -MANTISSA_ABS_MAX <= c.interval.value.loMantissa <= MANTISSA_ABS_MAX
          && -MANTISSA_ABS_MAX <= c.interval.value.hiMantissa <= MANTISSA_ABS_MAX)
  }

  // ----- Validity -----

  function StatusText(s: Status): Value {
    match s
    case Valid => Key("VALID")
    case Stale => Key("STALE")
    case Revoked => Key("REVOKED")
  }

  function ReadStatus(x: Option<Value>): Option<Status> {
    if x == Some(StatusText(Valid)) then Some(Valid)
    else if x == Some(StatusText(Stale)) then Some(Stale)
    else if x == Some(StatusText(Revoked)) then Some(Revoked)
    else None
  }

  function ValFields(v: Validity): (r: seq<Option<Value>>)
    ensures |r| == 4
  {
    [Some(Int(v.issuedAt)), Some(Int(v.expiresAt)), Some(StatusText(v.status)), OptText(v.monitor)]
  }

  function ValMap(v: Validity): Value {
    Map(Fields(VAL_KEYS, ValFields(v)))
  }

  predicate IsTime(x: Option<Value>) {
    IsInt(x) && 0 <= x.value.i <= US_MAX
  }

  function ValFromFields(f: seq<Option<Value>>): Option<Validity>
    requires |f| == 4
  {
    var iat, exp, st, mon := f[0], f[1], ReadStatus(f[2]), f[3];
    if !IsTime(iat) || !IsTime(exp) || exp.value.i < iat.value.i || st.None? then None
    else if Absent(mon) then Some(Validity(None, iat.value.i, exp.value.i, st.value))
    else if IsText(mon) then Some(Validity(Some(mon.value.text), iat.value.i, exp.value.i, st.value))
    else None
  }

  function ReadVal(v: Value): Option<Validity> {
    if !v.Map? || !Only(v.entries, VAL_KEYS) then None
    else ValFromFields(Project(v.entries, VAL_KEYS))
  }

  predicate ValidWindow(v: Validity) {
    0 <= v.issuedAt <= v.expiresAt <= US_MAX
  }

  // ----- The envelope -----

  function ParentValues(ps: seq<Bytes>): (r: seq<Value>)
    ensures |r| == |ps|
  {
    seq(|ps|, i requires 0 <= i < |ps| => Bstr(ps[i]))
  }

  function EnvelopeFields(e: Dac): (r: seq<Option<Value>>)
    ensures |r| == 13
  {
    [Some(Int(1)), Some(Bstr(e.claimId)), Some(Tstr(e.kind)), Some(Bstr(e.payloadHash)), Some(Tstr(e.producerId)),
     Some(Bstr(e.producerPk)), Some(Arr(ParentValues(e.parents))), Some(ConfMap(e.confidence)),
     Some(ValMap(e.validity)),
     Some(Int(e.classification)), Some(Bool(e.requiresHitl)), Some(Bstr(e.prev)), e.ext]
  }

  // The signed structure, without its signatures.
  function ToMap(e: Dac): Value {
    Map(Fields(ENVELOPE_KEYS, EnvelopeFields(e)))
  }

  // m["v"] == 1 in Python: also true of True and of 1.0.
  predicate IsOne(x: Option<Value>) {
    x == Some(Int(1)) || x == Some(Bool(true)) || x == Some(Float(1.0))
  }

  // 16-byte ids, strictly ascending after prev.
  function ReadParents(items: seq<Value>, prev: Option<Bytes>): Option<seq<Bytes>> {
    if items == [] then Some([])
    else if !IsBytes(Some(items[0]), 16) || (prev.Some? && !Less(prev.value, items[0].bytes)) then None
    else
      match ReadParents(items[1..], Some(items[0].bytes))
      case None => None
      case Some(rest) => Some([items[0].bytes] + rest)
  }

  predicate IsExt(x: Option<Value>) {
    Absent(x) || (x.value.Map? && forall i :: 0 <= i < |x.value.entries| ==> x.value.entries[i].key.Tstr?)
  }

  function FromFields(f: seq<Option<Value>>): Option<Dac>
    requires |f| == 13
  {
    var v, id, kind, ph, pid, pk, par := f[0], f[1], f[2], f[3], f[4], f[5], f[6];
    var conf, val, cls, hitl, prev, ext := f[7], f[8], f[9], f[10], f[11], f[12];
    if !IsOne(v) || !IsBytes(id, 16) || !IsText(kind) || !IsBytes(ph, 32) || !IsText(pid) || !IsBytes(pk, 32) then None
    else if par.None? || !par.value.Arr? || !IsInt(cls) || !(0 <= cls.value.i <= CLS_REGULATED) then None
    else if hitl.None? || !hitl.value.Bool? || !IsBytes(prev, 32) || !IsExt(ext) || conf.None? || val.None? then None
    else if cls.value.i >= CLS_REGULATED && !hitl.value.b then None
    else
      var parents, c, w := ReadParents(par.value.items, None), ReadConf(conf.value), ReadVal(val.value);
      if parents.None? || c.None? || w.None? then None
      else Some(Dac(kind.value.text, ph.value.bytes, pid.value.text, pk.value.bytes, parents.value, c.value, w.value,
                    cls.value.i, hitl.value.b, prev.value.bytes, id.value.bytes,
                    if Absent(ext) then None else ext, None))
  }

  // Strict reading of the signed structure.
  function FromMap(v: Value): Option<Dac> {
    if !v.Map? || !Only(v.entries, ENVELOPE_KEYS) then None
    else FromFields(Project(v.entries, ENVELOPE_KEYS))
  }

  ghost predicate IdsAscending(ps: seq<Bytes>) {
    && (forall i :: 0 <= i < |ps| ==> |ps[i]| == 16)
    && forall i, j :: 0 <= i < j < |ps| ==> Less(ps[i], ps[j])
  }

  ghost predicate SchemaValid(e: Dac) {
    && |e.claimId| == 16 && |e.payloadHash| == 32 && |e.producerPk| == 32 && |e.prev| == 32
    && IdsAscending(e.parents)
    && ValidConf(e.confidence) && ValidWindow(e.validity)
    && 0 <= e.classification <= CLS_REGULATED
    && (e.classification >= CLS_REGULATED ==> e.requiresHitl)
    && (e.ext.Some? ==> !e.ext.value.Null? && IsExt(e.ext))
  }

  // ----- Reading back what was written -----

  lemma {:induction false} SpellingFields(keys: seq<Value>, vals: seq<Option<Value>>, v: Value)
    requires |keys| == |vals| && Names(keys) && Spelling(v, Map(Fields(keys, vals)))
    ensures v.Map? && Only(v.entries, keys)
    ensures Project(v.entries, keys) == vals || Project(v.entries, keys) == NormalAll(vals)
    ensures v == Map(Fields(keys, vals)) ==> Project(v.entries, keys) == vals
    ensures v == Normal(Map(Fields(keys, vals))) ==> Project(v.entries, keys) == NormalAll(vals)
  {
    RecordProject(keys, vals);
  }

  lemma {:induction false} ConfReads(c: Confidence, v: Value)
    requires ValidConf(c) && Spelling(v, ConfMap(c))
    ensures ReadConf(v) == Some(c)
  {
    OtherNames();
    hide Names, Only, Fields, Project, Key;
    SpellingFields(CONF_KEYS, ConfFields(c), v);
    hide Normal;
    ConfFieldsNormal(c);
  }

  lemma {:induction false} ConfFieldsNormal(c: Confidence)
    ensures NormalAll(ConfFields(c)) == ConfFields(c)
  {
    if c.interval.Some? {
      var iv := c.interval.value;
      assert Normal(Arr([Int(iv.loMantissa), Int(iv.loExp)])).items == [Int(iv.loMantissa), Int(iv.loExp)];
      assert Normal(Arr([Int(iv.hiMantissa), Int(iv.hiExp)])).items == [Int(iv.hiMantissa), Int(iv.hiExp)];
      assert Normal(IntervalValue(iv)).items == IntervalValue(iv).items;
    }
  }

  lemma {:induction false} StatusReads(s: Status)
    ensures ReadStatus(Some(StatusText(s))) == Some(s)
  {
    hide Code, Key;
    CodeOf("VALID"); CodeOf("STALE"); CodeOf("REVOKED");
  }

  lemma {:induction false} StatusIsText(s: Status)
    ensures StatusText(s).Tstr?
  {}

  lemma {:induction false} ValReads(w: Validity, v: Value)
    requires ValidWindow(w) && Spelling(v, ValMap(w))
    ensures ReadVal(v) == Some(w)
  {
    OtherNames();
    StatusReads(w.status);
    StatusIsText(w.status);
    hide Names, Only, Fields, Project, Key, StatusText, ReadStatus;
    SpellingFields(VAL_KEYS, ValFields(w), v);
    NormalLeaves(ValFields(w));
    hide Normal;
    assert NormalAll(ValFields(w)) == ValFields(w);
  }

  lemma {:induction false} ParentsRead(ps: seq<Bytes>, prev: Option<Bytes>)
    requires IdsAscending(ps) && (prev.Some? && ps != [] ==> Less(prev.value, ps[0]))
    ensures ReadParents(ParentValues(ps), prev) == Some(ps)
    decreases |ps|
  {
    hide Less;
    if ps != [] {
      assert ParentValues(ps)[1..] == ParentValues(ps[1..]);
      ParentsRead(ps[1..], Some(ps[0]));
      assert ps == [ps[0]] + ps[1..];
    }
  }

  // ext in canonical form, where the map it was read from was in canonical form.
  function ExtOf(e: Dac, canonical: bool): Option<Value> {
    if canonical then NormalField(e.ext) else e.ext
  }

  // Reading the structure, as written or in canonical order, gives back every field.
  lemma {:induction false} EnvelopeReads(e: Dac, v: Value, canonical: bool)
    requires SchemaValid(e) && v == (if canonical then Normal(ToMap(e)) else ToMap(e))
    ensures FromMap(v) == Some(e.(ext := ExtOf(e, canonical), signatures := None))
  {
    EnvelopeNames();
    hide Names, Only, Fields, Project, Key, FromFields, SchemaValid, EnvelopeFields;
    SpellingFields(ENVELOPE_KEYS, EnvelopeFields(e), v);
    FieldsRead(e, canonical);
  }

  lemma {:induction false} FieldsRead(e: Dac, canonical: bool)
    requires SchemaValid(e)
    ensures FromFields(if canonical then NormalAll(EnvelopeFields(e)) else EnvelopeFields(e))
         == Some(e.(ext := ExtOf(e, canonical), signatures := None))
  {
    hide FromFields, Normal, NormalAll, EnvelopeFields, SchemaValid, NormalField;
    if canonical { NormalFieldsRead(e); } else { PlainFieldsRead(e); }
  }

  lemma {:induction false} PlainFieldsRead(e: Dac)
    requires SchemaValid(e)
    ensures FromFields(EnvelopeFields(e)) == Some(e.(signatures := None))
  {
    hide FromFields, Normal, ConfMap, ValMap, ParentValues, IsExt, ReadConf, ReadVal, ReadParents, IdsAscending,
      ValidConf, ValidWindow;
    PartsRead(e);
    FieldsDenote(EnvelopeFields(e), e, e.ext);
  }

  lemma {:induction false} NormalFieldsRead(e: Dac)
    requires SchemaValid(e)
    ensures FromFields(NormalAll(EnvelopeFields(e))) == Some(e.(ext := NormalField(e.ext), signatures := None))
  {
    var g := EnvelopeFields(e);
    hide FromFields, Normal, ConfMap, ValMap, ParentValues, IsExt, ReadConf, ReadVal, ReadParents, SchemaValid;
    FieldwiseNormal(g, NormalAll(g));
    PartsRead(e);
    FieldsDenote(NormalAll(g), e, NormalField(e.ext));
  }

  // The nested parts of a valid envelope are read back from either form.
  lemma {:induction false} PartsRead(e: Dac)
    requires SchemaValid(e)
    ensures ReadConf(ConfMap(e.confidence)) == ReadConf(Normal(ConfMap(e.confidence))) == Some(e.confidence)
    ensures ReadVal(ValMap(e.validity)) == ReadVal(Normal(ValMap(e.validity))) == Some(e.validity)
    ensures ReadParents(ParentValues(e.parents), None) == Some(e.parents)
    ensures Normal(Arr(ParentValues(e.parents))) == Arr(ParentValues(e.parents))
    ensures e.ext.Some? ==> e.ext.value.Map? && Normal(e.ext.value).Map?
    ensures IsExt(e.ext) && IsExt(NormalField(e.ext))
  {
    ConfReads(e.confidence, ConfMap(e.confidence));
    ConfReads(e.confidence, Normal(ConfMap(e.confidence)));
    ValReads(e.validity, ValMap(e.validity));
    ValReads(e.validity, Normal(ValMap(e.validity)));
    ParentsRead(e.parents, None);
    ParentsNormal(e.parents);
    if e.ext.Some? { ExtNormal(e.ext.value); }
  }

  lemma {:induction false} FieldsDenote(f: seq<Option<Value>>, e: Dac, x: Option<Value>)
    requires |f| == 13 && SchemaValid(e)
    requires f[0] == Some(Int(1)) && f[1] == Some(Bstr(e.claimId)) && f[2] == Some(Tstr(e.kind))
    requires f[3] == Some(Bstr(e.payloadHash)) && f[4] == Some(Tstr(e.producerId)) && f[5] == Some(Bstr(e.producerPk))
    requires f[6] == Some(Arr(ParentValues(e.parents))) && ReadParents(ParentValues(e.parents), None) == Some(e.parents)
    requires f[7].Some? && ReadConf(f[7].value) == Some(e.confidence)
    requires f[8].Some? && ReadVal(f[8].value) == Some(e.validity)
    requires f[9] == Some(Int(e.classification)) && f[10] == Some(Bool(e.requiresHitl)) && f[11] == Some(Bstr(e.prev))
    requires f[12] == x && IsExt(x) && (x.Some? ==> !x.value.Null?)
    ensures FromFields(f) == Some(e.(ext := x, signatures := None))
  {
    hide ReadConf, ReadVal, ReadParents, ParentValues, IdsAscending, ValidConf, ValidWindow, IsExt;
  }

  lemma {:induction false} ParentsNormal(ps: seq<Bytes>)
    ensures Normal(Arr(ParentValues(ps))) == Arr(ParentValues(ps))
  {
    assert Normal(Arr(ParentValues(ps))).items == ParentValues(ps);
  }

  lemma {:induction false} ExtNormal(x: Value)
    requires x.Map? && IsExt(Some(x))
    ensures Normal(x).Map? && IsExt(Some(Normal(x)))
  {
    forall j | 0 <= j < |Normal(x).entries| ensures Normal(x).entries[j].key.Tstr? {
      var i := NormalItemBack(x.entries, j);
      TextIsNormal(x.entries[i].key);
    }
  }

  // ----- Writing back what was read -----

  lemma {:induction false} ConfWritten(v: Value, c: Confidence)
    requires ReadConf(v) == Some(c) && Normal(v) == v && NoClash(v)
    ensures ValidConf(c)
    ensures Normal(ConfMap(c)) == v <==> Get(v.entries, IV) != Some(Null)
  {
    OtherNames();
    RecordTextKeyed(v, CONF_KEYS);
    var f := Project(v.entries, CONF_KEYS);
    assert f[3] == Get(v.entries, IV);
    hide Names, Only, Fields, Project, Key, Normal, Get, TextKeyed;
    ConfFieldsNormal(c);
    RecordSame(v.entries, CONF_KEYS, ConfFields(c));
    ConfFieldsWritten(f, c);
  }

  lemma {:induction false} ConfFieldsWritten(f: seq<Option<Value>>, c: Confidence)
    requires |f| == 4 && ConfFromFields(f) == Some(c)
    ensures ValidConf(c)
    ensures ConfFields(c) == f <==> f[3] != Some(Null)
  {
    if !Absent(f[3]) { IntervalWritten(f[3].value); }
  }

  lemma {:induction false} IntervalWritten(v: Value)
    requires ReadInterval(v).Some?
    ensures IntervalValue(ReadInterval(v).value) == v
  {
    var iv := ReadInterval(v).value;
    assert v.items == [v.items[0], v.items[1]];
    assert v.items[0].items == [Int(iv.loMantissa), Int(iv.loExp)];
    assert v.items[1].items == [Int(iv.hiMantissa), Int(iv.hiExp)];
  }

  lemma {:induction false} ValWritten(v: Value, w: Validity)
    requires ReadVal(v) == Some(w) && Normal(v) == v && NoClash(v)
    ensures ValidWindow(w)
    ensures Normal(ValMap(w)) == v <==> Get(v.entries, MON) != Some(Null)
  {
    OtherNames();
    RecordTextKeyed(v, VAL_KEYS);
    var f := Project(v.entries, VAL_KEYS);
    assert f[3] == Get(v.entries, MON);
    hide Names, Only, Fields, Project, Key, Get, TextKeyed, Normal, ValFields;
    ValFieldsNormal(w);
    RecordSame(v.entries, VAL_KEYS, ValFields(w));
    ValFieldsWritten(f, w);
  }

  lemma {:induction false} ValFieldsNormal(w: Validity)
    ensures NormalAll(ValFields(w)) == ValFields(w)
  {
    StatusIsText(w.status);
    hide StatusText;
    NormalLeaves(ValFields(w));
    hide Normal;
  }

  lemma {:induction false} ValFieldsWritten(f: seq<Option<Value>>, w: Validity)
    requires |f| == 4 && ValFromFields(f) == Some(w)
    ensures ValidWindow(w)
    ensures ValFields(w) == f <==> f[3] != Some(Null)
  {
    hide StatusText;
  }

  lemma {:induction false} ParentsWritten(items: seq<Value>, prev: Option<Bytes>, ps: seq<Bytes>)
    requires ReadParents(items, prev) == Some(ps)
    ensures IdsAscending(ps) && ParentValues(ps) == items
    ensures prev.Some? && ps != [] ==> Less(prev.value, ps[0])
    decreases |items|
  {
    hide Less;
    if items != [] {
      var rest := ps[1..];
      ParentsWritten(items[1..], Some(ps[0]), rest);
      assert items == [items[0]] + items[1..];
      assert ParentValues(ps) == [Bstr(ps[0])] + ParentValues(rest);
      forall j | 0 < j < |ps| ensures Less(ps[0], ps[j]) {
        if j > 1 { LessTrans(ps[0], rest[0], rest[j - 1]); }
      }
    }
  }

  // Field k of the dict behind x, where there is one.
  function Nested(x: Option<Value>, k: Value): Option<Value> {
    if x.Some? && x.value.Map? then Get(x.value.entries, k) else None
  }

  // The version field is the integer 1, and no optional key carries an explicit null.
  predicate PlainEnvelope(v: Value) {
    && v.Map?
    && Get(v.entries, V) == Some(Int(1))
    && Get(v.entries, EXT) != Some(Null)
    && Nested(Get(v.entries, CONF), IV) != Some(Null)
    && Nested(Get(v.entries, VAL), MON) != Some(Null)
  }

  // What is read satisfies the schema; it is written back as it was read exactly when the
  // version is the integer 1 and no optional key carries an explicit null.
  lemma {:induction false} EnvelopeWritten(v: Value, e: Dac)
    requires FromMap(v) == Some(e) && Normal(v) == v && NoClash(v)
    ensures SchemaValid(e) && e.signatures.None?
    ensures Normal(ToMap(e)) == v <==> PlainEnvelope(v)
  {
    EnvelopeNames();
    RecordTextKeyed(v, ENVELOPE_KEYS);
    var f := Project(v.entries, ENVELOPE_KEYS);
    assert f[0] == Get(v.entries, V) && f[7] == Get(v.entries, CONF) && f[8] == Get(v.entries, VAL)
      && f[12] == Get(v.entries, EXT);
    hide Names, Only, Fields, Project, Key, Normal, Get, TextKeyed, FromFields, EnvelopeFields, SchemaValid, NoClash;
    ProjectNormal(v, ENVELOPE_KEYS);
    FieldsWritten(f, e);
    RecordSame(v.entries, ENVELOPE_KEYS, EnvelopeFields(e));
  }

  lemma {:induction false} FieldsWritten(f: seq<Option<Value>>, e: Dac)
    requires |f| == 13 && FromFields(f) == Some(e) && NormalAll(f) == f
    requires forall i :: 0 <= i < |f| && f[i].Some? ==> NoClash(f[i].value)
    ensures SchemaValid(e) && e.signatures.None?
    ensures f[7].Some? && f[7].value.Map? && f[8].Some? && f[8].value.Map?
    ensures NormalAll(EnvelopeFields(e)) == f <==>
      f[0] == Some(Int(1)) && f[12] != Some(Null)
      && Get(f[7].value.entries, IV) != Some(Null) && Get(f[8].value.entries, MON) != Some(Null)
  {
    hide FromFields, NormalField, NoClash, EnvelopeFields, SchemaValid, Get, ConfMap, ValMap, Normal, ParentValues,
      IsExt;
    FieldsWrittenParts(f, e);
    WrittenField(e, f);
    SameButFour(EnvelopeFields(e), f);
    FourFields(e, f);
  }

  lemma {:induction false} FieldsWrittenParts(f: seq<Option<Value>>, e: Dac)
    requires |f| == 13 && FromFields(f) == Some(e) && NormalAll(f) == f
    requires forall i :: 0 <= i < |f| && f[i].Some? ==> NoClash(f[i].value)
    ensures SchemaValid(e) && e.signatures.None?
    ensures f[7].Some? && f[7].value.Map? && f[8].Some? && f[8].value.Map? && NormalField(f[12]) == f[12]
    ensures Normal(ConfMap(e.confidence)) == f[7].value <==> Get(f[7].value.entries, IV) != Some(Null)
    ensures Normal(ValMap(e.validity)) == f[8].value <==> Get(f[8].value.entries, MON) != Some(Null)
    ensures e.ext == (if Absent(f[12]) then None else f[12])
    ensures f[1] == Some(Bstr(e.claimId)) && f[2] == Some(Tstr(e.kind))
    ensures f[3] == Some(Bstr(e.payloadHash)) && f[4] == Some(Tstr(e.producerId)) && f[5] == Some(Bstr(e.producerPk))
    ensures f[6] == Some(Arr(ParentValues(e.parents)))
      && Normal(Arr(ParentValues(e.parents))) == Arr(ParentValues(e.parents))
    ensures f[9] == Some(Int(e.classification)) && f[10] == Some(Bool(e.requiresHitl)) && f[11] == Some(Bstr(e.prev))
  {
    hide FromFields, Normal, ReadParents, ConfMap, ValMap, IdsAscending, ValidConf, ValidWindow, NoClash, Get,
      ParentValues, NormalField, IsExt, Absent, ReadConf, ReadVal, NormalAll, Only;
    FromFieldsMeans(f, e);
    ConfIsMap(f[7].value);
    ValIsMap(f[8].value);
    NormalParts(f);
    ConfWritten(f[7].value, e.confidence);
    ValWritten(f[8].value, e.validity);
    ParentsWritten(f[6].value.items, None, e.parents);
    ParentsNormal(e.parents);
  }

  lemma {:induction false} NormalParts(f: seq<Option<Value>>)
    requires |f| == 13 && NormalAll(f) == f && f[7].Some? && f[8].Some?
    ensures Normal(f[7].value) == f[7].value && Normal(f[8].value) == f[8].value && NormalField(f[12]) == f[12]
  {
    hide Normal;
    assert NormalAll(f)[7] == f[7] && NormalAll(f)[8] == f[8] && NormalAll(f)[12] == f[12];
  }

  lemma {:induction false} FourFields(e: Dac, f: seq<Option<Value>>)
    requires |f| == 13 && f[7].Some? && f[8].Some? && NormalField(f[12]) == f[12]
    requires e.ext == (if Absent(f[12]) then None else f[12])
    ensures var g := EnvelopeFields(e);
      && (NormalField(g[7]) == f[7] <==> Normal(ConfMap(e.confidence)) == f[7].value)
      && (NormalField(g[8]) == f[8] <==> Normal(ValMap(e.validity)) == f[8].value)
      && (NormalField(g[12]) == f[12] <==> f[12] != Some(Null))
  {
    hide Normal, ConfMap, ValMap, ParentValues;
  }

  // Every field but v, conf, val and ext is written as it was read.
  lemma {:induction false} WrittenField(e: Dac, f: seq<Option<Value>>)
    requires |f| == 13
    requires f[1] == Some(Bstr(e.claimId)) && f[2] == Some(Tstr(e.kind))
    requires f[3] == Some(Bstr(e.payloadHash)) && f[4] == Some(Tstr(e.producerId)) && f[5] == Some(Bstr(e.producerPk))
    requires f[6] == Some(Arr(ParentValues(e.parents)))
      && Normal(Arr(ParentValues(e.parents))) == Arr(ParentValues(e.parents))
    requires f[9] == Some(Int(e.classification)) && f[10] == Some(Bool(e.requiresHitl)) && f[11] == Some(Bstr(e.prev))
    ensures var g := EnvelopeFields(e);
      && NormalField(g[1]) == f[1] && NormalField(g[2]) == f[2] && NormalField(g[3]) == f[3]
      && NormalField(g[4]) == f[4] && NormalField(g[5]) == f[5] && NormalField(g[6]) == f[6]
      && NormalField(g[9]) == f[9] && NormalField(g[10]) == f[10]
      && NormalField(g[11]) == f[11] && NormalField(g[0]) == Some(Int(1))
  {
    hide ParentValues, ConfMap, ValMap;
  }

  lemma {:induction false} SameButFour(g: seq<Option<Value>>, f: seq<Option<Value>>)
    requires |g| == |f| == 13
    requires NormalField(g[1]) == f[1] && NormalField(g[2]) == f[2] && NormalField(g[3]) == f[3]
    requires NormalField(g[4]) == f[4] && NormalField(g[5]) == f[5] && NormalField(g[6]) == f[6]
    requires NormalField(g[9]) == f[9] && NormalField(g[10]) == f[10]
    requires NormalField(g[11]) == f[11]
    ensures NormalAll(g) == f <==>
      NormalField(g[0]) == f[0] && NormalField(g[7]) == f[7] && NormalField(g[8]) == f[8] && NormalField(g[12]) == f[12]
  {
    hide NormalField;
    var n := NormalAll(g);
    if n == f { assert n[0] == f[0] && n[7] == f[7] && n[8] == f[8] && n[12] == f[12]; }
  }

  // What the checks establish, field by field.
  lemma {:induction false} FromFieldsMeans(f: seq<Option<Value>>, e: Dac)
    requires |f| == 13 && FromFields(f) == Some(e)
    ensures f[1] == Some(Bstr(e.claimId)) && f[2] == Some(Tstr(e.kind))
    ensures f[3] == Some(Bstr(e.payloadHash)) && f[4] == Some(Tstr(e.producerId)) && f[5] == Some(Bstr(e.producerPk))
    ensures f[6].Some? && f[6].value.Arr? && ReadParents(f[6].value.items, None) == Some(e.parents)
    ensures f[7].Some? && ReadConf(f[7].value) == Some(e.confidence)
    ensures f[8].Some? && ReadVal(f[8].value) == Some(e.validity)
    ensures f[9] == Some(Int(e.classification)) && f[10] == Some(Bool(e.requiresHitl)) && f[11] == Some(Bstr(e.prev))
    ensures e.ext == (if Absent(f[12]) then None else f[12]) && IsExt(e.ext) && (e.ext.Some? ==> !e.ext.value.Null?)
    ensures |e.claimId| == 16 && |e.payloadHash| == 32 && |e.producerPk| == 32 && |e.prev| == 32
    ensures 0 <= e.classification <= CLS_REGULATED && (e.classification >= CLS_REGULATED ==> e.requiresHitl)
    ensures e.signatures.None?
  {
    hide ReadConf, ReadVal, ReadParents;
  }

  lemma {:induction false} ConfIsMap(v: Value)
    ensures ReadConf(v).Some? ==> v.Map?
  {}

  lemma {:induction false} ValIsMap(v: Value)
    ensures ReadVal(v).Some? ==> v.Map?
  {}

  lemma {:induction false} FieldwiseNormal(g: seq<Option<Value>>, f: seq<Option<Value>>)
    requires |g| == |f|
    ensures NormalAll(g) == f <==> forall i :: 0 <= i < |f| ==> NormalField(g[i]) == f[i]
    ensures forall i :: 0 <= i < |g| && (g[i].Some? ==> Scalar(g[i].value)) ==> NormalField(g[i]) == g[i]
  {
    if NormalAll(g) == f { assert forall i :: 0 <= i < |f| ==> NormalAll(g)[i] == f[i]; }
  }
}
