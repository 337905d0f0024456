/** The JSON view of a signed envelope: byte fields as hex text, everything else carried through. */
module Projection {
  import opened Base
  import opened Cbor
  import opened CborLaws
  import opened CborTheorems
  import opened Schema
  import opened Attest
  import opened Envelope
  import opened Encodable
  import opened Wire

  // ----- Hex -----

  function Digit(n: int): (d: Byte)
    requires 0 <= n < 16
  {
    if n < 10 then 48 + n else 87 + n
  }

  function HexBytes(b: Bytes): (t: Bytes)
    ensures |t| == 2 * |b|
    ensures forall i :: 0 <= i < |t| ==> 48 <= t[i] < 0x80
  {
    if b == [] then [] else [Digit(b[0] / 16), Digit(b[0] % 16)] + HexBytes(b[1..])
  }

  // b.hex()
  function Hex(b: Bytes): Text {
    AsciiIsUtf8(HexBytes(b));
    HexBytes(b)
  }

  // The value of a hex digit in either case, or 16.
  function DigitValue(d: Byte): (n: int)
    ensures 0 <= n <= 16
  {
    if 48 <= d <= 57 then d - 48
    else if 97 <= d <= 102 then d - 87
    else if 65 <= d <= 70 then d - 55
    else 16
  }

  predicate Space(d: Byte) { d == 32 || 9 <= d <= 13 }

  // bytes.fromhex(t): either case, whitespace between bytes skipped.
  function FromHex(t: Bytes): Option<Bytes> {
    if t == [] then Some([])
    else if Space(t[0]) then FromHex(t[1..])
    else if |t| < 2 || DigitValue(t[0]) == 16 || DigitValue(t[1]) == 16 then None
    else
      match FromHex(t[2..])
      case None => None
      case Some(rest) => Some([DigitValue(t[0]) * 16 + DigitValue(t[1])] + rest)
  }

  lemma {:induction false} HexReads(b: Bytes)
    ensures FromHex(Hex(b)) == Some(b)
  {
    if b != [] {
      HexReads(b[1..]);
      assert Hex(b)[2..] == Hex(b[1..]);
      assert b == [b[0]] + b[1..];
    }
  }

  lemma {:induction false} HexInjective(a: Bytes, b: Bytes)
    requires Hex(a) == Hex(b)
    ensures a == b
  {
    HexReads(a);
    HexReads(b);
  }

  // ----- Writing the view -----

  const PROJ_KEYS := [V, ID, KIND, PH, PID, PK, PAR, CONF, VAL, CLS, HITL, PREV, SIG, EXT]

  function HexValues(bs: seq<Bytes>): (r: seq<Value>)
    ensures |r| == |bs|
  {
    seq(|bs|, i requires 0 <= i < |bs| => Tstr(Hex(bs[i])))
  }

  function SigHex(s: Option<SignatureSet>): Option<Text> {
    match s
    case None => Some([])
    case Some(sigs) =>
      match Encode(SigSetMap(sigs))
      case None => None
      case Some(b) => Some(Hex(b))
  }

  function ProjFields(e: Dac, sig: Text): (r: seq<Option<Value>>)
    ensures |r| == 14
  {
    [Some(Int(1)), Some(Tstr(Hex(e.claimId))), Some(Tstr(e.kind)), Some(Tstr(Hex(e.payloadHash))),
     Some(Tstr(e.producerId)),
     Some(Tstr(Hex(e.producerPk))), Some(Arr(HexValues(e.parents))), Some(ConfMap(e.confidence)),
     Some(ValMap(e.validity)),
     Some(Int(e.classification)), Some(Bool(e.requiresHitl)), Some(Tstr(Hex(e.prev))), Some(Tstr(sig)), e.ext]
  }

  function ToProjection(e: Dac): Option<Value> {
    match SigHex(e.signatures)
    case None => None
    case Some(sig) => Some(Map(Fields(PROJ_KEYS, ProjFields(e, sig))))
  }

  // ----- Reading it back -----

  function HexField(x: Option<Value>): Option<Bytes> {
    if IsText(x) then FromHex(x.value.text) else None
  }

  // What iterating over the value yields: list items, dict keys, and nothing for the empty text.
  function Iterated(v: Value): Option<seq<Value>> {
    match v
    case Arr(items) => Some(items)
    case Map(es) => Some(seq(|es|, i requires 0 <= i < |es| => es[i].key))
    case Tstr(t) => if t == [] then Some([]) else None
    case _ => None
  }

  function HexItems(items: seq<Value>): Option<seq<Bytes>> {
    if items == [] then Some([])
    else
      match HexField(Some(items[0]))
      case None => None
      case Some(b) =>
        match HexItems(items[1..])
        case None => None
        case Some(rest) => Some([b] + rest)
  }

  // A float under k becomes the integer it equals; any other float is an error.
  function FixFloat(es: seq<Entry>, k: Value): Option<seq<Entry>> {
    if es == [] then Some([])
    else if es[0].key == k then
      if es[0].val.Float? then
        if es[0].val.r == es[0].val.r.Floor as real then Some([Entry(k, Int(es[0].val.r.Floor))] + es[1..]) else None
      else Some(es)
    else
      match FixFloat(es[1..], k)
      case None => None
      case Some(rest) => Some([es[0]] + rest)
  }

  function FixSection(v: Value, j: Value, k: Value): Option<Value> {
    if !v.Map? then None
    else
      match FixFloat(v.entries, j)
      case None => None
      case Some(es) =>
        match FixFloat(es, k)
        case None => None
        case Some(fs) => Some(Map(fs))
  }

  predicate Truthy(v: Value) {
    match v
    case Bool(b) => b
    case Null => false
    case Float(r) => r != 0.0
    case Int(i) => i != 0
    case Bstr(b) => b != []
    case Tstr(t) => t != []
    case Arr(items) => items != []
    case Map(es) => es != []
  }

  // The signature set behind the sig field: none when it is missing or empty.
  function ReadSig(x: Option<Value>): Option<Option<SignatureSet>> {
    if x.None? || !Truthy(x.value) then Some(None)
    else
      match HexField(x)
      case None => None
      case Some(raw) =>
        match Decode(raw)
        case None => None
        case Some(v) =>
          var s := ReadSignatureSet(v);
          if s.None? then None else Some(s)
  }

  // The structure handed to the schema: hex fields decoded, floats repaired, a null ext dropped.
  function Structure(f: seq<Option<Value>>): Option<seq<Option<Value>>>
    requires |f| == 14
  {
    if f[0].None? || f[2].None? || f[4].None? || f[6].None? then None
    else if f[7].None? || f[8].None? || f[9].None? || f[10].None? then None
    else
      var id, ph, pk, prev := HexField(f[1]), HexField(f[3]), HexField(f[5]), HexField(f[11]);
      if id.None? || ph.None? || pk.None? || prev.None? || Iterated(f[6].value).None? then None
      else
        var par := HexItems(Iterated(f[6].value).value);
        var conf, val := FixSection(f[7].value, V, A), FixSection(f[8].value, IAT, EXP);
        if par.None? || conf.None? || val.None? then None
        else Some([f[0], Some(Bstr(id.value)), f[2], Some(Bstr(ph.value)), f[4], Some(Bstr(pk.value)),
                   Some(Arr(ParentValues(par.value))), conf, val, f[9], f[10], Some(Bstr(prev.value)),
                   if Absent(f[13]) then None else f[13]])
  }

  function FromProjection(proj: Value): Option<Dac> {
    if !proj.Map? then None
    else
      var f := Project(proj.entries, PROJ_KEYS);
      match Structure(f)
      case None => None
      case Some(m) =>
        match FromMap(Map(Fields(ENVELOPE_KEYS, m)))
        case None => None
        case Some(e) =>
          match ReadSig(f[12])
          case None => None
          case Some(s) => Some(e.(signatures := s))
  }

  // ----- The view is lossless -----

  lemma {:induction false} ProjNames()
    ensures Names(PROJ_KEYS)
  {
    hide Names, Code, Distinct, Key;
    EnvelopeCodes(); EnvelopeCodes2(); MoreCodes(); ProjCodesDiffer();
    NamesByCode(PROJ_KEYS, [0x17676, 0x26964, 0x46B64, 0x27068, 0x37064, 0x2706B, 0x37072, 0x46366, 0x3766C, 0x36373,
      0x4686C, 0x47076, 0x37367, 0x36574]);
  }

  lemma {:induction false} ProjCodesDiffer()
    ensures Distinct([0x17676, 0x26964, 0x46B64, 0x27068, 0x37064, 0x2706B, 0x37072, 0x46366, 0x3766C, 0x36373, 0x4686C,
      0x47076, 0x37367, 0x36574])
  {}

  lemma {:induction false} HexItemsRead(bs: seq<Bytes>)
    ensures HexItems(HexValues(bs)) == Some(bs)
  {
    hide Hex, FromHex;
    if bs != [] {
      HexReads(bs[0]);
      assert HexValues(bs)[1..] == HexValues(bs[1..]);
      HexItemsRead(bs[1..]);
      assert bs == [bs[0]] + bs[1..];
    }
  }

  lemma {:induction false} FixFloatIdle(es: seq<Entry>, k: Value)
    requires Get(es, k).Some? ==> !Get(es, k).value.Float?
    ensures FixFloat(es, k) == Some(es)
  {
    if es != [] && es[0].key != k {
      FixFloatIdle(es[1..], k);
      assert es == [es[0]] + es[1..];
    }
  }

  lemma {:induction false} FixConf(c: Confidence)
    ensures FixSection(ConfMap(c), V, A) == Some(ConfMap(c))
  {
    OtherNames();
    hide Names, Fields, Key, Get, FixFloat, Only, Normal;
    RecordReads(CONF_KEYS, ConfFields(c));
    assert CONF_KEYS[1] == V && CONF_KEYS[2] == A;
    FixFloatIdle(ConfMap(c).entries, V);
    FixFloatIdle(ConfMap(c).entries, A);
  }

  lemma {:induction false} FixVal(w: Validity)
    ensures FixSection(ValMap(w), IAT, EXP) == Some(ValMap(w))
  {
    OtherNames();
    hide Names, Fields, Key, Get, FixFloat, Only, Normal, StatusText;
    RecordReads(VAL_KEYS, ValFields(w));
    assert VAL_KEYS[0] == IAT && VAL_KEYS[1] == EXP;
    FixFloatIdle(ValMap(w).entries, IAT);
    FixFloatIdle(ValMap(w).entries, EXP);
  }

  lemma {:induction false} StructureReads(e: Dac, sig: Text)
    requires SchemaValid(e)
    ensures Structure(ProjFields(e, sig)) == Some(EnvelopeFields(e))
  {
    hide Hex, FromHex, ConfMap, ValMap, FixSection, ParentValues, HexItems, HexValues, IdsAscending, ValidConf,
      ValidWindow, IsExt;
    HexReads(e.claimId); HexReads(e.payloadHash); HexReads(e.producerPk); HexReads(e.prev);
    HexItemsRead(e.parents);
    FixConf(e.confidence);
    FixVal(e.validity);
  }

  lemma {:induction false} SigReads(s: SignatureSet)
    requires ValidSigSet(s) && Encode(SigSetMap(s)).Some?
    ensures ReadSig(Some(Tstr(Hex(Encode(SigSetMap(s)).value)))) == Some(Some(Ordered(s)))
  {
    var b := Encode(SigSetMap(s)).value;
    hide Hex, FromHex, ReadSignatureSet, SigSetMap, Encode, Decode, NoClash, ScalarKeys, Normal, ValidSigSet, Ordered;
    HexReads(b);
    HexNonEmpty(b);
    EncodeNonEmpty(SigSetMap(s));
    SigSetProper(s);
    EncodeDecode(SigSetMap(s));
    SigSetReads(s, Normal(SigSetMap(s)));
    hide Same;
    ReadSigSteps(Hex(b), b, Normal(SigSetMap(s)));
  }

  lemma {:induction false} ReadSigSteps(t: Text, b: Bytes, v: Value)
    requires t != [] && FromHex(t) == Some(b) && Decode(b) == Some(v) && ReadSignatureSet(v).Some?
    ensures ReadSig(Some(Tstr(t))) == Some(ReadSignatureSet(v))
  {
    hide FromHex, Decode, ReadSignatureSet;
  }

  lemma {:induction false} HexNonEmpty(b: Bytes)
    ensures |Hex(b)| == 2 * |b|
  {}

  lemma {:induction false} EncodeNonEmpty(v: Value)
    requires Encode(v).Some?
    ensures Encode(v).value != []
  {
    var b := Encode(v).value;
    hide Encode, Normal;
    RoundTrip(v, [], false);
    assert b + [] == b;
  }

  function InKeyOrder(e: Dac): Dac {
    if e.signatures.None? then e else e.(signatures := Some(Ordered(e.signatures.value)))
  }

  // An envelope has a view unless its signature set does not encode. Rebuilt from the view, it is the
  // envelope, its attestors in key order.
  lemma {:induction false} ProjectionRoundTrip(e: Dac)
    requires SchemaValid(e) && (e.signatures.Some? ==> ValidSigSet(e.signatures.value))
    ensures ToProjection(e).Some? <==> (e.signatures.Some? ==> SigSetFits(e.signatures.value))
    ensures ToProjection(e).Some? ==> FromProjection(ToProjection(e).value) == Some(InKeyOrder(e))
  {
    hide SchemaValid, ValidSigSet, FromProjection, Ordered, SigSetMap, Encode, ProjFields, Fields, Hex, SigSetFits;
    if e.signatures.Some? { SigSetEncodes(e.signatures.value); }
    if ToProjection(e).Some? { ViewReads(e); }
  }

  lemma {:induction false} ViewReads(e: Dac)
    requires SchemaValid(e) && (e.signatures.Some? ==> ValidSigSet(e.signatures.value))
    requires ToProjection(e).Some?
    ensures FromProjection(ToProjection(e).value) == Some(InKeyOrder(e))
  {
    var sig := SigHex(e.signatures).value;
    hide SchemaValid, ValidSigSet, Structure, ProjFields, FromMap, ReadSig, Project, Fields, Names, Only, Key,
      Ordered, Hex, SigSetMap, Encode, EnvelopeFields, Normal, FromProjection;
    ProjNames();
    RecordProject(PROJ_KEYS, ProjFields(e, sig));
    StructureReads(e, sig);
    EnvelopeReads(e, ToMap(e), false);
    SigField(e, sig);
    SigHexReads(e.signatures);
    ProjectionSteps(ToProjection(e).value, ProjFields(e, sig), EnvelopeFields(e));
  }

  lemma {:induction false} SigHexReads(s: Option<SignatureSet>)
    requires SigHex(s).Some? && (s.Some? ==> ValidSigSet(s.value))
    ensures ReadSig(Some(Tstr(SigHex(s).value))) == Some(if s.None? then None else Some(Ordered(s.value)))
  {
    hide ValidSigSet, ReadSig, Ordered, Hex, SigSetMap, Encode;
    if s.Some? { SigReads(s.value); } else { NoSig(); }
  }

  lemma {:induction false} ProjectionSteps(proj: Value, f: seq<Option<Value>>, m: seq<Option<Value>>)
    requires |f| == 14 && |m| == 13
    requires proj.Map? && Project(proj.entries, PROJ_KEYS) == f && Structure(f) == Some(m)
    requires FromMap(Map(Fields(ENVELOPE_KEYS, m))).Some? && ReadSig(f[12]).Some?
    ensures FromProjection(proj)
         == Some(FromMap(Map(Fields(ENVELOPE_KEYS, m))).value.(signatures := ReadSig(f[12]).value))
  {
    hide Structure, FromMap, ReadSig, Project, Fields, Key;
  }

  lemma {:induction false} NoSig()
    ensures ReadSig(Some(Tstr([]))) == Some(None)
  {}

  lemma {:induction false} SigField(e: Dac, sig: Text)
    ensures ProjFields(e, sig)[12] == Some(Tstr(sig))
  {}
}
