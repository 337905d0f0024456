/** Inputs at which a documented promise of the code fails. */
module Counterexamples {
  import opened Base
  import opened Cbor
  import opened CborTheorems
  import opened Schema
  import opened Crypto
  import opened Attest
  import opened Threshold
  import opened Envelope
  import opened EnvelopeCodec
  import opened Wire
  import opened Encodable
  import opened Quantize
  import opened Projection
  import opened Chain
  import opened Verifier
  import opened VerifierLaws
  import Issuing
  import Graph
  import Tampering

  // ----- Tuple keys -----

  // {(1,): None} encodes, and its encoding is refused.
  lemma {:induction false} TupleKey()
    ensures var v := Map([Entry(Arr([Int(1)]), Null)]);
      NoClash(v) && Encode(v).Some? && Decode(Encode(v).value) == None
  {
    var key := Arr([Int(1)]);
    var es := [Entry(key, Null)];
    KeyEncodes();
    OneEncodes(es);
    hide Encode, Decode, Same, Normal;
    EncodeDecode(Map(es));
  }

  lemma {:induction false} KeyEncodes()
    ensures Encode(Arr([Int(1)])).Some? && Encode(Null).Some?
  {
    var items := [Int(1)];
    assert items[1..] == [] && EncodeItems([]) == Some([]);
  }

  lemma {:induction false} OneEncodes(es: seq<Entry>)
    requires |es| == 1 && Encode(es[0].key).Some? && Encode(es[0].val).Some?
    ensures Encode(Map(es)).Some?
  {
    hide EncodeEntry;
    EntriesSome(es);
    EncodesEntry(es[0]);
    var ps := EncodeEntries(es).value;
    assert ps[1..] == [] && AllDistinct(ps);
  }

  lemma {:induction false} EncodesEntry(e: Entry)
    requires Encode(e.key).Some? && Encode(e.val).Some?
    ensures EncodeEntry(e).Some?
  {}

  // ----- Spellings the schema lets through -----

  // An envelope with empty texts and nothing optional in it.
  function Sample(pk: Bytes): Dac {
    Dac([], BigEndian(0, 32), [], pk, [], Confidence([], 0, 0, None),
        Validity(None, 0, 0, Valid), 0, false, GENESIS_PREV, BigEndian(0, 16), None, None)
  }

  lemma {:induction false} SampleValid(pk: Bytes)
    requires |pk| == 32
    ensures SchemaValid(Sample(pk)) && Sample(pk).prev == GENESIS_PREV && Sample(pk).signatures.None?
    ensures Encode(ToMap(Sample(pk))).Some?
  {
    hide BigEndian, Encode, ToMap;
    EnvelopeEncodes(Sample(pk));
  }

  // The fields of the sample, field j spelled v.
  function Respelled(pk: Bytes, j: nat, v: Value): Value
    requires j < 13
  {
    Map(Fields(ENVELOPE_KEYS, EnvelopeFields(Sample(pk))[j := Some(v)]))
  }

  // The structure is read as the sample is, but encodes to other bytes, so these are not the ones that come back.
  ghost predicate ReadAsSample(pk: Bytes, v: Value) {
    && FromMap(v) == Some(Sample(pk)) && ToMap(Sample(pk)) != v
    && Encode(v).Some? && Encode(ToMap(Sample(pk))) != Encode(v)
  }

  lemma {:induction false} RespelledAccepted(pk: Bytes, j: nat, v: Value)
    requires |pk| == 32 && j < 13 && Encode(v).Some?
    requires var fs := EnvelopeFields(Sample(pk));
      FromFields(fs[j := Some(v)]) == FromFields(fs) && NormalField(fs[j]) != Some(Normal(v))
    ensures ReadAsSample(pk, Respelled(pk, j, v))
  {
    var fs := EnvelopeFields(Sample(pk));
    var odd := fs[j := Some(v)];
    hide Names, Only, Fields, Project, Key, SchemaValid, FromFields, EnvelopeFields, Encode, Same, Sample, FromMap,
      Normal, NormalAll;
    SampleValid(pk);
    EnvelopeNames();
    RecordProject(ENVELOPE_KEYS, fs);
    RecordProject(ENVELOPE_KEYS, odd);
    EnvelopeReads(Sample(pk), ToMap(Sample(pk)), false);
    FromMapOf(Map(Fields(ENVELOPE_KEYS, fs)));
    FromMapOf(Respelled(pk, j, v));
    SampleWhole(pk);
    OddEncodes(fs, j, v);
    OddDiffers(fs, j, v);
    if Encode(ToMap(Sample(pk))) == Encode(Respelled(pk, j, v)) {
      NormalSame(ToMap(Sample(pk)), Respelled(pk, j, v));
    }
  }

  lemma {:induction false} FromMapOf(v: Value)
    requires v.Map? && Only(v.entries, ENVELOPE_KEYS)
    ensures FromMap(v) == FromFields(Project(v.entries, ENVELOPE_KEYS))
  {
    hide FromFields, Only, Project, Key;
  }

  lemma {:induction false} SampleWhole(pk: Bytes)
    ensures Sample(pk).(ext := ExtOf(Sample(pk), false), signatures := None) == Sample(pk)
  {
    hide BigEndian, Normal;
  }

  lemma {:induction false} OddEncodes(fs: seq<Option<Value>>, j: nat, v: Value)
    requires |fs| == 13 && j < 13 && Encode(v).Some? && Encode(Map(Fields(ENVELOPE_KEYS, fs))).Some?
    ensures Encode(Map(Fields(ENVELOPE_KEYS, fs[j := Some(v)]))).Some?
  {
    EnvelopeNames();
    hide Names, Fields, Key, Encode;
    RecordEncodesIff(ENVELOPE_KEYS, fs);
    RecordEncodesIff(ENVELOPE_KEYS, fs[j := Some(v)]);
  }

  lemma {:induction false} OddDiffers(fs: seq<Option<Value>>, j: nat, v: Value)
    requires |fs| == 13 && j < 13 && NormalField(fs[j]) != Some(Normal(v))
    ensures fs != fs[j := Some(v)] && NormalAll(fs) != NormalAll(fs[j := Some(v)])
  {
    hide Normal;
    var odd := fs[j := Some(v)];
    assert NormalAll(fs)[j] != NormalAll(odd)[j];
  }

  // The version spelled true.
  lemma {:induction false} VersionTrueAccepted(pk: Bytes)
    requires |pk| == 32
    ensures ReadAsSample(pk, Respelled(pk, 0, Bool(true)))
  {
    TrueForOne(EnvelopeFields(Sample(pk)));
    FirstField(pk);
    hide Sample, EnvelopeFields, FromFields, ReadAsSample;
    RespelledAccepted(pk, 0, Bool(true));
  }

  lemma {:induction false} FirstField(pk: Bytes)
    ensures EnvelopeFields(Sample(pk))[0] == Some(Int(1)) && NormalField(Some(Int(1))) != Some(Normal(Bool(true)))
    ensures Encode(Bool(true)).Some?
  {
    hide ConfMap, ValMap, ParentValues, BigEndian;
  }

  lemma {:induction false} TrueForOne(fs: seq<Option<Value>>)
    requires |fs| == 13 && fs[0] == Some(Int(1))
    ensures FromFields(fs[0 := Some(Bool(true))]) == FromFields(fs)
  {
    hide ReadConf, ReadVal, ReadParents, IsExt;
  }

  // An explicit null for the interval.
  function NullInterval(x: Confidence): Value {
    Map(Fields(CONF_KEYS, ConfFields(x)[3 := Some(Null)]))
  }

  lemma {:induction false} NullIntervalAccepted(pk: Bytes)
    requires |pk| == 32
    ensures ReadAsSample(pk, Respelled(pk, 7, NullInterval(Sample(pk).confidence)))
  {
    var x := Sample(pk).confidence;
    ConfField(pk);
    hide Sample, EnvelopeFields, FromFields, ReadAsSample, NullInterval, ConfMap, Encode, Normal, ReadConf, ValidConf;
    NullIntervalReads(x);
    NullIntervalDiffers(x);
    ConfReads(x, ConfMap(x));
    SameConf(EnvelopeFields(Sample(pk)), NullInterval(x));
    RespelledAccepted(pk, 7, NullInterval(x));
  }

  lemma {:induction false} ConfField(pk: Bytes)
    ensures var x := Sample(pk).confidence;
      EnvelopeFields(Sample(pk))[7] == Some(ConfMap(x)) && ValidConf(x) && x.interval.None? && ConfFits(x)
  {
    hide BigEndian, ConfMap;
  }

  lemma {:induction false} SameConf(fs: seq<Option<Value>>, v: Value)
    requires |fs| == 13 && fs[7].Some? && ReadConf(v) == ReadConf(fs[7].value)
    ensures FromFields(fs[7 := Some(v)]) == FromFields(fs)
  {
    hide ReadConf, ReadVal, ReadParents, IsExt;
  }

  lemma {:induction false} NullIntervalReads(x: Confidence)
    requires ValidConf(x) && x.interval.None?
    ensures ReadConf(NullInterval(x)) == Some(x)
  {
    OtherNames();
    hide Names, Fields, Key, Only, Project, Normal, NormalAll;
    RecordProject(CONF_KEYS, ConfFields(x)[3 := Some(Null)]);
  }

  lemma {:induction false} NullIntervalDiffers(x: Confidence)
    requires ValidConf(x) && x.interval.None? && ConfFits(x)
    ensures Encode(NullInterval(x)).Some? && Normal(ConfMap(x)) != Normal(NullInterval(x))
  {
    var fs := ConfFields(x);
    OtherNames();
    hide Names, Fields, Key, Only, Project, Normal, NormalAll, Encode, AllEncode, ConfFits, ValidConf, ConfFields;
    ConfEncodes(x);
    RecordEncodesIff(CONF_KEYS, fs);
    RecordEncodesIff(CONF_KEYS, fs[3 := Some(Null)]);
    NullEncodesToo(fs);
    RecordProject(CONF_KEYS, fs);
    RecordProject(CONF_KEYS, fs[3 := Some(Null)]);
    NoInterval(x);
    NullDiffers(fs);
  }

  lemma {:induction false} NoInterval(x: Confidence)
    requires x.interval.None?
    ensures ConfFields(x)[3].None?
  {}

  lemma {:induction false} NullEncodesToo(fs: seq<Option<Value>>)
    requires |fs| == 4
    ensures AllEncode(fs) ==> AllEncode(fs[3 := Some(Null)])
  {
    NullEncodes();
    hide Encode;
  }

  lemma {:induction false} NullDiffers(fs: seq<Option<Value>>)
    requires |fs| == 4 && fs[3].None?
    ensures NormalAll(fs) != NormalAll(fs[3 := Some(Null)])
  {
    hide Normal;
    assert NormalAll(fs)[3].None? && NormalAll(fs[3 := Some(Null)])[3].Some?;
  }

  lemma {:induction false} NullEncodes()
    ensures Encode(Null).Some?
  {}

  // ----- Ratios outside [0, 1] -----

  // Coverage 1.0000005 is taken for 1, and miscoverage -0.0000005 for 0.
  lemma {:induction false} RatiosOutside()
    ensures RatioToPpmFloor(1.0000005) == Some(1_000_000)
    ensures RatioToPpmCeil(-0.0000005) == Some(0)
  {
    PpmFloorMeans(1.0000005, 1_000_000);
    PpmCeilMeans(-0.0000005, 0);
  }

  // ----- Rows on which verification raises -----

  function RowOfView(e: Dac, recHash: Text): Row {
    Row(e.claimId, Hex(e.prev), recHash, ToProjection(e), Valid, None)
  }

  // A store that holds the view of an unsigned envelope, linked as the first row must be: neither verifier
  // gives a verdict, whatever hash is recorded.
  lemma {:induction false} UnsignedRaises(c: Suite, trust: TrustRoot, e: Dac, recHash: Text)
    requires SchemaValid(e) && e.signatures.None? && e.prev == GENESIS_PREV
    ensures Env(RowOfView(e, recHash)) == Some(e)
    ensures Check(c, [RowOfView(e, recHash)]) == Raised && VerifyStore(c, trust, [RowOfView(e, recHash)]).None?
  {
    var row := RowOfView(e, recHash);
    hide SchemaValid, FromProjection, Hex, VerifyFrom, VerifyStore, CheckFrom, ToMap;
    UnsignedView(e);
    ProjectionRoundTrip(e);
    assert [row][0] == row && RowRaises(row);
    NoReportIff(c, trust, [row]);
    CheckRaisesIff(c, [row], GENESIS_PREV);
    NothingAccepted(c, [row][..0], GENESIS_PREV);
    assert RaisesAt(c, [row], GENESIS_PREV, 0);
  }

  lemma {:induction false} UnsignedView(e: Dac)
    requires e.signatures.None?
    ensures ToProjection(e).Some?
  {}

  lemma {:induction false} NothingAccepted(c: Suite, rows: seq<Row>, first: Bytes)
    requires rows == []
    ensures CheckFrom(c, rows, first) == Accepted
  {}

  // There is such an envelope.
  lemma {:induction false} SomeRaises(c: Suite, trust: TrustRoot) returns (row: Row)
    ensures Check(c, [row]) == Raised && VerifyStore(c, trust, [row]).None?
  {
    var e := Sample(BigEndian(0, 32));
    hide Sample, SchemaValid, ToMap, Encode, BigEndian, VerifyStore, CheckFrom, RowOfView;
    SampleValid(BigEndian(0, 32));
    UnsignedRaises(c, trust, e, []);
    row := RowOfView(e, []);
  }

  // ----- An author who is not the producer -----

  function SignedBy(c: Suite, e: Dac, secret: Bytes): Dac {
    e.(signatures := AuthorOnly(c, secret, ToMap(e), None))
  }

  function RowHashed(c: Suite, e: Dac): Row {
    RowOfView(e, if Message(e).Some? then Hex(c.hash(Message(e).value)) else [])
  }

  lemma {:induction false} SignedByProper(c: Suite, e: Dac, secret: Bytes)
    requires Sound(c) && SchemaValid(e) && Encode(ToMap(e)).Some?
    ensures var f := SignedBy(c, e, secret);
      && f.signatures.Some? && ValidSigSet(f.signatures.value) && Ordered(f.signatures.value) == f.signatures.value
      && SchemaValid(f) && f.producerPk == e.producerPk && ToMap(f) == ToMap(e)
      && Message(f).Some? && ToProjection(f).Some?
      && f.signatures.value.author.signature == c.sign(secret, SigningBytes(ToMap(e)).value)
  {
    hide Encode, ToMap, SchemaValid, SigSetMap, Fields, ProjFields, Hex, Sound, DOMAIN_DAC, ValidSigSet;
    var s := AuthorOnly(c, secret, ToMap(e), None).value;
    var f := SignedBy(c, e, secret);
    Issuing.AuthorOnlyProper(c, secret, ToMap(e), s);
    AuthorSetEncodes(s);
    SameMapUnsigned(e);
    SameMapUnsigned(f);
    assert f.(signatures := None) == e.(signatures := None);
    ValidWhateverSigned(e, Some(s));
  }

  // An envelope that carries a trusted producer's key but is signed with another: the report is ok, trust root
  // and all, because it checks the signature against the key in the signature set; the early-exit check
  // returns false.
  lemma {:induction false} ForeignKey(c: Suite, trust: TrustRoot, e: Dac, secret: Bytes)
    requires Sound(c) && SchemaValid(e) && e.prev == GENESIS_PREV && Encode(ToMap(e)).Some?
      && Trusted(trust, e) != Some(false)
    requires var m := SigningBytes(ToMap(e)).value; !c.verify(e.producerPk, m, c.sign(secret, m))
    ensures var rows := [RowHashed(c, SignedBy(c, e, secret))];
      ReportOk(c, trust, rows) && Check(c, rows) == Rejected
  {
    var f := SignedBy(c, e, secret);
    var row := RowHashed(c, f);
    hide Sound, SchemaValid, Encode, ToMap, SignedBy, RowHashed, ReportOk, CheckFrom, RowSelf, SigningBytes, Trusted;
    SignedRowOk(c, trust, e, secret, f, row);
    AfterOkReport(c, trust, [row]);
    NotSelf(c, row, f);
    assert [row][0] == row;
  }

  // A store of one signed row is ok by the collecting verifier, whoever signed it.
  lemma {:induction false} SignedRowOk(c: Suite, trust: TrustRoot, e: Dac, secret: Bytes, f: Dac, row: Row)
    requires Sound(c) && SchemaValid(e) && e.prev == GENESIS_PREV && Encode(ToMap(e)).Some?
      && Trusted(trust, e) != Some(false)
    requires f == SignedBy(c, e, secret) && row == RowHashed(c, f)
    ensures ReportOk(c, trust, [row]) && Env(row) == Some(f) && f.signatures.Some? && f.producerPk == e.producerPk
    ensures ToMap(f) == ToMap(e) && SigningBytes(ToMap(e)).Some?
    ensures f.signatures.value.author.signature == c.sign(secret, SigningBytes(ToMap(e)).value)
  {
    hide Sound, SchemaValid, ValidSigSet, Ordered, Encode, ToMap, Message, ToProjection, FromProjection, Hex,
      VerifyReport, VerifyStore, CheckFrom, CleanRow, CleanFrom, RowSelf, SigningBytes, Trusted, SignedBy;
    SignedByProper(c, e, secret);
    ProjectionRoundTrip(f);
    SetUnchanged(f);
    assert Env(row) == Some(f);
    ForeignClean(c, trust, e, secret);
    CleanFromStep(c, trust, [row], 0, GENESIS_PREV);
    NothingLeft(c, trust, [row], HashOf(c, row));
    CleanIsOk(c, trust, [row]);
  }

  // Signed with the key the envelope carries, it is accepted by the early-exit check too.
  lemma {:induction false} OwnKey(c: Suite, e: Dac, secret: Bytes, row: Row)
    requires Sound(c) && SchemaValid(e) && e.prev == GENESIS_PREV && Encode(ToMap(e)).Some?
    requires e.producerPk == c.publicKey(secret) && row == RowHashed(c, SignedBy(c, e, secret))
    ensures Check(c, [row]) == Accepted && Env(row) == Some(SignedBy(c, e, secret))
  {
    var f := SignedBy(c, e, secret);
    hide SchemaValid, Encode, ToMap, SignedBy, RowHashed, ReportOk, CheckFrom, RowSelf, SigningBytes, Trusted, Env,
      Sound;
    NobodyAsked(e);
    SignedRowOk(c, None, e, secret, f, row);
    AfterOkReport(c, None, [row]);
    HonestVerifies(c, secret, SigningBytes(ToMap(e)).value);
    IsSelf(c, row, f);
    assert AllSelf(c, [row]);
  }

  lemma {:induction false} NobodyAsked(e: Dac)
    ensures Trusted(None, e) != Some(false)
  {}

  lemma {:induction false} HonestVerifies(c: Suite, secret: Bytes, m: Bytes)
    requires Sound(c)
    ensures c.verify(c.publicKey(secret), m, c.sign(secret, m))
  {}

  lemma {:induction false} IsSelf(c: Suite, row: Row, f: Dac)
    requires Env(row) == Some(f) && f.signatures.Some? && SigningBytes(ToMap(f)).Some?
    requires c.verify(f.producerPk, SigningBytes(ToMap(f)).value, f.signatures.value.author.signature)
    ensures RowSelf(c, row)
  {
    hide Env, SigningBytes, ToMap;
  }

  lemma {:induction false} SetUnchanged(f: Dac)
    requires f.signatures.Some? && Ordered(f.signatures.value) == f.signatures.value
    ensures f.(signatures := Some(Ordered(f.signatures.value))) == f
  {
    hide Ordered;
  }

  lemma {:induction false} CleanIsOk(c: Suite, trust: TrustRoot, rows: seq<Row>)
    requires CleanFrom(c, trust, rows, 0, GENESIS_PREV)
    ensures ReportOk(c, trust, rows)
  {
    hide VerifyFrom;
  }

  lemma {:induction false} NotSelf(c: Suite, row: Row, f: Dac)
    requires Env(row) == Some(f) && f.signatures.Some? && SigningBytes(ToMap(f)).Some?
    requires !c.verify(f.producerPk, SigningBytes(ToMap(f)).value, f.signatures.value.author.signature)
    ensures !RowSelf(c, row)
  {
    hide Env, SigningBytes, ToMap;
  }

  lemma {:induction false} ForeignClean(c: Suite, trust: TrustRoot, e: Dac, secret: Bytes)
    requires Sound(c) && Encode(ToMap(e)).Some? && e.prev == GENESIS_PREV && Trusted(trust, e) != Some(false)
    requires var f := SignedBy(c, e, secret); Env(RowHashed(c, f)) == Some(f) && Message(f).Some?
    ensures CleanRow(c, trust, RowHashed(c, SignedBy(c, e, secret)), GENESIS_PREV)
    ensures SigningBytes(ToMap(SignedBy(c, e, secret))).Some?
  {
    hide Sound, Encode, ToMap, Env, Hex, VerifyReport, ToProjection, Message;
    SigningVerifies(c, e, secret, None, None);
    TrustedSame(trust, e, SignedBy(c, e, secret));
  }

  lemma {:induction false} TrustedSame(trust: TrustRoot, e: Dac, f: Dac)
    requires e.producerId == f.producerId && e.producerPk == f.producerPk
    ensures Trusted(trust, e) == Trusted(trust, f)
  {}

  // There is such a store.
  lemma {:induction false} SomeForeignKey() returns (c: Suite, row: Row)
    ensures Sound(c) && ReportOk(c, OneKeyRoot(), [row]) && Check(c, [row]) == Rejected
  {
    c := NamingSuite();
    var e := Sample(NamedKey([]));
    hide NamingSuite, NamedKey, Sample, SchemaValid, Encode, ToMap, Sound, ReportOk, CheckFrom, BigEndian, RowHashed,
      SignedBy, Trusted;
    NamingSound();
    NamedKeyLength();
    SampleValid(NamedKey([]));
    SampleTrusted();
    OtherKey(SigningBytes(ToMap(e)).value);
    ForeignKey(c, OneKeyRoot(), e, [7]);
    row := RowHashed(c, SignedBy(c, e, [7]));
  }

  // A trust root that knows only the key of the empty secret.
  function OneKeyRoot(): TrustRoot {
    Some((id, pk) => pk == NamedKey([]))
  }

  lemma {:induction false} SampleTrusted()
    ensures Trusted(OneKeyRoot(), Sample(NamedKey([]))) != Some(false)
    ensures Sample(NamedKey([])).producerPk == NamedKey([])
  {
    hide NamedKey, BigEndian;
  }

  lemma {:induction false} NamedKeyLength()
    ensures |NamedKey([])| == 32
  {}

  lemma {:induction false} OtherKey(m: Bytes)
    ensures var c := NamingSuite(); !c.verify(NamedKey([]), m, c.sign([7], m))
  {
    KeysDiffer();
    hide NamedKey;
  }

  lemma {:induction false} KeysDiffer()
    ensures NamedKey([7]) + NamedKey([7]) != NamedKey([]) + NamedKey([])
  {
    assert BigEndian(1, 32)[31] == 1 && BigEndian(0, 32)[31] == 0;
    assert (NamedKey([7]) + NamedKey([7]))[31] == 1;
  }

  // ----- Alterations that go unnoticed -----

  // A first claim, signed by the producer it names.
  function HonestRow(secret: Bytes): Row {
    RowHashed(NamingSuite(), SignedBy(NamingSuite(), Sample(NamedKey(secret)), secret))
  }

  lemma {:induction false} HonestAccepted(secret: Bytes)
    ensures Check(NamingSuite(), [HonestRow(secret)]) == Accepted
    ensures Env(HonestRow(secret)) == Some(SignedBy(NamingSuite(), Sample(NamedKey(secret)), secret))
  {
    hide NamingSuite, Sample, SchemaValid, Encode, ToMap, Sound, CheckFrom, RowHashed, SignedBy, Env, NamedKey;
    NamingSound();
    SampleOf(secret);
    OwnKey(NamingSuite(), Sample(NamedKey(secret)), secret, HonestRow(secret));
  }

  // Bound to another monitor, whose cascade now reaches it, the claim is still accepted.
  lemma {:induction false} ReboundAccepted(secret: Bytes, m: Text, rebound: Row)
    requires rebound == HonestRow(secret).(monitor := Some(m))
    ensures Check(NamingSuite(), [rebound]) == Accepted
    ensures Graph.Hit([rebound], [], m, rebound) && !Graph.Hit([HonestRow(secret)], [], m, HonestRow(secret))
  {
    hide NamingSuite, Check, HonestRow, Env, Graph.Hit;
    HonestAccepted(secret);
    ReboundSame(NamingSuite(), HonestRow(secret), m, rebound);
    Unbound(secret);
    Rebound(HonestRow(secret), m, rebound);
  }

  lemma {:induction false} ReboundSame(c: Suite, row: Row, m: Text, rebound: Row)
    requires rebound == row.(monitor := Some(m))
    ensures Check(c, [rebound]) == Check(c, [row])
  {
    hide Check, VerifyStore;
    Tampering.ColumnsUnseen(c, None, [row], 0, rebound);
    assert [row][0 := rebound] == [rebound];
  }

  // Two claims of different producers: either is accepted in the other's place.
  lemma {:induction false} ReplacedAccepted()
    ensures Check(NamingSuite(), [HonestRow([])]) == Check(NamingSuite(), [HonestRow([7])]) == Accepted
    ensures !SameEnvelope(HonestRow([7]), HonestRow([]))
  {
    hide NamingSuite, CheckFrom, HonestRow, Env, SignedBy, Sample, NamedKey;
    HonestAccepted([]);
    HonestAccepted([7]);
    SampleOf([]);
    SampleOf([7]);
    OtherProducer(NamingSuite(), Sample(NamedKey([])), Sample(NamedKey([7])), HonestRow([]), HonestRow([7]));
  }

  lemma {:induction false} SampleOf(secret: Bytes)
    ensures SchemaValid(Sample(NamedKey(secret))) && Sample(NamedKey(secret)).prev == GENESIS_PREV
    ensures Encode(ToMap(Sample(NamedKey(secret)))).Some?
    ensures Sample(NamedKey(secret)).producerPk == NamedKey(secret) == NamingSuite().publicKey(secret)
  {
    hide BigEndian, Encode, ToMap, SchemaValid;
    SampleValid(NamedKey(secret));
  }

  lemma {:induction false} OtherProducer(c: Suite, d: Dac, e: Dac, row: Row, other: Row)
    requires d.producerPk == NamedKey([]) && e.producerPk == NamedKey([7])
    requires Env(row) == Some(SignedBy(c, d, [])) && Env(other) == Some(SignedBy(c, e, [7]))
    ensures !SameEnvelope(other, row)
  {
    KeysDiffer();
    hide Env, ToMap, NamedKey, Normal;
  }

  lemma {:induction false} Rebound(row: Row, m: Text, rebound: Row)
    requires rebound == row.(monitor := Some(m)) && row.monitor.None? && row.status == Valid
    ensures Graph.Hit([rebound], [], m, rebound) && !Graph.Hit([row], [], m, row)
  {
    hide Graph.Reaches;
    Graph.ReachesSelf([], rebound.id);
    assert [rebound][0] == rebound;
  }

  lemma {:induction false} Unbound(secret: Bytes)
    ensures HonestRow(secret).monitor.None? && HonestRow(secret).status == Valid
  {
    hide Message, ToProjection, Hex, SignedBy;
  }

  // ----- One key attesting twice -----

  // A 2-of-3 set that one attestor has signed twice is ok, for any keys and any structure.
  lemma {:induction false} AttestingTwice(c: Suite, author: Bytes, other: Bytes, struct: Value)
    requires Sound(c) && c.publicKey(other) != c.publicKey(author) && SigningBytes(struct).Some?
    ensures var s := AuthorOnly(c, author, struct, Some(Policy(2, 3, None))).value;
      var t := AddAttestor(c, s, other, struct, None);
      && t.Some? && AddAttestor(c, t.value, other, struct, None).Some?
      && var u := AddAttestor(c, t.value, other, struct, None).value;
        && VerifyReport(c, u, SigningBytes(struct).value, None).ok && Required(u) == 2 && |KeySet(u.attestors)| == 1
  {
    var m := SigningBytes(struct).value;
    var a := SignatureOf(c, Signer(other, None), m);
    var s := AuthorOnly(c, author, struct, Some(Policy(2, 3, None))).value;
    hide SigningBytes, VerifyReport, InOrder;
    TwoAlike(a);
    var u := AddAttestor(c, AddAttestor(c, s, other, struct, None).value, other, struct, None).value;
    assert u.attestors == [a, a];
    OkMeans(c, u, m, None);
    assert KeySet([a, a]) == {a.publicKey} by { assert [a, a][0] == a; }
  }

  lemma {:induction false} TwoAlike(a: Attestation)
    ensures InOrder([] + [a]) == [a] && InOrder([a] + [a]) == [a, a]
  {
    LessTotal(a.publicKey, a.publicKey);
    var one := [Keyed(a.publicKey, a)];
    assert ByKey([] + [a]) == one && ByKey([a] + [a]) == one + one;
    assert (one + one)[1..] == one && one[1..] == [];
    assert Sort(one) == one && Sort(one + one) == Insert(one[0], one) == one + one;
  }
}
