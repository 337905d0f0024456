/** The hash chain over stored claims: the early-exit check and what acceptance implies. */
module Chain {
  import opened Base
  import opened Cbor
  import opened CborLaws
  import opened CborTheorems
  import opened Schema
  import opened Crypto
  import opened Attest
  import opened Envelope
  import opened Wire
  import opened Projection

  // A row of the claims table. json is what parsing the json column gives, if it parses.
  datatype Row = Row(
    id: Bytes, prevHash: Text, recHash: Text, json: Option<Value>, status: Status, monitor: Option<Text>)

  function Env(row: Row): Option<Dac> {
    if row.json.None? then None else FromProjection(row.json.value)
  }

  // The bytes under an envelope's record hash; None where computing it raises (unsigned, or not encodable).
  function Message(e: Dac): Option<Bytes> {
    if e.signatures.None? then None else RecordMessage(ToMap(e), SigSetMap(e.signatures.value))
  }

  // The author's signature, checked against the key the envelope carries.
  predicate SelfVerifies(c: Suite, e: Dac) {
    && e.signatures.Some? && SigningBytes(ToMap(e)).Some?
    && c.verify(e.producerPk, SigningBytes(ToMap(e)).value, e.signatures.value.author.signature)
  }

  // verify_chain returns true or false, or lets an exception out.
  datatype Outcome = Accepted | Rejected | Raised

  function CheckFrom(c: Suite, rows: seq<Row>, prev: Bytes): Outcome {
    if rows == [] then Accepted
    else
      match Env(rows[0])
      case None => Rejected
      case Some(e) =>
        if e.prev != prev then Rejected
        else
          match Message(e)
          case None => Raised
          case Some(m) =>
            if Hex(c.hash(m)) != rows[0].recHash || !SelfVerifies(c, e) then Rejected
            else CheckFrom(c, rows[1..], c.hash(m))
  }

  function Check(c: Suite, rows: seq<Row>): Outcome {
    CheckFrom(c, rows, GENESIS_PREV)
  }

  // ----- Acceptance, row by row -----

  // The row parses, has a record message, hashes to its recorded value, and verifies.
  predicate RowSound(c: Suite, row: Row) {
    && Env(row).Some?
    && Message(Env(row).value).Some?
    && Hex(c.hash(Message(Env(row).value).value)) == row.recHash
    && SelfVerifies(c, Env(row).value)
  }

  function RowHash(c: Suite, row: Row): Bytes {
    if RowSound(c, row) then c.hash(Message(Env(row).value).value) else []
  }

  predicate LinksTo(c: Suite, row: Row, prev: Bytes) {
    RowSound(c, row) && Env(row).value.prev == prev
  }

  // Row i is sound and carries its predecessor's record hash, the first one `first`.
  predicate RowLinked(c: Suite, rows: seq<Row>, first: Bytes, i: int)
    requires 0 <= i < |rows|
  {
    LinksTo(c, rows[i], if i == 0 then first else RowHash(c, rows[i - 1]))
  }

  ghost predicate Linked(c: Suite, rows: seq<Row>, first: Bytes) {
    forall i :: 0 <= i < |rows| ==> RowLinked(c, rows, first, i)
  }

  // The early-exit check accepts exactly the linked chains of sound rows.
  lemma {:induction false} CheckIffLinked(c: Suite, rows: seq<Row>, first: Bytes)
    ensures CheckFrom(c, rows, first) == Accepted <==> Linked(c, rows, first)
    decreases |rows|
  {
    hide Env, Message, SelfVerifies, Hex;
    if rows != [] {
      CheckIffLinked(c, rows[1..], RowHash(c, rows[0]));
      CheckStep(c, rows, first);
      LinkedTail(c, rows, first);
    }
  }

  lemma {:induction false} CheckStep(c: Suite, rows: seq<Row>, first: Bytes)
    requires rows != []
    ensures CheckFrom(c, rows, first) == Accepted <==>
      RowLinked(c, rows, first, 0) && CheckFrom(c, rows[1..], RowHash(c, rows[0])) == Accepted
  {
    hide Env, Message, SelfVerifies, Hex;
  }

  lemma {:induction false} RowLinkedNext(c: Suite, rows: seq<Row>, first: Bytes, i: nat)
    requires i + 1 < |rows|
    ensures RowLinked(c, rows[1..], RowHash(c, rows[0]), i) <==> RowLinked(c, rows, first, i + 1)
  {
    hide LinksTo, RowHash;
    assert rows[1..][i] == rows[i + 1];
    if i > 0 { assert rows[1..][i - 1] == rows[i]; }
  }

  lemma {:induction false} LinkedTail(c: Suite, rows: seq<Row>, first: Bytes)
    requires rows != []
    ensures Linked(c, rows, first) <==> RowLinked(c, rows, first, 0) && Linked(c, rows[1..], RowHash(c, rows[0]))
  {
    hide Linked, RowLinked, RowHash;
    if Linked(c, rows, first) { TailOfLinked(c, rows, first, rows[1..], RowHash(c, rows[0])); }
    if RowLinked(c, rows, first, 0) && Linked(c, rows[1..], RowHash(c, rows[0])) {
      LinkedFromTail(c, rows, first, rows[1..], RowHash(c, rows[0]));
    }
  }

  lemma {:induction false} TailOfLinked(c: Suite, rows: seq<Row>, first: Bytes, rest: seq<Row>, h: Bytes)
    requires Linked(c, rows, first) && rows != [] && rest == rows[1..] && h == RowHash(c, rows[0])
    ensures RowLinked(c, rows, first, 0) && Linked(c, rest, h)
  {
    hide RowLinked, RowHash;
    forall i | 0 <= i < |rest| ensures RowLinked(c, rest, h, i) { RowLinkedNext(c, rows, first, i); }
  }

  lemma {:induction false} LinkedFromTail(c: Suite, rows: seq<Row>, first: Bytes, rest: seq<Row>, h: Bytes)
    requires rows != [] && rest == rows[1..] && h == RowHash(c, rows[0])
    requires RowLinked(c, rows, first, 0) && Linked(c, rest, h)
    ensures Linked(c, rows, first)
  {
    hide RowLinked, RowHash;
    forall i | 0 <= i < |rows| ensures RowLinked(c, rows, first, i) {
      if i > 0 { RowLinkedNext(c, rows, first, i - 1); }
    }
  }

  // ----- When the check raises -----

  // The rows before row k are accepted and row k links to them, but its envelope has no record hash.
  predicate RaisesAt(c: Suite, rows: seq<Row>, first: Bytes, k: nat) {
    && k < |rows| && CheckFrom(c, rows[..k], first) == Accepted
    && Env(rows[k]).Some? && Env(rows[k]).value.prev == (if k == 0 then first else RowHash(c, rows[k - 1]))
    && Message(Env(rows[k]).value).None?
  }

  lemma {:induction false} RaisedStep(c: Suite, rows: seq<Row>, first: Bytes)
    requires rows != []
    ensures CheckFrom(c, rows, first) == Raised <==>
      || RaisesAt(c, rows, first, 0)
      || (RowLinked(c, rows, first, 0) && CheckFrom(c, rows[1..], RowHash(c, rows[0])) == Raised)
  {
    hide Env, Message, SelfVerifies, Hex;
  }

  lemma {:induction false} RaisesNext(c: Suite, rows: seq<Row>, first: Bytes, k: nat)
    requires rows != []
    ensures RaisesAt(c, rows, first, k + 1)
      <==> RowLinked(c, rows, first, 0) && RaisesAt(c, rows[1..], RowHash(c, rows[0]), k)
  {
    hide Env, Message, CheckFrom, RowHash, LinksTo;
    if k + 1 < |rows| {
      var front := rows[..k + 1];
      assert front[0] == rows[0] && front[1..] == rows[1..][..k];
      CheckStep(c, front, first);
      assert rows[1..][k] == rows[k + 1];
      if k > 0 { assert rows[1..][k - 1] == rows[k]; }
    }
  }

  // The check raises, instead of returning false, exactly when the first row it cannot accept links to its
  // predecessor but is unsigned or has no encoding.
  lemma {:induction false} CheckRaisesIff(c: Suite, rows: seq<Row>, first: Bytes)
    ensures CheckFrom(c, rows, first) == Raised <==> exists k: nat :: RaisesAt(c, rows, first, k)
    decreases |rows|
  {
    if rows != [] {
      var h := RowHash(c, rows[0]);
      RaisedStep(c, rows, first);
      CheckRaisesIff(c, rows[1..], h);
      hide CheckFrom, RaisesAt, RowLinked, RowHash;
      if k: nat :| RaisesAt(c, rows, first, k) {
        if k > 0 { RaisesNext(c, rows, first, k - 1); }
      }
      if RowLinked(c, rows, first, 0) && CheckFrom(c, rows[1..], h) == Raised {
        var k: nat :| RaisesAt(c, rows[1..], h, k);
        RaisesNext(c, rows, first, k);
      }
    }
  }

  // What the next row has to carry: the last record hash, or the genesis value.
  function HeadHash(c: Suite, rows: seq<Row>): Bytes {
    if rows == [] then GENESIS_PREV else RowHash(c, rows[|rows| - 1])
  }

  // Appending a sound row that links to the head keeps a chain accepted.
  lemma {:induction false} LinkedSnoc(c: Suite, rows: seq<Row>, row: Row)
    requires Linked(c, rows, GENESIS_PREV) && LinksTo(c, row, HeadHash(c, rows))
    ensures Linked(c, rows + [row], GENESIS_PREV)
  {
    hide LinksTo, RowHash;
    var more := rows + [row];
    forall i | 0 <= i < |more| ensures RowLinked(c, more, GENESIS_PREV, i) {
      if i < |rows| {
        assert RowLinked(c, rows, GENESIS_PREV, i) && more[i] == rows[i];
        if i > 0 { assert more[i - 1] == rows[i - 1]; }
      }
    }
  }

  // ----- Everything that can be read back is valid -----

  lemma {:induction false} FromMapValid(v: Value, e: Dac)
    requires FromMap(v) == Some(e)
    ensures SchemaValid(e) && e.signatures.None?
  {
    var f := Project(v.entries, ENVELOPE_KEYS);
    hide FromFields, Only, Project, Key, IsExt, ReadConf, ReadVal, ReadParents, ParentValues, IdsAscending, ValidConf,
      ValidWindow;
    FromFieldsMeans(f, e);
    ReadConfValid(f[7].value);
    ReadValValid(f[8].value);
    ParentsWritten(f[6].value.items, None, e.parents);
  }

  lemma {:induction false} ReadConfValid(v: Value)
    ensures ReadConf(v).Some? ==> ValidConf(ReadConf(v).value)
  {
    hide Only, Project, Key;
    if ReadConf(v).Some? { ConfFieldsWritten(Project(v.entries, CONF_KEYS), ReadConf(v).value); }
  }

  lemma {:induction false} ReadValValid(v: Value)
    ensures ReadVal(v).Some? ==> ValidWindow(ReadVal(v).value)
  {
    hide Only, Project, Key;
    if ReadVal(v).Some? { ValFieldsWritten(Project(v.entries, VAL_KEYS), ReadVal(v).value); }
  }

  lemma {:induction false} SigSetValid(v: Value, s: SignatureSet)
    requires ReadSignatureSet(v) == Some(s)
    ensures ValidSigSet(s) && Ordered(s) == s
  {
    hide ReadAttestation, ReadPolicy, ReadAttestors, ReadSignatureSet, InOrder, Get, Only, Less;
    SigSetRead(v, s);
    AttestationValid(Get(v.entries, A).value);
    if s.policy.Some? { PolicyValid(Get(v.entries, TH).value); }
    if !Absent(Get(v.entries, AT)) {
      var vs := Get(v.entries, AT).value.items;
      AttestorsWritten(vs, s.author.publicKey, None, s.attestors);
      forall i | 0 <= i < |s.attestors| ensures ValidAttestation(s.attestors[i]) { AttestationValid(vs[i]); }
    }
    AscendingDiffer(s.attestors);
    InOrderProps(s.attestors);
  }

  lemma {:induction false} AttestationValid(v: Value)
    ensures ReadAttestation(v).Some? ==> ValidAttestation(ReadAttestation(v).value)
  {}

  lemma {:induction false} PolicyValid(v: Value)
    ensures ReadPolicy(v).Some? ==> ValidPolicy(ReadPolicy(v).value)
  {}

  lemma {:induction false} EnvValid(row: Row)
    requires Env(row).Some?
    ensures SchemaValid(Env(row).value)
    ensures Env(row).value.signatures.Some? ==>
      ValidSigSet(Env(row).value.signatures.value)
        && Ordered(Env(row).value.signatures.value) == Env(row).value.signatures.value
  {
    FromProjectionValid(row.json.value);
  }

  lemma {:induction false} FromProjectionValid(proj: Value)
    requires FromProjection(proj).Some?
    ensures var e := FromProjection(proj).value;
      && SchemaValid(e)
      && (e.signatures.Some? ==> ValidSigSet(e.signatures.value) && Ordered(e.signatures.value) == e.signatures.value)
  {
    var f := Project(proj.entries, PROJ_KEYS);
    hide FromMap, Structure, Project, Fields, Key, SchemaValid, ValidSigSet, Ordered, ReadSig;
    var m := Structure(f).value;
    var e := FromMap(Map(Fields(ENVELOPE_KEYS, m))).value;
    FromMapValid(Map(Fields(ENVELOPE_KEYS, m)), e);
    ReadSigValid(f[12]);
    ValidWhateverSigned(e, ReadSig(f[12]).value);
  }

  lemma {:induction false} ReadSigValid(x: Option<Value>)
    ensures ReadSig(x).Some? && ReadSig(x).value.Some? ==>
      ValidSigSet(ReadSig(x).value.value) && Ordered(ReadSig(x).value.value) == ReadSig(x).value.value
  {
    hide ReadSignatureSet, Decode, FromHex, ValidSigSet, Ordered;
    if ReadSig(x).Some? && ReadSig(x).value.Some? {
      var v := Decode(HexField(x).value).value;
      SigSetValid(v, ReadSig(x).value.value);
    }
  }

  // ----- Equal messages come from equal envelopes -----

  // The same envelope, up to the order of the items in ext.
  ghost predicate Alike(a: Dac, b: Dac) {
    a.(ext := NormalField(a.ext)) == b.(ext := NormalField(b.ext))
  }

  // Tag, structure and signature set can be told apart in the message they are laid end to end in.
  lemma {:induction false} MessageParts(a: Dac, b: Dac)
    requires Message(a).Some? && Message(a) == Message(b)
    ensures Encode(ToMap(a)).Some? && Encode(ToMap(a)) == Encode(ToMap(b))
    ensures var x, y := SigSetMap(a.signatures.value), SigSetMap(b.signatures.value);
      Encode(x).Some? && Encode(x) == Encode(y)
  {
    hide Encode, Same, ToMap, SigSetMap;
    var d := DOMAIN_DAC;
    var p, q := Encode(ToMap(a)).value, Encode(ToMap(b)).value;
    var s, t := Encode(SigSetMap(a.signatures.value)).value, Encode(SigSetMap(b.signatures.value)).value;
    assert d + p + s == d + (p + s) && d + q + t == d + (q + t);
    assert (d + (p + s))[|d|..] == p + s && (d + (q + t))[|d|..] == q + t;
    EncodingsParseUniquely(ToMap(a), s, ToMap(b), t);
  }

  lemma {:induction false} EqualMessagesAlike(a: Dac, b: Dac)
    requires Message(a).Some? && Message(a) == Message(b)
    requires SchemaValid(a) && SchemaValid(b)
    requires ValidSigSet(a.signatures.value) && ValidSigSet(b.signatures.value)
    requires Ordered(a.signatures.value) == a.signatures.value && Ordered(b.signatures.value) == b.signatures.value
    ensures Alike(a, b)
  {
    MessageParts(a, b);
    var s, t := a.signatures.value, b.signatures.value;
    hide Encode, ToMap, SigSetMap, Normal, SchemaValid, ValidSigSet, Ordered, Message, FromMap, ReadSignatureSet;
    NormalSame(ToMap(a), ToMap(b));
    NormalSame(SigSetMap(s), SigSetMap(t));
    EnvelopeReads(a, Normal(ToMap(a)), true);
    EnvelopeReads(b, Normal(ToMap(b)), true);
    SigSetReads(s, Normal(SigSetMap(s)));
    SigSetReads(t, Normal(SigSetMap(t)));
  }

  lemma {:induction false} NormalSame(v: Value, w: Value)
    requires Encode(v).Some? && Encode(v) == Encode(w)
    ensures Normal(v) == Normal(w)
  {
    hide Encode, Normal, Parse;
    RoundTrip(v, [], false);
    RoundTrip(w, [], false);
  }

  // ----- The head determines the history -----

  ghost predicate SameEnvelope(a: Row, b: Row) {
    Env(a).Some? && Env(b).Some? && Alike(Env(a).value, Env(b).value)
  }

  ghost predicate SameEnvelopes(a: seq<Row>, b: seq<Row>) {
    |a| == |b| && forall i :: 0 <= i < |a| ==> SameEnvelope(a[i], b[i])
  }

  ghost function Messages(rows: seq<Row>): set<Bytes> {
    set i | 0 <= i < |rows| && Env(rows[i]).Some? && Message(Env(rows[i]).value).Some? ::
      Message(Env(rows[i]).value).value
  }

  lemma {:induction false} SameHashAlike(c: Suite, a: Row, b: Row, ms: set<Bytes>)
    requires RowSound(c, a) && RowSound(c, b) && CollisionFree(c, ms)
    requires Message(Env(a).value).value in ms && Message(Env(b).value).value in ms
    requires RowHash(c, a) == RowHash(c, b)
    ensures SameEnvelope(a, b) && Env(a).value.prev == Env(b).value.prev
  {
    hide Env, Message, SelfVerifies, Hex, SchemaValid, ValidSigSet, Ordered, Alike;
    EnvValid(a);
    EnvValid(b);
    MessageSigned(Env(a).value);
    MessageSigned(Env(b).value);
    EqualMessagesAlike(Env(a).value, Env(b).value);
    AlikePrev(Env(a).value, Env(b).value);
  }

  lemma {:induction false} MessageSigned(e: Dac)
    ensures Message(e).Some? ==> e.signatures.Some?
  {}

  // Two accepted chains that end in the same record hash have the same length and the same envelopes
  // (signed structure and signature set) at every position, as long as no two of the messages hashed
  // in them collide and none hashes to the genesis value.
  lemma {:induction false} HeadDeterminesHistory(c: Suite, a: seq<Row>, b: seq<Row>, ms: set<Bytes>)
    requires Check(c, a) == Accepted && Check(c, b) == Accepted && a != [] && b != []
    requires a[|a| - 1].recHash == b[|b| - 1].recHash
    requires Messages(a) <= ms && Messages(b) <= ms && CollisionFree(c, ms)
    ensures SameEnvelopes(a, b)
  {
    hide CheckFrom, Env, Hex, RowSound, RowHash, Message, SelfVerifies, SameEnvelopes, CollisionFree;
    CheckIffLinked(c, a, GENESIS_PREV);
    CheckIffLinked(c, b, GENESIS_PREV);
    assert RowLinked(c, a, GENESIS_PREV, |a| - 1) && RowLinked(c, b, GENESIS_PREV, |b| - 1);
    RecHash(c, a[|a| - 1]);
    RecHash(c, b[|b| - 1]);
    HexInjective(RowHash(c, a[|a| - 1]), RowHash(c, b[|b| - 1]));
    LinkedFromHead(c, a, b, ms);
  }

  lemma {:induction false} RecHash(c: Suite, row: Row)
    requires RowSound(c, row)
    ensures row.recHash == Hex(RowHash(c, row)) && Env(row).Some?
  {
    hide Env, Message, SelfVerifies, Hex;
  }

  lemma {:induction false} LinkedFromHead(c: Suite, a: seq<Row>, b: seq<Row>, ms: set<Bytes>)
    requires Linked(c, a, GENESIS_PREV) && Linked(c, b, GENESIS_PREV) && a != [] && b != []
    requires RowHash(c, a[|a| - 1]) == RowHash(c, b[|b| - 1])
    requires Messages(a) <= ms && Messages(b) <= ms && CollisionFree(c, ms)
    ensures SameEnvelopes(a, b)
    decreases |a|
  {
    var m, n := |a| - 1, |b| - 1;
    hide Linked, RowHash, RowSound, SameEnvelope, SameEnvelopes, CollisionFree, Messages, Env, Message;
    var p := LastRow(c, a, ms);
    var q := LastRow(c, b, ms);
    SameHashAlike(c, a[m], b[n], ms);
    assert p == q;
    if m > 0 {
      LinkedInit(c, a); LinkedInit(c, b);
      LinkedFromHead(c, a[..m], b[..n], ms);
    }
    SameSnoc(a, b);
  }

  lemma {:induction false} SameSnoc(a: seq<Row>, b: seq<Row>)
    requires a != [] && b != [] && SameEnvelope(a[|a| - 1], b[|b| - 1])
    requires |a| == |b| == 1 || SameEnvelopes(a[..|a| - 1], b[..|b| - 1])
    ensures SameEnvelopes(a, b)
  {
    hide SameEnvelope;
    forall i | 0 <= i < |a| - 1 ensures SameEnvelope(a[i], b[i]) {
      assert a[..|a| - 1][i] == a[i] && b[..|b| - 1][i] == b[i];
    }
  }

  // The last row is sound; it carries the genesis value exactly when it is the only one.
  lemma {:induction false} LastRow(c: Suite, a: seq<Row>, ms: set<Bytes>) returns (prev: Bytes)
    requires Linked(c, a, GENESIS_PREV) && a != [] && Messages(a) <= ms && CollisionFree(c, ms)
    ensures var row := a[|a| - 1];
      && RowSound(c, row) && Message(Env(row).value).value in ms && Env(row).value.prev == prev
    ensures |a| == 1 <==> prev == GENESIS_PREV
    ensures |a| > 1 ==> prev == RowHash(c, a[|a| - 2])
  {
    var m := |a| - 1;
    hide Env, RowSound, RowHash, Message, SelfVerifies, Hex, CollisionFree, Messages;
    assert RowLinked(c, a, GENESIS_PREV, m);
    RecHash(c, a[m]);
    prev := Env(a[m]).value.prev;
    InMessages(c, a, m, ms);
    if m > 0 {
      assert RowLinked(c, a, GENESIS_PREV, m - 1);
      InMessages(c, a, m - 1, ms);
    }
  }

  lemma {:induction false} AlikePrev(a: Dac, b: Dac)
    requires Alike(a, b)
    ensures a.prev == b.prev
  {}

  // A sound row's message is among those hashed, and its record hash is not the genesis value.
  lemma {:induction false} InMessages(c: Suite, rows: seq<Row>, i: nat, ms: set<Bytes>)
    requires i < |rows| && RowSound(c, rows[i]) && Messages(rows) <= ms && CollisionFree(c, ms)
    ensures Message(Env(rows[i]).value).value in ms
    ensures RowHash(c, rows[i]) != GENESIS_PREV
  {
    hide Env, Message, SelfVerifies, Hex;
    assert Message(Env(rows[i]).value).value in Messages(rows);
  }

  lemma {:induction false} LinkedInit(c: Suite, rows: seq<Row>)
    requires rows != [] && Linked(c, rows, GENESIS_PREV)
    ensures Linked(c, rows[..|rows| - 1], GENESIS_PREV)
    ensures Messages(rows[..|rows| - 1]) <= Messages(rows)
  {
    hide Env, Message, RowSound, RowHash;
    var init := rows[..|rows| - 1];
    forall i | 0 <= i < |init| ensures RowLinked(c, init, GENESIS_PREV, i) {
      assert RowLinked(c, rows, GENESIS_PREV, i);
    }
  }
}
