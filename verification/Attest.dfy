/** Signature sets: an author signature, attestor signatures and the threshold policy in force. */
module Attest {
  import opened Base
  import opened Cbor
  import opened Schema
  import opened Crypto

  datatype Attestation = Attestation(publicKey: Bytes, signature: Bytes, role: Option<Text>)
  datatype Policy = Policy(required: int, rosterSize: int, rosterHash: Option<Bytes>)
  datatype SignatureSet = SignatureSet(author: Attestation, attestors: seq<Attestation>, policy: Option<Policy>)

  const K := Key("k")
  const S := Key("s")
  const R := Key("r")
  const N := Key("n")
  const M := Key("m")
  const ROSTER := Key("roster")
  const A := Key("a")
  const AT := Key("at")
  const TH := Key("th")
  const ATTESTATION_KEYS := [K, S, R]
  const POLICY_KEYS := [N, M, ROSTER]
  const SIGSET_KEYS := [A, AT, TH]

  lemma {:induction false} KeysAreNames()
    ensures Names(ATTESTATION_KEYS) && Names(POLICY_KEYS) && Names(SIGSET_KEYS)
  {
    hide Names, Code, Key;
    KeyCodes();
    NamesByCode(ATTESTATION_KEYS, [0x16B6B, 0x17373, 0x17272]);
    NamesByCode(POLICY_KEYS, [0x16E6E, 0x16D6D, 0x67272]);
    NamesByCode(SIGSET_KEYS, [0x16161, 0x26174, 0x27468]);
  }

  lemma {:induction false} KeyCodes()
    ensures Code(K) == 0x16B6B && Code(S) == 0x17373 && Code(R) == 0x17272
    ensures Code(N) == 0x16E6E && Code(M) == 0x16D6D && Code(ROSTER) == 0x67272
    ensures Code(A) == 0x16161 && Code(AT) == 0x26174 && Code(TH) == 0x27468
  {
    hide Code, Key;
    CodeOf("k"); CodeOf("s"); CodeOf("r"); CodeOf("n"); CodeOf("m"); CodeOf("roster");
    CodeOf("a"); CodeOf("at"); CodeOf("th");
  }

  // ----- Wire maps -----

  function OptText(x: Option<Text>): Option<Value> {
    if x.None? then None else Some(Tstr(x.value))
  }

  function OptBytes(x: Option<Bytes>): Option<Value> {
    if x.None? then None else Some(Bstr(x.value))
  }

  predicate IsBytes(x: Option<Value>, n: nat) {
    x.Some? && x.value.Bstr? && |x.value.bytes| == n
  }

  predicate IsText(x: Option<Value>) {
    x.Some? && x.value.Tstr?
  }

  predicate IsInt(x: Option<Value>) {
    x.Some? && x.value.Int?
  }

  function AttestationFields(a: Attestation): (r: seq<Option<Value>>)
    ensures |r| == 3
  {
    [Some(Bstr(a.publicKey)), Some(Bstr(a.signature)), OptText(a.role)]
  }

  function AttestationMap(a: Attestation): Value {
    Map(Fields(ATTESTATION_KEYS, AttestationFields(a)))
  }

  function ReadAttestation(v: Value): Option<Attestation> {
    if !v.Map? || !Only(v.entries, ATTESTATION_KEYS) then None
    else
      var k, s, r := Get(v.entries, K), Get(v.entries, S), Get(v.entries, R);
      if IsBytes(k, 32) && IsBytes(s, SIGNATURE_LEN) && (Absent(r) || IsText(r)) then
        Some(Attestation(k.value.bytes, s.value.bytes, if Absent(r) then None else Some(r.value.text)))
      else None
  }

  predicate ValidAttestation(a: Attestation) {
    |a.publicKey| == 32 && |a.signature| == SIGNATURE_LEN
  }

  function PolicyFields(p: Policy): (r: seq<Option<Value>>)
    ensures |r| == 3
  {
    [Some(Int(p.required)), Some(Int(p.rosterSize)), OptBytes(p.rosterHash)]
  }

  function PolicyMap(p: Policy): Value {
    Map(Fields(POLICY_KEYS, PolicyFields(p)))
  }

  function ReadPolicy(v: Value): Option<Policy> {
    if !v.Map? || !Only(v.entries, POLICY_KEYS) then None
    else
      var n, m, r := Get(v.entries, N), Get(v.entries, M), Get(v.entries, ROSTER);
      if IsInt(n) && IsInt(m) && 0 <= n.value.i <= m.value.i && (Absent(r) || IsBytes(r, 32)) then
        Some(Policy(n.value.i, m.value.i, if Absent(r) then None else Some(r.value.bytes)))
      else None
  }

  predicate ValidPolicy(p: Policy) {
    0 <= p.required <= p.rosterSize && (p.rosterHash.Some? ==> |p.rosterHash.value| == 32)
  }

  // ----- Canonical attestor order -----

  function ByKey(ats: seq<Attestation>): (r: seq<Keyed<Attestation>>)
    ensures |r| == |ats|
  {
    seq(|ats|, i requires 0 <= i < |ats| => Keyed(ats[i].publicKey, ats[i]))
  }

  // sorted(ats, key=public key)
  function InOrder(ats: seq<Attestation>): seq<Attestation> {
    Payloads(Sort(ByKey(ats)))
  }

  ghost predicate DifferentKeys(ats: seq<Attestation>) {
    forall i, j :: 0 <= i < j < |ats| ==> ats[i].publicKey != ats[j].publicKey
  }

  ghost predicate KeyAscending(ats: seq<Attestation>) {
    forall i, j :: 0 <= i < j < |ats| ==> Less(ats[i].publicKey, ats[j].publicKey)
  }

  function AttestationMaps(ats: seq<Attestation>): (r: seq<Value>)
    ensures |r| == |ats|
  {
    seq(|ats|, i requires 0 <= i < |ats| => AttestationMap(ats[i]))
  }

  function SigSetFields(s: SignatureSet): (r: seq<Option<Value>>)
    ensures |r| == 3
  {
    [Some(AttestationMap(s.author)),
     if s.attestors == [] then None else Some(Arr(AttestationMaps(InOrder(s.attestors)))),
     if s.policy.None? then None else Some(PolicyMap(s.policy.value))]
  }

  function SigSetMap(s: SignatureSet): Value {
    Map(Fields(SIGSET_KEYS, SigSetFields(s)))
  }

  // The attestors listed in raw: keys strictly ascending after prev, none equal to the author's.
  function ReadAttestors(raw: seq<Value>, author: Bytes, prev: Option<Bytes>): Option<seq<Attestation>> {
    if raw == [] then Some([])
    else
      match ReadAttestation(raw[0])
      case None => None
      case Some(a) =>
        if (prev.Some? && !Less(prev.value, a.publicKey)) || a.publicKey == author then None
        else
          match ReadAttestors(raw[1..], author, Some(a.publicKey))
          case None => None
          case Some(rest) => Some([a] + rest)
  }

  function ReadSignatureSet(v: Value): Option<SignatureSet> {
    if !v.Map? || !Only(v.entries, SIGSET_KEYS) || Get(v.entries, A).None? then None
    else
      var at, th := Get(v.entries, AT), Get(v.entries, TH);
      match ReadAttestation(Get(v.entries, A).value)
      case None => None
      case Some(author) =>
        var attestors :=
          if Absent(at) then Some([])
          else if at.value.Arr? && at.value.items != [] then ReadAttestors(at.value.items, author.publicKey, None)
          else None;
        var policy := if th.None? then None else ReadPolicy(th.value);
        if attestors.None? || (th.Some? && policy.None?) then None
        else Some(SignatureSet(author, attestors.value, policy))
  }

  ghost predicate ValidSigSet(s: SignatureSet) {
    && ValidAttestation(s.author)
    && (forall i :: 0 <= i < |s.attestors| ==>
          ValidAttestation(s.attestors[i]) && s.attestors[i].publicKey != s.author.publicKey)
    && DifferentKeys(s.attestors)
    && (s.policy.Some? ==> ValidPolicy(s.policy.value))
  }

  function Ordered(s: SignatureSet): SignatureSet {
    s.(attestors := InOrder(s.attestors))
  }

  // ----- Reading back what was written -----

  // v is the dict x, or x with its items listed in canonical order.
  predicate Spelling(v: Value, x: Value) {
    v == x || v == Normal(x)
  }

  // Scalars have one form only.
  lemma {:induction false} NormalLeaves(vals: seq<Option<Value>>)
    ensures forall i :: 0 <= i < |vals| && (vals[i].Some? ==> Scalar(vals[i].value)) ==> NormalField(vals[i]) == vals[i]
  {}

  lemma {:induction false} NormalOfMap(es: seq<Entry>)
    ensures Normal(Map(es)).Map?
  {}

  lemma {:induction false} AttestationReads(a: Attestation, v: Value)
    requires ValidAttestation(a) && Spelling(v, AttestationMap(a))
    ensures ReadAttestation(v) == Some(a)
  {
    var fs := AttestationFields(a);
    KeysAreNames();
    hide Names, Only, Fields, Normal, Key, Get;
    RecordReads(ATTESTATION_KEYS, fs);
    assert ATTESTATION_KEYS[0] == K && ATTESTATION_KEYS[1] == S && ATTESTATION_KEYS[2] == R;
    NormalLeaves(fs);
    NormalOfMap(Fields(ATTESTATION_KEYS, fs));
  }

  lemma {:induction false} PolicyReads(p: Policy, v: Value)
    requires ValidPolicy(p) && Spelling(v, PolicyMap(p))
    ensures ReadPolicy(v) == Some(p)
  {
    var fs := PolicyFields(p);
    KeysAreNames();
    hide Names, Only, Fields, Normal, Key, Get;
    RecordReads(POLICY_KEYS, fs);
    assert POLICY_KEYS[0] == N && POLICY_KEYS[1] == M && POLICY_KEYS[2] == ROSTER;
    NormalLeaves(fs);
    NormalOfMap(Fields(POLICY_KEYS, fs));
  }

  lemma {:induction false} InOrderProps(ats: seq<Attestation>)
    ensures |InOrder(ats)| == |ats|
    ensures forall i :: 0 <= i < |ats| ==> InOrder(ats)[i] in ats
    ensures DifferentKeys(ats) ==> KeyAscending(InOrder(ats))
    ensures KeyAscending(ats) ==> InOrder(ats) == ats
  {
    var ks := ByKey(ats);
    SortMembers(ks);
    hide Sort, Less;
    forall i | 0 <= i < |ats|
      ensures InOrder(ats)[i] in ats && Sort(ks)[i].k == InOrder(ats)[i].publicKey
    {
      InOrderMember(ats, i);
    }
    if DifferentKeys(ats) { SortAscending(ks); }
    if KeyAscending(ats) {
      SortFixed(ks);
      assert InOrder(ats) == ats;
    }
  }

  lemma {:induction false} InOrderMember(ats: seq<Attestation>, i: nat)
    requires i < |ats| == |Sort(ByKey(ats))|
    ensures InOrder(ats)[i] in ats && Sort(ByKey(ats))[i].k == InOrder(ats)[i].publicKey
  {
    var ks := ByKey(ats);
    hide Sort;
    SortMembers(ks);
    assert Sort(ks)[i] in multiset(Sort(ks));
    assert Sort(ks)[i] in multiset(ks);
    var j :| 0 <= j < |ks| && ks[j] == Sort(ks)[i];
    assert ks[j].x == ats[j];
  }

  // The order attestors were added in does not show.
  lemma {:induction false} InOrderForgets(a: seq<Attestation>, b: seq<Attestation>)
    requires DifferentKeys(a) && DifferentKeys(b)
    requires multiset(a) == multiset(b)
    ensures InOrder(a) == InOrder(b)
  {
    var x, y := ByKey(a), ByKey(b);
    hide Sort;
    forall i | 0 <= i < |a| ensures x[i] in y {
      assert a[i] in multiset(a);
      var j :| 0 <= j < |b| && b[j] == a[i];
      assert y[j] == x[i];
    }
    forall j | 0 <= j < |b| ensures y[j] in x {
      assert b[j] in multiset(b);
      var i :| 0 <= i < |a| && a[i] == b[j];
      assert x[i] == y[j];
    }
    SortForgetsOrder(x, y);
  }

  lemma {:induction false} AttestorsRead(ats: seq<Attestation>, author: Bytes, prev: Option<Bytes>, vs: seq<Value>)
    requires |vs| == |ats| && KeyAscending(ats)
    requires forall i :: 0 <= i < |ats| ==> ValidAttestation(ats[i]) && ats[i].publicKey != author
    requires forall i :: 0 <= i < |ats| ==> Spelling(vs[i], AttestationMap(ats[i]))
    requires prev.Some? && ats != [] ==> Less(prev.value, ats[0].publicKey)
    ensures ReadAttestors(vs, author, prev) == Some(ats)
    decreases |ats|
  {
    hide AttestationMap, ReadAttestation, Less, Spelling;
    if ats != [] {
      AttestationReads(ats[0], vs[0]);
      AttestorsRead(ats[1..], author, Some(ats[0].publicKey), vs[1..]);
      assert ats == [ats[0]] + ats[1..];
    }
  }

  // A signature set read back from its map, in either order of items: the attestors come sorted.
  lemma {:induction false} SigSetReads(s: SignatureSet, v: Value)
    requires ValidSigSet(s) && Spelling(v, SigSetMap(s))
    ensures ReadSignatureSet(v) == Some(Ordered(s))
  {
    var fs := SigSetFields(s);
    KeysAreNames();
    InOrderProps(s.attestors);
    hide Names, Only, Fields, Normal, Key, Get, ReadAttestation, ReadPolicy, ReadAttestors, AttestationMap, PolicyMap,
      InOrder, Less;
    RecordReads(SIGSET_KEYS, fs);
    assert SIGSET_KEYS[0] == A && SIGSET_KEYS[1] == AT && SIGSET_KEYS[2] == TH;
    NormalOfMap(Fields(SIGSET_KEYS, fs));
    SigSetParts(s);
  }

  lemma {:induction false} SigSetParts(s: SignatureSet)
    requires ValidSigSet(s)
    requires |InOrder(s.attestors)| == |s.attestors| && KeyAscending(InOrder(s.attestors))
    requires forall i :: 0 <= i < |s.attestors| ==> InOrder(s.attestors)[i] in s.attestors
    ensures ReadAttestation(AttestationMap(s.author)) == ReadAttestation(Normal(AttestationMap(s.author)))
      == Some(s.author)
    ensures s.policy.Some? ==> ReadPolicy(PolicyMap(s.policy.value)) == s.policy
    ensures s.policy.Some? ==> ReadPolicy(Normal(PolicyMap(s.policy.value))) == s.policy
    ensures s.attestors == [] ==> InOrder(s.attestors) == []
    ensures var ms := AttestationMaps(InOrder(s.attestors));
      s.attestors != [] ==>
      && ReadAttestors(ms, s.author.publicKey, None) == Some(InOrder(s.attestors))
      && Normal(Arr(ms)).Arr? && Normal(Arr(ms)).items != []
      && ReadAttestors(Normal(Arr(ms)).items, s.author.publicKey, None) == Some(InOrder(s.attestors))
  {
    var ats := InOrder(s.attestors);
    var ms := AttestationMaps(ats);
    hide InOrder, ReadAttestation, AttestationMap, ReadPolicy, PolicyMap, ReadAttestors, Less;
    AttestationReads(s.author, AttestationMap(s.author));
    AttestationReads(s.author, Normal(AttestationMap(s.author)));
    if s.policy.Some? {
      PolicyReads(s.policy.value, PolicyMap(s.policy.value));
      PolicyReads(s.policy.value, Normal(PolicyMap(s.policy.value)));
    }
    forall i | 0 <= i < |ats| ensures ValidAttestation(ats[i]) && ats[i].publicKey != s.author.publicKey {
      var j :| 0 <= j < |s.attestors| && s.attestors[j] == ats[i];
    }
    AttestorsRead(ats, s.author.publicKey, None, ms);
    AttestorsRead(ats, s.author.publicKey, None, Normal(Arr(ms)).items);
  }

  // ----- Writing back what was read -----

  lemma {:induction false} AttestationWritten(v: Value, a: Attestation)
    requires ReadAttestation(v) == Some(a) && Normal(v) == v && NoClash(v)
    ensures ValidAttestation(a)
    ensures Normal(AttestationMap(a)) == v <==> Get(v.entries, R) != Some(Null)
  {
    var fs := AttestationFields(a);
    KeysAreNames();
    RecordTextKeyed(v, ATTESTATION_KEYS);
    hide Names, Only, Fields, Normal, Key, Get;
    ThreeFields(v.entries, K, S, R, fs);
    NormalLeaves(fs);
  }

  lemma {:induction false} PolicyWritten(v: Value, p: Policy)
    requires ReadPolicy(v) == Some(p) && Normal(v) == v && NoClash(v)
    ensures ValidPolicy(p)
    ensures Normal(PolicyMap(p)) == v <==> Get(v.entries, ROSTER) != Some(Null)
  {
    var fs := PolicyFields(p);
    KeysAreNames();
    RecordTextKeyed(v, POLICY_KEYS);
    hide Names, Only, Fields, Normal, Key, Get;
    ThreeFields(v.entries, N, M, ROSTER, fs);
    NormalLeaves(fs);
  }

  lemma {:induction false} AttestorsWritten(vs: seq<Value>, author: Bytes, prev: Option<Bytes>, ats: seq<Attestation>)
    requires ReadAttestors(vs, author, prev) == Some(ats)
    ensures |ats| == |vs| && KeyAscending(ats)
    ensures prev.Some? && ats != [] ==> Less(prev.value, ats[0].publicKey)
    ensures forall i :: 0 <= i < |ats| ==> ReadAttestation(vs[i]) == Some(ats[i]) && ats[i].publicKey != author
    decreases |vs|
  {
    hide ReadAttestation, Less;
    if vs != [] {
      var rest := ats[1..];
      AttestorsWritten(vs[1..], author, Some(ats[0].publicKey), rest);
      forall j | 0 < j < |ats| ensures Less(ats[0].publicKey, ats[j].publicKey) {
        if j > 1 { LessTrans(ats[0].publicKey, rest[0].publicKey, rest[j - 1].publicKey); }
      }
    }
  }

  // No optional key carries an explicit null.
  predicate NullFree(v: Value)
    requires ReadSignatureSet(v).Some?
  {
    && RolesNotNull(Get(v.entries, AT))
    && Get(Get(v.entries, A).value.entries, R) != Some(Null)
    && (Get(v.entries, TH).Some? ==> Get(Get(v.entries, TH).value.entries, ROSTER) != Some(Null))
  }

  predicate RoleNotNull(v: Value) {
    v.Map? && Get(v.entries, R) != Some(Null)
  }

  // What is read is a proper set, in canonical order; it is written back as it was read exactly
  // when no optional key carries an explicit null.
  lemma {:induction false} SigSetWritten(v: Value, s: SignatureSet)
    requires ReadSignatureSet(v) == Some(s) && Normal(v) == v && NoClash(v)
    ensures ValidSigSet(s) && Ordered(s) == s
    ensures Normal(SigSetMap(s)) == v <==> NullFree(v)
  {
    hide Names, Only, Fields, Normal, Key, Get, ReadSignatureSet, NoClash, ValidSigSet, SigSetMap;
    SigSetRead(v, s);
    KeysAreNames();
    RecordTextKeyed(v, SIGSET_KEYS);
    NormalFields(v, A); NormalFields(v, AT); NormalFields(v, TH);
    SigSetPartsWritten(s, Get(v.entries, A).value, Get(v.entries, AT), Get(v.entries, TH));
    hide *;
    SigSetFieldwise(v.entries, s);
  }

  lemma {:induction false} SigSetFieldwise(es: seq<Entry>, s: SignatureSet)
    requires TextKeyed(es) && Only(es, SIGSET_KEYS) && Normal(Map(es)) == Map(es)
    ensures var fs := SigSetFields(s);
      Normal(SigSetMap(s)) == Map(es) <==>
      NormalField(fs[0]) == Get(es, A) && NormalField(fs[1]) == Get(es, AT) && NormalField(fs[2]) == Get(es, TH)
  {
    KeysAreNames();
    hide Names, Only, Normal, Key, Get, TextKeyed, NormalField, Fields;
    ThreeFields(es, A, AT, TH, SigSetFields(s));
  }

  lemma {:induction false} SigSetPartsWritten(s: SignatureSet, a: Value, at: Option<Value>, th: Option<Value>)
    requires ReadAttestation(a) == Some(s.author) && Normal(a) == a && NoClash(a)
    requires AttestorsFrom(at, s) && NormalField(at) == at && (at.Some? ==> NoClash(at.value))
    requires s.policy.Some? <==> th.Some?
    requires th.Some? ==> ReadPolicy(th.value) == s.policy && Normal(th.value) == th.value && NoClash(th.value)
    ensures ValidSigSet(s) && Ordered(s) == s
    ensures var fs := SigSetFields(s);
      && (NormalField(fs[0]) == Some(a) <==> Get(a.entries, R) != Some(Null))
      && (NormalField(fs[1]) == at <==> RolesNotNull(at))
      && (NormalField(fs[2]) == th <==> (th.Some? ==> Get(th.value.entries, ROSTER) != Some(Null)))
  {
    hide Normal, Get, ReadPolicy, ReadAttestation, AttestationMap, PolicyMap, InOrder, NoClash, RolesNotNull,
      AttestorsFrom;
    AttestationWritten(a, s.author);
    if s.policy.Some? { PolicyWritten(th.value, s.policy.value); }
    AttestorsField(at, s);
  }

  lemma {:induction false} ThreeFields(es: seq<Entry>, a: Value, b: Value, c: Value, fs: seq<Option<Value>>)
    requires |fs| == 3 && Names([a, b, c])
    requires TextKeyed(es) && Only(es, [a, b, c]) && Normal(Map(es)) == Map(es)
    ensures Normal(Map(Fields([a, b, c], fs))) == Map(es)
      <==> NormalField(fs[0]) == Get(es, a) && NormalField(fs[1]) == Get(es, b) && NormalField(fs[2]) == Get(es, c)
  {
    var keys := [a, b, c];
    hide Names, Only, Fields, Normal, Get, TextKeyed, NormalField;
    RecordEqual(es, keys, fs);
    assert keys[0] == a && keys[1] == b && keys[2] == c;
  }

  // What reading a signature set establishes, field by field.
  lemma {:induction false} SigSetRead(v: Value, s: SignatureSet)
    requires ReadSignatureSet(v) == Some(s)
    ensures v.Map? && Only(v.entries, SIGSET_KEYS)
    ensures Get(v.entries, A).Some? && ReadAttestation(Get(v.entries, A).value) == Some(s.author)
    ensures AttestorsFrom(Get(v.entries, AT), s)
    ensures s.policy.Some? <==> Get(v.entries, TH).Some?
    ensures s.policy.Some? ==> ReadPolicy(Get(v.entries, TH).value) == s.policy
  {
    hide Only, Get, ReadAttestation, ReadPolicy, ReadAttestors;
  }

  predicate AttestorsFrom(at: Option<Value>, s: SignatureSet) {
    if Absent(at) then s.attestors == []
    else at.value.Arr? && at.value.items != []
         && ReadAttestors(at.value.items, s.author.publicKey, None) == Some(s.attestors)
  }

  predicate RolesNotNull(at: Option<Value>) {
    at != Some(Null) && (at.Some? && at.value.Arr? ==>
      forall i :: 0 <= i < |at.value.items| ==> RoleNotNull(at.value.items[i]))
  }

  lemma {:induction false} AttestorsField(at: Option<Value>, s: SignatureSet)
    requires AttestorsFrom(at, s)
    requires NormalField(at) == at && (at.Some? ==> NoClash(at.value))
    ensures DifferentKeys(s.attestors) && InOrder(s.attestors) == s.attestors
    ensures forall i :: 0 <= i < |s.attestors| ==>
      ValidAttestation(s.attestors[i]) && s.attestors[i].publicKey != s.author.publicKey
    ensures NormalField(SigSetFields(s)[1]) == at <==> RolesNotNull(at)
  {
    hide ReadAttestation, ReadAttestors, AttestationMap, AttestationMaps, InOrder, Less, Get, Normal, NoClash,
      ValidAttestation;
    if Absent(at) {
      InOrderProps(s.attestors);
    } else {
      var vs, ats := at.value.items, s.attestors;
      AttestorsWritten(vs, s.author.publicKey, None, ats);
      InOrderProps(ats);
      AscendingDiffer(ats);
      AttestorsBack(vs, ats);
      hide RoleNotNull;
    }
  }

  // Each attestation is written as it was read exactly when its role is not null; so for the list.
  lemma {:induction false} AttestorsBack(vs: seq<Value>, ats: seq<Attestation>)
    requires |vs| == |ats| && Normal(Arr(vs)) == Arr(vs) && NoClash(Arr(vs))
    requires forall i :: 0 <= i < |ats| ==> ReadAttestation(vs[i]) == Some(ats[i])
    ensures forall i :: 0 <= i < |ats| ==> ValidAttestation(ats[i])
    ensures Normal(Arr(AttestationMaps(ats))) == Arr(vs) <==> forall i :: 0 <= i < |vs| ==> RoleNotNull(vs[i])
  {
    var ms := AttestationMaps(ats);
    hide ReadAttestation, AttestationMap, Get, ValidAttestation;
    forall i | 0 <= i < |ats|
      ensures ValidAttestation(ats[i]) && (Normal(AttestationMap(ats[i])) == vs[i] <==> RoleNotNull(vs[i]))
    {
      assert Normal(Arr(vs)).items[i] == Normal(vs[i]);
      AttestationIsMap(vs[i]);
      AttestationWritten(vs[i], ats[i]);
    }
    hide RoleNotNull;
    assert forall i :: 0 <= i < |ats| ==> Normal(Arr(ms)).items[i] == Normal(AttestationMap(ats[i]));
    if forall i :: 0 <= i < |vs| ==> RoleNotNull(vs[i]) { assert Normal(Arr(ms)).items == vs; }
  }

  lemma {:induction false} AttestationIsMap(v: Value)
    ensures ReadAttestation(v).Some? ==> v.Map?
  {}

  lemma {:induction false} AscendingDiffer(ats: seq<Attestation>)
    requires KeyAscending(ats)
    ensures DifferentKeys(ats)
  {
    forall i, j | 0 <= i < j < |ats| ensures ats[i].publicKey != ats[j].publicKey {
      LessTotal(ats[i].publicKey, ats[j].publicKey);
    }
  }
}
