/** Verifying a signature set against its recorded threshold, and adding attestors to it. */
module Threshold {
  import opened Base
  import opened Cbor
  import opened Schema
  import opened Crypto
  import opened Attest

  // The keys a signed roster lists, and the hash of its encoding.
  datatype Roster = Roster(keys: seq<Bytes>, hash: Bytes)

  datatype Problem =
    | AuthorSignatureInvalid
    | AttestorSignatureInvalid
    | AttestorNotInRoster
    | ThresholdNotReached
    | RosterHashMismatch

  datatype Report = Report(
    authorOk: bool, valid: seq<Bytes>, invalid: seq<Bytes>, unrostered: seq<Bytes>,
    required: int, met: bool, problems: seq<Problem>, ok: bool)

  function Fingerprint(c: Suite, pk: Bytes): Bytes {
    if |c.hash(pk)| <= 8 then c.hash(pk) else c.hash(pk)[..8]
  }

  predicate Signed(c: Suite, a: Attestation, message: Bytes) {
    c.verify(a.publicKey, message, a.signature)
  }

  predicate Rostered(a: Attestation, roster: Option<Roster>) {
    roster.None? || a.publicKey in roster.value.keys
  }

  function Required(s: SignatureSet): int {
    if s.policy.None? then 0 else s.policy.value.required
  }

  predicate RosterMatches(s: SignatureSet, roster: Option<Roster>) {
    roster.Some? && s.policy.Some? && s.policy.value.rosterHash.Some? ==>
      roster.value.hash == s.policy.value.rosterHash.value
  }

  method Verify(c: Suite, s: SignatureSet, message: Bytes, roster: Option<Roster>) returns (r: Report)
    ensures r == VerifyReport(c, s, message, roster)
  {
    var authorOk := Signed(c, s.author, message);
    var valid, invalid, unrostered := SortAttestors(c, s.attestors, message, roster);
    var required := Required(s);
    var met := |valid| >= required;
    hide Sorted, Signed, RosterMatches;
    var problems: seq<Problem> := if authorOk then [] else [AuthorSignatureInvalid];
    if invalid != [] { problems := problems + [AttestorSignatureInvalid]; }
    ghost var p1 := problems;
    if unrostered != [] { problems := problems + [AttestorNotInRoster]; }
    if !met { problems := problems + [ThresholdNotReached]; }
    ghost var p2 := problems;
    if !RosterMatches(s, roster) { problems := problems + [RosterHashMismatch]; }
    assert p1 == When(!authorOk, AuthorSignatureInvalid) + When(invalid != [], AttestorSignatureInvalid);
    assert p2 == p1 + When(unrostered != [], AttestorNotInRoster) + When(!met, ThresholdNotReached);
    assert problems == p2 + When(!RosterMatches(s, roster), RosterHashMismatch);
    assert RosterHashMismatch !in p1 && RosterHashMismatch !in p2;
    r := Report(authorOk, valid, invalid, unrostered, required, met, problems,
      authorOk && met && invalid == [] && unrostered == [] && RosterHashMismatch !in problems);
  }

  // One pass over the attestors sorts their fingerprints into three lists.
  method SortAttestors(c: Suite, ats: seq<Attestation>, message: Bytes, roster: Option<Roster>)
    returns (valid: seq<Bytes>, invalid: seq<Bytes>, unrostered: seq<Bytes>)
    ensures (valid, invalid, unrostered) == Sorted(c, ats, message, roster)
  {
    valid, invalid, unrostered := [], [], [];
    for i := 0 to |ats|
      invariant (valid, invalid, unrostered) == Sorted(c, ats[..i], message, roster)
    {
      assert ats[..i + 1][..i] == ats[..i];
      var f := [Fingerprint(c, ats[i].publicKey)];
      if !Signed(c, ats[i], message) {
        invalid := invalid + f;
      } else if !Rostered(ats[i], roster) {
        unrostered := unrostered + f;
      } else {
        valid := valid + f;
      }
    }
    assert ats[..|ats|] == ats;
  }

  function When(b: bool, p: Problem): seq<Problem> {
    if b then [p] else []
  }

  // Fingerprints of the valid, the invalid and the unrostered attestors, in their order.
  function Sorted(c: Suite, ats: seq<Attestation>, message: Bytes, roster: Option<Roster>): (seq<Bytes>, seq<Bytes>,
      seq<Bytes>)
  {
    if ats == [] then ([], [], [])
    else
      var n := |ats| - 1;
      var (v, i, u) := Sorted(c, ats[..n], message, roster);
      var f := [Fingerprint(c, ats[n].publicKey)];
      if !Signed(c, ats[n], message) then (v, i + f, u)
      else if !Rostered(ats[n], roster) then (v, i, u + f)
      else (v + f, i, u)
  }

  function VerifyReport(c: Suite, s: SignatureSet, message: Bytes, roster: Option<Roster>): Report {
    var authorOk := Signed(c, s.author, message);
    var (valid, invalid, unrostered) := Sorted(c, s.attestors, message, roster);
    var met := |valid| >= Required(s);
    Report(authorOk, valid, invalid, unrostered, Required(s), met,
      When(!authorOk, AuthorSignatureInvalid) + When(invalid != [], AttestorSignatureInvalid)
        + When(unrostered != [], AttestorNotInRoster) + When(!met, ThresholdNotReached)
        + When(!RosterMatches(s, roster), RosterHashMismatch),
      authorOk && met && invalid == [] && unrostered == [] && RosterMatches(s, roster))
  }

  // ----- What a verdict means -----

  ghost predicate AllSigned(c: Suite, ats: seq<Attestation>, message: Bytes) {
    forall k :: 0 <= k < |ats| ==> Signed(c, ats[k], message)
  }

  ghost predicate AllGood(c: Suite, ats: seq<Attestation>, message: Bytes, roster: Option<Roster>) {
    forall k :: 0 <= k < |ats| ==> Signed(c, ats[k], message) && Rostered(ats[k], roster)
  }

  lemma {:induction false} AllSnoc(c: Suite, ats: seq<Attestation>, message: Bytes, roster: Option<Roster>)
    requires ats != []
    ensures var n := |ats| - 1;
      && (AllSigned(c, ats, message) <==> AllSigned(c, ats[..n], message) && Signed(c, ats[n], message))
      && (AllGood(c, ats, message, roster) <==>
            AllGood(c, ats[..n], message, roster) && Signed(c, ats[n], message) && Rostered(ats[n], roster))
  {
    hide Signed, Rostered;
    var n := |ats| - 1;
    assert forall k :: 0 <= k < n ==> ats[..n][k] == ats[k];
  }

  lemma {:induction false} SortedCounts(c: Suite, ats: seq<Attestation>, message: Bytes, roster: Option<Roster>)
    ensures var (v, i, u) := Sorted(c, ats, message, roster);
      && |v| + |i| + |u| == |ats|
      && (i == [] <==> AllSigned(c, ats, message))
      && (i == [] && u == [] <==> AllGood(c, ats, message, roster))
  {
    hide Signed, Rostered, Fingerprint;
    if ats != [] {
      hide AllSigned, AllGood;
      AllSnoc(c, ats, message, roster);
      SortedCounts(c, ats[..|ats| - 1], message, roster);
    }
  }

  // A set is accepted exactly when everybody's signature is good and enough attestors signed;
  // the author does not count.
  lemma {:induction false} OkMeans(c: Suite, s: SignatureSet, message: Bytes, roster: Option<Roster>)
    ensures VerifyReport(c, s, message, roster).ok <==>
      && Signed(c, s.author, message)
      && (forall k :: 0 <= k < |s.attestors| ==> Signed(c, s.attestors[k], message) && Rostered(s.attestors[k], roster))
      && |s.attestors| >= Required(s)
      && RosterMatches(s, roster)
    ensures VerifyReport(c, s, message, roster).ok <==> VerifyReport(c, s, message, roster).problems == []
  {
    SortedCounts(c, s.attestors, message, roster);
  }

  ghost function KeySet(ats: seq<Attestation>): set<Bytes> {
    set i | 0 <= i < |ats| :: ats[i].publicKey
  }

  lemma {:induction false} KeySetSize(ats: seq<Attestation>)
    requires DifferentKeys(ats)
    ensures |KeySet(ats)| == |ats|
  {
    if ats != [] {
      var n := |ats| - 1;
      KeySetSize(ats[..n]);
      assert KeySet(ats) == KeySet(ats[..n]) + {ats[n].publicKey};
    }
  }

  // For any signature set the reader lets through, acceptance means a valid author signature and
  // at least `required` pairwise distinct keys, none of them the author's, each with a valid
  // signature over the same message, and each on the roster when there is one.
  lemma {:induction false} ThresholdSound(c: Suite, v: Value, message: Bytes, roster: Option<Roster>)
    requires ReadSignatureSet(v).Some?
    requires VerifyReport(c, ReadSignatureSet(v).value, message, roster).ok
    ensures var s := ReadSignatureSet(v).value;
      && c.verify(s.author.publicKey, message, s.author.signature)
      && |KeySet(s.attestors)| >= Required(s)
      && s.author.publicKey !in KeySet(s.attestors)
      && (forall k :: k in KeySet(s.attestors) ==>
            (exists i :: 0 <= i < |s.attestors| && s.attestors[i].publicKey == k
              && c.verify(k, message, s.attestors[i].signature))
            && (roster.Some? ==> k in roster.value.keys))
  {
    var s := ReadSignatureSet(v).value;
    OkMeans(c, s, message, roster);
    hide ReadAttestors, VerifyReport, ReadAttestation, ReadPolicy, ReadSignatureSet, Get, Only, Less;
    SigSetRead(v, s);
    if s.attestors != [] {
      AttestorsWritten(Get(v.entries, AT).value.items, s.author.publicKey, None, s.attestors);
      AscendingDiffer(s.attestors);
    }
    KeySetSize(s.attestors);
    forall k | k in KeySet(s.attestors) ensures
      (exists i :: 0 <= i < |s.attestors| && s.attestors[i].publicKey == k
        && c.verify(k, message, s.attestors[i].signature))
      && (roster.Some? ==> k in roster.value.keys)
    {
      var i :| 0 <= i < |s.attestors| && s.attestors[i].publicKey == k;
    }
  }

  // ----- Reading the attestor list, as the loop does -----

  method ReadAttestorList(raw: seq<Value>, author: Bytes) returns (r: Option<seq<Attestation>>)
    ensures r == ReadAttestors(raw, author, None)
  {
    var attestors: seq<Attestation> := [];
    var prev: Option<Bytes> := None;
    assert raw[0..] == raw;
    OntoNothing(ReadAttestors(raw, author, None));
    for i := 0 to |raw|
      invariant ReadAttestors(raw, author, None) == Onto(attestors, ReadAttestors(raw[i..], author, prev))
    {
      assert raw[i..][0] == raw[i] && raw[i..][1..] == raw[i + 1..];
      var a := ReadAttestation(raw[i]);
      if a.None? { return None; }
      var key := a.value.publicKey;
      if prev.Some? && !Less(prev.value, key) { return None; }
      if key == author { return None; }
      OntoMore(attestors, a.value, ReadAttestors(raw[i + 1..], author, Some(key)));
      prev := Some(key);
      attestors := attestors + [a.value];
    }
    assert attestors + [] == attestors;
    return Some(attestors);
  }

  ghost function Onto<T>(front: seq<T>, r: Option<seq<T>>): Option<seq<T>> {
    if r.None? then None else Some(front + r.value)
  }

  lemma {:induction false} OntoNothing<T>(r: Option<seq<T>>)
    ensures Onto([], r) == r
  {
    if r.Some? { assert [] + r.value == r.value; }
  }

  lemma {:induction false} OntoMore<T>(front: seq<T>, x: T, r: Option<seq<T>>)
    ensures Onto(front, Onto([x], r)) == Onto(front + [x], r)
  {
    if r.Some? { assert front + ([x] + r.value) == front + [x] + r.value; }
  }

  // ----- Sealing and attesting -----

  function AuthorOnly(c: Suite, sk: Bytes, struct: Value, policy: Option<Policy>): Option<SignatureSet> {
    match SigningBytes(struct)
    case None => None
    case Some(m) => Some(SignatureSet(Attestation(c.publicKey(sk), c.sign(sk, m), None), [], policy))
  }

  // Adds an attestor's signature over the bytes the author signed, keeping key order.
  function AddAttestor(c: Suite, s: SignatureSet, sk: Bytes, struct: Value, role: Option<Text>): Option<SignatureSet> {
    match SigningBytes(struct)
    case None => None
    case Some(m) =>
      if c.publicKey(sk) == s.author.publicKey then None
      else Some(s.(attestors := InOrder(s.attestors + [Attestation(c.publicKey(sk), c.sign(sk, m), role)])))
  }

  predicate FreshKey(s: SignatureSet, pk: Bytes) {
    pk != s.author.publicKey && forall i :: 0 <= i < |s.attestors| ==> s.attestors[i].publicKey != pk
  }

  // Attesting is refused exactly for the author's own key. Otherwise the set gains exactly this one signature,
  // which verifies, and stays valid exactly when the key is fresh: a key that has attested is not refused.
  lemma {:induction false} AddAttestorAdds(c: Suite, s: SignatureSet, sk: Bytes, struct: Value, role: Option<Text>)
    requires Sound(c) && ValidSigSet(s) && SigningBytes(struct).Some?
    ensures AddAttestor(c, s, sk, struct, role).None? <==> c.publicKey(sk) == s.author.publicKey
    ensures AddAttestor(c, s, sk, struct, role).Some? ==>
      Attested(s, AddAttestor(c, s, sk, struct, role).value,
        SignatureOf(c, Signer(sk, role), SigningBytes(struct).value))
    ensures Signed(c, SignatureOf(c, Signer(sk, role), SigningBytes(struct).value), SigningBytes(struct).value)
  {
    hide InOrder, SigningBytes, Less, ValidSigSet;
    var a := SignatureOf(c, Signer(sk, role), SigningBytes(struct).value);
    InOrderBag(s.attestors + [a]);
    if c.publicKey(sk) != s.author.publicKey {
      if FreshKey(s, a.publicKey) { AddValid(s, a); } else { AddInvalid(s, a); }
    }
  }

  // t is s with one more signature, in key order; it is valid exactly when the key is new to s.
  ghost predicate Attested(s: SignatureSet, t: SignatureSet, a: Attestation) {
    && t == s.(attestors := InOrder(s.attestors + [a]))
    && multiset(t.attestors) == multiset(s.attestors) + multiset{a}
    && (ValidSigSet(t) <==> FreshKey(s, a.publicKey))
  }

  lemma {:induction false} AddValid(s: SignatureSet, a: Attestation)
    requires ValidSigSet(s) && FreshKey(s, a.publicKey) && ValidAttestation(a)
    ensures ValidSigSet(s.(attestors := InOrder(s.attestors + [a])))
  {
    var more := s.attestors + [a];
    hide InOrder, Less, ValidPolicy;
    InOrderProps(more);
    AscendingDiffer(InOrder(more));
    forall i | 0 <= i < |more|
      ensures ValidAttestation(InOrder(more)[i]) && InOrder(more)[i].publicKey != s.author.publicKey
    {
      var j :| 0 <= j < |more| && more[j] == InOrder(more)[i];
    }
  }

  // A second attestation with a key leaves two with the same key, in whatever order.
  lemma {:induction false} AddInvalid(s: SignatureSet, a: Attestation)
    requires a.publicKey != s.author.publicKey && !FreshKey(s, a.publicKey)
    ensures !ValidSigSet(s.(attestors := InOrder(s.attestors + [a])))
  {
    var more := s.attestors + [a];
    var sorted := InOrder(more);
    hide InOrder;
    InOrderBag(more);
    SameKeySet(sorted, more);
    var i :| 0 <= i < |s.attestors| && s.attestors[i].publicKey == a.publicKey;
    KeySetGrows(s.attestors, a);
    KeySetBound(s.attestors);
    assert |multiset(sorted)| == |sorted| && |multiset(more)| == |more|;
    if DifferentKeys(sorted) { KeySetSize(sorted); }
  }

  lemma {:induction false} SameKeySet(a: seq<Attestation>, b: seq<Attestation>)
    requires multiset(a) == multiset(b)
    ensures KeySet(a) == KeySet(b)
  {
    forall i | 0 <= i < |a| ensures a[i].publicKey in KeySet(b) {
      assert a[i] in multiset(b);
      var j :| 0 <= j < |b| && b[j] == a[i];
    }
    forall i | 0 <= i < |b| ensures b[i].publicKey in KeySet(a) {
      assert b[i] in multiset(a);
      var j :| 0 <= j < |a| && a[j] == b[i];
    }
  }

  lemma {:induction false} KeySetGrows(ats: seq<Attestation>, a: Attestation)
    requires exists i :: 0 <= i < |ats| && ats[i].publicKey == a.publicKey
    ensures KeySet(ats + [a]) == KeySet(ats)
  {
    var more := ats + [a];
    forall i | 0 <= i < |more| ensures more[i].publicKey in KeySet(ats) {}
    forall i | 0 <= i < |ats| ensures ats[i].publicKey in KeySet(more) { assert more[i] == ats[i]; }
  }

  lemma {:induction false} KeySetBound(ats: seq<Attestation>)
    ensures |KeySet(ats)| <= |ats|
  {
    if ats != [] {
      var n := |ats| - 1;
      KeySetBound(ats[..n]);
      assert KeySet(ats) == KeySet(ats[..n]) + {ats[n].publicKey};
    }
  }

  // For any set, read or built in memory: ok counts attestations, so it means enough different keys as long
  // as no key has attested twice.
  lemma {:induction false} OkCounts(c: Suite, s: SignatureSet, message: Bytes, roster: Option<Roster>)
    requires VerifyReport(c, s, message, roster).ok
    ensures |s.attestors| >= Required(s)
    ensures DifferentKeys(s.attestors) ==> |KeySet(s.attestors)| >= Required(s)
  {
    hide VerifyReport;
    OkMeans(c, s, message, roster);
    if DifferentKeys(s.attestors) { KeySetSize(s.attestors); }
  }

  // ----- Any number of attestors -----

  datatype Signer = Signer(secret: Bytes, role: Option<Text>)

  // Every signer attests, one after the other.
  function AttestAll(c: Suite, s: SignatureSet, signers: seq<Signer>, struct: Value): Option<SignatureSet> {
    if signers == [] then Some(s)
    else
      var last := signers[|signers| - 1];
      match AttestAll(c, s, signers[..|signers| - 1], struct)
      case None => None
      case Some(t) => AddAttestor(c, t, last.secret, struct, last.role)
  }

  function SignatureOf(c: Suite, x: Signer, m: Bytes): Attestation {
    Attestation(c.publicKey(x.secret), c.sign(x.secret, m), x.role)
  }

  function Signatures(c: Suite, signers: seq<Signer>, m: Bytes): (r: seq<Attestation>)
    ensures |r| == |signers|
  {
    seq(|signers|, i requires 0 <= i < |signers| =>
      SignatureOf(c, signers[i], m))
  }

  // All keys are fresh, and different from each other.
  ghost predicate AllFresh(c: Suite, s: SignatureSet, signers: seq<Signer>) {
    && (forall i :: 0 <= i < |signers| ==> FreshKey(s, c.publicKey(signers[i].secret)))
    && forall i, j :: 0 <= i < j < |signers| ==> c.publicKey(signers[i].secret) != c.publicKey(signers[j].secret)
  }

  // The attestors of the result are those there were and the new ones, in key order.
  lemma {:induction false} AttestAllMeans(c: Suite, s: SignatureSet, signers: seq<Signer>, struct: Value)
    requires Sound(c) && ValidSigSet(s) && SigningBytes(struct).Some? && AllFresh(c, s, signers)
    ensures AttestAll(c, s, signers, struct)
         == Some(s.(attestors := if signers == [] then s.attestors
                                 else InOrder(s.attestors + Signatures(c, signers, SigningBytes(struct).value))))
    ensures DifferentKeys(s.attestors + Signatures(c, signers, SigningBytes(struct).value))
  {
    var m := SigningBytes(struct).value;
    var news := Signatures(c, signers, m);
    hide InOrder, SigningBytes, Sound, ValidSigSet, DifferentKeys, FreshKey, AttestAll, Signatures;
    FreshAll(c, s, signers, m);
    NoSignatures(c, s, m);
    if signers != [] {
      var n := |signers| - 1;
      AttestAllMeans(c, s, signers[..n], struct);
      var olds := s.attestors + Signatures(c, signers[..n], m);
      var t := s.(attestors := if n == 0 then s.attestors else InOrder(olds));
      SignaturesSnoc(c, s, signers, m);
      OneMore(c, s, t, signers, struct);
      if n == 0 { assert olds == s.attestors; } else { OrderTwice(olds, SignatureOf(c, signers[n], m)); }
    }
  }

  lemma {:induction false} NoSignatures(c: Suite, s: SignatureSet, m: Bytes)
    ensures s.attestors + Signatures(c, [], m) == s.attestors
    ensures forall struct :: AttestAll(c, s, [], struct) == Some(s)
  {}

  lemma {:induction false} SignaturesSnoc(c: Suite, s: SignatureSet, signers: seq<Signer>, m: Bytes)
    requires signers != []
    ensures var n := |signers| - 1;
      s.attestors + Signatures(c, signers, m) == s.attestors + Signatures(c, signers[..n], m)
        + [SignatureOf(c, signers[n], m)]
  {
    hide SignatureOf;
  }

  lemma {:induction false} OneMore(c: Suite, s: SignatureSet, t: SignatureSet, signers: seq<Signer>, struct: Value)
    requires signers != [] && SigningBytes(struct).Some? && AllFresh(c, s, signers) && t.author == s.author
    requires AttestAll(c, s, signers[..|signers| - 1], struct) == Some(t)
    ensures var a := SignatureOf(c, signers[|signers| - 1], SigningBytes(struct).value);
      AttestAll(c, s, signers, struct) == Some(t.(attestors := InOrder(t.attestors + [a])))
  {
    hide InOrder, SigningBytes;
    assert FreshKey(s, c.publicKey(signers[|signers| - 1].secret));
  }

  lemma {:induction false} FreshAll(c: Suite, s: SignatureSet, signers: seq<Signer>, m: Bytes)
    requires ValidSigSet(s) && AllFresh(c, s, signers)
    ensures DifferentKeys(s.attestors + Signatures(c, signers, m))
  {}

  // Sorting before the last one comes in makes no difference.
  lemma {:induction false} OrderTwice(olds: seq<Attestation>, a: Attestation)
    requires DifferentKeys(olds + [a])
    ensures InOrder(InOrder(olds) + [a]) == InOrder(olds + [a])
  {
    var sorted := InOrder(olds);
    hide InOrder, Less;
    assert forall i, j :: 0 <= i < j < |olds| ==> (olds + [a])[i] == olds[i] && (olds + [a])[j] == olds[j];
    InOrderProps(olds);
    InOrderBag(olds);
    AscendingDiffer(sorted);
    forall i | 0 <= i < |sorted| ensures sorted[i].publicKey != a.publicKey {
      var k :| 0 <= k < |olds| && olds[k] == sorted[i];
      assert (olds + [a])[k] == olds[k] && (olds + [a])[|olds|] == a;
    }
    InOrderForgets(sorted + [a], olds + [a]);
  }

  // Attestors with fresh keys can sign in any order: the set, and so its encoding, is the same.
  lemma {:induction false} AttestorsAnyOrder(c: Suite, s: SignatureSet, xs: seq<Signer>, ys: seq<Signer>, struct: Value)
    requires Sound(c) && ValidSigSet(s) && SigningBytes(struct).Some? && AllFresh(c, s, xs) && AllFresh(c, s, ys)
    requires multiset(xs) == multiset(ys)
    ensures AttestAll(c, s, xs, struct).Some? && AttestAll(c, s, xs, struct) == AttestAll(c, s, ys, struct)
  {
    var m := SigningBytes(struct).value;
    hide InOrder, SigningBytes, Sound, AllFresh, ValidSigSet, AttestAll, DifferentKeys;
    AttestAllMeans(c, s, xs, struct);
    AttestAllMeans(c, s, ys, struct);
    assert |multiset(xs)| == |xs| && |multiset(ys)| == |ys|;
    SignaturesBag(c, xs, ys, m);
    InOrderForgets(s.attestors + Signatures(c, xs, m), s.attestors + Signatures(c, ys, m));
  }

  lemma {:induction false} SignaturesBag(c: Suite, xs: seq<Signer>, ys: seq<Signer>, m: Bytes)
    requires multiset(xs) == multiset(ys)
    ensures multiset(Signatures(c, xs, m)) == multiset(Signatures(c, ys, m))
    decreases |xs|
  {
    hide Signatures;
    assert |multiset(xs)| == |xs| && |multiset(ys)| == |ys|;
    if xs == [] {
      assert ys == [];
    } else {
      var j := Without(xs, ys);
      SignaturesBag(c, xs[1..], ys[..j] + ys[j + 1..], m);
      SignaturesCut(c, xs, 0, m);
      SignaturesCut(c, ys, j, m);
      assert xs[..0] + xs[1..] == xs[1..];
    }
  }

  // Taking one equal item out of both leaves the same items.
  lemma {:induction false} Without<T>(xs: seq<T>, ys: seq<T>) returns (j: nat)
    requires xs != [] && multiset(xs) == multiset(ys)
    ensures j < |ys| && ys[j] == xs[0] && multiset(xs[1..]) == multiset(ys[..j] + ys[j + 1..])
  {
    assert xs[0] in multiset(ys);
    j :| 0 <= j < |ys| && ys[j] == xs[0];
    BagWithout(xs, 0);
    BagWithout(ys, j);
    assert xs[..0] + xs[1..] == xs[1..];
    Cancel(multiset(xs[1..]), multiset(ys[..j] + ys[j + 1..]), multiset{xs[0]});
  }

  lemma {:induction false} SignaturesCut(c: Suite, ys: seq<Signer>, j: nat, m: Bytes)
    requires j < |ys|
    ensures multiset(Signatures(c, ys, m)) == multiset(Signatures(c, ys[..j] + ys[j + 1..], m))
      + multiset{SignatureOf(c, ys[j], m)}
  {
    hide SignatureOf;
    var all, rest := Signatures(c, ys, m), Signatures(c, ys[..j] + ys[j + 1..], m);
    assert all[..j] == rest[..j] && all[j + 1..] == rest[j..];
    BagWithout(all, j);
    assert rest == rest[..j] + rest[j..];
  }

  lemma {:induction false} InOrderBag(ats: seq<Attestation>)
    ensures multiset(InOrder(ats)) == multiset(ats)
  {
    PayloadBag(ByKey(ats));
    assert Payloads(ByKey(ats)) == ats;
  }

  lemma {:induction false} PayloadBag<T>(s: seq<Keyed<T>>)
    ensures multiset(Payloads(Sort(s))) == multiset(Payloads(s))
    decreases |s|
  {
    if s != [] {
      PayloadBag(s[1..]);
      InsertBag(s[0], Sort(s[1..]));
      assert Payloads(s) == [s[0].x] + Payloads(s[1..]);
    }
  }

  lemma {:induction false} InsertBag<T>(e: Keyed<T>, s: seq<Keyed<T>>)
    ensures multiset(Payloads(Insert(e, s))) == multiset{e.x} + multiset(Payloads(s))
    decreases |s|
  {
    if s != [] && Less(s[0].k, e.k) {
      InsertBag(e, s[1..]);
      assert Payloads(s) == [s[0].x] + Payloads(s[1..]);
      assert Payloads(Insert(e, s)) == [s[0].x] + Payloads(Insert(e, s[1..]));
    } else {
      assert Payloads([e] + s) == [e.x] + Payloads(s);
    }
  }
}
