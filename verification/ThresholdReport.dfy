/** What every field of a signature-set report says. */
module ThresholdReport {
  import opened Base
  import opened Crypto
  import opened Attest
  import opened Threshold

  // Attestor k's signature over the message verifies under its own key.
  predicate Signs(c: Suite, s: SignatureSet, message: Bytes, k: int) {
    0 <= k < |s.attestors| && c.verify(s.attestors[k].publicKey, message, s.attestors[k].signature)
  }

  // Attestor k's key is on the roster, if one is given.
  predicate Listed(s: SignatureSet, roster: Option<Roster>, k: int) {
    0 <= k < |s.attestors| && (roster.Some? ==> s.attestors[k].publicKey in roster.value.keys)
  }

  // The list holds, in their order, the first 8 bytes of the hashed keys of the attestors ks.
  ghost predicate Lists(c: Suite, list: seq<Bytes>, s: SignatureSet, ks: seq<nat>) {
    && |list| == |ks|
    && (forall i, j :: 0 <= i < j < |ks| ==> ks[i] < ks[j])
    && forall i :: 0 <= i < |ks| ==> ks[i] < |s.attestors| && Prints(c, s.attestors[ks[i]], list[i])
  }

  predicate Prints(c: Suite, a: Attestation, f: Bytes) {
    |c.hash(a.publicKey)| >= 8 && f == c.hash(a.publicKey)[..8]
  }

  lemma {:induction false} FingerprintPrints(c: Suite, a: Attestation)
    requires Sound(c)
    ensures Prints(c, a, Fingerprint(c, a.publicKey))
  {}

  lemma {:induction false} ListsOne(c: Suite, list: seq<Bytes>, s: SignatureSet, ks: seq<nat>, k: nat)
    requires Sound(c) && Lists(c, list, s, ks) && k < |s.attestors| && forall i :: 0 <= i < |ks| ==> ks[i] < k
    ensures Lists(c, list + [Fingerprint(c, s.attestors[k].publicKey)], s, ks + [k])
  {
    FingerprintPrints(c, s.attestors[k]);
    hide Prints, Fingerprint, Sound;
  }

  // Which of the three lists attestor k is entered in.
  datatype Place = Valid | Invalid | Unrostered

  function PlaceOf(c: Suite, s: SignatureSet, message: Bytes, roster: Option<Roster>, k: int): Place {
    if !Signs(c, s, message, k) then Invalid else if !Listed(s, roster, k) then Unrostered else Valid
  }

  // ks are the positions among the first n with the given place.
  ghost predicate Placed(c: Suite, s: SignatureSet, message: Bytes, roster: Option<Roster>, n: nat, p: Place,
    ks: seq<nat>)
  {
    forall k :: k in ks <==> 0 <= k < n && PlaceOf(c, s, message, roster, k) == p
  }

  ghost predicate Split(c: Suite, s: SignatureSet, message: Bytes, roster: Option<Roster>, n: nat,
      good: seq<nat>, bad: seq<nat>, off: seq<nat>) {
    && Placed(c, s, message, roster, n, Valid, good)
    && Placed(c, s, message, roster, n, Invalid, bad)
    && Placed(c, s, message, roster, n, Unrostered, off)
  }

  lemma {:induction false} PlacedStep(c: Suite, s: SignatureSet, message: Bytes, roster: Option<Roster>, n: nat,
      p: Place, ks: seq<nat>)
    requires Placed(c, s, message, roster, n, p, ks)
    ensures forall i :: 0 <= i < |ks| ==> ks[i] < n
    ensures Placed(c, s, message, roster, n + 1, p, if PlaceOf(c, s, message, roster, n) == p then ks + [n] else ks)
  {
    hide PlaceOf;
    Below(ks, n);
  }

  // A list one attestor further on.
  lemma {:induction false} ListStep(c: Suite, s: SignatureSet, message: Bytes, roster: Option<Roster>, n: nat, p: Place,
      ks: seq<nat>, list: seq<Bytes>) returns (ks': seq<nat>, list': seq<Bytes>)
    requires Sound(c) && n < |s.attestors| && Placed(c, s, message, roster, n, p, ks) && Lists(c, list, s, ks)
    ensures Placed(c, s, message, roster, n + 1, p, ks') && Lists(c, list', s, ks')
    ensures list' == if PlaceOf(c, s, message, roster, n) == p then list + [Fingerprint(c, s.attestors[n].publicKey)]
      else list
  {
    hide PlaceOf, Placed, Lists, Sound, Fingerprint;
    PlacedStep(c, s, message, roster, n, p, ks);
    if PlaceOf(c, s, message, roster, n) == p {
      ListsOne(c, list, s, ks, n);
      ks', list' := ks + [n], list + [Fingerprint(c, s.attestors[n].publicKey)];
    } else {
      ks', list' := ks, list;
    }
  }

  lemma {:induction false} SplitFirst(c: Suite, s: SignatureSet, message: Bytes, roster: Option<Roster>, n: nat)
    returns (good: seq<nat>, bad: seq<nat>, off: seq<nat>)
    requires Sound(c) && n <= |s.attestors|
    ensures Split(c, s, message, roster, n, good, bad, off)
    ensures var (v, i, u) := Sorted(c, s.attestors[..n], message, roster);
      Lists(c, v, s, good) && Lists(c, i, s, bad) && Lists(c, u, s, off)
  {
    hide Signs, Listed, Signed, Rostered, Fingerprint, Sound;
    if n == 0 { return [], [], []; }
    hide Sorted, Placed, Lists;
    var k := n - 1;
    good, bad, off := SplitFirst(c, s, message, roster, k);
    SortedSnoc(c, s.attestors, message, roster, k);
    var (v, i, u) := Sorted(c, s.attestors[..k], message, roster);
    SignsIs(c, s, message, roster, k);
    var v', i', u';
    good, v' := ListStep(c, s, message, roster, k, Valid, good, v);
    bad, i' := ListStep(c, s, message, roster, k, Invalid, bad, i);
    off, u' := ListStep(c, s, message, roster, k, Unrostered, off, u);
    assert Sorted(c, s.attestors[..n], message, roster) == (v', i', u');
  }

  lemma {:induction false} Below(ks: seq<nat>, n: nat)
    ensures (forall k :: k in ks ==> k < n) ==> forall i :: 0 <= i < |ks| ==> ks[i] < n
  {
    forall i | 0 <= i < |ks| ensures ks[i] in ks {}
  }

  lemma {:induction false} SignsIs(c: Suite, s: SignatureSet, message: Bytes, roster: Option<Roster>, k: nat)
    requires k < |s.attestors|
    ensures Signs(c, s, message, k) <==> Signed(c, s.attestors[k], message)
    ensures Listed(s, roster, k) <==> Rostered(s.attestors[k], roster)
  {}

  lemma {:induction false} SortedSnoc(c: Suite, ats: seq<Attestation>, message: Bytes, roster: Option<Roster>, k: nat)
    requires k < |ats|
    ensures var (v, i, u) := Sorted(c, ats[..k], message, roster);
      var f := [Fingerprint(c, ats[k].publicKey)];
      Sorted(c, ats[..k + 1], message, roster)
        == if !Signed(c, ats[k], message) then (v, i + f, u)
           else if !Rostered(ats[k], roster) then (v, i, u + f)
           else (v + f, i, u)
  {
    hide Signed, Rostered, Fingerprint;
    assert ats[..k + 1][..k] == ats[..k];
  }

  // The three lists hold the fingerprints of exactly the attestors that sign and are on the roster, that do not
  // sign, and that sign without being on the roster, each in the order of the attestors.
  lemma {:induction false} ListsMean(c: Suite, s: SignatureSet, message: Bytes, roster: Option<Roster>)
    returns (good: seq<nat>, bad: seq<nat>, off: seq<nat>)
    requires Sound(c)
    ensures var r := VerifyReport(c, s, message, roster);
      Lists(c, r.valid, s, good) && Lists(c, r.invalid, s, bad) && Lists(c, r.unrostered, s, off)
    ensures forall k :: k in good <==> Signs(c, s, message, k) && Listed(s, roster, k)
    ensures forall k :: k in bad <==> 0 <= k < |s.attestors| && !Signs(c, s, message, k)
    ensures forall k :: k in off <==> Signs(c, s, message, k) && !Listed(s, roster, k)
  {
    hide Sound, Lists, Sorted;
    assert s.attestors[..|s.attestors|] == s.attestors;
    good, bad, off := SplitFirst(c, s, message, roster, |s.attestors|);
  }

  // Attestors that sign and are on the roster, as positions.
  ghost function Good(c: Suite, s: SignatureSet, message: Bytes, roster: Option<Roster>): set<nat> {
    set k: nat | k < |s.attestors| && Signs(c, s, message, k) && Listed(s, roster, k)
  }

  lemma {:induction false} IncreasingSize(ks: seq<nat>, ms: set<nat>)
    requires (forall i, j :: 0 <= i < j < |ks| ==> ks[i] < ks[j]) && forall k :: k in ms <==> k in ks
    ensures |ks| == |ms|
  {
    if ks == [] {
      assert ms == {};
    } else {
      var n := |ks| - 1;
      assert ks == ks[..n] + [ks[n]];
      IncreasingSize(ks[..n], ms - {ks[n]});
    }
  }

  // The other fields: the author's verdict, the number required, and whether enough attestors count.
  lemma {:induction false} FieldsMean(c: Suite, s: SignatureSet, message: Bytes, roster: Option<Roster>)
    requires Sound(c)
    ensures var r := VerifyReport(c, s, message, roster);
      && (r.authorOk <==> c.verify(s.author.publicKey, message, s.author.signature))
      && r.required == (if s.policy.Some? then s.policy.value.required else 0)
      && |r.valid| == |Good(c, s, message, roster)|
      && (r.met <==> |Good(c, s, message, roster)| >= r.required)
  {
    var good, bad, off := ListsMean(c, s, message, roster);
    hide Sound, Sorted, Signs, Listed;
    assert forall k :: k in Good(c, s, message, roster) <==> k in good;
    IncreasingSize(good, Good(c, s, message, roster));
    ReportFields(c, s, message, roster);
  }

  lemma {:induction false} ReportFields(c: Suite, s: SignatureSet, message: Bytes, roster: Option<Roster>)
    ensures var r := VerifyReport(c, s, message, roster);
      && (r.authorOk <==> c.verify(s.author.publicKey, message, s.author.signature))
      && r.required == (if s.policy.Some? then s.policy.value.required else 0)
      && (r.met <==> |r.valid| >= r.required)
  {
    hide Sorted;
  }

  // When each problem is reported.
  ghost predicate Reported(c: Suite, s: SignatureSet, message: Bytes, roster: Option<Roster>, p: Problem) {
    match p
    case AuthorSignatureInvalid => !c.verify(s.author.publicKey, message, s.author.signature)
    case AttestorSignatureInvalid => exists k :: 0 <= k < |s.attestors| && !Signs(c, s, message, k)
    case AttestorNotInRoster => exists k :: Signs(c, s, message, k) && !Listed(s, roster, k)
    case ThresholdNotReached =>
      |Good(c, s, message, roster)| < (if s.policy.Some? then s.policy.value.required else 0)
    case RosterHashMismatch =>
      && roster.Some? && s.policy.Some? && s.policy.value.rosterHash.Some?
      && roster.value.hash != s.policy.value.rosterHash.value
  }

  function Rank(p: Problem): nat {
    match p
    case AuthorSignatureInvalid => 0
    case AttestorSignatureInvalid => 1
    case AttestorNotInRoster => 2
    case ThresholdNotReached => 3
    case RosterHashMismatch => 4
  }

  // Every problem is listed exactly when it is one, once, and in this order.
  lemma {:induction false} ProblemsMean(c: Suite, s: SignatureSet, message: Bytes, roster: Option<Roster>)
    requires Sound(c)
    ensures var ps := VerifyReport(c, s, message, roster).problems;
      && (forall p: Problem :: p in ps <==> Reported(c, s, message, roster, p))
      && forall i, j :: 0 <= i < j < |ps| ==> Rank(ps[i]) < Rank(ps[j])
  {
    hide Sound, Reported, VerifyReport, Rank;
    ProblemList(c, s, message, roster);
    forall p: Problem ensures p in VerifyReport(c, s, message, roster).problems
      <==> Reported(c, s, message, roster, p) {
      ProblemMeans(c, s, message, roster, p);
    }
  }

  lemma {:induction false} ProblemMeans(c: Suite, s: SignatureSet, message: Bytes, roster: Option<Roster>, p: Problem)
    requires Sound(c)
    ensures p in VerifyReport(c, s, message, roster).problems <==> Reported(c, s, message, roster, p)
  {
    var r := VerifyReport(c, s, message, roster);
    var good, bad, off := ListsMean(c, s, message, roster);
    FieldsMean(c, s, message, roster);
    ProblemList(c, s, message, roster);
    hide Sound, Sorted, Signs, Listed, VerifyReport, Good, Prints;
    EmptyOrNot(r.invalid, bad);
    EmptyOrNot(r.unrostered, off);
    match p
    case AuthorSignatureInvalid =>
    case AttestorSignatureInvalid => hide Lists, RosterMatches;
    case AttestorNotInRoster => hide Lists, RosterMatches;
    case ThresholdNotReached =>
    case RosterHashMismatch =>
  }

  lemma {:induction false} EmptyOrNot(list: seq<Bytes>, ks: seq<nat>)
    requires |list| == |ks|
    ensures list != [] <==> exists k :: k in ks
  {
    if list != [] { assert ks[0] in ks; }
  }

  lemma {:induction false} ProblemList(c: Suite, s: SignatureSet, message: Bytes, roster: Option<Roster>)
    ensures var r := VerifyReport(c, s, message, roster);
      && (AuthorSignatureInvalid in r.problems <==> !r.authorOk)
      && (AttestorSignatureInvalid in r.problems <==> r.invalid != [])
      && (AttestorNotInRoster in r.problems <==> r.unrostered != [])
      && (ThresholdNotReached in r.problems <==> !r.met)
      && (RosterHashMismatch in r.problems <==> !RosterMatches(s, roster))
      && forall i, j :: 0 <= i < j < |r.problems| ==> Rank(r.problems[i]) < Rank(r.problems[j])
  {
    var r := VerifyReport(c, s, message, roster);
    hide Sorted, RosterMatches, Signed, Rank;
    FiveFlags(!r.authorOk, r.invalid != [], r.unrostered != [], !r.met, !RosterMatches(s, roster));
  }

  ghost predicate Ranked(ps: seq<Problem>, n: nat) {
    && (forall i :: 0 <= i < |ps| ==> Rank(ps[i]) < n)
    && forall i, j :: 0 <= i < j < |ps| ==> Rank(ps[i]) < Rank(ps[j])
  }

  lemma {:induction false} OneFlag(ps: seq<Problem>, b: bool, p: Problem)
    requires Ranked(ps, Rank(p))
    ensures Ranked(ps + When(b, p), Rank(p) + 1)
    ensures forall q :: q in ps + When(b, p) <==> q in ps || (b && q == p)
    ensures p !in ps
  {
    hide Rank;
  }

  lemma {:induction false} FiveFlags(a: bool, b: bool, c: bool, d: bool, e: bool)
    ensures var ps := When(a, AuthorSignatureInvalid) + When(b, AttestorSignatureInvalid)
        + When(c, AttestorNotInRoster) + When(d, ThresholdNotReached) + When(e, RosterHashMismatch);
      && (AuthorSignatureInvalid in ps <==> a) && (AttestorSignatureInvalid in ps <==> b)
      && (AttestorNotInRoster in ps <==> c) && (ThresholdNotReached in ps <==> d) && (RosterHashMismatch in ps <==> e)
      && forall i, j :: 0 <= i < j < |ps| ==> Rank(ps[i]) < Rank(ps[j])
  {
    hide When;
    var v := [] + When(a, AuthorSignatureInvalid);
    assert v == When(a, AuthorSignatureInvalid);
    OneFlag([], a, AuthorSignatureInvalid);
    var w := v + When(b, AttestorSignatureInvalid);
    OneFlag(v, b, AttestorSignatureInvalid);
    var x := w + When(c, AttestorNotInRoster);
    OneFlag(w, c, AttestorNotInRoster);
    var y := x + When(d, ThresholdNotReached);
    OneFlag(x, d, ThresholdNotReached);
    OneFlag(y, e, RosterHashMismatch);
  }
}
