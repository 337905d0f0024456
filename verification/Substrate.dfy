/** Issuing a claim: re-read the parents, propagate, sign over the head, append. */
module Substrate {
  import opened Base
  import opened Cbor
  import opened Crypto
  import opened Threshold
  import opened Envelope
  import opened Propagation
  import opened Quantize
  import opened Projection
  import opened Chain
  import opened Claims
  import opened Store

  // The caller's confidence object, which issuing weakens in place.
  class CallerConfidence {
    const methodName: Text
    const interval: Option<Interval>
    var valuePpm: int
    var alphaPpm: int

    ghost function Now(): Confidence
      reads this
    {
      Confidence(methodName, valuePpm, alphaPpm, interval)
    }

    constructor (methodName: Text, valuePpm: int, alphaPpm: int, interval: Option<Interval>)
      ensures Now() == Confidence(methodName, valuePpm, alphaPpm, interval)
    {
      this.methodName, this.interval := methodName, interval;
      this.valuePpm, this.alphaPpm := valuePpm, alphaPpm;
    }
  }

  // None where the request raises: the store is then unchanged, but the caller's confidence is weakened
  // all the same if propagation was reached.
  method Issue(c: Suite, store: ClaimStore, conf: CallerConfidence, r: Request) returns (m: Option<Claim>)
    requires store.Valid()
    modifies store, conf
    ensures store.Valid()
    ensures var s, own := old(store.Now()), old(conf.Now());
      && (m.Some? <==> AfterIssue(c, s, r, own).Some?)
      && (m.Some? ==> m == SignedClaim(c, s, r, own))
      && store.Now() == (if m.Some? then AfterIssue(c, s, r, own).value else s)
      && conf.Now() == Weakened(own, Derived(c, s, r, own))
  {
    hide RereadAll, SecondsToUsCeil, SecondsToUsFloor, Combined, Draft, Sealed, Appended, Reread;
    var parents := ReadParents(c, store, r.parents);
    if parents.None? { return None; }
    var iat, exp := SecondsToUsCeil(r.now), SecondsToUsFloor(r.until);
    if iat.None? || exp.None? { return None; }
    var t := Propagate(conf.valuePpm, conf.alphaPpm, iat.value, exp.value, r.classification, r.requiresHitl,
                       AllTerms(parents.value));
    ghost var own := conf.Now();
    conf.valuePpm, conf.alphaPpm := t.valuePpm, t.alphaPpm;
    var head := store.Head();
    if head.None? { return None; }
    var draft := MakeDraft(c, r, conf, t, parents.value, head.value);
    DraftWeakened(c, r, own, t, parents.value, head.value);
    m := Sealed(c, draft, r.secret);
    if m.None? { return None; }
    var ok := store.Append(c, m.value);
    if !ok { return None; }
  }

  function Weakened(own: Confidence, t: Option<Terms>): Confidence {
    if t.None? then own else own.(valuePpm := t.value.valuePpm, alphaPpm := t.value.alphaPpm)
  }

  method MakeDraft(c: Suite, r: Request, conf: CallerConfidence, t: Terms, parents: seq<Claim>,
      head: Bytes) returns (m: Claim)
    ensures m == Draft(c, r, conf.Now(), t.(valuePpm := conf.valuePpm, alphaPpm := conf.alphaPpm), parents, head)
  {
    hide CanonicalIds, Hex, Fingerprint;
    var ids := CanonicalParents(Ids(parents));
    var pk := c.publicKey(r.secret);
    m := Claim(r.kind, Hex(c.hash(r.payload)), r.producerId, Hex(Fingerprint(c, pk)), Hex(pk), ids,
      Confidence(conf.methodName, conf.valuePpm, conf.alphaPpm, conf.interval),
      Validity(r.monitor, t.issuedAt, t.expiresAt, t.status), t.classification, t.requiresHitl, r.id, Hex(head), []);
  }

  lemma {:induction false} DraftWeakened(c: Suite, r: Request, own: Confidence, t: Terms, parents: seq<Claim>,
      head: Bytes)
    ensures var weak := own.(valuePpm := t.valuePpm, alphaPpm := t.alphaPpm);
      Draft(c, r, weak, t, parents, head) == Draft(c, r, own, t, parents, head)
  {
    hide CanonicalIds, Hex, Fingerprint;
  }

  method ReadParents(c: Suite, store: ClaimStore, ids: seq<Bytes>) returns (r: Option<seq<Claim>>)
    requires store.Valid()
    ensures r == RereadAll(c, store.rows, ids)
  {
    hide Reread, RowOf;
    var parents: seq<Claim> := [];
    for i := 0 to |ids|
      invariant RereadAll(c, store.rows, ids[..i]) == Some(parents)
    {
      assert ids[..i + 1][..i] == ids[..i];
      var p := store.Get(c, ids[i]);
      if p.None? {
        RereadPrefix(c, store.rows, ids, i + 1);
        return None;
      }
      parents := parents + [p.value];
    }
    assert ids[..|ids|] == ids;
    return Some(parents);
  }

  // One unreadable parent is enough to fail.
  lemma {:induction false} RereadPrefix(c: Suite, rows: seq<Row>, ids: seq<Bytes>, n: nat)
    requires n <= |ids| && RereadAll(c, rows, ids[..n]).None?
    ensures RereadAll(c, rows, ids).None?
    decreases |ids|
  {
    hide Reread, RowOf;
    if n < |ids| {
      assert ids[..|ids| - 1][..n] == ids[..n];
      RereadPrefix(c, rows, ids[..|ids| - 1], n);
    } else {
      assert ids[..n] == ids;
    }
  }
}
