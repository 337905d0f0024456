/** What runs guarantee along ancestor paths, and what issuing does not depend on. */
module RunLaws {
  import Threshold
  import Quantize
  import opened Base
  import opened Crypto
  import opened Envelope
  import opened Propagation
  import opened Projection
  import opened Chain
  import opened Claims
  import opened ClaimLaws
  import opened Graph
  import opened Store
  import opened Issuing
  import opened Runs

  // ----- Monotone along whole paths -----

  lemma {:induction false} WeakerTrans(t: Terms, p: Terms, q: Terms)
    requires Weaker(t, p) && Weaker(p, q) && t.issuedAt <= t.expiresAt
    ensures Weaker(t, q)
  {}

  lemma {:induction false} WeakerSelf(row: Row)
    requires Stored(row)
    ensures WeakerRow(row, row)
  {
    hide Env, Settled, ToProjection;
  }

  lemma {:induction false} WeakerRowTrans(a: Row, b: Row, d: Row)
    requires Stored(a) && WeakerRow(a, b) && WeakerRow(b, d)
    ensures WeakerRow(a, d)
  {
    StoredTermsValid(a);
    hide Env, Stored, Weaker;
    WeakerTrans(SignedTerms(Env(a).value), SignedTerms(Env(b).value), SignedTerms(Env(d).value));
  }

  ghost predicate WeakerAt(rows: seq<Row>, i: nat, j: nat) {
    i < |rows| && j < |rows| && WeakerRow(rows[i], rows[j])
  }

  lemma {:induction false} PathWeaker(c: Suite, s: State, i: nat, j: nat, k: nat)
    requires i < |s.rows| && j < |s.rows| && ReachesIn(s.edges, s.rows[j].id, s.rows[i].id, k)
    requires WellFormed(c, s)
    ensures WeakerAt(s.rows, i, j)
    decreases k
  {
    hide WellFormed, WeakerRow, ReachesIn, Stored;
    var x := LastEdge(s.edges, s.rows[j].id, s.rows[i].id, k);
    if k == 0 {
      SameRow(c, s, i, j);
    } else {
      var m := ParentRow(c, s, i, x);
      PathWeaker(c, s, m, j, k - 1);
      WeakerRowTrans(s.rows[i], s.rows[m], s.rows[j]);
    }
  }

  lemma {:induction false} SameRow(c: Suite, s: State, i: nat, j: nat)
    requires WellFormed(c, s) && i < |s.rows| && j < |s.rows| && s.rows[i].id == s.rows[j].id
    ensures WeakerRow(s.rows[i], s.rows[j])
  {
    hide Linked, Stored, WeakerRow, EdgesMatch, ParentsEarlier, MonotoneRows;
    assert i == j;
    WeakerSelf(s.rows[i]);
  }

  lemma {:induction false} ParentRow(c: Suite, s: State, i: nat, x: Bytes) returns (m: nat)
    requires WellFormed(c, s) && i < |s.rows| && Edge(x, s.rows[i].id) in s.edges
    ensures m < |s.rows| && s.rows[m].id == x && WeakerRow(s.rows[i], s.rows[m]) && Stored(s.rows[i])
  {
    hide Linked, Stored, ParentsOf, WeakerRow;
    var e := Edge(x, s.rows[i].id);
    var h :| 0 <= h < |s.rows| && s.rows[h].id == e.child && e.parent in ParentsOf(s.rows[h]);
    assert h == i;
    var j :| 0 <= j < i && s.rows[j].id == x;
    m := j;
  }

  predicate InWindow(t: Terms, x: int) {
    t.issuedAt <= x < t.expiresAt
  }

  // In every reachable store, from any ancestor to any descendant: coverage never rises, alpha never falls,
  // classification never falls, the human gate is never dropped and always holds when REGULATED, issue time
  // never falls, half-open windows are nested, and a claim that is not VALID has no VALID descendant. The
  // clamp may put exp above an ancestor's, but then the window is empty and the claim was born STALE.
  lemma {:induction false} AncestorsMonotone(c: Suite, events: seq<Event>, s: State, i: nat, j: nat)
    requires Sound(c) && InRangeEvents(events) && s == Run(c, events)
    requires i < |s.rows| && j < |s.rows| && Reaches(s.edges, s.rows[j].id, s.rows[i].id)
    ensures Env(s.rows[i]).Some? && Env(s.rows[j]).Some?
    ensures var t, a := SignedTerms(Env(s.rows[i]).value), SignedTerms(Env(s.rows[j]).value);
      && t.valuePpm <= a.valuePpm && t.alphaPpm >= a.alphaPpm && t.classification >= a.classification
      && (a.requiresHitl ==> t.requiresHitl) && (t.classification >= CLS_REGULATED ==> t.requiresHitl)
      && t.issuedAt >= a.issuedAt
      && (forall x :: InWindow(t, x) ==> InWindow(a, x))
      && (t.expiresAt > a.expiresAt ==> t.expiresAt == t.issuedAt && t.status != Valid)
      && (s.rows[j].status != Valid ==> s.rows[i].status != Valid)
  {
    hide Sound, Run, Env, InRangeEvents, Stored, Linked, DistinctIds, EdgesMatch, ParentsEarlier, MonotoneRows,
      ReachesIn;
    RunKeeps(c, events);
    var k: nat :| ReachesIn(s.edges, s.rows[j].id, s.rows[i].id, k);
    PathWeaker(c, s, i, j, k);
    StoredTermsValid(s.rows[i]);
    assert RowTerms(s.rows[i]) == SignedTerms(Env(s.rows[i]).value).(status := s.rows[i].status);
  }

  // ----- Only the parent set counts -----

  lemma {:induction false} RereadAllAt(c: Suite, rows: seq<Row>, ids: seq<Bytes>)
    ensures RereadAll(c, rows, ids).Some? <==> forall k :: 0 <= k < |ids| ==> Parent(c, rows, ids[k]).Some?
    ensures RereadAll(c, rows, ids).Some? ==> |RereadAll(c, rows, ids).value| == |ids|
    ensures RereadAll(c, rows, ids).Some? ==>
      forall k :: 0 <= k < |ids| ==> RereadAll(c, rows, ids).value[k] == Parent(c, rows, ids[k]).value
  {
    hide RereadAll, Parent;
    if ids == [] {
      RereadNone(c, rows);
    } else {
      var n := |ids| - 1;
      RereadAllAt(c, rows, ids[..n]);
      RereadSnoc(c, rows, ids);
      assert forall k :: 0 <= k < n ==> ids[k] == ids[..n][k];
    }
  }

  lemma {:induction false} RereadNone(c: Suite, rows: seq<Row>)
    ensures RereadAll(c, rows, []) == Some([])
  {}

  lemma {:induction false} RereadSnoc(c: Suite, rows: seq<Row>, ids: seq<Bytes>)
    requires ids != []
    ensures var front, last := RereadAll(c, rows, ids[..|ids| - 1]), Parent(c, rows, ids[|ids| - 1]);
      RereadAll(c, rows, ids) == if front.Some? && last.Some? then Some(front.value + [last.value]) else None
  {
    hide RowOf, Reread;
  }

  function Parent(c: Suite, rows: seq<Row>, id: Bytes): Option<Claim> {
    match RowOf(rows, id)
    case None => None
    case Some(row) => Reread(c, row)
  }

  ghost predicate SameIds(ps: seq<Bytes>, qs: seq<Bytes>) {
    forall b :: b in ps <==> b in qs
  }

  lemma {:induction false} SameParents(c: Suite, rows: seq<Row>, ps: seq<Bytes>, qs: seq<Bytes>)
    requires SameIds(ps, qs)
    ensures RereadAll(c, rows, ps).Some? ==> RereadAll(c, rows, qs).Some?
    ensures RereadAll(c, rows, ps).Some? ==>
      forall m :: m in RereadAll(c, rows, ps).value ==> m in RereadAll(c, rows, qs).value
  {
    hide RereadAll, Parent;
    RereadAllAt(c, rows, ps);
    RereadAllAt(c, rows, qs);
    forall k | 0 <= k < |qs| ensures qs[k] in ps { assert qs[k] in qs; }
    if RereadAll(c, rows, ps).Some? {
      forall k | 0 <= k < |qs| ensures Parent(c, rows, qs[k]).Some? {
        var h :| 0 <= h < |ps| && ps[h] == qs[k];
      }
      var ms, ns := RereadAll(c, rows, ps).value, RereadAll(c, rows, qs).value;
      forall h | 0 <= h < |ms| ensures ms[h] in ns {
        assert ps[h] in qs;
        var k :| 0 <= k < |qs| && qs[k] == ps[h];
        assert ns[k] == ms[h];
      }
    }
  }

  lemma {:induction false} SameAttributes(ms: seq<Claim>, ns: seq<Claim>)
    requires forall m :: m in ms ==> m in ns
    ensures forall t :: t in AllTerms(ms) ==> t in AllTerms(ns)
    ensures forall b :: b in Ids(ms) ==> b in Ids(ns)
  {
    hide TermsOf;
    forall k | 0 <= k < |ms| ensures TermsOf(ms[k]) in AllTerms(ns) && ms[k].id in Ids(ns) {
      assert ms[k] in ns;
      var h :| 0 <= h < |ns| && ns[h] == ms[k];
      assert AllTerms(ns)[h] == TermsOf(ms[k]) && Ids(ns)[h] == ms[k].id;
    }
  }

  // Permuting or repeating the parents passed to issue changes nothing: the same claim is signed, and the
  // store ends up the same.
  lemma {:induction false} IssueForgetsOrder(c: Suite, s: State, r: Request, own: Confidence, qs: seq<Bytes>)
    requires SameIds(r.parents, qs)
    ensures Derived(c, s, r.(parents := qs), own) == Derived(c, s, r, own)
    ensures SignedClaim(c, s, r.(parents := qs), own) == SignedClaim(c, s, r, own)
    ensures AfterIssue(c, s, r.(parents := qs), own) == AfterIssue(c, s, r, own)
  {
    hide RereadAll, Appended, Sealed, AllTerms, Ids, Combined, CanonicalIds, Hex, Threshold.Fingerprint, HeadOf,
      OwnTerms;
    SameParents(c, s.rows, r.parents, qs);
    SameParents(c, s.rows, qs, r.parents);
    SameOwn(r, own, qs);
    if RereadAll(c, s.rows, qs).Some? {
      var ms, ns := RereadAll(c, s.rows, r.parents).value, RereadAll(c, s.rows, qs).value;
      SameAttributes(ms, ns);
      SameAttributes(ns, ms);
      CanonicalUnique(Ids(ms), Ids(ns));
      if OwnTerms(r, own).Some? { CombinedForgetsOrder(OwnTerms(r, own).value, AllTerms(ms), AllTerms(ns)); }
    }
  }

  lemma {:induction false} SameOwn(r: Request, own: Confidence, qs: seq<Bytes>)
    ensures OwnTerms(r.(parents := qs), own) == OwnTerms(r, own)
  {
    hide Quantize.SecondsToUsCeil, Quantize.SecondsToUsFloor;
  }

  // ----- Re-reading after any run -----

  // After any run a claim can be re-read exactly when its interval can be rendered. It then denotes the stored
  // envelope, with the stored record hash, exactly as long as its column still holds the signed status; all
  // other fields come back unchanged in any case.
  lemma {:induction false} RunReread(c: Suite, events: seq<Event>, s: State, i: nat)
    requires Sound(c) && InRangeEvents(events) && s == Run(c, events) && i < |s.rows|
    ensures Env(s.rows[i]).Some?
    ensures Reread(c, s.rows[i]).Some? <==> Readable(Env(s.rows[i]).value.confidence)
    ensures Reread(c, s.rows[i]).Some? ==> RereadIs(c, s.rows[i], Env(s.rows[i]).value)
    ensures Env(s.rows[i]).value.ext.None?
  {
    hide Sound, Run, Env, InRangeEvents, Linked, DistinctIds, EdgesMatch, ParentsEarlier, MonotoneRows, Reread,
      ToProjection, RereadIs, Readable, Settled;
    RunKeeps(c, events);
    RereadExact(c, s.rows[i], Env(s.rows[i]).value);
  }

  // ----- Signed content is never rewritten -----

  // The rows of a, in their places, at the front of b: only the status column may differ, and no claim
  // becomes VALID again.
  ghost predicate KeptIn(a: seq<Row>, b: seq<Row>) {
    |a| <= |b| && forall i :: 0 <= i < |a| ==> KeptRow(a[i], b[i])
  }

  ghost predicate KeptRow(a: Row, b: Row) {
    b == a.(status := b.status) && (b.status == Valid ==> a.status == Valid)
  }

  lemma {:induction false} StepAppends(c: Suite, s: State, e: Event)
    ensures KeptIn(s.rows, Step(c, s, e).rows)
  {
    hide SignedClaim, NewRow, RowOf, Hit;
  }

  lemma {:induction false} KeptTrans(a: seq<Row>, b: seq<Row>, d: seq<Row>)
    requires KeptIn(a, b) && KeptIn(b, d)
    ensures KeptIn(a, d)
  {
    forall i | 0 <= i < |a| ensures KeptRow(a[i], d[i]) {
      assert KeptRow(a[i], b[i]) && KeptRow(b[i], d[i]);
    }
  }

  // Whatever a run goes on to do, what the store held after its first k events stays as it was signed, in
  // the same order and under the same record hashes.
  lemma {:induction false} AppendOnly(c: Suite, events: seq<Event>, k: nat)
    requires k <= |events|
    ensures KeptIn(Run(c, events[..k]).rows, Run(c, events).rows)
  {
    hide Step, KeptRow;
    if k == |events| {
      assert events[..k] == events;
      KeptSelf(Run(c, events).rows);
    } else {
      var n := |events| - 1;
      assert events[..n][..k] == events[..k];
      AppendOnly(c, events[..n], k);
      StepAppends(c, Run(c, events[..n]), events[n]);
      KeptTrans(Run(c, events[..k]).rows, Run(c, events[..n]).rows, Run(c, events).rows);
    }
  }

  lemma {:induction false} KeptSelf(rows: seq<Row>)
    ensures KeptIn(rows, rows)
  {}
}
