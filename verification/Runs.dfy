/** Whole runs of issuing, cascading and reopening, from an empty store. */
module Runs {
  import Cascade
  import VerifierLaws
  import opened Base
  import opened Cbor
  import opened Crypto
  import opened Envelope
  import opened Propagation
  import opened Projection
  import opened Chain
  import opened Claims
  import opened ClaimLaws
  import opened Graph
  import opened Store
  import opened Issuing

  datatype Event = Issue(request: Request, own: Confidence) | Trip(monitor: Text) | Reopen

  ghost function Step(c: Suite, s: State, e: Event): State {
    match e
    case Issue(r, own) => (match AfterIssue(c, s, r, own) case None => s case Some(t) => t)
    case Trip(m) => AfterCascade(s, m)
    case Reopen => Reopened(s)
  }

  ghost function Run(c: Suite, events: seq<Event>): State {
    if events == [] then EMPTY else Step(c, Run(c, events[..|events| - 1]), events[|events| - 1])
  }

  ghost predicate InRangeEvents(events: seq<Event>) {
    forall i :: 0 <= i < |events| && events[i].Issue? ==> InRangeRequest(events[i].request, events[i].own)
  }

  // ----- Issuing keeps a store well formed -----

  lemma {:induction false} ExtendIds(rows: seq<Row>, row: Row)
    requires DistinctIds(rows) && RowOf(rows, row.id).None?
    ensures DistinctIds(rows + [row])
  {
    RowOfMeans(rows, row.id);
  }

  lemma {:induction false} ExtendEdges(rows: seq<Row>, edges: seq<Edge>, row: Row)
    requires EdgesMatch(rows, edges)
    ensures EdgesMatch(rows + [row], edges + EdgesTo(ParentsOf(row), row.id))
  {
    var ps, n := ParentsOf(row), |rows|;
    var all, more := rows + [row], EdgesTo(ParentsOf(row), row.id);
    hide ParentsOf;
    forall e | e in edges + more
      ensures exists i :: 0 <= i < |all| && all[i].id == e.child && e.parent in ParentsOf(all[i])
    {
      if e in edges {
        var i :| 0 <= i < |rows| && rows[i].id == e.child && e.parent in ParentsOf(rows[i]);
        assert all[i] == rows[i];
      } else {
        assert all[n] == row;
      }
    }
    forall i, p | 0 <= i < |all| && p in ParentsOf(all[i]) ensures Edge(p, all[i].id) in edges + more {
      if i < n {
        assert Edge(p, rows[i].id) in edges;
      } else {
        var k :| 0 <= k < |ps| && ps[k] == p;
        assert more[k] == Edge(p, row.id);
      }
    }
  }

  lemma {:induction false} ExtendEarlier(rows: seq<Row>, row: Row)
    requires ParentsEarlier(rows) && forall p :: p in ParentsOf(row) ==> RowOf(rows, p).Some?
    ensures ParentsEarlier(rows + [row])
  {
    var all, n := rows + [row], |rows|;
    hide ParentsOf, RowOf;
    forall i, p | 0 <= i < |all| && p in ParentsOf(all[i]) ensures exists j :: 0 <= j < i && all[j].id == p {
      if i < n {
        var j :| 0 <= j < i && rows[j].id == p;
        assert all[j] == rows[j];
      } else {
        RowOfMeans(rows, p);
        var j :| 0 <= j < n && rows[j] == RowOf(rows, p).value;
        assert all[j] == rows[j];
      }
    }
  }

  lemma {:induction false} ExtendMonotone(rows: seq<Row>, row: Row)
    requires DistinctIds(rows) && MonotoneRows(rows) && ParentsEarlier(rows + [row]) && RowOf(rows, row.id).None?
    requires forall p :: p in ParentsOf(row) ==> RowOf(rows, p).Some? && WeakerRow(row, RowOf(rows, p).value)
    ensures MonotoneRows(rows + [row])
  {
    var all, n := rows + [row], |rows|;
    RowOfMeans(rows, row.id);
    hide ParentsOf, WeakerRow, RowOf;
    forall i, j | 0 <= i < |all| && 0 <= j < |all| && all[j].id in ParentsOf(all[i]) ensures WeakerRow(all[i], all[j]) {
      var k :| 0 <= k < i && all[k].id == all[j].id;
      ExtendIds(rows, row);
      assert k == j;
      if i == n { RowOfAt(rows, j); }
    }
  }

  lemma {:induction false} NewWeaker(c: Suite, s: State, r: Request, own: Confidence, t: State, row: Row, e: Dac,
      k: nat)
    requires AllStored(s.rows) && Extends(c, s, r, own, t, row, e) && k < |r.parents|
    ensures WeakerRow(row, RowOf(s.rows, r.parents[k]).value)
  {
    hide RowSound, RowHash, HeadHash, CanonicalIds, OwnTerms, Combined, Hex, Env, Settled, Weaker, ToProjection, RowOf;
    RowOfMeans(s.rows, r.parents[k]);
    CombinedMonotone(OwnTerms(r, own).value, ParentTerms(s.rows, r.parents));
    assert Weaker(Combined(OwnTerms(r, own).value, ParentTerms(s.rows, r.parents)), ParentTerms(s.rows, r.parents)[k]);
    var p := RowOf(s.rows, r.parents[k]).value;
    assert Stored(p);
    BothStatuses(row, p, e, Env(p).value);
  }

  lemma {:induction false} BothStatuses(row: Row, p: Row, e: Dac, d: Dac)
    requires Env(row) == Some(e) && Env(p) == Some(d) && row.status == e.validity.status
    requires p.status == Valid ==> d.validity.status == Valid
    requires Weaker(SignedTerms(e), RowTerms(p))
    ensures WeakerRow(row, p)
  {
    hide Env;
  }

  lemma {:induction false} IssueKeeps(c: Suite, s: State, r: Request, own: Confidence, t: State, row: Row, e: Dac)
    requires WellFormed(c, s) && Extends(c, s, r, own, t, row, e)
    ensures WellFormed(c, t)
  {
    hide RowSound, RowHash, CanonicalIds, OwnTerms, Combined, Hex, Env, Settled, Weaker, ToProjection, RowOf, Linked,
      DistinctIds, EdgesMatch, ParentsEarlier, MonotoneRows, WeakerRow, ParentTerms, HeadHash;
    ParentsAre(row, e);
    RowLast(s.rows, row);
    CanonicalMeans(r.parents);
    forall p | p in ParentsOf(row) ensures RowOf(s.rows, p).Some? && WeakerRow(row, RowOf(s.rows, p).value) {
      var k :| 0 <= k < |r.parents| && r.parents[k] == p;
      NewWeaker(c, s, r, own, t, row, e, k);
    }
    hide ParentsOf;
    ExtendIds(s.rows, row);
    ExtendEdges(s.rows, s.edges, row);
    ExtendEarlier(s.rows, row);
    ExtendMonotone(s.rows, row);
    LinkedSnoc(c, s.rows, row);
  }

  lemma {:induction false} ParentsAre(row: Row, e: Dac)
    requires Holds(row, e)
    ensures ParentsOf(row) == e.parents && Stored(row) && Env(row) == Some(e)
  {
    hide Env, Settled, ToProjection;
  }

  lemma {:induction false} RowLast(rows: seq<Row>, row: Row)
    ensures LastRec(rows + [row]) == row.recHash
  {}

  // ----- So does a cascade -----

  // Only the status column differs.
  ghost predicate SameSigned(a: seq<Row>, b: seq<Row>) {
    |a| == |b| && forall i :: 0 <= i < |a| ==> b[i] == a[i].(status := b[i].status)
  }

  lemma {:induction false} SignedRow(c: Suite, a: Row, b: Row)
    requires b == a.(status := b.status)
    ensures Env(a) == Env(b) && ParentsOf(a) == ParentsOf(b)
    ensures RowSound(c, a) == RowSound(c, b) && RowHash(c, a) == RowHash(c, b)
    ensures Stored(a) && (b.status == Valid ==> a.status == Valid) ==> Stored(b)
  {
    hide FromProjection, Message, SelfVerifies, Settled, ToProjection, Hex;
  }

  lemma {:induction false} LinkedSame(c: Suite, a: seq<Row>, b: seq<Row>)
    requires SameSigned(a, b) && Linked(c, a, GENESIS_PREV)
    ensures Linked(c, b, GENESIS_PREV)
  {
    hide RowSound, RowHash, Env, ParentsOf, Stored;
    forall i | 0 <= i < |b| ensures RowLinked(c, b, GENESIS_PREV, i) {
      assert RowLinked(c, a, GENESIS_PREV, i);
      SignedRow(c, a[i], b[i]);
      if i > 0 { SignedRow(c, a[i - 1], b[i - 1]); }
    }
  }

  lemma {:induction false} GraphSame(c: Suite, a: seq<Row>, b: seq<Row>, edges: seq<Edge>)
    requires SameSigned(a, b)
    ensures DistinctIds(a) ==> DistinctIds(b)
    ensures EdgesMatch(a, edges) ==> EdgesMatch(b, edges)
    ensures ParentsEarlier(a) ==> ParentsEarlier(b)
  {
    hide RowSound, RowHash, Env, ParentsOf, Stored;
    forall i | 0 <= i < |a| ensures ParentsOf(a[i]) == ParentsOf(b[i]) { SignedRow(c, a[i], b[i]); }
    if EdgesMatch(a, edges) {
      forall e | e in edges ensures exists i :: 0 <= i < |b| && b[i].id == e.child && e.parent in ParentsOf(b[i]) {
        var i :| 0 <= i < |a| && a[i].id == e.child && e.parent in ParentsOf(a[i]);
        assert b[i].id == e.child;
      }
    }
    if ParentsEarlier(a) {
      forall i, p | 0 <= i < |b| && p in ParentsOf(b[i]) ensures exists j :: 0 <= j < i && b[j].id == p {
        var j :| 0 <= j < i && a[j].id == p;
        assert b[j].id == p;
      }
    }
  }

  lemma {:induction false} CascadeSame(s: State, m: Text)
    ensures SameSigned(s.rows, AfterCascade(s, m).rows) && LastRec(AfterCascade(s, m).rows) == LastRec(s.rows)
    ensures forall i :: 0 <= i < |s.rows| && AfterCascade(s, m).rows[i].status == Valid ==> s.rows[i].status == Valid
  {
    hide Hit;
  }

  // A claim below one the monitor governs is governed too, so VALID rows keep VALID parents.
  lemma {:induction false} CascadeMonotone(c: Suite, s: State, m: Text)
    requires MonotoneRows(s.rows) && EdgesMatch(s.rows, s.edges)
    ensures MonotoneRows(AfterCascade(s, m).rows)
  {
    var a, b := s.rows, AfterCascade(s, m).rows;
    CascadeSame(s, m);
    hide ParentsOf, Env, Weaker, Governed, RowSound, RowHash, Stored;
    forall i, j | 0 <= i < |b| && 0 <= j < |b| && b[j].id in ParentsOf(b[i]) ensures WeakerRow(b[i], b[j]) {
      SignedRow(c, a[i], b[i]);
      SignedRow(c, a[j], b[j]);
      assert WeakerRow(a[i], a[j]);
      assert Edge(a[j].id, a[i].id) in s.edges;
      if Governed(a, s.edges, m, a[j].id) { Cascade.GovernedOn(a, s.edges, m, a[j].id, a[i].id); }
    }
  }

  lemma {:induction false} CascadeKeeps(c: Suite, s: State, m: Text)
    requires WellFormed(c, s)
    ensures WellFormed(c, AfterCascade(s, m))
  {
    hide Linked, DistinctIds, EdgesMatch, ParentsEarlier, MonotoneRows, Stored, Staled, Env, ParentsOf, RowSound,
      RowHash;
    CascadeSame(s, m);
    var a, b := s.rows, AfterCascade(s, m).rows;
    LinkedSame(c, a, b);
    GraphSame(c, a, b, s.edges);
    CascadeMonotone(c, s, m);
    forall i | 0 <= i < |b| ensures Stored(b[i]) { SignedRow(c, a[i], b[i]); }
  }

  // ----- Every run -----

  lemma {:induction false} StepKeeps(c: Suite, s: State, e: Event)
    requires Sound(c) && WellFormed(c, s) && (e.Issue? ==> InRangeRequest(e.request, e.own))
    ensures WellFormed(c, Step(c, s, e))
  {
    hide WellFormed, Sound, InRangeRequest, Extends, AfterIssue, AfterCascade;
    match e
    case Issue(r, own) =>
      if AfterIssue(c, s, r, own).Some? {
        var row, env := IssueMeans(c, s, r, own);
        IssueKeeps(c, s, r, own, AfterIssue(c, s, r, own).value, row, env);
      }
    case Trip(m) => CascadeKeeps(c, s, m);
    case Reopen => HeadCached(c, s);
  }

  // The cached head is the last row's record hash already.
  lemma {:induction false} HeadCached(c: Suite, s: State)
    requires WellFormed(c, s)
    ensures Reopened(s) == s
  {
    hide Linked, DistinctIds, EdgesMatch, ParentsEarlier, MonotoneRows, AllStored;
  }

  lemma {:induction false} RunKeeps(c: Suite, events: seq<Event>)
    requires Sound(c) && InRangeEvents(events)
    ensures WellFormed(c, Run(c, events))
  {
    hide WellFormed, Sound, InRangeRequest, Step;
    if events == [] {
      EmptyWellFormed(c);
    } else {
      var n := |events| - 1;
      assert InRangeEvents(events[..n]);
      RunKeeps(c, events[..n]);
      assert events[n].Issue? ==> InRangeRequest(events[n].request, events[n].own);
      StepKeeps(c, Run(c, events[..n]), events[n]);
    }
  }

  lemma {:induction false} EmptyWellFormed(c: Suite)
    ensures WellFormed(c, EMPTY)
  {}

  // Closing and reopening after any run changes nothing, and so neither does doing it in the middle of one.
  lemma {:induction false} ReopenSame(c: Suite, events: seq<Event>)
    requires Sound(c) && InRangeEvents(events)
    ensures Reopened(Run(c, events)) == Run(c, events) == Run(c, events + [Reopen])
  {
    hide Sound, InRangeEvents, Run, WellFormed, Reopened;
    RunKeeps(c, events);
    HeadCached(c, Run(c, events));
    RunOn(c, events, Reopen);
  }

  lemma {:induction false} RunOn(c: Suite, events: seq<Event>, e: Event)
    ensures Run(c, events + [e]) == Step(c, Run(c, events), e)
  {
    assert (events + [e])[..|events|] == events;
    hide Step;
  }

  // After any run with in-range inputs: verify_chain returns true, and the collecting verifier's report is ok;
  // the cached head is the last record hash, and the genesis value on an empty store; every stored view
  // rebuilds to a schema-valid envelope, signed by its producer alone, that has the row's id and monitor; and
  // the edges are exactly the parent lists.
  lemma {:induction false} RunSafe(c: Suite, events: seq<Event>)
    requires Sound(c) && InRangeEvents(events)
    ensures var s := Run(c, events);
      && Check(c, s.rows) == Accepted && VerifierLaws.ReportOk(c, None, s.rows)
      && HeadOf(s.last) == Some(HeadHash(c, s.rows)) && s.last == LastRec(s.rows)
      && (forall i :: 0 <= i < |s.rows| ==> Stored(s.rows[i]))
      && DistinctIds(s.rows) && EdgesMatch(s.rows, s.edges) && ParentsEarlier(s.rows)
  {
    hide Sound, InRangeEvents, Run, Linked, DistinctIds, EdgesMatch, ParentsEarlier, MonotoneRows, Stored, HeadHash,
      HeadOf, LastRec, CheckFrom, VerifierLaws.ReportOk, VerifierLaws.AuthorOnlyRow;
    RunKeeps(c, events);
    var s := Run(c, events);
    HeadIs(c, s);
    CheckIffLinked(c, s.rows, GENESIS_PREV);
    forall i | 0 <= i < |s.rows| ensures VerifierLaws.AuthorOnlyRow(s.rows[i]) { StoredAlone(s.rows[i]); }
    VerifierLaws.VerifiersAgree(c, s.rows);
  }

  lemma {:induction false} StoredAlone(row: Row)
    requires Stored(row)
    ensures VerifierLaws.AuthorOnlyRow(row)
  {
    hide Env, Settled, ToProjection, VerifierLaws.AuthorAlone;
  }
}
