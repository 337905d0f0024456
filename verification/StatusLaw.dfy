/** The closed form of the status column over every run. */
module StatusLaw {
  import opened Base
  import opened Cbor
  import opened Crypto
  import opened Envelope
  import opened Propagation
  import opened Projection
  import opened Chain
  import opened Claims
  import opened Graph
  import opened Store
  import opened Issuing
  import opened Runs

  // The intersection of the request's window with its parents' is empty, so the claim is clamped at issue.
  ghost predicate BornEmpty(s: State, r: Request, own: Confidence) {
    OwnTerms(r, own).Some? && ParentRows(s.rows, r.parents)
    && Clamped(OwnTerms(r, own).value, ParentTerms(s.rows, r.parents))
  }

  ghost function RowsAt(c: Suite, events: seq<Event>, k: nat): nat
    requires k <= |events|
  {
    |Run(c, events[..k]).rows|
  }

  // Row j was issued by event k with an empty window.
  ghost predicate ClampedBy(c: Suite, events: seq<Event>, j: nat, k: nat)
    requires k < |events|
  {
    && events[k].Issue? && RowsAt(c, events, k) == j && RowsAt(c, events, k + 1) == j + 1
    && BornEmpty(Run(c, events[..k]), events[k].request, events[k].own)
  }

  // Event k trips the monitor, and row j is in the store by then.
  ghost predicate TrippedBy(c: Suite, events: seq<Event>, j: nat, monitor: Option<Text>, k: nat)
    requires k < |events|
  {
    events[k].Trip? && monitor == Some(events[k].monitor) && j < RowsAt(c, events, k)
  }

  // Row j itself gave a reason to be stale: its window was clamped at issue, or its monitor tripped after.
  ghost predicate Cause(c: Suite, events: seq<Event>, j: nat, monitor: Option<Text>) {
    exists k: nat :: k < |events| && CausedBy(c, events, j, monitor, k)
  }

  ghost predicate CausedBy(c: Suite, events: seq<Event>, j: nat, monitor: Option<Text>, k: nat)
    requires k < |events|
  {
    ClampedBy(c, events, j, k) || TrippedBy(c, events, j, monitor, k)
  }

  // Row i, or an ancestor of it, gave a reason.
  ghost predicate Tainted(c: Suite, events: seq<Event>, s: State, i: nat)
    requires i < |s.rows|
  {
    exists j: nat :: j < |s.rows| && TaintedBy(c, events, s, i, j)
  }

  ghost predicate TaintedBy(c: Suite, events: seq<Event>, s: State, i: nat, j: nat)
    requires i < |s.rows| && j < |s.rows|
  {
    Reaches(s.edges, s.rows[j].id, s.rows[i].id) && Cause(c, events, j, s.rows[j].monitor)
  }

  // ----- One more event -----

  lemma {:induction false} CauseStep(c: Suite, events: seq<Event>, j: nat, monitor: Option<Text>)
    requires events != []
    ensures var n := |events| - 1;
      Cause(c, events, j, monitor) <==> Cause(c, events[..n], j, monitor) || CausedBy(c, events, j, monitor, n)
  {
    var n := |events| - 1;
    hide Run, BornEmpty;
    forall k: nat | k < n
      ensures CausedBy(c, events, j, monitor, k) == CausedBy(c, events[..n], j, monitor, k)
    {
      assert events[..n][..k] == events[..k] && events[..n][..k + 1] == events[..k + 1];
    }
    hide CausedBy;
    if k: nat :| k < n && CausedBy(c, events[..n], j, monitor, k) {
      assert CausedBy(c, events, j, monitor, k);
    }
  }

  // Rows are only ever added, one by one.
  lemma {:induction false} RowsGrow(c: Suite, events: seq<Event>, k: nat)
    requires k <= |events|
    ensures RowsAt(c, events, k) <= |Run(c, events).rows|
    decreases |events| - k
  {
    hide AfterIssue, Staled;
    assert events[..|events|] == events;
    if k < |events| {
      RowsGrow(c, events, k + 1);
      assert events[..k + 1][..k] == events[..k];
      hide Run;
      StepGrows(c, Run(c, events[..k]), events[k]);
      RunStep(c, events, k);
    }
  }

  lemma {:induction false} RunStep(c: Suite, events: seq<Event>, k: nat)
    requires k < |events|
    ensures Run(c, events[..k + 1]) == Step(c, Run(c, events[..k]), events[k])
  {
    assert events[..k + 1][..k] == events[..k];
  }

  lemma {:induction false} StepGrows(c: Suite, s: State, e: Event)
    ensures |s.rows| <= |Step(c, s, e).rows| <= |s.rows| + 1
    ensures |s.rows| < |Step(c, s, e).rows| ==> e.Issue?
  {
    hide SignedClaim, NewRow, RowOf, Hit;
  }

  // A row not yet in the store has given no reason.
  lemma {:induction false} NoCauseYet(c: Suite, events: seq<Event>, j: nat, monitor: Option<Text>)
    requires j >= |Run(c, events).rows|
    ensures !Cause(c, events, j, monitor)
  {
    hide Run, BornEmpty;
    forall k: nat | k < |events| ensures !CausedBy(c, events, j, monitor, k) {
      RowsGrow(c, events, k);
      RowsGrow(c, events, k + 1);
    }
  }

  // ----- Paths when one row is appended -----

  // The new edges all lead to id, and nothing leads away from it.
  ghost predicate FreshTarget(edges: seq<Edge>, more: seq<Edge>, id: Bytes) {
    && (forall e :: e in more ==> e.child == id)
    && (forall e :: e in edges + more ==> e.parent != id)
    && (forall e :: e in edges ==> e.child != id)
  }

  lemma {:induction false} PathsOld(edges: seq<Edge>, more: seq<Edge>, id: Bytes, a: Bytes, b: Bytes, k: nat)
    requires FreshTarget(edges, more, id) && b != id && ReachesIn(edges + more, a, b, k)
    ensures ReachesIn(edges, a, b, k) && a != id
    decreases k
  {
    if k > 0 {
      var x :| ReachesIn(edges + more, a, x, k - 1) && Edge(x, b) in edges + more;
      PathsOld(edges, more, id, a, x, k - 1);
      assert Edge(x, b) in edges;
    }
  }

  lemma {:induction false} PathsKept(edges: seq<Edge>, more: seq<Edge>, a: Bytes, b: Bytes, k: nat)
    requires ReachesIn(edges, a, b, k)
    ensures ReachesIn(edges + more, a, b, k)
    decreases k
  {
    if k > 0 {
      var x :| ReachesIn(edges, a, x, k - 1) && Edge(x, b) in edges;
      PathsKept(edges, more, a, x, k - 1);
      assert Edge(x, b) in edges + more;
    }
  }

  lemma {:induction false} ReachesOld(edges: seq<Edge>, more: seq<Edge>, id: Bytes, a: Bytes, b: Bytes)
    requires FreshTarget(edges, more, id) && b != id
    ensures Reaches(edges + more, a, b) <==> Reaches(edges, a, b)
    ensures Reaches(edges, a, b) ==> a != id
  {
    hide FreshTarget, ReachesIn;
    if k: nat :| ReachesIn(edges + more, a, b, k) { PathsOld(edges, more, id, a, b, k); }
    if k: nat :| ReachesIn(edges, a, b, k) {
      PathsKept(edges, more, a, b, k);
      PathsOld(edges, more, id, a, b, k);
    }
  }

  // What reaches the new row from elsewhere reaches one of its parents.
  lemma {:induction false} ReachesNew(edges: seq<Edge>, more: seq<Edge>, id: Bytes, a: Bytes)
    requires FreshTarget(edges, more, id) && a != id
    ensures Reaches(edges + more, a, id) <==> exists p :: Edge(p, id) in more && Reaches(edges, a, p)
  {
    hide Reaches;
    if Reaches(edges + more, a, id) {
      var p := ReachesLast(edges + more, a, id);
      ReachesOld(edges, more, id, a, p);
    }
    if p :| Edge(p, id) in more && Reaches(edges, a, p) {
      ReachesOld(edges, more, id, a, p);
      ReachesOn(edges + more, a, p, id);
    }
  }

  // ----- The law, step by step -----

  ghost predicate Lawful(c: Suite, events: seq<Event>, s: State) {
    forall i: nat :: i < |s.rows| ==> (s.rows[i].status != Valid <==> Tainted(c, events, s, i))
  }

  lemma {:induction false} TripCause(c: Suite, events: seq<Event>, j: nat, monitor: Option<Text>, m: Text)
    requires events != [] && events[|events| - 1] == Trip(m) && j < |Run(c, events[..|events| - 1]).rows|
    ensures Cause(c, events, j, monitor) <==> Cause(c, events[..|events| - 1], j, monitor) || monitor == Some(m)
  {
    hide Run, Cause;
    CauseStep(c, events, j, monitor);
  }

  lemma {:induction false} TripRow(c: Suite, events: seq<Event>, s: State, m: Text, i: nat)
    requires events != [] && events[|events| - 1] == Trip(m) && s == Run(c, events[..|events| - 1]) && i < |s.rows|
    ensures Tainted(c, events, AfterCascade(s, m), i)
      <==> Tainted(c, events[..|events| - 1], s, i) || Governed(s.rows, s.edges, m, s.rows[i].id)
  {
    var t, pre := AfterCascade(s, m), events[..|events| - 1];
    hide Run, Cause, Reaches, AfterCascade;
    CascadeEdges(s, m);
    if Tainted(c, events, t, i) {
      var j: nat :| j < |t.rows| && TaintedBy(c, events, t, i, j);
      TripCause(c, events, j, t.rows[j].monitor, m);
      assert s.rows[j].monitor != Some(m) ==> TaintedBy(c, pre, s, i, j);
    }
    if Tainted(c, pre, s, i) {
      var j: nat :| j < |s.rows| && TaintedBy(c, pre, s, i, j);
      TripCause(c, events, j, t.rows[j].monitor, m);
      assert TaintedBy(c, events, t, i, j);
    }
    if Governed(s.rows, s.edges, m, s.rows[i].id) {
      var j :| 0 <= j < |s.rows| && s.rows[j].monitor == Some(m) && Reaches(s.edges, s.rows[j].id, s.rows[i].id);
      TripCause(c, events, j, t.rows[j].monitor, m);
      assert TaintedBy(c, events, t, i, j);
    }
  }

  lemma {:induction false} CascadeEdges(s: State, m: Text)
    ensures AfterCascade(s, m).edges == s.edges && |AfterCascade(s, m).rows| == |s.rows|
    ensures forall i: nat :: i < |s.rows| ==>
      AfterCascade(s, m).rows[i].id == s.rows[i].id && AfterCascade(s, m).rows[i].monitor == s.rows[i].monitor
    ensures forall i: nat :: i < |s.rows| ==>
      (AfterCascade(s, m).rows[i].status == Valid <==>
        s.rows[i].status == Valid && !Governed(s.rows, s.edges, m, s.rows[i].id))
  {
    hide Governed;
  }

  lemma {:induction false} TripLaw(c: Suite, events: seq<Event>, s: State, m: Text)
    requires events != [] && events[|events| - 1] == Trip(m) && s == Run(c, events[..|events| - 1])
    requires Lawful(c, events[..|events| - 1], s)
    ensures Lawful(c, events, AfterCascade(s, m))
  {
    CascadeEdges(s, m);
    hide Run, Tainted, Governed, AfterCascade;
    forall i: nat | i < |s.rows|
      ensures AfterCascade(s, m).rows[i].status != Valid <==> Tainted(c, events, AfterCascade(s, m), i)
    {
      TripRow(c, events, s, m, i);
    }
  }

  // An event that adds no row and trips nothing.
  lemma {:induction false} IdleLaw(c: Suite, events: seq<Event>, s: State)
    requires events != [] && s == Run(c, events[..|events| - 1]) && s == Run(c, events) && !events[|events| - 1].Trip?
    requires Lawful(c, events[..|events| - 1], s)
    ensures Lawful(c, events, s)
  {
    hide Run, Tainted;
    forall i: nat | i < |s.rows| ensures Tainted(c, events, s, i) <==> Tainted(c, events[..|events| - 1], s, i) {
      IdleRow(c, events, s, i);
    }
  }

  lemma {:induction false} IdleRow(c: Suite, events: seq<Event>, s: State, i: nat)
    requires events != [] && s == Run(c, events[..|events| - 1]) && s == Run(c, events) && !events[|events| - 1].Trip?
    requires i < |s.rows|
    ensures Tainted(c, events, s, i) <==> Tainted(c, events[..|events| - 1], s, i)
  {
    var pre := events[..|events| - 1];
    hide Run, Cause, Reaches;
    if Tainted(c, events, s, i) {
      var j: nat :| j < |s.rows| && TaintedBy(c, events, s, i, j);
      IdleCause(c, events, j, s.rows[j].monitor);
      assert TaintedBy(c, pre, s, i, j);
    }
    if Tainted(c, pre, s, i) {
      var j: nat :| j < |s.rows| && TaintedBy(c, pre, s, i, j);
      IdleCause(c, events, j, s.rows[j].monitor);
      assert TaintedBy(c, events, s, i, j);
    }
  }

  lemma {:induction false} IdleCause(c: Suite, events: seq<Event>, j: nat, monitor: Option<Text>)
    requires events != [] && Run(c, events[..|events| - 1]) == Run(c, events) && !events[|events| - 1].Trip?
    ensures Cause(c, events, j, monitor) <==> Cause(c, events[..|events| - 1], j, monitor)
  {
    hide Run, BornEmpty, Cause;
    CauseStep(c, events, j, monitor);
    assert events[..|events| - 1 + 1] == events;
  }

  // The event e, issued in state s, appends the row: its id is new and its edges come from older rows.
  ghost predicate Adds(c: Suite, pre: seq<Event>, e: Event, s: State, t: State, more: seq<Edge>, row: Row) {
    && e.Issue? && s == Run(c, pre) && t == Run(c, pre + [e])
    && t.rows == s.rows + [row] && t.edges == s.edges + more && FreshTarget(s.edges, more, row.id)
    && NewId(s.rows, row.id) && ParentsPresent(s.rows, more)
  }

  ghost predicate NewId(rows: seq<Row>, id: Bytes) {
    forall j: nat :: j < |rows| ==> rows[j].id != id
  }

  ghost predicate ParentsPresent(rows: seq<Row>, more: seq<Edge>) {
    forall e :: e in more ==> exists i: nat :: i < |rows| && rows[i].id == e.parent
  }

  // What causes there are now.
  lemma {:induction false} IssueCause(c: Suite, pre: seq<Event>, e: Event, s: State, t: State, more: seq<Edge>,
      row: Row,
      j: nat, monitor: Option<Text>)
    requires Adds(c, pre, e, s, t, more, row)
    ensures Cause(c, pre + [e], j, monitor)
      <==> Cause(c, pre, j, monitor) || (j == |s.rows| && BornEmpty(s, e.request, e.own))
  {
    var events := pre + [e];
    hide Run, BornEmpty, Cause, FreshTarget, NewId, ParentsPresent;
    CauseStep(c, events, j, monitor);
    assert events[..|pre|] == pre && events[..|pre| + 1] == events;
  }

  lemma {:induction false} OldRow(c: Suite, pre: seq<Event>, e: Event, s: State, t: State, more: seq<Edge>, row: Row,
      i: nat)
    requires Adds(c, pre, e, s, t, more, row) && i < |s.rows|
    ensures Tainted(c, pre + [e], t, i) <==> Tainted(c, pre, s, i)
  {
    hide Run, FreshTarget, NewId, ParentsPresent, TaintedBy;
    if Tainted(c, pre + [e], t, i) {
      var j: nat :| j < |t.rows| && TaintedBy(c, pre + [e], t, i, j);
      OldRowBy(c, pre, e, s, t, more, row, i, j);
    }
    if Tainted(c, pre, s, i) {
      var j: nat :| j < |s.rows| && TaintedBy(c, pre, s, i, j);
      OldRowBy(c, pre, e, s, t, more, row, i, j);
    }
  }

  lemma {:induction false} OldRowBy(c: Suite, pre: seq<Event>, e: Event, s: State, t: State, more: seq<Edge>, row: Row,
      i: nat, j: nat)
    requires Adds(c, pre, e, s, t, more, row) && i < |s.rows| && j < |t.rows|
    ensures TaintedBy(c, pre + [e], t, i, j) <==> j < |s.rows| && TaintedBy(c, pre, s, i, j)
  {
    hide Run, Cause, Reaches, FreshTarget, ParentsPresent;
    ReachesOld(s.edges, more, row.id, t.rows[j].id, s.rows[i].id);
    IssueCause(c, pre, e, s, t, more, row, j, t.rows[j].monitor);
  }

  // Row i is a parent of the new row.
  ghost predicate IsParent(s: State, more: seq<Edge>, id: Bytes, i: nat) {
    i < |s.rows| && Edge(s.rows[i].id, id) in more
  }

  // The new row gives its own reason exactly when it is clamped.
  lemma {:induction false} FreshRowBy(c: Suite, pre: seq<Event>, e: Event, s: State, t: State, more: seq<Edge>,
      row: Row)
    requires Adds(c, pre, e, s, t, more, row)
    ensures TaintedBy(c, pre + [e], t, |s.rows|, |s.rows|) <==> BornEmpty(s, e.request, e.own)
  {
    hide Run, BornEmpty, Cause, Reaches, FreshTarget, NewId, ParentsPresent;
    IssueCause(c, pre, e, s, t, more, row, |s.rows|, row.monitor);
    NoCauseYet(c, pre, |s.rows|, row.monitor);
    ReachesSelf(t.edges, row.id);
  }

  // An older row taints it exactly through a parent.
  lemma {:induction false} ViaParent(c: Suite, pre: seq<Event>, e: Event, s: State, t: State, more: seq<Edge>, row: Row,
      j: nat) returns (i: nat)
    requires Adds(c, pre, e, s, t, more, row) && j < |s.rows| && TaintedBy(c, pre + [e], t, |s.rows|, j)
    ensures IsParent(s, more, row.id, i) && TaintedBy(c, pre, s, i, j)
  {
    hide Run, Cause, Reaches, FreshTarget;
    ReachesNew(s.edges, more, row.id, s.rows[j].id);
    IssueCause(c, pre, e, s, t, more, row, j, s.rows[j].monitor);
    var p :| Edge(p, row.id) in more && Reaches(s.edges, s.rows[j].id, p);
    i :| i < |s.rows| && s.rows[i].id == Edge(p, row.id).parent;
  }

  lemma {:induction false} FromParent(c: Suite, pre: seq<Event>, e: Event, s: State, t: State, more: seq<Edge>,
      row: Row,
      i: nat, j: nat)
    requires Adds(c, pre, e, s, t, more, row) && IsParent(s, more, row.id, i) && j < |s.rows|
      && TaintedBy(c, pre, s, i, j)
    ensures TaintedBy(c, pre + [e], t, |s.rows|, j)
  {
    hide Run, Cause, Reaches, FreshTarget;
    ReachesNew(s.edges, more, row.id, s.rows[j].id);
    IssueCause(c, pre, e, s, t, more, row, j, s.rows[j].monitor);
    assert Reaches(s.edges, s.rows[j].id, s.rows[i].id);
  }

  // Some parent of the new row is not VALID; some parent is tainted.
  ghost predicate StaleAbove(s: State, more: seq<Edge>, id: Bytes) {
    exists i: nat :: IsParent(s, more, id, i) && s.rows[i].status != Valid
  }

  ghost predicate TaintedAbove(c: Suite, events: seq<Event>, s: State, more: seq<Edge>, id: Bytes) {
    exists i: nat :: IsParent(s, more, id, i) && Tainted(c, events, s, i)
  }

  lemma {:induction false} FreshRow(c: Suite, pre: seq<Event>, e: Event, s: State, t: State, more: seq<Edge>, row: Row)
    requires Adds(c, pre, e, s, t, more, row)
    ensures Tainted(c, pre + [e], t, |s.rows|) <==>
      BornEmpty(s, e.request, e.own) || TaintedAbove(c, pre, s, more, row.id)
  {
    hide Run, BornEmpty, FreshTarget, TaintedBy, ParentsPresent, NewId;
    FreshRowBy(c, pre, e, s, t, more, row);
    if Tainted(c, pre + [e], t, |s.rows|) {
      var j: nat :| j < |t.rows| && TaintedBy(c, pre + [e], t, |s.rows|, j);
      if j < |s.rows| {
        var i := ViaParent(c, pre, e, s, t, more, row, j);
        assert Tainted(c, pre, s, i);
      }
    }
    if TaintedAbove(c, pre, s, more, row.id) {
      var i: nat :| IsParent(s, more, row.id, i) && Tainted(c, pre, s, i);
      var j: nat :| j < |s.rows| && TaintedBy(c, pre, s, i, j);
      FromParent(c, pre, e, s, t, more, row, i, j);
    }
  }

  // ----- A successful issue is such an event -----

  lemma {:induction false} FreshEdges(s: State, id: Bytes, parents: seq<Bytes>)
    requires RowOf(s.rows, id).None? && EdgesMatch(s.rows, s.edges) && ParentsEarlier(s.rows)
    requires forall p :: p in parents ==> RowOf(s.rows, p).Some?
    ensures FreshTarget(s.edges, EdgesTo(parents, id), id) && NewId(s.rows, id)
      && ParentsPresent(s.rows, EdgesTo(parents, id))
  {
    var more := EdgesTo(parents, id);
    hide RowOf, ParentsOf;
    RowOfMeans(s.rows, id);
    forall e | e in more
      ensures e.child == id && e.parent != id && exists i: nat :: i < |s.rows| && s.rows[i].id == e.parent
    {
      var k :| 0 <= k < |more| && more[k] == e;
      RowOfMeans(s.rows, parents[k]);
      var i: nat :| i < |s.rows| && s.rows[i] == RowOf(s.rows, parents[k]).value;
    }
    forall e | e in s.edges ensures e.parent != id && e.child != id {
      var i :| 0 <= i < |s.rows| && s.rows[i].id == e.child && e.parent in ParentsOf(s.rows[i]);
      var j :| 0 <= j < i && s.rows[j].id == e.parent;
    }
  }

  lemma {:induction false} IssueAdds(c: Suite, pre: seq<Event>, r: Request, own: Confidence, s: State, t: State,
      row: Row, env: Dac)
    requires s == Run(c, pre) && t == Run(c, pre + [Issue(r, own)])
    requires WellFormed(c, s) && Extends(c, s, r, own, t, row, env)
    ensures Adds(c, pre, Issue(r, own), s, t, EdgesTo(env.parents, row.id), row)
  {
    hide Run, RowOf, EdgesMatch, ParentsEarlier, MonotoneRows, DistinctIds, AllStored, Linked, Holds, RowSound,
      RowHash, HeadHash, CanonicalIds, OwnTerms, Combined, ParentTerms, FreshTarget, NewId, ParentsPresent;
    CanonicalMeans(r.parents);
    forall p | p in env.parents ensures RowOf(s.rows, p).Some? {
      var k :| 0 <= k < |r.parents| && r.parents[k] == p;
    }
    FreshEdges(s, row.id, env.parents);
  }

  // The status a claim is issued with.
  lemma {:induction false} IssuedStatus(s: State, r: Request, own: Confidence, id: Bytes)
    requires DistinctIds(s.rows) && ParentRows(s.rows, r.parents) && OwnTerms(r, own).Some?
    ensures Combined(OwnTerms(r, own).value, ParentTerms(s.rows, r.parents)).status != Valid <==>
      BornEmpty(s, r, own) || StaleAbove(s, EdgesTo(CanonicalIds(r.parents), id), id)
  {
    var more := EdgesTo(CanonicalIds(r.parents), id);
    hide RowOf, CanonicalIds, OwnTerms, Combined, ParentTerms, Clamped, IsParent, ParentRows, DistinctIds;
    CombinedMeans(OwnTerms(r, own).value, ParentTerms(s.rows, r.parents));
    hide MeetAll, Least, Greatest, SomeHitl, SomeNotValid;
    if SomeNotValid(ParentTerms(s.rows, r.parents)) {
      var i := StaleParent(s, r.parents, id);
      CanonicalEdge(s, r.parents, id, i);
    }
    hide StaleAbove;
    if StaleAbove(s, more, id) { AboveInTerms(s, r.parents, id); }
  }

  lemma {:induction false} AboveInTerms(s: State, ids: seq<Bytes>, id: Bytes)
    requires DistinctIds(s.rows) && ParentRows(s.rows, ids) && StaleAbove(s, EdgesTo(CanonicalIds(ids), id), id)
    ensures SomeNotValid(ParentTerms(s.rows, ids))
  {
    hide RowOf, CanonicalIds, ParentTerms, ParentRows, DistinctIds, SomeNotValid;
    var i: nat :| IsParent(s, EdgesTo(CanonicalIds(ids), id), id, i) && s.rows[i].status != Valid;
    ParentInTerms(s, ids, id, i);
  }

  lemma {:induction false} TermsStatus(row: Row)
    ensures RowTerms(row).status == row.status
  {
    hide Env;
  }

  lemma {:induction false} StaleParent(s: State, ids: seq<Bytes>, id: Bytes) returns (i: nat)
    requires ParentRows(s.rows, ids) && SomeNotValid(ParentTerms(s.rows, ids))
    ensures i < |s.rows| && s.rows[i].id in ids && s.rows[i].status != Valid
  {
    hide RowOf, RowTerms;
    var k :| 0 <= k < |ids| && ParentTerms(s.rows, ids)[k].status != Valid;
    RowOfMeans(s.rows, ids[k]);
    TermsStatus(RowOf(s.rows, ids[k]).value);
    i :| i < |s.rows| && s.rows[i] == RowOf(s.rows, ids[k]).value;
  }

  lemma {:induction false} CanonicalEdge(s: State, ids: seq<Bytes>, id: Bytes, i: nat)
    requires i < |s.rows|
    ensures IsParent(s, EdgesTo(CanonicalIds(ids), id), id, i) <==> s.rows[i].id in ids
  {
    hide CanonicalIds;
    CanonicalMeans(ids);
    var more := EdgesTo(CanonicalIds(ids), id);
    if s.rows[i].id in ids {
      var k :| 0 <= k < |CanonicalIds(ids)| && CanonicalIds(ids)[k] == s.rows[i].id;
      assert more[k] == Edge(s.rows[i].id, id);
    }
  }

  lemma {:induction false} ParentInTerms(s: State, ids: seq<Bytes>, id: Bytes, i: nat)
    requires DistinctIds(s.rows) && ParentRows(s.rows, ids)
    requires IsParent(s, EdgesTo(CanonicalIds(ids), id), id, i) && s.rows[i].status != Valid
    ensures SomeNotValid(ParentTerms(s.rows, ids))
  {
    CanonicalEdge(s, ids, id, i);
    hide RowOf, RowTerms, CanonicalIds;
    var k :| 0 <= k < |ids| && ids[k] == s.rows[i].id;
    RowOfAt(s.rows, i);
    TermsStatus(s.rows[i]);
    assert ParentTerms(s.rows, ids)[k] == RowTerms(s.rows[i]);
  }

  lemma {:induction false} AddsLaw(c: Suite, pre: seq<Event>, e: Event, s: State, t: State, more: seq<Edge>, row: Row)
    requires Adds(c, pre, e, s, t, more, row) && Lawful(c, pre, s)
    requires row.status != Valid <==> BornEmpty(s, e.request, e.own) || StaleAbove(s, more, row.id)
    ensures Lawful(c, pre + [e], t)
  {
    hide Run, BornEmpty, Adds, Tainted, StaleAbove, TaintedAbove, IsParent;
    FreshRow(c, pre, e, s, t, more, row);
    AddedRows(c, pre, e, s, t, more, row);
    SameAbove(c, pre, s, more, row.id);
    forall i: nat | i < |t.rows| ensures t.rows[i].status != Valid <==> Tainted(c, pre + [e], t, i) {
      if i < |s.rows| { OldRow(c, pre, e, s, t, more, row, i); }
    }
  }

  lemma {:induction false} AddedRows(c: Suite, pre: seq<Event>, e: Event, s: State, t: State, more: seq<Edge>, row: Row)
    requires Adds(c, pre, e, s, t, more, row)
    ensures t.rows == s.rows + [row]
  {
    hide Run, FreshTarget, NewId, ParentsPresent;
  }

  lemma {:induction false} SameAbove(c: Suite, pre: seq<Event>, s: State, more: seq<Edge>, id: Bytes)
    requires Lawful(c, pre, s)
    ensures StaleAbove(s, more, id) <==> TaintedAbove(c, pre, s, more, id)
  {
    hide Tainted;
    if StaleAbove(s, more, id) {
      var i: nat :| IsParent(s, more, id, i) && s.rows[i].status != Valid;
      assert Tainted(c, pre, s, i);
    }
    if TaintedAbove(c, pre, s, more, id) {
      var i: nat :| IsParent(s, more, id, i) && Tainted(c, pre, s, i);
      assert s.rows[i].status != Valid;
    }
  }

  lemma {:induction false} ExtendsStatus(c: Suite, s: State, r: Request, own: Confidence, t: State, row: Row, env: Dac)
    requires Extends(c, s, r, own, t, row, env) && DistinctIds(s.rows)
    ensures row.status != Valid <==> BornEmpty(s, r, own) || StaleAbove(s, EdgesTo(env.parents, row.id), row.id)
  {
    hide RowOf, Holds, RowSound, RowHash, HeadHash, CanonicalIds, OwnTerms, Combined, ParentTerms, ParentRows,
      DistinctIds, BornEmpty, StaleAbove, Hex, EdgesTo;
    IssuedStatus(s, r, own, row.id);
  }

  lemma {:induction false} IssueLaw(c: Suite, pre: seq<Event>, r: Request, own: Confidence, s: State, t: State,
      row: Row, env: Dac)
    requires s == Run(c, pre) && t == Run(c, pre + [Issue(r, own)])
    requires WellFormed(c, s) && Extends(c, s, r, own, t, row, env) && Lawful(c, pre, s)
    ensures Lawful(c, pre + [Issue(r, own)], t)
  {
    hide Run, Extends, BornEmpty, Lawful, Adds, StaleAbove, EdgesTo, Linked, DistinctIds, EdgesMatch, ParentsEarlier,
      MonotoneRows, AllStored;
    IssueAdds(c, pre, r, own, s, t, row, env);
    ExtendsStatus(c, s, r, own, t, row, env);
    AddsLaw(c, pre, Issue(r, own), s, t, EdgesTo(env.parents, row.id), row);
  }

  // Over every run: a claim's status column is not VALID exactly when it or some ancestor had its window
  // clamped at issue, or has a monitor that was tripped after that ancestor was issued.
  lemma {:induction false} StatusClosedForm(c: Suite, events: seq<Event>)
    requires Sound(c) && InRangeEvents(events)
    ensures forall i: nat :: i < |Run(c, events).rows| ==>
      (Run(c, events).rows[i].status != Valid <==> Tainted(c, events, Run(c, events), i))
  {
    hide Sound, Run, Tainted;
    LawfulRun(c, events);
  }

  lemma {:induction false} LawfulRun(c: Suite, events: seq<Event>)
    requires Sound(c) && InRangeEvents(events)
    ensures Lawful(c, events, Run(c, events))
  {
    hide Sound, InRangeRequest, WellFormed, Lawful, Run, Step, AfterIssue, AfterCascade, Extends;
    if events == [] {
      EmptyLaw(c);
    } else {
      var n := |events| - 1;
      var pre, last := events[..n], events[n];
      var s, t := Run(c, pre), Run(c, events);
      assert InRangeEvents(pre) && (last.Issue? ==> InRangeRequest(last.request, last.own));
      LawfulRun(c, pre);
      RunKeeps(c, pre);
      assert events[..n + 1] == events && events == pre + [last];
      RunStep(c, events, n);
      LawfulStep(c, pre, last, s, t);
    }
  }

  lemma {:induction false} EmptyLaw(c: Suite)
    ensures Lawful(c, [], Run(c, []))
  {}

  lemma {:induction false} LawfulStep(c: Suite, pre: seq<Event>, last: Event, s: State, t: State)
    requires Sound(c) && s == Run(c, pre) && t == Run(c, pre + [last]) == Step(c, s, last)
    requires WellFormed(c, s) && Lawful(c, pre, s) && (last.Issue? ==> InRangeRequest(last.request, last.own))
    ensures Lawful(c, pre + [last], t)
  {
    hide Sound, InRangeRequest, WellFormed, Lawful, Run, AfterIssue, AfterCascade, Extends;
    var events := pre + [last];
    assert events[..|events| - 1] == pre;
    if last.Trip? {
      TripLaw(c, events, s, last.monitor);
    } else if last.Issue? && AfterIssue(c, s, last.request, last.own).Some? {
      var row, env := IssueMeans(c, s, last.request, last.own);
      IssueLaw(c, pre, last.request, last.own, s, t, row, env);
    } else {
      if last.Reopen? { HeadCached(c, s); }
      IdleLaw(c, events, s);
    }
  }

  // In particular no VALID claim ever has a parent that is not VALID.
  lemma {:induction false} ValidParents(c: Suite, events: seq<Event>, i: nat, j: nat)
    requires Sound(c) && InRangeEvents(events)
    requires i < |Run(c, events).rows| && j < |Run(c, events).rows|
    requires Run(c, events).rows[j].id in ParentsOf(Run(c, events).rows[i]) && Run(c, events).rows[i].status == Valid
    ensures Run(c, events).rows[j].status == Valid
  {
    hide Sound, Run, ParentsOf, InRangeEvents, Weaker;
    RunKeeps(c, events);
  }
}
