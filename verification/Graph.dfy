/** The provenance graph, and what a monitor's cascade does to the status column. */
module Graph {
  import opened Base
  import opened Cbor
  import opened Envelope
  import opened Chain

  datatype Edge = Edge(parent: Bytes, child: Bytes)

  // ----- Reachability -----

  // A path of k edges from a to b.
  ghost predicate ReachesIn(edges: seq<Edge>, a: Bytes, b: Bytes, k: nat)
    decreases k
  {
    if k == 0 then a == b else exists x :: ReachesIn(edges, a, x, k - 1) && Edge(x, b) in edges
  }

  ghost predicate Reaches(edges: seq<Edge>, a: Bytes, b: Bytes) {
    exists k: nat :: ReachesIn(edges, a, b, k)
  }

  lemma {:induction false} ReachesSelf(edges: seq<Edge>, a: Bytes)
    ensures Reaches(edges, a, a)
  {
    assert ReachesIn(edges, a, a, 0);
  }

  lemma {:induction false} ReachesOn(edges: seq<Edge>, a: Bytes, b: Bytes, c: Bytes)
    requires Reaches(edges, a, b) && Edge(b, c) in edges
    ensures Reaches(edges, a, c)
  {
    var k: nat :| ReachesIn(edges, a, b, k);
    assert ReachesIn(edges, a, c, k + 1);
  }

  // Either the path is empty or it has a last edge.
  lemma {:induction false} ReachesLast(edges: seq<Edge>, a: Bytes, b: Bytes) returns (x: Bytes)
    requires Reaches(edges, a, b) && a != b
    ensures Reaches(edges, a, x) && Edge(x, b) in edges
  {
    var k: nat :| ReachesIn(edges, a, b, k);
    x :| ReachesIn(edges, a, x, k - 1) && Edge(x, b) in edges;
  }

  lemma {:induction false} LastEdge(edges: seq<Edge>, a: Bytes, b: Bytes, k: nat) returns (x: Bytes)
    requires ReachesIn(edges, a, b, k)
    ensures if k == 0 then a == b else ReachesIn(edges, a, x, k - 1) && Edge(x, b) in edges
  {
    if k == 0 { return a; }
    x :| ReachesIn(edges, a, x, k - 1) && Edge(x, b) in edges;
  }

  // A set closed under edges that contains a contains everything reachable from a.
  lemma {:induction false} ClosedContains(edges: seq<Edge>, s: set<Bytes>, a: Bytes, b: Bytes, k: nat)
    requires a in s && (forall e :: e in edges && e.parent in s ==> e.child in s)
    requires ReachesIn(edges, a, b, k)
    ensures b in s
    decreases k
  {
    if k > 0 {
      var x :| ReachesIn(edges, a, x, k - 1) && Edge(x, b) in edges;
      ClosedContains(edges, s, a, x, k - 1);
    }
  }

  // ----- The cascade, as one change to the column -----

  ghost predicate DistinctIds(rows: seq<Row>) {
    forall i, j :: 0 <= i < j < |rows| ==> rows[i].id != rows[j].id
  }

  // Some claim bound to monitor m is the claim id or an ancestor of it.
  ghost predicate Governed(rows: seq<Row>, edges: seq<Edge>, m: Text, id: Bytes) {
    exists i :: 0 <= i < |rows| && rows[i].monitor == Some(m) && Reaches(edges, rows[i].id, id)
  }

  ghost predicate Hit(rows: seq<Row>, edges: seq<Edge>, m: Text, row: Row) {
    row.status == Valid && Governed(rows, edges, m, row.id)
  }

  ghost function Staled(rows: seq<Row>, edges: seq<Edge>, m: Text): (r: seq<Row>)
    ensures |r| == |rows|
  {
    seq(|rows|, i requires 0 <= i < |rows| =>
      if Hit(rows, edges, m, rows[i]) then rows[i].(status := Stale) else rows[i])
  }

  ghost function Hits(rows: seq<Row>, edges: seq<Edge>, m: Text): set<nat> {
    set i: nat | i < |rows| && Hit(rows, edges, m, rows[i])
  }

  // ----- Laws of the cascade -----

  // Which claims a monitor governs does not depend on the status column.
  lemma {:induction false} GovernedSame(rows: seq<Row>, edges: seq<Edge>, m: Text, n: Text, id: Bytes)
    ensures Governed(Staled(rows, edges, n), edges, m, id) == Governed(rows, edges, m, id)
  {
    var after := Staled(rows, edges, n);
    hide Hit, Reaches;
    assert forall i :: 0 <= i < |rows| ==> after[i].id == rows[i].id && after[i].monitor == rows[i].monitor;
    if i :| 0 <= i < |rows| && rows[i].monitor == Some(m) && Reaches(edges, rows[i].id, id) {
      assert after[i].monitor == Some(m) && Reaches(edges, after[i].id, id);
    }
  }

  // A second cascade of the same monitor changes nothing and returns 0.
  lemma {:induction false} CascadeTwice(rows: seq<Row>, edges: seq<Edge>, m: Text)
    ensures var after := Staled(rows, edges, m);
      Staled(after, edges, m) == after && Hits(after, edges, m) == {}
  {
    var after := Staled(rows, edges, m);
    hide Governed;
    forall i: nat | i < |rows| ensures !Hit(after, edges, m, after[i]) {
      GovernedSame(rows, edges, m, m, after[i].id);
    }
  }

  lemma {:induction false} HitSame(rows: seq<Row>, edges: seq<Edge>, m: Text, n: Text, i: nat)
    requires i < |rows|
    ensures var after := Staled(rows, edges, m);
      Hit(after, edges, n, after[i]) <==> Hit(rows, edges, n, rows[i]) && !Hit(rows, edges, m, rows[i])
  {
    hide Governed;
    GovernedSame(rows, edges, n, m, rows[i].id);
  }

  // The cascades of two monitors commute: the same column, and the same number changed in all.
  lemma {:induction false} CascadesCommute(rows: seq<Row>, edges: seq<Edge>, m: Text, n: Text)
    ensures Staled(Staled(rows, edges, m), edges, n) == Staled(Staled(rows, edges, n), edges, m)
    ensures |Hits(rows, edges, m)| + |Hits(Staled(rows, edges, m), edges, n)|
         == |Hits(rows, edges, n)| + |Hits(Staled(rows, edges, n), edges, m)|
  {
    var a, b := Staled(rows, edges, m), Staled(rows, edges, n);
    forall i: nat | i < |rows| ensures Staled(a, edges, n)[i] == Staled(b, edges, m)[i] {
      HitSame(rows, edges, m, n, i);
      HitSame(rows, edges, n, m, i);
      hide Hit;
    }
    TotalHits(rows, edges, m, n);
    TotalHits(rows, edges, n, m);
    hide Hits, Staled;
    assert Hits(rows, edges, m) + Hits(rows, edges, n) == Hits(rows, edges, n) + Hits(rows, edges, m);
  }

  lemma {:induction false} TotalHits(rows: seq<Row>, edges: seq<Edge>, m: Text, n: Text)
    ensures |Hits(rows, edges, m)| + |Hits(Staled(rows, edges, m), edges, n)|
         == |Hits(rows, edges, m) + Hits(rows, edges, n)|
  {
    var x, y, z := Hits(rows, edges, m), Hits(rows, edges, n), Hits(Staled(rows, edges, m), edges, n);
    forall i: nat | i < |rows| ensures i in z <==> i in y && i !in x {
      HitSame(rows, edges, m, n, i);
      hide Hit;
    }
    assert x + y == x + z && x !! z;
  }
}
