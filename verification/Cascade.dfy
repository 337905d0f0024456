/** The cascade's search: what its loop maintains, and that it finds exactly the governed claims. */
module Cascade {
  import opened Base
  import opened Cbor
  import opened Envelope
  import opened Chain
  import opened Graph

  // The ids of the claims bound to the monitor, in chain order.
  function Seeds(rows: seq<Row>, m: Text): seq<Bytes> {
    if rows == [] then []
    else
      var n := |rows| - 1;
      Seeds(rows[..n], m) + (if rows[n].monitor == Some(m) then [rows[n].id] else [])
  }

  // SELECT child FROM edges WHERE parent = ?
  function Children(edges: seq<Edge>, node: Bytes): seq<Bytes> {
    if edges == [] then []
    else
      var n := |edges| - 1;
      Children(edges[..n], node) + (if edges[n].parent == node then [edges[n].child] else [])
  }

  ghost predicate IsSeed(rows: seq<Row>, m: Text, x: Bytes, i: nat) {
    i < |rows| && rows[i].monitor == Some(m) && rows[i].id == x
  }

  lemma {:induction false} SeedsMember(rows: seq<Row>, m: Text, x: Bytes)
    ensures x in Seeds(rows, m) <==> exists i: nat :: IsSeed(rows, m, x, i)
  {
    if rows != [] {
      var n := |rows| - 1;
      SeedsMember(rows[..n], m, x);
      if i: nat :| IsSeed(rows, m, x, i) {
        assert i < n ==> IsSeed(rows[..n], m, x, i);
      }
      if i: nat :| IsSeed(rows[..n], m, x, i) {
        assert IsSeed(rows, m, x, i);
      }
      assert rows[n].monitor == Some(m) && rows[n].id == x ==> IsSeed(rows, m, x, n);
    }
  }

  lemma {:induction false} ChildrenMember(edges: seq<Edge>, node: Bytes, x: Bytes)
    ensures x in Children(edges, node) <==> Edge(node, x) in edges
  {
    if edges != [] {
      var n := |edges| - 1;
      ChildrenMember(edges[..n], node, x);
      assert edges == edges[..n] + [edges[n]];
    }
  }

  // Everything the search can ever reach.
  ghost function Universe(rows: seq<Row>, edges: seq<Edge>, m: Text): set<Bytes> {
    (set x | x in Seeds(rows, m)) + (set e | e in edges :: e.child)
  }

  // ----- The column while the search is under way -----

  ghost function Marked(rows: seq<Row>, seen: set<Bytes>): (r: seq<Row>)
    ensures |r| == |rows|
  {
    seq(|rows|, i requires 0 <= i < |rows| =>
      if rows[i].status == Valid && rows[i].id in seen then rows[i].(status := Stale) else rows[i])
  }

  ghost function Changed(rows: seq<Row>, seen: set<Bytes>): set<nat> {
    set i: nat | i < |rows| && rows[i].status == Valid && rows[i].id in seen
  }

  lemma {:induction false} MarkNothing(rows: seq<Row>)
    ensures Marked(rows, {}) == rows && Changed(rows, {}) == {}
  {}

  // Visiting a node marks the one row with that id, if it is VALID.
  lemma {:induction false} MarkRow(rows: seq<Row>, seen: set<Bytes>, i: nat)
    requires DistinctIds(rows) && i < |rows| && rows[i].id !in seen
    ensures var more, row := seen + {rows[i].id}, Marked(rows, seen)[i];
      && row == rows[i]
      && Marked(rows, more)
        == (if row.status == Valid then Marked(rows, seen)[i := row.(status := Stale)] else Marked(rows, seen))
      && |Changed(rows, more)| == |Changed(rows, seen)| + (if row.status == Valid then 1 else 0)
  {
    var more := seen + {rows[i].id};
    forall j | 0 <= j < |rows| && j != i ensures rows[j].id != rows[i].id {}
    if rows[i].status == Valid {
      assert Changed(rows, more) == Changed(rows, seen) + {i};
    } else {
      assert Changed(rows, more) == Changed(rows, seen);
    }
  }

  // A dangling id marks nothing.
  lemma {:induction false} MarkDangling(rows: seq<Row>, seen: set<Bytes>, node: Bytes)
    requires forall j :: 0 <= j < |rows| ==> rows[j].id != node
    ensures Marked(rows, seen + {node}) == Marked(rows, seen) && Changed(rows, seen + {node}) == Changed(rows, seen)
  {}

  // ----- The search -----

  ghost predicate Exploring(rows: seq<Row>, edges: seq<Edge>, m: Text, seen: set<Bytes>, frontier: seq<Bytes>) {
    && (forall i :: 0 <= i < |rows| && rows[i].monitor == Some(m) ==> rows[i].id in seen || rows[i].id in frontier)
    && (forall e :: e in edges && e.parent in seen ==> e.child in seen || e.child in frontier)
    && (forall x :: x in seen || x in frontier ==> Governed(rows, edges, m, x) && x in Universe(rows, edges, m))
  }

  lemma {:induction false} ExploreSeeds(rows: seq<Row>, edges: seq<Edge>, m: Text)
    ensures Exploring(rows, edges, m, {}, Seeds(rows, m))
  {
    var frontier := Seeds(rows, m);
    hide Reaches;
    forall i | 0 <= i < |rows| && rows[i].monitor == Some(m) ensures rows[i].id in frontier {
      assert IsSeed(rows, m, rows[i].id, i);
      SeedsMember(rows, m, rows[i].id);
    }
    forall x | x in frontier ensures Governed(rows, edges, m, x) {
      SeedsMember(rows, m, x);
      var i: nat :| IsSeed(rows, m, x, i);
      ReachesSelf(edges, x);
      assert rows[i].monitor == Some(m) && Reaches(edges, rows[i].id, x);
    }
  }

  lemma {:induction false} GovernedOn(rows: seq<Row>, edges: seq<Edge>, m: Text, x: Bytes, y: Bytes)
    requires Governed(rows, edges, m, x) && Edge(x, y) in edges
    ensures Governed(rows, edges, m, y)
  {
    hide Reaches;
    var i :| 0 <= i < |rows| && rows[i].monitor == Some(m) && Reaches(edges, rows[i].id, x);
    ReachesOn(edges, rows[i].id, x, y);
  }

  lemma {:induction false} InUniverse(rows: seq<Row>, edges: seq<Edge>, m: Text, seen: set<Bytes>, frontier: seq<Bytes>,
      node: Bytes)
    requires Exploring(rows, edges, m, seen, frontier) && node in frontier
    ensures node in Universe(rows, edges, m)
  {
    hide Governed, Universe;
  }

  lemma {:induction false} ExploreSkip(rows: seq<Row>, edges: seq<Edge>, m: Text, seen: set<Bytes>,
      frontier: seq<Bytes>,
      node: Bytes)
    requires Exploring(rows, edges, m, seen, frontier + [node]) && node in seen
    ensures Exploring(rows, edges, m, seen, frontier)
  {
    hide Governed, Universe;
    assert forall x :: x in frontier + [node] <==> x in frontier || x == node;
  }

  lemma {:induction false} ExploreNode(rows: seq<Row>, edges: seq<Edge>, m: Text, seen: set<Bytes>,
      frontier: seq<Bytes>,
      node: Bytes)
    requires Exploring(rows, edges, m, seen, frontier + [node])
    ensures Exploring(rows, edges, m, seen + {node}, frontier + Children(edges, node))
  {
    var kids := Children(edges, node);
    hide Governed, Children;
    assert node in frontier + [node];
    forall x | x in kids ensures Governed(rows, edges, m, x) && x in Universe(rows, edges, m) {
      ChildrenMember(edges, node, x);
      GovernedOn(rows, edges, m, node, x);
      assert Edge(node, x).child == x;
    }
    hide Universe;
    forall e | e in edges && e.parent == node ensures e.child in kids {
      ChildrenMember(edges, node, e.child);
      assert e == Edge(node, e.child);
    }
    assert forall x :: x in frontier + [node] <==> x in frontier || x == node;
  }

  // With nothing left to visit, exactly the governed ids have been seen.
  lemma {:induction false} ExploredAll(rows: seq<Row>, edges: seq<Edge>, m: Text, seen: set<Bytes>)
    requires Exploring(rows, edges, m, seen, [])
    ensures Marked(rows, seen) == Staled(rows, edges, m) && Changed(rows, seen) == Hits(rows, edges, m)
  {
    forall x ensures x in seen <==> Governed(rows, edges, m, x) {
      if Governed(rows, edges, m, x) {
        var i :| 0 <= i < |rows| && rows[i].monitor == Some(m) && Reaches(edges, rows[i].id, x);
        var k: nat :| ReachesIn(edges, rows[i].id, x, k);
        ClosedContains(edges, seen, rows[i].id, x, k);
      }
    }
    hide Governed, Exploring;
  }
}
