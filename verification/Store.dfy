/** The append-only claim store: a state machine over rows, edges and the cached head. */
module Store {
  import opened Base
  import opened Cbor
  import opened Crypto
  import opened Attest
  import opened Threshold
  import opened Envelope
  import opened Propagation
  import opened Quantize
  import opened Projection
  import opened Chain
  import opened Claims
  import opened Graph
  import opened Cascade

  // ----- The state, and each operation as a function on it -----

  // last is the record hash of the last claim, empty on an empty store.
  datatype State = State(rows: seq<Row>, edges: seq<Edge>, last: Text)

  const EMPTY := State([], [], [])

  // 32 zero bytes on an empty store; None where the recorded hash is not hex.
  function HeadOf(last: Text): Option<Bytes> {
    if last == [] then Some(GENESIS_PREV) else FromHex(last)
  }

  function LastRec(rows: seq<Row>): Text {
    if rows == [] then [] else rows[|rows| - 1].recHash
  }

  function RowOf(rows: seq<Row>, id: Bytes): Option<Row> {
    if rows == [] then None else if rows[0].id == id then Some(rows[0]) else RowOf(rows[1..], id)
  }

  function EdgesTo(parents: seq<Bytes>, id: Bytes): (r: seq<Edge>)
    ensures |r| == |parents|
  {
    seq(|parents|, i requires 0 <= i < |parents| => Edge(parents[i], id))
  }

  // The row an already signed claim becomes; None where computing its hash or its view raises.
  function NewRow(c: Suite, m: Claim): Option<Row> {
    match ToV1(m)
    case None => None
    case Some(e) =>
      match Message(e)
      case None => None
      case Some(msg) =>
        match ToProjection(e)
        case None => None
        case Some(proj) =>
          Some(Row(m.id, m.prevHash, Hex(c.hash(msg)), Some(proj), m.validity.status, m.validity.monitor))
  }

  // Appending fails, and changes nothing, on a duplicate id.
  function Appended(c: Suite, s: State, m: Claim): Option<State> {
    match NewRow(c, m)
    case None => None
    case Some(row) =>
      if RowOf(s.rows, m.id).Some? then None
      else Some(State(s.rows + [row], s.edges + EdgesTo(m.parents, m.id), row.recHash))
  }

  datatype Request = Request(
    kind: Text, payload: Bytes, producerId: Text, secret: Bytes, classification: int, monitor: Option<Text>,
    now: real, until: real, parents: seq<Bytes>, requiresHitl: bool, id: Bytes)

  // The parents as they stand in the store, status column included; None on an unknown id.
  function RereadAll(c: Suite, rows: seq<Row>, ids: seq<Bytes>): Option<seq<Claim>> {
    if ids == [] then Some([])
    else
      match RereadAll(c, rows, ids[..|ids| - 1])
      case None => None
      case Some(front) =>
        match RowOf(rows, ids[|ids| - 1])
        case None => None
        case Some(row) =>
          match Reread(c, row)
          case None => None
          case Some(m) => Some(front + [m])
  }

  function AllTerms(ms: seq<Claim>): (r: seq<Terms>)
    ensures |r| == |ms|
  {
    seq(|ms|, i requires 0 <= i < |ms| => TermsOf(ms[i]))
  }

  function Ids(ms: seq<Claim>): (r: seq<Bytes>)
    ensures |r| == |ms|
  {
    seq(|ms|, i requires 0 <= i < |ms| => ms[i].id)
  }

  // The issuer's own attributes, quantized; None where the times are out of range.
  function OwnTerms(r: Request, own: Confidence): Option<Terms> {
    match SecondsToUsCeil(r.now)
    case None => None
    case Some(iat) =>
      match SecondsToUsFloor(r.until)
      case None => None
      case Some(exp) => Some(Terms(own.valuePpm, own.alphaPpm, iat, exp, r.classification, r.requiresHitl, Valid))
  }

  // The attributes the new claim gets from its own and its parents'.
  function Derived(c: Suite, s: State, r: Request, own: Confidence): Option<Terms> {
    match RereadAll(c, s.rows, r.parents)
    case None => None
    case Some(ps) =>
      match OwnTerms(r, own)
      case None => None
      case Some(t) => Some(Combined(t, AllTerms(ps)))
  }

  // The claim as it is signed, linked to the given head.
  function Draft(c: Suite, r: Request, own: Confidence, t: Terms, parents: seq<Claim>, head: Bytes): Claim {
    Claim(r.kind, Hex(c.hash(r.payload)), r.producerId, Hex(Fingerprint(c, c.publicKey(r.secret))),
          Hex(c.publicKey(r.secret)),
          CanonicalIds(Ids(parents)), own.(valuePpm := t.valuePpm, alphaPpm := t.alphaPpm),
          Validity(r.monitor, t.issuedAt, t.expiresAt, t.status), t.classification, t.requiresHitl, r.id, Hex(head), [])
  }

  // The claim with the producer's signature over the envelope it denotes.
  function Sealed(c: Suite, m: Claim, secret: Bytes): Option<Claim> {
    match ToV1(m)
    case None => None
    case Some(e) =>
      match AuthorOnly(c, secret, ToMap(e), None)
      case None => None
      case Some(s) =>
        match Encode(SigSetMap(s))
        case None => None
        case Some(b) => Some(m.(sig := Hex(b)))
  }

  // The signed claim a request leads to: parents re-read, head read before signing.
  function SignedClaim(c: Suite, s: State, r: Request, own: Confidence): Option<Claim> {
    match Derived(c, s, r, own)
    case None => None
    case Some(t) =>
      match HeadOf(s.last)
      case None => None
      case Some(head) => Sealed(c, Draft(c, r, own, t, RereadAll(c, s.rows, r.parents).value, head), r.secret)
  }

  // The state after a request: unchanged if anything raises.
  function AfterIssue(c: Suite, s: State, r: Request, own: Confidence): Option<State> {
    match SignedClaim(c, s, r, own)
    case None => None
    case Some(m) => Appended(c, s, m)
  }

  ghost function AfterCascade(s: State, monitor: Text): State {
    s.(rows := Staled(s.rows, s.edges, monitor))
  }

  // Closing and opening again: only the cached head is recomputed.
  function Reopened(s: State): State {
    s.(last := LastRec(s.rows))
  }

  // ----- Lookup -----

  lemma {:induction false} RowOfMeans(rows: seq<Row>, id: Bytes)
    ensures RowOf(rows, id).None? <==> forall i :: 0 <= i < |rows| ==> rows[i].id != id
    ensures RowOf(rows, id).Some? ==> RowOf(rows, id).value in rows && RowOf(rows, id).value.id == id
  {
    if rows != [] {
      RowOfMeans(rows[1..], id);
      assert forall i :: 0 < i < |rows| ==> rows[i] == rows[1..][i - 1];
    }
  }

  lemma {:induction false} RowOfAt(rows: seq<Row>, i: nat)
    requires DistinctIds(rows) && i < |rows|
    ensures RowOf(rows, rows[i].id) == Some(rows[i])
  {
    if i > 0 {
      assert rows[0].id != rows[i].id && rows[1..][i - 1] == rows[i];
      RowOfAt(rows[1..], i - 1);
    }
  }

  // ----- The store -----

  class ClaimStore {
    var rows: seq<Row>
    var edges: seq<Edge>
    var last: Text

    ghost function Now(): State
      reads this
    {
      State(rows, edges, last)
    }

    // The id column is a primary key.
    ghost predicate Valid()
      reads this
    {
      DistinctIds(rows)
    }

    // Opens the persisted tables, resuming the chain from the last row.
    constructor (rows: seq<Row>, edges: seq<Edge>)
      requires DistinctIds(rows)
      ensures Valid() && Now() == State(rows, edges, LastRec(rows))
    {
      this.rows, this.edges := rows, edges;
      last := if rows == [] then [] else rows[|rows| - 1].recHash;
    }

    method Head() returns (r: Option<Bytes>)
      ensures r == HeadOf(last)
    {
      if last != [] { r := FromHex(last); } else { r := Some(GENESIS_PREV); }
    }

    // SELECT ... WHERE id = ?
    method Find(id: Bytes) returns (i: int)
      ensures -1 <= i < |rows|
      ensures i >= 0 ==> rows[i].id == id
      ensures i < 0 ==> forall j :: 0 <= j < |rows| ==> rows[j].id != id
      ensures Valid() ==> RowOf(rows, id) == (if i < 0 then None else Some(rows[i]))
    {
      i := 0;
      while i < |rows|
        invariant 0 <= i <= |rows|
        invariant forall j :: 0 <= j < i ==> rows[j].id != id
      {
        if rows[i].id == id {
          if Valid() { RowOfAt(rows, i); }
          return;
        }
        i := i + 1;
      }
      i := -1;
      RowOfMeans(rows, id);
    }

    method Get(c: Suite, id: Bytes) returns (r: Option<Claim>)
      requires Valid()
      ensures r == match RowOf(rows, id) case None => None case Some(row) => Reread(c, row)
    {
      var i := Find(id);
      r := if i < 0 then None else Reread(c, rows[i]);
    }

    method Append(c: Suite, m: Claim) returns (ok: bool)
      requires Valid()
      modifies this
      ensures Valid()
      ensures ok <==> Appended(c, old(Now()), m).Some?
      ensures Now() == if ok then Appended(c, old(Now()), m).value else old(Now())
    {
      hide NewRow, Reread;
      var row := NewRow(c, m);
      if row.None? { return false; }
      var i := Find(m.id);
      if i >= 0 { return false; }
      RowOfMeans(rows, m.id);
      NewRowId(c, m);
      rows := rows + [row.value];
      var n := 0;
      while n < |m.parents|
        invariant 0 <= n <= |m.parents|
        invariant edges == old(edges) + EdgesTo(m.parents[..n], m.id)
        invariant rows == old(rows) + [row.value] && last == old(last)
      {
        edges := edges + [Edge(m.parents[n], m.id)];
        n := n + 1;
        assert EdgesTo(m.parents[..n], m.id) == EdgesTo(m.parents[..n - 1], m.id) + [Edge(m.parents[n - 1], m.id)];
      }
      assert m.parents[..|m.parents|] == m.parents;
      last := row.value.recHash;
      return true;
    }

    // Marks every VALID claim bound to the monitor, or derived from one that is, and counts them.
    method CascadeStale(m: Text) returns (count: nat)
      requires Valid()
      modifies this`rows
      ensures Valid()
      ensures Now() == AfterCascade(old(Now()), m)
      ensures count == |Hits(old(rows), edges, m)|
    {
      hide Exploring, Marked, Changed, Universe, Seeds, Children, Staled, Hits;
      ghost var start := rows;
      var seen: set<Bytes> := {};
      var frontier := SelectSeeds(m);
      count := 0;
      MarkNothing(rows);
      ExploreSeeds(rows, edges, m);
      while frontier != []
        invariant Valid()
        invariant rows == Marked(start, seen) && count == |Changed(start, seen)|
        invariant Exploring(start, edges, m, seen, frontier)
        decreases Universe(start, edges, m) - seen, |frontier|
      {
        var node := frontier[|frontier| - 1];
        ghost var whole := frontier;
        frontier := frontier[..|frontier| - 1];
        assert whole == frontier + [node];
        if node in seen {
          ExploreSkip(start, edges, m, seen, frontier, node);
          continue;
        }
        ExploreNode(start, edges, m, seen, frontier, node);
        InUniverse(start, edges, m, seen, whole, node);
        var hit := MarkNode(start, seen, node);
        if hit { count := count + 1; }
        seen := seen + {node};
        var kids := SelectChildren(node);
        frontier := frontier + kids;
      }
      ExploredAll(start, edges, m, seen);
    }

    // SELECT status, then UPDATE ... SET status = 'STALE' where it is VALID.
    method MarkNode(ghost start: seq<Row>, ghost seen: set<Bytes>, node: Bytes) returns (hit: bool)
      requires DistinctIds(start) && rows == Marked(start, seen) && node !in seen
      modifies this`rows
      ensures rows == Marked(start, seen + {node}) && DistinctIds(rows)
      ensures |Changed(start, seen + {node})| == |Changed(start, seen)| + (if hit then 1 else 0)
    {
      hide Changed;
      var i := Find(node);
      hit := i >= 0 && rows[i].status == Envelope.Valid;
      if i >= 0 {
        MarkRow(start, seen, i);
      } else {
        assert forall j :: 0 <= j < |start| ==> start[j].id == rows[j].id;
        MarkDangling(start, seen, node);
      }
      if hit { rows := rows[i := rows[i].(status := Stale)]; }
    }

    method SelectSeeds(m: Text) returns (r: seq<Bytes>)
      ensures r == Seeds(rows, m)
    {
      r := [];
      for i := 0 to |rows|
        invariant r == Seeds(rows[..i], m)
      {
        assert rows[..i + 1][..i] == rows[..i];
        if rows[i].monitor == Some(m) { r := r + [rows[i].id]; }
      }
      assert rows[..|rows|] == rows;
    }

    method SelectChildren(node: Bytes) returns (r: seq<Bytes>)
      ensures r == Children(edges, node)
    {
      r := [];
      for i := 0 to |edges|
        invariant r == Children(edges[..i], node)
      {
        assert edges[..i + 1][..i] == edges[..i];
        if edges[i].parent == node { r := r + [edges[i].child]; }
      }
      assert edges[..|edges|] == edges;
    }

    // Recomputes the chain from the genesis value, stopping at the first bad row.
    method VerifyChain(c: Suite) returns (r: Outcome)
      ensures r == Check(c, rows)
    {
      hide Env, Message, SelfVerifies, Hex;
      var prev := GENESIS_PREV;
      assert rows[0..] == rows;
      for i := 0 to |rows|
        invariant CheckFrom(c, rows, GENESIS_PREV) == CheckFrom(c, rows[i..], prev)
      {
        assert rows[i..][0] == rows[i] && rows[i..][1..] == rows[i + 1..];
        var env := Env(rows[i]);
        if env.None? || env.value.prev != prev { return Rejected; }
        var msg := Message(env.value);
        if msg.None? { return Raised; }
        var computed := c.hash(msg.value);
        if Hex(computed) != rows[i].recHash { return Rejected; }
        if !SelfVerifies(c, env.value) { return Rejected; }
        prev := computed;
      }
      return Accepted;
    }
  }

  lemma {:induction false} NewRowId(c: Suite, m: Claim)
    ensures NewRow(c, m).Some? ==> NewRow(c, m).value.id == m.id
  {}
}
