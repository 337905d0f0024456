/** Monotone propagation: combining a claim's own attributes with its parents'. */
module Propagation {
  import opened Envelope

  // The attributes propagation looks at, of the claim itself or of a parent.
  datatype Terms = Terms(
    valuePpm: int, alphaPpm: int, issuedAt: int, expiresAt: int, classification: int, requiresHitl: bool,
      status: Status)

  function Min(a: int, b: int): int { if b < a then b else a }
  function Max(a: int, b: int): int { if b > a then b else a }

  // One parent taken into account.
  function Meet(t: Terms, p: Terms): Terms {
    Terms(Min(t.valuePpm, p.valuePpm), Max(t.alphaPpm, p.alphaPpm), Max(t.issuedAt, p.issuedAt),
          Min(t.expiresAt, p.expiresAt), Max(t.classification, p.classification), t.requiresHitl || p.requiresHitl,
          if p.status != Valid then Stale else t.status)
  }

  function MeetAll(own: Terms, ps: seq<Terms>): Terms {
    if ps == [] then own else Meet(MeetAll(own, ps[..|ps| - 1]), ps[|ps| - 1])
  }

  function Gate(t: Terms): Terms {
    if t.classification >= CLS_REGULATED then t.(requiresHitl := true) else t
  }

  // An empty window is clamped to a point, and the claim is stale from birth.
  function Clamp(t: Terms): Terms {
    if t.expiresAt < t.issuedAt then t.(expiresAt := t.issuedAt, status := Stale) else t
  }

  // What a claim with these own attributes and parents carries.
  function Combined(own: Terms, ps: seq<Terms>): Terms {
    Clamp(Gate(MeetAll(own.(status := Valid), ps)))
  }

  // The window is empty before clamping.
  predicate Clamped(own: Terms, ps: seq<Terms>) {
    var t := MeetAll(own, ps);
    t.expiresAt < t.issuedAt
  }

  method Propagate(valuePpm: int, alphaPpm: int, issuedAt: int, expiresAt: int, classification: int, requiresHitl: bool,
                   parents: seq<Terms>) returns (r: Terms)
    ensures r == Combined(Terms(valuePpm, alphaPpm, issuedAt, expiresAt, classification, requiresHitl, Valid), parents)
  {
    ghost var own := Terms(valuePpm, alphaPpm, issuedAt, expiresAt, classification, requiresHitl, Valid);
    var value, alpha, iat, exp, cls, hitl, status :=
      valuePpm, alphaPpm, issuedAt, expiresAt, classification, requiresHitl, Valid;
    for i := 0 to |parents|
      invariant Terms(value, alpha, iat, exp, cls, hitl, status) == MeetAll(own, parents[..i])
    {
      assert parents[..i + 1][..i] == parents[..i];
      var p := parents[i];
      value := Min(value, p.valuePpm);
      alpha := Max(alpha, p.alphaPpm);
      iat := Max(iat, p.issuedAt);
      exp := Min(exp, p.expiresAt);
      cls := Max(cls, p.classification);
      hitl := hitl || p.requiresHitl;
      if p.status != Valid { status := Stale; }
    }
    assert parents[..|parents|] == parents;
    if cls >= CLS_REGULATED { hitl := true; }
    if exp < iat {
      exp := iat;
      status := Stale;
    }
    r := Terms(value, alpha, iat, exp, cls, hitl, status);
  }

  // ----- What the result is -----

  function Coverage(t: Terms): int { t.valuePpm }
  function Alpha(t: Terms): int { t.alphaPpm }
  function Start(t: Terms): int { t.issuedAt }
  function End(t: Terms): int { t.expiresAt }
  function Class(t: Terms): int { t.classification }

  ghost predicate SomeHitl(ps: seq<Terms>) {
    exists i :: 0 <= i < |ps| && ps[i].requiresHitl
  }

  ghost predicate SomeNotValid(ps: seq<Terms>) {
    exists i :: 0 <= i < |ps| && ps[i].status != Valid
  }

  // x is the least of the field f over own and ps.
  ghost predicate Least(x: int, f: Terms -> int, own: Terms, ps: seq<Terms>) {
    && x <= f(own) && (forall i :: 0 <= i < |ps| ==> x <= f(ps[i]))
    && (x == f(own) || exists i :: 0 <= i < |ps| && x == f(ps[i]))
  }

  ghost predicate Greatest(x: int, f: Terms -> int, own: Terms, ps: seq<Terms>) {
    && f(own) <= x && (forall i :: 0 <= i < |ps| ==> f(ps[i]) <= x)
    && (x == f(own) || exists i :: 0 <= i < |ps| && x == f(ps[i]))
  }

  ghost predicate IsMeet(t: Terms, own: Terms, ps: seq<Terms>) {
    && Least(t.valuePpm, Coverage, own, ps)
    && Greatest(t.alphaPpm, Alpha, own, ps)
    && Greatest(t.issuedAt, Start, own, ps)
    && Least(t.expiresAt, End, own, ps)
    && Greatest(t.classification, Class, own, ps)
    && (t.requiresHitl <==> own.requiresHitl || SomeHitl(ps))
    && t.status == (if SomeNotValid(ps) then Stale else own.status)
  }

  lemma {:induction false} MeetAllIsMeet(own: Terms, ps: seq<Terms>)
    ensures IsMeet(MeetAll(own, ps), own, ps)
  {
    if ps != [] {
      var n := |ps| - 1;
      MeetAllIsMeet(own, ps[..n]);
      assert ps == ps[..n] + [ps[n]];
      var t := MeetAll(own, ps[..n]);
      hide MeetAll;
      LeastMore(t.valuePpm, Coverage, own, ps);
      GreatestMore(t.alphaPpm, Alpha, own, ps);
      GreatestMore(t.issuedAt, Start, own, ps);
      LeastMore(t.expiresAt, End, own, ps);
      GreatestMore(t.classification, Class, own, ps);
      FlagsMore(ps);
    }
  }

  lemma {:induction false} LeastMore(x: int, f: Terms -> int, own: Terms, ps: seq<Terms>)
    requires ps != [] && Least(x, f, own, ps[..|ps| - 1])
    ensures Least(Min(x, f(ps[|ps| - 1])), f, own, ps)
  {
    var n := |ps| - 1;
    assert forall i :: 0 <= i < n ==> ps[..n][i] == ps[i];
  }

  lemma {:induction false} GreatestMore(x: int, f: Terms -> int, own: Terms, ps: seq<Terms>)
    requires ps != [] && Greatest(x, f, own, ps[..|ps| - 1])
    ensures Greatest(Max(x, f(ps[|ps| - 1])), f, own, ps)
  {
    var n := |ps| - 1;
    assert forall i :: 0 <= i < n ==> ps[..n][i] == ps[i];
  }

  lemma {:induction false} FlagsMore(ps: seq<Terms>)
    requires ps != []
    ensures SomeHitl(ps) <==> SomeHitl(ps[..|ps| - 1]) || ps[|ps| - 1].requiresHitl
    ensures SomeNotValid(ps) <==> SomeNotValid(ps[..|ps| - 1]) || ps[|ps| - 1].status != Valid
  {
    var n := |ps| - 1;
    if i :| 0 <= i < |ps| && ps[i].requiresHitl { assert i < n ==> ps[..n][i].requiresHitl; }
    if i :| 0 <= i < |ps| && ps[i].status != Valid { assert i < n ==> ps[..n][i].status != Valid; }
  }

  // The combined attributes: least coverage, greatest alpha, the intersection of the windows (a point, and
  // STALE, when that is empty), greatest classification, the human gate when anybody asks for it or the
  // result is regulated; STALE exactly when a parent is not VALID or the intersection is empty.
  lemma {:induction false} CombinedMeans(own: Terms, ps: seq<Terms>)
    ensures var r, m := Combined(own, ps), MeetAll(own, ps);
      && Least(r.valuePpm, Coverage, own, ps) && Greatest(r.alphaPpm, Alpha, own, ps)
      && Greatest(r.issuedAt, Start, own, ps) && Greatest(r.classification, Class, own, ps)
      && Least(m.expiresAt, End, own, ps)
      && (Clamped(own, ps) <==> m.expiresAt < r.issuedAt)
      && r.expiresAt == (if Clamped(own, ps) then r.issuedAt else m.expiresAt)
      && (r.requiresHitl <==> own.requiresHitl || SomeHitl(ps) || r.classification >= CLS_REGULATED)
      && r.status == (if Clamped(own, ps) || SomeNotValid(ps) then Stale else Valid)
  {
    MeetAllIsMeet(own, ps);
    MeetAllIsMeet(own.(status := Valid), ps);
    StatusApart(own, ps, Valid);
    hide Least, Greatest, MeetAll, SomeHitl, SomeNotValid;
  }

  // The status of the claim itself does not enter.
  lemma {:induction false} StatusApart(own: Terms, ps: seq<Terms>, s: Status)
    ensures MeetAll(own.(status := s), ps) == MeetAll(own, ps).(status := MeetAll(own.(status := s), ps).status)
  {
    if ps != [] { StatusApart(own, ps[..|ps| - 1], s); }
  }

  // The result is no stronger than any parent, nor than the claim's own attributes; in particular its
  // half-open window [issuedAt, expiresAt) lies inside every parent's and inside its own.
  lemma {:induction false} CombinedMonotone(own: Terms, ps: seq<Terms>)
    ensures Weaker(Combined(own, ps), own.(status := Valid))
    ensures forall i :: 0 <= i < |ps| ==> Weaker(Combined(own, ps), ps[i])
  {
    CombinedMeans(own, ps);
    hide MeetAll, Combined;
  }

  // What holds from a claim to anything it derives from.
  ghost predicate Weaker(t: Terms, p: Terms) {
    && t.valuePpm <= p.valuePpm && t.alphaPpm >= p.alphaPpm
    && t.classification >= p.classification && (p.requiresHitl ==> t.requiresHitl)
    && t.issuedAt >= p.issuedAt
    && (t.expiresAt <= p.expiresAt || (t.expiresAt == t.issuedAt && t.status != Valid))
    && (p.status != Valid ==> t.status != Valid)
  }

  // Only the set of parents counts: not their order, and not repetitions.
  lemma {:induction false} CombinedForgetsOrder(own: Terms, ps: seq<Terms>, qs: seq<Terms>)
    requires forall p :: p in ps <==> p in qs
    ensures Combined(own, ps) == Combined(own, qs)
  {
    CombinedMeans(own, ps);
    CombinedMeans(own, qs);
    hide MeetAll, Combined;
    OneLeast(Combined(own, ps).valuePpm, Combined(own, qs).valuePpm, Coverage, own, ps, qs);
    OneLeast(MeetAll(own, ps).expiresAt, MeetAll(own, qs).expiresAt, End, own, ps, qs);
    OneGreatest(Combined(own, ps).alphaPpm, Combined(own, qs).alphaPpm, Alpha, own, ps, qs);
    OneGreatest(Combined(own, ps).issuedAt, Combined(own, qs).issuedAt, Start, own, ps, qs);
    OneGreatest(Combined(own, ps).classification, Combined(own, qs).classification, Class, own, ps, qs);
    SameFlags(ps, qs);
    hide Least, Greatest, SomeHitl, SomeNotValid;
    assert Combined(own, ps) == Combined(own, qs);
  }

  lemma {:induction false} OneLeast(x: int, y: int, f: Terms -> int, own: Terms, ps: seq<Terms>, qs: seq<Terms>)
    requires forall p :: p in ps <==> p in qs
    requires Least(x, f, own, ps) && Least(y, f, own, qs)
    ensures x == y
  {
    forall i | 0 <= i < |ps| ensures y <= f(ps[i]) { assert ps[i] in qs; }
    forall i | 0 <= i < |qs| ensures x <= f(qs[i]) { assert qs[i] in ps; }
  }

  lemma {:induction false} OneGreatest(x: int, y: int, f: Terms -> int, own: Terms, ps: seq<Terms>, qs: seq<Terms>)
    requires forall p :: p in ps <==> p in qs
    requires Greatest(x, f, own, ps) && Greatest(y, f, own, qs)
    ensures x == y
  {
    forall i | 0 <= i < |ps| ensures f(ps[i]) <= y { assert ps[i] in qs; }
    forall i | 0 <= i < |qs| ensures f(qs[i]) <= x { assert qs[i] in ps; }
  }

  lemma {:induction false} SameFlags(ps: seq<Terms>, qs: seq<Terms>)
    requires forall p :: p in ps <==> p in qs
    ensures SomeHitl(ps) == SomeHitl(qs) && SomeNotValid(ps) == SomeNotValid(qs)
  {
    forall i | 0 <= i < |ps| ensures ps[i] in qs { assert ps[i] in ps; }
    forall i | 0 <= i < |qs| ensures qs[i] in ps { assert qs[i] in qs; }
  }
}
