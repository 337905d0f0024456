/** Claims as the runtime holds them: hex text instead of bytes, and the view read back from a store. */
module Claims {
  import opened Base
  import opened Cbor
  import opened Schema
  import opened Crypto
  import opened Attest
  import opened Threshold
  import opened Envelope
  import opened Propagation
  import opened Quantize
  import opened Projection
  import opened Chain

  // Ids, which the runtime holds as UUID text, are their 16 bytes here.
  datatype Claim = Claim(
    kind: Text, payloadHash: Text, producerId: Text, producerFpr: Text, producerPk: Text, parents: seq<Bytes>,
    confidence: Confidence, validity: Validity, classification: int, requiresHitl: bool,
    id: Bytes, prevHash: Text, sig: Text)

  // ----- Canonical parent ids -----

  function Unseen(ps: seq<Bytes>): (r: seq<Bytes>) {
    if ps == [] then []
    else
      var rest := Unseen(ps[..|ps| - 1]);
      if ps[|ps| - 1] in ps[..|ps| - 1] then rest else rest + [ps[|ps| - 1]]
  }

  function ById(ids: seq<Bytes>): (r: seq<Keyed<Bytes>>)
    ensures |r| == |ids|
  {
    seq(|ids|, i requires 0 <= i < |ids| => Keyed(ids[i], ids[i]))
  }

  // Sorted bytewise, without repetitions.
  function CanonicalIds(ps: seq<Bytes>): seq<Bytes> {
    Payloads(Sort(ById(Unseen(ps))))
  }

  method CanonicalParents(ps: seq<Bytes>) returns (r: seq<Bytes>)
    ensures r == CanonicalIds(ps)
  {
    var seen: set<Bytes>, out: seq<Bytes> := {}, [];
    for i := 0 to |ps|
      invariant out == Unseen(ps[..i])
      invariant forall b :: b in seen <==> b in ps[..i]
    {
      assert ps[..i + 1][..i] == ps[..i] && ps[..i + 1][i] == ps[i];
      if ps[i] !in seen {
        seen := seen + {ps[i]};
        out := out + [ps[i]];
      }
    }
    assert ps[..|ps|] == ps;
    r := Payloads(Sort(ById(out)));
  }

  lemma {:induction false} UnseenMembers(ps: seq<Bytes>)
    ensures forall b :: b in Unseen(ps) <==> b in ps
    ensures forall i, j :: 0 <= i < j < |Unseen(ps)| ==> Unseen(ps)[i] != Unseen(ps)[j]
  {
    if ps != [] {
      var n := |ps| - 1;
      UnseenMembers(ps[..n]);
      assert ps == ps[..n] + [ps[n]];
    }
  }

  ghost predicate StrictlyIncreasing(ids: seq<Bytes>) {
    forall i, j :: 0 <= i < j < |ids| ==> Less(ids[i], ids[j])
  }

  lemma {:induction false} SortedIds(xs: seq<Keyed<Bytes>>, ids: seq<Bytes>)
    requires xs == ById(ids)
    ensures |Sort(xs)| == |ids|
    ensures forall i :: 0 <= i < |ids| ==> Sort(xs)[i].x == Sort(xs)[i].k && Sort(xs)[i].x in ids
  {
    SortMembers(xs);
    var s := Sort(xs);
    hide Sort;
    forall i | 0 <= i < |ids| ensures s[i].x == s[i].k && s[i].x in ids {
      assert s[i] in multiset(s);
      var j :| 0 <= j < |xs| && xs[j] == s[i];
      assert xs[j].x == ids[j];
    }
  }

  lemma {:induction false} SortKeepsIds(xs: seq<Keyed<Bytes>>, ids: seq<Bytes>, i: nat)
    requires xs == ById(ids) && i < |ids|
    ensures ids[i] in Payloads(Sort(xs))
  {
    SortMembers(xs);
    var s := Sort(xs);
    hide Sort;
    assert xs[i] in multiset(s);
    var j :| 0 <= j < |s| && s[j] == xs[i];
    assert Payloads(s)[j] == ids[i];
  }

  // Strictly increasing, and the same ids.
  lemma {:induction false} CanonicalMeans(ps: seq<Bytes>)
    ensures StrictlyIncreasing(CanonicalIds(ps))
    ensures forall b :: b in CanonicalIds(ps) <==> b in ps
  {
    var ids := Unseen(ps);
    var xs := ById(ids);
    UnseenMembers(ps);
    hide Less, Unseen, Sort;
    SortAscending(xs);
    SortedIds(xs, ids);
    forall b | b in ids ensures b in CanonicalIds(ps) {
      var i :| 0 <= i < |ids| && ids[i] == b;
      SortKeepsIds(xs, ids, i);
    }
  }

  // The list depends on the set of parents only, and is its own canonical form.
  lemma {:induction false} CanonicalUnique(ps: seq<Bytes>, qs: seq<Bytes>)
    requires forall b :: b in ps <==> b in qs
    ensures CanonicalIds(ps) == CanonicalIds(qs)
  {
    CanonicalMeans(ps);
    CanonicalMeans(qs);
    IncreasingUnique(CanonicalIds(ps), CanonicalIds(qs));
  }

  lemma {:induction false} CanonicalFixed(ps: seq<Bytes>)
    requires StrictlyIncreasing(ps)
    ensures CanonicalIds(ps) == ps
  {
    CanonicalMeans(ps);
    IncreasingUnique(CanonicalIds(ps), ps);
  }

  lemma {:induction false} IncreasingUnique(a: seq<Bytes>, b: seq<Bytes>)
    requires StrictlyIncreasing(a) && StrictlyIncreasing(b) && forall x :: x in a <==> x in b
    ensures a == b
  {
    var s, t := ById(a), ById(b);
    hide Less;
    forall e ensures e in s <==> e in t {
      if e in s {
        var i :| 0 <= i < |s| && s[i] == e;
        assert a[i] in b;
        var j :| 0 <= j < |b| && b[j] == a[i];
        assert t[j] == e;
      }
      if e in t {
        var j :| 0 <= j < |t| && t[j] == e;
        assert b[j] in a;
        var i :| 0 <= i < |a| && a[i] == b[j];
        assert s[i] == e;
      }
    }
    AscendingUnique(s, t);
    forall i | 0 <= i < |a| ensures a[i] == b[i] { assert s[i] == t[i]; }
  }

  // ----- The envelope a claim denotes -----

  function ToV1(m: Claim): Option<Dac> {
    var ph, pk := FromHex(m.payloadHash), FromHex(m.producerPk);
    var prev := if m.prevHash == [] then Some(GENESIS_PREV) else FromHex(m.prevHash);
    var sigs := ReadSig(Some(Tstr(m.sig)));
    if ph.None? || pk.None? || prev.None? || sigs.None? then None
    else Some(Dac(m.kind, ph.value, m.producerId, pk.value, m.parents, m.confidence, m.validity, m.classification,
                  m.requiresHitl, prev.value, m.id, None, sigs.value))
  }

  // What propagation reads off a claim.
  function TermsOf(m: Claim): Terms {
    Terms(m.confidence.valuePpm, m.confidence.alphaPpm, m.validity.issuedAt, m.validity.expiresAt, m.classification,
          m.requiresHitl, m.validity.status)
  }

  // ----- Re-reading a stored claim -----

  // [[mantissa, exp10], [mantissa, exp10]]; the view also renders both ends as floats, which may raise.
  function ViewInterval(v: Value): Option<Interval> {
    if v.Arr? && |v.items| == 2 && IsPair(v.items[0]) && IsPair(v.items[1]) then
      var iv := Interval(v.items[0].items[0].i, v.items[0].items[1].i, v.items[1].items[0].i, v.items[1].items[1].i);
      if Renders(iv) then Some(iv) else None
    else None
  }

  predicate Renders(iv: Interval) {
    Displays(iv.loMantissa, iv.loExp) && Displays(iv.hiMantissa, iv.hiExp)
  }

  // The claim can be read back at all.
  predicate Readable(c: Confidence) {
    c.interval.Some? ==> Renders(c.interval.value)
  }

  predicate IsPair(v: Value) {
    v.Arr? && |v.items| == 2 && v.items[0].Int? && v.items[1].Int?
  }

  function ViewConf(v: Value): Option<Confidence> {
    if !v.Map? then None
    else
      var f := Project(v.entries, CONF_KEYS);
      if !IsText(f[0]) || !IsPpm(f[1]) || !IsPpm(f[2]) then None
      else if Absent(f[3]) then Some(Confidence(f[0].value.text, f[1].value.i, f[2].value.i, None))
      else
        match ViewInterval(f[3].value)
        case None => None
        case Some(iv) => Some(Confidence(f[0].value.text, f[1].value.i, f[2].value.i, Some(iv)))
  }

  // The signed status is replaced by the one in the status column.
  function ViewVal(v: Value, status: Status): Option<Validity> {
    if !v.Map? then None
    else
      var f := Project(v.entries, VAL_KEYS);
      if !IsTime(f[0]) || !IsTime(f[1]) || f[2].None? then None
      else if Absent(f[3]) then Some(Validity(None, f[0].value.i, f[1].value.i, status))
      else if IsText(f[3]) then Some(Validity(Some(f[3].value.text), f[0].value.i, f[1].value.i, status))
      else None
  }

  function ViewIds(v: Value): Option<seq<Bytes>> {
    match Iterated(v)
    case None => None
    case Some(items) =>
      match HexItems(items)
      case None => None
      case Some(ids) => if forall i :: 0 <= i < |ids| ==> |ids[i]| == 16 then Some(ids) else None
  }

  function ViewFields(c: Suite, f: seq<Option<Value>>, status: Status): Option<Claim>
    requires |f| == 14
  {
    var kind, ph, pid, pk, prev := f[2], f[3], f[4], f[5], f[11];
    var sig := if f[12].None? then Some(Tstr([])) else f[12];
    if !IsText(kind) || !IsText(ph) || !IsText(pid) || !IsText(prev) || !IsText(sig) then None
    else if f[6].None? || f[7].None? || f[8].None? || !IsInt(f[9]) || f[10].None? || !f[10].value.Bool? then None
    else
      var id, key, par := HexField(f[1]), HexField(pk), ViewIds(f[6].value);
      var conf, val := ViewConf(f[7].value), ViewVal(f[8].value, status);
      if id.None? || |id.value| != 16 || key.None? || par.None? || conf.None? || val.None? then None
      else Some(Claim(kind.value.text, ph.value.text, pid.value.text, Hex(Fingerprint(c, key.value)), pk.value.text,
                      CanonicalIds(par.value), conf.value, val.value, f[9].value.i, f[10].value.b, id.value,
                      prev.value.text, sig.value.text))
  }

  // The claim rebuilt from a stored row; None where that raises.
  function Reread(c: Suite, row: Row): Option<Claim> {
    if row.json.None? || !row.json.value.Map? then None
    else ViewFields(c, Project(row.json.value.entries, PROJ_KEYS), row.status)
  }
}
