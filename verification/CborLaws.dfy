/** The laws of the codec: heads, the round trip, and canonicity of what is accepted. */
module CborLaws {
  import opened Base
  import opened Cbor

  // ----- Big-endian numbers and heads -----

  function Pow256(w: nat): nat {
    if w == 0 then 1 else 256 * Pow256(w - 1)
  }

  lemma {:induction false} Pow256Values()
    ensures Pow256(2) == 0x10000 && Pow256(4) == 0x1_0000_0000 && Pow256(8) == UINT64_MAX + 1
  {
    assert Pow256(4) == 256 * (256 * Pow256(2));
    assert Pow256(6) == 256 * (256 * Pow256(4));
    assert Pow256(8) == 256 * (256 * Pow256(6));
  }

  lemma {:induction false} BigEndianReads(n: nat, w: nat)
    requires n < Pow256(w)
    ensures FromBigEndian(BigEndian(n, w)) == n
  {
    if w > 0 {
      BigEndianReads(n / 256, w - 1);
      assert BigEndian(n, w)[..w - 1] == BigEndian(n / 256, w - 1);
    }
  }

  lemma {:induction false} BigEndianWrites(b: Bytes)
    ensures FromBigEndian(b) < Pow256(|b|)
    ensures BigEndian(FromBigEndian(b), |b|) == b
  {
    if b != [] {
      BigEndianWrites(b[..|b| - 1]);
      assert b == b[..|b| - 1] + [b[|b| - 1]];
    }
  }

  // A head is read back as its major type and argument, whatever follows.
  lemma {:induction false} HeadReads(major: nat, n: int, t: Bytes)
    requires major < 8 && Head(major, n).Some?
    ensures var h := Head(major, n).value;
      h != [] && h[0] / 32 == major && ReadArg(h[1..] + t, h[0] % 32) == Read(n, t)
  {
    Pow256Values();
    var h := Head(major, n).value;
    var w := if n < 0x10000 then 2 else if n < 0x1_0000_0000 then 4 else 8;
    if n < 0x100 {
      assert n >= 24 ==> h[1..] == [n];
      assert n < 24 ==> h[1..] + t == t;
    } else {
      BigEndianReads(n, w);
      assert h[1..] == BigEndian(n, w);
      assert (h[1..] + t)[..w] == BigEndian(n, w) && (h[1..] + t)[w..] == t;
    }
  }

  // Whatever is read as a head is the shortest head of its argument.
  lemma {:induction false} HeadCanonical(s: Bytes)
    requires s != [] && ReadArg(s[1..], s[0] % 32).Read?
    ensures var Read(n, t) := ReadArg(s[1..], s[0] % 32);
      |t| < |s| && Head(s[0] / 32, n) == Some(s[..|s| - |t|]) && s == s[..|s| - |t|] + t
  {
    Pow256Values();
    var ai := s[0] % 32;
    var n := ReadArg(s[1..], ai).value;
    if ai >= 25 {
      var w := if ai == 25 then 2 else if ai == 26 then 4 else 8;
      BigEndianWrites(s[1..][..w]);
      assert s[..1 + w] == [s[0]] + s[1..][..w];
    } else if ai == 24 {
      assert s[..2] == [s[0], s[1]];
    } else {
      assert s[..1] == [s[0]];
    }
  }

  // ----- Round trip -----

  // b is read as v in front of any continuation.
  ghost predicate Reads(b: Bytes, v: Value, strict: bool) {
    forall t: Bytes :: Parse(b + t, strict) == Read(v, t)
  }

  lemma {:induction false} DistinctIff<T>(s: seq<Keyed<T>>)
    ensures AllDistinct(s) <==> DistinctKeys(s)
  {
    if s != [] {
      DistinctIff(s[1..]);
      if AllDistinct(s) {
        assert forall j :: 0 < j < |s| ==> s[1..][j - 1] == s[j];
      }
      assert HasKey(s[1..], s[0].k) ==> exists j :: 0 < j < |s| && s[j].k == s[0].k;
    }
  }

  lemma {:induction false} EncodedEntries(es: seq<Entry>)
    requires EncodeEntries(es).Some?
    ensures forall i :: 0 <= i < |es| ==> EncodeEntry(es[i]) == Some(EncodeEntries(es).value[i])
  {
    if es != [] { EncodedEntries(es[1..]); }
  }

  // The encoding of v, put in front of any bytes, is read back as v with its maps in canonical order.
  lemma {:induction false} RoundTrip(v: Value, t: Bytes, strict: bool)
    requires Encode(v).Some?
    requires strict ==> ScalarKeys(v)
    ensures Parse(Encode(v).value + t, strict) == Read(Normal(v), t)
    decreases v
  {
    hide Parse, ParseBody;
    match v
    case Bool(_) => SimpleReads(v, t, strict);
    case Null => SimpleReads(v, t, strict);
    case Float(_) =>
    case Int(i) => SimpleReads(v, t, strict);
    case Bstr(b) => SimpleReads(v, t, strict);
    case Tstr(b) => SimpleReads(v, t, strict);
    case Arr(items) => RoundTripArr(items, t, strict);
    case Map(es) => RoundTripMap(es, t, strict);
  }

  lemma {:induction false} RoundTripArr(items: seq<Value>, t: Bytes, strict: bool)
    requires Encode(Arr(items)).Some?
    requires strict ==> ScalarKeys(Arr(items))
    ensures Parse(Encode(Arr(items)).value + t, strict) == Read(Normal(Arr(items)), t)
    decreases items, 1
  {
    hide Parse, ParseItems;
    var h, body := Head(4, |items|).value, EncodeItems(items).value;
    assert h + body + t == h + (body + t);
    FramedReads(4, |items|, body + t, strict);
    RoundTripItems(items, t, strict);
  }

  lemma {:induction false} RoundTripMap(es: seq<Entry>, t: Bytes, strict: bool)
    requires Encode(Map(es)).Some?
    requires strict ==> ScalarKeys(Map(es))
    ensures Parse(Encode(Map(es)).value + t, strict) == Read(Normal(Map(es)), t)
    decreases es, 1
  {
    hide Parse, ParseEntries, Sort;
    var h, body := Head(5, |es|).value, Flatten(Sort(EncodeEntries(es).value));
    assert h + body + t == h + (body + t);
    FramedReads(5, |es|, body + t, strict);
    RoundTripEntries(es, strict);
    SortedEntriesRead(es, t, strict);
  }

  lemma {:induction false} SimpleReads(v: Value, t: Bytes, strict: bool)
    requires Encode(v).Some? && Scalar(v)
    ensures Parse(Encode(v).value + t, strict) == Read(v, t)
  {
    match v
    case Int(i) => IntReads(i, t, strict);
    case Bstr(b) => StringReads(2, b, t, strict);
    case Tstr(b) => StringReads(3, b, t, strict);
    case Bool(_) => ByteReads(v, t, strict);
    case Null => ByteReads(v, t, strict);
  }

  lemma {:induction false} ByteReads(v: Value, t: Bytes, strict: bool)
    requires v.Bool? || v.Null?
    ensures Parse(Encode(v).value + t, strict) == Read(v, t)
  {
    assert (Encode(v).value + t)[1..] == t;
  }

  lemma {:induction false} IntReads(i: int, t: Bytes, strict: bool)
    requires Encode(Int(i)).Some?
    ensures Parse(Encode(Int(i)).value + t, strict) == Read(Int(i), t)
  {
    hide Parse, ReadArg, Head;
    FramedReads(if i >= 0 then 0 else 1, if i >= 0 then i else -1 - i, t, strict);
  }

  lemma {:induction false} StringReads(major: nat, b: Bytes, t: Bytes, strict: bool)
    requires (major == 2 || (major == 3 && ValidUtf8(b))) && Head(major, |b|).Some?
    ensures Parse(Head(major, |b|).value + b + t, strict) == Read(if major == 2 then Bstr(b) else Tstr(b), t)
  {
    hide Parse, ReadArg, Head;
    assert Head(major, |b|).value + b + t == Head(major, |b|).value + (b + t);
    FramedReads(major, |b|, b + t, strict);
    assert (b + t)[..|b|] == b && (b + t)[|b|..] == t;
  }

  lemma {:induction false} FramedReads(major: nat, n: int, t: Bytes, strict: bool)
    requires major <= 5 && Head(major, n).Some?
    ensures n >= 0 && Parse(Head(major, n).value + t, strict) == ParseBody(major, n, t, strict)
  {
    HeadReads(major, n, t);
    var h := Head(major, n).value;
    assert (h + t)[0] == h[0] && (h + t)[1..] == h[1..] + t;
  }

  // The entry's key and value are read back, and its key is one the decoder admits.
  ghost predicate EntryReads(e: Entry, strict: bool) {
    && EncodeEntry(e).Some?
    && Reads(Encode(e.key).value, Normal(e.key), strict)
    && Reads(Encode(e.val).value, Normal(e.val), strict)
    && (strict ==> Scalar(e.key))
  }

  lemma {:induction false} RoundTripEntries(es: seq<Entry>, strict: bool)
    requires EncodeEntries(es).Some?
    requires strict ==> ScalarKeys(Map(es))
    ensures forall i :: 0 <= i < |es| ==> EntryReads(es[i], strict)
    decreases es, 0
  {
    EncodedEntries(es);
    forall i | 0 <= i < |es| ensures EntryReads(es[i], strict) {
      RoundTripEntry(es[i], strict);
    }
  }

  lemma {:induction false} RoundTripEntry(e: Entry, strict: bool)
    requires EncodeEntry(e).Some?
    requires strict ==> Scalar(e.key) && ScalarKeys(e.val)
    ensures Reads(Encode(e.key).value, Normal(e.key), strict)
    ensures Reads(Encode(e.val).value, Normal(e.val), strict)
    decreases e
  {
    forall t: Bytes ensures Parse(Encode(e.key).value + t, strict) == Read(Normal(e.key), t) {
      RoundTrip(e.key, t, strict);
    }
    forall t: Bytes ensures Parse(Encode(e.val).value + t, strict) == Read(Normal(e.val), t) {
      RoundTrip(e.val, t, strict);
    }
  }

  lemma {:induction false} RoundTripItems(items: seq<Value>, t: Bytes, strict: bool)
    requires EncodeItems(items).Some?
    requires strict ==> forall i :: 0 <= i < |items| ==> ScalarKeys(items[i])
    ensures ParseItems(EncodeItems(items).value + t, |items|, strict) == Read(Normal(Arr(items)).items, t)
    decreases items, 0
  {
    if items == [] {
      NoItemsRead(t, strict);
    } else {
      hide Parse, ParseItems, Normal, Encode, ScalarKeys;
      var b, rest := Encode(items[0]).value, EncodeItems(items[1..]).value;
      assert b + rest + t == b + (rest + t);
      RoundTrip(items[0], rest + t, strict);
      RoundTripItems(items[1..], t, strict);
      ItemRead(b + rest + t, items, rest + t, t, strict);
    }
  }

  lemma {:induction false} NoItemsRead(t: Bytes, strict: bool)
    ensures EncodeItems([]) == Some([]) && ParseItems([] + t, 0, strict) == Read(Normal(Arr([])).items, t)
  {
    assert Normal(Arr([])).items == [];
    assert [] + t == t;
  }

  // One item read off the front, and then the others.
  lemma {:induction false} ItemRead(s: Bytes, items: seq<Value>, u: Bytes, t: Bytes, strict: bool)
    requires items != [] && Parse(s, strict) == Read(Normal(items[0]), u)
    requires ParseItems(u, |items| - 1, strict) == Read(Normal(Arr(items[1..])).items, t)
    ensures ParseItems(s, |items|, strict) == Read(Normal(Arr(items)).items, t)
  {
    hide Parse;
    assert Normal(Arr(items)).items == [Normal(items[0])] + Normal(Arr(items[1..])).items;
  }

  // Sorting the encoded pairs and sorting the normal entries is the same rearrangement,
  // and the sorted pairs are read as the sorted entries.
  lemma {:induction false} SortedEntriesRead(es: seq<Entry>, t: Bytes, strict: bool)
    requires EncodeEntries(es).Some? && AllDistinct(EncodeEntries(es).value)
    requires forall i :: 0 <= i < |es| ==> EntryReads(es[i], strict)
    ensures ParseEntries(Flatten(Sort(EncodeEntries(es).value)) + t, |es|, None, strict)
         == Read(Normal(Map(es)).entries, t)
  {
    hide Parse, ParseEntries, Encode, EncodeEntries, Reads, Flatten, Sort, AllDistinct;
    var pairs, norms := EncodeEntries(es).value, NormalEntries(es);
    var r := (b: Bytes, e: Entry) => Reads(b, e.val, strict);
    EncodedEntries(es);
    forall i | 0 <= i < |es| ensures pairs[i].k == norms[i].k && r(pairs[i].x, norms[i].x) {
      assert EntryReads(es[i], strict);
      assert norms[i] == NormalEntry(es[i]);
    }
    SortRelated(pairs, norms, r);
    DistinctIff(pairs);
    SortAscending(pairs);
    SortMembers(pairs); SortMembers(norms);
    forall i | 0 <= i < |norms| ensures KeyReads(Sort(norms)[i], strict) {
      assert Sort(norms)[i] in multiset(Sort(norms));
      assert Sort(norms)[i] in multiset(norms);
      var j :| 0 <= j < |norms| && norms[j] == Sort(norms)[i];
      assert norms[j] == NormalEntry(es[j]) && EntryReads(es[j], strict);
    }
    EntriesRead(Sort(pairs), Sort(norms), None, t, strict);
  }

  ghost predicate KeyReads(e: Keyed<Entry>, strict: bool) {
    Reads(e.k, e.x.key, strict) && (strict ==> Scalar(e.x.key))
  }

  lemma {:induction false} EntriesRead(ps: seq<Keyed<Bytes>>, ns: seq<Keyed<Entry>>, prev: Option<Bytes>, t: Bytes,
      strict: bool)
    requires Related(ps, ns, (b: Bytes, e: Entry) => Reads(b, e.val, strict))
    requires Ascending(ps)
    requires prev.Some? && ps != [] ==> Less(prev.value, ps[0].k)
    requires forall i :: 0 <= i < |ns| ==> KeyReads(ns[i], strict)
    ensures ParseEntries(Flatten(ps) + t, |ps|, prev, strict) == Read(Payloads(ns), t)
    decreases |ps|
  {
    hide Parse, Reads, Less;
    if ps == [] {
      assert Flatten(ps) + t == t;
    } else {
      hide ParseEntries, Flatten;
      var rest := Flatten(ps[1..]) + t;
      FlattenFirst(ps, t);
      assert KeyReads(ns[0], strict);
      OneEntryReads(ps[0].k, ps[0].x, ns[0].x, |ps|, prev, rest, strict);
      EntriesRead(ps[1..], ns[1..], Some(ps[0].k), t, strict);
      assert Payloads(ns) == [ns[0].x] + Payloads(ns[1..]);
    }
  }

  lemma {:induction false} FlattenFirst(ps: seq<Keyed<Bytes>>, t: Bytes)
    requires ps != []
    ensures Flatten(ps) + t == ps[0].k + (ps[0].x + (Flatten(ps[1..]) + t))
  {}

  lemma {:induction false} OneEntryReads(k: Bytes, v: Bytes, e: Entry, n: nat, prev: Option<Bytes>, rest: Bytes,
      strict: bool)
    requires n > 0
    requires Reads(k, e.key, strict) && Reads(v, e.val, strict)
    requires strict ==> Scalar(e.key)
    requires prev.Some? ==> Less(prev.value, k)
    ensures ParseEntries(k + (v + rest), n, prev, strict)
         == match ParseEntries(rest, n - 1, Some(k), strict)
            case Reject => Reject
            case Read(es, w) => Read([e] + es, w)
  {
    var s := k + (v + rest);
    assert Parse(s, strict) == Read(e.key, v + rest);
    assert s[..|s| - |v + rest|] == k;
    assert Parse(v + rest, strict) == Read(e.val, rest);
    assert e == Entry(e.key, e.val);
  }

  // ----- Canonicity -----

  // Cutting off a front twice is cutting off the two fronts together.
  lemma {:induction false} FrontsJoin(s: Bytes, t: Bytes, u: Bytes)
    requires |u| <= |t| <= |s|
    requires s == s[..|s| - |t|] + t && t == t[..|t| - |u|] + u
    ensures s[..|s| - |u|] == s[..|s| - |t|] + t[..|t| - |u|]
    ensures s == s[..|s| - |u|] + u
  {
    assert s == s[..|s| - |t|] + t[..|t| - |u|] + u;
  }

  // s is the encoding of the normal value v, followed by t.
  ghost predicate Spells(s: Bytes, v: Value, t: Bytes, strict: bool) {
    && |t| <= |s| && s == s[..|s| - |t|] + t
    && Encode(v) == Some(s[..|s| - |t|])
    && Normal(v) == v
    && (strict ==> ScalarKeys(v))
  }

  // Whatever is accepted at the front of s is exactly the encoding of the value returned.
  lemma {:induction false} Canonical(s: Bytes, v: Value, t: Bytes, strict: bool)
    requires Parse(s, strict) == Read(v, t)
    ensures Spells(s, v, t, strict)
    decreases |s|, 0
  {
    if s[0] / 32 == 7 {
      assert s == [s[0]] + s[1..];
      assert s[..1] == [s[0]];
    } else {
      HeadCanonical(s);
      var Read(n, u) := ReadArg(s[1..], s[0] % 32);
      CanonicalBody(s[0] / 32, n, u, v, t, strict);
      FrontsJoin(s, u, t);
    }
  }

  lemma {:induction false} CanonicalBody(major: nat, n: nat, s: Bytes, v: Value, t: Bytes, strict: bool)
    requires major <= 5 && Head(major, n).Some? && ParseBody(major, n, s, strict) == Read(v, t)
    ensures |t| <= |s| && s == s[..|s| - |t|] + t
    ensures Encode(v) == Some(Head(major, n).value + s[..|s| - |t|])
    ensures Normal(v) == v
    ensures strict ==> ScalarKeys(v)
    decreases |s|, 3
  {
    hide ParseItems, ParseEntries, ValidUtf8;
    if major <= 1 {
      assert s[..0] == [];
      assert Head(major, n).value + s[..0] == Head(major, n).value;
    } else if major == 4 {
      CanonicalArr(n, s, v.items, t, strict);
    } else if major == 5 {
      CanonicalMap(n, s, v.entries, t, strict);
    }
  }

  lemma {:induction false} CanonicalArr(n: nat, s: Bytes, items: seq<Value>, t: Bytes, strict: bool)
    requires Head(4, n).Some? && ParseItems(s, n, strict) == Read(items, t)
    ensures |t| <= |s| && s == s[..|s| - |t|] + t
    ensures Encode(Arr(items)) == Some(Head(4, n).value + s[..|s| - |t|])
    ensures Normal(Arr(items)) == Arr(items)
    ensures strict ==> ScalarKeys(Arr(items))
    decreases |s|, 2
  {
    hide ParseItems;
    CanonicalItems(s, n, items, t, strict);
    assert Normal(Arr(items)).items == items;
  }

  lemma {:induction false} CanonicalMap(n: nat, s: Bytes, es: seq<Entry>, t: Bytes, strict: bool)
    requires Head(5, n).Some? && ParseEntries(s, n, None, strict) == Read(es, t)
    ensures |t| <= |s| && s == s[..|s| - |t|] + t
    ensures Encode(Map(es)) == Some(Head(5, n).value + s[..|s| - |t|])
    ensures Normal(Map(es)) == Map(es)
    ensures strict ==> ScalarKeys(Map(es))
    decreases |s|, 2
  {
    hide ParseEntries;
    CanonicalEntries(s, n, None, es, t, strict);
    NormalFixed(es);
  }

  // Entries already in canonical order, with normal payloads, are left as they are.
  lemma {:induction false} NormalFixed(es: seq<Entry>)
    requires EncodeEntries(es).Some? && Ascending(EncodeEntries(es).value)
    requires forall i :: 0 <= i < |es| ==> NormalParts(es[i], false)
    ensures Normal(Map(es)) == Map(es)
    ensures AllDistinct(EncodeEntries(es).value)
    ensures Sort(EncodeEntries(es).value) == EncodeEntries(es).value
  {
    hide Encode, EncodeEntries, Sort, AllDistinct;
    var pairs, norms := EncodeEntries(es).value, NormalEntries(es);
    EncodedEntries(es);
    AscendingDistinct(pairs);
    SortFixed(pairs);
    forall i | 0 <= i < |es| ensures norms[i] == Keyed(pairs[i].k, es[i]) {
      assert norms[i] == NormalEntry(es[i]) && NormalParts(es[i], false);
    }
    SortFixed(norms);
    assert Payloads(norms) == es;
  }

  lemma {:induction false} AscendingDistinct<T>(s: seq<Keyed<T>>)
    requires Ascending(s)
    ensures DistinctKeys(s) && AllDistinct(s)
  {
    forall i, j | 0 <= i < j < |s| ensures s[i].k != s[j].k {
      LessTotal(s[i].k, s[j].k);
    }
    DistinctIff(s);
  }

  lemma {:induction false} CanonicalItems(s: Bytes, n: nat, items: seq<Value>, t: Bytes, strict: bool)
    requires ParseItems(s, n, strict) == Read(items, t)
    ensures |items| == n
    ensures |t| <= |s| && s == s[..|s| - |t|] + t
    ensures EncodeItems(items) == Some(s[..|s| - |t|])
    ensures forall i :: 0 <= i < n ==> Normal(items[i]) == items[i] && (strict ==> ScalarKeys(items[i]))
    decreases |s|, 1
  {
    hide Parse, Encode, EncodeItems, Normal, ScalarKeys;
    if n == 0 {
      NoItems(s);
    } else {
      var Read(v, u) := Parse(s, strict);
      var rest := items[1..];
      assert items == [v] + rest && ParseItems(u, n - 1, strict) == Read(rest, t);
      Canonical(s, v, u, strict);
      CanonicalItems(u, n - 1, rest, t, strict);
      ItemsCons(v, rest);
      FrontsJoin(s, u, t);
    }
  }

  lemma {:induction false} NoItems(s: Bytes)
    ensures EncodeItems([]) == Some(s[..0])
  {}

  lemma {:induction false} ItemsCons(v: Value, rest: seq<Value>)
    ensures EncodeItems([v] + rest) == Append(Encode(v), EncodeItems(rest))
  {
    assert ([v] + rest)[1..] == rest;
  }

  predicate NormalParts(e: Entry, strict: bool) {
    && Normal(e.key) == e.key && Normal(e.val) == e.val
    && (strict ==> Scalar(e.key) && ScalarKeys(e.val))
  }

  // es are the entries spelled by s before t, in ascending key order, all keys above prev.
  ghost predicate SpellEntries(s: Bytes, prev: Option<Bytes>, es: seq<Entry>, t: Bytes, strict: bool) {
    && |t| <= |s| && s == s[..|s| - |t|] + t
    && EncodeEntries(es).Some?
    && Ascending(EncodeEntries(es).value)
    && (prev.Some? && es != [] ==> Less(prev.value, EncodeEntries(es).value[0].k))
    && Flatten(EncodeEntries(es).value) == s[..|s| - |t|]
    && forall i :: 0 <= i < |es| ==> NormalParts(es[i], strict)
  }

  lemma {:induction false} CanonicalEntries(s: Bytes, n: nat, prev: Option<Bytes>, es: seq<Entry>, t: Bytes,
      strict: bool)
    requires ParseEntries(s, n, prev, strict) == Read(es, t)
    ensures |es| == n && SpellEntries(s, prev, es, t, strict)
    decreases |s|, 1
  {
    hide Parse, Less, Spells, SpellEntries;
    if n == 0 {
      NoEntries(s, prev, strict);
    } else {
      var Read(k, u) := Parse(s, strict);
      var Read(v, w) := Parse(u, strict);
      var kb, rest := s[..|s| - |u|], es[1..];
      assert es == [Entry(k, v)] + rest && ParseEntries(w, n - 1, Some(kb), strict) == Read(rest, t);
      Canonical(s, k, u, strict);
      Canonical(u, v, w, strict);
      CanonicalEntries(w, n - 1, Some(kb), rest, t, strict);
      EntriesCons(s, k, u, v, w, prev, rest, t, strict);
    }
  }

  lemma {:induction false} NoEntries(s: Bytes, prev: Option<Bytes>, strict: bool)
    ensures SpellEntries(s, prev, [], s, strict)
  {}

  lemma {:induction false} EntriesCons(s: Bytes, k: Value, u: Bytes, v: Value, w: Bytes, prev: Option<Bytes>,
      rest: seq<Entry>, t: Bytes, strict: bool)
    requires Spells(s, k, u, strict) && Spells(u, v, w, strict)
    requires SpellEntries(w, Some(s[..|s| - |u|]), rest, t, strict)
    requires prev.Some? ==> Less(prev.value, s[..|s| - |u|])
    requires strict ==> Scalar(k)
    ensures SpellEntries(s, prev, [Entry(k, v)] + rest, t, strict)
  {
    hide Encode, EncodeEntries, Flatten, Normal, ScalarKeys, Less, Ascending, NormalParts;
    var e, kb, vb := Entry(k, v), s[..|s| - |u|], u[..|u| - |w|];
    EntrySpelled(e, kb, vb, strict);
    PairsCons(e, kb, vb, rest);
    FirstPair(e, kb, vb, rest);
    ThreeFronts(s, u, w, t);
    PartsCons(e, rest, strict);
  }

  lemma {:induction false} EntrySpelled(e: Entry, kb: Bytes, vb: Bytes, strict: bool)
    requires Encode(e.key) == Some(kb) && Encode(e.val) == Some(vb) && Normal(e.key) == e.key && Normal(e.val) == e.val
    requires strict ==> Scalar(e.key) && ScalarKeys(e.key) && ScalarKeys(e.val)
    ensures EncodeEntry(e) == Some(Keyed(kb, vb)) && NormalParts(e, strict)
  {
    hide Encode, Normal, ScalarKeys;
  }

  lemma {:induction false} FirstPair(e: Entry, kb: Bytes, vb: Bytes, rest: seq<Entry>)
    requires EncodeEntries([e] + rest).Some?
    requires EncodeEntries([e] + rest).value == [Keyed(kb, vb)] + EncodeEntries(rest).GetOr([])
    ensures EncodeEntries([e] + rest).value[0].k == kb
  {
    hide EncodeEntries;
  }

  lemma {:induction false} PartsCons(e: Entry, rest: seq<Entry>, strict: bool)
    requires NormalParts(e, strict) && forall i :: 0 <= i < |rest| ==> NormalParts(rest[i], strict)
    ensures forall i :: 0 <= i < |[e] + rest| ==> NormalParts(([e] + rest)[i], strict)
  {
    hide NormalParts;
  }

  lemma {:induction false} ThreeFronts(s: Bytes, u: Bytes, w: Bytes, t: Bytes)
    requires |t| <= |w| <= |u| <= |s|
    requires s == s[..|s| - |u|] + u && u == u[..|u| - |w|] + w && w == w[..|w| - |t|] + t
    ensures s == s[..|s| - |t|] + t
    ensures s[..|s| - |t|] == s[..|s| - |u|] + u[..|u| - |w|] + w[..|w| - |t|]
  {
    FrontsJoin(u, w, t);
    FrontsJoin(s, u, t);
    assert s[..|s| - |u|] + (u[..|u| - |w|] + w[..|w| - |t|]) == s[..|s| - |u|] + u[..|u| - |w|] + w[..|w| - |t|];
  }

  lemma {:induction false} PairsCons(e: Entry, kb: Bytes, vb: Bytes, rest: seq<Entry>)
    requires EncodeEntry(e) == Some(Keyed(kb, vb)) && EncodeEntries(rest).Some?
    requires Ascending(EncodeEntries(rest).value)
    requires rest != [] ==> Less(kb, EncodeEntries(rest).value[0].k)
    ensures EncodeEntries([e] + rest) == Some([Keyed(kb, vb)] + EncodeEntries(rest).value)
    ensures Ascending(EncodeEntries([e] + rest).value)
    ensures Flatten(EncodeEntries([e] + rest).value) == kb + vb + Flatten(EncodeEntries(rest).value)
  {
    assert ([e] + rest)[1..] == rest;
    var ps := EncodeEntries(rest).value;
    var pairs := [Keyed(kb, vb)] + ps;
    assert pairs[1..] == ps;
    forall j | 0 < j < |pairs| ensures Less(kb, pairs[j].k) {
      if j > 1 { LessTrans(kb, ps[0].k, ps[j - 1].k); }
    }
  }
}
