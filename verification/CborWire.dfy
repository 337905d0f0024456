/** The bytes themselves, stated without the encoder: section 3 of RFC 8949 and section 3 of RFC 3629. */
module CborWire {
  import opened Base
  import opened Cbor
  import opened CborLaws
  import opened CborOrder
  import opened CborTheorems

  // ----- Heads -----

  // The number the bytes spell, most significant first.
  function PlaceValue(b: Bytes): nat {
    if b == [] then 0 else b[0] * Pow256(|b| - 1) + PlaceValue(b[1..])
  }

  lemma {:induction false} PlaceValueSnoc(b: Bytes, x: Byte)
    ensures PlaceValue(b + [x]) == PlaceValue(b) * 256 + x
  {
    if b == [] {
      assert [] + [x] == [x] && [x][1..] == [];
    } else {
      assert (b + [x])[0] == b[0] && (b + [x])[1..] == b[1..] + [x];
      PlaceValueSnoc(b[1..], x);
      Carried(b[0], Pow256(|b| - 1));
    }
  }

  lemma {:induction false} Carried(d: nat, p: nat)
    ensures d * (256 * p) == (d * p) * 256
  {}

  lemma {:induction false} BigEndianSpells(n: nat, w: nat)
    requires n < Pow256(w)
    ensures PlaceValue(BigEndian(n, w)) == n
  {
    if w > 0 {
      BigEndianSpells(n / 256, w - 1);
      PlaceValueSnoc(BigEndian(n / 256, w - 1), n % 256);
    }
  }

  // h is the shortest head that says major type and argument: both in one byte, or the argument in the 1, 2, 4
  // or 8 bytes that 24, 25, 26 or 27 announces.
  ghost predicate SaysHead(h: Bytes, major: nat, n: int) {
    && h != [] && h[0] / 32 == major
    && (if 0 <= n < 24 then |h| == 1 && h[0] % 32 == n
        else PlaceValue(h[1..]) == n &&
             if n < 0x100 then h[0] % 32 == 24 && |h| == 2
             else if n < 0x1_0000 then h[0] % 32 == 25 && |h| == 3
             else if n < 0x1_0000_0000 then h[0] % 32 == 26 && |h| == 5
             else h[0] % 32 == 27 && |h| == 9)
  }

  lemma {:induction false} HeadSays(major: nat, n: int)
    requires major < 8
    ensures Head(major, n).Some? <==> 0 <= n <= 0xFFFF_FFFF_FFFF_FFFF
    ensures Head(major, n).Some? ==> SaysHead(Head(major, n).value, major, n)
  {
    if Head(major, n).Some? && n >= 24 {
      var h := Head(major, n).value;
      Pow256Values();
      if n < 0x100 {
        assert h[1..] == [n] && [n][1..] == [];
      } else {
        var w := if n < 0x1_0000 then 2 else if n < 0x1_0000_0000 then 4 else 8;
        assert h[1..] == BigEndian(n, w);
        BigEndianSpells(n, w);
      }
    }
  }

  // ----- Values -----

  // Nothing but the three simple values fits one byte above 0xE0.
  lemma {:induction false} SimplesSpelled()
    ensures Encode(Bool(false)) == Some([0xF4]) && Encode(Bool(true)) == Some([0xF5]) && Encode(Null) == Some([0xF6])
    ensures forall r :: Encode(Float(r)).None?
  {}

  // A natural number is major type 0 with itself as argument, a negative one major type 1 with -1 - i.
  lemma {:induction false} IntSpelled(i: int)
    ensures Encode(Int(i)).Some? <==> -0x1_0000_0000_0000_0000 <= i <= 0xFFFF_FFFF_FFFF_FFFF
    ensures Encode(Int(i)).Some? ==>
      SaysHead(Encode(Int(i)).value, if i < 0 then 1 else 0, if i < 0 then -1 - i else i)
  {
    HeadSays(0, i);
    HeadSays(1, -1 - i);
    hide Head, SaysHead;
  }

  // Bytewise order: up among the naturals, down among the negatives, and every natural before every negative.
  lemma {:induction false} IntOrder(i: int, j: int)
    requires Encode(Int(i)).Some? && Encode(Int(j)).Some? && i < j
    ensures if i < 0 then Less(Encode(Int(j)).value, Encode(Int(i)).value)
            else Less(Encode(Int(i)).value, Encode(Int(j)).value)
    ensures Encode(Int(0)) == Some([0]) && Encode(Int(-1)) == Some([0x20])
  {
    var x, y := Encode(Int(i)).value, Encode(Int(j)).value;
    assert x + [] == x && y + [] == y;
    IntSpelled(i);
    IntSpelled(j);
    if i >= 0 {
      HeadIncreasing(0, i, j, [], []);
    } else if j < 0 {
      HeadIncreasing(1, -1 - j, -1 - i, [], []);
    } else {
      assert y[0] / 32 == 0 && x[0] / 32 == 1;
    }
  }

  // b is a head of the given major type and argument, followed by the body.
  ghost predicate Framed(b: Bytes, major: nat, n: nat, body: Bytes) {
    exists h :: SaysHead(h, major, n) && b == h + body
  }

  lemma {:induction false} HeadFrames(major: nat, n: nat, body: Bytes)
    requires major < 8 && Head(major, n).Some?
    ensures Framed(Head(major, n).value + body, major, n, body)
  {
    HeadSays(major, n);
    hide Head, SaysHead;
  }

  // A byte string is major type 2, a text 3: the length, and then the bytes.
  lemma {:induction false} StringsSpelled(s: Bytes, t: Text)
    ensures Encode(Bstr(s)).Some? ==> Framed(Encode(Bstr(s)).value, 2, |s|, s)
    ensures Encode(Tstr(t)).Some? ==> Framed(Encode(Tstr(t)).value, 3, |t|, t)
  {
    hide Framed, Head;
    if Encode(Bstr(s)).Some? { HeadFrames(2, |s|, s); }
    if Encode(Tstr(t)).Some? { HeadFrames(3, |t|, t); }
  }

  // An array is major type 4: the number of items, and then their encodings in order.
  lemma {:induction false} ArraySpelled(items: seq<Value>)
    requires Encode(Arr(items)).Some?
    ensures forall i :: 0 <= i < |items| ==> Encode(items[i]).Some?
    ensures Framed(Encode(Arr(items)).value, 4, |items|, Joined(items))
  {
    ItemsJoined(items);
    hide Framed, Head;
    HeadFrames(4, |items|, Joined(items));
  }

  // The encodings laid end to end.
  function Joined(items: seq<Value>): Bytes {
    if items == [] then [] else Joined(items[..|items| - 1]) + Encode(items[|items| - 1]).GetOr([])
  }

  lemma {:induction false} JoinedCons(items: seq<Value>)
    requires items != []
    ensures Joined(items) == Encode(items[0]).GetOr([]) + Joined(items[1..])
  {
    hide Encode;
    var n := |items| - 1;
    if n == 0 {
      assert Joined(items[..0]) == [] && Joined(items[1..]) == [];
    } else {
      JoinedCons(items[..n]);
      assert items[..n][1..] == items[1..][..n - 1] && items[1..][n - 1] == items[n];
    }
  }

  lemma {:induction false} ItemsJoined(items: seq<Value>)
    requires EncodeItems(items).Some?
    ensures EncodeItems(items).value == Joined(items) && forall i :: 0 <= i < |items| ==> Encode(items[i]).Some?
  {
    hide Encode;
    if items != [] {
      ItemsJoined(items[1..]);
      JoinedCons(items);
      assert forall i :: 0 < i < |items| ==> items[i] == items[1..][i - 1];
    }
  }

  // A dict is major type 5: the number of entries, and then, in the ascending order of the encoded keys, each
  // key's encoding before its value's.
  lemma {:induction false} DictSpelled(es: seq<Entry>)
    requires Encode(Map(es)).Some?
    ensures var fs := Normal(Map(es)).entries;
      && Framed(Encode(Map(es)).value, 5, |es|, Joined(Alternating(fs)))
      && |fs| == |es| && (forall i :: 0 <= i < |fs| ==> Encode(fs[i].key).Some? && Encode(fs[i].val).Some?)
      && forall i, j :: 0 <= i < j < |fs| ==> Less(Encode(fs[i].key).value, Encode(fs[j].key).value)
  {
    var fs := Normal(Map(es)).entries;
    hide Encode, Normal, Parse, Framed, Less;
    RoundTrip(Map(es), [], false);
    Canonical(Encode(Map(es)).value + [], Normal(Map(es)), [], false);
    NormalIsMap(es);
    EncodeNormal(Map(es));
    SortedDict(fs);
    HeadFrames(5, |fs|, Joined(Alternating(fs)));
  }

  lemma {:induction false} NormalIsMap(es: seq<Entry>)
    ensures Normal(Map(es)).Map? && |Normal(Map(es)).entries| == |es|
  {
    SortMembers(NormalEntries(es));
  }

  // Keys and values by turns.
  function Alternating(es: seq<Entry>): seq<Value> {
    if es == [] then [] else [es[0].key, es[0].val] + Alternating(es[1..])
  }

  // A dict in canonical order is written as it stands.
  lemma {:induction false} SortedDict(fs: seq<Entry>)
    requires Normal(Map(fs)) == Map(fs) && Encode(Map(fs)).Some?
    ensures Head(5, |fs|).Some? && Encode(Map(fs)).value == Head(5, |fs|).value + Joined(Alternating(fs))
    ensures forall i :: 0 <= i < |fs| ==> Encode(fs[i].key).Some? && Encode(fs[i].val).Some?
    ensures forall i, j :: 0 <= i < j < |fs| ==> Less(Encode(fs[i].key).value, Encode(fs[j].key).value)
  {
    var ps := EncodeEntries(fs).value;
    hide Encode, Normal, Less, Flatten, Joined, Head, AllDistinct, Sort;
    EncodeMap(fs);
    EncodeMapIff(fs);
    EncodedEntries(fs);
    PairsOf(fs, ps);
    SortedPairs(fs, ps);
    SortFixed(ps);
    PairsJoined(fs, ps);
  }

  lemma {:induction false} PairsOf(fs: seq<Entry>, ps: seq<Keyed<Bytes>>)
    requires |fs| == |ps| && forall i :: 0 <= i < |fs| ==> EncodeEntry(fs[i]) == Some(ps[i])
    ensures forall i :: 0 <= i < |fs| ==> Encode(fs[i].key) == Some(ps[i].k) && Encode(fs[i].val) == Some(ps[i].x)
  {
    hide Encode;
  }

  lemma {:induction false} SortedPairs(fs: seq<Entry>, ps: seq<Keyed<Bytes>>)
    requires Normal(Map(fs)) == Map(fs) && Encode(Map(fs)).Some? && |fs| == |ps|
    requires forall i :: 0 <= i < |fs| ==> EncodeEntry(fs[i]) == Some(ps[i])
    ensures Ascending(ps)
    ensures forall i, j :: 0 <= i < j < |fs| ==> Less(ps[i].k, ps[j].k)
  {
    var ns := NormalEntries(fs);
    EncodedKeys(fs);
    assert Payloads(Sort(ns)) == fs;
    hide Encode, Normal, EncodeEntry, Sort, Less;
    SortAscending(ns);
    SortMembers(ns);
    forall j | 0 <= j < |fs| ensures ps[j].k == Sort(ns)[j].k { SortedKey(fs, fs, ps, j); }
  }

  lemma {:induction false} PairsJoined(fs: seq<Entry>, ps: seq<Keyed<Bytes>>)
    requires |fs| == |ps|
    requires forall i :: 0 <= i < |fs| ==> Encode(fs[i].key) == Some(ps[i].k) && Encode(fs[i].val) == Some(ps[i].x)
    ensures Flatten(ps) == Joined(Alternating(fs))
    decreases |fs|
  {
    hide Encode;
    if fs == [] {
      NothingJoined();
    } else {
      var all := Alternating(fs);
      PairsJoined(fs[1..], ps[1..]);
      assert all[1..] == [fs[0].val] + Alternating(fs[1..]) && all[1..][1..] == Alternating(fs[1..]);
      JoinedCons(all);
      JoinedCons(all[1..]);
      hide Joined;
      assert ps[0].k + (ps[0].x + Joined(Alternating(fs[1..]))) == ps[0].k + ps[0].x + Flatten(ps[1..]);
    }
  }

  lemma {:induction false} NothingJoined()
    ensures Joined([]) == []
  {}

  // ----- Text: section 3 of RFC 3629 -----

  // Unicode scalar values: no surrogates.
  predicate ScalarValue(u: int) {
    0 <= u <= 0xD7FF || 0xE000 <= u <= 0x10FFFF
  }

  // The octets of one scalar value: six bits to a continuation octet.
  function Octets(u: int): Bytes
    requires ScalarValue(u)
  {
    if u <= 0x7F then [u]
    else if u <= 0x7FF then [0xC0 + Rest(u), 0x80 + Six(u)]
    else if u <= 0xFFFF then [0xE0 + Rest(Rest(u)), 0x80 + Six(Rest(u)), 0x80 + Six(u)]
    else [0xF0 + Rest(Rest(Rest(u))), 0x80 + Six(Rest(Rest(u))), 0x80 + Six(Rest(u)), 0x80 + Six(u)]
  }

  // The low six bits, and the bits above them.
  function Six(u: int): int { u % 0x40 }
  function Rest(u: int): int { u / 0x40 }

  ghost predicate ScalarValues(us: seq<int>) {
    forall i :: 0 <= i < |us| ==> ScalarValue(us[i])
  }

  ghost function AllOctets(us: seq<int>): Bytes
    requires ScalarValues(us)
  {
    if us == [] then [] else Octets(us[0]) + AllOctets(us[1..])
  }

  lemma {:induction false} OctetsStep(u: int, t: Bytes)
    requires ScalarValue(u)
    ensures Utf8Step(Octets(u) + t) == |Octets(u)|
  {
    var s := Octets(u) + t;
    assert forall i :: 0 <= i < |Octets(u)| ==> s[i] == Octets(u)[i];
  }

  lemma {:induction false} Split(q: int, r: int)
    requires 0 <= r < 0x40
    ensures Rest(q * 0x40 + r) == q && Six(q * 0x40 + r) == r
  {}

  lemma {:induction false} StepOctets(s: Bytes) returns (u: int)
    requires Utf8Step(s) > 0
    ensures ScalarValue(u) && Octets(u) == s[..Utf8Step(s)]
  {
    var n := Utf8Step(s);
    if n == 1 {
      u := s[0];
    } else if n == 2 {
      u := Two(s[0], s[1]);
    } else if n == 3 {
      u := Three(s[0], s[1], s[2]);
    } else {
      u := Four(s[0], s[1], s[2], s[3]);
    }
  }

  lemma {:induction false} Two(a: int, b: int) returns (u: int)
    requires 0xC2 <= a <= 0xDF && 0x80 <= b <= 0xBF
    ensures ScalarValue(u) && Octets(u) == [a, b]
  {
    u := (a - 0xC0) * 0x40 + (b - 0x80);
    Split(a - 0xC0, b - 0x80);
    hide Six, Rest;
  }

  lemma {:induction false} Three(a: int, b: int, c: int) returns (u: int)
    requires 0xE0 <= a <= 0xEF && 0x80 <= b <= 0xBF && 0x80 <= c <= 0xBF
    requires (a == 0xE0 ==> b >= 0xA0) && (a == 0xED ==> b <= 0x9F)
    ensures ScalarValue(u) && Octets(u) == [a, b, c]
  {
    var v := (a - 0xE0) * 0x40 + (b - 0x80);
    u := v * 0x40 + (c - 0x80);
    Split(a - 0xE0, b - 0x80);
    Split(v, c - 0x80);
    hide Six, Rest;
  }

  lemma {:induction false} Four(a: int, b: int, c: int, d: int) returns (u: int)
    requires 0xF0 <= a <= 0xF4 && 0x80 <= b <= 0xBF && 0x80 <= c <= 0xBF && 0x80 <= d <= 0xBF
    requires (a == 0xF0 ==> b >= 0x90) && (a == 0xF4 ==> b <= 0x8F)
    ensures ScalarValue(u) && Octets(u) == [a, b, c, d]
  {
    var w := (a - 0xF0) * 0x40 + (b - 0x80);
    var v := w * 0x40 + (c - 0x80);
    u := v * 0x40 + (d - 0x80);
    Split(a - 0xF0, b - 0x80);
    Split(w, c - 0x80);
    Split(v, d - 0x80);
    hide Six, Rest;
  }

  // Text is exactly what scalar values are written as, one after the other.
  lemma {:induction false} TextSpelled(s: Bytes)
    ensures ValidUtf8(s) <==> exists us :: ScalarValues(us) && AllOctets(us) == s
  {
    if ValidUtf8(s) { var us := ScalarsOf(s); }
    if us :| ScalarValues(us) && AllOctets(us) == s { OctetsValid(us); }
  }

  lemma {:induction false} ScalarsOf(s: Bytes) returns (us: seq<int>)
    requires ValidUtf8(s)
    ensures ScalarValues(us) && AllOctets(us) == s
    decreases |s|
  {
    hide Octets, Utf8Step;
    if s == [] { return []; }
    var n := Utf8Step(s);
    var u := StepOctets(s);
    var rest := ScalarsOf(s[n..]);
    us := [u] + rest;
    assert us[1..] == rest && s == s[..n] + s[n..];
  }

  lemma {:induction false} OctetsValid(us: seq<int>)
    requires ScalarValues(us)
    ensures ValidUtf8(AllOctets(us))
    decreases |us|
  {
    if us != [] {
      OctetsValid(us[1..]);
      OctetsStep(us[0], AllOctets(us[1..]));
      NotEmpty(us[0]);
      hide Octets, Utf8Step;
      var n, t := |Octets(us[0])|, AllOctets(us[1..]);
      assert (Octets(us[0]) + t)[n..] == t;
    }
  }

  lemma {:induction false} NotEmpty(u: int)
    requires ScalarValue(u)
    ensures Octets(u) != []
  {}

  // ----- Dicts -----

  // d[k]: the value under a key equal to k.
  function Lookup(d: seq<Entry>, k: Value): Option<Value> {
    if d == [] then None else if SameKey(d[0].key, k) then Some(d[0].val) else Lookup(d[1..], k)
  }

  lemma {:induction false} SameKeyEquivalence(a: Value, b: Value, c: Value)
    ensures SameKey(a, a) && (SameKey(a, b) <==> SameKey(b, a))
    ensures SameKey(a, b) && SameKey(b, c) ==> SameKey(a, c)
  {}

  // Assigning d[k] = v leaves every other key alone; the keys stay as they are, spelling and order included,
  // but for a new one at the end.
  lemma {:induction false} PutMeans(d: seq<Entry>, k: Value, v: Value, x: Value)
    ensures Lookup(Put(d, k, v), x) == if SameKey(k, x) then Some(v) else Lookup(d, x)
    ensures KeysOf(Put(d, k, v)) == KeysOf(d) + (if Lookup(d, k).None? then [k] else [])
  {
    PutLooksUp(d, k, v, x);
    PutKeys(d, k, v);
  }

  lemma {:induction false} PutLooksUp(d: seq<Entry>, k: Value, v: Value, x: Value)
    ensures Lookup(Put(d, k, v), x) == if SameKey(k, x) then Some(v) else Lookup(d, x)
  {
    hide SameKey;
    if d != [] {
      SameKeyEquivalence(d[0].key, k, x);
      SameKeyEquivalence(d[0].key, x, k);
      SameKeyEquivalence(k, d[0].key, x);
      SameKeyEquivalence(k, x, x);
      var e := Put(d, k, v);
      if SameKey(d[0].key, k) {
        assert e[1..] == d[1..];
      } else {
        PutLooksUp(d[1..], k, v, x);
        assert e[1..] == Put(d[1..], k, v);
      }
    }
  }

  lemma {:induction false} PutKeys(d: seq<Entry>, k: Value, v: Value)
    ensures KeysOf(Put(d, k, v)) == KeysOf(d) + (if Lookup(d, k).None? then [k] else [])
  {
    hide SameKey;
    if d == [] {
      assert KeysOf([Entry(k, v)]) == [k];
    } else if !SameKey(d[0].key, k) {
      PutKeys(d[1..], k, v);
      KeysCons(d[0], d[1..]);
      KeysCons(d[0], Put(d[1..], k, v));
      assert d == [d[0]] + d[1..];
    }
  }

  lemma {:induction false} KeysCons(e: Entry, d: seq<Entry>)
    ensures KeysOf([e] + d) == [e.key] + KeysOf(d)
  {}

  function KeysOf(d: seq<Entry>): (r: seq<Value>)
    ensures |r| == |d|
  {
    seq(|d|, i requires 0 <= i < |d| => d[i].key)
  }

  // So a dict built entry by entry holds, under each key, the value of the last equal key.
  lemma {:induction false} LastWins(entries: seq<Entry>, x: Value)
    ensures Lookup(PutAll([], entries), x) == LastValue(entries, x)
  {
    LastWinsFrom([], entries, x);
  }

  function LastValue(entries: seq<Entry>, x: Value): Option<Value> {
    if entries == [] then None
    else
      var last := entries[|entries| - 1];
      if SameKey(last.key, x) then Some(last.val) else LastValue(entries[..|entries| - 1], x)
  }

  lemma {:induction false} LastWinsFrom(d: seq<Entry>, entries: seq<Entry>, x: Value)
    ensures Lookup(PutAll(d, entries), x) == if LastValue(entries, x).Some? then LastValue(entries, x) else Lookup(d, x)
    decreases |entries|
  {
    if entries != [] {
      var n := |entries| - 1;
      PutAllSnoc(d, entries[..n], entries[n]);
      assert entries == entries[..n] + [entries[n]];
      LastWinsFrom(d, entries[..n], x);
      PutMeans(PutAll(d, entries[..n]), entries[n].key, entries[n].val, x);
    }
  }
}
