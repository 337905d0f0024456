/** Canonical key order: heads grow bytewise with their argument, so text keys sort by length first. */
module CborOrder {
  import opened Base
  import opened Cbor
  import opened CborLaws
  import opened CborTheorems

  lemma {:induction false} BigEndianLess(m: nat, n: nat, w: nat)
    requires m < n < Pow256(w)
    ensures Less(BigEndian(m, w), BigEndian(n, w))
  {
    if m / 256 < n / 256 {
      BigEndianLess(m / 256, n / 256, w - 1);
      LessExtend(BigEndian(m / 256, w - 1), BigEndian(n / 256, w - 1), [m % 256], [n % 256]);
    } else {
      LessPrefix(BigEndian(m / 256, w - 1), [m % 256], [n % 256]);
    }
  }

  // Within a major type a smaller argument has the smaller head, across all five widths,
  // and the heads alone decide the order whatever follows them.
  lemma {:induction false} HeadIncreasing(major: nat, m: int, n: int, s: Bytes, t: Bytes)
    requires major < 8 && Head(major, m).Some? && Head(major, n).Some? && m < n
    ensures Less(Head(major, m).value + s, Head(major, n).value + t)
  {
    Pow256Values();
    var a, b := Head(major, m).value, Head(major, n).value;
    assert (a + s)[0] == a[0] && (b + t)[0] == b[0];
    if a[0] == b[0] {
      assert Less(a[1..], b[1..]) by {
        if m >= 0x100 {
          BigEndianLess(m, n, if m < 0x10000 then 2 else if m < 0x1_0000_0000 then 4 else 8);
          assert a[1..] == BigEndian(m, |a| - 1) && b[1..] == BigEndian(n, |a| - 1);
        }
      }
      LessExtend(a[1..], b[1..], s, t);
      assert (a + s)[1..] == a[1..] + s && (b + t)[1..] == b[1..] + t;
    }
  }

  predicate Shortlex(a: Bytes, b: Bytes) {
    |a| < |b| || (|a| == |b| && Less(a, b))
  }

  // Encoded text keys compare as their UTF-8 bytes do in shortlex order, at every length.
  lemma {:induction false} TextKeyOrder(a: Text, b: Text)
    requires Encode(Tstr(a)).Some? && Encode(Tstr(b)).Some?
    ensures Less(Encode(Tstr(a)).value, Encode(Tstr(b)).value) <==> Shortlex(a, b)
  {
    var x, y := Encode(Tstr(a)).value, Encode(Tstr(b)).value;
    if |a| < |b| {
      HeadIncreasing(3, |a|, |b|, a, b);
    } else if |b| < |a| {
      HeadIncreasing(3, |b|, |a|, b, a);
      LessTotal(x, y);
    } else {
      LessPrefix(Head(3, |a|).value, a, b);
    }
  }

  // The order on the wire of a map whose keys are texts.
  lemma {:induction false} TextMapOrder(es: seq<Entry>)
    requires Encode(Map(es)).Some?
    requires forall i :: 0 <= i < |es| ==> es[i].key.Tstr?
    ensures var fs := Normal(Map(es)).entries;
      && |fs| == |es|
      && (forall i :: 0 <= i < |fs| ==> fs[i].key.Tstr?)
      && forall i, j :: 0 <= i < j < |fs| ==> Shortlex(fs[i].key.text, fs[j].key.text)
  {
    var ns := NormalEntries(es);
    hide Encode, Sort, Shortlex, Less;
    EncodedKeys(es);
    forall i | 0 <= i < |es| ensures ns[i].x.key.Tstr? && Encode(ns[i].x.key) == Some(ns[i].k) {
      TextEntry(es, i);
    }
    SortAscending(ns);
    SortedTexts(ns, Sort(ns));
    assert Normal(Map(es)).entries == Payloads(Sort(ns));
  }

  lemma {:induction false} EncodedKeys(es: seq<Entry>)
    requires Encode(Map(es)).Some?
    ensures DistinctKeys(NormalEntries(es)) && forall i :: 0 <= i < |es| ==> Encode(es[i].key).Some?
  {
    hide EncodeEntries, AllDistinct, Normal;
    EncodeMap(es);
    hide Encode;
    EncodedEntries(es);
    DistinctIff(EncodeEntries(es).value);
    var ns, ps := NormalEntries(es), EncodeEntries(es).value;
    forall i | 0 <= i < |es| ensures ns[i].k == ps[i].k { assert ns[i] == NormalEntry(es[i]); }
  }

  lemma {:induction false} TextEntry(es: seq<Entry>, i: nat)
    requires i < |es| && es[i].key.Tstr? && Encode(es[i].key).Some?
    ensures var n := NormalEntries(es)[i]; n.x.key == es[i].key && Encode(es[i].key) == Some(n.k)
  {
    hide Encode;
    assert NormalEntries(es)[i] == NormalEntry(es[i]);
    assert Normal(es[i].key) == es[i].key;
  }

  lemma {:induction false} SortedTexts(ns: seq<Keyed<Entry>>, s: seq<Keyed<Entry>>)
    requires s == Sort(ns) && Ascending(s)
    requires forall i :: 0 <= i < |ns| ==> ns[i].x.key.Tstr? && Encode(ns[i].x.key) == Some(ns[i].k)
    ensures |s| == |ns| && forall i :: 0 <= i < |s| ==> s[i].x.key.Tstr?
    ensures forall i, j :: 0 <= i < j < |s| ==> Shortlex(s[i].x.key.text, s[j].x.key.text)
  {
    hide Encode, Sort, Shortlex, Less;
    SortMembers(ns);
    forall i | 0 <= i < |s| ensures s[i].x.key.Tstr? && Encode(s[i].x.key) == Some(s[i].k) {
      assert s[i] in multiset(s);
      assert s[i] in multiset(ns);
    }
    forall i, j | 0 <= i < j < |s| ensures Shortlex(s[i].x.key.text, s[j].x.key.text) {
      TextKeyOrder(s[i].x.key.text, s[j].x.key.text);
    }
  }
}
