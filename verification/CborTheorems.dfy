/** What the codec's documentation promises, stated for every value and every byte string. */
module CborTheorems {
  import opened Base
  import opened Cbor
  import opened CborLaws

  // ----- Injectivity and prefix-freeness -----

  // No encoding is a proper prefix of another; encodings followed by anything parse uniquely.
  lemma {:induction false} EncodingsParseUniquely(v: Value, s: Bytes, w: Value, t: Bytes)
    requires Encode(v).Some? && Encode(w).Some?
    requires Encode(v).value + s == Encode(w).value + t
    ensures Encode(v) == Encode(w) && s == t && Same(v, w)
  {
    RoundTrip(v, s, false);
    RoundTrip(w, t, false);
    var a, b := Encode(v).value, Encode(w).value;
    assert (a + s)[..|a|] == a && (b + t)[..|b|] == b;
    NormalEqualSame(v, w);
  }

  // Two values have the same encoding exactly when they are equal up to the order of dict items.
  lemma {:induction false} EncodeInjective(v: Value, w: Value)
    requires Encode(v).Some? && Encode(w).Some?
    ensures Encode(v) == Encode(w) <==> Same(v, w)
  {
    if Encode(v) == Encode(w) { EncodingsParseUniquely(v, [], w, []); }
    if Same(v, w) { SameEncode(v, w); }
  }

  // The items of a dict can be inserted in any order: the encoding is the same, or there is none.
  lemma {:induction false} InsertionOrderIrrelevant(es: seq<Entry>, fs: seq<Entry>)
    requires multiset(es) == multiset(fs)
    ensures Encode(Map(es)) == Encode(Map(fs))
  {
    hide Encode;
    if Encode(Map(es)).Some? { PermutedEncodes(es, fs); }
    if Encode(Map(fs)).Some? { PermutedEncodes(fs, es); }
  }

  lemma {:induction false} PermutedEncodes(es: seq<Entry>, fs: seq<Entry>)
    requires multiset(es) == multiset(fs) && Encode(Map(es)).Some?
    ensures Encode(Map(fs)) == Encode(Map(es))
  {
    hide Encode, EncodeEntries, EncodeEntry, AllDistinct, Sort, Flatten, Head;
    EncodeMap(es);
    EntriesSome(es);
    assert |es| == |multiset(es)| == |multiset(fs)| == |fs|;
    forall j | 0 <= j < |fs| ensures EncodeEntry(fs[j]).Some? { var i := MatchIn(fs, es, j); }
    EntriesSome(fs);
    var ps, qs := EncodeEntries(es).value, EncodeEntries(fs).value;
    PairsPermuted(es, fs, ps, qs);
    DistinctIff(ps);
    DistinctIff(qs);
    BagDistinct(ps, qs);
    EncodeMapIff(es);
    EncodeMapIff(fs);
    EncodeMap(fs);
    forall i | 0 <= i < |ps| ensures ps[i] in qs { assert ps[i] in multiset(qs); }
    forall j | 0 <= j < |qs| ensures qs[j] in ps { assert qs[j] in multiset(ps); }
    SortForgetsOrder(ps, qs);
  }

  lemma {:induction false} PairsPermuted(es: seq<Entry>, fs: seq<Entry>, ps: seq<Keyed<Bytes>>, qs: seq<Keyed<Bytes>>)
    requires multiset(es) == multiset(fs) && EncodeEntries(es) == Some(ps) && EncodeEntries(fs) == Some(qs)
    ensures multiset(ps) == multiset(qs)
    decreases |es|
  {
    hide EncodeEntry, EncodeEntries;
    assert |es| == |multiset(es)| == |multiset(fs)| == |fs|;
    if es == [] {
      assert ps == [] == qs;
    } else {
      var j := MatchIn(es, fs, 0);
      var es', fs', ps', qs' := es[..0] + es[1..], fs[..j] + fs[j + 1..], ps[..0] + ps[1..], qs[..j] + qs[j + 1..];
      BagWithout(es, 0);
      BagWithout(fs, j);
      Cancel(multiset(es'), multiset(fs'), multiset{es[0]});
      EncodedEntries(fs);
      EncodedEntries(es);
      EncodeCut(es, ps, 0);
      EncodeCut(fs, qs, j);
      PairsPermuted(es', fs', ps', qs');
      BagWithout(ps, 0);
      BagWithout(qs, j);
    }
  }

  // Leaving out an entry leaves out its pair.
  lemma {:induction false} EncodeCut(fs: seq<Entry>, qs: seq<Keyed<Bytes>>, j: nat)
    requires EncodeEntries(fs) == Some(qs) && j < |fs|
    ensures EncodeEntries(fs[..j] + fs[j + 1..]) == Some(qs[..j] + qs[j + 1..])
    decreases |fs|
  {
    hide EncodeEntry;
    var rest := fs[..j] + fs[j + 1..];
    if j == 0 {
      assert rest == fs[1..] && qs[..0] + qs[1..] == qs[1..];
    } else {
      EncodeCut(fs[1..], qs[1..], j - 1);
      assert rest[0] == fs[0] && rest[1..] == fs[1..][..j - 1] + fs[1..][j..];
      assert qs[..j] + qs[j + 1..] == [qs[0]] + (qs[1..][..j - 1] + qs[1..][j..]);
    }
  }

  // Whether keys differ does not depend on the arrangement.
  lemma {:induction false} BagDistinct<T>(ps: seq<Keyed<T>>, qs: seq<Keyed<T>>)
    requires multiset(ps) == multiset(qs) && DistinctKeys(ps)
    ensures DistinctKeys(qs)
    decreases |ps|
  {
    hide DistinctKeys;
    assert |ps| == |multiset(ps)| == |multiset(qs)| == |qs|;
    if qs == [] {
      NoKeys<T>();
    } else {
      var i := MatchIn(qs, ps, 0);
      var rest := ps[..i] + ps[i + 1..];
      BagWithout(ps, i);
      BagWithout(qs, 0);
      assert qs[..0] + qs[1..] == qs[1..];
      Cancel(multiset(rest), multiset(qs[1..]), multiset{qs[0]});
      DistinctWithout(ps, i);
      BagDistinct(rest, qs[1..]);
      forall j | 0 <= j < |qs| - 1 ensures qs[1..][j].k != qs[0].k {
        var h := MatchIn(qs[1..], rest, j);
      }
      DistinctCons(qs);
    }
  }

  lemma {:induction false} DistinctWithout<T>(ps: seq<Keyed<T>>, i: nat)
    requires DistinctKeys(ps) && i < |ps|
    ensures var rest := ps[..i] + ps[i + 1..];
      DistinctKeys(rest) && forall h :: 0 <= h < |rest| ==> rest[h].k != ps[i].k
  {
    var rest := ps[..i] + ps[i + 1..];
    assert forall h :: 0 <= h < |rest| ==> rest[h] == ps[if h < i then h else h + 1];
  }

  lemma {:induction false} NoKeys<T>()
    ensures DistinctKeys<T>([])
  {}

  lemma {:induction false} DistinctCons<T>(qs: seq<Keyed<T>>)
    requires qs != [] && DistinctKeys(qs[1..]) && forall j :: 0 <= j < |qs| - 1 ==> qs[1..][j].k != qs[0].k
    ensures DistinctKeys(qs)
  {
    assert forall j :: 0 < j < |qs| ==> qs[j] == qs[1..][j - 1];
  }

  lemma {:induction false} InAt(e: Entry, fs: seq<Entry>, j: nat)
    requires j < |fs| && SameEntry(e, fs[j])
    ensures In(e, fs)
  {
    if j > 0 { InAt(e, fs[1..], j - 1); }
  }

  lemma {:induction false} FromAt(es: seq<Entry>, f: Entry, i: nat)
    requires i < |es| && SameEntry(es[i], f)
    ensures From(es, f)
  {
    if i > 0 { FromAt(es[1..], f, i - 1); }
  }

  lemma {:induction false} AllInAll(es: seq<Entry>, fs: seq<Entry>)
    ensures AllIn(es, fs) <==> forall i :: 0 <= i < |es| ==> In(es[i], fs)
  {
    if es != [] {
      AllInAll(es[1..], fs);
      assert forall i :: 0 < i < |es| ==> es[1..][i - 1] == es[i];
    }
  }

  lemma {:induction false} AllFromAll(es: seq<Entry>, fs: seq<Entry>)
    ensures AllFrom(es, fs) <==> forall j :: 0 <= j < |fs| ==> From(es, fs[j])
    decreases |fs|
  {
    if fs != [] {
      AllFromAll(es, fs[1..]);
      assert forall j :: 0 < j < |fs| ==> fs[1..][j - 1] == fs[j];
    }
  }

  lemma {:induction false} SameMaps(es: seq<Entry>, fs: seq<Entry>)
    requires |es| == |fs|
    requires forall i :: 0 <= i < |es| ==> In(es[i], fs)
    requires forall j :: 0 <= j < |fs| ==> From(es, fs[j])
    ensures Same(Map(es), Map(fs))
  {
    AllInAll(es, fs);
    AllFromAll(es, fs);
  }

  // The item of fs that item i of es is equal to, and the other way round.
  lemma {:induction false} SameMatch(es: seq<Entry>, fs: seq<Entry>, i: nat) returns (j: nat)
    requires Same(Map(es), Map(fs)) && i < |es|
    ensures j < |fs| && SameEntry(es[i], fs[j])
  {
    AllInAll(es, fs);
    j := InMatch(es[i], fs);
  }

  lemma {:induction false} InMatch(e: Entry, fs: seq<Entry>) returns (j: nat)
    requires In(e, fs)
    ensures j < |fs| && SameEntry(e, fs[j])
  {
    if SameEntry(e, fs[0]) { return 0; }
    j := InMatch(e, fs[1..]);
    j := j + 1;
  }

  lemma {:induction false} SameMatchBack(es: seq<Entry>, fs: seq<Entry>, j: nat) returns (i: nat)
    requires Same(Map(es), Map(fs)) && j < |fs|
    ensures i < |es| && SameEntry(es[i], fs[j])
  {
    AllFromAll(es, fs);
    i := FromMatch(es, fs[j]);
  }

  lemma {:induction false} FromMatch(es: seq<Entry>, f: Entry) returns (i: nat)
    requires From(es, f)
    ensures i < |es| && SameEntry(es[i], f)
  {
    if SameEntry(es[0], f) { return 0; }
    i := FromMatch(es[1..], f);
    i := i + 1;
  }

  lemma {:induction false} SameReflexive(v: Value)
    ensures Same(v, v)
  {
    match v
    case Arr(items) =>
      forall i | 0 <= i < |items| ensures Same(items[i], items[i]) { SameReflexive(items[i]); }
    case Map(es) =>
      forall i | 0 <= i < |es| ensures In(es[i], es) && From(es, es[i]) {
        SameEntryReflexive(es[i]);
        InAt(es[i], es, i);
        FromAt(es, es[i], i);
      }
      SameMaps(es, es);
    case _ =>
  }

  lemma {:induction false} SameEntryReflexive(e: Entry)
    ensures SameEntry(e, e)
  {
    SameReflexive(e.key);
    SameReflexive(e.val);
  }

  lemma {:induction false} PayloadMembers<T>(a: seq<Keyed<T>>)
    ensures |Sort(a)| == |a|
    ensures forall i :: 0 <= i < |a| ==> a[i].x in Payloads(Sort(a))
    ensures forall j :: 0 <= j < |a| ==> exists i :: 0 <= i < |a| && a[i].x == Payloads(Sort(a))[j]
  {
    SortMembers(a);
    var s := Sort(a);
    forall i | 0 <= i < |a| ensures a[i].x in Payloads(s) {
      assert a[i] in multiset(a);
      assert a[i] in multiset(s);
      var j :| 0 <= j < |s| && s[j] == a[i];
      assert Payloads(s)[j] == a[i].x;
    }
    forall j | 0 <= j < |a| ensures exists i :: 0 <= i < |a| && a[i].x == Payloads(s)[j] {
      assert s[j] in multiset(s);
      assert s[j] in multiset(a);
    }
  }

  lemma {:induction false} NormalEqualSame(v: Value, w: Value)
    requires Normal(v) == Normal(w)
    ensures Same(v, w)
    decreases v
  {
    match v
    case Arr(items) =>
      forall i | 0 <= i < |items| ensures Same(items[i], w.items[i]) {
        assert Normal(v).items[i] == Normal(w).items[i];
        NormalEqualSame(items[i], w.items[i]);
      }
    case Map(es) => NormalEqualSameMaps(es, w.entries);
    case _ =>
  }

  lemma {:induction false} NormalEqualSameMaps(es: seq<Entry>, fs: seq<Entry>)
    requires Payloads(Sort(NormalEntries(es))) == Payloads(Sort(NormalEntries(fs)))
    ensures Same(Map(es), Map(fs))
    decreases es
  {
    hide Normal, Same, SameEntry, Sort;
    PayloadMembers(NormalEntries(es));
    PayloadMembers(NormalEntries(fs));
    forall i | 0 <= i < |es| ensures In(es[i], fs) {
      var x := NormalEntries(es)[i].x;
      assert x in Payloads(Sort(NormalEntries(fs)));
      var j :| 0 <= j < |fs| && NormalEntries(fs)[j].x == x;
      NormalEqualSameEntry(es[i], fs[j]);
      InAt(es[i], fs, j);
    }
    forall j | 0 <= j < |fs| ensures From(es, fs[j]) {
      var x := NormalEntries(fs)[j].x;
      assert x in Payloads(Sort(NormalEntries(es)));
      var i :| 0 <= i < |es| && NormalEntries(es)[i].x == x;
      NormalEqualSameEntry(es[i], fs[j]);
      FromAt(es, fs[j], i);
    }
    SameMaps(es, fs);
  }

  lemma {:induction false} NormalEqualSameEntry(e: Entry, f: Entry)
    requires NormalEntry(e).x == NormalEntry(f).x
    ensures SameEntry(e, f)
    decreases e
  {
    NormalEqualSame(e.key, f.key);
    NormalEqualSame(e.val, f.val);
  }

  lemma {:induction false} SameEncode(v: Value, w: Value)
    requires Encode(v).Some? && Encode(w).Some? && Same(v, w)
    ensures Encode(v) == Encode(w)
    decreases v
  {
    match v
    case Arr(items) =>
      SameEncodeItems(items, w.items);
    case Map(es) => SameEncodeMaps(es, w.entries);
    case _ =>
  }

  lemma {:induction false} SameEncodeMaps(es: seq<Entry>, fs: seq<Entry>)
    requires Encode(Map(es)).Some? && Encode(Map(fs)).Some? && Same(Map(es), Map(fs))
    ensures Encode(Map(es)) == Encode(Map(fs))
    decreases es
  {
    hide Encode, EncodeEntries, EncodeEntry, AllDistinct, Same, SameEntry, Sort, Flatten, Head;
    EncodeMap(es); EncodeMap(fs);
    var ps, qs := EncodeEntries(es).value, EncodeEntries(fs).value;
    EncodedEntries(es); EncodedEntries(fs);
    DistinctIff(ps); DistinctIff(qs);
    forall i | 0 <= i < |es| ensures ps[i] in qs {
      var j := SameMatch(es, fs, i);
      SameEncodeEntry(es[i], fs[j]);
      assert qs[j] == ps[i];
    }
    forall j | 0 <= j < |fs| ensures qs[j] in ps {
      var i := SameMatchBack(es, fs, j);
      SameEncodeEntry(es[i], fs[j]);
      assert qs[j] == ps[i];
    }
    SortForgetsOrder(ps, qs);
    SortMembers(ps); SortMembers(qs);
  }

  lemma {:induction false} EncodeMap(es: seq<Entry>)
    requires Encode(Map(es)).Some?
    ensures EncodeEntries(es).Some? && AllDistinct(EncodeEntries(es).value)
    ensures Encode(Map(es)) == Append(Head(5, |es|), Some(Flatten(Sort(EncodeEntries(es).value))))
  {}

  lemma {:induction false} SameEncodeEntry(e: Entry, f: Entry)
    requires EncodeEntry(e).Some? && EncodeEntry(f).Some? && SameEntry(e, f)
    ensures EncodeEntry(e) == EncodeEntry(f)
    decreases e
  {
    SameEncode(e.key, f.key);
    SameEncode(e.val, f.val);
  }

  lemma {:induction false} SameEncodeItems(v: seq<Value>, w: seq<Value>)
    requires EncodeItems(v).Some? && EncodeItems(w).Some?
    requires |v| == |w| && forall i :: 0 <= i < |v| ==> Same(v[i], w[i])
    ensures EncodeItems(v) == EncodeItems(w)
    decreases v
  {
    if v != [] {
      SameEncode(v[0], w[0]);
      SameEncodeItems(v[1..], w[1..]);
    }
  }

  // ----- Whether a value can be encoded does not depend on the order of its dicts -----

  lemma {:induction false} ItemsSome(items: seq<Value>)
    ensures EncodeItems(items).Some? <==> forall i :: 0 <= i < |items| ==> Encode(items[i]).Some?
  {
    hide Encode;
    if items != [] {
      ItemsSome(items[1..]);
      assert forall i :: 0 < i < |items| ==> items[i] == items[1..][i - 1];
    }
  }

  lemma {:induction false} EntriesSome(es: seq<Entry>)
    ensures EncodeEntries(es).Some? <==> forall i :: 0 <= i < |es| ==> EncodeEntry(es[i]).Some?
  {
    hide EncodeEntry;
    if es != [] {
      EntriesSome(es[1..]);
      assert forall i :: 0 < i < |es| ==> es[i] == es[1..][i - 1];
    }
  }

  lemma {:induction false} SortDistinctBack<T>(s: seq<Keyed<T>>)
    requires DistinctKeys(Sort(s))
    ensures DistinctKeys(s)
  {
    if s != [] {
      var r := Sort(s[1..]);
      InsertDistinctBack(s[0], r);
      SortDistinctBack(s[1..]);
      SortMembers(s[1..]);
      forall j | 0 < j < |s| ensures s[0].k != s[j].k {
        assert s[1..][j - 1] in multiset(s[1..]);
        assert s[1..][j - 1] in multiset(r);
      }
      assert forall j :: 0 < j < |s| ==> s[j] == s[1..][j - 1];
    }
  }

  lemma {:induction false} TailDistinct<T>(s: seq<Keyed<T>>)
    requires s != [] && DistinctKeys(s)
    ensures DistinctKeys(s[1..]) && forall i :: 0 <= i < |s[1..]| ==> s[1..][i].k != s[0].k
  {}

  lemma {:induction false} HeadDistinct<T>(s: seq<Keyed<T>>)
    requires s != [] && DistinctKeys(s[1..]) && forall i :: 0 <= i < |s[1..]| ==> s[1..][i].k != s[0].k
    ensures DistinctKeys(s)
  {
    assert forall i :: 0 < i < |s| ==> s[i] == s[1..][i - 1];
  }

  lemma {:induction false} InsertDistinctBack<T>(e: Keyed<T>, s: seq<Keyed<T>>)
    requires DistinctKeys(Insert(e, s))
    ensures DistinctKeys(s) && forall i :: 0 <= i < |s| ==> s[i].k != e.k
    decreases |s|
  {
    hide DistinctKeys, Less;
    var t := Insert(e, s);
    TailDistinct(t);
    if s != [] && Less(s[0].k, e.k) {
      var u := Insert(e, s[1..]);
      assert t[1..] == u;
      InsertDistinctBack(e, s[1..]);
      InsertMembers(e, s[1..]);
      forall j | 0 <= j < |s[1..]| ensures s[1..][j].k != s[0].k {
        assert s[1..][j] in multiset(u);
        var i :| 0 <= i < |u| && u[i] == s[1..][j];
      }
      HeadDistinct(s);
      LessTotal(s[0].k, e.k);
      assert forall j :: 0 < j < |s| ==> s[j] == s[1..][j - 1];
    } else {
      assert t[1..] == s;
    }
  }

  lemma {:induction false} EncodableFromNormal(v: Value)
    requires Encode(Normal(v)).Some?
    ensures Encode(v).Some?
    decreases v
  {
    match v
    case Arr(items) =>
      var ns := Normal(v).items;
      ItemsSome(items);
      ItemsSome(ns);
      forall i | 0 <= i < |items| ensures Encode(items[i]).Some? {
        assert ns[i] == Normal(items[i]);
        EncodableFromNormal(items[i]);
      }
    case Map(es) => EncodableMapFromNormal(es);
    case _ =>
  }

  lemma {:induction false} EncodableMapFromNormal(es: seq<Entry>)
    requires Encode(Normal(Map(es))).Some?
    ensures Encode(Map(es)).Some?
    decreases es
  {
    var ns := NormalEntries(es);
    var fs := Payloads(Sort(ns));
    assert Normal(Map(es)) == Map(fs);
    hide Encode, Normal, Sort, EncodeEntries, AllDistinct;
    EncodeMap(fs);
    EntriesSome(fs);
    PayloadMembers(ns);
    forall i | 0 <= i < |es| ensures EncodeEntry(es[i]).Some? {
      assert ns[i] == NormalEntry(es[i]);
      assert ns[i].x in fs;
      var j :| 0 <= j < |fs| && fs[j] == ns[i].x;
      assert EncodeEntry(fs[j]).Some?;
      EncodableEntryFromNormal(es[i]);
    }
    EntriesSome(es);
    NormalKeysApart(es);
    EncodeMapIff(es);
  }

  lemma {:induction false} EncodableEntryFromNormal(e: Entry)
    requires Encode(Normal(e.key)).Some? && Encode(Normal(e.val)).Some?
    ensures EncodeEntry(e).Some?
    decreases e
  {
    EncodableFromNormal(e.key);
    EncodableFromNormal(e.val);
  }

  lemma {:induction false} EncodeMapIff(es: seq<Entry>)
    ensures Encode(Map(es)).Some? <==>
      EncodeEntries(es).Some? && AllDistinct(EncodeEntries(es).value) && Head(5, |es|).Some?
  {}

  // The keys of a dict encode apart when those of the canonically ordered dict do.
  lemma {:induction false} NormalKeysApart(es: seq<Entry>)
    requires EncodeEntries(es).Some? && |Payloads(Sort(NormalEntries(es)))| == |es|
    requires Encode(Map(Payloads(Sort(NormalEntries(es))))).Some?
    ensures AllDistinct(EncodeEntries(es).value) && Head(5, |es|).Some?
  {
    var ns, ps := NormalEntries(es), EncodeEntries(es).value;
    var fs := Payloads(Sort(ns));
    hide Encode, Normal, Sort, EncodeEntries, AllDistinct;
    EncodeMapIff(fs);
    var qs := EncodeEntries(fs).value;
    EncodedEntries(es);
    EncodedEntries(fs);
    SortMembers(ns);
    forall j | 0 <= j < |fs| ensures qs[j].k == Sort(ns)[j].k { SortedKey(es, fs, qs, j); }
    DistinctIff(qs);
    SortDistinctBack(ns);
    forall i, j | 0 <= i < j < |es| ensures ps[i].k != ps[j].k {
      assert ns[i] == NormalEntry(es[i]) && ns[j] == NormalEntry(es[j]);
      assert EncodeEntry(es[i]) == Some(ps[i]) && EncodeEntry(es[j]) == Some(ps[j]);
    }
    DistinctIff(ps);
  }

  lemma {:induction false} SortedKey(es: seq<Entry>, fs: seq<Entry>, qs: seq<Keyed<Bytes>>, j: nat)
    requires fs == Payloads(Sort(NormalEntries(es))) && |fs| == |es| == |qs| && j < |fs|
    requires forall i :: 0 <= i < |es| ==> EncodeEntry(es[i]).Some?
    requires EncodeEntry(fs[j]) == Some(qs[j])
    ensures qs[j].k == Sort(NormalEntries(es))[j].k
  {
    var ns := NormalEntries(es);
    hide Encode, Normal, Sort;
    SortMembers(ns);
    assert Sort(ns)[j] in multiset(Sort(ns));
    assert Sort(ns)[j] in multiset(ns);
    var i :| 0 <= i < |ns| && ns[i] == Sort(ns)[j];
    assert ns[i] == NormalEntry(es[i]) && EncodeEntry(es[i]).Some?;
    NormalEncodesSame(es[i].key);
    assert fs[j] == ns[i].x;
  }

  lemma {:induction false} NormalEncodesSame(v: Value)
    requires Encode(v).Some?
    ensures Encode(Normal(v)) == Encode(v)
  {
    var b := Encode(v).value;
    hide Encode, Parse, Normal;
    RoundTrip(v, [], false);
    assert b + [] == b;
    Canonical(b, Normal(v), [], false);
    assert b[..|b| - 0] == b;
  }

  // A value and its canonically ordered form have the same encoding, or none.
  lemma {:induction false} EncodeNormal(v: Value)
    ensures Encode(Normal(v)) == Encode(v)
  {
    hide Encode, Normal;
    if Encode(Normal(v)).Some? { EncodableFromNormal(v); }
    if Encode(v).Some? { NormalEncodesSame(v); }
  }

  // ----- decode(encode(v)) == v, and exactly when -----

  lemma {:induction false} StrictIsLenient(s: Bytes, v: Value, t: Bytes)
    requires Parse(s, true) == Read(v, t)
    ensures Parse(s, false) == Read(v, t)
    decreases |s|, 0
  {
    if s[0] / 32 <= 5 {
      var Read(n, u) := ReadArg(s[1..], s[0] % 32);
      if s[0] / 32 == 4 { StrictIsLenientItems(u, n, v.items, t); }
      if s[0] / 32 == 5 { StrictIsLenientEntries(u, n, None, v.entries, t); }
    }
  }

  lemma {:induction false} StrictIsLenientItems(s: Bytes, n: nat, items: seq<Value>, t: Bytes)
    requires ParseItems(s, n, true) == Read(items, t)
    ensures ParseItems(s, n, false) == Read(items, t)
    decreases |s|, 1
  {
    hide Parse;
    if n > 0 {
      var Read(v, u) := Parse(s, true);
      StrictIsLenient(s, v, u);
      StrictIsLenientItems(u, n - 1, ParseItems(u, n - 1, true).value, t);
    }
  }

  lemma {:induction false} StrictIsLenientEntries(s: Bytes, n: nat, prev: Option<Bytes>, es: seq<Entry>, t: Bytes)
    requires ParseEntries(s, n, prev, true) == Read(es, t)
    ensures ParseEntries(s, n, prev, false) == Read(es, t)
    decreases |s|, 1
  {
    hide Parse;
    if n > 0 {
      var Read(k, u) := Parse(s, true);
      var Read(v, w) := Parse(u, true);
      var kb := s[..|s| - |u|];
      StrictIsLenient(s, k, u);
      StrictIsLenient(u, v, w);
      StrictIsLenientEntries(w, n - 1, Some(kb), ParseEntries(w, n - 1, Some(kb), true).value, t);
    }
  }

  lemma {:induction false} NormalScalarKeys(v: Value)
    ensures ScalarKeys(Normal(v)) <==> ScalarKeys(v)
  {
    match v
    case Arr(items) =>
      forall i | 0 <= i < |items| ensures ScalarKeys(Normal(v).items[i]) <==> ScalarKeys(items[i]) {
        NormalScalarKeys(items[i]);
      }
    case Map(es) =>
      var ns := NormalEntries(es);
      PayloadMembers(ns);
      forall i | 0 <= i < |es|
        ensures ns[i].x.key == Normal(es[i].key) && (ScalarKeys(ns[i].x.val) <==> ScalarKeys(es[i].val))
      {
        assert ns[i] == NormalEntry(es[i]);
        NormalEntryScalarKeys(es[i]);
      }
      MapScalarKeys(es, ns);
    case _ =>
  }

  lemma {:induction false} NormalEntryScalarKeys(e: Entry)
    ensures ScalarKeys(Normal(e.val)) <==> ScalarKeys(e.val)
  {
    NormalScalarKeys(e.val);
  }

  lemma {:induction false} MapScalarKeys(es: seq<Entry>, ns: seq<Keyed<Entry>>)
    requires |ns| == |es| && |Sort(ns)| == |ns|
    requires forall i :: 0 <= i < |es| ==>
      Scalar(ns[i].x.key) == Scalar(es[i].key) && ScalarKeys(ns[i].x.val) == ScalarKeys(es[i].val)
    ensures ScalarKeys(Map(Payloads(Sort(ns)))) <==> ScalarKeys(Map(es))
  {
    PayloadMembers(ns);
    hide Sort;
    var ps := Payloads(Sort(ns));
    if ScalarKeys(Map(ps)) {
      forall i | 0 <= i < |es| ensures Scalar(es[i].key) && ScalarKeys(es[i].val) {
        assert ns[i].x in ps;
        var j :| 0 <= j < |ps| && ps[j] == ns[i].x;
      }
    }
    if ScalarKeys(Map(es)) {
      forall j | 0 <= j < |ps| ensures Scalar(ps[j].key) && ScalarKeys(ps[j].val) {
        var i :| 0 <= i < |es| && ns[i].x == ps[j];
      }
    }
  }

  // The decoder takes an encoding back exactly when no map in the value has an array or map key.
  lemma {:induction false} AcceptedIffScalarKeys(v: Value, t: Bytes)
    requires Encode(v).Some?
    ensures Parse(Encode(v).value + t, true) == (if ScalarKeys(v) then Read(Normal(v), t) else Reject)
  {
    hide Parse, Encode, ScalarKeys, Normal;
    var s := Encode(v).value + t;
    if ScalarKeys(v) {
      RoundTrip(v, t, true);
    } else if Parse(s, true).Read? {
      var Read(w, u) := Parse(s, true);
      StrictIsLenient(s, w, u);
      RoundTrip(v, t, false);
      Canonical(s, w, u, true);
      NormalScalarKeys(v);
      assert false;
    }
  }

  // ----- Dicts built while decoding -----

  lemma {:induction false} PutFresh(d: seq<Entry>, k: Value, v: Value)
    requires forall i :: 0 <= i < |d| ==> !SameKey(d[i].key, k)
    ensures Put(d, k, v) == d + [Entry(k, v)]
  {
    if d != [] { PutFresh(d[1..], k, v); }
  }

  lemma {:induction false} PutAllFresh(d: seq<Entry>, es: seq<Entry>)
    requires forall i, j :: 0 <= i < j < |d + es| ==> !SameKey((d + es)[i].key, (d + es)[j].key)
    ensures PutAll(d, es) == d + es
    decreases es
  {
    if es == [] {
      assert d + es == d;
    } else {
      forall i | 0 <= i < |d| ensures !SameKey(d[i].key, es[0].key) {
        assert (d + es)[i] == d[i] && (d + es)[|d|] == es[0];
      }
      PutFresh(d, es[0].key, es[0].val);
      assert es[0] == Entry(es[0].key, es[0].val);
      assert d + es == (d + [es[0]]) + es[1..];
      PutAllFresh(d + [es[0]], es[1..]);
    }
  }

  ghost predicate ClashFree(es: seq<Entry>) {
    forall i, j :: 0 <= i < j < |es| ==> !SameKey(es[i].key, es[j].key)
  }

  lemma {:induction false} PutAllSnoc(d: seq<Entry>, es: seq<Entry>, e: Entry)
    ensures PutAll(d, es + [e]) == Put(PutAll(d, es), e.key, e.val)
    decreases es
  {
    if es == [] {
      assert [] + [e] == [e];
    } else {
      assert (es + [e])[1..] == es[1..] + [e];
      PutAllSnoc(Put(d, es[0].key, es[0].val), es[1..], e);
    }
  }

  lemma {:induction false} PutClashFree(d: seq<Entry>, k: Value, v: Value)
    requires ClashFree(d)
    ensures ClashFree(Put(d, k, v))
    ensures forall i :: 0 <= i < |Put(d, k, v)| ==>
      (Put(d, k, v)[i].val == v || exists j :: 0 <= j < |d| && d[j].val == Put(d, k, v)[i].val)
      && (Put(d, k, v)[i].key == k || exists j :: 0 <= j < |d| && d[j].key == Put(d, k, v)[i].key)
  {
    if d == [] {
    } else if SameKey(d[0].key, k) {
      assert forall i :: 0 < i < |d| ==> Put(d, k, v)[i] == d[i];
    } else {
      PutClashFree(d[1..], k, v);
      var r := Put(d[1..], k, v);
      forall i | 0 <= i < |r| ensures !SameKey(d[0].key, r[i].key) {
        if r[i].key != k {
          var j :| 0 <= j < |d[1..]| && d[1..][j].key == r[i].key;
          assert d[j + 1] == d[1..][j];
        }
      }
    }
  }

  lemma {:induction false} PutAllClashFree(d: seq<Entry>, es: seq<Entry>)
    requires ClashFree(d)
    requires forall i :: 0 <= i < |d| ==> NoClash(d[i].val)
    requires forall i :: 0 <= i < |es| ==> NoClash(es[i].val)
    ensures NoClash(Map(PutAll(d, es)))
    decreases es
  {
    if es != [] {
      PutClashFree(d, es[0].key, es[0].val);
      PutAllClashFree(Put(d, es[0].key, es[0].val), es[1..]);
    }
  }

  // Decoding always builds proper dicts.
  lemma {:induction false} CollapseNoClash(v: Value)
    ensures NoClash(Collapse(v))
  {
    match v
    case Arr(items) => CollapseItemsNoClash(items);
    case Map(es) =>
      CollapseEntriesNoClash(es);
      PutAllClashFree([], CollapseEntries(es));
    case _ =>
  }

  lemma {:induction false} CollapseItemsNoClash(items: seq<Value>)
    ensures forall i :: 0 <= i < |CollapseItems(items)| ==> NoClash(CollapseItems(items)[i])
  {
    if items != [] {
      CollapseNoClash(items[0]);
      CollapseItemsNoClash(items[1..]);
    }
  }

  lemma {:induction false} CollapseEntriesNoClash(es: seq<Entry>)
    ensures forall i :: 0 <= i < |CollapseEntries(es)| ==> NoClash(CollapseEntries(es)[i].val)
  {
    if es != [] {
      CollapseEntryNoClash(es[0]);
      CollapseEntriesNoClash(es[1..]);
    }
  }

  lemma {:induction false} CollapseEntryNoClash(e: Entry)
    ensures NoClash(CollapseEntry(e).val)
  {
    CollapseNoClash(e.val);
  }

  lemma {:induction false} CollapseFixed(v: Value)
    requires NoClash(v)
    ensures Collapse(v) == v
  {
    match v
    case Arr(items) => CollapseItemsFixed(items);
    case Map(es) =>
      CollapseEntriesFixed(es);
      assert [] + es == es;
      PutAllFresh([], es);
    case _ =>
  }

  lemma {:induction false} CollapseItemsFixed(items: seq<Value>)
    requires forall i :: 0 <= i < |items| ==> NoClash(items[i])
    ensures CollapseItems(items) == items
  {
    if items != [] {
      CollapseFixed(items[0]);
      CollapseItemsFixed(items[1..]);
    }
  }

  lemma {:induction false} CollapseEntriesFixed(es: seq<Entry>)
    requires forall i :: 0 <= i < |es| ==> NoClash(es[i].val)
    ensures CollapseEntries(es) == es
  {
    if es != [] {
      CollapseEntryFixed(es[0]);
      CollapseEntriesFixed(es[1..]);
    }
  }

  lemma {:induction false} CollapseEntryFixed(e: Entry)
    requires NoClash(e.val)
    ensures CollapseEntry(e) == e
  {
    CollapseFixed(e.val);
  }

  // Listing the items of proper dicts in canonical order keeps the dicts proper.
  lemma {:induction false} NormalNoClash(v: Value)
    requires NoClash(v) && ScalarKeys(v)
    ensures NoClash(Normal(v))
  {
    match v
    case Arr(items) =>
      forall i | 0 <= i < |items| ensures NoClash(Normal(v).items[i]) { NormalNoClash(items[i]); }
    case Map(es) =>
      var ns := NormalEntries(es);
      forall i | 0 <= i < |es| ensures ns[i].x.key == es[i].key && NoClash(ns[i].x.val) {
        assert ns[i] == NormalEntry(es[i]);
        NormalEntryNoClash(es[i]);
      }
      SortedClashFree(ns);
    case _ =>
  }

  lemma {:induction false} NormalEntryNoClash(e: Entry)
    requires NoClash(e.val) && ScalarKeys(e.val)
    ensures NoClash(Normal(e.val))
  {
    NormalNoClash(e.val);
  }

  lemma {:induction false} SortedClashFree(ns: seq<Keyed<Entry>>)
    requires forall i, j :: 0 <= i < j < |ns| ==> !SameKey(ns[i].x.key, ns[j].x.key)
    requires forall i :: 0 <= i < |ns| ==> NoClash(ns[i].x.val)
    ensures NoClash(Map(Payloads(Sort(ns))))
    decreases |ns|
  {
    if ns != [] {
      SortedClashFree(ns[1..]);
      PayloadMembers(ns[1..]);
      var s := Sort(ns[1..]);
      forall i | 0 <= i < |s| ensures !SameKey(ns[0].x.key, s[i].x.key) {
        assert Payloads(s)[i] == s[i].x;
        var j :| 0 <= j < |ns[1..]| && ns[1..][j].x == Payloads(s)[i];
        assert ns[j + 1] == ns[1..][j];
      }
      forall i, j | 0 <= i < j < |s| ensures !SameKey(s[i].x.key, s[j].x.key) {
        assert Payloads(s)[i] == s[i].x && Payloads(s)[j] == s[j].x;
      }
      forall i | 0 <= i < |s| ensures NoClash(s[i].x.val) { assert Payloads(s)[i] == s[i].x; }
      InsertClashFree(ns[0], s);
    }
  }

  lemma {:induction false} InsertClashFree(e: Keyed<Entry>, s: seq<Keyed<Entry>>)
    requires forall i :: 0 <= i < |s| ==> !SameKey(e.x.key, s[i].x.key) && NoClash(s[i].x.val)
    requires forall i, j :: 0 <= i < j < |s| ==> !SameKey(s[i].x.key, s[j].x.key)
    requires NoClash(e.x.val)
    ensures NoClash(Map(Payloads(Insert(e, s))))
    ensures forall i :: 0 <= i < |Insert(e, s)| ==> Insert(e, s)[i] == e || Insert(e, s)[i] in s
  {
    if s == [] || !Less(s[0].k, e.k) {
    } else {
      InsertClashFree(e, s[1..]);
      var r := Insert(e, s[1..]);
      hide SameKey;
      forall i | 0 <= i < |r| ensures !SameKey(s[0].x.key, r[i].x.key) {
        if r[i] != e {
          var j :| 0 <= j < |s[1..]| && s[1..][j] == r[i];
          assert s[j + 1] == r[i];
        }
      }
      assert Insert(e, s) == [s[0]] + r;
      hide Insert;
      ClashFreeCons(s[0], r);
    }
  }

  lemma {:induction false} ClashFreeCons(d: Keyed<Entry>, r: seq<Keyed<Entry>>)
    requires NoClash(Map(Payloads(r))) && NoClash(d.x.val)
    requires forall i :: 0 <= i < |r| ==> !SameKey(d.x.key, r[i].x.key)
    ensures NoClash(Map(Payloads([d] + r)))
  {
    hide SameKey;
    assert Payloads([d] + r) == [d.x] + Payloads(r);
  }

  // decode(encode(v)) is v again (its dicts listed in canonical order), or an error when some
  // dict of v has a tuple as key.
  lemma {:induction false} EncodeDecode(v: Value)
    requires NoClash(v) && Encode(v).Some?
    ensures Decode(Encode(v).value) == (if ScalarKeys(v) then Some(Normal(v)) else None)
    ensures Same(v, Normal(v))
  {
    var b := Encode(v).value;
    AcceptedIffScalarKeys(v, []);
    assert b + [] == b;
    RoundTrip(v, [], false);
    Canonical(b, Normal(v), [], false);
    NormalEqualSame(v, Normal(v));
    if ScalarKeys(v) {
      NormalNoClash(v);
      CollapseFixed(Normal(v));
    }
  }

  // encode(decode(data)) == data holds exactly when no map on the wire carries two keys that
  // Python's dict identifies (1 and true, or 0 and false).
  lemma {:induction false} DecodeEncode(data: Bytes)
    requires Decode(data).Some?
    ensures Parse(data, true).Read?
    ensures Encode(Decode(data).value) == Some(data) <==> NoClash(Parse(data, true).value)
  {
    hide Parse, Encode;
    var Read(v, rest) := Parse(data, true);
    var w := Collapse(v);
    Canonical(data, v, rest, true);
    assert data[..|data|] == data;
    if NoClash(v) {
      CollapseFixed(v);
    }
    if Encode(w) == Some(data) {
      AcceptedIffScalarKeys(w, []);
      assert data + [] == data;
      CollapseNoClash(v);
      NormalNoClash(w);
    }
  }

  // 1 and true on the wire become one key: the bytes are accepted, and re-encode differently.
  lemma {:induction false} ClashExample()
    ensures Decode([0xA2, 0x01, 0x05, 0xF5, 0x06]) == Some(Map([Entry(Int(1), Int(6))]))
    ensures Encode(Map([Entry(Int(1), Int(6))])) != Some([0xA2, 0x01, 0x05, 0xF5, 0x06])
  {
    hide Encode, Parse, Same;
    var d: Bytes := [0xA2, 0x01, 0x05, 0xF5, 0x06];
    var es := [Entry(Int(1), Int(5)), Entry(Bool(true), Int(6))];
    ClashParsed();
    assert CollapseEntries(es[1..]) == es[1..];
    assert Put([es[0]], Bool(true), Int(6)) == [Entry(Int(1), Int(6))];
    assert PutAll([es[0]], es[1..]) == [Entry(Int(1), Int(6))];
    if Encode(Map([Entry(Int(1), Int(6))])) == Some(d) { DecodeEncode(d); }
  }

  lemma {:induction false} ClashParsed()
    ensures Parse([0xA2, 0x01, 0x05, 0xF5, 0x06], true)
         == Read(Map([Entry(Int(1), Int(5)), Entry(Bool(true), Int(6))]), [])
  {
    var d: Bytes := [0xA2, 0x01, 0x05, 0xF5, 0x06];
    hide Parse, ParseEntries;
    assert d[1..] == [0x01, 0x05, 0xF5, 0x06];
    FirstEntry();
    FramedReads(5, 2, d[1..], true);
    assert [0xA2] + d[1..] == d;
  }

  lemma {:induction false} FirstEntry()
    ensures ParseEntries([0x01, 0x05, 0xF5, 0x06], 2, None, true)
         == Read([Entry(Int(1), Int(5)), Entry(Bool(true), Int(6))], [])
  {
    var d: Bytes := [0x01, 0x05, 0xF5, 0x06];
    hide Parse, ParseEntries;
    assert d[1..] == [0x05, 0xF5, 0x06] && d[1..][1..] == [0xF5, 0x06] && d[..1] == [0x01];
    OneByte(d);
    OneByte(d[1..]);
    SecondEntry();
    EntryThen(d, 2, Int(1), d[1..], Int(5), [0xF5, 0x06], [Entry(Bool(true), Int(6))]);
    assert [Entry(Int(1), Int(5))] + [Entry(Bool(true), Int(6))] == [Entry(Int(1), Int(5)), Entry(Bool(true), Int(6))];
  }

  // A first entry, its key and value parsed, and the entries after it.
  lemma {:induction false} EntryThen(d: Bytes, n: nat, k: Value, t: Bytes, v: Value, u: Bytes, es: seq<Entry>)
    requires n > 0 && Parse(d, true) == Read(k, t) && Scalar(k) && Parse(t, true) == Read(v, u)
    requires ParseEntries(u, n - 1, Some(d[..|d| - |t|]), true) == Read(es, [])
    ensures ParseEntries(d, n, None, true) == Read([Entry(k, v)] + es, [])
  {
    hide Parse;
  }

  lemma {:induction false} SecondEntry()
    ensures ParseEntries([0xF5, 0x06], 1, Some([0x01]), true) == Read([Entry(Bool(true), Int(6))], [])
  {
    var d: Bytes := [0xF5, 0x06];
    hide Parse;
    assert d[1..] == [0x06] && d[1..][1..] == [] && d[..1] == [0xF5];
    OneByte(d);
    OneByte(d[1..]);
    assert ParseEntries([], 0, Some([0xF5]), true) == Read([], []);
    var f := Entry(Bool(true), Int(6));
    assert [f] + [] == [f];
  }

  lemma {:induction false} OneByte(s: Bytes)
    requires s != []
    ensures s[0] < 24 ==> Parse(s, true) == Read(Int(s[0]), s[1..])
    ensures s[0] == 0xF5 ==> Parse(s, true) == Read(Bool(true), s[1..])
  {}
}
