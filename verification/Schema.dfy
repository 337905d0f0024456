/** String-keyed maps as records: building them field by field, reading fields by name. */
module Schema {
  import opened Base
  import opened Cbor
  import opened CborTheorems

  function Ascii(s: string): (t: Text)
    requires forall i :: 0 <= i < |s| ==> s[i] as int < 128
    ensures |t| == |s| && forall i :: 0 <= i < |s| ==> t[i] == s[i] as int
  {
    var b := seq(|s|, i requires 0 <= i < |s| => s[i] as int);
    AsciiIsUtf8(b);
    b
  }

  function Key(s: string): Value
    requires forall i :: 0 <= i < |s| ==> s[i] as int < 128
  {
    Tstr(Ascii(s))
  }

  // d.get(k) on a dict with string keys: the value, or None when the key is missing.
  function Get(es: seq<Entry>, k: Value): Option<Value> {
    if es == [] then None
    else if es[0].key == k then Some(es[0].val)
    else Get(es[1..], k)
  }

  // No key outside the allowed ones.
  predicate Only(es: seq<Entry>, allowed: seq<Value>) {
    forall i :: 0 <= i < |es| ==> es[i].key in allowed
  }

  // A field the reader takes as missing: no such key, or an explicit null.
  predicate Absent(x: Option<Value>) {
    x.None? || x.value.Null?
  }

  // The dict with the given keys, in this order, leaving out those without a value.
  function Fields(keys: seq<Value>, vals: seq<Option<Value>>): seq<Entry>
    requires |keys| == |vals|
  {
    if keys == [] then []
    else if vals[0].None? then Fields(keys[1..], vals[1..])
    else [Entry(keys[0], vals[0].value)] + Fields(keys[1..], vals[1..])
  }

  ghost predicate Distinct<T(!new)>(s: seq<T>) {
    forall i, j :: 0 <= i < j < |s| ==> s[i] != s[j]
  }

  ghost predicate TextKeyed(es: seq<Entry>) {
    && (forall i :: 0 <= i < |es| ==> es[i].key.Tstr?)
    && (forall i, j :: 0 <= i < j < |es| ==> es[i].key != es[j].key)
  }

  lemma {:induction false} GetMember(es: seq<Entry>, k: Value)
    requires TextKeyed(es)
    ensures Get(es, k).Some? ==> Entry(k, Get(es, k).value) in es
    ensures Get(es, k).None? ==> forall i :: 0 <= i < |es| ==> es[i].key != k
    ensures forall i :: 0 <= i < |es| && es[i].key == k ==> Get(es, k) == Some(es[i].val)
  {
    if es != [] {
      GetMember(es[1..], k);
      assert es[0] == Entry(es[0].key, es[0].val);
      assert forall i :: 0 < i < |es| ==> es[1..][i - 1] == es[i];
    }
  }

  lemma {:induction false} FieldsHave(keys: seq<Value>, vals: seq<Option<Value>>)
    requires |keys| == |vals| && Distinct(keys)
    requires forall i :: 0 <= i < |keys| ==> keys[i].Tstr?
    ensures TextKeyed(Fields(keys, vals)) && Only(Fields(keys, vals), keys)
    ensures forall i :: 0 <= i < |keys| ==> Get(Fields(keys, vals), keys[i]) == vals[i]
    ensures forall k :: k !in keys ==> Get(Fields(keys, vals), k) == None
  {
    if keys != [] {
      FieldsHave(keys[1..], vals[1..]);
      var rest := Fields(keys[1..], vals[1..]);
      var fs := Fields(keys, vals);
      if vals[0].Some? { assert fs[1..] == rest; }
      assert forall i :: 0 < i < |keys| ==> keys[1..][i - 1] == keys[i] && vals[1..][i - 1] == vals[i];
      assert keys[0] !in keys[1..];
      forall i | 0 <= i < |keys| ensures Get(fs, keys[i]) == vals[i] {
        if i > 0 { assert Get(rest, keys[1..][i - 1]) == vals[1..][i - 1]; }
      }
      forall k | k !in keys ensures Get(fs, k) == None { assert k !in keys[1..]; }
    }
  }

  function NormalField(x: Option<Value>): Option<Value> {
    if x.None? then None else Some(Normal(x.value))
  }

  // Reading a field of the canonically ordered dict gives the canonical form of the field.
  lemma {:induction false} NormalGet(es: seq<Entry>, allowed: seq<Value>)
    requires TextKeyed(es)
    ensures TextKeyed(Normal(Map(es)).entries)
    ensures forall k :: Get(Normal(Map(es)).entries, k) == NormalField(Get(es, k))
    ensures Only(Normal(Map(es)).entries, allowed) <==> Only(es, allowed)
  {
    NormalTextKeyed(es);
    hide Normal, Get, TextKeyed, Only;
    forall k ensures Get(Normal(Map(es)).entries, k) == NormalField(Get(es, k)) {
      NormalGetAt(es, k);
    }
    NormalOnly(es, allowed);
  }

  // An item of a dict, and its counterpart in the canonically ordered dict.
  lemma {:induction false} NormalItem(es: seq<Entry>, i: nat)
    requires i < |es|
    ensures Entry(Normal(es[i].key), Normal(es[i].val)) in Normal(Map(es)).entries
  {
    var ns := NormalEntries(es);
    PayloadMembers(ns);
    assert ns[i] == NormalEntry(es[i]);
    hide Sort, NormalEntries;
    assert ns[i].x in Payloads(Sort(ns));
  }

  lemma {:induction false} NormalItemBack(es: seq<Entry>, j: nat) returns (i: nat)
    requires j < |Normal(Map(es)).entries|
    ensures i < |es| && Normal(Map(es)).entries[j] == Entry(Normal(es[i].key), Normal(es[i].val))
  {
    var ns := NormalEntries(es);
    PayloadMembers(ns);
    hide Sort;
    i :| 0 <= i < |ns| && ns[i].x == Payloads(Sort(ns))[j];
    assert ns[i] == NormalEntry(es[i]);
  }

  lemma {:induction false} TextIsNormal(v: Value)
    requires v.Tstr?
    ensures Normal(v) == v
  {}

  lemma {:induction false} NormalGetAt(es: seq<Entry>, k: Value)
    requires TextKeyed(es) && TextKeyed(Normal(Map(es)).entries)
    ensures Get(Normal(Map(es)).entries, k) == NormalField(Get(es, k))
  {
    var fs := Normal(Map(es)).entries;
    GetMember(es, k);
    GetMember(fs, k);
    hide Normal, Get;
    if Get(es, k).Some? {
      var i :| 0 <= i < |es| && es[i] == Entry(k, Get(es, k).value);
      NormalItem(es, i);
      TextIsNormal(k);
      var j :| 0 <= j < |fs| && fs[j] == Entry(k, Normal(es[i].val));
    }
    if Get(fs, k).Some? {
      var j :| 0 <= j < |fs| && fs[j] == Entry(k, Get(fs, k).value);
      var i := NormalItemBack(es, j);
      TextIsNormal(es[i].key);
      assert Get(es, k) == Some(es[i].val);
    }
  }

  lemma {:induction false} NormalOnly(es: seq<Entry>, allowed: seq<Value>)
    requires TextKeyed(es)
    ensures Only(Normal(Map(es)).entries, allowed) <==> Only(es, allowed)
  {
    var fs := Normal(Map(es)).entries;
    hide Normal;
    if Only(es, allowed) {
      forall j | 0 <= j < |fs| ensures fs[j].key in allowed {
        var i := NormalItemBack(es, j);
        TextIsNormal(es[i].key);
      }
    }
    if Only(fs, allowed) {
      forall i | 0 <= i < |es| ensures es[i].key in allowed {
        NormalItem(es, i);
        TextIsNormal(es[i].key);
        var j :| 0 <= j < |fs| && fs[j] == Entry(es[i].key, Normal(es[i].val));
      }
    }
  }

  lemma {:induction false} NormalTextKeyed(es: seq<Entry>)
    requires TextKeyed(es)
    ensures TextKeyed(Normal(Map(es)).entries)
  {
    var ns := NormalEntries(es);
    forall i | 0 <= i < |ns| ensures ns[i].x.key == es[i].key {
      assert ns[i] == NormalEntry(es[i]);
      TextIsNormal(es[i].key);
    }
    SortedTextKeyed(ns);
  }

  lemma {:induction false} SortedTextKeyed(ns: seq<Keyed<Entry>>)
    requires forall i :: 0 <= i < |ns| ==> ns[i].x.key.Tstr?
    requires forall i, j :: 0 <= i < j < |ns| ==> ns[i].x.key != ns[j].x.key
    ensures TextKeyed(Payloads(Sort(ns)))
    decreases |ns|
  {
    var plain := seq(|ns|, i requires 0 <= i < |ns| => Keyed(ns[i].k, Entry(ns[i].x.key, Null)));
    SortRelated(ns, plain, (e: Entry, f: Entry) => e.key == f.key);
    assert NoClash(Map(Payloads(Sort(plain)))) by {
      forall i, j | 0 <= i < j < |plain| ensures !SameKey(plain[i].x.key, plain[j].x.key) {}
      SortedClashFree(plain);
    }
    PayloadMembers(ns);
    var s := Payloads(Sort(ns));
    forall i | 0 <= i < |s| ensures s[i].key.Tstr? { var j :| 0 <= j < |ns| && ns[j].x == s[i]; }
    forall i, j | 0 <= i < j < |s| ensures s[i].key != s[j].key {
      assert !SameKey(Payloads(Sort(plain))[i].key, Payloads(Sort(plain))[j].key);
    }
  }

  // Two string-keyed dicts with the same fields are the same value in canonical form.
  lemma {:induction false} NormalByFields(es: seq<Entry>, fs: seq<Entry>, allowed: seq<Value>)
    requires TextKeyed(es) && TextKeyed(fs) && Only(es, allowed) && Only(fs, allowed)
    requires Names(allowed)
    requires forall i :: 0 <= i < |allowed| ==> NormalField(Get(es, allowed[i])) == NormalField(Get(fs, allowed[i]))
    ensures Normal(Map(es)) == Normal(Map(fs))
  {
    var ns, ms := NormalEntries(es), NormalEntries(fs);
    FieldsSubset(es, fs, allowed);
    FieldsSubset(fs, es, allowed);
    KeysEncodeApart(es, allowed);
    KeysEncodeApart(fs, allowed);
    SortForgetsOrder(ns, ms);
  }

  lemma {:induction false} FieldsSubset(es: seq<Entry>, fs: seq<Entry>, allowed: seq<Value>)
    requires TextKeyed(es) && TextKeyed(fs) && Only(es, allowed)
    requires forall i :: 0 <= i < |allowed| ==> NormalField(Get(es, allowed[i])) == NormalField(Get(fs, allowed[i]))
    ensures forall i :: 0 <= i < |es| ==> NormalEntries(es)[i] in NormalEntries(fs)
  {
    hide Get, Normal, Encode;
    forall i | 0 <= i < |es| ensures NormalEntries(es)[i] in NormalEntries(fs) {
      var k := es[i].key;
      var a :| 0 <= a < |allowed| && allowed[a] == k;
      GetMember(es, k);
      GetMember(fs, k);
      assert Get(es, allowed[a]) == Some(es[i].val);
      var j :| 0 <= j < |fs| && fs[j] == Entry(k, Get(fs, k).value);
      assert NormalEntries(es)[i] == NormalEntry(es[i]) && NormalEntries(fs)[j] == NormalEntry(fs[j]);
    }
  }

  // Field names: distinct, and short enough for one-byte heads.
  ghost predicate Names(keys: seq<Value>) {
    && Distinct(keys)
    && forall i :: 0 <= i < |keys| ==> keys[i].Tstr? && |keys[i].text| < 24
  }

  // A key as a number: its length, first and last byte.
  function Code(v: Value): int {
    if v.Tstr? && v.text != [] then |v.text| * 0x10000 + v.text[0] as int * 0x100 + v.text[|v.text| - 1] as int
    else 0
  }

  lemma {:induction false} CodeOf(s: string)
    requires s != [] && forall i :: 0 <= i < |s| ==> s[i] as int < 128
    ensures Code(Key(s)) == |s| * 0x10000 + s[0] as int * 0x100 + s[|s| - 1] as int
  {}

  lemma {:induction false} NamesByCode(keys: seq<Value>, codes: seq<int>)
    requires |keys| == |codes| && Distinct(codes)
    requires forall i :: 0 <= i < |keys| ==> Code(keys[i]) == codes[i] && 0 < codes[i] < 0x180000
    ensures Names(keys)
  {
    forall i | 0 <= i < |keys| ensures keys[i].Tstr? && |keys[i].text| < 24 {}
    forall i, j | 0 <= i < j < |keys| ensures keys[i] != keys[j] {}
  }

  // A record written out, in either order, has the fields it was given.
  lemma {:induction false} RecordReads(keys: seq<Value>, vals: seq<Option<Value>>)
    requires |keys| == |vals| && Names(keys)
    ensures var es, fs := Fields(keys, vals), Normal(Map(Fields(keys, vals))).entries;
      && Only(es, keys) && Only(fs, keys)
      && forall i :: 0 <= i < |keys| ==> Get(es, keys[i]) == vals[i] && Get(fs, keys[i]) == NormalField(vals[i])
  {
    FieldsHave(keys, vals);
    NormalGet(Fields(keys, vals), keys);
  }

  // A record in canonical order equals the one written from vals exactly when its fields are vals.
  lemma {:induction false} RecordEqual(es: seq<Entry>, keys: seq<Value>, vals: seq<Option<Value>>)
    requires |keys| == |vals| && Names(keys)
    requires TextKeyed(es) && Only(es, keys) && Normal(Map(es)) == Map(es)
    ensures Normal(Map(Fields(keys, vals))) == Map(es)
      <==> forall i :: 0 <= i < |keys| ==> NormalField(vals[i]) == Get(es, keys[i])
  {
    var fs := Fields(keys, vals);
    FieldsHave(keys, vals);
    NormalGet(fs, keys);
    NormalGet(es, keys);
    if forall i :: 0 <= i < |keys| ==> NormalField(vals[i]) == Get(es, keys[i]) {
      NormalByFields(fs, es, keys);
    }
  }

  // The fields named by keys, in that order.
  function Project(es: seq<Entry>, keys: seq<Value>): (r: seq<Option<Value>>)
    ensures |r| == |keys|
  {
    seq(|keys|, i requires 0 <= i < |keys| => Get(es, keys[i]))
  }

  function NormalAll(vals: seq<Option<Value>>): (r: seq<Option<Value>>)
    ensures |r| == |vals|
  {
    seq(|vals|, i requires 0 <= i < |vals| => NormalField(vals[i]))
  }

  lemma {:induction false} RecordProject(keys: seq<Value>, vals: seq<Option<Value>>)
    requires |keys| == |vals| && Names(keys)
    ensures Only(Fields(keys, vals), keys) && Project(Fields(keys, vals), keys) == vals
    ensures var fs := Normal(Map(Fields(keys, vals)));
      fs.Map? && Only(fs.entries, keys) && Project(fs.entries, keys) == NormalAll(vals)
  {
    RecordReads(keys, vals);
  }

  lemma {:induction false} RecordSame(es: seq<Entry>, keys: seq<Value>, vals: seq<Option<Value>>)
    requires |keys| == |vals| && Names(keys)
    requires TextKeyed(es) && Only(es, keys) && Normal(Map(es)) == Map(es)
    ensures Normal(Map(Fields(keys, vals))) == Map(es) <==> NormalAll(vals) == Project(es, keys)
  {
    hide Names, TextKeyed, Only, Normal, Fields, NormalField, Get;
    RecordEqual(es, keys, vals);
    if NormalAll(vals) == Project(es, keys) {
      forall i | 0 <= i < |keys| ensures NormalField(vals[i]) == Get(es, keys[i]) {
        assert NormalAll(vals)[i] == Project(es, keys)[i];
      }
    }
    if Normal(Map(Fields(keys, vals))) == Map(es) {
      assert NormalAll(vals) == Project(es, keys);
    }
  }

  lemma {:induction false} ProjectNormal(v: Value, keys: seq<Value>)
    requires v.Map? && TextKeyed(v.entries) && Normal(v) == v && NoClash(v)
    ensures NormalAll(Project(v.entries, keys)) == Project(v.entries, keys)
    ensures forall i :: 0 <= i < |keys| && Project(v.entries, keys)[i].Some? ==>
      NoClash(Project(v.entries, keys)[i].value)
  {
    hide TextKeyed, Normal, Get, NoClash, NormalField;
    forall i | 0 <= i < |keys| ensures NormalField(Get(v.entries, keys[i])) == Get(v.entries, keys[i])
      && (Get(v.entries, keys[i]).Some? ==> NoClash(Get(v.entries, keys[i]).value))
    {
      NormalFields(v, keys[i]);
    }
  }

  lemma {:induction false} RecordTextKeyed(v: Value, keys: seq<Value>)
    requires v.Map? && NoClash(v) && Only(v.entries, keys) && Names(keys)
    ensures TextKeyed(v.entries)
  {}

  // The fields of a dict in canonical order are themselves in canonical order.
  lemma {:induction false} NormalFields(v: Value, k: Value)
    requires v.Map? && TextKeyed(v.entries) && Normal(v) == v && NoClash(v)
    ensures NormalField(Get(v.entries, k)) == Get(v.entries, k)
    ensures Get(v.entries, k).Some? ==> NoClash(Get(v.entries, k).value)
  {
    NormalGet(v.entries, []);
    GetMember(v.entries, k);
  }

  lemma {:induction false} KeysEncodeApart(es: seq<Entry>, allowed: seq<Value>)
    requires TextKeyed(es) && Only(es, allowed)
    requires Names(allowed)
    ensures DistinctKeys(NormalEntries(es))
  {
    var ns := NormalEntries(es);
    hide Encode, Same;
    forall i, j | 0 <= i < j < |es| ensures ns[i].k != ns[j].k {
      assert ns[i] == NormalEntry(es[i]) && ns[j] == NormalEntry(es[j]);
      assert es[i].key in allowed && es[j].key in allowed;
      NameEncodes(es[i].key);
      NameEncodes(es[j].key);
      EncodeInjective(es[i].key, es[j].key);
      SameText(es[i].key, es[j].key);
    }
  }

  lemma {:induction false} NameEncodes(k: Value)
    requires k.Tstr? && |k.text| < 24
    ensures Encode(k).Some?
  {}

  lemma {:induction false} SameText(v: Value, w: Value)
    requires v.Tstr? && w.Tstr?
    ensures Same(v, w) <==> v == w
  {}
}
