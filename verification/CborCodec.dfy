/** The codec as it runs: appending to a shared buffer, and advancing an offset through the input. */
module CborCodec {
  import opened Base
  import opened Cbor
  import opened CborLaws
  import opened CborTheorems

  class Buffer {
    var bytes: Bytes

    constructor ()
      ensures bytes == []
    {
      bytes := [];
    }

    method Extend(more: Bytes)
      modifies this
      ensures bytes == old(bytes) + more
    {
      bytes := bytes + more;
    }
  }

  method EncodeValue(value: Value) returns (r: Option<Bytes>)
    ensures r == Encode(value)
    decreases value, 1
  {
    var out := new Buffer();
    var ok := EncodeInto(value, out);
    assert ok ==> [] + Encode(value).value == Encode(value).value;
    r := if ok then Some(out.bytes) else None;
  }

  // Appends the encoding of value, or reports the error; what was in the buffer before stays.
  method EncodeInto(value: Value, out: Buffer) returns (ok: bool)
    modifies out
    ensures ok <==> Encode(value).Some?
    ensures ok ==> out.bytes == old(out.bytes) + Encode(value).value
    decreases value, 0
  {
    match value
    case Bool(b) => out.Extend([if b then 0xF5 else 0xF4]); return true;
    case Null => out.Extend([0xF6]); return true;
    case Float(_) => return false;
    case Int(i) =>
      var h := if i >= 0 then Head(0, i) else Head(1, -1 - i);
      if h.None? { return false; }
      out.Extend(h.value);
      return true;
    case Bstr(b) => ok := ExtendString(2, b, out);
    case Tstr(t) => ok := ExtendString(3, t, out);
    case Arr(items) =>
      var h := Head(4, |items|);
      if h.None? { return false; }
      out.Extend(h.value);
      ok := EncodeItemsInto(items, out);
    case Map(entries) =>
      ok := EncodeMapInto(entries, out);
  }

  method ExtendString(major: nat, b: Bytes, out: Buffer) returns (ok: bool)
    requires major < 8
    modifies out
    ensures ok <==> Head(major, |b|).Some?
    ensures ok ==> out.bytes == old(out.bytes) + (Head(major, |b|).value + b)
  {
    var h := Head(major, |b|);
    if h.None? { return false; }
    out.Extend(h.value);
    out.Extend(b);
    return true;
  }

  method EncodeItemsInto(items: seq<Value>, out: Buffer) returns (ok: bool)
    modifies out
    ensures ok <==> EncodeItems(items).Some?
    ensures ok ==> out.bytes == old(out.bytes) + EncodeItems(items).value
    decreases items
  {
    ghost var start := out.bytes;
    for i := 0 to |items|
      invariant EncodeItems(items[..i]).Some?
      invariant out.bytes == start + EncodeItems(items[..i]).value
    {
      EncodeItemsSplit(items, i);
      ok := EncodeInto(items[i], out);
      if !ok { return; }
    }
    assert items[..|items|] == items;
    return true;
  }

  lemma {:induction false} EncodeItemsSnoc(items: seq<Value>, v: Value)
    ensures EncodeItems(items + [v]) == Append(EncodeItems(items), Encode(v))
  {
    hide Encode, Append;
    if items == [] {
      assert [] + [v] == [v] && [v][1..] == [];
      AppendNothing(Encode(v));
    } else {
      EncodeItemsSnoc(items[1..], v);
      assert (items + [v])[0] == items[0] && (items + [v])[1..] == items[1..] + [v];
      AppendAssociative(Encode(items[0]), EncodeItems(items[1..]), Encode(v));
    }
  }

  lemma {:induction false} AppendAssociative(a: Option<Bytes>, b: Option<Bytes>, c: Option<Bytes>)
    ensures Append(a, Append(b, c)) == Append(Append(a, b), c)
  {
    if a.Some? && b.Some? && c.Some? { assert a.value + (b.value + c.value) == a.value + b.value + c.value; }
  }

  lemma {:induction false} AppendNothing(a: Option<Bytes>)
    ensures Append(Some([]), a) == Append(a, Some([])) == a
  {
    if a.Some? { assert a.value + [] == [] + a.value == a.value; }
  }

  lemma {:induction false} EncodeItemsSplit(items: seq<Value>, i: nat)
    requires i < |items|
    ensures EncodeItems(items[..i + 1]) == Append(EncodeItems(items[..i]), Encode(items[i]))
    ensures Encode(items[i]).None? ==> EncodeItems(items).None?
  {
    assert items[..i + 1] == items[..i] + [items[i]];
    EncodeItemsSnoc(items[..i], items[i]);
    if Encode(items[i]).None? { EncodeItemsNone(items, i); }
  }

  lemma {:induction false} EncodeItemsNone(items: seq<Value>, i: nat)
    requires i < |items| && Encode(items[i]).None?
    ensures EncodeItems(items).None?
  {
    if i > 0 { EncodeItemsNone(items[1..], i - 1); }
  }

  // The pairs a list of encoded keys and values denotes.
  ghost function Encoded(items: seq<Keyed<Value>>): (r: seq<Keyed<Bytes>>)
    ensures |r| == |items|
  {
    seq(|items|, i requires 0 <= i < |items| => Keyed(items[i].k, Encode(items[i].x).GetOr([])))
  }

  method EncodeMapInto(entries: seq<Entry>, out: Buffer) returns (ok: bool)
    modifies out
    ensures ok <==> Encode(Map(entries)).Some?
    ensures ok ==> out.bytes == old(out.bytes) + Encode(Map(entries)).value
    decreases entries
  {
    hide Encode, EncodeEntries, Sort, Flatten;
    var items: seq<Keyed<Value>> := [];
    for i := 0 to |entries|
      invariant |items| == i
      invariant forall j :: 0 <= j < i ==> Encode(entries[j].key) == Some(items[j].k) && items[j].x == entries[j].val
      invariant DistinctKeys(items)
      invariant out.bytes == old(out.bytes)
    {
      var ek := EncodeKey(entries[i]);
      if ek.None? {
        EncodeMapFails(entries, i);
        return false;
      }
      if HasKey(items, ek.value) {
        EncodeMapDuplicate(entries, i);
        return false;
      }
      items := items + [Keyed(ek.value, entries[i].val)];
    }
    var sorted := Sort(items);
    SortMembers(items);
    var h := Head(5, |items|);
    if h.None? {
      EncodeMapUnfold(entries, items);
      return false;
    }
    out.Extend(h.value);
    ghost var start := out.bytes;
    FlattenNone(sorted);
    for i := 0 to |sorted|
      invariant forall j :: 0 <= j < i ==> Encode(sorted[j].x).Some?
      invariant out.bytes == start + Flatten(Encoded(sorted[..i]))
    {
      ghost var j := SortedItem(entries, items, i);
      EntryValueSmaller(entries, j);
      out.Extend(sorted[i].k);
      ok := EncodeInto(sorted[i].x, out);
      if !ok {
        EncodeMapFails(entries, j);
        return;
      }
      FlattenStep(sorted, i);
    }
    assert sorted[..|sorted|] == sorted;
    forall j | 0 <= j < |items| ensures Encode(items[j].x).Some? {
      assert items[j] in multiset(items);
      assert items[j] in multiset(sorted);
      ghost var i :| 0 <= i < |sorted| && sorted[i] == items[j];
    }
    EncodeMapUnfold(entries, items);
    return true;
  }

  method EncodeKey(e: Entry) returns (r: Option<Bytes>)
    ensures r == Encode(e.key)
    decreases e
  {
    r := EncodeValue(e.key);
  }

  lemma {:induction false} EntryValueSmaller(entries: seq<Entry>, j: nat)
    requires j < |entries|
    ensures entries[j].val < entries[j]
    ensures (entries decreases to entries[j].val)
  {
    var e := entries[j];
    assert e == Entry(e.key, e.val);
  }

  lemma {:induction false} SortedItem(entries: seq<Entry>, items: seq<Keyed<Value>>, i: nat) returns (j: nat)
    requires |items| == |entries| == |Sort(items)| && i < |items|
    requires forall j :: 0 <= j < |items| ==> items[j].x == entries[j].val
    ensures j < |entries| && Sort(items)[i] == items[j]
  {
    SortMembers(items);
    assert Sort(items)[i] in multiset(Sort(items));
    assert Sort(items)[i] in multiset(items);
    j :| 0 <= j < |items| && items[j] == Sort(items)[i];
  }

  lemma {:induction false} FlattenStep(sorted: seq<Keyed<Value>>, i: nat)
    requires i < |sorted| && Encode(sorted[i].x).Some?
    ensures Flatten(Encoded(sorted[..i + 1]))
         == Flatten(Encoded(sorted[..i])) + sorted[i].k + Encode(sorted[i].x).value
  {
    hide Encode;
    var last := Keyed(sorted[i].k, Encode(sorted[i].x).value);
    assert Encoded(sorted[..i + 1]) == Encoded(sorted[..i]) + [last];
    FlattenSnoc(Encoded(sorted[..i]), last);
  }

  lemma {:induction false} FlattenNone(sorted: seq<Keyed<Value>>)
    ensures Flatten(Encoded(sorted[..0])) == []
  {}

  lemma {:induction false} FlattenSnoc(pairs: seq<Keyed<Bytes>>, p: Keyed<Bytes>)
    ensures Flatten(pairs + [p]) == Flatten(pairs) + p.k + p.x
  {
    if pairs == [] {
      assert [] + [p] == [p];
      assert Flatten([p]) == p.k + p.x + Flatten([]);
    } else {
      assert (pairs + [p])[1..] == pairs[1..] + [p];
      FlattenSnoc(pairs[1..], p);
    }
  }

  lemma {:induction false} EncodeMapFails(entries: seq<Entry>, i: nat)
    requires i < |entries| && EncodeEntry(entries[i]).None?
    ensures Encode(Map(entries)).None?
  {
    if EncodeEntries(entries).Some? { EncodedEntries(entries); }
  }

  lemma {:induction false} EncodeMapDuplicate(entries: seq<Entry>, i: nat)
    requires i < |entries| && exists j :: 0 <= j < i && Encode(entries[j].key) == Encode(entries[i].key)
    ensures Encode(Map(entries)).None?
  {
    if EncodeEntries(entries).Some? {
      EncodedEntries(entries);
      var j :| 0 <= j < i && Encode(entries[j].key) == Encode(entries[i].key);
      var pairs := EncodeEntries(entries).value;
      assert EncodeEntry(entries[j]) == Some(pairs[j]) && EncodeEntry(entries[i]) == Some(pairs[i]);
      DistinctIff(pairs);
    }
  }

  // When all keys and values encode and the keys differ, the map does, unless it is too long.
  lemma {:induction false} EncodeMapUnfold(entries: seq<Entry>, items: seq<Keyed<Value>>)
    requires |items| == |entries| && DistinctKeys(items)
    requires forall j :: 0 <= j < |items| ==> Encode(entries[j].key) == Some(items[j].k) && items[j].x == entries[j].val
    ensures Head(5, |items|).None? ==> Encode(Map(entries)).None?
    ensures (forall j :: 0 <= j < |items| ==> Encode(items[j].x).Some?) ==>
      Encode(Map(entries)) == Append(Head(5, |items|), Some(Flatten(Encoded(Sort(items)))))
  {
    hide Sort, Flatten;
    if forall j :: 0 <= j < |items| ==> Encode(items[j].x).Some? {
      EncodeEntriesSome(entries, items);
      DistinctIff(Encoded(items));
      SortRelated(Encoded(items), items, (b: Bytes, v: Value) => b == Encode(v).GetOr([]));
      assert Sort(Encoded(items)) == Encoded(Sort(items));
    }
  }

  lemma {:induction false} EncodeEntriesSome(entries: seq<Entry>, items: seq<Keyed<Value>>)
    requires |items| == |entries|
    requires forall j :: 0 <= j < |items| ==> Encode(entries[j].key) == Some(items[j].k) && items[j].x == entries[j].val
    requires forall j :: 0 <= j < |items| ==> Encode(items[j].x).Some?
    ensures EncodeEntries(entries) == Some(Encoded(items))
  {
    hide Encode;
    if entries != [] {
      EncodeEntriesSome(entries[1..], items[1..]);
      assert Encoded(items) == [Encoded(items)[0]] + Encoded(items[1..]);
    }
  }

  // ----- Decoding -----

  // One item at offset: the value, with its dicts built as Python builds them, and the next offset.
  function DecodedAt(data: Bytes, offset: nat): Option<(Value, nat)> {
    if offset > |data| then None
    else
      match Parse(data[offset..], true)
      case Reject => None
      case Read(v, rest) => if |rest| <= |data| then Some((Collapse(v), |data| - |rest|)) else None
  }

  // An encoding is read back in any context: whatever stands before it and after it, the item at its
  // offset is the value, and the next offset is where it ends.
  lemma {:induction false} ReadsInContext(p: Bytes, v: Value, s: Bytes)
    requires Encode(v).Some? && ScalarKeys(v) && NoClash(v)
    ensures var b := Encode(v).value;
      DecodedAt(p + b + s, |p|) == Some((Normal(v), |p| + |b|)) && Same(v, Normal(v))
  {
    var b := Encode(v).value;
    hide Parse, Encode, ScalarKeys, NoClash, Normal, Collapse, Same;
    assert (p + b + s)[|p|..] == b + s;
    RoundTrip(v, s, true);
    NormalTwice(v);
    NormalEqualSame(v, Normal(v));
    NormalNoClash(v);
    CollapseFixed(Normal(v));
  }

  lemma {:induction false} NormalTwice(v: Value)
    requires Encode(v).Some?
    ensures Normal(Normal(v)) == Normal(v)
  {
    hide Parse, Encode, Normal;
    RoundTrip(v, [], false);
    Canonical(Encode(v).value + [], Normal(v), [], false);
  }

  // The value just read, and the offset of the bytes that are left.
  ghost predicate Ends(r: Option<(Value, nat)>, v: Value, data: Bytes, rest: Bytes) {
    |rest| <= |data| && r == Some((v, |data| - |rest|)) && rest == data[|data| - |rest|..]
  }

  method DecodeAt(data: Bytes, offset: nat) returns (r: Option<(Value, nat)>)
    ensures r == DecodedAt(data, offset)
    ensures offset <= |data| ==>
      match Parse(data[offset..], true)
      case Reject => r.None?
      case Read(v, rest) => Ends(r, Collapse(v), data, rest)
    decreases |data| - offset, 0
  {
    hide Parse, ReadArg, ParseItems, ParseEntries, ValidUtf8, PutAll, CollapseItems, CollapseEntries, Encode;
    if offset >= |data| {
      if offset == |data| { ParseShort(data[offset..]); }
      return None;
    }
    var ib := data[offset];
    var major, ai := ib / 32, ib % 32;
    assert data[offset..][1..] == data[offset + 1..];
    ParseShort(data[offset..]);
    if major <= 5 {
      var arg := ReadArg(data[offset + 1..], ai);
      if arg.Reject? { return None; }
      var n: int, next := arg.value, |data| - |arg.rest|;
      RestIsSuffix(data, offset, arg.rest);
      if major <= 1 {
        r := Some((Int(if major == 0 then n else -1 - n), next));
      } else if major <= 3 {
        r := DecodeString(data, next, n, major);
      } else if major == 4 {
        r := DecodeArray(data, next, n);
      } else {
        r := DecodeMap(data, next, n);
      }
      return;
    }
    if major == 6 { return None; }
    if ai == 20 { return Some((Bool(false), offset + 1)); }
    if ai == 21 { return Some((Bool(true), offset + 1)); }
    if ai == 22 { return Some((Null, offset + 1)); }
    return None;
  }

  // What the first byte decides.
  lemma {:induction false} ParseShort(s: Bytes)
    ensures Parse(s, true) == (
      if s == [] then Reject
      else if s[0] / 32 <= 5 then
        match ReadArg(s[1..], s[0] % 32)
        case Reject => Reject
        case Read(n, t) => ParseBody(s[0] / 32, n, t, true)
      else if s[0] == 0xF4 then Read(Bool(false), s[1..])
      else if s[0] == 0xF5 then Read(Bool(true), s[1..])
      else if s[0] == 0xF6 then Read(Null, s[1..])
      else Reject)
  {}

  lemma {:induction false} RestIsSuffix(data: Bytes, offset: nat, rest: Bytes)
    requires offset < |data|
    requires ReadArg(data[offset + 1..], data[offset] % 32).Read?
    requires rest == ReadArg(data[offset + 1..], data[offset] % 32).rest
    ensures |rest| <= |data| - offset - 1 && rest == data[|data| - |rest|..]
  {
    assert data[offset..][1..] == data[offset + 1..];
    HeadCanonical(data[offset..]);
  }

  method DecodeString(data: Bytes, start: nat, n: nat, major: nat) returns (r: Option<(Value, nat)>)
    requires start <= |data| && (major == 2 || major == 3)
    ensures match ParseBody(major, n, data[start..], true)
      case Reject => r.None?
      case Read(v, rest) => Ends(r, Collapse(v), data, rest)
  {
    if start + n > |data| { return None; }
    var raw := data[start..start + n];
    assert raw == data[start..][..n] && data[start..][n..] == data[start + n..];
    if major == 2 { return Some((Bstr(raw), start + n)); }
    if !ValidUtf8(raw) { return None; }
    return Some((Tstr(raw), start + n));
  }

  method DecodeArray(data: Bytes, start: nat, n: nat) returns (r: Option<(Value, nat)>)
    requires start <= |data|
    ensures match ParseItems(data[start..], n, true)
      case Reject => r.None?
      case Read(items, rest) => Ends(r, Arr(CollapseItems(items)), data, rest)
    decreases |data| - start, 1
  {
    hide Parse, Collapse;
    var items: seq<Value> := [];
    var offset := start;
    ghost var seen: seq<Value> := [];
    PrependNone(ParseItems(data[start..], n, true));
    for i := 0 to n
      invariant start <= offset <= |data|
      invariant items == CollapseItems(seen)
      invariant ParseItems(data[start..], n, true) == Prepend(seen, ParseItems(data[offset..], n - i, true))
    {
      var one := DecodeAt(data, offset);
      if one.None? { return None; }
      ghost var v := Parse(data[offset..], true).value;
      CollapseItemsSnoc(seen, v);
      PrependSnoc(seen, v, ParseItems(data[one.value.1..], n - i - 1, true));
      seen := seen + [v];
      items := items + [one.value.0];
      offset := one.value.1;
    }
    assert seen + [] == seen;
    return Some((Arr(items), offset));
  }

  ghost function Prepend<T>(front: seq<T>, p: Parsed<seq<T>>): Parsed<seq<T>> {
    match p
    case Reject => Reject
    case Read(xs, rest) => Read(front + xs, rest)
  }

  lemma {:induction false} PrependNone<T>(p: Parsed<seq<T>>)
    ensures Prepend([], p) == p
  {
    if p.Read? { assert [] + p.value == p.value; }
  }

  lemma {:induction false} PrependSnoc<T>(front: seq<T>, x: T, p: Parsed<seq<T>>)
    ensures Prepend(front, Prepend([x], p)) == Prepend(front + [x], p)
  {
    if p.Read? { assert front + ([x] + p.value) == front + [x] + p.value; }
  }

  lemma {:induction false} CollapseItemsSnoc(items: seq<Value>, v: Value)
    ensures CollapseItems(items + [v]) == CollapseItems(items) + [Collapse(v)]
  {
    if items == [] {
      assert [] + [v] == [v];
    } else {
      assert (items + [v])[1..] == items[1..] + [v];
      CollapseItemsSnoc(items[1..], v);
    }
  }

  method DecodeMap(data: Bytes, start: nat, n: nat) returns (r: Option<(Value, nat)>)
    requires start <= |data|
    ensures match ParseEntries(data[start..], n, None, true)
      case Reject => r.None?
      case Read(es, rest) => Ends(r, Map(PutAll([], CollapseEntries(es))), data, rest)
    decreases |data| - start, 1
  {
    hide Parse, Collapse, Less, PutAll, Put, CollapseEntries;
    var result: seq<Entry> := [];
    var prev: Option<Bytes> := None;
    var offset := start;
    ghost var seen: seq<Entry> := [];
    PutAllNone();
    PrependNone(ParseEntries(data[start..], n, None, true));
    for i := 0 to n
      invariant start <= offset <= |data|
      invariant result == PutAll([], CollapseEntries(seen))
      invariant ParseEntries(data[start..], n, None, true)
             == Prepend(seen, ParseEntries(data[offset..], n - i, prev, true))
    {
      var key := DecodeAt(data, offset);
      if key.None? { return None; }
      var (k, mid) := key.value;
      var keyBytes := data[offset..mid];
      assert keyBytes == data[offset..][..mid - offset];
      if prev.Some? && !Less(prev.value, keyBytes) { return None; }
      ScalarCollapse(Parse(data[offset..], true).value);
      if !Scalar(k) { return None; }
      var val := DecodeAt(data, mid);
      if val.None? { return None; }
      ghost var e := Entry(k, Parse(data[mid..], true).value);
      assert ParseEntries(data[offset..], n - i, prev, true)
          == Prepend([e], ParseEntries(data[val.value.1..], n - i - 1, Some(keyBytes), true));
      PrependSnoc(seen, e, ParseEntries(data[val.value.1..], n - i - 1, Some(keyBytes), true));
      CollapseEntriesSnoc(seen, e);
      PutAllSnoc([], CollapseEntries(seen), CollapseEntry(e));
      seen := seen + [e];
      result := Put(result, k, val.value.0);
      prev := Some(keyBytes);
      offset := val.value.1;
    }
    assert seen + [] == seen;
    return Some((Map(result), offset));
  }

  lemma {:induction false} PutAllNone()
    ensures PutAll([], CollapseEntries([])) == []
  {}

  lemma {:induction false} ScalarCollapse(v: Value)
    ensures Scalar(Collapse(v)) <==> Scalar(v)
    ensures Scalar(v) ==> Collapse(v) == v
  {}

  lemma {:induction false} CollapseEntriesSnoc(es: seq<Entry>, e: Entry)
    ensures CollapseEntries(es + [e]) == CollapseEntries(es) + [CollapseEntry(e)]
  {
    if es == [] {
      assert [] + [e] == [e];
    } else {
      assert (es + [e])[1..] == es[1..] + [e];
      CollapseEntriesSnoc(es[1..], e);
    }
  }

  method DecodeBytes(data: Bytes) returns (r: Option<Value>)
    ensures r == Decode(data)
  {
    var one := DecodeAt(data, 0);
    assert data[0..] == data;
    if one.None? { return None; }
    if one.value.1 != |data| { return None; }
    r := Some(one.value.0);
  }
}
