/** The deterministic CBOR subset: what a value encodes to, and which byte strings decode.
    `Encode` and `Parse` are the specification; `CborCodec` holds the loops proved against it. */
module Cbor {
  import opened Base

  const UINT64_MAX: int := 0xFFFF_FFFF_FFFF_FFFF

  // ----- UTF-8, section 4 of RFC 3629 -----

  predicate Cont(b: Byte) { 0x80 <= b <= 0xBF }

  // The length of the well-formed sequence at the front of s, or 0 when there is none.
  function Utf8Step(s: Bytes): (n: nat)
    ensures n <= |s| && (s == [] ==> n == 0)
  {
    if s == [] then 0
    else if s[0] <= 0x7F then 1
    else if |s| >= 2 && 0xC2 <= s[0] <= 0xDF && Cont(s[1]) then 2
    else if |s| >= 3 && Cont(s[2]) &&
            ((s[0] == 0xE0 && 0xA0 <= s[1] <= 0xBF)
             || (0xE1 <= s[0] <= 0xEC && Cont(s[1]))
             || (s[0] == 0xED && 0x80 <= s[1] <= 0x9F)
             || (0xEE <= s[0] <= 0xEF && Cont(s[1]))) then 3
    else if |s| >= 4 && Cont(s[2]) && Cont(s[3]) &&
            ((s[0] == 0xF0 && 0x90 <= s[1] <= 0xBF)
             || (0xF1 <= s[0] <= 0xF3 && Cont(s[1]))
             || (s[0] == 0xF4 && 0x80 <= s[1] <= 0x8F)) then 4
    else 0
  }

  predicate ValidUtf8(s: Bytes) {
    s == [] || (Utf8Step(s) > 0 && ValidUtf8(s[Utf8Step(s)..]))
  }

  lemma {:induction false} AsciiIsUtf8(s: Bytes)
    requires forall i :: 0 <= i < |s| ==> s[i] < 0x80
    ensures ValidUtf8(s)
  {
    if s != [] { AsciiIsUtf8(s[1..]); }
  }

  // Text is represented by its UTF-8 bytes.
  type Text = s: Bytes | ValidUtf8(s) witness []

  // ----- Values -----

  // A Python value of the accepted types, plus floats, which are refused.
  // A dict is the sequence of its entries in insertion order; Arr is a list or a tuple.
  datatype Value =
    | Bool(b: bool)
    | Null
    | Float(r: real)
    | Int(i: int)
    | Bstr(bytes: Bytes)
    | Tstr(text: Text)
    | Arr(items: seq<Value>)
    | Map(entries: seq<Entry>)

  datatype Entry = Entry(key: Value, val: Value)

  // ----- Heads (major type and shortest-form argument) -----

  function BigEndian(n: nat, width: nat): (b: Bytes)
    ensures |b| == width
  {
    if width == 0 then [] else BigEndian(n / 256, width - 1) + [n % 256]
  }

  function FromBigEndian(b: Bytes): nat {
    if b == [] then 0 else FromBigEndian(b[..|b| - 1]) * 256 + b[|b| - 1]
  }

  function Head(major: nat, arg: int): Option<Bytes>
    requires major < 8
  {
    if arg < 0 || arg > UINT64_MAX then None
    else if arg < 24 then Some([major * 32 + arg])
    else if arg < 0x100 then Some([major * 32 + 24, arg])
    else if arg < 0x10000 then Some([major * 32 + 25] + BigEndian(arg, 2))
    else if arg < 0x1_0000_0000 then Some([major * 32 + 26] + BigEndian(arg, 4))
    else Some([major * 32 + 27] + BigEndian(arg, 8))
  }

  // What reading from the front of a byte string gives: a value and the bytes after it.
  datatype Parsed<+T> = Reject | Read(value: T, rest: Bytes)

  function ReadArg(s: Bytes, ai: nat): (r: Parsed<nat>)
    ensures r.Read? ==> |r.rest| <= |s|
  {
    if ai < 24 then Read(ai, s)
    else if ai == 24 then
      if |s| < 1 || s[0] < 24 then Reject else Read(s[0], s[1..])
    else if ai == 25 then ReadWide(s, 2, 0x100)
    else if ai == 26 then ReadWide(s, 4, 0x10000)
    else if ai == 27 then ReadWide(s, 8, 0x1_0000_0000)
    else Reject
  }

  function ReadWide(s: Bytes, width: nat, least: nat): (r: Parsed<nat>)
    ensures r.Read? ==> |r.rest| <= |s|
  {
    if |s| < width || FromBigEndian(s[..width]) < least then Reject
    else Read(FromBigEndian(s[..width]), s[width..])
  }

  // ----- Encoding -----

  function Encode(v: Value): Option<Bytes>
    decreases v
  {
    match v
    case Bool(b) => Some([if b then 0xF5 else 0xF4])
    case Null => Some([0xF6])
    case Float(_) => None
    case Int(i) => if i >= 0 then Head(0, i) else Head(1, -1 - i)
    case Bstr(b) => Append(Head(2, |b|), Some(b))
    case Tstr(t) => Append(Head(3, |t|), Some(t))
    case Arr(items) => Append(Head(4, |items|), EncodeItems(items))
    case Map(entries) =>
      match EncodeEntries(entries)
      case None => None
      case Some(pairs) =>
        if AllDistinct(pairs) then Append(Head(5, |pairs|), Some(Flatten(Sort(pairs)))) else None
  }

  function Append(a: Option<Bytes>, b: Option<Bytes>): Option<Bytes> {
    if a.Some? && b.Some? then Some(a.value + b.value) else None
  }

  function EncodeItems(items: seq<Value>): Option<Bytes>
    decreases items
  {
    if items == [] then Some([]) else Append(Encode(items[0]), EncodeItems(items[1..]))
  }

  // Each entry as its encoded key and encoded value.
  function EncodeEntries(entries: seq<Entry>): (r: Option<seq<Keyed<Bytes>>>)
    ensures r.Some? ==> |r.value| == |entries|
    decreases entries
  {
    if entries == [] then Some([])
    else
      var pair, rest := EncodeEntry(entries[0]), EncodeEntries(entries[1..]);
      if pair.Some? && rest.Some? then Some([pair.value] + rest.value) else None
  }

  function EncodeEntry(e: Entry): Option<Keyed<Bytes>>
    decreases e
  {
    var k, v := Encode(e.key), Encode(e.val);
    if k.Some? && v.Some? then Some(Keyed(k.value, v.value)) else None
  }

  predicate AllDistinct<T>(s: seq<Keyed<T>>) {
    s == [] || (!HasKey(s[1..], s[0].k) && AllDistinct(s[1..]))
  }

  function Flatten(pairs: seq<Keyed<Bytes>>): Bytes {
    if pairs == [] then [] else pairs[0].k + pairs[0].x + Flatten(pairs[1..])
  }

  // ----- Strict decoding -----

  // Only scalars are hashable once decoded: arrays become lists, maps become dicts.
  predicate Scalar(v: Value) { !v.Arr? && !v.Map? }

  // One item at the front of s, and the bytes after it. Maps keep every entry of the wire form;
  // `Collapse` below is what storing them in a dict makes of them.
  // Decoding uses strict = true. Without it, array keys are let through.
  function Parse(s: Bytes, strict: bool): (r: Parsed<Value>)
    ensures r.Read? ==> |r.rest| < |s|
    decreases |s|, 0
  {
    if s == [] then Reject
    else
      var major, ai := s[0] / 32, s[0] % 32;
      if major <= 5 then
        match ReadArg(s[1..], ai)
        case Reject => Reject
        case Read(n, t) => ParseBody(major, n, t, strict)
      else if major == 6 then Reject
      else if ai == 20 then Read(Bool(false), s[1..])
      else if ai == 21 then Read(Bool(true), s[1..])
      else if ai == 22 then Read(Null, s[1..])
      else Reject
  }

  // What follows a head with argument n.
  function ParseBody(major: nat, n: nat, t: Bytes, strict: bool): (r: Parsed<Value>)
    requires major <= 5
    ensures r.Read? ==> |r.rest| <= |t|
    decreases |t|, 2
  {
    if major == 0 then Read(Int(n), t)
    else if major == 1 then Read(Int(-1 - n), t)
    else if major <= 3 then
      if n > |t| then Reject
      else if major == 2 then Read(Bstr(t[..n]), t[n..])
      else if ValidUtf8(t[..n]) then Read(Tstr(t[..n]), t[n..])
      else Reject
    else if major == 4 then
      match ParseItems(t, n, strict)
      case Reject => Reject
      case Read(items, u) => Read(Arr(items), u)
    else
      match ParseEntries(t, n, None, strict)
      case Reject => Reject
      case Read(entries, u) => Read(Map(entries), u)
  }

  function ParseItems(s: Bytes, n: nat, strict: bool): (r: Parsed<seq<Value>>)
    ensures r.Read? ==> |r.rest| <= |s|
    decreases |s|, 1
  {
    if n == 0 then Read([], s)
    else
      match Parse(s, strict)
      case Reject => Reject
      case Read(v, t) =>
        match ParseItems(t, n - 1, strict)
        case Reject => Reject
        case Read(vs, u) => Read([v] + vs, u)
  }

  function ParseEntries(s: Bytes, n: nat, prev: Option<Bytes>, strict: bool): (r: Parsed<seq<Entry>>)
    ensures r.Read? ==> |r.rest| <= |s|
    decreases |s|, 1
  {
    if n == 0 then Read([], s)
    else
      match Parse(s, strict)
      case Reject => Reject
      case Read(k, t) =>
        var kb := s[..|s| - |t|];
        if (prev.Some? && !Less(prev.value, kb)) || (strict && !Scalar(k)) then Reject
        else
          match Parse(t, strict)
          case Reject => Reject
          case Read(v, u) =>
            match ParseEntries(u, n - 1, Some(kb), strict)
            case Reject => Reject
            case Read(es, w) => Read([Entry(k, v)] + es, w)
  }

  // ----- What a Python dict makes of the decoded entries -----

  // Python's key equality on scalars: True == 1 and False == 0, otherwise type and value.
  predicate SameKey(a: Value, b: Value) {
    a == b
    || (a.Int? && b.Bool? && a.i == (if b.b then 1 else 0))
    || (a.Bool? && b.Int? && b.i == (if a.b then 1 else 0))
  }

  // d[k] = v: a present key keeps its place and its spelling.
  function Put(d: seq<Entry>, k: Value, v: Value): seq<Entry> {
    if d == [] then [Entry(k, v)]
    else if SameKey(d[0].key, k) then [Entry(d[0].key, v)] + d[1..]
    else [d[0]] + Put(d[1..], k, v)
  }

  function PutAll(d: seq<Entry>, entries: seq<Entry>): seq<Entry>
    decreases entries
  {
    if entries == [] then d
    else PutAll(Put(d, entries[0].key, entries[0].val), entries[1..])
  }

  function Collapse(v: Value): Value {
    match v
    case Arr(items) => Arr(CollapseItems(items))
    case Map(entries) => Map(PutAll([], CollapseEntries(entries)))
    case _ => v
  }

  function CollapseItems(items: seq<Value>): seq<Value> {
    if items == [] then [] else [Collapse(items[0])] + CollapseItems(items[1..])
  }

  function CollapseEntries(entries: seq<Entry>): seq<Entry> {
    if entries == [] then []
    else [CollapseEntry(entries[0])] + CollapseEntries(entries[1..])
  }

  function CollapseEntry(e: Entry): Entry {
    Entry(e.key, Collapse(e.val))
  }

  function Decode(data: Bytes): Option<Value> {
    match Parse(data, true)
    case Reject => None
    case Read(v, rest) => if rest != [] then None else Some(Collapse(v))
  }

  // ----- Properties of values -----

  // No map has two keys Python takes for equal: what being a dict means.
  predicate NoClash(v: Value) {
    match v
    case Arr(items) => forall i :: 0 <= i < |items| ==> NoClash(items[i])
    case Map(es) =>
      (forall i, j :: 0 <= i < j < |es| ==> !SameKey(es[i].key, es[j].key))
      && forall i :: 0 <= i < |es| ==> NoClash(es[i].val)
    case _ => true
  }

  predicate ScalarKeys(v: Value) {
    match v
    case Arr(items) => forall i :: 0 <= i < |items| ==> ScalarKeys(items[i])
    case Map(es) => forall i :: 0 <= i < |es| ==> Scalar(es[i].key) && ScalarKeys(es[i].val)
    case _ => true
  }

  // Python's `==` with types respected: dicts are equal when each has the other's items.
  predicate Same(v: Value, w: Value)
    decreases v, 0
  {
    match v
    case Arr(items) =>
      w.Arr? && |items| == |w.items|
      && forall i :: 0 <= i < |items| ==> Same(items[i], w.items[i])
    case Map(es) =>
      w.Map? && |es| == |w.entries| && AllIn(es, w.entries) && AllFrom(es, w.entries)
    case _ => v == w
  }

  predicate SameEntry(e: Entry, f: Entry)
    decreases e, 0
  {
    Same(e.key, f.key) && Same(e.val, f.val)
  }

  // e is an item of fs.
  predicate In(e: Entry, fs: seq<Entry>)
    decreases e, |fs| + 1
  {
    fs != [] && (SameEntry(e, fs[0]) || In(e, fs[1..]))
  }

  predicate AllIn(es: seq<Entry>, fs: seq<Entry>)
    decreases es, 0
  {
    es == [] || (In(es[0], fs) && AllIn(es[1..], fs))
  }

  // f is an item of es.
  predicate From(es: seq<Entry>, f: Entry)
    decreases es, 0
  {
    es != [] && (SameEntry(es[0], f) || From(es[1..], f))
  }

  predicate AllFrom(es: seq<Entry>, fs: seq<Entry>)
    decreases es, |fs| + 1
  {
    fs == [] || (From(es, fs[0]) && AllFrom(es, fs[1..]))
  }

  // The value with every map listed in the order of its encoded keys.
  function Normal(v: Value): Value {
    match v
    case Arr(items) => Arr(seq(|items|, i requires 0 <= i < |items| => Normal(items[i])))
    case Map(es) => Map(Payloads(Sort(NormalEntries(es))))
    case _ => v
  }

  function NormalEntries(es: seq<Entry>): (r: seq<Keyed<Entry>>)
    ensures |r| == |es|
  {
    seq(|es|, i requires 0 <= i < |es| => NormalEntry(es[i]))
  }

  function NormalEntry(e: Entry): Keyed<Entry> {
    Keyed(Encode(e.key).GetOr([]), Entry(Normal(e.key), Normal(e.val)))
  }

  function Payloads<T>(s: seq<Keyed<T>>): (r: seq<T>)
    ensures |r| == |s|
  {
    seq(|s|, i requires 0 <= i < |s| => s[i].x)
  }
}
