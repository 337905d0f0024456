/** Byte strings, their bytewise order, and sorting by a byte-string key. */
module Base {
  datatype Option<+T> = None | Some(value: T) {
    predicate IsFailure() { None? }

    function PropagateFailure<U>(): Option<U>
      requires None?
    {
      None
    }

    function Extract(): T
      requires Some?
    {
      value
    }

    function GetOr(default: T): T {
      if None? then default else value
    }
  }

  type Byte = x: int | 0 <= x < 256
  type Bytes = seq<Byte>

  // ----- Bytewise lexicographic order, as Python compares `bytes` -----

  predicate Less(a: Bytes, b: Bytes) {
    if b == [] then false
    else if a == [] then true
    else a[0] < b[0] || (a[0] == b[0] && Less(a[1..], b[1..]))
  }

  lemma {:induction false} LessTotal(a: Bytes, b: Bytes)
    ensures a != b ==> Less(a, b) || Less(b, a)
    ensures !(Less(a, b) && Less(b, a))
    ensures !Less(a, a)
  {
    if a != [] && b != [] {
      LessTotal(a[1..], b[1..]);
      LessTotal(a[1..], a[1..]);
      assert a == [a[0]] + a[1..] && b == [b[0]] + b[1..];
    } else if a != [] {
      LessTotal(a[1..], a[1..]);
    }
  }

  lemma {:induction false} LessTrans(a: Bytes, b: Bytes, c: Bytes)
    requires Less(a, b) && Less(b, c)
    ensures Less(a, c)
  {
    if a != [] && a[0] == b[0] == c[0] {
      LessTrans(a[1..], b[1..], c[1..]);
    }
  }

  // The first difference decides; a proper prefix comes first.
  lemma {:induction false} LessMeans(a: Bytes, b: Bytes)
    ensures Less(a, b) <==> exists i :: FirstDifference(a, b, i)
  {
    if a != [] && b != [] && a[0] == b[0] {
      LessMeans(a[1..], b[1..]);
      if i: nat :| FirstDifference(a[1..], b[1..], i) { assert FirstDifference(a, b, i + 1); }
      if i: nat :| FirstDifference(a, b, i) {
        assert a[1..][..i - 1] == a[..i][1..] && b[1..][..i - 1] == b[..i][1..];
        assert FirstDifference(a[1..], b[1..], i - 1);
      }
    } else if Less(a, b) {
      assert FirstDifference(a, b, 0);
    }
  }

  ghost predicate FirstDifference(a: Bytes, b: Bytes, i: nat) {
    i <= |a| && i < |b| && a[..i] == b[..i] && (i == |a| || a[i] < b[i])
  }

  // A common prefix does not influence the order.
  lemma {:induction false} LessPrefix(p: Bytes, a: Bytes, b: Bytes)
    ensures Less(p + a, p + b) == Less(a, b)
  {
    if p == [] {
      assert p + a == a && p + b == b;
    } else {
      assert (p + a)[1..] == p[1..] + a && (p + b)[1..] == p[1..] + b;
      LessPrefix(p[1..], a, b);
    }
  }

  // Between equally long strings the first difference decides, whatever follows.
  lemma {:induction false} LessExtend(a: Bytes, b: Bytes, s: Bytes, t: Bytes)
    requires |a| == |b| && Less(a, b)
    ensures Less(a + s, b + t)
  {
    assert (a + s)[0] == a[0] && (b + t)[0] == b[0];
    if a[0] == b[0] {
      assert (a + s)[1..] == a[1..] + s && (b + t)[1..] == b[1..] + t;
      LessExtend(a[1..], b[1..], s, t);
    }
  }

  // ----- Sorting by key -----

  datatype Keyed<+T> = Keyed(k: Bytes, x: T)

  ghost predicate Ascending<T>(s: seq<Keyed<T>>) {
    forall i, j :: 0 <= i < j < |s| ==> Less(s[i].k, s[j].k)
  }

  ghost predicate DistinctKeys<T>(s: seq<Keyed<T>>) {
    forall i, j :: 0 <= i < j < |s| ==> s[i].k != s[j].k
  }

  predicate HasKey<T>(s: seq<Keyed<T>>, k: Bytes) {
    exists i :: 0 <= i < |s| && s[i].k == k
  }

  // Stable insertion sort: the result `sorted(xs, key=...)` has.
  function Insert<T>(e: Keyed<T>, s: seq<Keyed<T>>): seq<Keyed<T>> {
    if s == [] || !Less(s[0].k, e.k) then [e] + s
    else [s[0]] + Insert(e, s[1..])
  }

  function Sort<T>(s: seq<Keyed<T>>): seq<Keyed<T>> {
    if s == [] then [] else Insert(s[0], Sort(s[1..]))
  }

  lemma {:induction false} InsertMembers<T>(e: Keyed<T>, s: seq<Keyed<T>>)
    ensures |Insert(e, s)| == |s| + 1
    ensures multiset(Insert(e, s)) == multiset(s) + multiset{e}
  {
    if s != [] && Less(s[0].k, e.k) {
      InsertMembers(e, s[1..]);
      assert s == [s[0]] + s[1..];
    }
  }

  lemma {:induction false} SortMembers<T>(s: seq<Keyed<T>>)
    ensures |Sort(s)| == |s|
    ensures multiset(Sort(s)) == multiset(s)
  {
    if s != [] {
      SortMembers(s[1..]);
      InsertMembers(s[0], Sort(s[1..]));
      assert s == [s[0]] + s[1..];
    }
  }

  lemma {:induction false} InsertAscending<T>(e: Keyed<T>, s: seq<Keyed<T>>)
    requires Ascending(s) && !HasKey(s, e.k)
    ensures Ascending(Insert(e, s))
  {
    if s == [] {
    } else if !Less(s[0].k, e.k) {
      LessTotal(s[0].k, e.k);
      forall j | 0 <= j < |s| ensures Less(e.k, s[j].k) {
        if j > 0 { LessTrans(e.k, s[0].k, s[j].k); }
      }
    } else {
      InsertAscending(e, s[1..]);
      InsertMembers(e, s[1..]);
      var r := Insert(e, s[1..]);
      forall j | 0 <= j < |r| ensures Less(s[0].k, r[j].k) {
        assert r[j] in multiset(r);
        assert r[j] in multiset(s[1..]) || r[j] == e;
      }
    }
  }

  lemma {:induction false} SortAscending<T>(s: seq<Keyed<T>>)
    requires DistinctKeys(s)
    ensures Ascending(Sort(s))
  {
    if s != [] {
      SortAscending(s[1..]);
      SortMembers(s[1..]);
      var r := Sort(s[1..]);
      forall i | 0 <= i < |r| ensures r[i].k != s[0].k {
        assert r[i] in multiset(r);
        assert r[i] in multiset(s[1..]);
      }
      InsertAscending(s[0], Sort(s[1..]));
    }
  }

  lemma {:induction false} SortFixed<T>(s: seq<Keyed<T>>)
    requires Ascending(s)
    ensures Sort(s) == s
  {
    if s != [] {
      SortFixed(s[1..]);
      if |s| > 1 { LessTotal(s[0].k, s[1].k); }
      assert s == [s[0]] + s[1..];
    }
  }

  // There is only one strictly ascending arrangement of a set of keyed items.
  lemma {:induction false} AscendingUnique<T>(a: seq<Keyed<T>>, b: seq<Keyed<T>>)
    requires Ascending(a) && Ascending(b)
    requires forall e :: e in a <==> e in b
    ensures a == b
  {
    assert b != [] ==> b[0] in a;
    if a != [] {
      assert a[0] in b;
      assert b[0] in a;
      LessTotal(a[0].k, b[0].k);
      assert a[0] == b[0];
      forall e ensures e in a[1..] <==> e in b[1..] {
        LessTotal(a[0].k, a[0].k);
        assert e in a[1..] <==> e in a && e != a[0];
        assert e in b[1..] <==> e in b && e != b[0];
      }
      AscendingUnique(a[1..], b[1..]);
      assert a == [a[0]] + a[1..] && b == [b[0]] + b[1..];
    }
  }

  // Sorting forgets the arrangement it started from.
  lemma {:induction false} SortForgetsOrder<T>(a: seq<Keyed<T>>, b: seq<Keyed<T>>)
    requires DistinctKeys(a) && DistinctKeys(b)
    requires forall i :: 0 <= i < |a| ==> a[i] in b
    requires forall j :: 0 <= j < |b| ==> b[j] in a
    ensures Sort(a) == Sort(b)
  {
    SortAscending(a); SortAscending(b);
    SortMembers(a); SortMembers(b);
    hide Sort, Less;
    forall e ensures e in Sort(a) <==> e in Sort(b) {
      assert e in Sort(a) <==> e in multiset(a);
      assert e in Sort(b) <==> e in multiset(b);
      assert e in a <==> e in b;
    }
    AscendingUnique(Sort(a), Sort(b));
  }

  // Sorting looks at keys only: payloads related before are related after.
  ghost predicate Related<T, U>(a: seq<Keyed<T>>, b: seq<Keyed<U>>, r: (T, U) -> bool) {
    |a| == |b| && forall i :: 0 <= i < |a| ==> a[i].k == b[i].k && r(a[i].x, b[i].x)
  }

  lemma {:induction false} InsertRelated<T, U>(d: Keyed<T>, a: seq<Keyed<T>>, e: Keyed<U>, b: seq<Keyed<U>>, r: (T,
      U) -> bool)
    requires Related(a, b, r) && d.k == e.k && r(d.x, e.x)
    ensures Related(Insert(d, a), Insert(e, b), r)
  {
    if a != [] && Less(a[0].k, d.k) {
      InsertRelated(d, a[1..], e, b[1..], r);
    }
  }

  lemma {:induction false} SortRelated<T, U>(a: seq<Keyed<T>>, b: seq<Keyed<U>>, r: (T, U) -> bool)
    requires Related(a, b, r)
    ensures Related(Sort(a), Sort(b), r)
  {
    if a != [] {
      SortRelated(a[1..], b[1..], r);
      InsertRelated(a[0], Sort(a[1..]), b[0], Sort(b[1..]), r);
    }
  }

  // ----- Permuted sequences -----

  lemma {:induction false} MatchIn<T>(fs: seq<T>, es: seq<T>, j: nat) returns (i: nat)
    requires multiset(es) == multiset(fs) && j < |fs|
    ensures i < |es| && es[i] == fs[j]
  {
    assert fs[j] in multiset(es);
    i :| 0 <= i < |es| && es[i] == fs[j];
  }

  lemma {:induction false} BagWithout<T>(s: seq<T>, j: nat)
    requires j < |s|
    ensures multiset(s) == multiset(s[..j] + s[j + 1..]) + multiset{s[j]}
  {
    assert s == s[..j] + [s[j]] + s[j + 1..];
  }

  lemma {:induction false} Cancel<T>(a: multiset<T>, b: multiset<T>, x: multiset<T>)
    requires a + x == b + x
    ensures a == b
  {
    assert a == a + x - x;
    assert b == b + x - x;
  }
}
