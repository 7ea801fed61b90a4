/**
 The canonical form of a JSON value behind the fingerprints: the members of every object sorted by
 key. And the sorted address list of the target fingerprint.
 */
module CanonicalJson {
  import opened Text

  /** A value as serde_json holds it: object members have distinct keys and keep their order. */
  datatype Json =
    | Null
    | Bool(b: bool)
    | Number(text: string)
    | Str(s: string)
    | Array(items: seq<Json>)
    | Object(members: seq<Member>)

  datatype Member = Member(key: string, value: Json)

  ghost predicate DistinctKeys(ms: seq<Member>) {
    forall i, j :: 0 <= i < j < |ms| ==> ms[i].key != ms[j].key
  }

  ghost predicate WellFormed(v: Json) {
    match v
    case Array(items) => forall i :: 0 <= i < |items| ==> WellFormed(items[i])
    case Object(ms) => DistinctKeys(ms) && forall i :: 0 <= i < |ms| ==> WellFormed(ms[i].value)
    case _ => true
  }

  ghost predicate Sorted(ms: seq<Member>) {
    forall i, j :: 0 <= i < j < |ms| ==> Less(ms[i].key, ms[j].key)
  }

  // The members of every object, at every depth, are in strictly ascending order of their keys.
  ghost predicate KeySorted(v: Json) {
    match v
    case Array(items) => forall i :: 0 <= i < |items| ==> KeySorted(items[i])
    case Object(ms) => Sorted(ms) && forall i :: 0 <= i < |ms| ==> KeySorted(ms[i].value)
    case _ => true
  }

  // Equal up to the order of object members, at every depth: object members are matched by key.
  ghost predicate Equivalent(a: Json, b: Json)
    decreases a
  {
    match a
    case Array(items) =>
      b.Array? && |items| == |b.items| && forall i :: 0 <= i < |items| ==> Equivalent(items[i], b.items[i])
    case Object(ms) =>
      b.Object? && |ms| == |b.members| && forall i :: 0 <= i < |ms| ==> Matched(ms[i], b.members)
    case _ => a == b
  }

  ghost predicate Matched(m: Member, ns: seq<Member>)
    decreases m
  {
    exists j :: 0 <= j < |ns| && ns[j].key == m.key && Equivalent(m.value, ns[j].value)
  }

  // --- the canonical form ---

  /** Insert into a map kept in key order; an existing key gets the new value. */
  function Insert(sorted: seq<Member>, m: Member): seq<Member> {
    if sorted == [] then [m]
    else
      var last := sorted[|sorted| - 1];
      if Less(last.key, m.key) then sorted + [m]
      else if last.key == m.key then sorted[..|sorted| - 1] + [m]
      else Insert(sorted[..|sorted| - 1], m) + [last]
  }

  function SortMembers(ms: seq<Member>): seq<Member> {
    if ms == [] then [] else Insert(SortMembers(ms[..|ms| - 1]), ms[|ms| - 1])
  }

  function Canonical(v: Json): Json {
    match v
    case Array(items) => Array(seq(|items|, i requires 0 <= i < |items| => Canonical(items[i])))
    case Object(ms) =>
      Object(SortMembers(seq(|ms|, i requires 0 <= i < |ms| => Member(ms[i].key, Canonical(ms[i].value)))))
    case _ => v
  }

  ghost function CanonicalMembers(ms: seq<Member>): (r: seq<Member>)
    ensures |r| == |ms| && forall i :: 0 <= i < |ms| ==> r[i] == Member(ms[i].key, Canonical(ms[i].value))
  {
    seq(|ms|, i requires 0 <= i < |ms| => Member(ms[i].key, Canonical(ms[i].value)))
  }

  method Canonicalise(v: Json) returns (r: Json)
    ensures r == Canonical(v)
    decreases v
  {
    match v {
      case Array(items) =>
        var out: seq<Json> := [];
        for i := 0 to |items|
          invariant |out| == i && forall k :: 0 <= k < i ==> out[k] == Canonical(items[k])
        {
          var item := Canonicalise(items[i]);
          out := out + [item];
        }
        r := Array(out);
      case Object(ms) =>
        var sorted: seq<Member> := [];
        ghost var canon := CanonicalMembers(ms);
        for i := 0 to |ms|
          invariant sorted == SortMembers(canon[..i])
        {
          var value := Canonicalise(ms[i].value);
          assert canon[..i + 1][..i] == canon[..i];
          sorted := Insert(sorted, Member(ms[i].key, value));
        }
        assert canon[..|ms|] == canon;
        r := Object(sorted);
      case _ =>
        r := v;
    }
  }

  // --- sorted member lists ---

  lemma {:induction false} InsertSorts(sorted: seq<Member>, m: Member)
    requires Sorted(sorted) && forall i :: 0 <= i < |sorted| ==> sorted[i].key != m.key
    ensures Sorted(Insert(sorted, m))
    ensures forall x :: x in Insert(sorted, m) <==> x in sorted || x == m
  {
    if sorted != [] {
      var n := |sorted| - 1;
      var last := sorted[n];
      assert sorted == sorted[..n] + [last];
      if Less(last.key, m.key) {
        BelowLast(sorted, m);
      } else {
        LessTotal(last.key, m.key);
        InsertSorts(sorted[..n], m);
        InsertedBelow(sorted[..n], m, last);
      }
    }
  }

  lemma BelowLast(sorted: seq<Member>, m: Member)
    requires Sorted(sorted) && |sorted| > 0 && Less(sorted[|sorted| - 1].key, m.key)
    ensures Sorted(sorted + [m])
  {
    var n := |sorted| - 1;
    forall i | 0 <= i < n
      ensures Less(sorted[i].key, m.key)
    {
      LessTransitive(sorted[i].key, sorted[n].key, m.key);
    }
  }

  lemma {:induction false} InsertedBelow(front: seq<Member>, m: Member, last: Member)
    requires Sorted(Insert(front, m)) && Sorted(front + [last]) && Less(m.key, last.key)
    requires forall x :: x in Insert(front, m) <==> x in front || x == m
    ensures Sorted(Insert(front, m) + [last])
  {
    var all := Insert(front, m);
    forall i | 0 <= i < |all|
      ensures Less(all[i].key, last.key)
    {
      assert all[i] in all;
      if all[i] != m {
        var j :| 0 <= j < |front| && front[j] == all[i];
        assert (front + [last])[j] == all[i] && (front + [last])[|front|] == last;
      }
    }
  }

  lemma {:induction false} SortMembersSorts(ms: seq<Member>)
    requires DistinctKeys(ms)
    ensures Sorted(SortMembers(ms))
    ensures forall x :: x in SortMembers(ms) <==> x in ms
  {
    if ms != [] {
      var n := |ms| - 1;
      var front := ms[..n];
      SortMembersSorts(front);
      var sorted := SortMembers(front);
      forall i | 0 <= i < |sorted|
        ensures sorted[i].key != ms[n].key
      {
        assert sorted[i] in sorted;
        var j :| 0 <= j < |front| && front[j] == sorted[i];
      }
      InsertSorts(sorted, ms[n]);
      assert ms == front + [ms[n]];
    }
  }

  lemma SortedIsDistinct(s: seq<Member>)
    requires Sorted(s)
    ensures DistinctKeys(s)
  {
    forall i, j | 0 <= i < j < |s|
      ensures s[i].key != s[j].key
    {
      LessIrreflexive(s[i].key);
    }
  }

  lemma SameLast(s: seq<Member>, t: seq<Member>)
    requires Sorted(s) && Sorted(t) && |s| > 0 && |t| > 0 && s[|s| - 1] in t && t[|t| - 1] in s
    ensures s[|s| - 1] == t[|t| - 1]
  {
    var j :| 0 <= j < |t| && t[j] == s[|s| - 1];
    var i :| 0 <= i < |s| && s[i] == t[|t| - 1];
    if j < |t| - 1 {
      assert Less(t[j].key, t[|t| - 1].key);
      LessAsymmetric(t[j].key, t[|t| - 1].key);
    }
  }

  lemma HasFirst(t: seq<Member>)
    ensures |t| > 0 ==> t[0] in t
  {}

  // A sorted list is determined by its members.
  lemma {:induction false} SortedIsUnique(s: seq<Member>, t: seq<Member>)
    requires Sorted(s) && Sorted(t) && forall x :: x in s <==> x in t
    ensures s == t
  {
    if |s| == 0 {
      HasFirst(t);
    } else {
      HasFirst(s);
      LastInBoth(s, t);
      var n, k := |s| - 1, |t| - 1;
      WithoutLast(s);
      WithoutLast(t);
      assert s[n] == t[k];
      forall x
        ensures x in s[..n] <==> x in t[..k]
      {
        assert x in s <==> x in t;
      }
      SortedIsUnique(s[..n], t[..k]);
      assert s == s[..n] + [s[n]] && t == t[..k] + [t[k]];
    }
  }

  lemma LastInBoth(s: seq<Member>, t: seq<Member>)
    requires Sorted(s) && Sorted(t) && |s| > 0 && forall x :: x in s <==> x in t
    ensures |t| > 0 && s[|s| - 1] == t[|t| - 1]
  {
    assert s[|s| - 1] in s;
    assert s[|s| - 1] in t;
    assert t[|t| - 1] in t;
    SameLast(s, t);
  }

  lemma WithoutLast(s: seq<Member>)
    requires Sorted(s) && |s| > 0
    ensures forall x :: x in s[..|s| - 1] <==> x in s && x != s[|s| - 1]
  {
    SortedIsDistinct(s);
  }

  // --- the canonical form is canonical ---

  lemma CanonicalMembersDistinct(ms: seq<Member>)
    requires DistinctKeys(ms)
    ensures DistinctKeys(CanonicalMembers(ms))
  {}

  lemma CanonicalObject(ms: seq<Member>)
    ensures Canonical(Object(ms)) == Object(SortMembers(CanonicalMembers(ms)))
  {
    assert CanonicalMembers(ms) == seq(|ms|, i requires 0 <= i < |ms| => Member(ms[i].key, Canonical(ms[i].value)));
  }

  lemma {:induction false} CanonicalIsSorted(v: Json)
    requires WellFormed(v)
    ensures KeySorted(Canonical(v)) && WellFormed(Canonical(v))
    decreases v
  {
    match v {
      case Array(items) =>
        forall i | 0 <= i < |items|
          ensures KeySorted(Canonical(items[i])) && WellFormed(Canonical(items[i]))
        {
          CanonicalIsSorted(items[i]);
        }
      case Object(ms) =>
        forall i | 0 <= i < |ms|
          ensures KeySorted(Canonical(ms[i].value)) && WellFormed(Canonical(ms[i].value))
        {
          CanonicalIsSorted(ms[i].value);
        }
        CanonicalObject(ms);
        var canon := CanonicalMembers(ms);
        CanonicalMembersDistinct(ms);
        SortMembersSorts(canon);
        var sorted := SortMembers(canon);
        SortedIsDistinct(sorted);
        forall i | 0 <= i < |sorted|
          ensures KeySorted(sorted[i].value) && WellFormed(sorted[i].value)
        {
          assert sorted[i] in sorted;
          var j :| 0 <= j < |canon| && canon[j] == sorted[i];
        }
      case _ =>
    }
  }

  // Sorting a sorted list of members whose values are canonical changes nothing.
  lemma {:induction false} CanonicalIsIdempotent(v: Json)
    requires WellFormed(v)
    ensures Canonical(Canonical(v)) == Canonical(v)
  {
    CanonicalIsSorted(v);
    SortedIsCanonical(Canonical(v));
  }

  lemma {:induction false} SortedIsCanonical(v: Json)
    requires WellFormed(v) && KeySorted(v)
    ensures Canonical(v) == v
    decreases v
  {
    match v {
      case Array(items) =>
        forall i | 0 <= i < |items|
          ensures Canonical(items[i]) == items[i]
        {
          SortedIsCanonical(items[i]);
        }
      case Object(ms) =>
        forall i | 0 <= i < |ms|
          ensures Canonical(ms[i].value) == ms[i].value
        {
          SortedIsCanonical(ms[i].value);
        }
        CanonicalObject(ms);
        assert CanonicalMembers(ms) == ms;
        SortMembersSorts(ms);
        SortedIsUnique(SortMembers(ms), ms);
      case _ =>
    }
  }

  // Two values have the same canonical form exactly when they are equal up to the order of members.
  lemma {:induction false} CanonicalDecidesEquivalence(a: Json, b: Json)
    requires WellFormed(a) && WellFormed(b)
    ensures Canonical(a) == Canonical(b) <==> Equivalent(a, b)
    decreases a
  {
    if a.Array? && b.Array? {
      ArraysDecide(a.items, b.items);
    } else if a.Object? && b.Object? {
      ObjectsDecide(a.members, b.members, a);
    }
  }

  // The canonical form is the value itself, up to the order of members.
  lemma {:induction false} CanonicalIsEquivalent(v: Json)
    requires WellFormed(v)
    ensures Equivalent(Canonical(v), v)
  {
    CanonicalIsSorted(v);
    CanonicalIsIdempotent(v);
    CanonicalDecidesEquivalence(Canonical(v), v);
  }

  lemma ArraysDecide(xs: seq<Json>, ys: seq<Json>)
    requires WellFormed(Array(xs)) && WellFormed(Array(ys))
    ensures Canonical(Array(xs)) == Canonical(Array(ys)) <==> Equivalent(Array(xs), Array(ys))
    decreases Array(xs), 0
  {
    var cs, ds := Canonical(Array(xs)).items, Canonical(Array(ys)).items;
    if |xs| == |ys| {
      forall i | 0 <= i < |xs|
        ensures cs[i] == ds[i] <==> Equivalent(xs[i], ys[i])
      {
        CanonicalDecidesEquivalence(xs[i], ys[i]);
      }
    }
  }

  lemma ObjectsDecide(ms: seq<Member>, ns: seq<Member>, whole: Json)
    requires whole == Object(ms) && WellFormed(Object(ms)) && WellFormed(Object(ns))
    ensures Canonical(Object(ms)) == Canonical(Object(ns)) <==> Equivalent(Object(ms), Object(ns))
    decreases whole, 0
  {
    var cs, ds := CanonicalMembers(ms), CanonicalMembers(ns);
    forall i | 0 <= i < |ms|
      ensures cs[i] in ds <==> Matched(ms[i], ns)
    {
      MemberDecides(ms[i], ns, whole);
    }
    CanonicalObject(ms);
    CanonicalObject(ns);
    CanonicalMembersDistinct(ms);
    CanonicalMembersDistinct(ns);
    SortedListsEqualIff(cs, ds);
  }

  lemma {:induction false} MemberDecides(m: Member, ns: seq<Member>, whole: Json)
    requires whole.Object? && m in whole.members && WellFormed(whole) && WellFormed(Object(ns))
    ensures Member(m.key, Canonical(m.value)) in CanonicalMembers(ns) <==> Matched(m, ns)
    decreases m
  {
    var c, ds := Member(m.key, Canonical(m.value)), CanonicalMembers(ns);
    forall j | 0 <= j < |ns|
      ensures c == ds[j] <==> ns[j].key == m.key && Equivalent(m.value, ns[j].value)
    {
      CanonicalDecidesEquivalence(m.value, ns[j].value);
    }
    if c in ds {
      var j :| 0 <= j < |ds| && ds[j] == c;
    }
  }

  // Sorted, two lists of distinct keys are equal exactly when they have the same members.
  lemma {:induction false} SortedListsEqualIff(cs: seq<Member>, ds: seq<Member>)
    requires DistinctKeys(cs) && DistinctKeys(ds)
    ensures SortMembers(cs) == SortMembers(ds) <==> |cs| == |ds| && forall i :: 0 <= i < |cs| ==> cs[i] in ds
  {
    SortMembersSorts(cs);
    SortMembersSorts(ds);
    SameMembersIff(cs, ds);
    if SortMembers(cs) == SortMembers(ds) {
      assert forall x :: x in cs <==> x in SortMembers(cs);
    }
    if forall x :: x in cs <==> x in ds {
      SortedIsUnique(SortMembers(cs), SortMembers(ds));
    }
  }

  // Lists of distinct keys have the same members exactly when they are as long as each other and one
  // is contained in the other.
  lemma SameMembersIff(cs: seq<Member>, ds: seq<Member>)
    requires DistinctKeys(cs) && DistinctKeys(ds)
    ensures (forall x :: x in cs <==> x in ds) <==> |cs| == |ds| && forall i :: 0 <= i < |cs| ==> cs[i] in ds
  {
    var c, d := set x | x in cs, set x | x in ds;
    DistinctCount(cs);
    DistinctCount(ds);
    if forall x :: x in cs <==> x in ds {
      assert c == d;
    }
    if |cs| == |ds| && forall i :: 0 <= i < |cs| ==> cs[i] in ds {
      assert c <= d;
      EqualSize(c, d);
      assert forall x :: x in cs <==> x in c;
    }
  }

  lemma {:induction false} DistinctCount(ms: seq<Member>)
    requires DistinctKeys(ms)
    ensures |set x | x in ms| == |ms|
  {
    if ms != [] {
      var n := |ms| - 1;
      DistinctCount(ms[..n]);
      assert ms == ms[..n] + [ms[n]];
      assert (set x | x in ms) == (set x | x in ms[..n]) + {ms[n]};
    }
  }

  lemma EqualSize(c: set<Member>, d: set<Member>)
    requires c <= d && |c| == |d|
    ensures c == d
  {
    assert d == c + (d - c);
  }

  // --- the address list of the target fingerprint ---

  ghost predicate Ascending(xs: seq<string>) {
    forall i, j :: 0 <= i < j < |xs| ==> !Less(xs[j], xs[i])
  }

  /** Sort the printed addresses. */
  method SortAddresses(xs: seq<string>) returns (sorted: seq<string>)
    ensures Ascending(sorted) && multiset(sorted) == multiset(xs)
  {
    sorted := [];
    for i := 0 to |xs|
      invariant Ascending(sorted) && multiset(sorted) == multiset(xs[..i])
    {
      assert xs[..i + 1] == xs[..i] + [xs[i]];
      sorted := InsertAddress(sorted, xs[i]);
    }
    assert xs[..|xs|] == xs;
  }

  method InsertAddress(sorted: seq<string>, x: string) returns (longer: seq<string>)
    requires Ascending(sorted)
    ensures Ascending(longer) && multiset(longer) == multiset(sorted) + multiset{x}
  {
    var k := |sorted|;
    while k > 0 && Less(x, sorted[k - 1])
      invariant 0 <= k <= |sorted|
      invariant forall i :: k <= i < |sorted| ==> Less(x, sorted[i])
    {
      k := k - 1;
    }
    longer := sorted[..k] + [x] + sorted[k..];
    InsertKeepsOrder(sorted, k, x);
    assert sorted == sorted[..k] + sorted[k..];
  }

  lemma {:induction false} InsertKeepsOrder(sorted: seq<string>, k: nat, x: string)
    requires Ascending(sorted) && k <= |sorted| && (k > 0 ==> !Less(x, sorted[k - 1]))
    requires forall i :: k <= i < |sorted| ==> Less(x, sorted[i])
    ensures Ascending(sorted[..k] + [x] + sorted[k..])
  {
    forall i | 0 <= i < k
      ensures !Less(x, sorted[i])
    {
      assert i == k - 1 || !Less(sorted[k - 1], sorted[i]);
      NotLessTransitive(x, sorted[k - 1], sorted[i]);
    }
    forall i | k <= i < |sorted|
      ensures !Less(sorted[i], x)
    {
      LessAsymmetric(x, sorted[i]);
    }
  }

  lemma {:induction false} NotLessTransitive(s: string, t: string, u: string)
    requires !Less(s, t) && (t == u || !Less(t, u))
    ensures !Less(s, u)
  {
    LessTotal(s, t);
    LessTotal(t, u);
    if Less(s, u) && Less(u, t) {
      LessTransitive(s, u, t);
    }
  }

  // An ascending list is determined by its elements: the fingerprint depends on which addresses
  // resolved, and how often, but not on their order.
  lemma {:induction false} AscendingIsUnique(s: seq<string>, t: seq<string>)
    requires Ascending(s) && Ascending(t) && multiset(s) == multiset(t)
    ensures s == t
  {
    assert |multiset(s)| == |s| && |multiset(t)| == |t|;
    if |s| > 0 {
      SameGreatest(s, t);
      SplitLast(s);
      SplitLast(t);
      AscendingIsUnique(s[..|s| - 1], t[..|t| - 1]);
    }
  }

  lemma SameGreatest(s: seq<string>, t: seq<string>)
    requires Ascending(s) && Ascending(t) && |s| == |t| > 0 && multiset(s) == multiset(t)
    ensures s[|s| - 1] == t[|t| - 1]
  {
    var x, y := s[|s| - 1], t[|t| - 1];
    assert x in multiset(t) && y in multiset(s);
    GreatestIsLast(t, x);
    GreatestIsLast(s, y);
    LessTotal(x, y);
  }

  lemma SplitLast(s: seq<string>)
    requires |s| > 0
    ensures s == s[..|s| - 1] + [s[|s| - 1]]
    ensures multiset(s[..|s| - 1]) == multiset(s) - multiset{s[|s| - 1]}
  {
    assert s == s[..|s| - 1] + [s[|s| - 1]];
  }

  lemma {:induction false} GreatestIsLast(xs: seq<string>, x: string)
    requires Ascending(xs) && x in xs
    ensures !Less(xs[|xs| - 1], x)
  {
    var j :| 0 <= j < |xs| && xs[j] == x;
    if j == |xs| - 1 {
      LessIrreflexive(x);
    }
  }
}
