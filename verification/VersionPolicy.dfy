/** The model version policies: which of the versions on disk should be served. */
module VersionPolicy {
  import opened Vectors

  /** "SpecificVersions" is built by MakeSpecific, which sorts the configured list. */
  datatype Policy =
    | AllVersions
    | SpecificVersions(versions: seq<int>)
    | LatestVersions(num: nat)
  {
    ghost predicate Valid() {
      SpecificVersions? ==> Ascending(versions)
    }
  }

  function MakeSpecific(versions: seq<int>): (p: Policy)
    ensures p.Valid()
    ensures p.SpecificVersions? && multiset(p.versions) == multiset(versions)
  {
    SortAscending(versions);
    SpecificVersions(Sort(versions))
  }

  /** std::sort with std::greater: the same values, largest first. */
  function Descending(s: seq<int>): (r: seq<int>)
    ensures |r| == |s|
  {
    SameCount(Sort(s), s);
    var t := Sort(s);
    seq(|t|, i requires 0 <= i < |t| => t[|t| - 1 - i])
  }

  function Filter(p: Policy, versions: seq<int>): seq<int> {
    match p
    case AllVersions => versions
    case SpecificVersions(s) => Intersection(Sort(versions), s)
    case LatestVersions(n) => Descending(versions)[..if n < |versions| then n else |versions|]
  }

  /** LatestModelVersionPolicy::filter, with its push_back loop. */
  method FilterLatest(num: nat, versions: seq<int>) returns (result: seq<int>)
    ensures result == Filter(LatestVersions(num), versions)
  {
    var sorted := Descending(versions);
    result := [];
    var i := 0;
    while i < num && i < |sorted|
      invariant 0 <= i <= num && i <= |sorted|
      invariant result == sorted[..i]
    {
      result := result + [sorted[i]];
      i := i + 1;
    }
  }

  method FilterVersions(p: Policy, versions: seq<int>) returns (result: seq<int>)
    ensures result == Filter(p, versions)
  {
    match p {
      case AllVersions => result := versions;
      case SpecificVersions(s) => result := Intersection(Sort(versions), s);
      case LatestVersions(n) => result := FilterLatest(n, versions);
    }
  }

  // ---- what the filters mean ----

  function Above(s: set<int>, x: int): set<int> {
    set y | y in s && x < y
  }

  /** The reference meaning of a policy on a set of versions. */
  predicate Selected(p: Policy, s: set<int>, x: int) {
    x in s &&
    match p
    case AllVersions => true
    case SpecificVersions(vs) => x in vs
    case LatestVersions(n) => |Above(s, x)| < n
  }

  function Select(p: Policy, s: set<int>): set<int> {
    set x | x in s && Selected(p, s, x)
  }

  lemma {:induction false} NoDupSize(s: seq<int>)
    requires NoDup(s)
    ensures |ToSet(s)| == |s|
  {
    if s == [] {
    } else {
      NoDupTail(s);
      NoDupSize(s[1..]);
      assert s == [s[0]] + s[1..];
      assert ToSet(s) == ToSet(s[1..]) + {s[0]};
    }
  }

  lemma DescendingOrder(s: seq<int>)
    requires NoDup(s)
    ensures forall x :: x in Descending(s) <==> x in s
    ensures forall i, j :: 0 <= i < j < |s| ==> Descending(s)[j] < Descending(s)[i]
  {
    var t := Sort(s);
    SortAscending(s);
    SameCount(t, s);
    NoDupDistinct(t);
    var d := Descending(s);
    forall x ensures x in d <==> x in t {
      if x in t {
        var i :| 0 <= i < |t| && t[i] == x;
        assert d[|t| - 1 - i] == x;
      }
    }
  }

  lemma RankIsIndex(s: seq<int>, i: nat)
    requires NoDup(s) && i < |s|
    ensures |Above(ToSet(s), Descending(s)[i])| == i
  {
    DescendingOrder(s);
    var d := Descending(s);
    forall y ensures y in Above(ToSet(s), d[i]) <==> y in ToSet(d[..i]) {
      if y in Above(ToSet(s), d[i]) {
        var j :| 0 <= j < |d| && d[j] == y;
        assert j < i;
        assert d[..i][j] == y;
      }
      if y in d[..i] {
        var j :| 0 <= j < i && d[..i][j] == y;
        assert y in d;
      }
    }
    NoDupDistinct(d[..i]);
    NoDupSize(d[..i]);
    assert Above(ToSet(s), d[i]) == ToSet(d[..i]);
  }

  lemma LatestByRank(n: nat, s: seq<int>, x: int)
    requires NoDup(s)
    ensures x in Filter(LatestVersions(n), s) <==> Selected(LatestVersions(n), ToSet(s), x)
  {
    DescendingOrder(s);
    var d := Descending(s);
    var f := Filter(LatestVersions(n), s);
    if x in s {
      var i :| 0 <= i < |d| && d[i] == x;
      RankIsIndex(s, i);
      if i < n {
        assert f[i] == x;
      }
      if x in f {
        var j :| 0 <= j < |f| && f[j] == x;
        assert d[j] == x;
      }
    }
  }

  /** On a list without duplicates every filter computes its reference meaning,
      and its result has no duplicates either. */
  lemma FilterMeaning(p: Policy, s: seq<int>)
    requires p.Valid() && NoDup(s)
    ensures ToSet(Filter(p, s)) == Select(p, ToSet(s))
    ensures NoDup(Filter(p, s))
  {
    match p
    case AllVersions =>
      assert ToSet(s) == Select(p, ToSet(s));
    case SpecificVersions(vs) =>
      SortAscending(s);
      SameCount(Sort(s), s);
      IntersectionMembers(Sort(s), vs);
      forall x ensures x in ToSet(Filter(p, s)) <==> x in Select(p, ToSet(s)) {
        assert x in Sort(s) <==> x in s;
      }
    case LatestVersions(n) =>
      DescendingOrder(s);
      var f := Filter(p, s);
      NoDupDistinct(f);
      forall x ensures x in ToSet(f) <==> x in Select(p, ToSet(s)) {
        LatestByRank(n, s, x);
        assert x in ToSet(f) <==> x in f;
      }
  }

  lemma FilterSubset(p: Policy, s: seq<int>)
    requires p.Valid()
    ensures forall x :: x in Filter(p, s) ==> x in s
  {
    SameCount(Sort(s), s);
    match p
    case AllVersions =>
    case SpecificVersions(vs) =>
      SortAscending(s);
      IntersectionMembers(Sort(s), vs);
    case LatestVersions(n) =>
      forall x | x in Filter(p, s) ensures x in s {
        assert x in Sort(s);
      }
  }

  /** The latest-n policy takes min(n, size) versions, each above every version it leaves out. */
  lemma LatestTakesGreatest(n: nat, s: seq<int>)
    requires NoDup(s)
    ensures |Filter(LatestVersions(n), s)| == if n < |s| then n else |s|
    ensures forall x, y :: x in Filter(LatestVersions(n), s) && y in s && y !in Filter(LatestVersions(n), s) ==> y < x
  {
    DescendingOrder(s);
    var d := Descending(s);
    var k := if n < |s| then n else |s|;
    assert forall m :: 0 <= m < k ==> d[..k][m] == d[m] && d[m] in d[..k];
    forall x, y | x in d[..k] && y in s && y !in d[..k] ensures y < x {
      var i :| 0 <= i < k && d[..k][i] == x;
      assert d[i] == x;
      var j :| 0 <= j < |d| && d[j] == y;
    }
  }

  /** A selected version stays selected when other versions disappear. */
  lemma SelectedStable(p: Policy, a: set<int>, b: set<int>, x: int)
    requires b <= a && x in b && Selected(p, a, x)
    ensures Selected(p, b, x)
  {
    if p.LatestVersions? {
      SubsetSize(Above(b, x), Above(a, x));
    }
  }

  lemma {:induction false} SubsetSize<T>(a: set<T>, b: set<T>)
    requires a <= b
    ensures |a| <= |b|
    ensures |a| == |b| ==> a == b
  {
    assert b == a + (b - a);
    assert |b| == |a| + |b - a|;
    if |a| == |b| {
      assert b - a == {};
    }
  }

  lemma DropOneUnselected(p: Policy, a: set<int>, z: int)
    requires z in a && !Selected(p, a, z)
    ensures Select(p, a - {z}) == Select(p, a)
  {
    var b := a - {z};
    forall x ensures x in Select(p, b) <==> x in Select(p, a) {
      if p.LatestVersions? && x in b {
        if z > x {
          assert Above(a, x) == Above(b, x) + {z};
          SubsetSize(Above(a, z), Above(b, x));
        } else {
          assert Above(a, x) == Above(b, x);
        }
      }
    }
  }

  /** Dropping only versions that were not selected changes nothing. */
  lemma {:induction false} DropUnselected(p: Policy, a: set<int>, b: set<int>)
    requires Select(p, a) <= b <= a
    ensures Select(p, b) == Select(p, a)
    decreases |a|
  {
    if a == b {
    } else {
      EmptyOrInhabited(a - b);
      assert a == b + (a - b);
      var z :| z in a - b;
      assert z !in Select(p, a);
      DropOneUnselected(p, a, z);
      DropUnselected(p, a - {z}, b);
    }
  }

  lemma {:induction false} ReverseCount(t: seq<int>, r: seq<int>)
    requires |r| == |t| && forall i :: 0 <= i < |t| ==> r[i] == t[|t| - 1 - i]
    ensures multiset(r) == multiset(t)
  {
    if t != [] {
      var n := |t| - 1;
      ReverseCount(t[..n], r[1..]);
      assert t == t[..n] + [t[n]] && r == [r[0]] + r[1..];
    }
  }

  lemma PrefixCount(s: seq<int>, k: nat)
    requires k <= |s|
    ensures multiset(s[..k]) <= multiset(s)
  {
    assert s == s[..k] + s[k..];
  }

  lemma LatestCount(n: nat, s: seq<int>)
    ensures multiset(Filter(LatestVersions(n), s)) <= multiset(s)
  {
    var d := Descending(s);
    SameCount(Sort(s), s);
    ReverseCount(Sort(s), d);
    PrefixCount(d, if n < |s| then n else |s|);
  }

  /** No policy adds copies of a version. */
  lemma FilterCount(p: Policy, s: seq<int>)
    requires p.Valid()
    ensures multiset(Filter(p, s)) <= multiset(s)
  {
    match p
    case AllVersions =>
    case SpecificVersions(vs) =>
      SortAscending(s);
      IntersectionLaw(Sort(s), vs);
    case LatestVersions(n) => LatestCount(n, s);
  }

  // ---- lists with repeated versions ----

  /** v is among the last n elements. */
  ghost predicate AmongLast(t: seq<int>, n: nat, v: int) {
    exists j :: 0 <= j < |t| && |t| - j <= n && t[j] == v
  }

  /** latest-n takes what is among the last n of the sorted list. */
  lemma LatestMembers(n: nat, s: seq<int>, v: int)
    ensures v in Filter(LatestVersions(n), s) <==> AmongLast(Sort(s), n, v)
  {
    SameCount(Sort(s), s);
    ReversedPrefix(Sort(s), Descending(s), n, if n < |s| then n else |s|, v);
  }

  lemma ReversedPrefix(t: seq<int>, d: seq<int>, n: nat, m: nat, v: int)
    requires |d| == |t| && (forall i :: 0 <= i < |t| ==> d[i] == t[|t| - 1 - i])
    requires m == if n < |t| then n else |t|
    ensures v in d[..m] <==> AmongLast(t, n, v)
  {
    if v in d[..m] {
      var i :| 0 <= i < m && d[..m][i] == v;
      assert t[|t| - 1 - i] == v;
    }
    if AmongLast(t, n, v) {
      var j :| 0 <= j < |t| && |t| - j <= n && t[j] == v;
      assert d[..m][|t| - 1 - j] == v;
    }
  }

  lemma {:induction false} WithoutAppend(a: seq<int>, b: seq<int>, x: int)
    ensures Without(a + b, x) == Without(a, x) + Without(b, x)
  {
    if a == [] {
      assert a + b == b;
    } else {
      assert (a + b)[1..] == a[1..] + b;
      WithoutAppend(a[1..], b, x);
    }
  }

  lemma SortWithout(s: seq<int>, x: int)
    ensures Sort(Without(s, x)) == Without(Sort(s), x)
  {
    SortAscending(s);
    SortAscending(Without(s, x));
    WithoutAscending(Sort(s), x);
    SortedUnique(Sort(Without(s, x)), Without(Sort(s), x));
  }

  lemma {:induction false} SortedUnique(a: seq<int>, b: seq<int>)
    requires Ascending(a) && Ascending(b) && multiset(a) == multiset(b)
    ensures a == b
  {
    SameCount(a, b);
    if a != [] {
      Tail(a);
      Tail(b);
      assert a[0] in b && b[0] in a;
      assert a[0] == b[0];
      assert multiset(a[1..]) == multiset(a) - multiset{a[0]};
      assert multiset(b[1..]) == multiset(b) - multiset{b[0]};
      SortedUnique(a[1..], b[1..]);
    }
  }

  lemma AmongLastStays(t: seq<int>, n: nat, v: int, x: int)
    requires AmongLast(t, n, v) && x != v
    ensures AmongLast(Without(t, x), n, v)
  {
    var j :| 0 <= j < |t| && |t| - j <= n && t[j] == v;
    var front, back := t[..j], t[j + 1..];
    assert t == front + ([v] + back);
    WithoutAppend(front, [v] + back, x);
    WithoutAppend([v], back, x);
    WithoutAbsent([v], x);
    assert Without(t, x)[|Without(front, x)|] == v;
  }

  /** Removing another version does not push a version out of the latest n. */
  lemma LatestStays(n: nat, s: seq<int>, v: int, x: int)
    requires v in Filter(LatestVersions(n), s) && x != v
    ensures v in Filter(LatestVersions(n), Without(s, x))
  {
    LatestMembers(n, s, v);
    AmongLastStays(Sort(s), n, v, x);
    SortWithout(s, x);
    LatestMembers(n, Without(s, x), v);
  }

  /** No policy drops a version because another one is removed. */
  lemma TakenStays(p: Policy, s: seq<int>, v: int, x: int)
    requires p.Valid() && v in Filter(p, s) && x != v
    ensures v in Filter(p, Without(s, x))
  {
    WithoutMembers(s, x);
    match p
    case AllVersions =>
    case SpecificVersions(vs) =>
      SortAscending(s);
      SortAscending(Without(s, x));
      SameCount(Sort(s), s);
      SameCount(Sort(Without(s, x)), Without(s, x));
      IntersectionMembers(Sort(s), vs);
      IntersectionMembers(Sort(Without(s, x)), vs);
    case LatestVersions(n) => LatestStays(n, s, v, x);
  }

  function LastOf(t: seq<int>, n: nat): seq<int> {
    if n < |t| then t[|t| - n..] else t
  }

  /** latest-n takes the end of the sorted list, with its copies. */
  lemma LatestCopies(n: nat, s: seq<int>)
    ensures multiset(Filter(LatestVersions(n), s)) == multiset(LastOf(Sort(s), n))
  {
    SameCount(Sort(s), s);
    ReverseCount(LastOf(Sort(s), n), Filter(LatestVersions(n), s));
  }

  lemma EndIsAmongLast(front: seq<int>, end: seq<int>, n: nat)
    requires |end| <= n
    ensures multiset(end) <= multiset(LastOf(front + end, n))
  {
    var t := front + end;
    var k := if n < |t| then |t| - n else 0;
    assert t[k..] == front[k..] + end;
    assert LastOf(t, n) == t[k..];
  }

  lemma WithoutAround(front: seq<int>, v: int, back: seq<int>, x: int)
    requires x != v
    ensures Without(front + [v] + back, x) == Without(front, x) + ([v] + Without(back, x))
  {
    assert front + [v] + back == front + ([v] + back);
    WithoutAppend(front, [v] + back, x);
    WithoutAppend([v], back, x);
    WithoutAbsent([v], x);
  }

  /** In an ascending list equal elements are neighbours. */
  lemma CopiesTogether(front: seq<int>, back: seq<int>, v: int)
    requires Ascending(front + back) && v in front && v in back
    ensures front == front[..|front| - 1] + [v]
  {
    var t := front + back;
    var i :| 0 <= i < |front| && front[i] == v;
    var j :| 0 <= j < |back| && back[j] == v;
    assert t[i] == v && t[|front| + j] == v && t[|front| - 1] == front[|front| - 1];
  }

  /** If the last elements begin in the middle of the copies of v, then the removal of
      another one of them brings in one more copy. */
  lemma OneMoreAmongLast(front: seq<int>, back: seq<int>, v: int, x: int)
    requires Ascending(front + back) && v in front && v in back && x in back && x != v
    ensures multiset(LastOf(Without(front + back, x), |back|))[v] > multiset(back)[v]
  {
    CopiesTogether(front, back, v);
    var f := front[..|front| - 1];
    WithoutAround(f, v, back, x);
    EndIsAmongLast(Without(f, x), [v] + Without(back, x), |back|);
    assert multiset([v] + Without(back, x))[v] == 1 + multiset(back)[v];
  }

  lemma OtherCopies(t: seq<int>, n: nat, v: int)
    requires multiset(t)[v] > multiset(LastOf(t, n))[v]
    ensures n < |t| && v in t[..|t| - n] && t == t[..|t| - n] + LastOf(t, n) && |LastOf(t, n)| == n
  {
    assert n < |t|;
    var front := t[..|t| - n];
    assert t == front + LastOf(t, n);
    assert v in multiset(front);
  }

  /** Of a version that is listed more often than latest-n takes it, one more copy is taken
      when another version that it takes drops out. */
  lemma OneMoreTaken(n: nat, s: seq<int>, v: int, x: int)
    requires v in Filter(LatestVersions(n), s) && multiset(s)[v] > multiset(Filter(LatestVersions(n), s))[v]
    requires x in Filter(LatestVersions(n), s) && x != v
    ensures multiset(Filter(LatestVersions(n), Without(s, x)))[v] > multiset(Filter(LatestVersions(n), s))[v]
  {
    var t := Sort(s);
    SortAscending(s);
    SortWithout(s, x);
    LatestCopies(n, s);
    LatestCopies(n, Without(s, x));
    SameCount(Filter(LatestVersions(n), s), LastOf(t, n));
    OtherCopies(t, n, v);
    OneMoreAmongLast(t[..|t| - n], LastOf(t, n), v, x);
  }

  /** The policy selects v exactly once, and goes on doing so when other versions are
      removed: for the latest versions v itself must be listed once. */
  ghost predicate SafelyListed(p: Policy, s: seq<int>, v: int) {
    multiset(Filter(p, s))[v] == 1 && (p.LatestVersions? ==> multiset(s)[v] == 1)
  }

  lemma SafelyStays(p: Policy, s: seq<int>, v: int, x: int)
    requires p.Valid() && SafelyListed(p, s, v) && x != v
    ensures SafelyListed(p, Without(s, x), v)
  {
    var r := Without(s, x);
    match p
    case AllVersions =>
    case SpecificVersions(vs) =>
      SortAscending(s);
      SortAscending(r);
      IntersectionLaw(Sort(s), vs);
      IntersectionLaw(Sort(r), vs);
    case LatestVersions(n) =>
      assert v in multiset(Filter(p, s));
      LatestStays(n, s, v, x);
      FilterCount(p, r);
      assert v in multiset(Filter(p, r));
  }

  /** Without repetitions every selected version is safely listed. */
  lemma NoDupSafely(p: Policy, s: seq<int>, v: int)
    requires p.Valid() && NoDup(s) && v in Filter(p, s)
    ensures SafelyListed(p, s, v)
  {
    FilterMeaning(p, s);
    FilterSubset(p, s);
    assert v in multiset(Filter(p, s)) && v in multiset(s);
  }
}
