/** The standard-library algorithms on version vectors that the server relies on,
    as pure functions, with the laws the reconciliation proofs use. */
module Vectors {

  ghost predicate Ascending(s: seq<int>) {
    forall i, j :: 0 <= i < j < |s| ==> s[i] <= s[j]
  }

  /** No element occurs twice. */
  ghost predicate NoDup(s: seq<int>) {
    forall x :: multiset(s)[x] <= 1
  }

  ghost predicate Distinct(s: seq<int>) {
    forall i, j :: 0 <= i < j < |s| ==> s[i] != s[j]
  }

  function ToSet(s: seq<int>): set<int> {
    set x | x in s
  }

  lemma Tail(s: seq<int>)
    requires s != []
    ensures s == [s[0]] + s[1..]
    ensures multiset(s) == multiset{s[0]} + multiset(s[1..])
    ensures Ascending(s) ==> Ascending(s[1..]) && forall y :: y in s ==> s[0] <= y
  {
    assert s == [s[0]] + s[1..];
  }

  lemma ConsAscending(x: int, t: seq<int>)
    requires Ascending(t) && forall y :: y in t ==> x <= y
    ensures Ascending([x] + t)
  {
    var r := [x] + t;
    forall i, j | 0 <= i < j < |r| ensures r[i] <= r[j] {
      assert r[j] == t[j-1] && t[j-1] in t;
      if i > 0 {
        assert r[i] == t[i-1];
      }
    }
  }

  lemma InMultiset<T>(s: seq<T>)
    ensures forall x :: x in s <==> x in multiset(s)
  {
  }

  // ---- std::sort ----

  function Insert(x: int, s: seq<int>): (r: seq<int>)
    ensures multiset(r) == multiset(s) + multiset{x}
  {
    if s == [] then [x]
    else if x <= s[0] then [x] + s
    else
      assert s == [s[0]] + s[1..];
      [s[0]] + Insert(x, s[1..])
  }

  function Sort(s: seq<int>): (r: seq<int>)
    ensures multiset(r) == multiset(s)
  {
    if s == [] then []
    else
      assert s == [s[0]] + s[1..];
      Insert(s[0], Sort(s[1..]))
  }

  lemma {:induction false} InsertAscending(x: int, s: seq<int>)
    requires Ascending(s)
    ensures Ascending(Insert(x, s))
  {
    if s == [] {
    } else {
      Tail(s);
      if x <= s[0] {
        ConsAscending(x, s);
      } else {
        InsertAscending(x, s[1..]);
        InMultiset(Insert(x, s[1..]));
        InMultiset(s[1..]);
        ConsAscending(s[0], Insert(x, s[1..]));
      }
    }
  }

  lemma {:induction false} SortAscending(s: seq<int>)
    ensures Ascending(Sort(s))
  {
    if s != [] {
      SortAscending(s[1..]);
      InsertAscending(s[0], Sort(s[1..]));
    }
  }

  lemma SameCount<T>(a: seq<T>, b: seq<T>)
    requires multiset(a) == multiset(b)
    ensures |a| == |b| && forall x :: x in a <==> x in b
  {
    assert |multiset(a)| == |a| && |multiset(b)| == |b|;
    forall x ensures x in a <==> x in b {
      assert x in a <==> x in multiset(a);
      assert x in b <==> x in multiset(b);
    }
  }

  lemma NoDupTail(s: seq<int>)
    requires s != []
    ensures NoDup(s) <==> s[0] !in s[1..] && NoDup(s[1..])
  {
    Tail(s);
    InMultiset(s[1..]);
    if NoDup(s) {
      var h := s[0];
      assert multiset(s)[h] <= 1;
      forall x ensures multiset(s[1..])[x] <= 1 {
        assert multiset(s)[x] <= 1;
      }
    }
  }

  lemma NoDupFront(s: seq<int>)
    requires s != []
    ensures var front := s[..|s| - 1];
            s == front + [s[|s| - 1]] && (NoDup(s) <==> s[|s| - 1] !in front && NoDup(front))
  {
    var front := s[..|s| - 1];
    var x := s[|s| - 1];
    assert s == front + [x];
    assert multiset(s) == multiset(front) + multiset{x};
    InMultiset(front);
    if NoDup(s) {
      assert multiset(s)[x] <= 1;
      forall y ensures multiset(front)[y] <= 1 {
        assert multiset(s)[y] <= 1;
      }
    }
  }

  lemma {:induction false} NoDupDistinct(s: seq<int>)
    ensures NoDup(s) <==> Distinct(s)
  {
    if s == [] {
    } else {
      NoDupTail(s);
      NoDupDistinct(s[1..]);
      DistinctTail(s);
    }
  }

  lemma DistinctTail(s: seq<int>)
    requires s != []
    ensures Distinct(s) <==> s[0] !in s[1..] && Distinct(s[1..])
  {
    if Distinct(s) {
      forall i | 0 <= i < |s[1..]| ensures s[1..][i] != s[0] {
        assert s[1..][i] == s[i+1];
      }
      forall i, j | 0 <= i < j < |s[1..]| ensures s[1..][i] != s[1..][j] {
        assert s[1..][i] == s[i+1] && s[1..][j] == s[j+1];
      }
    }
    if s[0] !in s[1..] && Distinct(s[1..]) {
      forall i, j | 0 <= i < j < |s| ensures s[i] != s[j] {
        assert s[j] == s[1..][j-1];
        if i > 0 {
          assert s[i] == s[1..][i-1];
        }
      }
    }
  }

  // ---- std::remove followed by erase ----

  function Without(s: seq<int>, v: int): (r: seq<int>)
    ensures multiset(r) == multiset(s)[v := 0]
    ensures |r| <= |s| && (v in s ==> |r| < |s|)
  {
    if s == [] then []
    else
      assert s == [s[0]] + s[1..];
      if s[0] == v then Without(s[1..], v) else [s[0]] + Without(s[1..], v)
  }

  lemma WithoutMembers(s: seq<int>, v: int)
    ensures forall x :: x in Without(s, v) <==> x in s && x != v
  {
    forall x ensures x in Without(s, v) <==> x in s && x != v {
      assert x in Without(s, v) <==> x in multiset(Without(s, v));
      assert x in s <==> x in multiset(s);
    }
  }

  lemma WithoutSet(s: seq<int>, v: int)
    ensures ToSet(Without(s, v)) == ToSet(s) - {v}
  {
    WithoutMembers(s, v);
    forall x ensures x in ToSet(Without(s, v)) <==> x in ToSet(s) - {v} {
      assert x in Without(s, v) <==> x in s && x != v;
    }
  }

  lemma {:induction false} WithoutKeepsOrder(s: seq<int>, v: int)
    ensures Ascending(s) ==> Ascending(Without(s, v))
    ensures NoDup(s) ==> NoDup(Without(s, v))
  {
    if Ascending(s) {
      WithoutAscending(s, v);
    }
  }

  lemma {:induction false} WithoutAscending(s: seq<int>, v: int)
    requires Ascending(s)
    ensures Ascending(Without(s, v))
  {
    if s != [] {
      Tail(s);
      WithoutAscending(s[1..], v);
      WithoutMembers(s[1..], v);
      if s[0] != v {
        ConsAscending(s[0], Without(s[1..], v));
      }
    }
  }

  lemma {:induction false} WithoutAbsent(s: seq<int>, v: int)
    requires v !in s
    ensures Without(s, v) == s
  {
    if s != [] {
      WithoutAbsent(s[1..], v);
    }
  }

  /** Erases every element of "vs" in turn. */
  function WithoutAll(s: seq<int>, vs: seq<int>): seq<int>
    decreases vs
  {
    if vs == [] then s else WithoutAll(Without(s, vs[0]), vs[1..])
  }

  // ---- std::set_intersection and std::set_difference ----

  function Intersection(a: seq<int>, b: seq<int>): seq<int> {
    if a == [] || b == [] then []
    else if a[0] < b[0] then Intersection(a[1..], b)
    else if b[0] < a[0] then Intersection(a, b[1..])
    else [a[0]] + Intersection(a[1..], b[1..])
  }

  function Difference(a: seq<int>, b: seq<int>): seq<int> {
    if a == [] then []
    else if b == [] then a
    else if a[0] < b[0] then [a[0]] + Difference(a[1..], b)
    else if b[0] < a[0] then Difference(a, b[1..])
    else Difference(a[1..], b[1..])
  }

  lemma MeetSkips(x: int, m: multiset<int>, n: multiset<int>)
    requires x !in n
    ensures (multiset{x} + m) * n == m * n && n * (multiset{x} + m) == n * m
    ensures n - (multiset{x} + m) == n - m && (multiset{x} + m) - n == multiset{x} + (m - n)
  {
  }

  lemma MeetTakes(x: int, m: multiset<int>, n: multiset<int>)
    ensures (multiset{x} + m) * (multiset{x} + n) == multiset{x} + m * n
    ensures (multiset{x} + m) - (multiset{x} + n) == m - n
  {
  }

  /** When the heads differ, the smaller one is in one vector only. */
  lemma SkipHead(a: seq<int>, b: seq<int>)
    requires a != [] && b != [] && Ascending(b) && a[0] < b[0]
    ensures multiset(a) * multiset(b) == multiset(a[1..]) * multiset(b)
    ensures multiset(b) * multiset(a) == multiset(b) * multiset(a[1..])
    ensures multiset(a) - multiset(b) == multiset{a[0]} + (multiset(a[1..]) - multiset(b))
    ensures multiset(b) - multiset(a) == multiset(b) - multiset(a[1..])
  {
    Tail(a);
    BelowAll(a[0], b);
    MeetSkips(a[0], multiset(a[1..]), multiset(b));
  }

  lemma TakeHead(a: seq<int>, b: seq<int>)
    requires a != [] && b != [] && a[0] == b[0]
    ensures multiset(a) * multiset(b) == multiset{a[0]} + multiset(a[1..]) * multiset(b[1..])
    ensures multiset(a) - multiset(b) == multiset(a[1..]) - multiset(b[1..])
  {
    Tail(a);
    Tail(b);
    MeetTakes(a[0], multiset(a[1..]), multiset(b[1..]));
  }

  /** The merge loops over ascending vectors compute the multiset operations,
      and their results are ascending again. */
  lemma {:induction false} IntersectionLaw(a: seq<int>, b: seq<int>)
    requires Ascending(a) && Ascending(b)
    ensures multiset(Intersection(a, b)) == multiset(a) * multiset(b)
  {
    if a != [] && b != [] {
      if a[0] < b[0] {
        IntersectionLaw(a[1..], b);
        SkipHead(a, b);
      } else if b[0] < a[0] {
        IntersectionLaw(a, b[1..]);
        SkipHead(b, a);
      } else {
        IntersectionLaw(a[1..], b[1..]);
        TakeHead(a, b);
      }
    }
  }

  lemma {:induction false} DifferenceLaw(a: seq<int>, b: seq<int>)
    requires Ascending(a) && Ascending(b)
    ensures multiset(Difference(a, b)) == multiset(a) - multiset(b)
  {
    if a != [] && b != [] {
      if a[0] < b[0] {
        DifferenceLaw(a[1..], b);
        SkipHead(a, b);
      } else if b[0] < a[0] {
        DifferenceLaw(a, b[1..]);
        SkipHead(b, a);
      } else {
        DifferenceLaw(a[1..], b[1..]);
        TakeHead(a, b);
      }
    }
  }

  lemma BelowAll(x: int, s: seq<int>)
    requires s != [] && Ascending(s) && x < s[0]
    ensures multiset(s)[x] == 0
  {
    Tail(s);
    InMultiset(s);
    assert x !in s;
  }

  lemma {:induction false} IntersectionAscending(a: seq<int>, b: seq<int>)
    requires Ascending(a) && Ascending(b)
    ensures Ascending(Intersection(a, b))
    ensures forall x :: x in Intersection(a, b) ==> x in a
  {
    if a == [] || b == [] {
    } else {
      Tail(a);
      Tail(b);
      if a[0] < b[0] {
        IntersectionAscending(a[1..], b);
      } else if b[0] < a[0] {
        IntersectionAscending(a, b[1..]);
      } else {
        IntersectionAscending(a[1..], b[1..]);
        ConsAscending(a[0], Intersection(a[1..], b[1..]));
      }
    }
  }

  lemma {:induction false} DifferenceAscending(a: seq<int>, b: seq<int>)
    requires Ascending(a) && Ascending(b)
    ensures Ascending(Difference(a, b))
    ensures forall x :: x in Difference(a, b) ==> x in a
  {
    if a == [] || b == [] {
    } else {
      Tail(a);
      Tail(b);
      if a[0] < b[0] {
        DifferenceAscending(a[1..], b);
        ConsAscending(a[0], Difference(a[1..], b));
      } else if b[0] < a[0] {
        DifferenceAscending(a, b[1..]);
      } else {
        DifferenceAscending(a[1..], b[1..]);
      }
    }
  }

  lemma IntersectionMembers(a: seq<int>, b: seq<int>)
    requires Ascending(a) && Ascending(b)
    ensures forall x :: x in Intersection(a, b) <==> x in a && x in b
    ensures NoDup(a) || NoDup(b) ==> NoDup(Intersection(a, b))
    ensures Ascending(Intersection(a, b))
  {
    IntersectionLaw(a, b);
    IntersectionAscending(a, b);
    var r := Intersection(a, b);
    forall x ensures x in r <==> x in a && x in b {
      assert x in r <==> x in multiset(r);
      assert x in a <==> x in multiset(a);
      assert x in b <==> x in multiset(b);
    }
  }

  lemma DifferenceMembers(a: seq<int>, b: seq<int>)
    requires Ascending(a) && Ascending(b)
    ensures forall x :: x in a && x !in b ==> x in Difference(a, b)
    ensures forall x :: x in Difference(a, b) ==> x in a
    ensures NoDup(a) ==> forall x :: x in Difference(a, b) ==> x !in b
    ensures NoDup(a) ==> NoDup(Difference(a, b))
    ensures Ascending(Difference(a, b))
  {
    DifferenceLaw(a, b);
    DifferenceAscending(a, b);
    var r := Difference(a, b);
    forall x
      ensures x in r <==> multiset(a)[x] > multiset(b)[x]
    {
      assert x in r <==> x in multiset(r);
    }
    forall x ensures (x in a <==> multiset(a)[x] > 0) && (x in b <==> multiset(b)[x] > 0) {
      assert x in a <==> x in multiset(a);
      assert x in b <==> x in multiset(b);
    }
  }

  // ---- std::lower_bound and std::binary_search ----

  function LowerBound(s: seq<int>, v: int, first: nat, len: nat): (r: nat)
    requires first + len <= |s|
    ensures first <= r <= first + len
    decreases len
  {
    if len == 0 then first
    else
      var half := len / 2;
      var mid := first + half;
      if s[mid] < v then LowerBound(s, v, mid + 1, len - half - 1)
      else LowerBound(s, v, first, half)
  }

  predicate BinarySearch(s: seq<int>, v: int) {
    var p := LowerBound(s, v, 0, |s|);
    p < |s| && !(v < s[p])
  }

  /** Whatever the order, a search stops at a value that is not below the wanted one. */
  lemma {:induction false} LowerBoundStops(s: seq<int>, v: int, first: nat, len: nat)
    requires first + len <= |s|
    ensures var r := LowerBound(s, v, first, len); r < first + len ==> v <= s[r]
    decreases len
  {
    if len != 0 {
      var half := len / 2;
      var mid := first + half;
      if s[mid] < v {
        LowerBoundStops(s, v, mid + 1, len - half - 1);
      } else {
        LowerBoundStops(s, v, first, half);
      }
    }
  }

  /** In any list, what is found is there. */
  lemma BinarySearchSound(s: seq<int>, v: int)
    requires BinarySearch(s, v)
    ensures v in s
  {
    LowerBoundStops(s, v, 0, |s|);
  }

  lemma AllBelow(s: seq<int>, mid: nat, v: int)
    requires Ascending(s) && mid < |s| && s[mid] < v
    ensures forall i :: 0 <= i <= mid ==> s[i] < v
  {
    assert forall i :: 0 <= i < mid ==> s[i] <= s[mid];
  }

  lemma NoneBelow(s: seq<int>, mid: nat, v: int)
    requires Ascending(s) && mid < |s| && v <= s[mid]
    ensures forall i :: mid <= i < |s| ==> v <= s[i]
  {
    assert forall i :: mid < i < |s| ==> s[mid] <= s[i];
  }

  lemma {:induction false} LowerBoundSplits(s: seq<int>, v: int, first: nat, len: nat)
    requires first + len <= |s| && Ascending(s)
    ensures forall i :: first <= i < LowerBound(s, v, first, len) ==> s[i] < v
    ensures forall i :: LowerBound(s, v, first, len) <= i < first + len ==> v <= s[i]
    decreases len
  {
    if len != 0 {
      var half := len / 2;
      var mid := first + half;
      if s[mid] < v {
        LowerBoundSplits(s, v, mid + 1, len - half - 1);
        AllBelow(s, mid, v);
      } else {
        LowerBoundSplits(s, v, first, half);
        NoneBelow(s, mid, v);
      }
    }
  }

  /** On an ascending vector the search is membership. */
  lemma BinarySearchAscending(s: seq<int>, v: int)
    requires Ascending(s)
    ensures BinarySearch(s, v) <==> v in s
  {
    LowerBoundSplits(s, v, 0, |s|);
  }

  /** Every value is found at its own place. A vector that is not sorted may miss some. */
  ghost predicate FindsAll(s: seq<int>, first: nat, len: nat)
    requires first + len <= |s|
  {
    forall j :: first <= j < first + len ==> LowerBound(s, s[j], first, len) == j
  }

  ghost predicate AscendingIn(s: seq<int>, first: nat, len: nat)
    requires first + len <= |s|
  {
    forall i, j :: first <= i < j < first + len ==> s[i] <= s[j]
  }

  /** Nothing before "mid" is greater than what stands there, and nothing after it less. */
  ghost predicate Divides(s: seq<int>, first: nat, mid: nat, end: nat)
    requires first <= mid < end <= |s|
  {
    && (forall j :: first <= j < mid ==> s[j] <= s[mid])
    && (forall j :: mid < j < end ==> s[mid] <= s[j])
  }

  lemma FindsInHalf(s: seq<int>, first: nat, len: nat, half: nat, j: nat)
    requires first + len <= |s| && half < len && half == len / 2
    requires first <= j < first + len && LowerBound(s, s[j], first, len) == j
    ensures j < first + half ==> s[j] <= s[first + half] && LowerBound(s, s[j], first, half) == j
    ensures j > first + half ==>
              s[first + half] <= s[j] && LowerBound(s, s[j], first + half + 1, len - half - 1) == j
  {
  }

  /** When the whole range finds every value, so do both halves. */
  lemma FindsHalves(s: seq<int>, first: nat, len: nat, half: nat)
    requires first + len <= |s| && len != 0 && half == len / 2 && FindsAll(s, first, len)
    ensures FindsAll(s, first, half) && FindsAll(s, first + half + 1, len - half - 1)
    ensures Divides(s, first, first + half, first + len)
  {
    var mid := first + half;
    forall j | first <= j < mid ensures s[j] <= s[mid] && LowerBound(s, s[j], first, half) == j {
      FindsInHalf(s, first, len, half, j);
    }
    forall j | mid < j < first + len ensures s[mid] <= s[j] && LowerBound(s, s[j], mid + 1, len - half - 1) == j {
      FindsInHalf(s, first, len, half, j);
    }
  }

  lemma JoinAscending(s: seq<int>, first: nat, len: nat, half: nat)
    requires first + len <= |s| && half < len && Divides(s, first, first + half, first + len)
    requires AscendingIn(s, first, half) && AscendingIn(s, first + half + 1, len - half - 1)
    ensures AscendingIn(s, first, len)
  {
  }

  lemma {:induction false} FindsAllAscending(s: seq<int>, first: nat, len: nat)
    requires first + len <= |s| && FindsAll(s, first, len)
    ensures AscendingIn(s, first, len)
    decreases len
  {
    if len != 0 {
      var half := len / 2;
      FindsHalves(s, first, len, half);
      FindsAllAscending(s, first, half);
      FindsAllAscending(s, first + half + 1, len - half - 1);
      JoinAscending(s, first, len, half);
    }
  }

  /** A list without duplicates in which every version is found is ascending. */
  lemma MissedUnlessAscending(s: seq<int>)
    requires NoDup(s) && forall v :: v in s ==> BinarySearch(s, v)
    ensures Ascending(s)
  {
    NoDupDistinct(s);
    forall j | 0 <= j < |s| ensures LowerBound(s, s[j], 0, |s|) == j {
      LowerBoundStops(s, s[j], 0, |s|);
      assert BinarySearch(s, s[j]);
    }
    FindsAllAscending(s, 0, |s|);
  }

  lemma SomeMissed(s: seq<int>) returns (v: int)
    requires NoDup(s) && !Ascending(s)
    ensures v in s && !BinarySearch(s, v)
  {
    if forall v :: v in s ==> BinarySearch(s, v) {
      MissedUnlessAscending(s);
    }
    v :| v in s && !BinarySearch(s, v);
  }

  // ---- iteration order of std::map and std::set ----

  lemma EmptyOrInhabited(s: set<int>)
    ensures s == {} || exists y :: y in s
  {
    if forall y :: y !in s {
      assert s == {};
    }
  }

  ghost predicate IsLeast(s: set<int>, m: int) {
    m in s && forall x :: x in s ==> m <= x
  }

  lemma {:induction false} HasLeast(s: set<int>) returns (m: int)
    requires s != {}
    ensures IsLeast(s, m)
  {
    EmptyOrInhabited(s);
    var y :| y in s;
    var rest := s - {y};
    m := y;
    if rest != {} {
      var l := HasLeast(rest);
      m := if l <= y then l else y;
    }
    forall x | x in s ensures m <= x {
      assert x == y || x in rest;
    }
  }

  lemma LeastExists(s: set<int>)
    requires s != {}
    ensures exists m :: m in s && forall x :: x in s ==> m <= x
  {
    var m := HasLeast(s);
  }

  function Least(s: set<int>): (m: int)
    requires s != {}
    ensures m in s && forall x :: x in s ==> m <= x
  {
    LeastExists(s);
    var m :| m in s && forall x :: x in s ==> m <= x;
    m
  }

  function Keys(s: set<int>): (r: seq<int>)
    ensures forall x :: x in r <==> x in s
    ensures |r| == |s|
  {
    if s == {} then [] else [Least(s)] + Keys(s - {Least(s)})
  }

  lemma {:induction false} KeysOrdered(s: set<int>)
    ensures Ascending(Keys(s)) && NoDup(Keys(s))
  {
    if s != {} {
      KeysOrdered(s - {Least(s)});
      NoDupTail(Keys(s));
      ConsAscending(Least(s), Keys(s - {Least(s)}));
    }
  }
}
