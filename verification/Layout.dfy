/** Layouts: strings of dimension letters, unknown dimensions and at most one "...". */
module Layout {
  import opened Common

  const LETTERS := "NCHWD"
  const ETC := "..."

  /** The text and the batch index computed when the layout was made from a string. */
  datatype Layout = Layout(text: string, batchIndex: Option<nat>)

  // ---- the grammar ----

  predicate Known(c: char) {
    c in LETTERS || c == '?'
  }

  ghost predicate NoDots(s: string) {
    forall i :: 0 <= i < |s| ==> s[i] != '.'
  }

  /** A run of exactly three dots at i and no other dot. */
  ghost predicate EtcAt(s: string, i: nat) {
    && i + 3 <= |s|
    && forall j :: 0 <= j < |s| ==> (s[j] == '.' <==> i <= j < i + 3)
  }

  ghost predicate DistinctLetters(s: string) {
    forall i, j :: 0 <= i < j < |s| && s[i] in LETTERS ==> s[i] != s[j]
  }

  ghost predicate Dots(s: string) {
    NoDots(s) || exists i: nat :: EtcAt(s, i)
  }

  predicate AllowedOnly(s: string) {
    forall i :: 0 <= i < |s| ==> Known(s[i]) || s[i] == '.'
  }

  ghost predicate Valid(s: string) {
    AllowedOnly(s) && DistinctLetters(s) && Dots(s)
  }

  /** Which single characters are layouts, and that any of the five dimensions may appear
      together. */
  lemma Alphabet(c: char)
    ensures Valid([c]) <==> c in {'N', 'C', 'H', 'W', 'D', '?'}
    ensures Valid("NCDHW")
  {
    var s := [c];
    assert s[0] == c;
    assert |s| == 1 && forall i: nat :: !EtcAt(s, i);
    var t := "NCDHW";
    assert NoDots(t);
    assert DistinctLetters(t);
  }

  // ---- validate ----

  function Count(s: string, c: char): nat {
    if s == [] then 0 else Count(s[..|s| - 1], c) + (if s[|s| - 1] == c then 1 else 0)
  }

  ghost predicate Once(s: string, c: char) {
    forall i, j :: 0 <= i < j < |s| && s[i] == c ==> s[j] != c
  }

  lemma OnceStep(s: string, c: char)
    requires s != []
    ensures var front := s[..|s| - 1];
            Once(s, c) <==> Once(front, c) && (s[|s| - 1] == c ==> c !in front)
  {
    var n := |s| - 1;
    assert forall i :: 0 <= i < n ==> s[..n][i] == s[i];
    if Once(s, c) && s[n] == c {
      assert c !in s[..n];
    }
  }

  lemma {:induction false} CountPositions(s: string, c: char)
    ensures Count(s, c) == 0 <==> c !in s
    ensures Count(s, c) <= 1 <==> Once(s, c)
  {
    if s == [] {
    } else {
      var n := |s| - 1;
      CountPositions(s[..n], c);
      OnceStep(s, c);
      assert s == s[..n] + [s[n]];
    }
  }

  method LettersOnce(s: string) returns (ok: bool)
    ensures ok <==> DistinctLetters(s)
  {
    var k := 0;
    while k < |LETTERS|
      invariant 0 <= k <= |LETTERS|
      invariant forall m :: 0 <= m < k ==> Count(s, LETTERS[m]) <= 1
    {
      if Count(s, LETTERS[k]) > 1 {
        CountPositions(s, LETTERS[k]);
        assert LETTERS[k] in LETTERS;
        return false;
      }
      k := k + 1;
    }
    forall i, j | 0 <= i < j < |s| && s[i] in LETTERS ensures s[i] != s[j] {
      var m :| 0 <= m < |LETTERS| && LETTERS[m] == s[i];
      CountPositions(s, LETTERS[m]);
    }
    return true;
  }

  /** The last n characters of s are its only dots. */
  ghost predicate EndsInDots(s: string, n: nat) {
    n <= |s| && forall j :: 0 <= j < |s| ==> (s[j] == '.' <==> |s| - n <= j)
  }

  method DotsOnce(s: string) returns (ok: bool)
    ensures ok <==> Dots(s)
  {
    var dotCount := 0;
    var firstEtcAppeared, fullEtcAppeared := false, false;
    ghost var etc := 0;
    var i := 0;
    while i < |s|
      invariant 0 <= i <= |s| && 0 <= etc
      invariant !firstEtcAppeared && !fullEtcAppeared ==> dotCount == 0 && NoDots(s[..i])
      invariant firstEtcAppeared ==> !fullEtcAppeared && (dotCount == 1 || dotCount == 2) && EndsInDots(s[..i], dotCount)
      invariant fullEtcAppeared ==> dotCount == 3 && EtcAt(s[..i], etc)
    {
      var c := s[i];
      assert s[..i + 1] == s[..i] + [c];
      if c == '.' {
        if fullEtcAppeared {
          FourDots(s, i, etc);
          return false;
        }
        firstEtcAppeared := true;
        dotCount := dotCount + 1;
        if dotCount >= 3 {
          fullEtcAppeared := true;
          firstEtcAppeared := false;
          etc := i - 2;
        }
      } else if firstEtcAppeared {
        ShortRun(s, i, dotCount);
        return false;
      }
      i := i + 1;
    }
    assert s[..i] == s;
    if firstEtcAppeared && !fullEtcAppeared {
      ShortEnd(s, dotCount);
      return false;
    }
    return true;
  }

  lemma FourDots(s: string, i: nat, etc: nat)
    requires i < |s| && s[i] == '.' && EtcAt(s[..i], etc)
    ensures !Dots(s)
  {
    assert s[..i][etc] == '.' && s[..i][etc + 1] == '.' && s[..i][etc + 2] == '.';
    assert s[etc] == '.' && s[etc + 1] == '.' && s[etc + 2] == '.';
    forall k: nat | EtcAt(s, k) ensures false {
    }
  }

  lemma ShortRun(s: string, i: nat, n: nat)
    requires i < |s| && s[i] != '.' && (n == 1 || n == 2) && EndsInDots(s[..i], n)
    ensures !Dots(s)
  {
    assert s[..i][i - 1] == '.';
    assert s[i - 1] == '.';
    if i >= 3 {
      assert s[..i][i - 3] == s[i - 3];
      assert s[i - 3] != '.';
    }
  }

  lemma ShortEnd(s: string, n: nat)
    requires (n == 1 || n == 2) && EndsInDots(s, n)
    ensures !Dots(s)
  {
    assert s[|s| - 1] == '.';
    if |s| >= 3 {
      assert s[|s| - 3] != '.';
    }
  }

  /** validate accepts exactly the layouts of the grammar. */
  method Validate(s: string) returns (ok: bool)
    ensures ok <==> Valid(s)
  {
    if !AllowedOnly(s) {
      return false;
    }
    var once := LettersOnce(s);
    if !once {
      return false;
    }
    ok := DotsOnce(s);
  }

  // ---- searching ----

  ghost predicate Occurs(s: string, pattern: string, i: int) {
    0 <= i && i + |pattern| <= |s| && s[i..i + |pattern|] == pattern
  }

  function Find(s: string, pattern: string, from: nat := 0): (r: Option<nat>)
    requires from <= |s|
    ensures r.Some? ==> from <= r.value && Occurs(s, pattern, r.value)
    ensures forall i :: Occurs(s, pattern, i) && from <= i ==> r.Some? && r.value <= i
    decreases |s| - from
  {
    if from + |pattern| > |s| then None
    else if s[from..from + |pattern|] == pattern then Some(from)
    else if from == |s| then None
    else Find(s, pattern, from + 1)
  }

  function ContainsEtc(s: string): bool {
    Find(s, ETC).Some?
  }

  lemma OccursEtc(s: string, i: nat)
    ensures Occurs(s, ETC, i) <==> i + 3 <= |s| && s[i] == '.' && s[i + 1] == '.' && s[i + 2] == '.'
  {
    if i + 3 <= |s| {
      assert s[i..i + 3][0] == s[i] && s[i..i + 3][1] == s[i + 1] && s[i..i + 3][2] == s[i + 2];
    }
  }

  lemma EtcFound(s: string)
    requires Valid(s)
    ensures ContainsEtc(s) <==> !NoDots(s)
    ensures ContainsEtc(s) ==> EtcAt(s, Find(s, ETC).value)
  {
    if ContainsEtc(s) {
      OccursEtc(s, Find(s, ETC).value);
    }
    if i: nat :| EtcAt(s, i) {
      OccursEtc(s, i);
      assert Occurs(s, ETC, i);
    }
  }

  lemma FoundN(s: string)
    ensures Find(s, "N").Some? <==> 'N' in s
    ensures Find(s, "N").Some? ==> var k := Find(s, "N").value; k < |s| && s[k] == 'N' && 'N' !in s[..k]
  {
    forall i | 0 <= i < |s| ensures Occurs(s, "N", i) <==> s[i] == 'N' {
      assert s[i..i + 1] == [s[i]];
    }
    if Find(s, "N").Some? {
      assert forall i :: 0 <= i < Find(s, "N").value ==> !Occurs(s, "N", i);
    } else {
      assert forall i :: 0 <= i < |s| ==> !Occurs(s, "N", i);
    }
  }

  // ---- the batch index ----

  function BatchIndexOf(s: string, valid: bool): Option<nat> {
    var batch, etc := Find(s, "N"), Find(s, ETC);
    if !valid || s == ETC || batch.None? || (etc.Some? && batch.value > etc.value) then None
    else batch
  }

  /** The batch index points at 'N', and nothing before it is of unknown length. */
  ghost predicate BatchAt(s: string, k: nat) {
    k < |s| && s[k] == 'N' && NoDots(s[..k])
  }

  /** The batch index is the one that a layout made from the same text has. */
  ghost predicate Made(layout: Layout) {
    forall k: nat :: layout.batchIndex == Some(k) <==> Valid(layout.text) && BatchAt(layout.text, k)
  }

  method Make(text: string) returns (layout: Layout)
    ensures layout.text == text && Made(layout)
  {
    var valid := Validate(text);
    layout := Layout(text, BatchIndexOf(text, valid));
    if valid {
      BatchIndexMeaning(text);
    }
  }

  lemma BatchIndexMeaning(s: string)
    requires Valid(s)
    ensures forall k: nat :: BatchIndexOf(s, true) == Some(k) <==> BatchAt(s, k)
  {
    EtcFound(s);
    FoundN(s);
    var r := BatchIndexOf(s, true);
    if Find(s, "N").Some? {
      var n := Find(s, "N").value;
      assert r == Some(n) <==> BatchAt(s, n) by {
        if ContainsEtc(s) {
          EtcBefore(s, Find(s, ETC).value, n);
        }
      }
      assert 'N' in LETTERS;
      assert forall k: nat :: BatchAt(s, k) ==> k == n;
    } else {
      assert forall k: nat :: !BatchAt(s, k);
    }
  }

  lemma EtcBefore(s: string, etc: nat, n: nat)
    requires EtcAt(s, etc) && n < |s| && s[n] == 'N'
    ensures NoDots(s[..n]) <==> n < etc
    ensures s != ETC
  {
    if n > etc {
      assert s[..n][etc] == s[etc];
    }
  }

  // ---- expansion to n dimensions ----

  /** The number of characters that satisfy a test, as std::count_if counts them. */
  function CountNotDots(s: string): nat {
    if s == [] then 0 else CountNotDots(s[..|s| - 1]) + (if s[|s| - 1] != '.' then 1 else 0)
  }

  function CountKnown(s: string): nat {
    if s == [] then 0 else CountKnown(s[..|s| - 1]) + (if Known(s[|s| - 1]) then 1 else 0)
  }

  function Unknown(n: nat): (r: string)
    ensures |r| == n && forall i :: 0 <= i < n ==> r[i] == '?'
  {
    seq(n, _ => '?')
  }

  /** "..." is replaced by as many unknown dimensions as are missing; None if there are
      too many already. A layout without "..." stays as it is. */
  function Expand(s: string, n: nat): Option<string> {
    if !ContainsEtc(s) then Some(s)
    else if CountNotDots(s) > n then None
    else
      var i := Find(s, ETC).value;
      Some(s[..i] + Unknown(n - CountNotDots(s)) + s[i + 3..])
  }

  /** A layout of exactly its dimensions: letters, each at most once, and unknowns. */
  ghost predicate Full(s: string) {
    (forall i :: 0 <= i < |s| ==> Known(s[i])) && DistinctLetters(s)
  }

  lemma {:induction false} CountWithEtc(s: string, i: nat)
    requires EtcAt(s, i)
    ensures CountNotDots(s) == |s| - 3
  {
    CountSplit(s[..i], s[i..i + 3], s[i + 3..]);
    assert s == s[..i] + s[i..i + 3] + s[i + 3..];
    CountPlain(s[..i]);
    CountPlain(s[i + 3..]);
    assert s[i..i + 3] == "...";
    assert CountNotDots("...") == 0 by {
      assert "..."[..2] == ".." && ".."[..1] == "." && "."[..0] == "";
    }
  }

  lemma {:induction false} CountAppend(a: string, b: string)
    ensures CountNotDots(a + b) == CountNotDots(a) + CountNotDots(b)
  {
    if b == [] {
      assert a + b == a;
    } else {
      assert (a + b)[..|a + b| - 1] == a + b[..|b| - 1];
      CountAppend(a, b[..|b| - 1]);
    }
  }

  lemma CountSplit(a: string, b: string, c: string)
    ensures CountNotDots(a + b + c) == CountNotDots(a) + CountNotDots(b) + CountNotDots(c)
  {
    CountAppend(a + b, c);
    CountAppend(a, b);
  }

  lemma {:induction false} CountPlain(s: string)
    requires NoDots(s)
    ensures CountNotDots(s) == |s|
  {
    if s != [] {
      CountPlain(s[..|s| - 1]);
    }
  }

  lemma {:induction false} CountKnownIs(s: string)
    requires AllowedOnly(s)
    ensures CountKnown(s) == CountNotDots(s)
  {
    if s != [] {
      CountKnownIs(s[..|s| - 1]);
    }
  }

  /** Expansion of a valid layout: it exists exactly if the layout has not too many
      dimensions, has n dimensions if there was an "...", keeps the dimensions before the
      "..." at their index and those after it at their distance from the end. */
  lemma ExpandValid(s: string, n: nat)
    requires Valid(s)
    ensures NoDots(s) ==> Expand(s, n) == Some(s) && Full(s)
    ensures forall i: nat :: EtcAt(s, i) ==> (Expand(s, n).Some? <==> |s| - 3 <= n)
    ensures forall i: nat :: EtcAt(s, i) && Expand(s, n).Some? ==>
              var r := Expand(s, n).value; Full(r) && |r| == n && ExpandedAt(s, i, r)
  {
    EtcFound(s);
    if i: nat :| EtcAt(s, i) {
      EtcUnique(s);
      assert s[i] == '.';
      CountWithEtc(s, i);
      if |s| - 3 <= n {
        ExpandedFull(s, i, n, Expand(s, n).value);
      }
    }
  }

  lemma EtcUnique(s: string)
    ensures forall i: nat, j: nat :: EtcAt(s, i) && EtcAt(s, j) ==> i == j
  {
    forall i: nat, j: nat | EtcAt(s, i) && EtcAt(s, j) ensures i == j {
      assert s[i] == '.' && s[j] == '.';
    }
  }

  ghost predicate ExpandedAt(s: string, i: nat, r: string)
    requires EtcAt(s, i)
  {
    && |s| - 3 <= |r|
    && (forall k :: 0 <= k < i ==> r[k] == s[k])
    && (forall k :: i <= k < |r| - (|s| - 3 - i) ==> r[k] == '?')
    && (forall k :: |r| - (|s| - 3 - i) <= k < |r| ==> r[k] == s[k - |r| + |s|])
  }

  lemma ExpandedFull(s: string, i: nat, n: nat, r: string)
    requires Valid(s) && EtcAt(s, i) && |s| - 3 <= n
    requires r == s[..i] + Unknown(n - (|s| - 3)) + s[i + 3..]
    ensures Full(r) && |r| == n && ExpandedAt(s, i, r)
  {
  }

  // ---- merging ----

  /** Where both dimensions are known they agree. */
  ghost predicate Agree(a: string, b: string)
    requires |a| == |b|
  {
    forall i :: 0 <= i < |a| ==> a[i] == b[i] || a[i] == '?' || b[i] == '?'
  }

  function Overlay(a: string, b: string): (r: string)
    requires |a| == |b|
    ensures |r| == |a| && forall i :: 0 <= i < |a| ==> r[i] == if a[i] == '?' then b[i] else a[i]
  {
    seq(|a|, i requires 0 <= i < |a| => if a[i] == '?' then b[i] else a[i])
  }

  ghost predicate Mergeable(a: string, b: string) {
    |a| == |b| && Agree(a, b) && DistinctLetters(Overlay(a, b))
  }

  /** The merge of two layouts over n dimensions. */
  ghost function Merge(a: string, b: string, n: nat): Option<string> {
    var l, r := Expand(a, n), Expand(b, n);
    if l.Some? && r.Some? && |l.value| == n && |r.value| == n && Mergeable(l.value, r.value)
    then Some(Overlay(l.value, r.value)) else None
  }

  /** The loop that rewrites the left layout in place. */
  method MergeLoop(left: string, right: string) returns (result: Option<string>)
    requires |left| == |right| && Full(left) && Full(right)
    ensures result == if Mergeable(left, right) then Some(Overlay(left, right)) else None
  {
    var lhs := left;
    var i := 0;
    while i < |lhs|
      invariant 0 <= i <= |lhs| == |left|
      invariant forall k :: 0 <= k < i ==> lhs[k] == Overlay(left, right)[k]
      invariant forall k :: i <= k < |lhs| ==> lhs[k] == left[k]
      invariant forall k :: 0 <= k < i ==> left[k] == right[k] || left[k] == '?' || right[k] == '?'
      invariant forall k :: 0 <= k < i && left[k] == '?' && right[k] != '?' ==> right[k] !in left
    {
      if lhs[i] != right[i] {
        if right[i] != '?' && right[i] in lhs {
          FoundElsewhere(left, right, lhs, i);
          return None;
        }
        if lhs[i] == '?' {
          NotElsewhere(left, right, lhs, i);
          lhs := lhs[i := right[i]];
        } else if right[i] != '?' {
          return None;
        }
      }
      i := i + 1;
    }
    assert lhs == Overlay(left, right);
    OverlayDistinct(left, right);
    return Some(lhs);
  }

  lemma FoundElsewhere(left: string, right: string, lhs: string, i: nat)
    requires |left| == |right| == |lhs| && Full(left) && Full(right) && i < |left|
    requires forall k :: 0 <= k < i ==> lhs[k] == Overlay(left, right)[k]
    requires forall k :: i <= k < |lhs| ==> lhs[k] == left[k]
    requires left[i] != right[i] && right[i] != '?' && right[i] in lhs
    ensures !Mergeable(left, right)
  {
    var j :| 0 <= j < |lhs| && lhs[j] == right[i];
    assert j != i;
    assert right[j] != right[i];
    assert left[j] == right[i];
    var o := Overlay(left, right);
    assert o[j] == right[i];
    if left[i] == '?' {
      assert o[i] == right[i];
    }
  }

  lemma NotElsewhere(left: string, right: string, lhs: string, i: nat)
    requires |left| == |right| == |lhs| && Full(left) && Full(right) && i < |left|
    requires forall k :: 0 <= k < i ==> lhs[k] == Overlay(left, right)[k]
    requires forall k :: i <= k < |lhs| ==> lhs[k] == left[k]
    requires left[i] == '?' && right[i] !in lhs
    ensures right[i] !in left
  {
    forall j | 0 <= j < |left| ensures left[j] != right[i] {
      if left[j] != '?' {
        assert lhs[j] == left[j];
      } else {
        assert lhs[i] == '?';
      }
    }
  }

  lemma OverlayDistinct(left: string, right: string)
    requires |left| == |right| && Full(left) && Full(right)
    requires forall k :: 0 <= k < |left| && left[k] == '?' && right[k] != '?' ==> right[k] !in left
    ensures DistinctLetters(Overlay(left, right))
  {
    var o := Overlay(left, right);
    forall i, j | 0 <= i < j < |o| && o[i] in LETTERS ensures o[i] != o[j] {
      assert '?' !in LETTERS;
    }
  }

  /** createIntersection: expands both layouts, then merges them; the result is a copy
      of the receiver, so it has the receiver's batch index. */
  method CreateIntersection(self: Layout, other: Layout, n: nat) returns (result: Option<Layout>)
    requires Valid(self.text) && Valid(other.text)
    ensures result.Some? <==> Merge(self.text, other.text, n).Some?
    ensures result.Some? ==> Some(result.value.text) == Merge(self.text, other.text, n)
    ensures result.Some? ==> result.value.batchIndex == self.batchIndex
    ensures result.Some? && Made(self) ==>
              (Made(result.value) <==> self.batchIndex.Some? || ('N' !in self.text && 'N' !in other.text))
  {
    ExpandValid(self.text, n);
    ExpandValid(other.text, n);
    var lhs := Expand(self.text, n);
    if lhs.None? {
      return None;
    }
    var rhs := Expand(other.text, n);
    if rhs.None? {
      return None;
    }
    if |lhs.value| != |rhs.value| || |lhs.value| != n {
      return None;
    }
    var merged := MergeLoop(lhs.value, rhs.value);
    if merged.None? {
      return None;
    }
    result := Some(self.(text := merged.value));
    if Made(self) {
      BatchIndexExact(self, other.text, n, result.value);
    }
  }

  // ---- the algebra of merging ----

  /** Layout x of full length has all known dimensions of l. */
  ghost predicate Refines(x: string, l: string) {
    |x| == |l| && forall i :: 0 <= i < |l| && l[i] != '?' ==> x[i] == l[i]
  }

  lemma ExpandFull(s: string, n: nat)
    requires Full(s)
    ensures Valid(s) && NoDots(s) && Expand(s, n) == Some(s)
  {
    assert '.' !in LETTERS;
    assert NoDots(s);
    ExpandValid(s, n);
  }

  lemma Expanded(s: string, n: nat)
    requires Valid(s) && Expand(s, n).Some?
    ensures Full(Expand(s, n).value)
  {
    ExpandValid(s, n);
  }

  /** The result is a valid layout of n dimensions that keeps every known dimension of
      both sides. */
  lemma MergeRefines(a: string, b: string, n: nat)
    requires Valid(a) && Valid(b) && Merge(a, b, n).Some?
    ensures var r := Merge(a, b, n).value;
            && Valid(r) && Full(r) && |r| == n
            && Refines(r, Expand(a, n).value) && Refines(r, Expand(b, n).value)
  {
    Expanded(a, n);
    Expanded(b, n);
    ExpandFull(Merge(a, b, n).value, n);
  }

  /** The merge exists exactly if some layout of n dimensions refines both sides, and
      then every such layout refines the merge: it is the greatest lower bound. */
  lemma MergeIsMeet(a: string, b: string, n: nat)
    requires Valid(a) && Valid(b)
    requires Expand(a, n).Some? && Expand(b, n).Some?
    ensures Merge(a, b, n).Some? <==>
            exists x :: CommonRefinement(x, a, b, n)
    ensures forall x :: CommonRefinement(x, a, b, n) ==> Merge(a, b, n).Some? && Refines(x, Merge(a, b, n).value)
  {
    forall x | CommonRefinement(x, a, b, n) ensures Merge(a, b, n).Some? && Refines(x, Merge(a, b, n).value) {
      RefinedMergeable(x, Expand(a, n).value, Expand(b, n).value);
    }
    if Merge(a, b, n).Some? {
      MergeRefines(a, b, n);
      assert CommonRefinement(Merge(a, b, n).value, a, b, n);
    }
  }

  ghost predicate CommonRefinement(x: string, a: string, b: string, n: nat)
    requires Expand(a, n).Some? && Expand(b, n).Some?
  {
    Full(x) && |x| == n && Refines(x, Expand(a, n).value) && Refines(x, Expand(b, n).value)
  }

  lemma RefinedMergeable(x: string, a: string, b: string)
    requires Full(x) && Refines(x, a) && Refines(x, b)
    ensures Mergeable(a, b) && Refines(x, Overlay(a, b))
  {
    var o := Overlay(a, b);
    assert '?' !in LETTERS;
    forall i, j | 0 <= i < j < |o| && o[i] in LETTERS ensures o[i] != o[j] {
    }
  }

  lemma MergeCommutes(a: string, b: string, n: nat)
    requires Valid(a) && Valid(b)
    ensures Merge(a, b, n) == Merge(b, a, n)
  {
    if Expand(a, n).Some? && Expand(b, n).Some? {
      OverlayCommutes(Expand(a, n).value, Expand(b, n).value);
    }
  }

  lemma OverlayCommutes(a: string, b: string)
    ensures Mergeable(a, b) <==> Mergeable(b, a)
    ensures Mergeable(a, b) ==> Overlay(a, b) == Overlay(b, a)
  {
    if |a| == |b| && Agree(a, b) {
      assert Overlay(a, b) == Overlay(b, a);
    }
    if |a| == |b| && Agree(b, a) {
      assert Overlay(a, b) == Overlay(b, a);
    }
  }

  lemma MergeIdempotent(a: string, n: nat)
    requires Valid(a)
    ensures Merge(a, a, n) == if Expand(a, n).Some? && |Expand(a, n).value| == n then Expand(a, n) else None
  {
    if Expand(a, n).Some? {
      Expanded(a, n);
      var e := Expand(a, n).value;
      assert Overlay(e, e) == e;
    }
  }

  ghost function MergeOption(a: Option<string>, b: Option<string>, n: nat): Option<string> {
    if a.Some? && b.Some? then Merge(a.value, b.value, n) else None
  }

  lemma MergeAssociates(a: string, b: string, c: string, n: nat)
    requires Valid(a) && Valid(b) && Valid(c)
    ensures MergeOption(Merge(a, b, n), Some(c), n) == MergeOption(Some(a), Merge(b, c, n), n)
  {
    var x, y, z := Expand(a, n), Expand(b, n), Expand(c, n);
    if x.Some? && y.Some? && z.Some? && |x.value| == |y.value| == |z.value| == n {
      OverlayAssociates(x.value, y.value, z.value);
    }
    if Merge(a, b, n).Some? {
      MergeRefines(a, b, n);
      ExpandFull(Merge(a, b, n).value, n);
    }
    if Merge(b, c, n).Some? {
      MergeRefines(b, c, n);
      ExpandFull(Merge(b, c, n).value, n);
    }
  }

  lemma OverlayAssociates(a: string, b: string, c: string)
    requires |a| == |b| == |c|
    ensures Overlay(Overlay(a, b), c) == Overlay(a, Overlay(b, c))
    ensures Mergeable(a, b) && Mergeable(Overlay(a, b), c) <==> Mergeable(b, c) && Mergeable(a, Overlay(b, c))
  {
    var o := Overlay(Overlay(a, b), c);
    assert o == Overlay(a, Overlay(b, c));
    if DistinctLetters(o) {
      PartDistinct(Overlay(a, b), o);
      if Agree(b, c) && Agree(a, Overlay(b, c)) {
        PartDistinct(Overlay(b, c), o);
      }
      if Agree(a, b) && Agree(Overlay(a, b), c) {
        PartDistinct(Overlay(b, c), o);
      }
    }
  }

  lemma PartDistinct(p: string, o: string)
    requires Refines(o, p) && DistinctLetters(o)
    ensures DistinctLetters(p)
  {
    assert '?' !in LETTERS;
  }

  // ---- compatibility with a shape ----

  function IsCompatible(s: string, rank: nat): bool {
    if ContainsEtc(s) then CountKnown(s) <= rank else CountKnown(s) == rank
  }

  lemma UnspecifiedExpands(n: nat)
    ensures Valid(ETC) && Expand(ETC, n) == Some(Unknown(n))
  {
    assert EtcAt(ETC, 0);
    ExpandValid(ETC, n);
    assert Expand(ETC, n).value == Unknown(n);
  }

  /** A valid layout is compatible with a shape exactly if it merges with the
      unspecified layout over the dimensions of the shape. */
  lemma CompatibleIsMergeable(s: string, n: nat)
    requires Valid(s)
    ensures IsCompatible(s, n) <==> Merge(s, ETC, n).Some?
    ensures IsCompatible(s, n) ==> Merge(s, ETC, n) == Expand(s, n)
  {
    EtcFound(s);
    ExpandValid(s, n);
    UnspecifiedExpands(n);
    CountKnownIs(s);
    if NoDots(s) {
      CountPlain(s);
    } else {
      CountWithEtc(s, Find(s, ETC).value);
    }
    if Expand(s, n).Some? && |Expand(s, n).value| == n {
      assert Overlay(Expand(s, n).value, Unknown(n)) == Expand(s, n).value;
    }
  }

  // ---- the batch index of a merge ----

  /** The batch index that the result takes over from the receiver points at 'N', and
      it is the one a layout made from the result's text would have. */
  lemma MergeKeepsBatchIndex(self: string, other: string, n: nat, k: nat)
    requires Valid(self) && Valid(other) && BatchAt(self, k) && Merge(self, other, n).Some?
    ensures BatchAt(Merge(self, other, n).value, k)
  {
    ExpandValid(self, n);
    EtcFound(self);
    MergeRefines(self, other, n);
    var e := Expand(self, n).value;
    if i: nat :| EtcAt(self, i) {
      EtcBefore(self, i, k);
      assert e[k] == self[k];
    }
    var r := Merge(self, other, n).value;
    assert r[k] == 'N';
    ExpandFull(r, n);
  }

  /** Every letter of a valid layout is in its expansion, and nothing else is but '?'. */
  lemma ExpansionLetters(s: string, n: nat, c: char)
    requires Valid(s) && Expand(s, n).Some? && c != '?' && c != '.'
    ensures c in Expand(s, n).value <==> c in s
  {
    ExpandValid(s, n);
    EtcFound(s);
    if i: nat :| EtcAt(s, i) {
      SameLetters(s, i, Expand(s, n).value, c);
    }
  }

  lemma SameLetters(s: string, i: nat, r: string, c: char)
    requires EtcAt(s, i) && ExpandedAt(s, i, r) && c != '?' && c != '.'
    ensures c in r <==> c in s
  {
    if c in s {
      var k :| 0 <= k < |s| && s[k] == c;
      assert r[if k < i then k else k - |s| + |r|] == c;
    }
    if c in r {
      var k :| 0 <= k < |r| && r[k] == c;
      assert s[if k < i then k else k - |r| + |s|] == c;
    }
  }

  lemma MergeHasN(self: string, other: string, n: nat)
    requires Valid(self) && Valid(other) && Merge(self, other, n).Some?
    ensures 'N' in Merge(self, other, n).value <==> 'N' in self || 'N' in other
  {
    ExpansionLetters(self, n, 'N');
    ExpansionLetters(other, n, 'N');
    var l, r, m := Expand(self, n).value, Expand(other, n).value, Merge(self, other, n).value;
    if 'N' in l {
      var k :| 0 <= k < |l| && l[k] == 'N';
      assert m[k] == 'N';
    }
    if 'N' in r {
      var k :| 0 <= k < |r| && r[k] == 'N';
      assert m[k] == 'N';
    }
  }

  /** The merge carries over the receiver's batch index. For a receiver with the index
      that belongs to its text, the index belongs to the text of the merge exactly if
      the receiver has one or neither side has an 'N'. */
  lemma BatchIndexExact(self: Layout, other: string, n: nat, result: Layout)
    requires Valid(self.text) && Valid(other) && Made(self)
    requires Merge(self.text, other, n) == Some(result.text) && result.batchIndex == self.batchIndex
    ensures Made(result) <==> self.batchIndex.Some? || ('N' !in self.text && 'N' !in other)
  {
    MergeRefines(self.text, other, n);
    MergeHasN(self.text, other, n);
    ExpandFull(result.text, n);
    if self.batchIndex.Some? {
      MergeKeepsBatchIndex(self.text, other, n, self.batchIndex.value);
      assert forall k: nat :: BatchAt(result.text, k) ==> k == self.batchIndex.value;
    } else if i :| 0 <= i < |result.text| && result.text[i] == 'N' {
      assert BatchAt(result.text, i);
      assert result.batchIndex != Some(i);
    }
  }

  /** Merging the unspecified layout with NCHW loses the batch index. */
  lemma BatchIndexLost()
    ensures Valid(ETC) && Valid("NCHW") && forall k :: !BatchAt(ETC, k)
    ensures Merge(ETC, "NCHW", 4) == Some("NCHW") && BatchAt("NCHW", 0)
  {
    assert Full("NCHW");
    ExpandFull("NCHW", 4);
    UnspecifiedExpands(4);
    assert Overlay(Unknown(4), "NCHW") == "NCHW";
  }
}
